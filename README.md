# KalimerosBot GraphQL gateway: translation, training and authorization core

This project models, in Dafny, the part of the KalimerosBot GraphQL gateway that
carries its own logic:

- **script detection** (`detect_language`): a word is Russian or Greek when all of it
  is made of that script's letters, compared case-insensitively, otherwise OTHER.
  The letter classes of utils.py:78-79 are `LanguageDetection.IsRussianLetter`
  (а-я, ё and their capitals А-Я, Ё) and `LanguageDetection.IsGreekLetter` (α-ω, the
  accented vowels άέήίόύώ, the capitals Α-Ω without the unassigned U+03A2, and the
  accented capitals ΆΈΉΊΌΎΏ);
- **translation lookup** (`get_translation`): two fixed three-word dictionaries, each
  the other's inverse, chosen by the detected script;
- **the training state machine** (`start_training`, `submit_answer`, `stop_training`)
  over the process-wide table `user_progress` from user id to `{completed, total}`;
- **the authorization guard** (`authorized_only`), which turns a missing token, a
  provider error or a missing user into an `ErrorResponse` and runs the wrapped
  resolver only for a resolved user;
- **the request context** (`Context.user`): token extraction from the
  `Authorization` header, the user id taken from the provider's `sub`, and the
  per-context cache.

Modules, one per component: `Wrappers` (Option), `Responses` (the result unions
`StandardResponse` and `TrainingSessionResult`), `LanguageDetection`, `Translation`,
`Training`, `Identity` (the context), `Guard` and `Resolvers` (the decorated training
resolvers: guard, context and table composed).

The identity provider is an external service and appears as a function value given
to each `Context` (`Identity.Provider`). The training table is a class,
`Training.TrainingStore`, whose methods change its `progress` map in place; each is
proved equal to a pure function on the table (`Start`, `Submit`, `Stop`), and the
properties of the feature are proved about those functions.

Behaviour of the code that the model keeps as it is:

- A missing token, a rejected token and a missing user get three different messages:
  "Please provide a valid token", the repr of the provider's error, and "Can't find user
  with given credentials" (`Guard.ScreenMessages`, `Guard.NoTokenDistinctFromNoUser`).
- `cached_property` stores only a user that was returned; a read that raised is computed
  again on the next read. One guarded field asks the provider at most once, because the
  guard stops at the first failure. Two guarded mutation fields in one request ask it at most once
  when a user is resolved, and up to twice when the guard answered the first with an error.
  An IndexError that escapes the first field ends the mutation, so the second field
  does not run (`Resolvers.SubmitThenStop`, `Identity.ReadTwice`).
- A `sub` without `|` raises IndexError inside the guard. The guard does not catch it,
  so it leaves the resolver (`Guard.OnlyIndexErrorEscapes`).
- Python's `$` also matches before one final newline, so "кот\n" is detected as Russian
  (and then cannot be translated) (`LanguageDetection.FinalNewlineAdmitted`).
- The header is cleaned with `str.replace`, which makes a single pass. "BeBearer arer "
  therefore becomes the token "Bearer " (`Identity.RemoveAllSinglePass`).

## Model

| member | source | states |
|---|---|---|
| `LanguageDetection.ClassRun` | utils.py:78-79 | the greedy letter run is within the text, all its characters are in the class, and the character after it is not |
| `LanguageDetection.Matches` | utils.py:78-85 | a pattern matches exactly when the text, less one final newline, is non-empty and made only of class letters |
| `LanguageDetection.DetectLanguage` | utils.py:83-87 | RUS exactly when the text spells Russian, GREEK exactly when it spells Greek, OTHER exactly when it spells neither |
| `LanguageDetection.LettersDisjoint` | utils.py:78-79 | no character is both a Russian and a Greek letter |
| `LanguageDetection.ScriptsDisjoint` | utils.py:77-80 | no text spells both scripts |
| `LanguageDetection.RuleOrderIrrelevant` | utils.py:84-87 | trying GREEK before RUS gives the same answer |
| `LanguageDetection.RunSpells` | utils.py:78-79 | a non-empty run of class letters spells its script |
| `LanguageDetection.EmptyIsOther` | utils.py:78-79 | the empty text and a lone newline are OTHER |
| `LanguageDetection.LatinIsOther` | utils.py:83-87 | Latin letters are OTHER |
| `LanguageDetection.DigitsAndPunctuationAreOther` | utils.py:83-87 | a digit or punctuation inside a Russian word makes it OTHER |
| `LanguageDetection.MixedIsOther` | utils.py:83-87 | mixed Russian and Greek text is OTHER |
| `LanguageDetection.TwoNewlinesAreOther` | utils.py:78 | only one final newline is admitted |
| `LanguageDetection.RussianExamples` | utils.py:78 | lower-case, upper-case and `ё` Russian words are RUS |
| `LanguageDetection.FinalNewlineAdmitted` | utils.py:78 | a Russian word followed by one newline is RUS |
| `LanguageDetection.GreekExamples` | utils.py:79 | lower-case, upper-case and accented Greek words are GREEK |
| `Translation.Get` | schema.py:94 | a lookup succeeds exactly for the dictionary's keys and yields a value paired with the key |
| `Translation.Keys` | schema.py:200 | `list(d)` has one entry per pair, the keys in insertion order |
| `Translation.GetPair` | schema.py:94-99 | in a dictionary with distinct keys, every key looks up its own value |
| `Translation.SeededDictionaries` | schema.py:16-26 | both dictionaries have distinct keys and each is the other with sides swapped |
| `Translation.GetTranslation` | schema.py:87-102 | always a StandardResponse; OTHER text gets the unsupported-language error; otherwise success exactly for a key of the script's dictionary, carrying a value paired with the word, and the "Can't translate" error for every other word |
| `Translation.SeededScripts` | schema.py:16-26 | each seeded Russian word is detected RUS and each seeded Greek word GREEK |
| `Translation.RoundTrip` | schema.py:16-26 | translating a seeded word and then its translation gives the word back, in both directions |
| `Translation.CatExample` | schema.py:19 | кот translates to γάτα and back |
| `Translation.UnknownGreekWord` | schema.py:93-97 | a Greek word outside the dictionary gets "Can't translate '<word>'" |
| `Translation.LatinWordRefused` | schema.py:89-92 | Latin text gets the unsupported-language error |
| `Training.Start` | schema.py:110-119 | the caller's entry becomes completed 0 of the number of words, other entries are unchanged, validity is kept, and the reply offers the first word |
| `Training.Advance` | schema.py:190-194 | an entry moves by exactly one when below its total and the answer is non-empty, otherwise it stays; it stays within its total |
| `Training.Reply` | schema.py:196-203 | a TrainingSession exactly when below the total, carrying the word at the completed position (in bounds), otherwise "You are all done!" |
| `Training.Submit` | schema.py:182-203 | without an entry, the "start first" error and no change; at the total, "all done" and no change; otherwise the caller's entry becomes Advance of it and the reply is Reply of the new entry (its word and counters, or "all done" on reaching the total); only the caller's entry changes; validity is kept; every offered word is the word at its position |
| `Training.Stop` | schema.py:207-212 | with an entry, it is deleted and the reply is "Training session finished!"; without one, the "didn't start" error and no change; no other entry changes |
| `Training.SubmitAll` | schema.py:182-203 | a run of answers keeps the table valid and touches only the caller's entry |
| `Training.ProgressCountsAnswers` | schema.py:190-197 | after a run of answers, completed is the old count plus the number of non-empty answers, capped at the total, whatever the answers say |
| `Training.RestartResets` | schema.py:110-113 | starting again after any answers gives the same table and reply as the first start: nothing accumulates |
| `Training.StopThenSubmit` | schema.py:185-187 | after a stop, the next answer gets the "start first" error |
| `Training.EmptyAnswerKeepsTable` | schema.py:193-194 | an empty answer changes nothing |
| `Training.Walkthrough` | schema.py:110-203 | after a start, non-empty answers are offered γεια, κόσμος, γάτα in turn; the third answer gives "all done" at 3 of 3, and further answers change nothing |
| `Training.TrainingStore.constructor` | schema.py:28 | the table starts empty |
| `Training.TrainingStore.StartTraining` | schema.py:110-119 | the in-place update and reply are those of Start |
| `Training.TrainingStore.SubmitAnswer` | schema.py:182-203 | the in-place update and reply are those of Submit |
| `Training.TrainingStore.StopTraining` | schema.py:207-212 | the deletion and reply are those of Stop |
| `Identity.RemoveAll` | context.py:23-24 | removing occurrences never lengthens the text |
| `Identity.RemoveAllRepeat` | context.py:23-24 | a text made of copies of "Bearer " is cleaned to nothing |
| `Identity.RemoveAllEmpty` | context.py:23-24 | only such texts are cleaned to nothing |
| `Identity.RemoveAllAbsent` | context.py:23-24 | a text without the prefix is left as it is |
| `Identity.RemoveAllAtFirst` | context.py:23-24 | the pass keeps the text before the first occurrence, deletes that occurrence and continues after it |
| `Identity.RemoveAllSinglePass` | context.py:23-24 | a single pass: "BeBearer arer " becomes "Bearer " |
| `Identity.Token` | context.py:23-24 | a missing header gives the empty token; the token is never longer than the header, and a header without "Bearer " is the token itself |
| `Identity.TokenEmpty` | context.py:23-25 | the token is empty exactly when the header is missing or is only copies of "Bearer " |
| `Identity.Split` | context.py:28 | splitting gives at least one field, no field holds the separator, and two or more fields exactly when the separator occurs |
| `Identity.JoinSplit` | context.py:28 | joining the fields with the separator gives the original text back |
| `Identity.SplitAtFirst` | context.py:28 | the fields are the text before the first separator, then the fields of what follows it |
| `Identity.UserIdFromSub` | context.py:28 | there is no id (IndexError) exactly when `sub` has no `|`, and an id never holds `|` |
| `Identity.UserIdBetweenBars` | context.py:28 | the id is the text after the first `|` up to the next `|` or the end |
| `Identity.UserIdExample` | context.py:28 | "auth0\|abc" gives "abc"; "abc" gives none |
| `Identity.Resolve` | context.py:23-31 | an empty token raises NoTokenException before the provider is consulted; a provider rejection raises Auth0Error with its repr; an answer whose `sub` holds `\|` yields a user, and a user is produced only from such an answer, with its id taken from `sub` and name and email copied unchanged; IndexError exactly when the answered `sub` has no `\|` |
| `Identity.Context.constructor` | context.py:20-22 | a new context has nothing cached and has asked the provider nothing |
| `Identity.Context.GetUser` | context.py:21-31 | a cached user is returned without consulting the provider; otherwise the read is Resolve, the provider is consulted once for a non-empty token, and only a returned user is cached |
| `Identity.ReadTwice` | context.py:21-22 | a second read returns the user of the first without another provider call |
| `Guard.Screen` | utils.py:26-34 | the wrapped resolver is admitted exactly when a user was resolved; every caught path becomes an ErrorResponse; only an exception other than the two caught ones escapes |
| `Guard.AuthorizedOnly` | utils.py:26-35 | for a resolved user the wrapped resolver's answer is returned unchanged; otherwise the outcome is the guard's own and does not involve the wrapped resolver |
| `Guard.ScreenMessages` | utils.py:29-34 | Auth0Error gives its repr, NoTokenException its message, a missing user "Can't find user with given credentials" |
| `Guard.NoTokenDistinctFromNoUser` | utils.py:31-34 | the missing-token and missing-user messages differ |
| `Guard.WrappedRunsOnlyForUser` | utils.py:33-35 | for a resolved user the wrapped resolver's answer is returned unchanged; on every other path the outcome does not depend on the wrapped resolver |
| `Guard.OnlyIndexErrorEscapes` | utils.py:27-32 | the only exception a guarded resolver lets through is IndexError |
| `Resolvers.RereadUser` | context.py:21-22 | the body's read of the user, after admission, returns the admitted user from the cache |
| `Resolvers.StartTraining` | schema.py:108-119 | a rejected request returns the guard's outcome and leaves the table alone; an admitted one performs Start for the caller's id; the provider is consulted once exactly when nothing was cached and the token is non-empty; afterwards the context caches the resolved user, or keeps what it had |
| `Resolvers.SubmitAnswer` | schema.py:180-203 | likewise with Submit |
| `Resolvers.StopTraining` | schema.py:205-212 | likewise with Stop |
| `Resolvers.SubmitThenStop` | context.py:21-22 | two guarded mutation fields on one context: with a resolved user, at most one provider call, the user stays cached, the first reply is Submit's and the second is Stop's on the table Submit left for that user; after a rejection the guard answers, both fields get the same rejection, the table is unchanged and the provider may be asked twice; after an escaping IndexError the second field does not run and the table is unchanged |
| `Resolvers.UnauthenticatedSubmit` | utils.py:31-32 | on a context without an Authorization header an answer gets "Please provide a valid token", the table is unchanged, nothing is cached and the provider is not consulted |

## Left out

- Sign-up, sign-in and token generation (`Mutation.sign_up`, `sign_in`, `_generate_tokens`, `HandleToken`): calls into the identity provider's SDK, with no logic of their own beyond forwarding errors.
- `Mutation.add_word`: a call to the dictionary gRPC service, whose stubs and channel are not part of this model.
- `Query.hello` and `get_random_translation`: they return constants.
- `config.py`, `get_context`, the GraphQL/FastAPI decorators, `UnauthenticatedException` and `UnauthorizedException`: configuration and transport code.
- Resolvers.SubmitThenStop: the provider is a function of the token, so it is assumed to answer a given token the same way on every call within one request; a real service that fails once and then succeeds on the second read would admit the second field, which the model does not capture.
- Concurrency: the code has no locking on `user_progress` and runs resolvers one at a time, so each call is modelled as one sequential method call.
- Case-insensitive matches beyond the plain upper- and lower-case letters of the two alphabets (such as ϴ for θ, the Ohm sign for ω, or ϐ for β) are not modelled.
- `Identity.Resolve`: the provider's Auth0Error is carried as its repr text; how the SDK renders that text is not modelled.
- `Identity.Resolve`: a provider failure other than Auth0Error (a network error), or an answer without `sub`, `name` or `email` (a KeyError), is not modelled.
- `Guard.AuthorizedOnly`: the wrapped resolver is modelled as a pure function of the user; the stateful training resolvers are composed with the guard in `Resolvers` instead.
- A falsy user: `Context.user` never returns None, so the guard's "Can't find user" path is modelled in `Guard.Screen` but `Identity.Resolve` never produces it.
- The entry dict is changed in place in the code (`session["completed"] += 1`); the model replaces the table's entry by a new value, which is the same since no one else holds that dict.
