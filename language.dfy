/**
 * Script detection: a word is Russian or Greek when all of it is written in that
 * script's fixed letter class, compared case-insensitively; everything else is OTHER.
 * The two patterns are anchored with `^` and `$`, and Python's `$` also accepts one
 * final newline, so "кот\n" is still Russian.
 */
module LanguageDetection {

  datatype Language = RUS | GREEK | OTHER

  /** `[а-яё]` under IGNORECASE: the lower-case letters and their capitals А-Я, Ё. */
  predicate IsRussianLetter(c: char) {
    ('а' <= c <= 'я') || c == 'ё' || ('А' <= c <= 'Я') || c == 'Ё'
  }

  /**
   * `[α-ωάέήίόύώ]` under IGNORECASE: α to ω (final sigma included), the accented
   * vowels, the capitals Α to Ω (U+03A2 is an unassigned code point, not a letter)
   * and the accented capitals.
   */
  predicate IsGreekLetter(c: char) {
    || ('α' <= c <= 'ω')
    || c == 'ά' || c == 'έ' || c == 'ή' || c == 'ί' || c == 'ό' || c == 'ύ' || c == 'ώ'
    || ('Α' <= c <= 'Ω' && c != '\U{03A2}')
    || c == 'Ά' || c == 'Έ' || c == 'Ή' || c == 'Ί' || c == 'Ό' || c == 'Ύ' || c == 'Ώ'
  }

  /** The letter class of a script; OTHER has no pattern and admits nothing. */
  predicate InClass(lang: Language, c: char) {
    match lang
    case RUS => IsRussianLetter(c)
    case GREEK => IsGreekLetter(c)
    case OTHER => false
  }

  /** What `$` leaves to the letter run: the text without one final newline. */
  function Body(text: string): string {
    if |text| > 0 && text[|text| - 1] == '\n' then text[..|text| - 1] else text
  }

  /** Reference meaning of `^[class]+$`: a non-empty body made only of letters of the class. */
  ghost predicate Spells(lang: Language, text: string) {
    var body := Body(text);
    |body| > 0 && forall i :: 0 <= i < |body| ==> InClass(lang, body[i])
  }

  /** Length of the greedy run of class letters at the start of `s` (the `[...]+` part). */
  function ClassRun(lang: Language, s: string): (n: nat)
    ensures n <= |s|
    ensures forall i :: 0 <= i < n ==> InClass(lang, s[i])
    ensures n < |s| ==> !InClass(lang, s[n])
  {
    if |s| == 0 || !InClass(lang, s[0]) then 0 else 1 + ClassRun(lang, s[1..])
  }

  /** `pattern.match(text)`: a non-empty run, then the end of the text or a final newline. */
  function Matches(lang: Language, text: string): (b: bool)
    ensures b <==> Spells(lang, text)
  {
    var n := ClassRun(lang, text);
    n > 0 && (n == |text| || (n == |text| - 1 && text[n] == '\n'))
  }

  /** `detect_language`: try RUS, then GREEK, in the order of LANG_MAPPING. */
  function DetectLanguage(text: string): (r: Language)
    ensures r == RUS <==> Spells(RUS, text)
    ensures r == GREEK <==> Spells(GREEK, text)
    ensures r == OTHER <==> !Spells(RUS, text) && !Spells(GREEK, text)
  {
    ScriptsDisjoint(text);
    if Matches(RUS, text) then RUS
    else if Matches(GREEK, text) then GREEK
    else OTHER
  }

  /** No character belongs to both letter classes. */
  lemma LettersDisjoint(c: char)
    ensures !(IsRussianLetter(c) && IsGreekLetter(c))
  {
  }

  /** Hence no text spells both scripts. */
  lemma ScriptsDisjoint(text: string)
    ensures !(Spells(RUS, text) && Spells(GREEK, text))
  {
    if |Body(text)| > 0 {
      LettersDisjoint(Body(text)[0]);
    }
  }

  /** Trying GREEK first gives the same answer: the rule order does not matter. */
  lemma RuleOrderIrrelevant(text: string)
    ensures DetectLanguage(text) ==
            (if Matches(GREEK, text) then GREEK else if Matches(RUS, text) then RUS else OTHER)
  {
    ScriptsDisjoint(text);
  }

  /** The empty text and a lone newline are OTHER: the run must be non-empty. */
  lemma EmptyIsOther()
    ensures DetectLanguage("") == OTHER
    ensures DetectLanguage("\n") == OTHER
  {
    assert Body("\n") == "";
  }

  /** Latin letters are OTHER. */
  lemma LatinIsOther()
    ensures DetectLanguage("hello") == OTHER
  {
    assert Body("hello")[0] == 'h';
  }

  /** A digit or punctuation inside a Russian word makes it OTHER. */
  lemma DigitsAndPunctuationAreOther()
    ensures DetectLanguage("кот1") == OTHER
    ensures DetectLanguage("кот!") == OTHER
  {
    assert Body("кот1")[3] == '1';
    assert Body("кот!")[3] == '!';
  }

  /** Mixed scripts are OTHER. */
  lemma MixedIsOther()
    ensures DetectLanguage("котγάτα") == OTHER
  {
    assert Body("котγάτα")[0] == 'к' && Body("котγάτα")[3] == 'γ';
  }

  /** Only one final newline is admitted by `$`. */
  lemma TwoNewlinesAreOther()
    ensures DetectLanguage("кот\n\n") == OTHER
  {
    assert Body("кот\n\n") == "кот\n";
    assert Body("кот\n\n")[3] == '\n';
  }

  /** A text that is a non-empty run of class letters spells its script. */
  lemma RunSpells(lang: Language, text: string)
    requires |text| > 0
    requires forall i :: 0 <= i < |text| ==> InClass(lang, text[i])
    ensures Spells(lang, text)
  {
    assert InClass(lang, text[|text| - 1]);
    assert Body(text) == text;
  }

  /** Russian words, in lower case, upper case and with `ё`. */
  lemma RussianExamples()
    ensures DetectLanguage("привет") == RUS
    ensures DetectLanguage("ПРИВЕТ") == RUS
    ensures DetectLanguage("ёлка") == RUS
  {
    RunSpells(RUS, "привет");
    RunSpells(RUS, "ПРИВЕТ");
    RunSpells(RUS, "ёлка");
  }

  /** `$` admits one final newline after the run. */
  lemma FinalNewlineAdmitted()
    ensures DetectLanguage("кот\n") == RUS
  {
    assert Body("кот\n") == "кот";
  }

  /** Greek words, in lower case, upper case and accented. */
  lemma GreekExamples()
    ensures DetectLanguage("γεια") == GREEK
    ensures DetectLanguage("ΓΕΙΑ") == GREEK
    ensures DetectLanguage("κόσμος") == GREEK
  {
    RunSpells(GREEK, "γεια");
    RunSpells(GREEK, "ΓΕΙΑ");
    RunSpells(GREEK, "κόσμος");
  }
}
