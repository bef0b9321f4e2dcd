/**
 * The word translation feature: two fixed dictionaries, Russian to Greek and Greek to
 * Russian, each the other's inverse, and the `get_translation` query that picks the
 * dictionary by the detected script.
 */
module Translation {
  import opened Wrappers
  import opened Responses
  import opened LanguageDetection

  /** A dictionary in insertion order, as Python keeps it. */
  type Dictionary = seq<(string, string)>

  const RusToGreek: Dictionary := [("привет", "γεια"), ("мир", "κόσμος"), ("кот", "γάτα")]
  const GreekToRus: Dictionary := [("γεια", "привет"), ("κόσμος", "мир"), ("γάτα", "кот")]

  const UnsupportedMessage: string := "Only Greek or Russian languages are supported"

  function CannotTranslate(word: string): string {
    "Can't translate '" + word + "'"
  }

  /** The key is one of the dictionary's keys. */
  predicate HasKey(d: Dictionary, key: string) {
    exists i :: 0 <= i < |d| && d[i].0 == key
  }

  /** `d.get(key)`. */
  function Get(d: Dictionary, key: string): (r: Option<string>)
    ensures r.Some? <==> HasKey(d, key)
    ensures r.Some? ==> exists i :: 0 <= i < |d| && d[i] == (key, r.value)
  {
    if |d| == 0 then None
    else if d[0].0 == key then Some(d[0].1)
    else
      var r := Get(d[1..], key);
      assert forall i :: 0 <= i < |d[1..]| ==> d[1..][i] == d[i + 1];
      r
  }

  /** The keys of a dictionary, in order (`list(d)`). */
  function Keys(d: Dictionary): (ks: seq<string>)
    ensures |ks| == |d|
    ensures forall i :: 0 <= i < |d| ==> ks[i] == d[i].0
  {
    seq(|d|, i requires 0 <= i < |d| => d[i].0)
  }

  /** Keys are pairwise distinct, as in any Python dict. */
  predicate KeysDistinct(d: Dictionary) {
    forall i, j :: 0 <= i < j < |d| ==> d[i].0 != d[j].0
  }

  /** `e` holds the pairs of `d` with sides swapped, in the same order. */
  predicate Swapped(d: Dictionary, e: Dictionary) {
    |d| == |e| && forall i :: 0 <= i < |d| ==> e[i] == (d[i].1, d[i].0)
  }

  /** In a dictionary with distinct keys, each pair's key looks up its own value. */
  lemma {:induction false} GetPair(d: Dictionary, i: int)
    requires KeysDistinct(d) && 0 <= i < |d|
    ensures Get(d, d[i].0) == Some(d[i].1)
  {
    if i > 0 {
      assert d[0].0 != d[i].0;
      assert d[1..][i - 1] == d[i];
      GetPair(d[1..], i - 1);
    }
  }

  /** The two seeded dictionaries: distinct keys, and each the other swapped. */
  lemma SeededDictionaries()
    ensures KeysDistinct(RusToGreek) && KeysDistinct(GreekToRus)
    ensures Swapped(RusToGreek, GreekToRus)
  {
  }

  /** The dictionary `get_translation` consults for a script. */
  function DictionaryFor(lang: Language): Dictionary {
    if lang == GREEK then GreekToRus else RusToGreek
  }

  /** `get_translation`: reject other scripts, then look the word up as it is. */
  function GetTranslation(word: string): (r: Response)
    ensures IsStandard(r)
    ensures DetectLanguage(word) == OTHER ==> r == ErrorResponse(UnsupportedMessage)
    ensures DetectLanguage(word) != OTHER ==>
              (r.SuccessResponse? <==> HasKey(DictionaryFor(DetectLanguage(word)), word))
    ensures DetectLanguage(word) != OTHER && !r.SuccessResponse? ==>
              r == ErrorResponse(CannotTranslate(word))
    ensures r.SuccessResponse? ==>
              exists i :: 0 <= i < |DictionaryFor(DetectLanguage(word))| &&
                          DictionaryFor(DetectLanguage(word))[i] == (word, r.message)
  {
    var language := DetectLanguage(word);
    if language == OTHER then ErrorResponse(UnsupportedMessage)
    else if language == GREEK then
      var translation := Get(GreekToRus, word);
      // Python tests the looked-up value for truth: a miss (None) or an empty string fails
      if translation.Some? && translation.value != "" then SuccessResponse(translation.value)
      else ErrorResponse(CannotTranslate(word))
    else
      var translation := Get(RusToGreek, word);
      if translation.Some? && translation.value != "" then SuccessResponse(translation.value)
      else ErrorResponse(CannotTranslate(word))
  }

  /** Every seeded Russian word is Russian, every seeded Greek word Greek. */
  lemma SeededScripts(i: int)
    requires 0 <= i < 3
    ensures DetectLanguage(RusToGreek[i].0) == RUS
    ensures DetectLanguage(GreekToRus[i].0) == GREEK
  {
    var r, g := RusToGreek[i].0, GreekToRus[i].0;
    RunSpells(RUS, r);
    RunSpells(GREEK, g);
  }

  /** Translating a seeded word and then its translation gives the word back. */
  lemma RoundTrip(i: int)
    requires 0 <= i < 3
    ensures var r := GetTranslation(RusToGreek[i].0);
            r == SuccessResponse(RusToGreek[i].1) && GetTranslation(r.message) == SuccessResponse(RusToGreek[i].0)
    ensures var g := GetTranslation(GreekToRus[i].0);
            g == SuccessResponse(GreekToRus[i].1) && GetTranslation(g.message) == SuccessResponse(GreekToRus[i].0)
  {
    SeededDictionaries();
    SeededScripts(i);
    GetPair(RusToGreek, i);
    GetPair(GreekToRus, i);
  }

  /** One seeded pair, in both directions. */
  lemma CatExample()
    ensures GetTranslation("кот") == SuccessResponse("γάτα")
    ensures GetTranslation("γάτα") == SuccessResponse("кот")
  {
    RoundTrip(2);
  }

  /** A Greek word outside the dictionary cannot be translated. */
  lemma UnknownGreekWord()
    ensures GetTranslation("σκύλος") == ErrorResponse("Can't translate 'σκύλος'")
  {
    RunSpells(GREEK, "σκύλος");
    assert !HasKey(GreekToRus, "σκύλος") by {
      assert GreekToRus[0].0[0] != "σκύλος"[0];
      assert GreekToRus[1].0[0] != "σκύλος"[0];
      assert GreekToRus[2].0[0] != "σκύλος"[0];
    }
  }

  /** Latin text is refused before any lookup. */
  lemma LatinWordRefused()
    ensures GetTranslation("cat") == ErrorResponse(UnsupportedMessage)
  {
    assert Body("cat")[0] == 'c';
  }
}
