/**
 * The two demonstration translators `mockTranslateEnToFr` and
 * `mockTranslateFrToEn`: a lookup cascade over a fixed phrase table, then
 * a word-by-word pass, then a greeting special case, then a chain of
 * literal replacements followed by a flag suffix. The non-ASCII characters
 * of the tables and suffixes are the ones the source file holds, code
 * point for code point (they are double-encoded there).
 */
module MockTranslator {
  import opened JsString

  /** The two directions that have a translator. */
  datatype Direction = EnToFr | FrToEn

  const EN_FR: map<string, string> := map[
    "Hello, how are you?" := "Bonjour, comment allez-vous?",
    "hello, how are you?" := "Bonjour, comment allez-vous?",
    "hello how are you" := "Bonjour, comment allez-vous?",
    "hello" := "bonjour",
    "how are you" := "comment allez-vous",
    "good morning" := "bonjour",
    "good evening" := "bonsoir",
    "thank you" := "merci",
    "goodbye" := "au revoir",
    "please" := "s'il vous pla\U{221A}\U{00C6}t",
    "yes" := "oui",
    "no" := "non",
    "excuse me" := "excusez-moi",
    "i love you" := "je t'aime",
    "how are you doing today" := "comment allez-vous aujourd'hui",
    "i love learning languages" := "j'adore apprendre des langues",
    "can we meet tomorrow" := "pouvons-nous nous rencontrer demain",
    "thank you for your help" := "merci pour votre aide",
    "what is your name" := "comment vous appelez-vous",
    "my name is" := "je m'appelle",
    "nice to meet you" := "enchant\U{221A}\U{00A9} de faire votre connaissance",
    "how's the weather" := "quel temps fait-il",
    "i'm sorry" := "je suis d\U{221A}\U{00A9}sol\U{221A}\U{00A9}",
    "where are you from" := "d'o\U{221A}\U{03C0} venez-vous",
    "i'm from" := "je viens de",
    "i don't understand" := "je ne comprends pas",
    "could you repeat that" := "pourriez-vous r\U{221A}\U{00A9}p\U{221A}\U{00A9}ter cela",
    "i need help" := "j'ai besoin d'aide",
    "what time is it" := "quelle heure est-il",
    "where is the bathroom" := "o\U{221A}\U{03C0} sont les toilettes",
    "how much does it cost" := "combien \U{221A}\U{00DF}a co\U{221A}\U{00AA}te",
    "i speak a little french" := "je parle un peu fran\U{221A}\U{00DF}ais",
    "do you speak english" := "parlez-vous anglais"]

  const FR_EN: map<string, string> := map[
    "Bonjour, comment allez-vous?" := "Hello, how are you?",
    "bonjour, comment allez-vous?" := "Hello, how are you?",
    "bonjour comment allez-vous" := "Hello, how are you?",
    "bonjour" := "hello",
    "comment allez-vous" := "how are you",
    "bonsoir" := "good evening",
    "merci" := "thank you",
    "au revoir" := "goodbye",
    "s'il vous pla\U{221A}\U{00C6}t" := "please",
    "oui" := "yes",
    "non" := "no",
    "excusez-moi" := "excuse me",
    "je t'aime" := "i love you",
    "comment allez-vous aujourd'hui" := "how are you doing today",
    "j'adore apprendre des langues" := "i love learning languages",
    "pouvons-nous nous rencontrer demain" := "can we meet tomorrow",
    "merci pour votre aide" := "thank you for your help",
    "comment vous appelez-vous" := "what is your name",
    "je m'appelle" := "my name is",
    "enchant\U{221A}\U{00A9} de faire votre connaissance" := "nice to meet you",
    "quel temps fait-il" := "how's the weather",
    "je suis d\U{221A}\U{00A9}sol\U{221A}\U{00A9}" := "i'm sorry",
    "d'o\U{221A}\U{03C0} venez-vous" := "where are you from",
    "je viens de" := "i'm from",
    "je ne comprends pas" := "i don't understand",
    "pourriez-vous r\U{221A}\U{00A9}p\U{221A}\U{00A9}ter cela" := "could you repeat that",
    "j'ai besoin d'aide" := "i need help",
    "quelle heure est-il" := "what time is it",
    "o\U{221A}\U{03C0} sont les toilettes" := "where is the bathroom",
    "combien \U{221A}\U{00DF}a co\U{221A}\U{00AA}te" := "how much does it cost",
    "je parle un peu fran\U{221A}\U{00DF}ais" := "i speak a little french",
    "parlez-vous anglais" := "do you speak english"]

  /** The character class `[.,?!;:]`. */
  const PUNCTUATION: set<char> := {'.', ',', '?', '!', ';', ':'}

  const EN_FR_FLAG: string := " \U{F8FF}\U{00FC}\U{00E1}\U{00B4}\U{F8FF}\U{00FC}\U{00E1}\U{2211}"
  const FR_EN_FLAG: string := " \U{F8FF}\U{00FC}\U{00E1}\U{00A8}\U{F8FF}\U{00FC}\U{00E1}\U{00DF}"
  const EN_FR_GREETING: string := "Bonjour, comment allez-vous?"
  const FR_EN_GREETING: string := "Hello, how are you?"

  function Table(d: Direction): map<string, string> {
    match d
    case EnToFr => EN_FR
    case FrToEn => FR_EN
  }

  /** `text.replace(/[.,?!;:]/g, '').trim().toLowerCase()` */
  function Normalize(text: string): string {
    Lower(Trim(RemoveChars(text, PUNCTUATION)))
  }

  /** A token after the word-by-word pass: its table entry, or itself. */
  function Substitute(table: map<string, string>, word: string): string {
    if word in table then table[word] else word
  }

  /** Whether some token of `words` is a table key. */
  predicate AnyKnown(table: map<string, string>, words: seq<string>) {
    exists j :: 0 <= j < |words| && words[j] in table
  }

  /** The greeting test that runs when no token is known. */
  predicate GreetingMatch(d: Direction, lowerText: string) {
    match d
    case EnToFr => Contains(lowerText, "hello") && Contains(lowerText, "how are you")
    case FrToEn => Contains(lowerText, "bonjour") && Contains(lowerText, "comment allez")
  }

  function Greeting(d: Direction): string {
    match d
    case EnToFr => EN_FR_GREETING
    case FrToEn => FR_EN_GREETING
  }

  /** The replacement chain of `mockTranslateEnToFr`, before the flag. */
  function EnFrChain(text: string): string {
    ReplaceAll(ReplaceAll(ReplaceAll(ReplaceAll(ReplaceAll(ReplaceAll(text,
      "th", "z"), "w", "v"), "tion", "sion"), "ing", "ant"), "h", ""), "u", "ou")
  }

  /** The replacement chain of `mockTranslateFrToEn`, before the flag. */
  function FrEnChain(text: string): string {
    ReplaceAll(ReplaceAll(ReplaceAll(ReplaceAll(ReplaceAll(ReplaceAll(ReplaceAll(ReplaceAll(text,
      "ou", "u"), "eau", "o"), "ez", "e"), "\U{221A}\U{00A9}", "e"), "\U{221A}\U{00AE}", "e"),
      "\U{221A}\U{2122}", "e"), "\U{221A}\U{2020}", "a"), "\U{221A}\U{00DF}", "c")
  }

  function Fallback(d: Direction, text: string): string {
    match d
    case EnToFr => EnFrChain(text) + EN_FR_FLAG
    case FrToEn => FrEnChain(text) + FR_EN_FLAG
  }

  /** What the translator returns for `text`, stage by stage. A table
      lookup `translations[key]` is truthy exactly when `key` is a key,
      since no table value is empty. */
  function Translated(d: Direction, text: string): string {
    var table := Table(d);
    if text in table then table[text]
    else NormalizedTranslation(d, Normalize(text), text)
  }

  /** The stages after the exact lookup, on the normalised `lowerText`. */
  function NormalizedTranslation(d: Direction, lowerText: string, text: string): string {
    var table := Table(d);
    if lowerText in table then table[lowerText]
    else WordTranslation(d, lowerText, text)
  }

  /** The stages after both lookups missed. */
  function WordTranslation(d: Direction, lowerText: string, text: string): string {
    var table := Table(d);
    var words := SplitWs(lowerText);
    if AnyKnown(table, words) then
      Join(seq(|words|, j requires 0 <= j < |words| => Substitute(table, words[j])), " ")
    else if GreetingMatch(d, lowerText) then Greeting(d)
    else Fallback(d, text)
  }

  /** The loop over `words`: `translatedWords` gets each token's table
      entry or the token itself, and `translatedAny` records a hit. */
  method TranslateWords(table: map<string, string>, words: seq<string>) returns (translatedWords: seq<string>, translatedAny: bool)
    ensures translatedWords == seq(|words|, j requires 0 <= j < |words| => Substitute(table, words[j]))
    ensures translatedAny <==> AnyKnown(table, words)
  {
    translatedWords := [];
    translatedAny := false;
    var i := 0;
    while i < |words|
      invariant 0 <= i <= |words|
      invariant |translatedWords| == i
      invariant forall j :: 0 <= j < i ==> translatedWords[j] == Substitute(table, words[j])
      invariant translatedAny <==> exists j :: 0 <= j < i && words[j] in table
    {
      var word := words[i];
      if word in table {
        translatedWords := translatedWords + [table[word]];
        translatedAny := true;
      } else {
        translatedWords := translatedWords + [word];
      }
      i := i + 1;
    }
  }

  /** `mockTranslateEnToFr(text)` or `mockTranslateFrToEn(text)`, with the
      word loop that collects `translatedWords` and sets `translatedAny`. */
  method MockTranslate(d: Direction, text: string) returns (r: string)
    ensures r == Translated(d, text)
  {
    var table := Table(d);
    var textWithoutPunctuation := Trim(RemoveChars(text, PUNCTUATION));
    if text in table {
      return table[text];
    }
    var lowerText := Lower(textWithoutPunctuation);
    if lowerText in table {
      return table[lowerText];
    }
    var words := SplitWs(lowerText);
    var translatedWords, translatedAny := TranslateWords(table, words);
    if translatedAny {
      return Join(translatedWords, " ");
    }
    if GreetingMatch(d, lowerText) {
      return Greeting(d);
    }
    r := Fallback(d, text);
  }

  // ---------------------------------------------------------------------
  // Properties of the cascade

  /** The normalised text holds no punctuation of the class, starts and
      ends with a non-space, has no capital letter, and normalising it
      again changes nothing. */
  lemma NormalizeIdempotent(text: string)
    ensures forall c :: c in Normalize(text) ==> c !in PUNCTUATION
    ensures Normalize(text) == [] || (!IsSpace(Normalize(text)[0]) && !IsSpace(Normalize(text)[|Normalize(text)| - 1]))
    ensures Lower(Normalize(text)) == Normalize(text)
    ensures Normalize(Normalize(text)) == Normalize(text)
  {
    var trimmed := Trim(RemoveChars(text, PUNCTUATION));
    TrimChars(RemoveChars(text, PUNCTUATION));
    var n := Lower(trimmed);
    LowerKeeps(trimmed);
    LowerIdempotent(trimmed);
    RemoveCharsAbsent(n, PUNCTUATION);
    TrimTrimmed(n);
  }

  /** Lower-casing keeps the class characters out, keeps the ends
      non-space, and every character of the result is lower-case. */
  lemma LowerKeeps(s: string)
    requires forall c :: c in s ==> c !in PUNCTUATION
    requires s == [] || (!IsSpace(s[0]) && !IsSpace(s[|s| - 1]))
    ensures forall c :: c in Lower(s) ==> c !in PUNCTUATION
    ensures Lower(s) == [] || (!IsSpace(Lower(s)[0]) && !IsSpace(Lower(s)[|s| - 1]))
  {
    var n := Lower(s);
    forall c | c in n ensures c !in PUNCTUATION {
      var k :| 0 <= k < |n| && n[k] == c;
      assert s[k] in s;
    }
  }

  /** Lower-casing maps class characters and white space to themselves
      and nothing else to them. */
  lemma LowerCharPunctuation(c: char)
    ensures LowerChar(c) in PUNCTUATION <==> c in PUNCTUATION
    ensures IsSpace(LowerChar(c)) <==> IsSpace(c)
  {
  }

  lemma {:induction false} TrimChars(s: string)
    ensures forall c :: c in Trim(s) ==> c in s
    ensures Trim(s) == [] || (!IsSpace(Trim(s)[0]) && !IsSpace(Trim(s)[|Trim(s)| - 1]))
  {
    var t := Trim(s);
    forall c | c in t ensures c in s {
      var k :| 0 <= k < |t| && t[k] == c;
      assert c in TrimStart(s);
    }
  }

  lemma {:induction false} RemoveCharsAbsent(s: string, cs: set<char>)
    requires forall c :: c in s ==> c !in cs
    ensures RemoveChars(s, cs) == s
  {
    if s != [] {
      assert s[0] in s;
      assert forall c :: c in s[1..] ==> c in s;
      RemoveCharsAbsent(s[1..], cs);
    }
  }

  /** A string with non-space ends is its own trim. */
  lemma TrimTrimmed(s: string)
    requires s == [] || (!IsSpace(s[0]) && !IsSpace(s[|s| - 1]))
    ensures Trim(s) == s
  {
  }

  /** An exact key is answered from the table before any normalisation,
      even when its normal form is a key with another entry. */
  lemma ExactKeyWins(d: Direction, text: string)
    requires text in Table(d)
    ensures Translated(d, text) == Table(d)[text]
    ensures Normalize(text) in Table(d) && Table(d)[Normalize(text)] != Table(d)[text] ==>
      Translated(d, text) != NormalizedTranslation(d, Normalize(text), text)
  {
  }

  /** So "Hello, how are you?" keeps its capital form. */
  lemma ExactKeyExample()
    ensures Translated(EnToFr, "Hello, how are you?") == "Bonjour, comment allez-vous?"
  {
    assert "Hello, how are you?" in EN_FR && EN_FR["Hello, how are you?"] == "Bonjour, comment allez-vous?";
    ExactKeyWins(EnToFr, "Hello, how are you?");
  }

  /** Removing class characters commutes with lower-casing. */
  lemma {:induction false} RemoveCharsLower(s: string)
    ensures RemoveChars(Lower(s), PUNCTUATION) == Lower(RemoveChars(s, PUNCTUATION))
  {
    if s != [] {
      RemoveCharsLower(s[1..]);
      assert Lower(s)[1..] == Lower(s[1..]);
      LowerCharPunctuation(s[0]);
      LowerConcat(if s[0] in PUNCTUATION then [] else [s[0]], RemoveChars(s[1..], PUNCTUATION));
    }
  }

  lemma {:induction false} TrimStartLower(s: string)
    ensures TrimStart(Lower(s)) == Lower(TrimStart(s))
  {
    if s != [] {
      LowerCharPunctuation(s[0]);
      if IsSpace(s[0]) {
        assert Lower(s)[1..] == Lower(s[1..]);
        TrimStartLower(s[1..]);
      }
    }
  }

  lemma {:induction false} TrimEndLower(s: string)
    ensures TrimEnd(Lower(s)) == Lower(TrimEnd(s))
  {
    if s != [] {
      LowerCharPunctuation(s[|s| - 1]);
      if IsSpace(s[|s| - 1]) {
        assert Lower(s)[..|s| - 1] == Lower(s[..|s| - 1]);
        TrimEndLower(s[..|s| - 1]);
      }
    }
  }

  /** The normal form does not see capital letters. */
  lemma NormalizeIgnoresCase(text: string)
    ensures Normalize(Lower(text)) == Normalize(text)
  {
    var stripped := RemoveChars(text, PUNCTUATION);
    RemoveCharsLower(text);
    TrimStartLower(stripped);
    TrimEndLower(TrimStart(stripped));
    LowerIdempotent(Trim(stripped));
  }

  /** The normal form does not see the class characters. */
  lemma NormalizeIgnoresPunctuation(text: string)
    ensures Normalize(RemoveChars(text, PUNCTUATION)) == Normalize(text)
  {
    RemoveCharsAbsent(RemoveChars(text, PUNCTUATION), PUNCTUATION);
  }

  /** Two texts that are not exact keys and share a normal form translate
      alike, unless both fall through to the replacement chain, which
      works on the text as given. */
  lemma SameNormalForm(d: Direction, a: string, b: string)
    requires a !in Table(d) && b !in Table(d)
    requires Normalize(a) == Normalize(b)
    ensures var n := Normalize(a);
      n in Table(d) || AnyKnown(Table(d), SplitWs(n)) || GreetingMatch(d, n) ==>
        Translated(d, a) == Translated(d, b)
    ensures var n := Normalize(a);
      !(n in Table(d) || AnyKnown(Table(d), SplitWs(n)) || GreetingMatch(d, n)) ==>
        Translated(d, a) == Fallback(d, a) && Translated(d, b) == Fallback(d, b)
  {
  }

  /** Hence a text whose only difference from another is letter case or
      class characters gets the same phrase or word translation. */
  lemma CaseAndPunctuationInsensitive(d: Direction, text: string)
    requires text !in Table(d) && Lower(RemoveChars(text, PUNCTUATION)) !in Table(d)
    requires var n := Normalize(text);
      n in Table(d) || AnyKnown(Table(d), SplitWs(n)) || GreetingMatch(d, n)
    ensures Translated(d, Lower(RemoveChars(text, PUNCTUATION))) == Translated(d, text)
  {
    NormalizeIgnoresCase(RemoveChars(text, PUNCTUATION));
    NormalizeIgnoresPunctuation(text);
    SameNormalForm(d, text, Lower(RemoveChars(text, PUNCTUATION)));
  }

  /** The English-to-French replacement chain leaves no 'h' and no 'w'
      before the flag. */
  lemma EnFrChainNoHW(text: string)
    ensures 'h' !in EnFrChain(text) && 'w' !in EnFrChain(text)
  {
    var s1 := ReplaceAll(text, "th", "z");
    var s2 := ReplaceAll(s1, "w", "v");
    ReplaceAllRemoves(s1, 'w', "v");
    var s3 := ReplaceAll(s2, "tion", "sion");
    ReplaceAllKeepsAbsent(s2, "tion", "sion", 'w');
    var s4 := ReplaceAll(s3, "ing", "ant");
    ReplaceAllKeepsAbsent(s3, "ing", "ant", 'w');
    var s5 := ReplaceAll(s4, "h", "");
    ReplaceAllRemoves(s4, 'h', "");
    ReplaceAllKeepsAbsent(s4, "h", "", 'w');
    ReplaceAllKeepsAbsent(s5, "u", "ou", 'h');
    ReplaceAllKeepsAbsent(s5, "u", "ou", 'w');
  }

  /** With no exact, normalised or word hit and no greeting, the
      English-to-French result is the chain followed by the flag, and the
      part before the flag has no 'h' or 'w'. */
  lemma EnFrFallbackShape(text: string)
    requires var n := Normalize(text);
      text !in EN_FR && n !in EN_FR && !AnyKnown(EN_FR, SplitWs(n)) && !GreetingMatch(EnToFr, n)
    ensures var r := Translated(EnToFr, text);
      |r| >= |EN_FR_FLAG| && r[|r| - |EN_FR_FLAG|..] == EN_FR_FLAG
      && 'h' !in r[..|r| - |EN_FR_FLAG|] && 'w' !in r[..|r| - |EN_FR_FLAG|]
  {
    var r := Translated(EnToFr, text);
    assert r == EnFrChain(text) + EN_FR_FLAG;
    assert r[..|r| - |EN_FR_FLAG|] == EnFrChain(text);
    EnFrChainNoHW(text);
  }

  /** A replacement no longer than its pattern never lengthens the text. */
  lemma {:induction false} ReplaceAllShrinks(s: string, pat: string, rep: string)
    requires pat != [] && |rep| <= |pat|
    ensures |ReplaceAll(s, pat, rep)| <= |s|
    decreases |s|
  {
    if |s| >= |pat| {
      if s[..|pat|] == pat {
        ReplaceAllShrinks(s[|pat|..], pat, rep);
      } else {
        ReplaceAllShrinks(s[1..], pat, rep);
      }
    }
  }

  /** Every step of the French-to-English chain shortens or keeps the
      length, so its result is never longer than the text. */
  lemma FrEnChainShrinks(text: string)
    ensures |FrEnChain(text)| <= |text|
  {
    var s1 := ReplaceAll(text, "ou", "u");
    ReplaceAllShrinks(text, "ou", "u");
    var s2 := ReplaceAll(s1, "eau", "o");
    ReplaceAllShrinks(s1, "eau", "o");
    var s3 := ReplaceAll(s2, "ez", "e");
    ReplaceAllShrinks(s2, "ez", "e");
    var s4 := ReplaceAll(s3, "\U{221A}\U{00A9}", "e");
    ReplaceAllShrinks(s3, "\U{221A}\U{00A9}", "e");
    var s5 := ReplaceAll(s4, "\U{221A}\U{00AE}", "e");
    ReplaceAllShrinks(s4, "\U{221A}\U{00AE}", "e");
    var s6 := ReplaceAll(s5, "\U{221A}\U{2122}", "e");
    ReplaceAllShrinks(s5, "\U{221A}\U{2122}", "e");
    var s7 := ReplaceAll(s6, "\U{221A}\U{2020}", "a");
    ReplaceAllShrinks(s6, "\U{221A}\U{2020}", "a");
    ReplaceAllShrinks(s7, "\U{221A}\U{00DF}", "c");
  }

  /** The English-to-French greeting case is reached only when "hello"
      is not a whole token (it is a key), so it answers texts such as
      "othello ... how are you" where "hello" sits inside a word. */
  lemma GreetingNeedsEmbeddedHello(text: string)
    requires var n := Normalize(text);
      text !in EN_FR && n !in EN_FR && !AnyKnown(EN_FR, SplitWs(n)) && GreetingMatch(EnToFr, n)
    ensures Translated(EnToFr, text) == EN_FR_GREETING
    ensures "hello" !in SplitWs(Normalize(text)) && Contains(Normalize(text), "hello")
  {
    var words := SplitWs(Normalize(text));
    assert "hello" in EN_FR;
  }
}
