/**
 * The JavaScript string operations the modelled code relies on, with the
 * semantics of the ECMAScript built-ins: `trim`, the `\s` character class,
 * `toLowerCase` (on the Latin script), `replace` with a global literal
 * pattern, `split(/\s+/)`, `join`, `includes`, and `length` and `<`/`>`,
 * which count and compare UTF-16 code units.
 */
module JsString {

  /** The characters matched by `\s` and removed by `trim` (ECMAScript
      WhiteSpace and LineTerminator). */
  predicate IsSpace(c: char) {
    c == ' ' || ('\t' <= c <= '\r') || c == '\U{00A0}' || c == '\U{1680}'
    || ('\U{2000}' <= c <= '\U{200A}') || c == '\U{2028}' || c == '\U{2029}'
    || c == '\U{202F}' || c == '\U{205F}' || c == '\U{3000}' || c == '\U{FEFF}'
  }

  /** No character of `s` is white space. */
  predicate NoSpace(s: string) {
    forall k :: 0 <= k < |s| ==> !IsSpace(s[k])
  }

  /** Every character of `s` is white space. */
  predicate AllSpace(s: string) {
    forall k :: 0 <= k < |s| ==> IsSpace(s[k])
  }

  /** `s.trimStart()` */
  function TrimStart(s: string): (r: string)
    ensures |r| <= |s| && r == s[|s| - |r|..]
    ensures r == [] || !IsSpace(r[0])
    ensures AllSpace(s[..|s| - |r|])
  {
    if s != [] && IsSpace(s[0]) then
      var r := TrimStart(s[1..]);
      assert s[1..][..|s[1..]| - |r|] == s[1..|s| - |r|];
      r
    else s
  }

  /** `s.trimEnd()` */
  function TrimEnd(s: string): (r: string)
    ensures |r| <= |s| && r == s[..|r|]
    ensures r == [] || !IsSpace(r[|r| - 1])
    ensures AllSpace(s[|r|..])
  {
    if s != [] && IsSpace(s[|s| - 1]) then
      var r := TrimEnd(s[..|s| - 1]);
      assert s[..|s| - 1][..|r|] == s[..|r|];
      assert AllSpace(s[|r|..]) by {
        forall k | 0 <= k < |s| - |r| ensures IsSpace(s[|r|..][k]) {
          if k < |s| - 1 - |r| {
            assert s[|r|..][k] == s[..|s| - 1][|r|..][k];
          }
        }
      }
      r
    else s
  }

  /** `s.trim()` */
  function Trim(s: string): (r: string)
    ensures r == [] || (!IsSpace(r[0]) && !IsSpace(r[|r| - 1]))
  {
    TrimEnd(TrimStart(s))
  }

  /** `!s.trim()` in JavaScript: the trimmed string is empty exactly when
      every character is white space. */
  lemma TrimEmptyIffBlank(s: string)
    ensures Trim(s) == [] <==> AllSpace(s)
  {
    var t := TrimStart(s);
    if Trim(s) == [] {
      assert AllSpace(t[0..]);
      assert t[0..] == t;
      assert s[..|s|] == s;
    } else {
      assert t != [];
      assert !IsSpace(t[0]) && t[0] == s[|s| - |t|];
    }
  }

  /** The capitals of the Basic Latin and Latin-1 ranges. */
  predicate IsUpper(c: char) {
    'A' <= c <= 'Z' || ('\U{00C0}' <= c <= '\U{00DE}' && c != '\U{00D7}')
  }

  /** The lower-case form of one character: each capital of those ranges
      sits 32 code points below its small letter. */
  function LowerChar(c: char): char {
    if IsUpper(c) then (c as int + 32) as char else c
  }

  /** `s.toLowerCase()` on the Basic Latin and Latin-1 ranges: the result
      has no capital left, every other character is kept where it was, and
      each capital becomes its small letter. */
  function Lower(s: string): (r: string)
    ensures |r| == |s|
    ensures forall k :: 0 <= k < |r| ==> !IsUpper(r[k])
    ensures forall k :: 0 <= k < |s| && !IsUpper(s[k]) ==> r[k] == s[k]
    ensures forall k :: 0 <= k < |s| && IsUpper(s[k]) ==> r[k] as int == s[k] as int + 32
  {
    seq(|s|, k requires 0 <= k < |s| => LowerChar(s[k]))
  }

  /** Lower-casing twice is lower-casing once. */
  lemma LowerIdempotent(s: string)
    ensures Lower(Lower(s)) == Lower(s)
  {
  }

  /** Lower-casing works piece by piece. */
  lemma {:induction false} LowerConcat(a: string, b: string)
    ensures Lower(a + b) == Lower(a) + Lower(b)
  {
  }

  /** `s.replace(/[...]/g, '')` for a character class of literal characters. */
  function RemoveChars(s: string, cs: set<char>): (r: string)
    ensures |r| <= |s|
    ensures forall c :: c in r <==> c in s && c !in cs
  {
    if s == [] then []
    else (if s[0] in cs then [] else [s[0]]) + RemoveChars(s[1..], cs)
  }

  /** Every kept character occurs in the result as often as in the input. */
  lemma {:induction false} RemoveCharsCount(s: string, cs: set<char>, c: char)
    requires c !in cs
    ensures multiset(RemoveChars(s, cs))[c] == multiset(s)[c]
  {
    if s != [] {
      RemoveCharsCount(s[1..], cs, c);
      assert s == [s[0]] + s[1..];
      assert multiset(s) == multiset([s[0]]) + multiset(s[1..]);
    }
  }

  /** Removal works piece by piece, so the kept characters stay in their
      order. */
  lemma {:induction false} RemoveCharsConcat(a: string, b: string, cs: set<char>)
    ensures RemoveChars(a + b, cs) == RemoveChars(a, cs) + RemoveChars(b, cs)
  {
    if a != [] {
      var ab := a + b;
      assert ab[0] == a[0] && ab[1..] == a[1..] + b;
      var x := if a[0] in cs then [] else [a[0]];
      assert RemoveChars(ab, cs) == x + RemoveChars(a[1..] + b, cs);
      RemoveCharsConcat(a[1..], b, cs);
    } else {
      assert a + b == b;
    }
  }

  /** `s.startsWith(p)` */
  predicate StartsWith(s: string, p: string) {
    |p| <= |s| && s[..|p|] == p
  }

  /** `s.replace(/pat/g, rep)` for a literal pattern and a replacement that
      holds no `$`: every non-overlapping occurrence of `pat`, scanning from
      the left, becomes `rep`. */
  function ReplaceAll(s: string, pat: string, rep: string): (r: string)
    requires pat != []
    decreases |s|
  {
    if |s| < |pat| then s
    else if s[..|pat|] == pat then rep + ReplaceAll(s[|pat|..], pat, rep)
    else [s[0]] + ReplaceAll(s[1..], pat, rep)
  }

  /** Every character of a replacement result comes from the input or from
      the replacement text. */
  lemma {:induction false} ReplaceAllChars(s: string, pat: string, rep: string, c: char)
    requires pat != []
    requires c in ReplaceAll(s, pat, rep)
    ensures c in s || c in rep
    decreases |s|
  {
    if |s| < |pat| {
    } else if s[..|pat|] == pat {
      if c !in rep {
        ReplaceAllChars(s[|pat|..], pat, rep, c);
      }
    } else if c != s[0] {
      ReplaceAllChars(s[1..], pat, rep, c);
    }
  }

  /** Replacing a one-character pattern by a text without it leaves no
      occurrence of that character. */
  lemma {:induction false} ReplaceAllRemoves(s: string, c: char, rep: string)
    requires c !in rep
    ensures c !in ReplaceAll(s, [c], rep)
    decreases |s|
  {
    if |s| >= 1 {
      if s[..1] == [c] {
        ReplaceAllRemoves(s[1..], c, rep);
      } else {
        assert s[0] != c by { assert s[..1][0] == s[0]; }
        ReplaceAllRemoves(s[1..], c, rep);
      }
    }
  }

  /** A character absent from the input and from the replacement is absent
      from the result. */
  lemma ReplaceAllKeepsAbsent(s: string, pat: string, rep: string, c: char)
    requires pat != [] && c !in s && c !in rep
    ensures c !in ReplaceAll(s, pat, rep)
  {
    if c in ReplaceAll(s, pat, rep) {
      ReplaceAllChars(s, pat, rep, c);
    }
  }

  /** `s.includes(t)` */
  predicate Contains(s: string, t: string)
    decreases |s|
  {
    StartsWith(s, t) || (s != [] && Contains(s[1..], t))
  }

  /** Every string includes the empty string. */
  lemma ContainsEmpty(s: string)
    ensures Contains(s, "")
  {
    assert StartsWith(s, "");
  }

  /** Index of the first white-space character, `|s|` when there is none. */
  function FirstSpace(s: string): (i: nat)
    ensures i <= |s| && (i < |s| ==> IsSpace(s[i]))
    ensures NoSpace(s[..i])
  {
    if s == [] || IsSpace(s[0]) then 0
    else
      var i := 1 + FirstSpace(s[1..]);
      assert s[..i] == [s[0]] + s[1..][..i - 1];
      i
  }

  /** The text with every maximal run of white space replaced by one
      space: a space character that another one follows is dropped, and
      the others become ' '. */
  function CollapseWs(s: string): string
    decreases |s|
  {
    if s == [] then []
    else if IsSpace(s[0]) && |s| > 1 && IsSpace(s[1]) then CollapseWs(s[1..])
    else [if IsSpace(s[0]) then ' ' else s[0]] + CollapseWs(s[1..])
  }

  lemma {:induction false} CollapseWord(s: string, i: nat)
    requires i <= |s| && NoSpace(s[..i])
    ensures CollapseWs(s) == s[..i] + CollapseWs(s[i..])
  {
    if i > 0 {
      assert !IsSpace(s[0]) by { assert s[..i][0] == s[0]; }
      assert s[1..][..i - 1] == s[..i][1..];
      CollapseWord(s[1..], i - 1);
      assert s[1..][i - 1..] == s[i..];
      assert s[..i] == [s[0]] + s[1..][..i - 1];
    }
  }

  lemma {:induction false} CollapseRun(t: string)
    requires t != [] && IsSpace(t[0])
    ensures CollapseWs(t) == " " + CollapseWs(TrimStart(t))
    decreases |t|
  {
    if |t| > 1 && IsSpace(t[1]) {
      CollapseRun(t[1..]);
    }
  }

  /** `s.split(/\s+/)`: the pieces between maximal runs of white space.
      Joined with single spaces they give the text with each run collapsed
      to one space, and no piece holds white space, so the pieces are the
      text's tokens in order. Only the first piece (when the text starts
      with white space or is empty) and the last piece (when it ends with
      white space) can be empty. */
  function SplitWs(s: string): (r: seq<string>)
    ensures |r| >= 1
    ensures forall w :: w in r ==> NoSpace(w)
    ensures Join(r, " ") == CollapseWs(s)
    ensures r[0] == [] <==> s == [] || IsSpace(s[0])
    ensures forall k :: 0 < k < |r| - 1 ==> r[k] != []
    ensures NoSpace(s) ==> r == [s]
    decreases |s|
  {
    var i := FirstSpace(s);
    if i == |s| then
      assert s[..i] == s;
      CollapseWord(s, i);
      [s]
    else
      var rest := TrimStart(s[i..]);
      assert !NoSpace(s) by { assert IsSpace(s[i]); }
      var tail := SplitWs(rest);
      SplitStep(s, i, tail);
      [s[..i]] + tail
  }

  /** One step of the split: the first token, then the split of what
      follows the white-space run after it. */
  lemma SplitStep(s: string, i: nat, tail: seq<string>)
    requires i < |s| && IsSpace(s[i]) && NoSpace(s[..i])
    requires |tail| >= 1 && Join(tail, " ") == CollapseWs(TrimStart(s[i..]))
    ensures Join([s[..i]] + tail, " ") == CollapseWs(s)
  {
    CollapseWord(s, i);
    CollapseRun(s[i..]);
    JoinCons(s[..i], tail, " ");
  }

  /** Joining a first piece and a non-empty rest. */
  lemma JoinCons(w: string, tail: seq<string>, sep: string)
    requires |tail| >= 1
    ensures Join([w] + tail, sep) == w + (sep + Join(tail, sep))
  {
    var ws := [w] + tail;
    assert ws[0] == w && ws[1..] == tail;
  }

  /** `ws.join(sep)` */
  function Join(ws: seq<string>, sep: string): string {
    if |ws| == 0 then ""
    else if |ws| == 1 then ws[0]
    else ws[0] + sep + Join(ws[1..], sep)
  }

  /** The UTF-16 code units of one character. */
  function CodeUnits(c: char): (r: seq<int>)
    ensures 1 <= |r| <= 2
    ensures |r| == 1 <==> (c as int) < 0x1_0000
  {
    var n := c as int;
    if n < 0x1_0000 then [n]
    else [0xD800 + (n - 0x1_0000) / 0x400, 0xDC00 + (n - 0x1_0000) % 0x400]
  }

  /** The UTF-16 encoding of a string, as JavaScript stores it. */
  function Utf16(s: string): seq<int> {
    if s == [] then [] else CodeUnits(s[0]) + Utf16(s[1..])
  }

  /** `s.length`: the number of UTF-16 code units. A character outside the
      Basic Multilingual Plane counts twice. */
  function Length(s: string): (n: nat)
    ensures n == |Utf16(s)|
    ensures |s| <= n <= 2 * |s|
  {
    if s == [] then 0 else |CodeUnits(s[0])| + Length(s[1..])
  }

  /** Strict lexicographic order on code-unit sequences. */
  predicate UnitsLess(a: seq<int>, b: seq<int>)
    decreases |a|
  {
    b != [] && (a == [] || a[0] < b[0] || (a[0] == b[0] && UnitsLess(a[1..], b[1..])))
  }

  /** `a > b` on JavaScript strings. */
  predicate Greater(a: string, b: string) {
    UnitsLess(Utf16(b), Utf16(a))
  }

  /** The code-unit order is asymmetric: two strings are never each greater
      than the other. */
  lemma {:induction false} UnitsLessAsymmetric(a: seq<int>, b: seq<int>)
    ensures !(UnitsLess(a, b) && UnitsLess(b, a))
    decreases |a|
  {
    if a != [] && b != [] && a[0] == b[0] {
      UnitsLessAsymmetric(a[1..], b[1..]);
    }
  }

  /** No string is greater than itself. */
  lemma {:induction false} UnitsLessIrreflexive(a: seq<int>)
    ensures !UnitsLess(a, a)
    decreases |a|
  {
    if a != [] {
      UnitsLessIrreflexive(a[1..]);
    }
  }
}
