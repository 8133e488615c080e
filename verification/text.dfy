/** String primitives the interpreter is built from: ASCII case folding, ECMAScript white
    space, trimming, substring search, whitespace splitting, decimal numerals and joining. */
module Text {
  import opened Wrappers

  /** The characters ECMAScript's `\s` and `String.prototype.trim` treat as white space
      (WhiteSpace and LineTerminator). */
  predicate IsSpace(c: char) {
    || c == ' ' || c == '\t' || c == '\n' || c == '\r' || c == '\U{000B}' || c == '\U{000C}'
    || c == '\U{00A0}' || c == '\U{1680}' || ('\U{2000}' <= c <= '\U{200A}')
    || c == '\U{2028}' || c == '\U{2029}' || c == '\U{202F}' || c == '\U{205F}'
    || c == '\U{3000}' || c == '\U{FEFF}'
  }

  /** The characters a regular-expression `.` does not match. */
  predicate IsLineTerminator(c: char) {
    c == '\n' || c == '\r' || c == '\U{2028}' || c == '\U{2029}'
  }

  predicate IsDigit(c: char) {
    '0' <= c <= '9'
  }

  predicate AllDigits(s: string) {
    forall k :: 0 <= k < |s| ==> IsDigit(s[k])
  }

  predicate NoSpace(s: string) {
    forall k :: 0 <= k < |s| ==> !IsSpace(s[k])
  }

  predicate AllSpace(s: string) {
    forall k :: 0 <= k < |s| ==> IsSpace(s[k])
  }

  // ---------------------------------------------------------------- case folding

  predicate IsUpper(c: char) {
    'A' <= c <= 'Z'
  }

  function LowerChar(c: char): (r: char)
    ensures IsUpper(c) ==> r as int == c as int + 32
    ensures !IsUpper(c) ==> r == c
  {
    if IsUpper(c) then (c as int + 32) as char else c
  }

  /** Folds A-Z to a-z and leaves every other character as it is. */
  function Lower(s: string): (r: string)
    ensures |r| == |s|
    ensures forall k :: 0 <= k < |s| ==> r[k] == LowerChar(s[k])
  {
    seq(|s|, k requires 0 <= k < |s| => LowerChar(s[k]))
  }

  predicate HasNoUpper(s: string) {
    forall k :: 0 <= k < |s| ==> !IsUpper(s[k])
  }

  /** Folding leaves no upper-case letter, and folding a folded string changes nothing. */
  lemma LowerIsIdempotent(s: string)
    ensures HasNoUpper(Lower(s))
    ensures Lower(Lower(s)) == Lower(s)
  {
  }

  // ---------------------------------------------------------------- substrings

  /** `w` occurs in `s` starting at position `i`. */
  predicate PrefixAt(s: string, i: nat, w: string) {
    i + |w| <= |s| && s[i..i + |w|] == w
  }

  /** `s` ends with `suffix`. */
  predicate EndsWith(s: string, suffix: string) {
    |suffix| <= |s| && s[|s| - |suffix|..] == suffix
  }

  /** `w` (written in lower case) occurs in `s` at `i`, ignoring the case of ASCII letters. */
  predicate FoldedPrefixAt(s: string, i: nat, w: string) {
    i + |w| <= |s| && Lower(s[i..i + |w|]) == w
  }

  /** Each character of a folded occurrence folds to the matching character of `w`. */
  lemma FoldedPrefixAtChar(s: string, i: nat, w: string, k: nat)
    requires FoldedPrefixAt(s, i, w) && k < |w|
    ensures LowerChar(s[i + k]) == w[k]
  {
    assert s[i..i + |w|][k] == s[i + k];
  }

  /** The first position at or after `from` where `w` occurs in `s`. */
  function IndexOf(s: string, w: string, from: nat): (r: Option<nat>)
    decreases |s| - from
    ensures r.Some? ==> from <= r.value && PrefixAt(s, r.value, w)
    ensures r.Some? ==> forall k :: from <= k < r.value ==> !PrefixAt(s, k, w)
    ensures r.None? ==> forall k :: from <= k ==> !PrefixAt(s, k, w)
  {
    if from + |w| > |s| then None
    else if PrefixAt(s, from, w) then Some(from)
    else IndexOf(s, w, from + 1)
  }

  /** ECMAScript's `s.includes(w)`. */
  predicate Contains(s: string, w: string) {
    IndexOf(s, w, 0).Some?
  }

  /** `Contains` holds exactly when `w` occurs somewhere in `s`. */
  lemma ContainsIff(s: string, w: string)
    ensures Contains(s, w) <==> exists i: nat :: PrefixAt(s, i, w)
  {
  }

  /** An occurrence of `w` inside a part of `s` is an occurrence in `s`. */
  lemma ContainsWithin(s: string, a: nat, b: nat, w: string)
    requires a <= b <= |s|
    requires Contains(s[a..b], w)
    ensures Contains(s, w)
  {
    var i := IndexOf(s[a..b], w, 0).value;
    assert s[a..b][i..i + |w|] == w;
    assert s[a + i..a + i + |w|] == w;
    assert PrefixAt(s, a + i, w);
  }

  /** An occurrence of `w` inside an occurrence of `m` in `s` is an occurrence in `s`. */
  lemma ContainsTransitive(s: string, m: string, w: string)
    requires Contains(s, m) && Contains(m, w)
    ensures Contains(s, w)
  {
    var at := IndexOf(s, m, 0).value;
    assert s[at..at + |m|] == m;
    ContainsWithin(s, at, at + |m|, w);
  }

  /** At least one of `ws` occurs in `s`. */
  predicate ContainsAny(s: string, ws: seq<string>) {
    exists k :: 0 <= k < |ws| && Contains(s, ws[k])
  }

  // ---------------------------------------------------------------- trimming

  /** The first position at or after `i` that is not white space (or the end). */
  function SkipSpaces(s: string, i: nat): (e: nat)
    requires i <= |s|
    decreases |s| - i
    ensures i <= e <= |s|
  {
    if i == |s| || !IsSpace(s[i]) then i else SkipSpaces(s, i + 1)
  }

  /** `SkipSpaces` passes over white space only and stops at the first other character. */
  lemma {:induction false} SkipSpacesStops(s: string, i: nat)
    requires i <= |s|
    decreases |s| - i
    ensures forall k :: i <= k < SkipSpaces(s, i) ==> IsSpace(s[k])
    ensures SkipSpaces(s, i) == |s| || !IsSpace(s[SkipSpaces(s, i)])
  {
    if i < |s| && IsSpace(s[i]) {
      SkipSpacesStops(s, i + 1);
    }
  }

  /** The last position at or before `j` that is not preceded by white space (or the start). */
  function BackSpaces(s: string, j: nat): (b: nat)
    requires j <= |s|
    decreases j
    ensures b <= j
    ensures forall k :: b <= k < j ==> IsSpace(s[k])
    ensures b == 0 || !IsSpace(s[b - 1])
  {
    if j == 0 || !IsSpace(s[j - 1]) then j else BackSpaces(s, j - 1)
  }

  /** ECMAScript's `s.trim()`: the longest slice of `s` that neither starts nor ends with
      white space, after removing only white space from both ends. */
  function Trim(s: string): (r: string)
    ensures |r| <= |s|
    ensures |r| == 0 || (!IsSpace(r[0]) && !IsSpace(r[|r| - 1]))
  {
    var a := SkipSpaces(s, 0);
    var b := BackSpaces(s, |s|);
    SkipSpacesStops(s, 0);
    if a == |s| then []
    else
      assert b > a by {
        assert !IsSpace(s[a]);
      }
      s[a..b]
  }

  /** Trimming removes white space at both ends and nothing else: the result is a piece of
      the input with only white space before and after it. */
  lemma TrimDropsOnlyBlanks(s: string)
    ensures exists a: nat :: a + |Trim(s)| <= |s| && s[a..a + |Trim(s)|] == Trim(s)
                             && AllSpace(s[..a]) && AllSpace(s[a + |Trim(s)|..])
  {
    var a := SkipSpaces(s, 0);
    var b := BackSpaces(s, |s|);
    SkipSpacesStops(s, 0);
    var r := Trim(s);
    if a == |s| {
      assert AllSpace(s[..0]) && AllSpace(s[0..]);
    } else {
      assert b > a by {
        assert !IsSpace(s[a]);
      }
      assert r == s[a..b];
      assert s[a..a + |r|] == r;
      assert AllSpace(s[..a]);
      assert AllSpace(s[a + |r|..]);
    }
  }

  /** Trimming twice is trimming once. */
  lemma TrimIsIdempotent(s: string)
    ensures Trim(Trim(s)) == Trim(s)
  {
    var t := Trim(s);
    if |t| > 0 {
      SkipSpacesStops(t, 0);
      assert SkipSpaces(t, 0) == 0;
      assert BackSpaces(t, |t|) == |t|;
    }
  }

  // ---------------------------------------------------------------- words

  /** The end of the run of non-space characters starting at `i`. */
  function WordEnd(s: string, i: nat): (e: nat)
    requires i <= |s|
    decreases |s| - i
    ensures i <= e <= |s|
    ensures forall k :: i <= k < e ==> !IsSpace(s[k])
    ensures e == |s| || IsSpace(s[e])
  {
    if i == |s| || IsSpace(s[i]) then i else WordEnd(s, i + 1)
  }

  /** `s[a..b]` is a maximal run of non-space characters of `s` lying at or after `i`. */
  predicate IsWordSpan(s: string, i: nat, a: nat, b: nat) {
    && i <= a < b <= |s|
    && (a == i || IsSpace(s[a - 1]))
    && (b == |s| || IsSpace(s[b]))
    && forall k :: a <= k < b ==> !IsSpace(s[k])
  }

  /** The maximal runs of non-space characters of `s` from `i` on, in order. */
  function WordsFrom(s: string, i: nat): seq<string>
    requires i <= |s|
    decreases |s| - i
  {
    if i == |s| then []
    else if IsSpace(s[i]) then WordsFrom(s, i + 1)
    else
      var e := WordEnd(s, i);
      [s[i..e]] + WordsFrom(s, e)
  }

  /** For an input with no leading or trailing white space, ECMAScript's
      `s.split(/\s+/)`, except that the empty input gives no word instead of one empty word. */
  function Words(s: string): seq<string> {
    WordsFrom(s, 0)
  }

  /** A word is exactly a maximal run of non-space characters. */
  lemma {:induction false} WordsFromAreSpans(s: string, i: nat, w: string)
    requires i <= |s|
    requires i == 0 || i == |s| || IsSpace(s[i - 1]) || IsSpace(s[i])
    decreases |s| - i
    ensures w in WordsFrom(s, i) <==> exists a: nat, b: nat :: IsWordSpan(s, i, a, b) && w == s[a..b]
  {
    if i == |s| {
    } else if IsSpace(s[i]) {
      WordsFromAreSpans(s, i + 1, w);
      if exists a: nat, b: nat :: IsWordSpan(s, i, a, b) && w == s[a..b] {
        var a: nat, b: nat :| IsWordSpan(s, i, a, b) && w == s[a..b];
        assert a != i;
        assert IsWordSpan(s, i + 1, a, b);
      }
    } else {
      var e := WordEnd(s, i);
      WordsFromAreSpans(s, e, w);
      assert IsWordSpan(s, i, i, e);
      if exists a: nat, b: nat :: IsWordSpan(s, i, a, b) && w == s[a..b] {
        var a: nat, b: nat :| IsWordSpan(s, i, a, b) && w == s[a..b];
        if a == i {
          assert b == e;
        } else {
          assert IsWordSpan(s, e, a, b);
        }
      }
      if exists a: nat, b: nat :: IsWordSpan(s, e, a, b) && w == s[a..b] {
        var a: nat, b: nat :| IsWordSpan(s, e, a, b) && w == s[a..b];
        assert IsWordSpan(s, i, a, b);
      }
    }
  }

  /** `w` is one of the maximal runs of non-space characters of `s`. */
  ghost predicate IsWord(s: string, w: string) {
    exists a: nat, b: nat :: IsWordSpan(s, 0, a, b) && w == s[a..b]
  }

  /** The words of `s` are exactly its maximal runs of non-space characters, and each of
      them is a non-empty, space-free piece of `s`. */
  lemma WordsAreMaximalRuns(s: string, w: string)
    ensures w in Words(s) <==> IsWord(s, w)
    ensures w in Words(s) ==> |w| > 0 && NoSpace(w) && Contains(s, w)
  {
    WordsFromAreSpans(s, 0, w);
    if w in Words(s) {
      var a: nat, b: nat :| IsWordSpan(s, 0, a, b) && w == s[a..b];
      assert PrefixAt(s, a, w);
      ContainsIff(s, w);
    }
  }

  // ---------------------------------------------------------------- decimal numerals

  function DigitValue(c: char): (d: nat)
    requires IsDigit(c)
    ensures d < 10
  {
    c as int - '0' as int
  }

  function DigitChar(d: nat): (c: char)
    requires d < 10
    ensures IsDigit(c) && DigitValue(c) == d
  {
    ('0' as int + d) as char
  }

  /** The value of a string of decimal digits, read most significant first (as `parseInt`
      reads the digit run it is given). */
  function DigitsValue(s: string): nat
    requires AllDigits(s)
    decreases |s|
  {
    if |s| == 0 then 0 else DigitsValue(s[..|s| - 1]) * 10 + DigitValue(s[|s| - 1])
  }

  /** The decimal numeral of `n` (ECMAScript's `String(n)` on a non-negative integer):
      non-empty, digits only, no leading zero. */
  function NatToString(n: nat): (r: string)
    decreases n
    ensures |r| > 0 && AllDigits(r)
    ensures |r| == 1 || r[0] != '0'
  {
    if n < 10 then [DigitChar(n)] else NatToString(n / 10) + [DigitChar(n % 10)]
  }

  /** Reading back the numeral of `n` gives `n`. */
  lemma {:induction false} DigitsValueOfNatToString(n: nat)
    decreases n
    ensures DigitsValue(NatToString(n)) == n
  {
    var r := NatToString(n);
    if n >= 10 {
      DigitsValueOfNatToString(n / 10);
      assert r[..|r| - 1] == NatToString(n / 10);
    }
  }

  // ---------------------------------------------------------------- joining

  /** ECMAScript's `parts.join(sep)`. */
  function Join(parts: seq<string>, sep: string): string
    decreases |parts|
  {
    if |parts| == 0 then ""
    else if |parts| == 1 then parts[0]
    else parts[0] + sep + Join(parts[1..], sep)
  }

  /** Every part occurs in the joined string. */
  lemma {:induction false} JoinContainsParts(parts: seq<string>, sep: string, k: nat)
    requires k < |parts|
    decreases |parts|
    ensures Contains(Join(parts, sep), parts[k])
  {
    var j := Join(parts, sep);
    if |parts| == 1 || k == 0 {
      assert PrefixAt(j, 0, parts[0]);
    } else {
      JoinContainsParts(parts[1..], sep, k - 1);
      var rest := Join(parts[1..], sep);
      var off := |parts[0]| + |sep|;
      assert j == parts[0] + sep + rest;
      assert j[off..|j|] == rest;
      ContainsWithin(j, off, |j|, parts[k]);
    }
  }
}
