/** The three regular expressions of the chat interpreter, written out as scans:

      ordinal     (?:task|number|no\.?)\s*(\d+)                               case-insensitive
      new title   (?:update|change|modify|edit)\s+(?:<connective>)\s+(.+)     case-insensitive
      politeness  (please|kindly|could you|...|buy me)\s*                     global, case-insensitive

    A regular expression reports its leftmost match; at one start position it tries the
    alternatives in order and backtracks into quantifiers. Inside these patterns every
    quantified run (`\s*`, `\s+`, `\d+`, `\.?`) is followed by a piece whose first character
    cannot belong to the run, so only the longest run can lead to a match and the scans take
    runs greedily. The one exception is the final `\s+(.+)`, where `.` also matches blanks;
    `CaptureStart` models that backtracking explicitly.

    With the `i` flag and no `u` flag a character matches an ASCII letter exactly when it
    folds to it with ASCII folding, so the keyword tests use `FoldedPrefixAt`. */
module Patterns {
  import opened Wrappers
  import opened Text

  // ---------------------------------------------------------------- ordinal reference

  /** End of `task`, `number` or `no` (with an optional `.`) at `i`, if one is there. */
  function OrdinalKeywordEnd(s: string, i: nat): (r: Option<nat>)
    ensures r.Some? ==> i < r.value <= |s|
    ensures r.Some? <==> FoldedPrefixAt(s, i, "task") || FoldedPrefixAt(s, i, "number")
                         || FoldedPrefixAt(s, i, "no")
    ensures FoldedPrefixAt(s, i, "task") ==> r == Some(i + 4)
    ensures FoldedPrefixAt(s, i, "number") ==> r == Some(i + 6)
    ensures FoldedPrefixAt(s, i, "no") ==>
      r == Some(if i + 2 < |s| && s[i + 2] == '.' then i + 3 else i + 2)
  {
    OrdinalKeywordsExclusive(s, i);
    if FoldedPrefixAt(s, i, "task") then Some(i + 4)
    else if FoldedPrefixAt(s, i, "number") then Some(i + 6)
    else if FoldedPrefixAt(s, i, "no") then
      (if i + 2 < |s| && s[i + 2] == '.' then Some(i + 3) else Some(i + 2))
    else None
  }

  /** At most one of the three keywords occurs at a position: they differ in their first
      two letters. */
  lemma OrdinalKeywordsExclusive(s: string, i: nat)
    ensures !(FoldedPrefixAt(s, i, "task") && FoldedPrefixAt(s, i, "number"))
    ensures !(FoldedPrefixAt(s, i, "task") && FoldedPrefixAt(s, i, "no"))
    ensures !(FoldedPrefixAt(s, i, "number") && FoldedPrefixAt(s, i, "no"))
  {
    if FoldedPrefixAt(s, i, "task") {
      FoldedPrefixAtChar(s, i, "task", 0);
    }
    if FoldedPrefixAt(s, i, "number") {
      FoldedPrefixAtChar(s, i, "number", 1);
    }
    if FoldedPrefixAt(s, i, "no") {
      FoldedPrefixAtChar(s, i, "no", 0);
      FoldedPrefixAtChar(s, i, "no", 1);
    }
  }

  /** The end of the run of digits starting at `i`. */
  function DigitsEnd(s: string, i: nat): (e: nat)
    requires i <= |s|
    decreases |s| - i
    ensures i <= e <= |s|
  {
    if i == |s| || !IsDigit(s[i]) then i else DigitsEnd(s, i + 1)
  }

  /** `DigitsEnd` passes over digits only and stops at the first other character. */
  lemma {:induction false} DigitsEndStops(s: string, i: nat)
    requires i <= |s|
    decreases |s| - i
    ensures forall k :: i <= k < DigitsEnd(s, i) ==> IsDigit(s[k])
    ensures DigitsEnd(s, i) == |s| || !IsDigit(s[DigitsEnd(s, i)])
  {
    if i < |s| && IsDigit(s[i]) {
      DigitsEndStops(s, i + 1);
    }
  }

  /** Where the digits captured by an ordinal reference starting at `i` lie, if one starts there. */
  function OrdinalSpan(s: string, i: nat): (r: Option<(nat, nat)>)
    ensures r.Some? ==> i < r.value.0 < r.value.1 <= |s|
  {
    match OrdinalKeywordEnd(s, i)
    case None => None
    case Some(k) =>
      var j := SkipSpaces(s, k);
      var d := DigitsEnd(s, j);
      if d == j then None else Some((j, d))
  }

  /** An ordinal reference is the keyword, then only blanks, then the longest run of digits. */
  lemma OrdinalSpanShape(s: string, i: nat)
    requires OrdinalSpan(s, i).Some?
    ensures var (a, b) := OrdinalSpan(s, i).value;
      && OrdinalKeywordEnd(s, i).Some?
      && OrdinalKeywordEnd(s, i).value <= a
      && AllSpace(s[OrdinalKeywordEnd(s, i).value..a])
      && AllDigits(s[a..b])
      && (b == |s| || !IsDigit(s[b]))
  {
    var k := OrdinalKeywordEnd(s, i).value;
    var j := SkipSpaces(s, k);
    SkipSpacesStops(s, k);
    DigitsEndStops(s, j);
    var (a, b) := OrdinalSpan(s, i).value;
    assert a == j && b == DigitsEnd(s, j);
    assert AllSpace(s[k..a]);
    assert AllDigits(s[a..b]);
  }

  /** An ordinal reference starts wherever the keyword is followed by blanks and a digit. */
  lemma OrdinalSpanExists(s: string, i: nat)
    requires OrdinalKeywordEnd(s, i).Some?
    ensures var j := SkipSpaces(s, OrdinalKeywordEnd(s, i).value);
      OrdinalSpan(s, i).Some? <==> j < |s| && IsDigit(s[j])
  {
    var j := SkipSpaces(s, OrdinalKeywordEnd(s, i).value);
    DigitsEndStops(s, j);
  }

  /** The leftmost position at or after `from` where an ordinal reference starts. */
  function FindOrdinal(s: string, from: nat): (r: Option<nat>)
    decreases |s| - from
    ensures r.Some? ==> from <= r.value && OrdinalSpan(s, r.value).Some?
    ensures r.Some? ==> forall k :: from <= k < r.value ==> OrdinalSpan(s, k).None?
    ensures r.None? ==> forall k :: from <= k ==> OrdinalSpan(s, k).None?
  {
    if from >= |s| then None
    else if OrdinalSpan(s, from).Some? then Some(from)
    else FindOrdinal(s, from + 1)
  }

  /** `parseInt` of the digits the ordinal pattern captures in `msg`, if it matches. */
  function OrdinalReference(msg: string): (r: Option<nat>)
    ensures r.Some? <==> FindOrdinal(msg, 0).Some?
  {
    match FindOrdinal(msg, 0)
    case None => None
    case Some(i) =>
      var (a, b) := OrdinalSpan(msg, i).value;
      OrdinalSpanShape(msg, i);
      Some(DigitsValue(msg[a..b]))
  }

  /** The ordinal pattern matches exactly when an ordinal reference starts somewhere, and then
      the number is the value of the digits of the leftmost one. */
  lemma OrdinalReferenceIsLeftmost(msg: string)
    ensures OrdinalReference(msg).Some? <==> exists i: nat :: OrdinalSpan(msg, i).Some?
    ensures OrdinalReference(msg).Some? ==> exists i: nat ::
      && OrdinalSpan(msg, i).Some?
      && (forall k :: 0 <= k < i ==> OrdinalSpan(msg, k).None?)
      && var (a, b) := OrdinalSpan(msg, i).value;
         AllDigits(msg[a..b]) && OrdinalReference(msg).value == DigitsValue(msg[a..b])
  {
    if FindOrdinal(msg, 0).Some? {
      var i := FindOrdinal(msg, 0).value;
      OrdinalSpanShape(msg, i);
    }
  }

  // ---------------------------------------------------------------- new title

  /** The alternatives the new-title patterns accept between the verb and the title:
      `Word(w)` is the word `w`; `NumberedTask(w)` is `task`, blanks, digits, blanks, `w`. */
  datatype Connective = Word(w: string) | NumberedTask(w: string)

  /** A new-title pattern: one of `verbs`, blanks, one of `connectives`, blanks, capture. */
  datatype TitlePattern = TitlePattern(verbs: seq<string>, connectives: seq<Connective>)

  const UpdateVerbs: seq<string> := ["update", "change", "modify", "edit"]

  /** `(?:update|change|modify|edit)\s+(?:task\s+\d+\s+to|task\s+\d+\s+as|to|as)\s+(.+)`,
      used when a task was picked by number. */
  const TitleAfterOrdinal: TitlePattern := TitlePattern(UpdateVerbs,
    [NumberedTask("to"), NumberedTask("as"), Word("to"), Word("as")])

  /** `(?:update|change|modify|edit)\s+(?:task|to|as)\s+(.+)`, used when a task was picked
      by keyword. */
  const TitleAfterKeyword: TitlePattern := TitlePattern(UpdateVerbs,
    [Word("task"), Word("to"), Word("as")])

  /** `\s+` at `i`: the end of a non-empty run of blanks. */
  function BlanksEnd(s: string, i: nat): (r: Option<nat>)
    requires i <= |s|
    ensures r.Some? ==> i < r.value <= |s|
  {
    var e := SkipSpaces(s, i);
    if e == i then None else Some(e)
  }

  /** `BlanksEnd` fails exactly when no blank is at `i`, and otherwise takes the whole run. */
  lemma BlanksEndIsLongestRun(s: string, i: nat)
    requires i <= |s|
    ensures BlanksEnd(s, i).None? <==> i == |s| || !IsSpace(s[i])
    ensures BlanksEnd(s, i).Some? ==> var e := BlanksEnd(s, i).value;
      && AllSpace(s[i..e])
      && (e == |s| || !IsSpace(s[e]))
  {
    SkipSpacesStops(s, i);
    if BlanksEnd(s, i).Some? {
      assert AllSpace(s[i..BlanksEnd(s, i).value]);
    }
  }

  /** Index of the first of `words` that occurs (ignoring case) at `i`. */
  function FirstWordAt(s: string, i: nat, words: seq<string>): (r: Option<nat>)
    decreases |words|
    ensures r.Some? ==> r.value < |words| && FoldedPrefixAt(s, i, words[r.value])
  {
    if |words| == 0 then None
    else if FoldedPrefixAt(s, i, words[0]) then Some(0)
    else
      match FirstWordAt(s, i, words[1..])
      case None => None
      case Some(k) => Some(k + 1)
  }

  /** `FirstWordAt` picks the first listed word that occurs at `i`, and fails only when none does. */
  lemma {:induction false} FirstWordAtIsFirst(s: string, i: nat, words: seq<string>)
    decreases |words|
    ensures FirstWordAt(s, i, words).Some? ==>
      forall m :: 0 <= m < FirstWordAt(s, i, words).value ==> !FoldedPrefixAt(s, i, words[m])
    ensures FirstWordAt(s, i, words).None? ==>
      forall m :: 0 <= m < |words| ==> !FoldedPrefixAt(s, i, words[m])
  {
    if |words| > 0 && !FoldedPrefixAt(s, i, words[0]) {
      FirstWordAtIsFirst(s, i, words[1..]);
      assert forall m :: 1 <= m < |words| ==> words[m] == words[1..][m - 1];
    }
  }

  /** A word that occurs at `i`, with no earlier-listed word occurring there, is the one
      `FirstWordAt` picks. */
  lemma {:induction false} FirstWordAtFinds(s: string, i: nat, words: seq<string>, k: nat)
    requires k < |words| && FoldedPrefixAt(s, i, words[k])
    requires forall m :: 0 <= m < k ==> !FoldedPrefixAt(s, i, words[m])
    decreases k
    ensures FirstWordAt(s, i, words) == Some(k)
  {
    if k > 0 {
      assert !FoldedPrefixAt(s, i, words[0]);
      assert forall m :: 0 <= m < k - 1 ==> words[1..][m] == words[m + 1];
      FirstWordAtFinds(s, i, words[1..], k - 1);
    }
  }

  /** End of connective `c` at `i`, if it occurs there. */
  function ConnectiveEnd(s: string, i: nat, c: Connective): (r: Option<nat>)
    ensures r.Some? ==> i <= r.value <= |s|
  {
    match c
    case Word(w) => if FoldedPrefixAt(s, i, w) then Some(i + |w|) else None
    case NumberedTask(w) =>
      if !FoldedPrefixAt(s, i, "task") then None
      else match BlanksEnd(s, i + 4)
        case None => None
        case Some(j) =>
          var d := DigitsEnd(s, j);
          if d == j then None
          else match BlanksEnd(s, d)
            case None => None
            case Some(k) => if FoldedPrefixAt(s, k, w) then Some(k + |w|) else None
  }

  /** The end of the run of characters other than line terminators starting at `k`. */
  function LineEnd(s: string, k: nat): (e: nat)
    requires k <= |s|
    decreases |s| - k
    ensures k <= e <= |s|
    ensures k < |s| && !IsLineTerminator(s[k]) ==> k < e
  {
    if k == |s| || IsLineTerminator(s[k]) then k else LineEnd(s, k + 1)
  }

  /** `LineEnd` stops at the first line terminator or at the end. */
  lemma {:induction false} LineEndStops(s: string, k: nat)
    requires k <= |s|
    decreases |s| - k
    ensures forall m :: k <= m < LineEnd(s, k) ==> !IsLineTerminator(s[m])
    ensures LineEnd(s, k) == |s| || IsLineTerminator(s[LineEnd(s, k)])
  {
    if k < |s| && !IsLineTerminator(s[k]) {
      LineEndStops(s, k + 1);
    }
  }

  /** Backtracking for `\s+(.+)` once the blanks `s[e..k]` have been taken: the largest
      split point `k' <= k` with `k' > e` at which `.+` can start. */
  function Backoff(s: string, e: nat, k: nat): (r: Option<nat>)
    requires e < k <= |s|
    decreases k
    ensures r.Some? ==> e < r.value <= k && r.value < |s| && !IsLineTerminator(s[r.value])
  {
    if k < |s| && !IsLineTerminator(s[k]) then Some(k)
    else if k - 1 > e then Backoff(s, e, k - 1)
    else None
  }

  /** `Backoff` returns the largest split point from which `.` can match, and fails only when
      there is none. */
  lemma {:induction false} BackoffIsLargest(s: string, e: nat, k: nat)
    requires e < k <= |s|
    decreases k
    ensures Backoff(s, e, k).Some? ==> var r := Backoff(s, e, k).value;
      forall m :: r < m <= k ==> m == |s| || IsLineTerminator(s[m])
    ensures Backoff(s, e, k).None? ==> forall m :: e < m <= k ==> m == |s| || IsLineTerminator(s[m])
  {
    if !(k < |s| && !IsLineTerminator(s[k])) && k - 1 > e {
      BackoffIsLargest(s, e, k - 1);
    }
  }

  /** Where the capture of `\s+(.+)` starts when that tail is tried at `e`. */
  function CaptureStart(s: string, e: nat): (r: Option<nat>)
    requires e <= |s|
    ensures r.Some? ==> e < r.value < |s| && !IsLineTerminator(s[r.value])
  {
    match BlanksEnd(s, e)
    case None => None
    case Some(q) => Backoff(s, e, q)
  }

  /** The capture starts after a non-empty run of blanks, at a character `.` matches, and no
      later split of those blanks would leave `.+` anything to match: so it is the split the
      backtracking matcher reaches first. */
  lemma CaptureStartIsLastSplit(s: string, e: nat)
    requires e <= |s|
    ensures CaptureStart(s, e).Some? ==> var k := CaptureStart(s, e).value;
      && AllSpace(s[e..k])
      && !IsLineTerminator(s[k])
      && forall m :: k < m <= BlanksEnd(s, e).value ==> m == |s| || IsLineTerminator(s[m])
    ensures CaptureStart(s, e).None? ==>
      (BlanksEnd(s, e).None?
       || forall m :: e < m <= BlanksEnd(s, e).value ==> m == |s| || IsLineTerminator(s[m]))
  {
    BlanksEndIsLongestRun(s, e);
    if BlanksEnd(s, e).Some? {
      var q := BlanksEnd(s, e).value;
      BackoffIsLargest(s, e, q);
      if CaptureStart(s, e).Some? {
        var k := CaptureStart(s, e).value;
        assert CaptureStart(s, e) == Backoff(s, e, q);
        assert e < k <= q;
        assert s[e..k] == s[e..q][..k - e];
      }
    }
  }

  /** The capture of `\s+(.+)` tried at `e`. */
  function CaptureAt(s: string, e: nat): (r: Option<string>)
    requires e <= |s|
    ensures r.Some? <==> CaptureStart(s, e).Some?
    ensures r.Some? ==> |r.value| > 0
  {
    match CaptureStart(s, e)
    case None => None
    case Some(k) => Some(s[k..LineEnd(s, k)])
  }

  /** The capture is the rest of the line from where it starts: it occurs there, holds no
      line terminator, and is followed by the end of the message or a line terminator. */
  lemma CaptureIsRestOfLine(s: string, e: nat)
    requires e <= |s|
    requires CaptureAt(s, e).Some?
    ensures var k := CaptureStart(s, e).value; var c := CaptureAt(s, e).value;
      && PrefixAt(s, k, c)
      && (forall m :: 0 <= m < |c| ==> !IsLineTerminator(c[m]))
      && (k + |c| == |s| || IsLineTerminator(s[k + |c|]))
  {
    LineEndStops(s, CaptureStart(s, e).value);
  }

  /** Connective `c` occurs at `p` and is followed by a capturable tail. */
  predicate Capturable(s: string, p: nat, c: Connective) {
    ConnectiveEnd(s, p, c).Some? && CaptureAt(s, ConnectiveEnd(s, p, c).value).Some?
  }

  /** Tries the connectives in order after the verb's blanks end at `p`: the index of the
      first one that is present and followed by a capturable tail. */
  function ConnectiveChoice(s: string, p: nat, alts: seq<Connective>): (r: Option<nat>)
    decreases |alts|
    ensures r.Some? ==> r.value < |alts| && Capturable(s, p, alts[r.value])
  {
    if |alts| == 0 then None
    else if Capturable(s, p, alts[0]) then Some(0)
    else
      match ConnectiveChoice(s, p, alts[1..])
      case None => None
      case Some(k) => Some(k + 1)
  }

  /** `ConnectiveChoice` takes the first capturable connective in the listed order, and fails
      only when none is. */
  lemma {:induction false} ConnectiveChoiceIsFirst(s: string, p: nat, alts: seq<Connective>)
    decreases |alts|
    ensures ConnectiveChoice(s, p, alts).Some? ==>
      forall m :: 0 <= m < ConnectiveChoice(s, p, alts).value ==> !Capturable(s, p, alts[m])
    ensures ConnectiveChoice(s, p, alts).None? ==>
      forall m :: 0 <= m < |alts| ==> !Capturable(s, p, alts[m])
  {
    if |alts| > 0 && !Capturable(s, p, alts[0]) {
      ConnectiveChoiceIsFirst(s, p, alts[1..]);
      assert forall m :: 1 <= m < |alts| ==> alts[m] == alts[1..][m - 1];
    }
  }

  /** The capture when the connectives are tried after blanks ending at `p`. */
  function ConnectiveCapture(s: string, p: nat, alts: seq<Connective>): (r: Option<string>)
    ensures r.Some? <==> ConnectiveChoice(s, p, alts).Some?
  {
    match ConnectiveChoice(s, p, alts)
    case None => None
    case Some(k) => CaptureAt(s, ConnectiveEnd(s, p, alts[k]).value)
  }

  /** The capture of the new-title pattern when its match starts at `i`. */
  function TitleAt(s: string, i: nat, pat: TitlePattern): (r: Option<string>)
    ensures r.Some? ==> i < |s|
  {
    if i >= |s| then None
    else match FirstWordAt(s, i, pat.verbs)
      case None => None
      case Some(k) =>
        match BlanksEnd(s, i + |pat.verbs[k]|)
        case None => None
        case Some(p) => ConnectiveCapture(s, p, pat.connectives)
  }

  /** The leftmost position at or after `from` where the new-title pattern matches. */
  function FindTitle(s: string, from: nat, pat: TitlePattern): (r: Option<nat>)
    decreases |s| - from
    ensures r.Some? ==> from <= r.value < |s| && TitleAt(s, r.value, pat).Some?
    ensures r.Some? ==> forall k :: from <= k < r.value ==> TitleAt(s, k, pat).None?
    ensures r.None? ==> forall k :: from <= k ==> TitleAt(s, k, pat).None?
  {
    if from >= |s| then None
    else if TitleAt(s, from, pat).Some? then Some(from)
    else FindTitle(s, from + 1, pat)
  }

  /** `msg.match(pattern)[1].trim()` for a new-title pattern: the trimmed capture of the
      leftmost match, if there is one. */
  function NewTitle(msg: string, pat: TitlePattern): (r: Option<string>)
    ensures r.Some? <==> FindTitle(msg, 0, pat).Some?
  {
    match FindTitle(msg, 0, pat)
    case None => None
    case Some(i) => Some(Trim(TitleAt(msg, i, pat).value))
  }

  /** A new title is found exactly when the pattern matches somewhere, and then it is the
      trimmed capture of the leftmost match. */
  lemma NewTitleIsLeftmost(msg: string, pat: TitlePattern)
    ensures NewTitle(msg, pat).Some? <==> exists i: nat :: TitleAt(msg, i, pat).Some?
    ensures NewTitle(msg, pat).Some? ==> exists i: nat ::
      && TitleAt(msg, i, pat).Some?
      && (forall k :: 0 <= k < i ==> TitleAt(msg, k, pat).None?)
      && NewTitle(msg, pat).value == Trim(TitleAt(msg, i, pat).value)
  {
  }

  // ---------------------------------------------------------------- politeness phrases

  const PolitePhrases: seq<string> :=
    ["please", "kindly", "could you", "would you", "i need", "i want", "i should",
     "get me", "buy me"]

  predicate NonEmptyWords(words: seq<string>) {
    forall k :: 0 <= k < |words| ==> |words[k]| > 0
  }

  /** Removes, from position `i` on, every occurrence (ignoring case) of one of `phrases`
      together with the blanks that follow it, scanning left to right as a global replace
      does: where several phrases start at one position the first listed is removed. */
  function StripFrom(s: string, i: nat, phrases: seq<string>): (r: string)
    requires i <= |s|
    requires NonEmptyWords(phrases)
    decreases |s| - i
    ensures |r| <= |s| - i
  {
    if i == |s| then []
    else match FirstWordAt(s, i, phrases)
      case Some(k) => StripFrom(s, SkipSpaces(s, i + |phrases[k]|), phrases)
      case None => [s[i]] + StripFrom(s, i + 1, phrases)
  }

  /** The text a create request uses as the new title: the message with the politeness
      phrases removed, then trimmed. */
  function CleanMessage(msg: string): (r: string)
    ensures |r| <= |msg|
    ensures |r| == 0 || (!IsSpace(r[0]) && !IsSpace(r[|r| - 1]))
  {
    Trim(StripFrom(msg, 0, PolitePhrases))
  }

  ghost predicate NoPhraseFrom(s: string, i: nat, phrases: seq<string>) {
    forall k, m :: i <= k && 0 <= m < |phrases| ==> !FoldedPrefixAt(s, k, phrases[m])
  }

  /** Where no phrase occurs, stripping changes nothing. */
  lemma {:induction false} StripWithoutPhrases(s: string, i: nat, phrases: seq<string>)
    requires i <= |s|
    requires NonEmptyWords(phrases)
    requires NoPhraseFrom(s, i, phrases)
    decreases |s| - i
    ensures StripFrom(s, i, phrases) == s[i..]
  {
    if i < |s| {
      assert FirstWordAt(s, i, phrases).None?;
      StripWithoutPhrases(s, i + 1, phrases);
      assert s[i..] == [s[i]] + s[i + 1..];
    }
  }

  /** A message without politeness phrases is only trimmed. */
  lemma CleanWithoutPhrases(msg: string)
    requires NoPhraseFrom(msg, 0, PolitePhrases)
    ensures CleanMessage(msg) == Trim(msg)
  {
    StripWithoutPhrases(msg, 0, PolitePhrases);
    assert msg[0..] == msg;
  }

  /** Where a phrase occurs and no earlier-listed phrase does, that phrase and the blanks
      after it are dropped and stripping goes on after them. */
  lemma StripDropsPhrase(s: string, i: nat, phrases: seq<string>, k: nat)
    requires i < |s|
    requires NonEmptyWords(phrases)
    requires k < |phrases| && FoldedPrefixAt(s, i, phrases[k])
    requires forall m :: 0 <= m < k ==> !FoldedPrefixAt(s, i, phrases[m])
    ensures StripFrom(s, i, phrases) == StripFrom(s, SkipSpaces(s, i + |phrases[k]|), phrases)
  {
    FirstWordAtFinds(s, i, phrases, k);
  }

  /** Where no phrase occurs, the character there is kept and stripping goes on after it. */
  lemma StripKeepsOtherCharacters(s: string, i: nat, phrases: seq<string>)
    requires i < |s|
    requires NonEmptyWords(phrases)
    requires forall m :: 0 <= m < |phrases| ==> !FoldedPrefixAt(s, i, phrases[m])
    ensures StripFrom(s, i, phrases) == [s[i]] + StripFrom(s, i + 1, phrases)
  {
    FirstWordAtIsFirst(s, i, phrases);
  }

  /** Stripping a text that starts with a phrase, and has none after it, leaves what follows
      the phrase and its blanks. */
  lemma StripDropsLeadingPhrase(s: string, phrases: seq<string>, k: nat)
    requires NonEmptyWords(phrases)
    requires k < |phrases| && FoldedPrefixAt(s, 0, phrases[k])
    requires forall m :: 0 <= m < k ==> !FoldedPrefixAt(s, 0, phrases[m])
    requires NoPhraseFrom(s, |phrases[k]|, phrases)
    ensures StripFrom(s, 0, phrases) == s[SkipSpaces(s, |phrases[k]|)..]
  {
    var j := SkipSpaces(s, |phrases[k]|);
    StripDropsPhrase(s, 0, phrases, k);
    assert StripFrom(s, 0, phrases) == StripFrom(s, j, phrases);
    StripWithoutPhrases(s, j, phrases);
  }

  /** A message that starts with a politeness phrase, and has none after it, is cleaned to
      the text after the phrase and its blanks, trimmed. */
  lemma CleanDropsLeadingPhrase(msg: string, k: nat)
    requires k < |PolitePhrases|
    requires FoldedPrefixAt(msg, 0, PolitePhrases[k])
    requires forall m :: 0 <= m < k ==> !FoldedPrefixAt(msg, 0, PolitePhrases[m])
    requires NoPhraseFrom(msg, |PolitePhrases[k]|, PolitePhrases)
    ensures CleanMessage(msg) == Trim(msg[SkipSpaces(msg, |PolitePhrases[k]|)..])
  {
    assert NonEmptyWords(PolitePhrases);
    StripDropsLeadingPhrase(msg, PolitePhrases, k);
  }

  // ---------------------------------------------------------------- generic replies

  const StopWords: seq<string> :=
    ["hello", "hi", "hey", "help", "test", "ok", "yes", "no", "thanks", "thank you"]

  /** The folded, trimmed message is exactly one of the stop words. */
  predicate IsGeneric(lowerMsg: string) {
    lowerMsg in StopWords
  }
}
