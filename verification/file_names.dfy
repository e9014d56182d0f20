/**
 * The versioning rules `generateFileName` applies to a subtitle file's name:
 * the last extension is dropped, then a `[Speed-x]` prefix (speed editor),
 * a `[Translated]` prefix (finished translation) or a `[Partial-N]` prefix
 * with the next N (unfinished translation) is put in front, and `.srt`
 * goes at the end. The three regular expressions of the source are written
 * out as the leftmost matches they find.
 */
module FileNames {
  import opened Wrappers
  import opened Strings

  // ---------------------------------------------------------------------
  // `/\.[^/.]+$/`: the last extension
  // ---------------------------------------------------------------------

  /** The regex `\.[^/.]+$` matches at `p`: a dot followed by at least one character, none of them a slash or a dot. */
  predicate ExtensionAt(s: string, p: nat)
  {
    p + 1 < |s| && s[p] == '.' && forall k :: p < k < |s| ==> s[k] != '/' && s[k] != '.'
  }

  /** The position of the last dot. */
  function LastDot(s: string): (r: Option<nat>)
    ensures r.Some? ==> r.value < |s| && s[r.value] == '.' && forall k :: r.value < k < |s| ==> s[k] != '.'
    ensures r.None? ==> forall k :: 0 <= k < |s| ==> s[k] != '.'
  {
    if s == [] then None
    else if s[|s| - 1] == '.' then Some(|s| - 1)
    else LastDot(s[..|s| - 1])
  }

  /**
   * `name.replace(/\.[^/.]+$/, "")`: only the last dot can start a match, so
   * the name loses everything from its last dot when that dot is followed by
   * at least one character and no slash, and is kept whole otherwise.
   */
  function StripExtension(name: string): (r: string)
    ensures forall p: nat :: ExtensionAt(name, p) ==> r == name[..p]
    ensures (forall p: nat :: !ExtensionAt(name, p)) ==> r == name
  {
    match LastDot(name)
    case None => name
    case Some(p) =>
      if p + 1 < |name| && forall k :: p < k < |name| ==> name[k] != '/' then
        assert ExtensionAt(name, p);
        name[..p]
      else name
  }

  /** A `.srt` name loses exactly its `.srt`. */
  lemma StripExtensionSrt(x: string)
    ensures StripExtension(x + ".srt") == x
  {
    var s := x + ".srt";
    assert ExtensionAt(s, |x|);
    assert s[..|x|] == x;
  }

  // ---------------------------------------------------------------------
  // Greedy runs of digits
  // ---------------------------------------------------------------------

  /** The end of the run of decimal digits starting at `i`: where a greedy `\d+` stops. */
  function DigitRunEnd(s: string, i: nat): (k: nat)
    requires i <= |s|
    ensures i <= k <= |s| && AllDigits(s[i..k])
    ensures k == |s| || !IsDigit(s[k])
    decreases |s| - i
  {
    if i < |s| && IsDigit(s[i]) then
      var k := DigitRunEnd(s, i + 1);
      assert s[i..k] == [s[i]] + s[i + 1..k];
      k
    else i
  }

  /** A character of the class `[\d.]`. */
  predicate IsSpeedChar(c: char)
  {
    IsDigit(c) || c == '.'
  }

  /** The end of the run of digits and dots starting at `i`: where a greedy `[\d.]+` stops. */
  function SpeedRunEnd(s: string, i: nat): (k: nat)
    requires i <= |s|
    ensures i <= k <= |s| && forall j :: i <= j < k ==> IsSpeedChar(s[j])
    ensures k == |s| || !IsSpeedChar(s[k])
    decreases |s| - i
  {
    if i < |s| && IsSpeedChar(s[i]) then SpeedRunEnd(s, i + 1) else i
  }

  // ---------------------------------------------------------------------
  // `/^\[Speed-[\d.]+\]\s*/i`
  // ---------------------------------------------------------------------

  /** Where a match of `^\[Speed-[\d.]+\]\s*` (any ASCII case) ends, if there is one. */
  function SpeedPrefixEnd(s: string): (r: Option<nat>)
    ensures r.Some? ==> r.value <= |s|
  {
    if !StartsWithIgnoringCase(s, "[speed-") then None
    else
      var j := SpeedRunEnd(s, 7);
      if 7 < j < |s| && s[j] == ']' then Some(WsRunEnd(s, j + 1)) else None
  }

  // baseName.replace(/^\[Speed-[\d.]+\]\s*/i, "")
  function StripSpeedPrefix(s: string): string
  {
    match SpeedPrefixEnd(s)
    case None => s
    case Some(e) => s[e..]
  }

  // ---------------------------------------------------------------------
  // `/^\[Partial(-(\d+))?\]/i`, with or without a trailing `\s*`
  // ---------------------------------------------------------------------

  /** A match of `^\[Partial(-(\d+))?\]`: where it ends, and the digits of its group (empty when the group did not take part). */
  datatype PartialTag = PartialTag(end: nat, digits: string)

  /**
   * The leftmost match of `^\[Partial(-(\d+))?\]` in any ASCII case. The
   * optional group is tried first: a dash, the longest run of digits (a
   * shorter one would leave a digit where `]` is needed), then `]`; failing
   * that, `]` must follow `[Partial` directly.
   */
  function PartialTagOf(s: string): (r: Option<PartialTag>)
    ensures r.Some? ==> r.value.end <= |s| && AllDigits(r.value.digits)
  {
    if !StartsWithIgnoringCase(s, "[partial") || |s| == 8 then None
    else if s[8] == ']' then Some(PartialTag(9, ""))
    else if s[8] == '-' then
      var j := DigitRunEnd(s, 9);
      if 9 < j < |s| && s[j] == ']' then Some(PartialTag(j + 1, s[9..j])) else None
    else None
  }

  // baseName.replace(/^\[Partial(-\d+)?\]\s*/i, "")
  function StripPartialPrefix(s: string): string
  {
    match PartialTagOf(s)
    case None => s
    case Some(t) => s[WsRunEnd(s, t.end)..]
  }

  /** The number a name's `[Partial…]` prefix stands for: none is 0, `[Partial]` is 1, `[Partial-N]` is N. */
  function PartialLevel(s: string): nat
  {
    match PartialTagOf(s)
    case None => 0
    case Some(t) => if t.digits == "" then 1 else DigitsValue(t.digits)
  }

  // ---------------------------------------------------------------------
  // generateFileName
  // ---------------------------------------------------------------------

  /**
   * The optional `speed` argument: its numeric value and the text the
   * template literal `${speed}` turns it into (JavaScript's number-to-string
   * conversion, which is not part of this model).
   */
  datatype SpeedArg = SpeedArg(value: real, text: string)

  /** `generateFileName(currentName, isFinished, speed)`. */
  function GenerateFileName(currentName: string, isFinished: bool, speed: Option<SpeedArg>): (r: string)
    ensures EndsWith(r, ".srt")
  {
    var baseName := StripExtension(currentName);
    var r :=
      if speed.Some? && speed.value.value != 1.0 then
        "[Speed-" + speed.value.text + "] " + StripSpeedPrefix(baseName) + ".srt"
      else if isFinished then
        "[Translated] " + StripPartialPrefix(baseName) + ".srt"
      else
        match PartialTagOf(baseName)
        case None => "[Partial] " + baseName + ".srt"
        case Some(t) =>
          var currentNum := if t.digits != "" then DigitsValue(t.digits) else 1;
          "[Partial-" + NatToString(currentNum + 1) + "] " + StripPartialPrefix(baseName) + ".srt";
    assert r[|r| - 4..] == ".srt";
    r
  }

  /** The text of a speed that `[\d.]+` reads back: digits and dots only. */
  predicate SpeedText(t: string)
  {
    t != [] && forall j :: 0 <= j < |t| ==> IsSpeedChar(t[j])
  }

  /** A text `trim` would not shorten at the front. */
  predicate NoLeadingSpace(s: string)
  {
    s == [] || !IsWhitespace(s[0])
  }

  // ---------------------------------------------------------------------
  // Properties
  // ---------------------------------------------------------------------

  /**
   * Changing the speed of a file the speed editor already renamed replaces
   * its speed prefix: the name carries the new speed and the base name of
   * the original (without its leading whitespace, which the first `\s*`
   * removed).
   */
  lemma SpeedRenaming(name: string, f1: bool, f2: bool, s1: SpeedArg, s2: SpeedArg)
    requires s1.value != 1.0 && s2.value != 1.0 && SpeedText(s1.text)
    ensures GenerateFileName(GenerateFileName(name, f1, Some(s1)), f2, Some(s2))
            == "[Speed-" + s2.text + "] " + TrimStart(StripSpeedPrefix(StripExtension(name))) + ".srt"
  {
    var clean := StripSpeedPrefix(StripExtension(name));
    var once := "[Speed-" + s1.text + "] " + clean;
    StripExtensionSrt(once);
    assert once == "[Speed-" + s1.text + "]" + (" " + clean);
    SpeedPrefixWritten(s1.text, " " + clean);
    TrimStartSpace(clean);
  }

  /** For a base name without leading whitespace, a second speed change is the same as a first one. */
  lemma SpeedRenamingStable(name: string, f1: bool, f2: bool, s1: SpeedArg, s2: SpeedArg)
    requires s1.value != 1.0 && s2.value != 1.0 && SpeedText(s1.text)
    requires NoLeadingSpace(StripExtension(name))
    ensures GenerateFileName(GenerateFileName(name, f1, Some(s1)), f2, Some(s2)) == GenerateFileName(name, f2, Some(s2))
  {
    SpeedRenaming(name, f1, f2, s1, s2);
    var base := StripExtension(name);
    match SpeedPrefixEnd(base)
    case None =>
      TrimStartOfClean(base);
    case Some(e) =>
      WsRunTrimStart(base, e - 0);
      TrimStartOfClean(base[e..]);
  }

  /**
   * Each unfinished save raises the `[Partial…]` number by one (no prefix
   * counts as 0, `[Partial]` as 1) and keeps the rest of the base name,
   * apart from leading whitespace.
   */
  lemma PartialSuccessor(name: string)
    ensures var next := StripExtension(GenerateFileName(name, false, None));
      PartialLevel(next) == PartialLevel(StripExtension(name)) + 1
      && StripPartialPrefix(next) == TrimStart(StripPartialPrefix(StripExtension(name)))
  {
    var base := StripExtension(name);
    var g := GenerateFileName(name, false, None);
    match PartialTagOf(base)
    case None =>
      assert g == "[Partial] " + base + ".srt";
      StripExtensionSrt("[Partial] " + base);
      PlainStep(base);
    case Some(t) =>
      var currentNum := if t.digits != "" then DigitsValue(t.digits) else 1;
      var d := NatToString(currentNum + 1);
      var clean := StripPartialPrefix(base);
      assert g == "[Partial-" + d + "] " + clean + ".srt";
      StripExtensionSrt("[Partial-" + d + "] " + clean);
      CleanAfterTag(base, t.end);
      NumberedStep(d, clean);
      NatToStringValue(currentNum + 1);
      TrimStartOfClean(clean);
  }

  lemma PlainStep(base: string)
    ensures var next := "[Partial] " + base;
      PartialLevel(next) == 1 && StripPartialPrefix(next) == TrimStart(base)
  {
    var s := "[Partial]" + (" " + base);
    assert "[Partial] " + base == s;
    PartialPlainWritten(" " + base);
    assert PartialTagOf(s) == Some(PartialTag(9, ""));
    TrimStartSpace(base);
    assert StripPartialPrefix(s) == TrimStart(base);
  }

  lemma NumberedStep(d: string, clean: string)
    requires d != [] && AllDigits(d) && NoLeadingSpace(clean)
    ensures var next := "[Partial-" + d + "] " + clean;
      PartialLevel(next) == DigitsValue(d) && StripPartialPrefix(next) == clean
  {
    var s := "[Partial-" + d + "]" + (" " + clean);
    assert "[Partial-" + d + "] " + clean == s;
    PartialNumberedWritten(d, " " + clean);
    assert PartialTagOf(s) == Some(PartialTag(10 + |d|, d));
    TrimStartSpace(clean);
    TrimStartOfClean(clean);
    assert StripPartialPrefix(s) == clean;
  }

  /**
   * Finishing a file saved as partial gives the same name as finishing the
   * original (for a base name without leading whitespace): the `[Partial…]`
   * prefix never survives into `[Translated]`.
   */
  lemma FinishAfterPartial(name: string)
    requires NoLeadingSpace(StripExtension(name))
    ensures GenerateFileName(GenerateFileName(name, false, None), true, None) == GenerateFileName(name, true, None)
  {
    var base := StripExtension(name);
    var g := GenerateFileName(name, false, None);
    PartialSuccessor(name);
    assert GenerateFileName(g, true, None) == "[Translated] " + StripPartialPrefix(StripExtension(g)) + ".srt";
    assert GenerateFileName(name, true, None) == "[Translated] " + StripPartialPrefix(base) + ".srt";
    StrippedIsTrimmed(base);
  }

  /** Stripping the `[Partial…]` prefix of a name without leading whitespace leaves none. */
  lemma StrippedIsTrimmed(base: string)
    requires NoLeadingSpace(base)
    ensures TrimStart(StripPartialPrefix(base)) == StripPartialPrefix(base)
  {
    match PartialTagOf(base)
    case None =>
      TrimStartOfClean(base);
    case Some(t) =>
      CleanAfterTag(base, t.end);
      TrimStartOfClean(StripPartialPrefix(base));
  }

  /** A finished file is named `[Translated] …` and carries no `[Partial…]` number any more. */
  lemma FinishedIsNotPartial(name: string)
    ensures var g := GenerateFileName(name, true, None);
      StartsWith(g, "[Translated] ") && PartialLevel(StripExtension(g)) == 0
  {
    var clean := StripPartialPrefix(StripExtension(name));
    var x := "[Translated] " + clean;
    assert GenerateFileName(name, true, None) == x + ".srt";
    StripExtensionSrt(x);
    assert x[1] == 'T';
    assert (x + ".srt")[..13] == "[Translated] ";
  }

  // ---------------------------------------------------------------------
  // Helpers
  // ---------------------------------------------------------------------

  lemma TrimStartSpace(s: string)
    ensures TrimStart(" " + s) == TrimStart(s)
  {
    assert (" " + s)[1..] == s;
  }

  lemma TrimStartOfClean(s: string)
    requires NoLeadingSpace(s)
    ensures TrimStart(s) == s
  {
  }

  /** What follows a `\s*` has no leading whitespace. */
  lemma CleanAfterTag(s: string, e: nat)
    requires e <= |s|
    ensures NoLeadingSpace(s[WsRunEnd(s, e)..])
  {
  }

  /** A prefix the speed editor wrote is recognised, and `\s*` runs on into the rest. */
  lemma SpeedPrefixWritten(t: string, rest: string)
    requires SpeedText(t)
    ensures var s := "[Speed-" + t + "]" + rest;
      SpeedPrefixEnd(s) == Some(WsRunEnd(s, 8 + |t|)) && s[WsRunEnd(s, 8 + |t|)..] == TrimStart(rest)
  {
    var pre := "[Speed-";
    var s := pre + t + ("]" + rest);
    assert s == "[Speed-" + t + "]" + rest;
    SpeedWord(s);
    SpeedRunInside(pre, t, "]" + rest);
    assert s[7 + |t|] == ']';
    assert SpeedPrefixEnd(s) == Some(WsRunEnd(s, 8 + |t|));
    assert s[8 + |t|..] == rest;
    WsRunTrimStart(s, 8 + |t|);
  }

  lemma SpeedWord(s: string)
    requires |s| >= 7 && s[..7] == "[Speed-"
    ensures StartsWithIgnoringCase(s, "[speed-")
  {
    assert forall i :: 0 <= i < 7 ==> s[i] == "[Speed-"[i];
  }

  lemma PartialWord(s: string)
    requires |s| >= 8 && s[..8] == "[Partial"
    ensures StartsWithIgnoringCase(s, "[partial")
  {
    assert forall i :: 0 <= i < 8 ==> s[i] == "[Partial"[i];
  }

  /** `[\d.]+` run over the speed text stops at the character after it. */
  lemma SpeedRunInside(pre: string, t: string, rest: string)
    requires SpeedText(t) && rest != [] && !IsSpeedChar(rest[0])
    ensures SpeedRunEnd(pre + t + rest, |pre|) == |pre| + |t|
  {
    var s := pre + t + rest;
    forall j | |pre| <= j < |pre| + |t| ensures IsSpeedChar(s[j]) {
      assert s[j] == t[j - |pre|];
    }
    assert s[|pre| + |t|] == rest[0];
    SpeedRunStops(s, |pre|, |pre| + |t|);
  }

  /** `\d+` run over a string of digits stops at the character after it. */
  lemma DigitRunInside(pre: string, d: string, rest: string)
    requires AllDigits(d) && rest != [] && !IsDigit(rest[0])
    ensures var s := pre + d + rest;
      DigitRunEnd(s, |pre|) == |pre| + |d| && s[|pre|..|pre| + |d|] == d
  {
    var s := pre + d + rest;
    forall j | |pre| <= j < |pre| + |d| ensures IsDigit(s[j]) {
      assert s[j] == d[j - |pre|];
    }
    assert s[|pre| + |d|] == rest[0];
    DigitRunStops(s, |pre|, |pre| + |d|);
    assert s[|pre|..|pre| + |d|] == d;
  }

  lemma {:induction false} SpeedRunStops(s: string, i: nat, k: nat)
    requires i <= k < |s| && !IsSpeedChar(s[k])
    requires forall j :: i <= j < k ==> IsSpeedChar(s[j])
    ensures SpeedRunEnd(s, i) == k
    decreases k - i
  {
    if i < k {
      SpeedRunStops(s, i + 1, k);
    }
  }

  lemma {:induction false} DigitRunStops(s: string, i: nat, k: nat)
    requires i <= k < |s| && !IsDigit(s[k])
    requires forall j :: i <= j < k ==> IsDigit(s[j])
    ensures DigitRunEnd(s, i) == k
    decreases k - i
  {
    if i < k {
      DigitRunStops(s, i + 1, k);
    }
  }

  /** A `[Partial]` prefix is recognised with no digits. */
  lemma PartialPlainWritten(rest: string)
    ensures var s := "[Partial]" + rest;
      PartialTagOf(s) == Some(PartialTag(9, "")) && s[WsRunEnd(s, 9)..] == TrimStart(rest)
  {
    var s := "[Partial]" + rest;
    PartialWord(s);
    assert s[8] == ']';
    WsRunTrimStart(s, 9);
    assert s[9..] == rest;
  }

  /** A `[Partial-N]` prefix is recognised with the digits of N. */
  lemma PartialNumberedWritten(d: string, rest: string)
    requires d != [] && AllDigits(d)
    ensures var s := "[Partial-" + d + "]" + rest;
      PartialTagOf(s) == Some(PartialTag(10 + |d|, d)) && s[WsRunEnd(s, 10 + |d|)..] == TrimStart(rest)
  {
    var tag := "[Partial-" + d + "]";
    var s := tag + rest;
    PartialNumberedTag(d, rest);
    WsRunTrimStart(s, |tag|);
    assert s[|tag|..] == rest;
  }

  lemma PartialNumberedTag(d: string, rest: string)
    requires d != [] && AllDigits(d)
    ensures PartialTagOf("[Partial-" + d + "]" + rest) == Some(PartialTag(10 + |d|, d))
  {
    var pre := "[Partial-";
    var s := pre + d + ("]" + rest);
    assert s == "[Partial-" + d + "]" + rest;
    assert s[..8] == "[Partial";
    PartialWord(s);
    assert s[8] == '-';
    DigitRunInside(pre, d, "]" + rest);
    assert s[9 + |d|] == ']';
  }
}
