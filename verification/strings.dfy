/**
 * The JavaScript string primitives the subtitle tool relies on, over strings
 * of Unicode scalar values: whitespace and `trim`, `split` on a character or
 * on a separator string, `join`, `includes`, `startsWith`/`endsWith`,
 * lower-casing for matching ASCII words, decimal digits, `padStart`, and the
 * CJK test `/[一-龥]/`.
 */
module Strings {
  import opened Wrappers

  /** WhiteSpace and LineTerminator of ECMAScript: what `trim` removes and what `\s` matches. */
  predicate IsWhitespace(c: char)
  {
    c == '\t' || c == '\n' || c == '\U{000B}' || c == '\U{000C}' || c == '\r' || c == ' '
    || c == '\U{00A0}' || c == '\U{1680}' || ('\U{2000}' <= c <= '\U{200A}')
    || c == '\U{2028}' || c == '\U{2029}' || c == '\U{202F}' || c == '\U{205F}'
    || c == '\U{3000}' || c == '\U{FEFF}'
  }

  /** A string `trim` leaves alone: empty, or neither end is whitespace. */
  predicate Trimmed(s: string)
  {
    s == [] || (!IsWhitespace(s[0]) && !IsWhitespace(s[|s| - 1]))
  }

  function TrimStart(s: string): (r: string)
    ensures |r| <= |s| && r == s[|s| - |r|..]
    ensures r == [] || !IsWhitespace(r[0])
    ensures forall i :: 0 <= i < |s| - |r| ==> IsWhitespace(s[i])
  {
    if s != [] && IsWhitespace(s[0]) then TrimStart(s[1..]) else s
  }

  function TrimEnd(s: string): (r: string)
    ensures |r| <= |s| && r == s[..|r|]
    ensures r == [] || !IsWhitespace(r[|r| - 1])
    ensures forall i :: |r| <= i < |s| ==> IsWhitespace(s[i])
  {
    if s != [] && IsWhitespace(s[|s| - 1]) then TrimEnd(s[..|s| - 1]) else s
  }

  /** `String.prototype.trim`. */
  function Trim(s: string): (r: string)
    ensures Trimmed(r)
    ensures Trimmed(s) ==> r == s
    ensures |r| <= |s|
  {
    var t := TrimStart(s);
    var r := TrimEnd(t);
    assert r != [] ==> r[0] == t[0];
    r
  }

  /** `s.split(c)` for a one-character separator. */
  function SplitOn(s: string, c: char): (r: seq<string>)
    ensures |r| >= 1
    ensures forall k :: 0 <= k < |r| ==> c !in r[k]
    ensures Join(r, [c]) == s
  {
    if s == [] then [""]
    else
      var rest := SplitOn(s[1..], c);
      if s[0] == c then [""] + rest
      else
        var r := [[s[0]] + rest[0]] + rest[1..];
        assert forall k :: 1 <= k < |r| ==> r[k] == rest[k];
        r
  }

  /** `parts.join(sep)`. */
  function Join(parts: seq<string>, sep: string): string
  {
    if |parts| == 0 then ""
    else if |parts| == 1 then parts[0]
    else parts[0] + sep + Join(parts[1..], sep)
  }

  lemma {:induction false} SplitOnPrefix(a: string, c: char, b: string)
    requires c !in a
    ensures SplitOn(a + [c] + b, c) == [a] + SplitOn(b, c)
  {
    if a == [] {
      assert a + [c] + b == [c] + b;
      assert ([c] + b)[1..] == b;
    } else {
      assert (a + [c] + b)[1..] == a[1..] + [c] + b;
      SplitOnPrefix(a[1..], c, b);
      assert [a[0]] + a[1..] == a;
    }
  }

  lemma {:induction false} SplitOnAbsent(a: string, c: char)
    requires c !in a
    ensures SplitOn(a, c) == [a]
  {
    if a != [] {
      SplitOnAbsent(a[1..], c);
      assert [a[0]] + a[1..] == a;
    }
  }

  predicate StartsWith(s: string, prefix: string)
  {
    |prefix| <= |s| && s[..|prefix|] == prefix
  }

  predicate EndsWith(s: string, suffix: string)
  {
    |suffix| <= |s| && s[|s| - |suffix|..] == suffix
  }

  /** `t` occurs in `s` at position `i`. */
  predicate OccursAt(s: string, t: string, i: nat)
  {
    i + |t| <= |s| && s[i..i + |t|] == t
  }

  /** `s.includes(t)`. */
  function Contains(s: string, t: string): bool
  {
    StartsWith(s, t) || (s != [] && Contains(s[1..], t))
  }

  lemma {:induction false} ContainsIff(s: string, t: string)
    ensures Contains(s, t) <==> exists i: nat :: OccursAt(s, t, i)
  {
    if Contains(s, t) {
      ContainsFound(s, t);
    }
    forall i: nat | OccursAt(s, t, i) ensures Contains(s, t) {
      ContainsAt(s, t, i);
    }
  }

  /** The scan stops at an occurrence. */
  lemma {:induction false} ContainsFound(s: string, t: string)
    requires Contains(s, t)
    ensures exists i: nat :: OccursAt(s, t, i)
  {
    if StartsWith(s, t) {
      assert OccursAt(s, t, 0);
    } else {
      ContainsFound(s[1..], t);
      var i: nat :| OccursAt(s[1..], t, i);
      assert s[1..][i..i + |t|] == s[i + 1..i + 1 + |t|];
      assert OccursAt(s, t, i + 1);
    }
  }

  /** A word can only occur in a string that holds each of its characters. */
  lemma ContainsNeedsChar(s: string, t: string, c: char)
    requires Contains(s, t) && c in t
    ensures c in s
  {
    ContainsIff(s, t);
    var i: nat :| OccursAt(s, t, i);
    var j :| 0 <= j < |t| && t[j] == c;
    assert s[i + j] == c;
  }

  /** The scan reaches every occurrence. */
  lemma {:induction false} ContainsAt(s: string, t: string, i: nat)
    requires OccursAt(s, t, i)
    ensures Contains(s, t)
    decreases i
  {
    if i == 0 {
      assert s[..|t|] == s[0..|t|];
    } else {
      assert s[1..][i - 1..i - 1 + |t|] == s[i..i + |t|];
      ContainsAt(s[1..], t, i - 1);
    }
  }

  /** A word is found where each of its characters is found in turn. */
  lemma ContainsWhere(s: string, t: string, i: nat)
    requires i + |t| <= |s| && forall j :: 0 <= j < |t| ==> s[i + j] == t[j]
    ensures Contains(s, t)
  {
    assert s[i..i + |t|] == t;
    ContainsAt(s, t, i);
  }

  /** A text in which one character of a word never appears does not contain the word. */
  lemma LacksChar(s: string, t: string, c: char)
    requires c in t && forall j :: 0 <= j < |s| ==> s[j] != c
    ensures !Contains(s, t)
  {
    if Contains(s, t) {
      ContainsNeedsChar(s, t, c);
    }
  }

  /** ASCII lower-casing of one character, which is what a regex `/i` flag does to the ASCII words the tool matches. */
  function AsciiLower(c: char): char
  {
    if 'A' <= c <= 'Z' then (c as int + 32) as char else c
  }

  /**
   * `toLowerCase` as far as it matters for finding ASCII words: A-Z are
   * lowered, and so are the only two characters outside ASCII whose
   * lower-case form holds an ASCII letter (U+0130 becomes "i" followed by
   * U+0307, the Kelvin sign becomes "k"). Every other character is kept;
   * its lower-case form holds no ASCII character either way, so this cannot
   * change whether an ASCII word occurs.
   */
  function LowerChar(c: char): string
  {
    if 'A' <= c <= 'Z' then [AsciiLower(c)]
    else if c == '\U{0130}' then ['i', '\U{0307}']
    else if c == '\U{212A}' then ['k']
    else [c]
  }

  function ToLower(s: string): string
  {
    if s == [] then [] else LowerChar(s[0]) + ToLower(s[1..])
  }

  /** A character `toLowerCase` keeps as it is. */
  predicate KeptByLower(c: char)
  {
    !('A' <= c <= 'Z') && c != '\U{0130}' && c != '\U{212A}'
  }

  /** Lower-casing text that holds no upper-case letter changes nothing. */
  lemma {:induction false} ToLowerKeeps(s: string)
    requires forall j :: 0 <= j < |s| ==> KeptByLower(s[j])
    ensures ToLower(s) == s
  {
    if s != [] {
      ToLowerKeeps(s[1..]);
      assert s == [s[0]] + s[1..];
    }
  }

  /** Lower-casing works piece by piece. */
  lemma {:induction false} ToLowerAppend(a: string, b: string)
    ensures ToLower(a + b) == ToLower(a) + ToLower(b)
  {
    if a != [] {
      ToLowerAppend(a[1..], b);
      assert (a + b)[1..] == a[1..] + b;
    } else {
      assert a + b == b;
    }
  }

  /** Lower-casing a text holding neither a lower-case ASCII letter (other than i and k) nor its capital gives a text without that letter. */
  lemma {:induction false} ToLowerLacks(s: string, c: char)
    requires 'a' <= c <= 'z' && c != 'i' && c != 'k'
    requires forall j :: 0 <= j < |s| ==> s[j] != c && s[j] != (c as int - 32) as char
    ensures forall j :: 0 <= j < |ToLower(s)| ==> ToLower(s)[j] != c
  {
    if s != [] {
      ToLowerLacks(s[1..], c);
      var head := LowerChar(s[0]);
      assert forall j :: 0 <= j < |head| ==> head[j] != c;
      assert ToLower(s) == head + ToLower(s[1..]);
    }
  }

  /** A word found in a text is found, lower-cased, in the lower-cased text. */
  lemma ToLowerContains(s: string, t: string)
    requires Contains(s, t)
    ensures Contains(ToLower(s), ToLower(t))
  {
    ContainsIff(s, t);
    var i: nat :| OccursAt(s, t, i);
    var rest := s[i + |t|..];
    assert s == s[..i] + t + rest;
    ToLowerAppend(s[..i] + t, rest);
    ToLowerAppend(s[..i], t);
    var pre := ToLower(s[..i]);
    assert ToLower(s) == pre + ToLower(t) + ToLower(rest);
    assert OccursAt(ToLower(s), ToLower(t), |pre|);
    ContainsAt(ToLower(s), ToLower(t), |pre|);
  }

  /** The string starts with `word` up to ASCII case (`word` is written in lower case). */
  predicate StartsWithIgnoringCase(s: string, word: string)
  {
    |word| <= |s| && forall i :: 0 <= i < |word| ==> AsciiLower(s[i]) == word[i]
  }

  predicate IsDigit(c: char)
  {
    '0' <= c <= '9'
  }

  predicate AllDigits(s: string)
  {
    forall i :: 0 <= i < |s| ==> IsDigit(s[i])
  }

  function DigitValue(c: char): (d: nat)
    requires IsDigit(c)
    ensures d <= 9
  {
    c as int - '0' as int
  }

  function DigitChar(d: nat): (c: char)
    requires d < 10
    ensures IsDigit(c) && DigitValue(c) == d
  {
    ('0' as int + d) as char
  }

  /** The value of a string of decimal digits, as `Number` and `parseInt` read it. */
  function DigitsValue(s: string): nat
    requires AllDigits(s)
  {
    if s == [] then 0 else DigitsValue(s[..|s| - 1]) * 10 + DigitValue(s[|s| - 1])
  }

  /** `n.toString()` for a non-negative integer. */
  function NatToString(n: nat): (r: string)
    ensures r != [] && AllDigits(r)
    ensures r[|r| - 1] == DigitChar(n % 10)
    ensures n < 10 <==> |r| == 1
  {
    if n < 10 then [DigitChar(n)]
    else
      var r := NatToString(n / 10) + [DigitChar(n % 10)];
      assert r[..|r| - 1] == NatToString(n / 10);
      r
  }

  /** `n.toString()` reads back as `n`. */
  lemma {:induction false} NatToStringValue(n: nat)
    ensures DigitsValue(NatToString(n)) == n
  {
    if n >= 10 {
      NatToStringValue(n / 10);
      var r := NatToString(n);
      assert r[..|r| - 1] == NatToString(n / 10);
    }
  }

  function Repeat(c: char, k: nat): (r: string)
    ensures |r| == k && forall i :: 0 <= i < k ==> r[i] == c
  {
    seq(k, _ => c)
  }

  /** `s.padStart(width, c)`: never truncates. */
  function PadStart(s: string, width: nat, c: char): (r: string)
    ensures |r| == if |s| >= width then |s| else width
    ensures forall i :: 0 <= i < |r| - |s| ==> r[i] == c
  {
    if |s| >= width then s else Repeat(c, width - |s|) + s
  }

  /** The end of the run of whitespace starting at `i`: where a greedy `\s*` stops. */
  function WsRunEnd(s: string, i: nat): (k: nat)
    requires i <= |s|
    ensures i <= k <= |s|
    ensures forall j :: i <= j < k ==> IsWhitespace(s[j])
    ensures k == |s| || !IsWhitespace(s[k])
    decreases |s| - i
  {
    if i < |s| && IsWhitespace(s[i]) then WsRunEnd(s, i + 1) else i
  }

  /** Skipping a greedy `\s*` from `i` leaves what `trimStart` leaves of the rest. */
  lemma {:induction false} WsRunTrimStart(s: string, i: nat)
    requires i <= |s|
    ensures s[WsRunEnd(s, i)..] == TrimStart(s[i..])
    decreases |s| - i
  {
    if i < |s| && IsWhitespace(s[i]) {
      WsRunTrimStart(s, i + 1);
      assert s[i..][1..] == s[i + 1..];
    }
  }

  /** The first position at or after `from` where `t` occurs in `s`. */
  function IndexOfFrom(s: string, t: string, from: nat): (r: Option<nat>)
    ensures r.Some? ==> from <= r.value && OccursAt(s, t, r.value)
    ensures r.Some? ==> forall j: nat :: from <= j < r.value ==> !OccursAt(s, t, j)
    ensures r.None? ==> forall j: nat :: from <= j ==> !OccursAt(s, t, j)
    decreases |s| - from
  {
    if from + |t| > |s| then None
    else if OccursAt(s, t, from) then Some(from)
    else IndexOfFrom(s, t, from + 1)
  }

  /** The first occurrence at or after `from` is the one the search finds. */
  lemma {:induction false} FirstOccurrence(s: string, t: string, from: nat, p: nat)
    requires from <= p && OccursAt(s, t, p)
    requires forall j: nat :: from <= j < p ==> !OccursAt(s, t, j)
    ensures IndexOfFrom(s, t, from) == Some(p)
    decreases p - from
  {
    if from < p {
      FirstOccurrence(s, t, from + 1, p);
    }
  }

  /** `s.split(sep)` for a non-empty separator string: cut at each leftmost non-overlapping occurrence. */
  function SplitOnSeparator(s: string, sep: string): (r: seq<string>)
    requires |sep| > 0
    ensures |r| >= 1
    decreases |s|
  {
    match IndexOfFrom(s, sep, 0)
    case None => [s]
    case Some(q) => [s[..q]] + SplitOnSeparator(s[q + |sep|..], sep)
  }

  lemma SplitOnSeparatorAbsent(s: string, sep: string)
    requires |sep| > 0 && |sep| <= |s| + 1
    requires sep[0] !in s
    ensures SplitOnSeparator(s, sep) == [s]
  {
  }

  /** The range U+4E00 to U+9FA5 of `/[一-龥]/`. */
  predicate IsCjk(c: char)
  {
    '\U{4E00}' <= c <= '\U{9FA5}'
  }

  /** `/[一-龥]/.test(s)`, a left-to-right scan. */
  predicate ContainsChinese(s: string)
  {
    if s == [] then false
    else if IsCjk(s[0]) then true
    else ContainsChinese(s[1..])
  }

  /** The scan finds a character of the range exactly when there is one. */
  lemma {:induction false} ContainsChineseIff(s: string)
    ensures ContainsChinese(s) <==> exists i :: 0 <= i < |s| && IsCjk(s[i])
  {
    if s != [] && !IsCjk(s[0]) {
      ContainsChineseIff(s[1..]);
      assert forall i :: 1 <= i < |s| ==> s[i] == s[1..][i - 1];
    }
  }
}
