/**
 * The parts of Python's `str` that the pipeline relies on, over `string`.
 * A Dafny `char` is a Unicode scalar value; the lone surrogates a Python
 * `str` may also hold have no counterpart.
 */
module PyStr {

  /** `c.isspace()`: the characters `str.strip()` removes. */
  predicate IsSpace(c: char) {
    || c == ' '
    || ('\t' <= c <= '\r')
    || ('\U{1c}' <= c <= '\U{1f}')
    || c == '\U{85}' || c == '\U{a0}' || c == '\U{1680}'
    || ('\U{2000}' <= c <= '\U{200a}')
    || c == '\U{2028}' || c == '\U{2029}' || c == '\U{202f}' || c == '\U{205f}' || c == '\U{3000}'
  }

  /** The characters at which `str.splitlines()` ends a line. */
  predicate IsLineBreak(c: char) {
    || c == '\n' || c == '\r' || c == '\U{0b}' || c == '\U{0c}'
    || ('\U{1c}' <= c <= '\U{1e}')
    || c == '\U{85}' || c == '\U{2028}' || c == '\U{2029}'
  }

  lemma LineBreakIsSpace(c: char)
    requires IsLineBreak(c)
    ensures IsSpace(c)
  {
  }

  predicate NoLineBreak(s: string) {
    forall k :: 0 <= k < |s| ==> !IsLineBreak(s[k])
  }

  /** Neither end of `s` is whitespace (vacuously true of ""). */
  predicate IsStripped(s: string) {
    |s| > 0 ==> !IsSpace(s[0]) && !IsSpace(s[|s| - 1])
  }

  function TrimStart(s: string): (r: string)
    ensures |r| <= |s| && r == s[|s| - |r|..]
    ensures |r| > 0 ==> !IsSpace(r[0])
    ensures forall k :: 0 <= k < |s| - |r| ==> IsSpace(s[k])
  {
    if |s| > 0 && IsSpace(s[0]) then TrimStart(s[1..]) else s
  }

  function TrimEnd(s: string): (r: string)
    ensures |r| <= |s| && r == s[..|r|]
    ensures |r| > 0 ==> !IsSpace(r[|r| - 1])
    ensures forall k :: |r| <= k < |s| ==> IsSpace(s[k])
  {
    if |s| > 0 && IsSpace(s[|s| - 1]) then TrimEnd(s[..|s| - 1]) else s
  }

  /** `s.strip()`. */
  function Strip(s: string): string {
    TrimEnd(TrimStart(s))
  }

  /** Where the slice kept by `s.strip()` begins. */
  function StripStart(s: string): nat {
    |s| - |TrimStart(s)|
  }

  /**
   * `s.strip()` removes a whitespace-only border at each end and keeps the
   * middle: it is a slice of `s`, stripped, and empty exactly when `s` is
   * whitespace only.
   */
  lemma StripSpec(s: string)
    ensures StripStart(s) + |Strip(s)| <= |s|
    ensures Strip(s) == s[StripStart(s)..StripStart(s) + |Strip(s)|]
    ensures IsStripped(Strip(s))
    ensures Strip(s) == "" <==> forall k :: 0 <= k < |s| ==> IsSpace(s[k])
    ensures forall k :: 0 <= k < StripStart(s) ==> IsSpace(s[k])
    ensures forall k :: StripStart(s) + |Strip(s)| <= k < |s| ==> IsSpace(s[k])
  {
    StripSlice(s);
    StripEnds(s);
    StripEmpty(s);
    StripBorders(s);
  }

  /** What `strip()` cuts off at either end is whitespace. */
  lemma StripBorders(s: string)
    ensures StripStart(s) + |Strip(s)| <= |s|
    ensures forall k :: 0 <= k < StripStart(s) ==> IsSpace(s[k])
    ensures forall k :: StripStart(s) + |Strip(s)| <= k < |s| ==> IsSpace(s[k])
  {
    var t := TrimStart(s);
    var i := |s| - |t|;
    var r := TrimEnd(t);
    assert Strip(s) == r;
    forall k | i + |r| <= k < |s| ensures IsSpace(s[k]) {
      TrimmedEnd(t, k - i);
      assert s[k] == t[k - i];
    }
  }

  lemma TrimmedEnd(t: string, j: int)
    requires |TrimEnd(t)| <= j < |t|
    ensures IsSpace(t[j])
  {
  }

  lemma StripSlice(s: string)
    ensures StripStart(s) + |Strip(s)| <= |s|
    ensures Strip(s) == s[StripStart(s)..StripStart(s) + |Strip(s)|]
  {
    var t, r := TrimStart(s), Strip(s);
    assert t == s[StripStart(s)..];
    assert r == t[..|r|];
  }

  lemma StripEnds(s: string)
    ensures IsStripped(Strip(s))
  {
    var t, r := TrimStart(s), Strip(s);
    assert |r| > 0 ==> r[0] == t[0];
  }

  lemma StripEmpty(s: string)
    ensures Strip(s) == "" <==> forall k :: 0 <= k < |s| ==> IsSpace(s[k])
  {
    var t, r := TrimStart(s), Strip(s);
    var i := StripStart(s);
    assert |r| == 0 ==> |t| == 0;
    StripSlice(s);
    assert |r| > 0 ==> !IsSpace(s[i + |r| - 1]) by {
      assert |r| > 0 ==> r[|r| - 1] == s[i + |r| - 1];
    }
  }

  lemma StripNoLineBreak(s: string)
    requires NoLineBreak(s)
    ensures NoLineBreak(Strip(s))
  {
    StripSlice(s);
    var i := StripStart(s);
    forall k | 0 <= k < |Strip(s)| ensures !IsLineBreak(Strip(s)[k]) {
      assert Strip(s)[k] == s[i + k];
    }
  }

  lemma {:induction false} TrimStartOfStripped(s: string)
    requires |s| == 0 || !IsSpace(s[0])
    ensures TrimStart(s) == s
  {
  }

  /** A stripped string is a fixed point of `strip()`. */
  lemma StripIdempotent(s: string)
    requires IsStripped(s)
    ensures Strip(s) == s
  {
    TrimStartOfStripped(s);
  }

  /** `sep.join(parts)`. */
  function JoinWith(sep: string, parts: seq<string>): string {
    if |parts| == 0 then ""
    else if |parts| == 1 then parts[0]
    else parts[0] + sep + JoinWith(sep, parts[1..])
  }

  /** A Python `str.join` starts with its first part. */
  lemma {:induction false} JoinWithStartsWithFirst(sep: string, parts: seq<string>)
    requires |parts| > 0
    ensures |parts[0]| <= |JoinWith(sep, parts)|
    ensures JoinWith(sep, parts)[..|parts[0]|] == parts[0]
  {
  }

  /** `t` occurs in `s` at offset `o`. */
  predicate OccursAt(s: string, t: string, o: nat) {
    o + |t| <= |s| && s[o..o + |t|] == t
  }

  /** Every part of a `str.join` occurs in the joined string. */
  lemma {:induction false} JoinWithContains(sep: string, parts: seq<string>, i: nat)
    requires i < |parts|
    ensures exists o: nat :: OccursAt(JoinWith(sep, parts), parts[i], o)
    decreases i
  {
    var joined := JoinWith(sep, parts);
    if i == 0 {
      JoinWithStartsWithFirst(sep, parts);
      assert OccursAt(joined, parts[0], 0);
    } else {
      var rest := parts[1..];
      JoinWithContains(sep, rest, i - 1);
      var o: nat :| OccursAt(JoinWith(sep, rest), rest[i - 1], o);
      var lead := parts[0] + sep;
      assert joined == lead + JoinWith(sep, rest);
      assert joined[|lead| + o..|lead| + o + |parts[i]|] == JoinWith(sep, rest)[o..o + |parts[i]|];
      assert OccursAt(joined, parts[i], |lead| + o);
    }
  }

  /** `text.endswith(suffix)`. */
  predicate EndsWith(text: string, suffix: string) {
    |suffix| <= |text| && text[|text| - |suffix|..] == suffix
  }

  /** `c.lower()` on ASCII letters; other characters are left as they are. */
  function AsciiLower(c: char): char {
    if 'A' <= c <= 'Z' then (c as int - 'A' as int + 'a' as int) as char else c
  }

  function Lower(s: string): (r: string)
    ensures |r| == |s|
    ensures forall k :: 0 <= k < |s| ==> r[k] == AsciiLower(s[k])
  {
    if |s| == 0 then "" else Lower(s[..|s| - 1]) + [AsciiLower(s[|s| - 1])]
  }

  /** `s.rfind(c)`: the last index of `c`, or -1. */
  function RFind(s: string, c: char): (r: int)
    ensures -1 <= r < |s|
    ensures r >= 0 ==> s[r] == c
    ensures forall k :: r < k < |s| ==> s[k] != c
  {
    if |s| == 0 then -1
    else if s[|s| - 1] == c then |s| - 1
    else RFind(s[..|s| - 1], c)
  }

  lemma RFindUnique(s: string, c: char, i: int)
    requires -1 <= i < |s|
    requires i >= 0 ==> s[i] == c
    requires forall k :: i < k < |s| ==> s[k] != c
    ensures RFind(s, c) == i
  {
  }

  // Decimal formatting of integers, as `str(n)` / `f"{n}"` produce it.

  function DigitChar(d: int): char
    requires 0 <= d < 10
  {
    ('0' as int + d) as char
  }

  predicate IsDigit(c: char) {
    '0' <= c <= '9'
  }

  function NatToString(n: nat): (r: string)
    ensures |r| > 0
    ensures forall k :: 0 <= k < |r| ==> IsDigit(r[k])
  {
    if n < 10 then [DigitChar(n)] else NatToString(n / 10) + [DigitChar(n % 10)]
  }

  function IntToString(i: int): (r: string)
    ensures |r| > 0
    ensures forall k :: 0 <= k < |r| ==> IsDigit(r[k]) || (k == 0 && r[k] == '-')
  {
    if i < 0 then "-" + NatToString(-i) else NatToString(i)
  }

  function ParseNat(s: string): nat
    requires forall k :: 0 <= k < |s| ==> IsDigit(s[k])
  {
    if |s| == 0 then 0
    else
      assert IsDigit(s[|s| - 1]);
      10 * ParseNat(s[..|s| - 1]) + (s[|s| - 1] as int - '0' as int)
  }

  /** Reading the digits back gives the number: decimal formatting loses nothing. */
  lemma {:induction false} ParseNatToString(n: nat)
    ensures ParseNat(NatToString(n)) == n
  {
    if n >= 10 {
      var s := NatToString(n);
      assert s[..|s| - 1] == NatToString(n / 10);
      ParseNatToString(n / 10);
    }
  }

  /** Distinct integers are formatted differently. */
  lemma IntToStringInjective(a: int, b: int)
    requires IntToString(a) == IntToString(b)
    ensures a == b
  {
    var s := IntToString(a);
    if a < 0 && b < 0 {
      assert NatToString(-a) == s[1..] == NatToString(-b);
      ParseNatToString(-a);
      ParseNatToString(-b);
    } else if a >= 0 && b >= 0 {
      ParseNatToString(a);
      ParseNatToString(b);
    } else {
      IntToStringSign(a);
      IntToStringSign(b);
      assert false;
    }
  }

  lemma IntToStringSign(i: int)
    ensures IntToString(i)[0] == '-' <==> i < 0
  {
  }

  predicate NoUnderscore(s: string) {
    forall k :: 0 <= k < |s| ==> s[k] != '_'
  }

  /** `s.find(c)`: the first index of `c`, or `|s|` when there is none. */
  function Find(s: string, c: char): (r: nat)
    ensures r <= |s|
  {
    if |s| == 0 then 0 else if s[0] == c then 0 else 1 + Find(s[1..], c)
  }

  lemma {:induction false} FindAfterPrefix(a: string, r: string)
    requires NoUnderscore(a)
    ensures Find(a + "_" + r, '_') == |a|
  {
    if |a| > 0 {
      assert (a + "_" + r)[1..] == a[1..] + "_" + r;
      FindAfterPrefix(a[1..], r);
    }
  }

  /**
   * When the parts before the first `_` contain no `_`, the string splits
   * uniquely there.
   */
  lemma UnderscoreSplit(a: string, r: string, a': string, r': string)
    requires NoUnderscore(a) && NoUnderscore(a')
    requires a + "_" + r == a' + "_" + r'
    ensures a == a' && r == r'
  {
    var s := a + "_" + r;
    FindAfterPrefix(a, r);
    FindAfterPrefix(a', r');
    assert a == s[..|a|] == a';
    assert r == s[|a| + 1..] == r';
  }

  lemma IntToStringNoUnderscore(i: int)
    ensures NoUnderscore(IntToString(i))
  {
  }
}
