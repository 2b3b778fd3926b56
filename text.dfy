/**
 * Text helpers the core leans on: decimal formatting (`%d`, `%03d`, absl::StrCat),
 * splitting and joining on one character (Go strings.Split, absl::StrSplit with
 * and without MaxSplits, absl::StrJoin), and the two integer parsers the core uses
 * (Go strconv.ParseUint and absl::SimpleAtoi).
 */
module Text {
  import opened Wrappers

  predicate IsDigit(c: char) { '0' <= c <= '9' }

  predicate AllDigits(s: string) { forall i :: 0 <= i < |s| ==> IsDigit(s[i]) }

  function DigitValue(c: char): nat
    requires IsDigit(c)
  {
    c as int - '0' as int
  }

  function DigitChar(d: nat): (c: char)
    requires d < 10
    ensures IsDigit(c) && DigitValue(c) == d
  {
    ('0' as int + d) as char
  }

  /** The value of a string of decimal digits, most significant first. */
  function DigitsValue(s: string): nat
    requires AllDigits(s)
  {
    if |s| == 0 then 0 else DigitsValue(s[..|s| - 1]) * 10 + DigitValue(s[|s| - 1])
  }

  /** Decimal text of a natural number, without leading zeros. */
  function NatToString(n: nat): (s: string)
    ensures |s| > 0 && AllDigits(s)
    ensures |s| > 1 ==> s[0] != '0'
  {
    if n < 10 then [DigitChar(n)] else NatToString(n / 10) + [DigitChar(n % 10)]
  }

  lemma {:induction false} NatToStringValue(n: nat)
    ensures DigitsValue(NatToString(n)) == n
  {
    if n >= 10 {
      var s := NatToString(n);
      assert s[..|s| - 1] == NatToString(n / 10);
      NatToStringValue(n / 10);
    }
  }

  /** `%d` / absl::StrCat of an integer. */
  function IntToString(i: int): (s: string)
    ensures |s| > 0
  {
    if i < 0 then "-" + NatToString(-i) else NatToString(i)
  }

  /** Decimal text has no comma in it. */
  lemma IntToStringNoComma(i: int)
    ensures ',' !in IntToString(i)
  {
    var digits := NatToString(if i < 0 then -i else i);
    assert forall k :: 0 <= k < |digits| ==> digits[k] != ',';
  }

  function Zeros(n: int): (s: string)
    ensures |s| == if n < 0 then 0 else n
    ensures forall i :: 0 <= i < |s| ==> s[i] == '0'
  {
    if n <= 0 then "" else "0" + Zeros(n - 1)
  }

  /** `%03d`: at least three characters, zero padding placed after a minus sign. */
  function ZeroPad3(i: int): string
  {
    if i < 0 then
      var d := NatToString(-i);
      "-" + Zeros(2 - |d|) + d
    else
      var d := NatToString(i);
      Zeros(3 - |d|) + d
  }

  lemma ZeroPad3Digits(n: nat)
    ensures |ZeroPad3(n)| >= 3
    ensures AllDigits(ZeroPad3(n))
    ensures DigitsValue(ZeroPad3(n)) == n
  {
    var d := NatToString(n);
    NatToStringValue(n);
    LeadingZerosValue(Zeros(3 - |d|), d);
  }

  lemma {:induction false} LeadingZerosValue(z: string, d: string)
    requires forall i :: 0 <= i < |z| ==> z[i] == '0'
    requires AllDigits(d)
    ensures AllDigits(z + d)
    ensures DigitsValue(z + d) == DigitsValue(d)
    decreases |d|
  {
    var s := z + d;
    if |d| == 0 {
      assert s == z;
      AllZerosValue(z);
    } else {
      assert s[..|s| - 1] == z + d[..|d| - 1];
      LeadingZerosValue(z, d[..|d| - 1]);
    }
  }

  lemma {:induction false} AllZerosValue(z: string)
    requires forall i :: 0 <= i < |z| ==> z[i] == '0'
    ensures AllDigits(z) && DigitsValue(z) == 0
  {
    if |z| > 0 {
      AllZerosValue(z[..|z| - 1]);
    }
  }

  // ---------------------------------------------------------------- splitting

  /** The index of the first `c` in `s`, or |s| when there is none. */
  function FirstIndex(s: string, c: char): (k: nat)
    ensures k <= |s|
    ensures k < |s| ==> s[k] == c
    ensures forall i :: 0 <= i < k ==> s[i] != c
  {
    if |s| == 0 then 0 else if s[0] == c then 0 else 1 + FirstIndex(s[1..], c)
  }

  /**
   * Split on every `c`, keeping empty parts: Go strings.Split(s, "c") and
   * absl::StrSplit(s, 'c') agree on this, including [""] for the empty string.
   */
  function Split(s: string, c: char): (parts: seq<string>)
    ensures |parts| >= 1
    ensures forall i :: 0 <= i < |parts| ==> c !in parts[i]
    decreases |s|
  {
    var k := FirstIndex(s, c);
    if k == |s| then [s] else [s[..k]] + Split(s[k + 1..], c)
  }

  /** absl::StrSplit(s, absl::MaxSplits(c, n)): at most n splits, the rest kept whole. */
  function SplitMax(s: string, c: char, n: nat): (parts: seq<string>)
    ensures 1 <= |parts| <= n + 1
    ensures forall i :: 0 <= i < |parts| - 1 ==> c !in parts[i]
    decreases n
  {
    var k := FirstIndex(s, c);
    if k == |s| || n == 0 then [s] else [s[..k]] + SplitMax(s[k + 1..], c, n - 1)
  }

  /** absl::StrJoin / Go strings.Join. */
  function Join(parts: seq<string>, sep: string): string
  {
    if |parts| == 0 then "" else if |parts| == 1 then parts[0] else parts[0] + sep + Join(parts[1..], sep)
  }

  lemma {:induction false} JoinSplit(s: string, c: char)
    ensures Join(Split(s, c), [c]) == s
    decreases |s|
  {
    var k := FirstIndex(s, c);
    var parts := Split(s, c);
    if k == |s| {
      assert parts == [s];
    } else {
      var rest := Split(s[k + 1..], c);
      assert parts == [s[..k]] + rest;
      JoinSplit(s[k + 1..], c);
      assert parts[1..] == rest;
      assert Join(parts, [c]) == s[..k] + [c] + Join(rest, [c]);
      assert s == s[..k] + [c] + s[k + 1..];
    }
  }

  lemma {:induction false} SplitJoin(parts: seq<string>, c: char)
    requires |parts| >= 1
    requires forall i :: 0 <= i < |parts| ==> c !in parts[i]
    ensures Split(Join(parts, [c]), c) == parts
  {
    var s := Join(parts, [c]);
    if |parts| == 1 {
      FirstIndexAbsent(s, c);
    } else {
      var tail := Join(parts[1..], [c]);
      assert s == parts[0] + [c] + tail;
      FirstIndexAfter(parts[0], c, tail);
      assert s[..|parts[0]|] == parts[0];
      assert s[|parts[0]| + 1..] == tail;
      SplitJoin(parts[1..], c);
      assert parts == [parts[0]] + parts[1..];
    }
  }

  lemma FirstIndexAbsent(s: string, c: char)
    requires c !in s
    ensures FirstIndex(s, c) == |s|
  {
  }

  lemma FirstIndexAfter(p: string, c: char, t: string)
    requires c !in p
    ensures FirstIndex(p + [c] + t, c) == |p|
  {
    var s := p + [c] + t;
    assert s[|p|] == c;
    assert forall i :: 0 <= i < |p| ==> s[i] == p[i];
  }

  lemma SplitMaxOneAbsent(s: string, c: char)
    requires c !in s
    ensures SplitMax(s, c, 1) == [s]
  {
    FirstIndexAbsent(s, c);
  }

  lemma SplitMaxOneJoin(a: string, b: string, c: char)
    requires c !in a
    ensures SplitMax(a + [c] + b, c, 1) == [a, b]
  {
    FirstIndexAfter(a, c, b);
    var s := a + [c] + b;
    assert s[..|a|] == a;
    assert s[|a| + 1..] == b;
  }

  // ---------------------------------------------------------------- parsing

  /** Go strconv.ParseUint(s, 10, 32): digits only, no sign, no blanks, at most 2^32-1. */
  function ParseUint32(s: string): (r: Option<nat>)
    ensures r.Some? ==> r.value < 0x1_0000_0000 && AllDigits(s) && |s| > 0
  {
    if |s| > 0 && AllDigits(s) && DigitsValue(s) < 0x1_0000_0000 then Some(DigitsValue(s)) else None
  }

  lemma ParseUint32Format(n: nat)
    requires n < 0x1_0000_0000
    ensures ParseUint32(NatToString(n)) == Some(n)
  {
    NatToStringValue(n);
  }

  /** The blanks absl trims around a number: space, \t, \n, \v, \f, \r. */
  predicate IsAsciiSpace(c: char)
  {
    c == ' ' || c == '\t' || c == '\n' || c == '\r' || c as int == 11 || c as int == 12
  }

  function TrimLeft(s: string): (t: string)
    ensures |t| <= |s| && t == s[|s| - |t|..]
    ensures |t| > 0 ==> !IsAsciiSpace(t[0])
  {
    if |s| > 0 && IsAsciiSpace(s[0]) then TrimLeft(s[1..]) else s
  }

  function TrimRight(s: string): (t: string)
    ensures |t| <= |s| && t == s[..|t|]
    ensures |t| > 0 ==> !IsAsciiSpace(t[|t| - 1])
  {
    if |s| > 0 && IsAsciiSpace(s[|s| - 1]) then TrimRight(s[..|s| - 1]) else s
  }

  /** The value of an optionally signed decimal numeral, if it is one. */
  function SignedValue(t: string): Option<int>
  {
    if |t| > 0 && (t[0] == '-' || t[0] == '+') then
      var digits := t[1..];
      if |digits| > 0 && AllDigits(digits) then
        var v: int := DigitsValue(digits);
        Some(if t[0] == '-' then -v else v)
      else None
    else if |t| > 0 && AllDigits(t) then Some(DigitsValue(t))
    else None
  }

  /**
   * absl::SimpleAtoi into an integer type whose range is lo..hi: surrounding ASCII
   * blanks are allowed, one leading sign is allowed (a minus sign never for an
   * unsigned type, lo == 0), base 10, and the value must fit.
   */
  function SimpleAtoi(s: string, lo: int, hi: int): (r: Option<int>)
    ensures r.Some? ==> lo <= r.value <= hi
  {
    var t := TrimRight(TrimLeft(s));
    if lo == 0 && |t| > 0 && t[0] == '-' then None
    else match SignedValue(t)
      case Some(v) => if lo <= v <= hi then Some(v) else None
      case None => None
  }

  const Int32Min: int := -0x8000_0000
  const Int32Max: int := 0x7fff_ffff
  const UInt32Max: int := 0xffff_ffff

  /** absl::SimpleAtoi into an `int`. */
  function AtoiInt(s: string): Option<int> { SimpleAtoi(s, Int32Min, Int32Max) }

  /** absl::SimpleAtoi into an `unsigned int`. */
  function AtoiUInt(s: string): Option<int> { SimpleAtoi(s, 0, UInt32Max) }

  lemma NoSpaceInNat(n: nat)
    ensures forall i :: 0 <= i < |NatToString(n)| ==> !IsAsciiSpace(NatToString(n)[i]) && NatToString(n)[i] != '-'
  {
  }

  /** Printing an `int` with %d and reading it back with SimpleAtoi gives the same value. */
  lemma AtoiIntToString(i: int)
    requires Int32Min <= i <= Int32Max
    ensures AtoiInt(IntToString(i)) == Some(i)
    ensures ',' !in IntToString(i) && ' ' !in IntToString(i)
  {
    var s := IntToString(i);
    var n := if i < 0 then -i else i;
    NatToStringValue(n);
    NoSpaceInNat(n);
    assert TrimLeft(s) == s;
    assert TrimRight(s) == s;
    if i < 0 {
      assert s[1..] == NatToString(n);
    }
  }

  /** A plain numeral within range is read as its value. */
  lemma AtoiDigits(s: string, lo: int, hi: int)
    requires |s| > 0 && AllDigits(s) && lo <= 0 && DigitsValue(s) <= hi
    ensures SimpleAtoi(s, lo, hi) == Some(DigitsValue(s))
  {
    assert IsDigit(s[0]) && IsDigit(s[|s| - 1]);
    TrimLeftNone(s);
    TrimRightNone(s);
    assert s[0] != '-' && s[0] != '+';
    assert SignedValue(s) == Some(DigitsValue(s));
  }

  lemma TrimLeftNone(s: string)
    requires |s| > 0 ==> !IsAsciiSpace(s[0])
    ensures TrimLeft(s) == s
  {
  }

  lemma TrimRightNone(s: string)
    requires |s| > 0 ==> !IsAsciiSpace(s[|s| - 1])
    ensures TrimRight(s) == s
  {
  }

  /** Printing a non-negative number with %03d and reading it back as unsigned gives the same value. */
  lemma AtoiUIntZeroPad3(n: nat)
    requires n <= UInt32Max
    ensures AtoiUInt(ZeroPad3(n)) == Some(n)
    ensures ' ' !in ZeroPad3(n)
  {
    var s := ZeroPad3(n);
    ZeroPad3Digits(n);
    AtoiDigits(s, 0, UInt32Max);
  }
}
