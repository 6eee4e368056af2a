/**
  Text conversions used by the music library file and the time displays:
  decimal rendering of integers (`std::to_string`, `juce::String(int)`),
  the `std::stol` parser, and `std::getline`-style splitting on a delimiter.
 */
module Text {
  import opened Wrappers
  import opened CNumeric

  /** Range of a C++ `long` on an LP64 platform. */
  const LongMin: int := -0x8000_0000_0000_0000
  const LongMax: int := 0x7FFF_FFFF_FFFF_FFFF

  predicate IsDigit(c: char) {
    '0' <= c <= '9'
  }

  predicate AllDigits(s: string) {
    forall i :: 0 <= i < |s| ==> IsDigit(s[i])
  }

  /** Whitespace as C's `isspace` classifies it in the "C" locale. */
  predicate IsSpace(c: char) {
    c == ' ' || c == '\t' || c == '\n' || c == '\r' || c == 12 as char || c == 11 as char
  }

  function DigitChar(d: int): (c: char)
    requires 0 <= d < 10
    ensures IsDigit(c)
  {
    (('0' as int) + d) as char
  }

  function DigitValue(c: char): (d: int)
    requires IsDigit(c)
    ensures 0 <= d < 10
  {
    c as int - '0' as int
  }

  /** Decimal digits of `n`, most significant first, without leading zeros. */
  function NatToString(n: nat): (s: string)
    ensures 1 <= |s| && AllDigits(s)
    ensures |s| > 1 ==> s[0] != '0'
  {
    if n < 10 then [DigitChar(n)] else NatToString(n / 10) + [DigitChar(n % 10)]
  }

  /** Decimal rendering of a signed integer, with a leading '-' when negative. */
  function IntToString(n: int): (s: string)
    ensures 1 <= |s|
    ensures n < 0 <==> s[0] == '-'
    ensures n >= 0 ==> AllDigits(s)
    ensures n < 0 ==> AllDigits(s[1..])
  {
    if n < 0 then "-" + NatToString(-n) else NatToString(n)
  }

  /** The value of a string of decimal digits. */
  function DigitsValue(s: string): nat
    requires AllDigits(s)
  {
    if |s| == 0 then 0 else 10 * DigitsValue(s[..|s| - 1]) + DigitValue(s[|s| - 1])
  }

  lemma DigitsValuePair(a: char, b: char)
    requires IsDigit(a) && IsDigit(b)
    ensures DigitsValue([a, b]) == 10 * DigitValue(a) + DigitValue(b)
  {
    var s := [a, b];
    assert s[..1] == [a];
    assert [a][..0] == [];
    assert DigitsValue([a]) == 10 * DigitsValue([]) + DigitValue(a);
    assert DigitsValue(s) == 10 * DigitsValue(s[..1]) + DigitValue(s[1]);
  }

  lemma {:induction false} DigitsValueOfNatToString(n: nat)
    ensures DigitsValue(NatToString(n)) == n
  {
    if n >= 10 {
      var s := NatToString(n);
      assert s[..|s| - 1] == NatToString(n / 10);
      DigitsValueOfNatToString(n / 10);
    }
  }

  /** Number of leading characters of `s` that are decimal digits. */
  function DigitRun(s: string): (k: nat)
    ensures k <= |s| && AllDigits(s[..k])
    ensures k < |s| ==> !IsDigit(s[k])
  {
    if |s| == 0 || !IsDigit(s[0]) then 0
    else
      var k := 1 + DigitRun(s[1..]);
      assert s[..k] == [s[0]] + s[1..][..k - 1];
      k
  }

  function SkipSpace(s: string): (t: string)
    ensures |t| <= |s| && t == s[|s| - |t|..]
    ensures |t| > 0 ==> !IsSpace(t[0])
  {
    if |s| > 0 && IsSpace(s[0]) then SkipSpace(s[1..]) else s
  }

  datatype ParseError = InvalidArgument | OutOfRange

  /**
    `std::stol(s)` in base 10: skips leading whitespace, takes an optional
    sign and the longest run of digits after it, and ignores whatever
    follows. No digit at all throws `invalid_argument`; a value outside the
    range of `long` throws `out_of_range`.
   */
  function ParseLong(s: string): (r: Result<int, ParseError>)
    ensures r.Ok? ==> LongMin <= r.value <= LongMax
  {
    var t := SkipSpace(s);
    var signed := |t| > 0 && (t[0] == '-' || t[0] == '+');
    var negative := signed && t[0] == '-';
    var u := if signed then t[1..] else t;
    var k := DigitRun(u);
    if k == 0 then Err(InvalidArgument)
    else
      var magnitude := DigitsValue(u[..k]);
      var v: int := if negative then -(magnitude as int) else magnitude;
      if LongMin <= v <= LongMax then Ok(v) else Err(OutOfRange)
  }

  lemma DigitRunOfDigits(s: string)
    requires AllDigits(s)
    ensures DigitRun(s) == |s|
  {
  }

  /** `stol` reads back every `long` that `to_string` wrote. */
  lemma ParseLongOfIntToString(n: int)
    requires LongMin <= n <= LongMax
    ensures ParseLong(IntToString(n)) == Ok(n)
  {
    if n < 0 {
      var u := NatToString(-n);
      assert IntToString(n) == ['-'] + u;
      DigitsValueOfNatToString(-n);
      ParseNegativeDigits(u);
    } else {
      var u := NatToString(n);
      DigitsValueOfNatToString(n);
      ParseDigits(u);
    }
  }

  /** A run of digits that fits a `long` reads as its value. */
  lemma ParseDigits(u: string)
    requires |u| > 0 && AllDigits(u) && DigitsValue(u) <= LongMax
    ensures ParseLong(u) == Ok(DigitsValue(u))
  {
    UnsignedStart(u);
    DigitRunOfDigits(u);
    assert u[..|u|] == u;
  }

  /** A string starting with a digit has no leading space and no sign. */
  lemma UnsignedStart(u: string)
    requires |u| > 0 && IsDigit(u[0])
    ensures SkipSpace(u) == u && u[0] != '-' && u[0] != '+'
  {
  }

  /** A minus sign and a run of digits whose negation fits a `long` reads as that negation. */
  lemma ParseNegativeDigits(u: string)
    requires |u| > 0 && AllDigits(u) && LongMin <= -(DigitsValue(u) as int)
    ensures ParseLong(['-'] + u) == Ok(-(DigitsValue(u) as int))
  {
    var s := ['-'] + u;
    assert SkipSpace(s) == s;
    assert s[1..] == u;
    DigitRunOfDigits(u);
    assert u[..|u|] == u;
  }

  /** Index of the first `d` in `s`, or `|s|` when there is none. */
  function IndexOf(s: string, d: char): (i: nat)
    ensures i <= |s|
    ensures i < |s| ==> s[i] == d
    ensures forall j :: 0 <= j < i ==> s[j] != d
  {
    if |s| == 0 then 0
    else if s[0] == d then 0
    else 1 + IndexOf(s[1..], d)
  }

  /**
    The fields that repeated `std::getline(stream, field, d)` extracts from
    `s`: a field ends at each `d`, which is consumed; an empty remainder after
    the last `d` yields no further field, and the empty string yields none.
   */
  function Split(s: string, d: char): (fields: seq<string>)
    ensures forall k :: 0 <= k < |fields| ==> d !in fields[k]
    decreases |s|
  {
    if |s| == 0 then []
    else
      var i := IndexOf(s, d);
      if i == |s| then [s] else [s[..i]] + Split(s[i + 1..], d)
  }

  /** A field free of the delimiter, followed by the delimiter, splits off first. */
  lemma SplitCons(a: string, d: char, rest: string)
    requires d !in a
    ensures Split(a + [d] + rest, d) == [a] + Split(rest, d)
  {
    var s := a + [d] + rest;
    assert s[|a|] == d;
    var i := IndexOf(s, d);
    assert i == |a|;
    assert s[..i] == a;
    assert s[i + 1..] == rest;
  }

  /** A non-empty field free of the delimiter is one field on its own. */
  lemma SplitSingle(a: string, d: char)
    requires |a| > 0 && d !in a
    ensures Split(a, d) == [a]
  {
    var i := IndexOf(a, d);
    assert i == |a|;
  }

  /** Two delimiter-free fields joined by the delimiter split back into both, the last non-empty. */
  lemma SplitTwo(a: string, b: string, d: char)
    requires d !in a && d !in b && |b| > 0
    ensures Split(a + [d] + b, d) == [a, b]
  {
    SplitCons(a, d, b);
    SplitSingle(b, d);
  }

  lemma SplitThree(b: string, c: string, e: string, d: char)
    requires d !in b && d !in c && d !in e && |e| > 0
    ensures Split(b + [d] + (c + [d] + e), d) == [b, c, e]
  {
    SplitTwo(c, e, d);
    SplitCons(b, d, c + [d] + e);
  }

  /** Four delimiter-free fields joined by the delimiter split back into all four, the last non-empty. */
  lemma SplitFour(a: string, b: string, c: string, e: string, d: char)
    requires d !in a && d !in b && d !in c && d !in e && |e| > 0
    ensures Split(a + [d] + b + [d] + c + [d] + e, d) == [a, b, c, e]
  {
    var bce := b + [d] + (c + [d] + e);
    JoinFour(a, b, c, e, [d]);
    SplitThree(b, c, e, d);
    SplitCons(a, d, bce);
  }

  /** Regrouping a join of four parts to the right. */
  lemma JoinFour<T>(a: seq<T>, b: seq<T>, c: seq<T>, e: seq<T>, d: seq<T>)
    ensures a + d + b + d + c + d + e == a + d + (b + d + (c + d + e))
  {
  }

  /** Every line followed by a newline: what a writer emits line by line. */
  function Terminated(lines: seq<string>, d: char): string {
    if |lines| == 0 then [] else lines[0] + [d] + Terminated(lines[1..], d)
  }

  /** Reading terminated lines back with `getline` returns exactly those lines. */
  lemma {:induction false} SplitTerminated(lines: seq<string>, d: char)
    requires forall k :: 0 <= k < |lines| ==> d !in lines[k]
    ensures Split(Terminated(lines, d), d) == lines
  {
    if |lines| > 0 {
      SplitCons(lines[0], d, Terminated(lines[1..], d));
      SplitTerminated(lines[1..], d);
    }
  }

  /**
    Whole minutes and remaining whole seconds of a time in seconds, as both
    time displays compute them: the truncated time's C++ remainder by 60,
    and the truncated time less those seconds divided by 60.
   */
  function MinutesAndSeconds(value: real): (r: (int, int))
    ensures value >= 0.0 ==> 0 <= r.1 < 60 && 0 <= r.0 && r.0 * 60 + r.1 == Trunc(value)
  {
    var seconds := CRem(Trunc(value), 60);
    (CDiv(Trunc(value) - seconds, 60), seconds)
  }

  /** A number below 60 in exactly two digits, with a leading zero below 10. */
  function TwoDigits(n: int): (s: string)
    requires 0 <= n < 60
    ensures |s| == 2 && AllDigits(s) && DigitsValue(s) == n
  {
    var s := if n < 10 then ['0', DigitChar(n)] else [DigitChar(n / 10), DigitChar(n % 10)];
    DigitsValuePair(s[0], s[1]);
    assert s == [s[0], s[1]];
    s
  }

  /** Every character of a rendered integer is a digit or the minus sign. */
  lemma IntToStringChars(n: int)
    ensures forall i :: 0 <= i < |IntToString(n)| ==> IsDigit(IntToString(n)[i]) || IntToString(n)[i] == '-'
  {
    var s := IntToString(n);
    if n < 0 {
      forall i | 0 <= i < |s| ensures IsDigit(s[i]) || s[i] == '-' {
        if i > 0 { assert s[i] == s[1..][i - 1]; }
      }
    }
  }

  /** Two digits are the decimal rendering with a '0' put in front below 10. */
  lemma TwoDigitsIsPadded(n: int)
    requires 0 <= n < 60
    ensures TwoDigits(n) == (if n < 10 then "0" else "") + IntToString(n)
  {
    if n >= 10 {
      assert NatToString(n) == NatToString(n / 10) + [DigitChar(n % 10)];
    }
  }
}
