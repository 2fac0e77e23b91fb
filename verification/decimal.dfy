/** Base-10 text: the kernel's `simple_strtol(cp, &end, 10)` as the write path
    uses it, and the decimal rendering a caller writes into the endpoint.

    `simple_strtol` belongs to the kernel library, whose body is not part of this
    model. Its behaviour is stated here as an assumed specification: an optional
    leading '-', then the longest run of decimal digits, whose value is the result
    (0 when there are none, negated after a '-'); the end pointer is left where the
    digit run stopped, which is just past the '-' when no digit follows it. No
    white space or '+' is skipped. */
module Decimal {

  predicate IsDigit(c: char) {
    '0' <= c <= '9'
  }

  predicate AllDigits(s: seq<char>) {
    forall i | 0 <= i < |s| :: IsDigit(s[i])
  }

  function DigitValue(c: char): (d: nat)
    requires IsDigit(c)
    ensures d < 10
  {
    c as int - '0' as int
  }

  function DigitChar(d: nat): (c: char)
    requires d < 10
    ensures IsDigit(c) && DigitValue(c) == d
  {
    ('0' as int + d) as char
  }

  /** The number a run of digits denotes, most significant digit first. */
  function DecValue(s: seq<char>): nat
    requires AllDigits(s)
  {
    if |s| == 0 then 0 else 10 * DecValue(s[..|s| - 1]) + DigitValue(s[|s| - 1])
  }

  /** Where the run of digits of `buf` that begins at `i` ends: the first index at
      or after `i` that holds a non-digit, or the end of `buf`. */
  function DigitRunEnd(buf: seq<char>, i: nat): (e: nat)
    requires i <= |buf|
    ensures i <= e <= |buf|
    ensures forall k | i <= k < e :: IsDigit(buf[k])
    ensures e == |buf| || !IsDigit(buf[e])
    decreases |buf| - i
  {
    if i < |buf| && IsDigit(buf[i]) then DigitRunEnd(buf, i + 1) else i
  }

  /** The first (and only) index that qualifies as the end of the digit run from `i`. */
  lemma DigitRunEndUnique(buf: seq<char>, i: nat, j: nat)
    requires i <= j <= |buf|
    requires AllDigits(buf[i..j])
    requires j == |buf| || !IsDigit(buf[j])
    ensures DigitRunEnd(buf, i) == j
  {
  }

  /** The value returned by `simple_strtol` and the index its end pointer is left at. */
  datatype Scan = Scan(value: int, stop: nat)

  /** Where the digits of a number written at `start` begin: after a leading '-'. */
  function DigitsStart(buf: seq<char>, start: nat): nat
    requires start <= |buf|
  {
    if start < |buf| && buf[start] == '-' then start + 1 else start
  }

  /** `simple_strtol(buf + start, &end, 10)`, reading only the bytes of `buf`: a
      digit run that reaches the end of `buf` stops there. */
  function Strtol(buf: seq<char>, start: nat): (r: Scan)
    requires start <= |buf|
    ensures DigitsStart(buf, start) <= r.stop <= |buf|
    ensures forall k | DigitsStart(buf, start) <= k < r.stop :: IsDigit(buf[k])
    ensures r.stop == |buf| || !IsDigit(buf[r.stop])
    ensures r.stop == DigitsStart(buf, start) ==> r.value == 0
    ensures r.value < 0 ==> start < |buf| && buf[start] == '-'
  {
    var d := DigitsStart(buf, start);
    var e := DigitRunEnd(buf, d);
    var magnitude: int := DecValue(buf[d..e]);
    if d == start then Scan(magnitude, e) else Scan(-magnitude, e)
  }

  /** The decimal digits of `n`, without leading zeros. */
  function Digits(n: nat): (s: seq<char>)
    ensures 0 < |s| && AllDigits(s)
  {
    if n < 10 then [DigitChar(n)] else Digits(n / 10) + [DigitChar(n % 10)]
  }

  /** `n` written in decimal, as `printf("%d")` writes it. */
  function Format(n: int): (s: seq<char>)
    ensures 0 < |s|
    ensures IsDigit(s[0]) || s[0] == '-'
  {
    if n < 0 then ['-'] + Digits(-n) else Digits(n)
  }

  lemma {:induction false} DecValueDigits(n: nat)
    ensures DecValue(Digits(n)) == n
  {
    if n >= 10 {
      var s := Digits(n);
      assert s[..|s| - 1] == Digits(n / 10);
      DecValueDigits(n / 10);
    }
  }

  /** The digits of `n`, found at `d` in `buf` and not followed by another digit,
      form the whole digit run from `d`, and it denotes `n`. */
  lemma DigitRunOf(buf: seq<char>, d: nat, n: nat)
    requires d + |Digits(n)| <= |buf|
    requires buf[d..d + |Digits(n)|] == Digits(n)
    requires d + |Digits(n)| == |buf| || !IsDigit(buf[d + |Digits(n)|])
    ensures DigitRunEnd(buf, d) == d + |Digits(n)|
    ensures DecValue(buf[d..d + |Digits(n)|]) == n
  {
    DigitRunEndUnique(buf, d, d + |Digits(n)|);
    DecValueDigits(n);
  }

  /** `simple_strtol` reads back a number written in decimal at index `at` of
      `buf`, when a non-digit (or the end) follows it. */
  lemma StrtolAt(buf: seq<char>, at: nat, n: int)
    requires at + |Format(n)| <= |buf|
    requires buf[at..at + |Format(n)|] == Format(n)
    requires at + |Format(n)| == |buf| || !IsDigit(buf[at + |Format(n)|])
    ensures Strtol(buf, at) == Scan(n, at + |Format(n)|)
  {
    var j := at + |Format(n)|;
    assert buf[at] == Format(n)[0];
    if n < 0 {
      assert buf[at + 1..j] == buf[at..j][1..];
      DigitRunOf(buf, at + 1, -n);
    } else {
      DigitRunOf(buf, at, n);
    }
  }

  /** Whether every character of `s` is the digit '0'. */
  predicate AllZeros(s: seq<char>) {
    forall i | 0 <= i < |s| :: s[i] == '0'
  }

  lemma {:induction false} DecValueZeros(z: seq<char>)
    requires AllZeros(z)
    ensures AllDigits(z) && DecValue(z) == 0
  {
    if z != [] {
      DecValueZeros(z[..|z| - 1]);
    }
  }

  /** Leading zeros do not change the number a run of digits denotes. */
  lemma {:induction false} DecValueLeadingZeros(z: seq<char>, s: seq<char>)
    requires AllZeros(z) && AllDigits(s)
    ensures AllDigits(z + s) && DecValue(z + s) == DecValue(s)
    decreases |s|
  {
    var w := z + s;
    DecValueZeros(z);
    assert AllDigits(w) by {
      forall i | 0 <= i < |w|
        ensures IsDigit(w[i])
      {
        if i >= |z| {
          assert w[i] == s[i - |z|];
        }
      }
    }
    if s == [] {
      assert w == z;
    } else {
      var init := s[..|s| - 1];
      assert w[..|w| - 1] == z + init;
      assert w[|w| - 1] == s[|s| - 1];
      DecValueLeadingZeros(z, init);
    }
  }

  /** `simple_strtol` reads a digit run with leading zeros, after an optional '-',
      as the number its significant digits denote: "007" is 7, "-007" is -7 and
      "-0" is 0. */
  lemma StrtolLeadingZeros(pre: seq<char>, sign: seq<char>, zeros: seq<char>, n: nat, post: seq<char>)
    requires sign == [] || sign == ['-']
    requires AllZeros(zeros)
    requires post == [] || !IsDigit(post[0])
    ensures var run := zeros + Digits(n);
            Strtol(pre + sign + run + post, |pre|)
              == Scan(if sign == [] then n else -(n as int), |pre| + |sign| + |run|)
  {
    var run := zeros + Digits(n);
    var buf := pre + sign + run + post;
    var d := |pre| + |sign|;
    var j := d + |run|;
    DecValueLeadingZeros(zeros, Digits(n));
    DecValueDigits(n);
    assert buf[|pre|] == (sign + run)[0];
    assert DigitsStart(buf, |pre|) == d by {
      if sign == [] {
        assert IsDigit(run[0]);
      }
    }
    assert buf[d..j] == run;
    if j < |buf| {
      assert buf[j] == post[0];
    }
    DigitRunEndUnique(buf, d, j);
  }

  /** Round trip: `simple_strtol` reads back any number written in decimal at
      `|pre|`, and stops right after it when a non-digit (or the end) follows. */
  lemma StrtolFormat(pre: seq<char>, n: int, post: seq<char>)
    requires post == [] || !IsDigit(post[0])
    ensures Strtol(pre + Format(n) + post, |pre|) == Scan(n, |pre| + |Format(n)|)
  {
    var buf := pre + Format(n) + post;
    var j := |pre| + |Format(n)|;
    assert buf[|pre|..j] == Format(n);
    if j < |buf| {
      assert buf[j] == post[0];
    }
    StrtolAt(buf, |pre|, n);
  }
}
