/** The queued request (`struct pending_signal`) and the write path's parse of
    the bytes a caller wrote into the procfs entry. */
module Requests {
  import opened CInt
  import opened Decimal

  /** The signal field of a request. The parser starts reading it a fixed two
      bytes after the pid stopped, without checking that this position is still
      inside the copied buffer. When it is not, the C code reads whatever lies
      beyond the buffer; the model records that the field was read from outside
      the buffer and gives it no value. */
  datatype SigField = Num(n: int) | BeyondBuffer

  /** One pending request: the pid and signal parsed from one write. */
  datatype Request = Request(pid: int, signal: SigField)

  /** The number of bytes skipped between the end of the pid and the signal. */
  const SeparatorWidth: nat := 2

  /** Where the write path starts reading the signal: two bytes past the index
      where the pid's digits stopped, whatever those two bytes are. */
  function SignalStart(buf: seq<char>): nat {
    Strtol(buf, 0).stop + SeparatorWidth
  }

  /** The request a write of `buf` produces. There is no failure outcome: any
      buffer yields a request, with a pid of 0 when it holds no digits. */
  function Parse(buf: seq<char>): (r: Request)
    ensures InIntRange(r.pid)
    ensures r.signal.Num? <==> SignalStart(buf) < |buf|
    ensures r.signal.Num? ==> InIntRange(r.signal.n)
  {
    var pid := Strtol(buf, 0);
    var k := SignalStart(buf);
    var signal := if k < |buf| then Num(ToInt(Strtol(buf, k).value)) else BeyondBuffer;
    Request(ToInt(pid.value), signal)
  }

  /** Round trip: a caller that writes the pid, two separator bytes of which the
      first is not a digit, and the signal gets back exactly that pid and signal.
      The second separator byte may be anything, a digit included. */
  lemma ParseFormat(pid: int, a: char, b: char, signal: int)
    requires InIntRange(pid) && InIntRange(signal)
    requires !IsDigit(a)
    ensures Parse(Format(pid) + [a, b] + Format(signal)) == Request(pid, Num(signal))
  {
    var buf := Format(pid) + [a, b] + Format(signal);
    FormattedFields(pid, a, b, signal);
    assert Parse(buf) == Request(ToInt(pid), Num(ToInt(signal)));
  }

  /** Round trip for a write whose signal is followed by a terminating non-digit,
      such as the newline `echo` appends: the signal's digits end inside the
      buffer, so the scan stops there on its own. */
  lemma ParseFormatTerminated(pid: int, a: char, b: char, signal: int, t: char)
    requires InIntRange(pid) && InIntRange(signal)
    requires !IsDigit(a) && !IsDigit(t)
    ensures Parse(Format(pid) + [a, b] + Format(signal) + [t]) == Request(pid, Num(signal))
    ensures var buf := Format(pid) + [a, b] + Format(signal) + [t];
            && Strtol(buf, 0).stop < |buf|
            && Strtol(buf, SignalStart(buf)).stop < |buf|
  {
    var head := Format(pid) + [a, b];
    var buf := head + Format(signal) + [t];
    assert buf == [] + Format(pid) + ([a, b] + Format(signal) + [t]);
    StrtolFormat([], pid, [a, b] + Format(signal) + [t]);
    StrtolFormat(head, signal, [t]);
    assert Parse(buf) == Request(ToInt(pid), Num(ToInt(signal)));
  }

  /** Where the pid and the signal of a formatted request are found. */
  lemma FormattedFields(pid: int, a: char, b: char, signal: int)
    requires !IsDigit(a)
    ensures var buf := Format(pid) + [a, b] + Format(signal);
            && Strtol(buf, 0) == Scan(pid, |Format(pid)|)
            && SignalStart(buf) < |buf|
            && Strtol(buf, SignalStart(buf)) == Scan(signal, |buf|)
  {
    var buf := Format(pid) + [a, b] + Format(signal);
    var k := |Format(pid)| + SeparatorWidth;
    ConcatParts(Format(pid), [a, b], Format(signal));
    StrtolAt(buf, 0, pid);
    StrtolAt(buf, k, signal);
  }

  /** The three parts of a concatenation, found back by index. */
  lemma ConcatParts(x: seq<char>, y: seq<char>, z: seq<char>)
    ensures (x + y + z)[0..|x|] == x
    ensures (x + y + z)[|x| + |y|..|x| + |y| + |z|] == z
    ensures 0 < |y| ==> (x + y + z)[|x|] == y[0]
  {
  }

  /** A buffer that does not start with a number parses to pid 0, and its signal
      is read from index 2 on. */
  lemma ParseNoDigits(buf: seq<char>)
    requires buf == [] || (!IsDigit(buf[0]) && buf[0] != '-')
    ensures Parse(buf).pid == 0
    ensures SignalStart(buf) == 2
    ensures Parse(buf).signal == if 2 < |buf| then Num(ToInt(Strtol(buf, 2).value)) else BeyondBuffer
  {
  }

  /** `simple_strtol` only looks at the bytes of its number and the byte it stops at. */
  lemma StrtolLocal(buf: seq<char>, buf': seq<char>, start: nat)
    requires start <= |buf| && start <= |buf'|
    requires DigitsStart(buf', start) == DigitsStart(buf, start)
    requires Strtol(buf, start).stop <= |buf'|
    requires buf'[DigitsStart(buf, start)..Strtol(buf, start).stop]
          == buf[DigitsStart(buf, start)..Strtol(buf, start).stop]
    requires Strtol(buf, start).stop == |buf'| || !IsDigit(buf'[Strtol(buf, start).stop])
    ensures Strtol(buf', start) == Strtol(buf, start)
  {
    DigitRunEndUnique(buf', DigitsStart(buf, start), Strtol(buf, start).stop);
  }

  /** `simple_strtol` from `k` gives the same result on two buffers of the same
      length that agree from `k` on. */
  lemma StrtolSameSuffix(buf: seq<char>, buf': seq<char>, k: nat)
    requires k < |buf| == |buf'|
    requires buf'[k..] == buf[k..]
    ensures Strtol(buf', k) == Strtol(buf, k)
  {
    assert buf'[k] == buf[k..][0] == buf[k];
    var sig := Strtol(buf, k);
    var dk := DigitsStart(buf, k);
    assert k <= dk <= sig.stop <= |buf|;
    assert buf'[dk..sig.stop] == buf[dk..sig.stop] by {
      forall i | dk <= i < sig.stop
        ensures buf'[i] == buf[i]
      {
        assert buf'[k..][i - k] == buf[k..][i - k];
      }
    }
    if sig.stop < |buf| {
      assert buf'[k..][sig.stop - k] == buf[k..][sig.stop - k];
    }
    StrtolLocal(buf, buf', k);
  }

  /** The pid scan gives the same result after the two bytes at its stop index
      are replaced, the first by a byte that can neither start nor continue a number. */
  lemma PidIgnoresSeparator(buf: seq<char>, a: char, b: char)
    requires SignalStart(buf) <= |buf|
    requires !IsDigit(a) && a != '-'
    ensures var stop := Strtol(buf, 0).stop;
            Strtol(buf[..stop] + [a, b] + buf[stop + 2..], 0) == Strtol(buf, 0)
  {
    var stop := Strtol(buf, 0).stop;
    var buf' := buf[..stop] + [a, b] + buf[stop + 2..];
    assert DigitsStart(buf', 0) == DigitsStart(buf, 0) by {
      if stop > 0 {
        assert buf'[0] == buf[0];
      }
    }
    var d := DigitsStart(buf, 0);
    assert buf'[d..stop] == buf[d..stop];
    assert buf'[stop] == a;
    StrtolLocal(buf, buf', 0);
  }

  /** The two bytes after the pid are skipped unread: replacing them (the first by
      another byte that cannot continue the pid) leaves the parsed request as it was. */
  lemma SeparatorBytesIgnored(buf: seq<char>, a: char, b: char)
    requires SignalStart(buf) <= |buf|
    requires !IsDigit(a) && a != '-'
    ensures var stop := Strtol(buf, 0).stop;
            Parse(buf[..stop] + [a, b] + buf[stop + 2..]) == Parse(buf)
  {
    var stop := Strtol(buf, 0).stop;
    var buf' := buf[..stop] + [a, b] + buf[stop + 2..];
    PidIgnoresSeparator(buf, a, b);
    var k := stop + 2;
    assert SignalStart(buf') == k;
    if k < |buf| {
      assert buf'[k..] == buf[k..];
      StrtolSameSuffix(buf, buf', k);
    }
  }

  /** Decimal renderings used by the examples below. */
  lemma FormatExamples()
    ensures Format(9) == "9"
    ensures Format(123) == "123"
    ensures Format(4242) == "4242"
    ensures Digits(0) == "0" && Digits(7) == "7" && Digits(9) == "9"
  {
  }

  /** What the write path makes of inputs a stricter protocol would reject: none
      of them is refused. The empty buffer, "123" and "123,," have no byte of a
      signal field inside the buffer. The pids of the empty buffer and of "123"
      come from the scan stopping at the end of the buffer, where the C code
      reads on past it. */
  lemma MalformedInputsEnqueued()
    ensures Parse("") == Request(0, BeyondBuffer)
    ensures Parse("abc") == Request(0, Num(0))
    ensures Parse("123") == Request(123, BeyondBuffer)
    ensures Parse("123,,") == Request(123, BeyondBuffer)
  {
    ParseNoDigits("");
    ParseNoDigits("abc");
    FormatExamples();
    assert "123" == [] + Format(123) + [];
    StrtolFormat([], 123, []);
    assert "123,," == [] + Format(123) + ",,";
    StrtolFormat([], 123, ",,");
  }

  /** Leading zeros are read as a plain number: "007,,-09" and a newline queue
      pid 7 with signal -9. */
  lemma ParseLeadingZeros()
    ensures Parse("007,,-09\n") == Request(7, Num(-9))
  {
    FormatExamples();
    assert "007,,-09\n" == [] + [] + ("00" + Digits(7)) + ",,-09\n";
    StrtolLeadingZeros([], [], "00", 7, ",,-09\n");
    assert "007,,-09\n" == "007,," + "-" + ("0" + Digits(9)) + "\n";
    StrtolLeadingZeros("007,,", "-", "0", 9, "\n");
  }

  /** A negative zero is zero: "-0,,0" and a newline queue pid 0 with signal 0. */
  lemma ParseNegativeZero()
    ensures Parse("-0,,0\n") == Request(0, Num(0))
  {
  }

  /** The request a caller writing "4242,,9" and a newline queues. */
  lemma ParseExample()
    ensures Parse("4242,,9\n") == Request(4242, Num(9))
  {
    FormatExamples();
    assert "4242,,9\n" == [] + Format(4242) + ",,9\n";
    StrtolFormat([], 4242, ",,9\n");
    assert "4242,,9\n" == "4242,," + Format(9) + "\n";
    StrtolFormat("4242,,", 9, "\n");
  }
}
