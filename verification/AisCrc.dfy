// The 16-bit frame check sequence of the AIS link layer
// (src/decoders/trx-ais/src/lib.rs): the lookup table, the table-driven loop, its
// equality with the bit-serial shift register, and the errors the check detects.
module AisCrc {
  import opened Words

  // ---- the reference: a bit-serial register -------------------------------------

  // x^16 + x^12 + x^5 + 1, reflected (0x8408).
  function Poly(): (r: u16)
    ensures forall k :: 0 <= k < 16 ==> r[k] == (k == 3 || k == 10 || k == 15)
  {
    seq(16, k => k == 3 || k == 10 || k == 15)
  }

  // One clock without input: the bit that drops out is fed back.
  function Clock(s: u16): u16 {
    Xor(s[1..] + [false], if s[0] then Poly() else Zeros(16))
  }

  // The branch on the low bit that the source writes is one clock.
  lemma ClockBranches(s: u16)
    ensures Clock(s) == if s[0] then Xor(Shr(s, 1), Poly()) else Shr(s, 1)
  {
    assert s[1..] + [false] == Shr(s, 1);
    assert Xor(Shr(s, 1), Zeros(16)) == Shr(s, 1);
  }

  function Step(s: u16, bit: bool): u16 {
    Clock(s[0 := s[0] != bit])
  }

  // The bit-at-a-time CRC: the register after a whole bit string.
  function Run(s: u16, bits: Bits): u16
    decreases |bits|
  {
    if bits == [] then s else Run(Step(s, bits[0]), bits[1..])
  }

  function Shifted(s: u16, n: nat): u16
    decreases n
  {
    if n == 0 then s else Shifted(Clock(s), n - 1)
  }

  lemma {:induction false} RunAppend(s: u16, a: Bits, b: Bits)
    ensures Run(s, a + b) == Run(Run(s, a), b)
    decreases |a|
  {
    if a == [] {
      assert a + b == b;
    } else {
      assert (a + b)[1..] == a[1..] + b;
      RunAppend(Step(s, a[0]), a[1..], b);
    }
  }

  lemma ClockXor(s: u16, t: u16)
    ensures Clock(Xor(s, t)) == Xor(Clock(s), Clock(t))
  {
  }

  lemma {:induction false} ShiftedXor(s: u16, t: u16, n: nat)
    ensures Shifted(Xor(s, t), n) == Xor(Shifted(s, n), Shifted(t, n))
    decreases n
  {
    if n == 0 {
    } else {
      ClockXor(s, t);
      ShiftedXor(Clock(s), Clock(t), n - 1);
    }
  }

  lemma {:induction false} RunXor(s: u16, t: u16, a: Bits, b: Bits)
    requires |a| == |b|
    ensures Run(Xor(s, t), Xor(a, b)) == Xor(Run(s, a), Run(t, b))
    decreases |a|
  {
    if a == [] {
    } else {
      StepXor(s, t, a[0], b[0]);
      assert Xor(a, b)[1..] == Xor(a[1..], b[1..]);
      RunXor(Step(s, a[0]), Step(t, b[0]), a[1..], b[1..]);
    }
  }

  lemma StepXor(s: u16, t: u16, a: bool, b: bool)
    ensures Step(Xor(s, t), a != b) == Xor(Step(s, a), Step(t, b))
  {
    var s', t' := s[0 := s[0] != a], t[0 := t[0] != b];
    assert Xor(s, t)[0 := Xor(s, t)[0] != (a != b)] == Xor(s', t');
    ClockXor(s', t');
  }

  // The register is invertible, so clocks without input never lose an error.
  lemma ClockNonZero(s: u16)
    requires s != Zeros(16)
    ensures Clock(s) != Zeros(16)
  {
    if s[0] {
      assert Clock(s)[15];
    } else {
      var i :| 0 <= i < 16 && s[i];
      assert Clock(s)[i - 1];
    }
  }

  lemma {:induction false} ShiftedNonZero(s: u16, n: nat)
    requires s != Zeros(16)
    ensures Shifted(s, n) != Zeros(16)
    decreases n
  {
    if n == 0 {
    } else {
      ClockNonZero(s);
      ShiftedNonZero(Clock(s), n - 1);
    }
  }

  // ---- feeding up to sixteen bits at once ----------------------------------------

  function Pad(bits: Bits): u16
    requires |bits| <= 16
  {
    bits + Zeros(16 - |bits|)
  }

  // Clocking in at most sixteen bits is the same as XORing them into the register first.
  lemma {:induction false} RunIsShifted(s: u16, bits: Bits)
    requires |bits| <= 16
    ensures Run(s, bits) == Shifted(Xor(s, Pad(bits)), |bits|)
    decreases |bits|
  {
    if bits == [] {
      assert Xor(s, Pad(bits)) == s;
    } else {
      RunIsShifted(Step(s, bits[0]), bits[1..]);
      FeedOne(s, bits);
    }
  }

  lemma FeedOne(s: u16, bits: Bits)
    requires 0 < |bits| <= 16
    ensures Xor(Step(s, bits[0]), Pad(bits[1..])) == Clock(Xor(s, Pad(bits)))
  {
    var fed := s[0 := s[0] != bits[0]];
    var rest: u16 := [false] + Pad(bits)[1..];
    assert Xor(s, Pad(bits)) == Xor(fed, rest);
    ClockXor(fed, rest);
    assert Clock(rest) == Pad(bits[1..]);
  }

  // Eight clocks of a register whose low half is clear only move it down.
  lemma {:induction false} ShiftedHigh(s: u16, n: nat)
    requires n <= 16 && s[..n] == Zeros(n)
    ensures Shifted(s, n) == Shr(s, n)
    decreases n
  {
    if n == 0 {
      assert Shr(s, 0) == s;
    } else {
      assert !s[0] by { assert s[0] == s[..n][0]; }
      ClockBranches(s);
      var t: u16 := Shr(s, 1);
      assert t[..n - 1] == Zeros(n - 1) by { assert forall k :: 0 <= k < n - 1 ==> t[k] == s[..n][k + 1]; }
      ShiftedHigh(t, n - 1);
      assert Shr(t, n - 1) == Shr(s, n);
    }
  }

  lemma {:induction false} RunZeros(s: u16, n: nat)
    ensures Run(s, Zeros(n)) == Shifted(s, n)
    decreases n
  {
    if n == 0 {
    } else {
      assert s[0 := s[0] != false] == s;
      assert Zeros(n)[1..] == Zeros(n - 1);
      RunZeros(Clock(s), n - 1);
    }
  }

  lemma {:induction false} ShiftedZeros(n: nat)
    ensures Shifted(Zeros(16), n) == Zeros(16)
    decreases n
  {
    if n == 0 {
    } else {
      assert Clock(Zeros(16)) == Zeros(16);
      ShiftedZeros(n - 1);
    }
  }

  // ---- the table and the table-driven loop --------------------------------------

  // The constant table, built by the source's two loops.
  method BuildTable() returns (table: seq<u16>)
    ensures IsTable(table)
  {
    table := seq(256, _ => Zeros(16));
    var i := 0;
    while i < 256
      invariant 0 <= i <= 256 && |table| == 256
      invariant forall k :: 0 <= k < i ==> table[k] == Shifted(ToBits(k, 16), 8)
    {
      var crc := TableEntry(ToBits(i, 16));
      table := table[i := crc];
      i := i + 1;
    }
  }

  method TableEntry(index: u16) returns (crc: u16)
    ensures crc == Shifted(index, 8)
  {
    crc := index;
    var j := 0;
    while j < 8
      invariant 0 <= j <= 8
      invariant Shifted(crc, 8 - j) == Shifted(index, 8)
    {
      ClockBranches(crc);
      ghost var next := Clock(crc);
      if crc[0] {
        crc := Xor(Shr(crc, 1), Poly());
      } else {
        crc := Shr(crc, 1);
      }
      assert crc == next;
      j := j + 1;
    }
  }

  ghost predicate IsTable(table: seq<u16>) {
    |table| == 256 && forall i :: 0 <= i < 256 ==> table[i] == Shifted(ToBits(i, 16), 8)
  }

  method Crc16Ccitt(table: seq<u16>, bytes: seq<u8>) returns (crc: u16)
    requires IsTable(table)
    ensures crc == Fcs(bytes)
  {
    crc := Ones(16);
    var i := 0;
    while i < |bytes|
      invariant 0 <= i <= |bytes|
      invariant Run(Ones(16), Serial(bytes)) == Run(crc, Serial(bytes[i..]))
    {
      TableStep(table, crc, bytes[i]);
      RunByte(crc, bytes[i..]);
      assert bytes[i..][1..] == bytes[i + 1..];
      crc := TableNext(table, crc, bytes[i]);
      i := i + 1;
    }
    crc := Xor(crc, Ones(16));
  }

  // `w & 0xFF`
  function Low(w: u16): u16 {
    Pad(w[..8])
  }

  function TableNext(table: seq<u16>, crc: u16, b: u8): u16
    requires |table| == 256
  {
    var index := Value(Low(Xor(crc, Pad(b))));
    TableIndex(Xor(crc, Pad(b)));
    Xor(Shr(crc, 8), table[index])
  }

  lemma TableIndex(w: u16)
    ensures Value(Low(w)) < 256
    ensures ToBits(Value(Low(w)), 16) == Low(w)
  {
    ValuePadded(w[..8], 8);
    ValueBound(w[..8]);
    assert Pow2(8) == 256 by { assert Pow2(4) == 16; }
    ToBitsOfValue(Low(w), 16);
    assert Low(w) + Zeros(0) == Low(w);
  }

  // The table step is eight clocks.
  lemma TableStep(table: seq<u16>, crc: u16, b: u8)
    requires IsTable(table)
    ensures TableNext(table, crc, b) == Run(crc, b)
  {
    TableIndex(Xor(crc, Pad(b)));
    TableStepIsEightClocks(crc, b);
  }

  lemma RunByte(crc: u16, bytes: seq<u8>)
    requires bytes != []
    ensures Run(crc, Serial(bytes)) == Run(Run(crc, bytes[0]), Serial(bytes[1..]))
  {
    RunAppend(crc, bytes[0], Serial(bytes[1..]));
  }

  // The check sequence a sender appends, as the bit-serial register computes it.
  function Fcs(bytes: seq<u8>): u16 {
    Xor(Run(Ones(16), Serial(bytes)), Ones(16))
  }

  // One table step swallows a whole byte.
  lemma TableStepIsEightClocks(crc: u16, b: u8)
    ensures var x := Xor(crc, Pad(b));
            Run(crc, b) == Xor(Shr(crc, 8), Shifted(Low(x), 8))
  {
    RunIsShifted(crc, b);
    ShiftedHalves(Xor(crc, Pad(b)));
    HighHalf(crc, b);
  }

  lemma HighHalf(crc: u16, b: u8)
    ensures Shr(Xor(crc, Pad(b)), 8) == Shr(crc, 8)
  {
  }

  lemma ShiftedHalves(x: u16)
    ensures Shifted(x, 8) == Xor(Shr(x, 8), Shifted(Low(x), 8))
  {
    var high: u16 := Zeros(8) + x[8..];
    var low: u16 := Low(x);
    assert x == Xor(high, low);
    ShiftedXor(high, low, 8);
    assert high[..8] == Zeros(8);
    ShiftedHigh(high, 8);
    assert Shr(high, 8) == Shr(x, 8);
  }

  // ---- what the check detects ------------------------------------------------------

  function FromLeBytes(lo: u8, hi: u8): u16 {
    var l: Bits, h: Bits := lo, hi;
    l + h
  }

  // The receiver's verdict on payload plus check sequence (low byte first).
  predicate CrcOk(bytes: seq<u8>)
    requires |bytes| >= 2
  {
    var n := |bytes| - 2;
    var lo, hi := bytes[n], bytes[n + 1];
    Fcs(bytes[..n]) == FromLeBytes(lo, hi)
  }

  // The register after an intact frame, the same constant for every payload.
  function GoodFcs(): u16 {
    Shifted(Ones(16), 16)
  }

  // A frame passes exactly when running the register over payload and check
  // sequence together leaves the constant (RFC 1662 Appendix C.2).
  lemma CrcOkIsGoodFcs(bytes: seq<u8>)
    requires |bytes| >= 2
    ensures CrcOk(bytes) <==> Run(Ones(16), Serial(bytes)) == GoodFcs()
  {
    var n := |bytes| - 2;
    SplitFrame(bytes);
    ReceiveFcs(Serial(bytes[..n]), FromLeBytes(bytes[n], bytes[n + 1]));
  }

  lemma ReceiveFcs(payload: Bits, received: u16)
    ensures Xor(Run(Ones(16), payload), Ones(16)) == received
            <==> Run(Ones(16), payload + received) == GoodFcs()
  {
    var c := Run(Ones(16), payload);
    RunAppend(Ones(16), payload, received);
    RunWord(c, received);
    XorEquation(c, Ones(16), received);
    if Xor(c, received) != Ones(16) {
      ShiftedDiffer(Xor(c, received), Ones(16), 16);
    }
  }

  lemma RunWord(s: u16, w: u16)
    ensures Run(s, w) == Shifted(Xor(s, w), 16)
  {
    RunIsShifted(s, w);
    assert Pad(w) == w;
  }

  lemma SplitFrame(bytes: seq<u8>)
    requires |bytes| >= 2
    ensures var n := |bytes| - 2;
            Serial(bytes) == Serial(bytes[..n]) + FromLeBytes(bytes[n], bytes[n + 1])
  {
    var n := |bytes| - 2;
    assert bytes == bytes[..n] + bytes[n..];
    SerialAppend(bytes[..n], bytes[n..]);
    assert bytes[n..][1..] == [bytes[n + 1]] && bytes[n..][1..][1..] == [];
  }

  lemma ShiftedDiffer(s: u16, t: u16, n: nat)
    requires s != t
    ensures Shifted(s, n) != Shifted(t, n)
  {
    var i :| 0 <= i < 16 && s[i] != t[i];
    assert Xor(s, t)[i];
    ShiftedNonZero(Xor(s, t), n);
    ShiftedXor(s, t, n);
    XorZeros(Shifted(s, n));
  }

  // Exactly which errors slip through an intact frame: those whose own register
  // run, started from zero, ends at zero (the multiples of the generator).
  lemma UndetectedErrors(good: seq<u8>, bad: seq<u8>)
    requires |good| == |bad| >= 2 && CrcOk(good)
    ensures CrcOk(bad) <==> Run(Zeros(16), Xor(Serial(good), Serial(bad))) == Zeros(16)
  {
    CrcOkIsGoodFcs(good);
    CrcOkIsGoodFcs(bad);
    RunDifference(Serial(good), Serial(bad));
    XorZeros(GoodFcs());
    XorEquation(GoodFcs(), Run(Zeros(16), Xor(Serial(good), Serial(bad))), GoodFcs());
  }

  lemma RunDifference(g: Bits, b: Bits)
    requires |g| == |b|
    ensures Run(Ones(16), b) == Xor(Run(Ones(16), g), Run(Zeros(16), Xor(g, b)))
  {
    RunXor(Ones(16), Zeros(16), g, Xor(g, b));
    XorEquation(g, b, Xor(g, b));
    XorZeros(Ones(16));
  }

  // Errors confined to transmitted bits lo..hi, with at least one of them wrong.
  ghost predicate IsBurst(e: Bits, lo: nat, hi: nat) {
    && lo <= hi <= |e|
    && (forall i :: 0 <= i < |e| && e[i] ==> lo <= i < hi)
    && (exists i :: lo <= i < hi && e[i])
  }

  // Every burst of up to sixteen bits is caught, whatever the length of the frame.
  lemma BurstsDetected(good: seq<u8>, bad: seq<u8>, lo: nat, hi: nat)
    requires |good| == |bad| >= 2 && CrcOk(good)
    requires IsBurst(Xor(Serial(good), Serial(bad)), lo, hi) && hi - lo <= 16
    ensures !CrcOk(bad)
  {
    BurstLeavesTrace(Xor(Serial(good), Serial(bad)), lo, hi);
    UndetectedErrors(good, bad);
  }

  lemma BurstLeavesTrace(e: Bits, lo: nat, hi: nat)
    requires IsBurst(e, lo, hi) && hi - lo <= 16
    ensures Run(Zeros(16), e) != Zeros(16)
  {
    var mid, tail := e[lo..hi], |e| - hi;
    assert e == Zeros(lo) + (mid + Zeros(tail));
    LeadingZeros(lo, mid + Zeros(tail));
    RunAppend(Zeros(16), mid, Zeros(tail));
    var i :| lo <= i < hi && e[i];
    ShortBurst(mid, i - lo);
    RunZeros(Run(Zeros(16), mid), tail);
    ShiftedNonZero(Run(Zeros(16), mid), tail);
  }

  lemma LeadingZeros(n: nat, rest: Bits)
    ensures Run(Zeros(16), Zeros(n) + rest) == Run(Zeros(16), rest)
  {
    RunAppend(Zeros(16), Zeros(n), rest);
    RunZeros(Zeros(16), n);
    ShiftedZeros(n);
  }

  lemma ShortBurst(mid: Bits, i: nat)
    requires |mid| <= 16 && i < |mid| && mid[i]
    ensures Run(Zeros(16), mid) != Zeros(16)
  {
    RunIsShifted(Zeros(16), mid);
    XorZeros(Pad(mid));
    assert Pad(mid)[i];
    ShiftedNonZero(Pad(mid), |mid|);
  }

  // Whether an odd number of bits is set.
  function Odd(bits: Bits): bool {
    if bits == [] then false else bits[0] != Odd(bits[1..])
  }

  lemma {:induction false} OddXor(a: Bits, b: Bits)
    requires |a| == |b|
    ensures Odd(Xor(a, b)) == (Odd(a) != Odd(b))
  {
    if a == [] {
    } else {
      assert Xor(a, b)[1..] == Xor(a[1..], b[1..]);
      OddXor(a[1..], b[1..]);
    }
  }

  lemma {:induction false} OddAppend(a: Bits, b: Bits)
    ensures Odd(a + b) == (Odd(a) != Odd(b))
  {
    if a == [] {
      assert a + b == b;
    } else {
      assert (a + b)[1..] == a[1..] + b;
      OddAppend(a[1..], b);
    }
  }

  lemma {:induction false} OddZeros(n: nat)
    ensures !Odd(Zeros(n))
  {
    if n == 0 {
    } else {
      assert Zeros(n)[1..] == Zeros(n - 1);
      OddZeros(n - 1);
    }
  }

  // The generator has four terms, so a clock keeps the parity of what is fed in.
  lemma StepParity(s: u16, bit: bool)
    ensures Odd(Step(s, bit)) == (Odd(s) != bit)
  {
    var fed: u16 := s[0 := s[0] != bit];
    assert s == [s[0]] + s[1..] && fed == [fed[0]] + s[1..];
    OddAppend(s[1..], [false]);
    OddPoly();
    OddZeros(16);
    OddXor(fed[1..] + [false], if fed[0] then Poly() else Zeros(16));
  }

  lemma OddPoly()
    ensures Odd(Poly())
  {
    assert Poly() == Zeros(3) + ([true] + (Zeros(6) + ([true] + (Zeros(4) + [true]))));
    OddZeros(3); OddZeros(6); OddZeros(4);
    OddAppend(Zeros(4), [true]);
    OddAppend([true], Zeros(4) + [true]);
    OddAppend(Zeros(6), [true] + (Zeros(4) + [true]));
    OddAppend([true], Zeros(6) + ([true] + (Zeros(4) + [true])));
    OddAppend(Zeros(3), [true] + (Zeros(6) + ([true] + (Zeros(4) + [true]))));
  }

  lemma {:induction false} RunParity(s: u16, bits: Bits)
    ensures Odd(Run(s, bits)) == (Odd(s) != Odd(bits))
    decreases |bits|
  {
    if bits == [] {
    } else {
      StepParity(s, bits[0]);
      RunParity(Step(s, bits[0]), bits[1..]);
    }
  }

  // Every error that flips an odd number of bits is caught.
  lemma OddErrorsDetected(good: seq<u8>, bad: seq<u8>)
    requires |good| == |bad| >= 2 && CrcOk(good)
    requires Odd(Xor(Serial(good), Serial(bad)))
    ensures !CrcOk(bad)
  {
    RunParity(Zeros(16), Xor(Serial(good), Serial(bad)));
    OddZeros(16);
    UndetectedErrors(good, bad);
  }
}
