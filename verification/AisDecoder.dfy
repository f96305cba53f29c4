// The AIS decoder object (src/decoders/trx-ais/src/lib.rs): fields updated symbol by
// symbol, and what its runs mean for whole transmissions.
module AisDecoder {
  import opened Basics
  import opened Words
  import opened AisCrc
  import opened AisLink
  import opened AisFields

  const AIS_BAUD := 9600

  // ---- the symbol clock ---------------------------------------------------------------

  function Repeat(bit: bool, n: nat): (r: Bits)
    ensures |r| == n && forall i :: 0 <= i < n ==> r[i] == bit
  {
    seq(n, _ => bit)
  }

  // The symbols taken from a run of sliced samples, starting at clock phase `phase`.
  function Symbols(phase: nat, rate: nat, slices: Bits): Bits
    requires rate > 0
    decreases |slices|
  {
    if slices == [] then []
    else Repeat(slices[0], (phase + AIS_BAUD) / rate) + Symbols((phase + AIS_BAUD) % rate, rate, slices[1..])
  }

  function PhaseAfter(phase: nat, rate: nat, slices: Bits): nat
    requires rate > 0
    decreases |slices|
  {
    if slices == [] then phase else PhaseAfter((phase + AIS_BAUD) % rate, rate, slices[1..])
  }

  lemma DivSplit(a: nat, b: nat, rate: nat)
    requires rate > 0
    ensures (a + b) / rate == a / rate + (a % rate + b) / rate
    ensures (a + b) % rate == (a % rate + b) % rate
  {
    var q, r := (a % rate + b) / rate, (a % rate + b) % rate;
    assert a + b == (a / rate + q) * rate + r by {
      assert a == rate * (a / rate) + a % rate;
      assert a % rate + b == rate * q + r;
      assert (a / rate + q) * rate == rate * (a / rate) + rate * q;
    }
    DivModUnique(a + b, rate, a / rate + q, r);
  }

  lemma DivModUnique(n: int, d: int, q: int, r: int)
    requires 0 <= r < d && n == q * d + r
    ensures n / d == q && n % d == r
  {
    var k := n / d - q;
    assert n == d * (n / d) + n % d;
    assert k * d == r - n % d by {
      assert k * d == (n / d) * d - q * d;
    }
    assert k >= 1 ==> k * d >= d;
    assert k <= -1 ==> k * d <= -d;
  }

  // No drift: after `n` samples exactly floor((phase + 9600 n) / rate) symbols were taken.
  lemma {:induction false} SymbolCount(phase: nat, rate: nat, slices: Bits)
    requires phase < rate
    ensures |Symbols(phase, rate, slices)| == (phase + 9600 * |slices|) / rate
    ensures PhaseAfter(phase, rate, slices) == (phase + 9600 * |slices|) % rate
    decreases |slices|
  {
    if slices == [] {
      DivModUnique(phase, rate, 0, phase);
    } else {
      var next := (phase + AIS_BAUD) % rate;
      SymbolCount(next, rate, slices[1..]);
      DivSplit(phase + AIS_BAUD, AIS_BAUD * (|slices| - 1), rate);
    }
  }

  // Symbol `k` is the slicer's verdict at the first sample that reaches `k + 1` symbol
  // periods.
  lemma {:induction false} SymbolIsSample(phase: nat, rate: nat, slices: Bits, k: nat)
    requires phase < rate && k < |Symbols(phase, rate, slices)|
    ensures var i := (rate * (k + 1) - phase - 1) / AIS_BAUD;
            0 <= i < |slices| && Symbols(phase, rate, slices)[k] == slices[i]
    decreases |slices|
  {
    var first := (phase + AIS_BAUD) / rate;
    var next := (phase + AIS_BAUD) % rate;
    assert phase + AIS_BAUD == rate * first + next;
    if k < first {
      WithinFirst(phase, rate, first, k);
    } else {
      SymbolIsSample(next, rate, slices[1..], k - first);
      OneSampleLater(phase, rate, first, k);
    }
  }

  lemma WithinFirst(phase: nat, rate: nat, first: nat, k: nat)
    requires phase < rate && rate * first <= phase + AIS_BAUD && k < first
    ensures (rate * (k + 1) - phase - 1) / AIS_BAUD == 0
  {
    assert rate * (k + 1) <= rate * first;
    assert rate * (k + 1) >= rate;
  }

  lemma OneSampleLater(phase: nat, rate: nat, first: nat, k: nat)
    requires first <= k
    ensures var next := phase + AIS_BAUD - rate * first;
            (rate * (k - first + 1) - next - 1) / AIS_BAUD == (rate * (k + 1) - phase - 1) / AIS_BAUD - 1
  {
    assert rate * (k - first + 1) == rate * (k + 1) - rate * first;
  }

  // The symbol period in which sample `i` lies.
  function PeriodOf(phase: nat, rate: nat, i: nat): nat
    requires rate > 0
  {
    (phase + AIS_BAUD * i) / rate
  }

  // The slicer's verdicts on a line that carries these symbols, from a sample clock in this phase.
  ghost predicate Sampled(phase: nat, rate: nat, raws: Bits, slices: Bits)
    requires rate > 0
  {
    hide PeriodOf;
    && |raws| == PeriodOf(phase, rate, |slices|)
    && forall i :: 0 <= i < |slices| && PeriodOf(phase, rate, i) < |raws|
                   ==> slices[i] == raws[PeriodOf(phase, rate, i)]
  }

  // At a sample rate of at least the symbol rate, the clock takes every symbol once.
  lemma SampledSymbols(phase: nat, rate: nat, raws: Bits, slices: Bits)
    requires phase < rate && AIS_BAUD <= rate && Sampled(phase, rate, raws, slices)
    ensures Symbols(phase, rate, slices) == raws
  {
    SymbolCount(phase, rate, slices);
    forall k | 0 <= k < |raws| ensures Symbols(phase, rate, slices)[k] == raws[k] {
      SymbolIsSample(phase, rate, slices, k);
      SampleOfSymbol(phase, rate, k);
    }
  }

  lemma SampleOfSymbol(phase: nat, rate: nat, k: nat)
    requires phase < rate && AIS_BAUD <= rate
    ensures var i := (rate * (k + 1) - phase - 1) / AIS_BAUD;
            i >= 0 && PeriodOf(phase, rate, i) == k
  {
    var top := rate * (k + 1) - phase - 1;
    assert rate * (k + 1) == rate * k + rate;
    assert rate * k >= 0;
    var i := top / AIS_BAUD;
    assert top == AIS_BAUD * i + top % AIS_BAUD;
    var r := phase + AIS_BAUD * i - rate * k;
    assert 0 <= r < rate;
    DivModUnique(phase + AIS_BAUD * i, rate, k, r);
  }

  // ---- the object -----------------------------------------------------------------------

  function FilterMap<A, B>(f: A -> Option<B>, xs: seq<A>): seq<B> {
    if xs == [] then []
    else (if f(xs[0]).Some? then [f(xs[0]).value] else []) + FilterMap(f, xs[1..])
  }

  lemma {:induction false} FilterMapAppend<A, B>(f: A -> Option<B>, a: seq<A>, b: seq<A>)
    ensures FilterMap(f, a + b) == FilterMap(f, a) + FilterMap(f, b)
  {
    if a == [] {
      assert a + b == b;
    } else {
      assert (a + b)[1..] == a[1..] + b;
      FilterMapAppend(f, a[1..], b);
      var head := if f(a[0]).Some? then [f(a[0]).value] else [];
      assert FilterMap(f, a + b) == head + (FilterMap(f, a[1..]) + FilterMap(f, b));
      assert FilterMap(f, a) == head + FilterMap(f, a[1..]);
    }
  }

  lemma FilterMapSnoc<A, B>(f: A -> Option<B>, xs: seq<A>, n: nat)
    requires n < |xs|
    ensures FilterMap(f, xs[..n + 1]) == FilterMap(f, xs[..n]) + (if f(xs[n]).Some? then [f(xs[n]).value] else [])
  {
    assert xs[..n + 1] == xs[..n] + [xs[n]];
    FilterMapAppend(f, xs[..n], [xs[n]]);
    assert FilterMap(f, [xs[n]][1..]) == [];
  }

  function Parser(channel: string): RawFrame -> Option<AisMessage> {
    frame => ParseFrame(frame, channel)
  }

  // The messages of the frames that parse.
  function Messages(frames: seq<RawFrame>, channel: string): seq<AisMessage> {
    FilterMap(Parser(channel), frames)
  }

  class Decoder {
    const sampleRate: nat
    const table: seq<u16>
    var symbolPhase: nat
    var prevRawBit: bool
    var ones: u32
    var inFrame: bool
    var frameBits: Bits
    var frames: seq<RawFrame>

    ghost predicate Valid()
      reads this
    {
      IsTable(table) && symbolPhase < sampleRate
    }

    ghost function State(): Link
      reads this
    {
      Link(prevRawBit, ones, inFrame, frameBits, frames)
    }

    constructor (rate: nat)
      ensures Valid() && sampleRate == (if rate > 1 then rate else 1)
      ensures symbolPhase == 0 && State() == Link(false, 0, false, [], [])
    {
      var t := BuildTable();
      table := t;
      sampleRate := if rate > 1 then rate else 1;
      symbolPhase := 0;
      prevRawBit := false;
      ones := 0;
      inFrame := false;
      frameBits := [];
      frames := [];
    }

    method Reset()
      requires Valid()
      modifies this
      ensures Valid() && symbolPhase == 0 && State() == Link(false, 0, false, [], [])
    {
      symbolPhase := 0;
      prevRawBit := false;
      ones := 0;
      inFrame := false;
      frameBits := [];
      frames := [];
    }

    method BitsToFrame() returns (r: Option<RawFrame>)
      requires IsTable(table)
      ensures r == FrameOf(frameBits)
    {
      hide Bytes, Fcs, FromLeBytes, IsTable;
      var usable := |frameBits| - |frameBits| % 8;
      if usable < 24 {
        return None;
      }
      var bits := frameBits[..usable];
      var bytes := BitsToBytes(bits);
      var payloadLen := |bytes| - 2;
      var payload := bytes[..payloadLen];
      var crc := Crc16Ccitt(table, payload);
      return Some(RawFrame(payload, bits, crc == FromLeBytes(bytes[payloadLen], bytes[payloadLen + 1])));
    }

    static method BitsToBytes(bits: Bits) returns (bytes: seq<u8>)
      requires |bits| % 8 == 0
      ensures bytes == Bytes(bits)
    {
      bytes := [];
      while 8 * |bytes| < |bits|
        invariant 8 * |bytes| <= |bits|
        invariant bytes == Bytes(bits[..8 * |bytes|])
        decreases |bits| - 8 * |bytes|
      {
        var at := 8 * |bytes|;
        var byte := ByteOf(bits[at..at + 8]);
        BytesSnoc(bits, |bytes|);
        bytes := bytes + [byte];
      }
      assert bits[..8 * |bytes|] == bits;
    }

    // Sets the bits of one byte, the first received one lowest.
    static method ByteOf(chunk: Bits) returns (byte: u8)
      requires |chunk| == 8
      ensures byte == chunk
    {
      byte := [false, false, false, false, false, false, false, false];
      var idx := 0;
      while idx < 8
        invariant 0 <= idx <= 8
        invariant forall k :: 0 <= k < idx ==> byte[k] == chunk[k]
        invariant forall k :: idx <= k < 8 ==> !byte[k]
      {
        if chunk[idx] {
          byte := byte[idx := true];
        }
        idx := idx + 1;
      }
    }

    method ProcessSymbol(rawBit: bool)
      requires IsTable(table)
      modifies this`prevRawBit, this`ones, this`inFrame, this`frameBits, this`frames
      ensures State() == SymbolStep(old(State()), rawBit)
    {
      var decodedBit := rawBit == prevRawBit;
      prevRawBit := rawBit;
      if decodedBit {
        ones := (ones + 1) % U32;
        return;
      }
      if ones >= 7 {
        inFrame := false;
        frameBits := [];
        ones := 0;
        return;
      }
      if ones == 6 {
        if inFrame {
          var frame := BitsToFrame();
          if frame.Some? {
            frames := frames + [frame.value];
          }
        }
        frameBits := [];
        inFrame := true;
        ones := 0;
        return;
      }
      if ones == 5 {
        if inFrame {
          PushOnes(5);
        }
        ones := 0;
        return;
      }
      if inFrame {
        PushOnes(ones);
        frameBits := frameBits + [false];
      }
      ones := 0;
    }

    method PushOnes(n: nat)
      modifies this`frameBits
      ensures frameBits == old(frameBits) + Ones(n)
    {
      var k := 0;
      while k < n
        invariant 0 <= k <= n
        invariant frameBits == old(frameBits) + Ones(k)
      {
        frameBits := frameBits + [true];
        assert Ones(k + 1) == Ones(k) + [true];
        k := k + 1;
      }
    }

    // One sample, given the slicer's verdict on it.
    method ProcessSample(slice: bool)
      requires Valid()
      modifies this
      ensures Valid()
      ensures State() == RunSymbols(old(State()), Repeat(slice, (old(symbolPhase) + AIS_BAUD) / sampleRate))
      ensures symbolPhase == (old(symbolPhase) + AIS_BAUD) % sampleRate
    {
      ghost var total := symbolPhase + AIS_BAUD;
      ghost var n := 0;
      symbolPhase := symbolPhase + AIS_BAUD;
      while symbolPhase >= sampleRate
        invariant IsTable(table) && symbolPhase + n * sampleRate == total
        invariant State() == RunSymbols(old(State()), Repeat(slice, n))
        decreases symbolPhase
      {
        symbolPhase := symbolPhase - sampleRate;
        ProcessSymbol(slice);
        RunSymbolsAppend(old(State()), Repeat(slice, n), [slice]);
        assert Repeat(slice, n + 1) == Repeat(slice, n) + [slice];
        assert (n + 1) * sampleRate == n * sampleRate + sampleRate;
        n := n + 1;
      }
      DivModUnique(total, sampleRate, n, symbolPhase);
    }
  
    // Feeds a block of samples and hands over the messages it completed.
    method ProcessSamples(slices: Bits, channel: string) returns (out: seq<AisMessage>)
      requires Valid()
      modifies this
      ensures Valid()
      ensures var t := RunSymbols(old(State()), Symbols(old(symbolPhase), sampleRate, slices));
              State() == t.(frames := []) && out == Messages(t.frames, channel)
      ensures symbolPhase == PhaseAfter(old(symbolPhase), sampleRate, slices)
    {
      ghost var goal := RunSymbols(State(), Symbols(symbolPhase, sampleRate, slices));
      var i := 0;
      while i < |slices|
        invariant 0 <= i <= |slices| && Valid()
        invariant goal == RunSymbols(State(), Symbols(symbolPhase, sampleRate, slices[i..]))
        invariant PhaseAfter(symbolPhase, sampleRate, slices[i..]) == PhaseAfter(old(symbolPhase), sampleRate, slices)
      {
        ghost var phase, s := symbolPhase, State();
        ProcessSample(slices[i]);
        assert slices[i..][1..] == slices[i + 1..];
        RunSymbolsAppend(s, Repeat(slices[i], (phase + AIS_BAUD) / sampleRate),
                         Symbols(symbolPhase, sampleRate, slices[i + 1..]));
        i := i + 1;
      }
      assert slices[i..] == [];
      var taken := frames;
      frames := [];
      out := ParseAll(taken, channel);
    }

    static method ParseAll(taken: seq<RawFrame>, channel: string) returns (out: seq<AisMessage>)
      ensures out == Messages(taken, channel)
    {
      var parse := Parser(channel);
      out := [];
      var k := 0;
      while k < |taken|
        invariant 0 <= k <= |taken|
        invariant out == FilterMap(parse, taken[..k])
      {
        FilterMapSnoc(parse, taken, k);
        var msg := parse(taken[k]);
        if msg.Some? {
          out := out + [msg.value];
        }
        k := k + 1;
      }
      assert taken[..k] == taken;
    }
  }

  // ---- whole runs ----------------------------------------------------------------------------

  // Feeding a symbol stream in two blocks delivers what feeding it at once delivers.
  lemma ChunkingInvisible(s: Link, a: Bits, b: Bits, channel: string)
    ensures var t := RunSymbols(s, a);
            var u := RunSymbols(t.(frames := []), b);
            Messages(RunSymbols(s, a + b).frames, channel) == Messages(t.frames, channel) + Messages(u.frames, channel)
            && RunSymbols(s, a + b).(frames := []) == u.(frames := [])
  {
    var t := RunSymbols(s, a);
    RunSymbolsAppend(s, a, b);
    EarlierFramesInvisible(t, b);
    FilterMapAppend(Parser(channel), t.frames, RunSymbols(t.(frames := []), b).frames);
  }

  // The same at the level of samples: the clock carries over.
  lemma {:induction false} SymbolsAppend(phase: nat, rate: nat, a: Bits, b: Bits)
    requires rate > 0
    ensures Symbols(phase, rate, a + b) == Symbols(phase, rate, a) + Symbols(PhaseAfter(phase, rate, a), rate, b)
    decreases |a|
  {
    if a == [] {
      assert a + b == b;
    } else {
      assert (a + b)[1..] == a[1..] + b;
      SymbolsAppend((phase + AIS_BAUD) % rate, rate, a[1..], b);
    }
  }

  function Payloads(reports: seq<Report>): seq<seq<u8>> {
    if reports == [] then [] else [Pack(Encode(Layout(reports[0])))] + Payloads(reports[1..])
  }

  function Expectations(reports: seq<Report>, channel: string): seq<AisMessage> {
    if reports == [] then []
    else
      var p := Pack(Encode(Layout(reports[0])));
      [Expectation(reports[0], channel, 8 * |p| + 16, p)] + Expectations(reports[1..], channel)
  }

  lemma {:induction false} ReportsParsed(reports: seq<Report>, channel: string)
    requires forall r :: r in reports ==> InRange(r)
    ensures Messages(Expected(Payloads(reports)), channel) == Expectations(reports, channel)
  {
    if reports == [] {
    } else {
      var p := Pack(Encode(Layout(reports[0])));
      ReportReceived(reports[0], channel);
      ReportsParsed(reports[1..], channel);
      FilterMapAppend(Parser(channel), Receipt(p), Expected(Payloads(reports[1..])));
    }
  }

  lemma ReportReceived(r: Report, channel: string)
    requires InRange(r)
    ensures var p := Pack(Encode(Layout(r)));
            Messages(Receipt(p), channel) == [Expectation(r, channel, 8 * |p| + 16, p)]
  {
    var p := Pack(Encode(Layout(r)));
    hide Encode, Layout, Pack, ParseFrame, InRange, Serial, WithFcs, Expectation, UintAt, IntAt;
    HeaderRead(r);
    PackUnpacks(Encode(Layout(r)));
    var wire := Serial(WithFcs(p));
    ReportReadBack(r, channel, wire);
    assert Receipt(p) == [RawFrame(p, wire, true)];
    assert Messages(Receipt(p)[1..], channel) == [];
  }

  // End to end: from any decoder state and on either line polarity, position reports sent
  // after two flags come out field by field, in order, none lost and none added.
  lemma ReportsReceived(s: Link, level: bool, reports: seq<Report>, channel: string)
    requires forall r :: r in reports ==> InRange(r)
    ensures var sync := Nrzi(level, FLAG + FLAG);
            var all := Nrzi(level, FLAG + FLAG + Frames(Payloads(reports)));
            Messages(RunSymbols(s, all).frames, channel)
            == Messages(RunSymbols(s, sync).frames, channel) + Expectations(reports, channel)
  {
    AnyStateDecodes(s, level, Payloads(reports));
    ReportsParsed(reports, channel);
    FilterMapAppend(Parser(channel), RunSymbols(s, Nrzi(level, FLAG + FLAG)).frames, Expected(Payloads(reports)));
  }

  // From the slicer on, as ProcessSamples delivers it: any decoder, in any phase of its sample
  // clock, given the samples of such a transmission.
  lemma ReportsSampled(s: Link, phase: nat, rate: nat, slices: Bits, level: bool, reports: seq<Report>, channel: string)
    requires forall r :: r in reports ==> InRange(r)
    requires phase < rate && AIS_BAUD <= rate
    requires Sampled(phase, rate, Nrzi(level, FLAG + FLAG + Frames(Payloads(reports))), slices)
    ensures var t := RunSymbols(s, Symbols(phase, rate, slices));
            Messages(t.frames, channel)
            == Messages(RunSymbols(s, Nrzi(level, FLAG + FLAG)).frames, channel) + Expectations(reports, channel)
  {
    SampledSymbols(phase, rate, Nrzi(level, FLAG + FLAG + Frames(Payloads(reports))), slices);
    ReportsReceived(s, level, reports, channel);
  }
}
