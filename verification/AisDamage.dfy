// What the AIS decoder makes of frames that were damaged on their way
// (src/decoders/trx-ais/src/lib.rs:108-237).
module AisDamage {
  import opened Basics
  import opened Words
  import opened AisCrc
  import opened AisLink
  import opened AisFields
  import opened AisDecoder

  // ---- frames that do not check -----------------------------------------------------------

  lemma BadCheckRejected(frame: RawFrame, channel: string)
    requires !frame.crcOk
    ensures ParseFrame(frame, channel) == None
  {
    AcceptedIff(frame, channel);
  }

  function Checking(frames: seq<RawFrame>): seq<RawFrame> {
    if frames == [] then [] else (if frames[0].crcOk then [frames[0]] else []) + Checking(frames[1..])
  }

  // The messages of any frames are those of the frames that check.
  lemma {:induction false} OnlyCheckedFrames(frames: seq<RawFrame>, channel: string)
    ensures Messages(frames, channel) == Messages(Checking(frames), channel)
  {
    hide ParseFrame;
    if frames == [] {
    } else {
      OnlyCheckedFrames(frames[1..], channel);
      if frames[0].crcOk {
        assert Checking(frames)[1..] == Checking(frames[1..]);
      } else {
        BadCheckRejected(frames[0], channel);
        assert [] + Checking(frames[1..]) == Checking(frames[1..]);
        assert [] + Messages(frames[1..], channel) == Messages(frames[1..], channel);
      }
    }
  }

  // ---- damage that is always noticed ----------------------------------------------------------

  // The bytes of a frame with some bits wrong: all within sixteen, or an odd number of them.
  ghost predicate Damaged(payload: seq<u8>, bytes: seq<u8>) {
    var sent := WithFcs(payload);
    && |bytes| == |sent|
    && ((exists lo, hi :: IsBurst(Xor(Serial(sent), Serial(bytes)), lo, hi) && hi - lo <= 16)
        || Odd(Xor(Serial(sent), Serial(bytes))))
  }

  lemma DamageNoticed(payload: seq<u8>, bytes: seq<u8>)
    requires Damaged(payload, bytes)
    ensures !CrcOk(bytes)
  {
    var sent := WithFcs(payload);
    FcsChecks(payload);
    if Odd(Xor(Serial(sent), Serial(bytes))) {
      OddErrorsDetected(sent, bytes);
    } else {
      var lo, hi :| IsBurst(Xor(Serial(sent), Serial(bytes)), lo, hi) && hi - lo <= 16;
      BurstsDetected(sent, bytes, lo, hi);
    }
  }

  // A damaged frame gives no message, and leaves the decoder ready for the next one.
  lemma DamagedFrameSilent(s: Link, payload: seq<u8>, bytes: seq<u8>, channel: string)
    requires Synced(s) && Damaged(payload, bytes)
    ensures var t := RunBits(s, OnAir(bytes));
            Synced(t) && Messages(t.frames, channel) == Messages(s.frames, channel)
  {
    hide FrameOf, CrcOk, Synced, OnAir, ParseFrame, FilterMap;
    DamageNoticed(payload, bytes);
    OneOnAir(s, bytes);
    BytesReceived(bytes, [false]);
    if |bytes| >= 3 {
      var frame := RawFrame(bytes[..|bytes| - 2], Serial(bytes), false);
      BadCheckRejected(frame, channel);
      AppendSilent(s.frames, frame, channel);
    }
  }

  lemma AppendSilent(frames: seq<RawFrame>, frame: RawFrame, channel: string)
    requires ParseFrame(frame, channel) == None
    ensures Messages(frames + [frame], channel) == Messages(frames, channel)
  {
    hide ParseFrame;
    FilterMapSnoc(Parser(channel), frames + [frame], |frames|);
    assert (frames + [frame])[..|frames|] == frames;
    assert (frames + [frame])[..|frames| + 1] == frames + [frame];
    assert Messages(frames, channel) + [] == Messages(frames, channel);
  }

  // ---- a transmission of which some frames are damaged -------------------------------------------

  // A position report as it arrives: as it was sent, or with the bytes of its frame damaged.
  datatype Arrival = Intact(report: Report) | Hit(report: Report, bytes: seq<u8>)

  function PayloadOf(r: Report): seq<u8> {
    Pack(Encode(Layout(r)))
  }

  ghost predicate Proper(a: Arrival) {
    InRange(a.report) && (a.Hit? ==> Damaged(PayloadOf(a.report), a.bytes))
  }

  function BytesOf(a: Arrival): seq<u8> {
    if a.Hit? then a.bytes else WithFcs(PayloadOf(a.report))
  }

  function Air(arrivals: seq<Arrival>): Bits {
    if arrivals == [] then [] else OnAir(BytesOf(arrivals[0])) + Air(arrivals[1..])
  }

  function IntactReports(arrivals: seq<Arrival>): seq<Report> {
    if arrivals == [] then []
    else (if arrivals[0].Intact? then [arrivals[0].report] else []) + IntactReports(arrivals[1..])
  }

  lemma {:induction false} ArrivalsParsed(s: Link, arrivals: seq<Arrival>, channel: string)
    requires Synced(s) && forall a :: a in arrivals ==> Proper(a)
    ensures Messages(RunBits(s, Air(arrivals)).frames, channel)
            == Messages(s.frames, channel) + Expectations(IntactReports(arrivals), channel)
    decreases |arrivals|
  {
    hide OnAir, Synced, Proper, Messages, BytesOf;
    if arrivals == [] {
      assert Messages(s.frames, channel) + [] == Messages(s.frames, channel);
    } else {
      hide RunBits, IntactReports, Expectations, Own;
      var first := OnAir(BytesOf(arrivals[0]));
      assert Proper(arrivals[0]);
      OneArrival(s, arrivals[0], channel);
      ArrivalsParsed(RunBits(s, first), arrivals[1..], channel);
      IntactSplit(arrivals, channel);
      OneMoreArrival(s, first, Air(arrivals[1..]), Own(arrivals[0], channel),
                     Expectations(IntactReports(arrivals[1..]), channel), channel);
    }
  }

  // The message of a single arrival, if it is intact.
  function Own(a: Arrival, channel: string): seq<AisMessage> {
    if a.Intact? then Expectations([a.report], channel) else []
  }

  lemma OneMoreArrival(s: Link, first: Bits, rest: Bits, own: seq<AisMessage>, others: seq<AisMessage>, channel: string)
    requires Messages(RunBits(s, first).frames, channel) == Messages(s.frames, channel) + own
    requires Messages(RunBits(RunBits(s, first), rest).frames, channel)
             == Messages(RunBits(s, first).frames, channel) + others
    ensures Messages(RunBits(s, first + rest).frames, channel) == Messages(s.frames, channel) + (own + others)
  {
    hide RunBits, Messages;
    RunBitsAppend(s, first, rest);
    assert Messages(s.frames, channel) + own + others == Messages(s.frames, channel) + (own + others);
  }

  lemma IntactSplit(arrivals: seq<Arrival>, channel: string)
    requires arrivals != []
    ensures Expectations(IntactReports(arrivals), channel)
            == Own(arrivals[0], channel) + Expectations(IntactReports(arrivals[1..]), channel)
  {
    var rest := IntactReports(arrivals[1..]);
    if arrivals[0].Intact? {
      FirstExpectation(arrivals[0].report, rest, channel);
    } else {
      assert [] + rest == rest;
      assert [] + Expectations(rest, channel) == Expectations(rest, channel);
    }
  }

  lemma FirstExpectation(r: Report, rest: seq<Report>, channel: string)
    ensures Expectations([r] + rest, channel) == Expectations([r], channel) + Expectations(rest, channel)
  {
    hide Expectation;
    assert ([r] + rest)[1..] == rest;
    assert [r][1..] == [];
  }

  lemma OneArrival(s: Link, a: Arrival, channel: string)
    requires Synced(s) && Proper(a)
    ensures var t := RunBits(s, OnAir(BytesOf(a)));
            Synced(t) && Messages(t.frames, channel) == Messages(s.frames, channel) + Own(a, channel)
  {
    hide Synced, OnAir, FilterMap, WithFcs, Expectation, Receipt, Damaged;
    var p := PayloadOf(a.report);
    if a.Hit? {
      DamagedFrameSilent(s, p, a.bytes, channel);
      assert Messages(s.frames, channel) + [] == Messages(s.frames, channel);
    } else {
      OneFrameDecoded(s, p);
      ReportReceived(a.report, channel);
      FilterMapAppend(Parser(channel), s.frames, Receipt(p));
      OneExpectation(a.report, channel);
    }
  }

  lemma OneExpectation(r: Report, channel: string)
    ensures var p := PayloadOf(r);
            Expectations([r], channel) == [Expectation(r, channel, 8 * |p| + 16, p)]
  {
    hide Expectation;
    assert Expectations([r][1..], channel) == [];
  }

  // From any decoder state, on either line polarity: of the reports sent after two flags exactly
  // the intact ones come out, field by field and in order, whichever of the others were damaged.
  lemma DamagedReportsDropped(s: Link, level: bool, arrivals: seq<Arrival>, channel: string)
    requires forall a :: a in arrivals ==> Proper(a)
    ensures Messages(RunSymbols(s, Nrzi(level, FLAG + FLAG + Air(arrivals))).frames, channel)
            == Messages(RunSymbols(s, Nrzi(level, FLAG + FLAG)).frames, channel)
               + Expectations(IntactReports(arrivals), channel)
  {
    hide Proper, Messages, Air, Nrzi, Expectations;
    BehindTwoFlags(s, level, Air(arrivals));
    ArrivalsParsed(RunSymbols(s, Nrzi(level, FLAG + FLAG)), arrivals, channel);
  }

  // The same from the slicer on, as ProcessSamples delivers it.
  lemma DamagedReportsSampled(s: Link, phase: nat, rate: nat, slices: Bits, level: bool, arrivals: seq<Arrival>,
                              channel: string)
    requires forall a :: a in arrivals ==> Proper(a)
    requires phase < rate && AIS_BAUD <= rate
    requires Sampled(phase, rate, Nrzi(level, FLAG + FLAG + Air(arrivals)), slices)
    ensures Messages(RunSymbols(s, Symbols(phase, rate, slices)).frames, channel)
            == Messages(RunSymbols(s, Nrzi(level, FLAG + FLAG)).frames, channel)
               + Expectations(IntactReports(arrivals), channel)
  {
    hide Proper, Messages, Air, Nrzi, Expectations, Sampled;
    SampledSymbols(phase, rate, Nrzi(level, FLAG + FLAG + Air(arrivals)), slices);
    DamagedReportsDropped(s, level, arrivals, channel);
  }
}
