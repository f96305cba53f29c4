// The AIS link layer (src/decoders/trx-ais/src/lib.rs): symbol clock, NRZI decoding,
// flag detection, bit de-stuffing and byte assembly, proved against the encoder.
module AisLink {
  import opened Basics
  import opened Words
  import opened AisCrc

  // ---- bytes from bits ------------------------------------------------------------

  // The bytes of a bit string, eight at a time; a shorter rest is dropped.
  function Bytes(bits: Bits): (r: seq<u8>)
    ensures |r| == |bits| / 8
  {
    if |bits| < 8 then [] else [bits[..8]] + Bytes(bits[8..])
  }

  lemma {:induction false} BytesOfSerial(bytes: seq<u8>, rest: Bits)
    requires |rest| < 8
    ensures Bytes(Serial(bytes) + rest) == bytes
  {
    if bytes == [] {
      assert Serial(bytes) + rest == rest;
    } else {
      var all := Serial(bytes) + rest;
      assert all[..8] == bytes[0];
      assert all[8..] == Serial(bytes[1..]) + rest;
      BytesOfSerial(bytes[1..], rest);
    }
  }

  lemma {:induction false} SerialOfBytes(bits: Bits)
    requires |bits| % 8 == 0
    ensures Serial(Bytes(bits)) == bits
  {
    if |bits| < 8 {
    } else {
      SerialOfBytes(bits[8..]);
      assert bits == bits[..8] + bits[8..];
    }
  }

  lemma {:induction false} BytesSnoc(bits: Bits, n: nat)
    requires 8 * n + 8 <= |bits|
    ensures Bytes(bits[..8 * n + 8]) == Bytes(bits[..8 * n]) + [bits[8 * n..8 * n + 8]]
  {
    var long := bits[..8 * n + 8];
    if n == 0 {
      assert long[..8] == bits[0..8] && Bytes(long[8..]) == [] && Bytes(bits[..0]) == [];
    } else {
      BytesSnoc(bits[8..], n - 1);
      assert long[8..] == bits[8..][..8 * n];
      assert bits[..8 * n][8..] == bits[8..][..8 * n - 8];
      assert bits[8..][8 * n - 8..8 * n] == bits[8 * n..8 * n + 8];
      assert bits[..8 * n][..8] == long[..8];
    }
  }

  // ---- frames ---------------------------------------------------------------------

  datatype RawFrame = RawFrame(payload: seq<u8>, bits: Bits, crcOk: bool)

  // What the collected bits of one frame amount to: at least three whole bytes, of
  // which the last two are the check sequence.
  function FrameOf(collected: Bits): Option<RawFrame> {
    var usable := |collected| - |collected| % 8;
    if usable < 24 then None
    else
      var bytes := Bytes(collected[..usable]);
      Some(RawFrame(bytes[..|bytes| - 2], collected[..usable], CrcOk(bytes)))
  }

  // ---- the symbol machine ----------------------------------------------------------

  datatype Link = Link(prevRaw: bool, ones: u32, inFrame: bool, frameBits: Bits, frames: seq<RawFrame>)

  // A zero after a run of ones decides what the run was.
  function EndRun(s: Link): Link {
    if s.ones >= 7 then
      s.(inFrame := false, frameBits := [], ones := 0)
    else if s.ones == 6 then
      var done := if s.inFrame && FrameOf(s.frameBits).Some? then s.frames + [FrameOf(s.frameBits).value] else s.frames;
      s.(frames := done, frameBits := [], inFrame := true, ones := 0)
    else if s.ones == 5 then
      s.(frameBits := if s.inFrame then s.frameBits + Ones(5) else s.frameBits, ones := 0)
    else
      s.(frameBits := if s.inFrame then s.frameBits + Ones(s.ones) + [false] else s.frameBits, ones := 0)
  }

  function BitStep(s: Link, bit: bool): Link {
    if bit then s.(ones := (s.ones + 1) % U32) else EndRun(s)
  }

  // NRZI: no transition is a one.
  function SymbolStep(s: Link, raw: bool): Link {
    BitStep(s.(prevRaw := raw), raw == s.prevRaw)
  }

  function RunBits(s: Link, bits: Bits): Link
    decreases |bits|
  {
    if bits == [] then s else RunBits(BitStep(s, bits[0]), bits[1..])
  }

  function RunSymbols(s: Link, raws: Bits): Link
    decreases |raws|
  {
    if raws == [] then s else RunSymbols(SymbolStep(s, raws[0]), raws[1..])
  }

  lemma {:induction false} RunBitsAppend(s: Link, a: Bits, b: Bits)
    ensures RunBits(s, a + b) == RunBits(RunBits(s, a), b)
    decreases |a|
  {
    if a == [] {
      assert a + b == b;
    } else {
      assert (a + b)[1..] == a[1..] + b;
      RunBitsAppend(BitStep(s, a[0]), a[1..], b);
    }
  }

  // Splitting the symbol stream anywhere changes nothing.
  lemma {:induction false} RunSymbolsAppend(s: Link, a: Bits, b: Bits)
    ensures RunSymbols(s, a + b) == RunSymbols(RunSymbols(s, a), b)
    decreases |a|
  {
    if a == [] {
      assert a + b == b;
    } else {
      assert (a + b)[1..] == a[1..] + b;
      RunSymbolsAppend(SymbolStep(s, a[0]), a[1..], b);
    }
  }

  // ---- the encoder ------------------------------------------------------------------

  function Nrzi(level: bool, bits: Bits): (r: Bits)
    ensures |r| == |bits|
    decreases |bits|
  {
    if bits == [] then []
    else
      var next := if bits[0] then level else !level;
      [next] + Nrzi(next, bits[1..])
  }

  function NrziLevel(level: bool, bits: Bits): bool
    decreases |bits|
  {
    if bits == [] then level else NrziLevel(if bits[0] then level else !level, bits[1..])
  }

  lemma {:induction false} NrziAppend(level: bool, a: Bits, b: Bits)
    ensures Nrzi(level, a + b) == Nrzi(level, a) + Nrzi(NrziLevel(level, a), b)
    ensures NrziLevel(level, a + b) == NrziLevel(NrziLevel(level, a), b)
    decreases |a|
  {
    if a == [] {
      assert a + b == b;
    } else {
      assert (a + b)[1..] == a[1..] + b;
      NrziAppend(if a[0] then level else !level, a[1..], b);
    }
  }

  // One data bit on the air; `ones` counts the ones just before it, and the fifth in a
  // row is followed by a zero.
  function StuffOne(bit: bool, ones: nat): Bits {
    if bit && ones == 4 then [true, false] else [bit]
  }

  function OnesAfter(bit: bool, ones: nat): nat {
    if bit && ones < 4 then ones + 1 else 0
  }

  function Stuff(bits: Bits, ones: nat): Bits
    decreases |bits|
  {
    if bits == [] then [] else StuffOne(bits[0], ones) + Stuff(bits[1..], OnesAfter(bits[0], ones))
  }

  // 0x7E
  const FLAG: Bits := [false] + Ones(6) + [false]

  function WithFcs(payload: seq<u8>): (r: seq<u8>)
    ensures |r| == |payload| + 2
  {
    payload + [Fcs(payload)[..8], Fcs(payload)[8..]]
  }

  // The bytes of a frame on the air, up to and including the closing flag.
  function OnAir(bytes: seq<u8>): Bits {
    Stuff(Serial(bytes), 0) + FLAG
  }

  // One payload on the air.
  function Encoded(payload: seq<u8>): Bits {
    OnAir(WithFcs(payload))
  }

  // Payloads separated by single shared flags.
  function Frames(payloads: seq<seq<u8>>): Bits {
    if payloads == [] then [] else Encoded(payloads[0]) + Frames(payloads[1..])
  }

  function Transmission(payloads: seq<seq<u8>>): Bits {
    FLAG + Frames(payloads)
  }

  // What the receiver owes for one payload: none for a payload of no bytes, whose frame
  // is too short to count.
  function Receipt(payload: seq<u8>): seq<RawFrame> {
    if payload == [] then [] else [RawFrame(payload, Serial(WithFcs(payload)), true)]
  }

  function Expected(payloads: seq<seq<u8>>): seq<RawFrame> {
    if payloads == [] then [] else Receipt(payloads[0]) + Expected(payloads[1..])
  }

  // ---- decoding undoes encoding --------------------------------------------------------

  lemma {:induction false} NrziDecodes(s: Link, bits: Bits)
    ensures RunSymbols(s, Nrzi(s.prevRaw, bits)) == RunBits(s, bits).(prevRaw := NrziLevel(s.prevRaw, bits))
    decreases |bits|
  {
    if bits == [] {
    } else {
      var next := if bits[0] then s.prevRaw else !s.prevRaw;
      var raws := Nrzi(s.prevRaw, bits);
      assert raws[0] == next && raws[1..] == Nrzi(next, bits[1..]);
      var t := SymbolStep(s, next);
      assert t == BitStep(s, bits[0]).(prevRaw := next);
      NrziDecodes(t, bits[1..]);
      RunBitsPrev(BitStep(s, bits[0]), next, bits[1..]);
    }
  }

  lemma {:induction false} RunBitsPrev(s: Link, prev: bool, bits: Bits)
    ensures RunBits(s.(prevRaw := prev), bits) == RunBits(s, bits).(prevRaw := prev)
    decreases |bits|
  {
    if bits == [] {
    } else {
      assert BitStep(s.(prevRaw := prev), bits[0]) == BitStep(s, bits[0]).(prevRaw := prev);
      RunBitsPrev(BitStep(s, bits[0]), prev, bits[1..]);
    }
  }

  // Inside a frame the pending ones are not yet in `frameBits`.
  ghost predicate Collected(s: Link, bits: Bits) {
    s.inFrame && s.ones < 5 && s.frameBits + Ones(s.ones) == bits
  }

  lemma DestuffsOne(s: Link, before: Bits, bit: bool)
    requires Collected(s, before)
    ensures var t := RunBits(s, StuffOne(bit, s.ones));
            Collected(t, before + [bit]) && t.ones == OnesAfter(bit, s.ones)
            && t.frames == s.frames && t.prevRaw == s.prevRaw
  {
    hide FrameOf, Ones;
    if bit && s.ones == 4 {
      FifthOne(s, before);
    } else if bit {
      OneMore(s.ones);
      assert s.frameBits + Ones(s.ones + 1) == before + [true];
    }
  }

  lemma OneMore(n: nat)
    ensures Ones(n + 1) == Ones(n) + [true]
  {
  }

  // The fifth one is followed by a stuffed zero, which ends the run and is not collected.
  lemma FifthOne(s: Link, before: Bits)
    requires Collected(s, before) && s.ones == 4
    ensures var t := RunBits(s, [true, false]);
            t.inFrame && t.ones == 0 && t.frameBits == before + [true] && t.frames == s.frames && t.prevRaw == s.prevRaw
  {
    hide FrameOf, Ones;
    OneMore(4);
    assert s.frameBits + Ones(5) == before + [true];
    assert [true, false][1..] == [false] + [];
    RunZeroBit(BitStep(s, true), []);
  }

  // De-stuffing undoes stuffing, from any point inside a frame.
  lemma {:induction false} DestuffsData(s: Link, before: Bits, bits: Bits)
    requires Collected(s, before)
    ensures var t := RunBits(s, Stuff(bits, s.ones));
            Collected(t, before + bits) && t.frames == s.frames && t.prevRaw == s.prevRaw
    decreases |bits|
  {
    if bits == [] {
      assert before + bits == before;
    } else {
      var first := StuffOne(bits[0], s.ones);
      DestuffsOne(s, before, bits[0]);
      RunBitsAppend(s, first, Stuff(bits[1..], OnesAfter(bits[0], s.ones)));
      DestuffsData(RunBits(s, first), before + [bits[0]], bits[1..]);
      TakeFirst(before, bits);
    }
  }

  // ---- flags ------------------------------------------------------------------------------

  // In a frame with nothing collected yet.
  ghost predicate Synced(s: Link) {
    s.inFrame && s.ones == 0 && s.frameBits == []
  }

  lemma {:induction false} RunOnes(s: Link, n: nat)
    ensures RunBits(s, Ones(n)) == s.(ones := (s.ones + n) % U32)
    decreases n
  {
    hide FrameOf, EndRun;
    if n == 0 {
      assert Ones(0) == [];
    } else {
      OnesTail(n);
      RunOnes(BitStep(s, true), n - 1);
      CountOn(s.ones, n);
    }
  }

  lemma OnesTail(n: nat)
    requires n > 0
    ensures Ones(n)[0] && Ones(n)[1..] == Ones(n - 1)
  {
  }

  lemma CountOn(ones: u32, n: nat)
    requires n > 0
    ensures ((ones + 1) % U32 + (n - 1)) % U32 == (ones + n) % U32
  {
    if ones + 1 == U32 {
      assert (ones + n) % U32 == (U32 + (n - 1)) % U32;
    }
  }

  lemma SixOnesThenZero(s: Link)
    ensures RunBits(s, FLAG[1..]) == EndRun(s.(ones := (s.ones + 6) % U32))
  {
    var t := s.(ones := (s.ones + 6) % U32);
    assert FLAG[1..] == Ones(6) + [false];
    RunBitsAppend(s, Ones(6), [false]);
    RunOnes(s, 6);
    RunZeroBit(t, []);
    assert [false] + [] == [false];
  }

  lemma RunZeroBit(s: Link, rest: Bits)
    ensures RunBits(s, [false] + rest) == RunBits(EndRun(s), rest)
  {
    assert ([false] + rest)[1..] == rest;
  }

  // A flag is a zero, then six ones and a zero.
  lemma RunFlag(s: Link)
    requires s.ones < 5
    ensures RunBits(s, FLAG) == EndRun(EndRun(s).(ones := 6))
  {
    hide RunBits;
    var t := EndRun(s);
    assert FLAG == [false] + FLAG[1..];
    RunZeroBit(s, FLAG[1..]);
    NoOnesLeft(s);
    SixOnesThenZero(t);
  }

  lemma NoOnesLeft(s: Link)
    requires s.ones < 5
    ensures EndRun(s).ones == 0
  {
  }

  function Add(frames: seq<RawFrame>, f: Option<RawFrame>): seq<RawFrame> {
    if f.Some? then frames + [f.value] else frames
  }

  // A flag closes the current frame and opens the next one.
  lemma ClosingFlag(s: Link, data: Bits)
    requires Collected(s, data)
    ensures var t := RunBits(s, FLAG);
            Synced(t) && t.prevRaw == s.prevRaw && t.frames == Add(s.frames, FrameOf(data + [false]))
  {
    assert EndRun(s).frameBits == data + [false];
    RunFlag(s);
  }

  lemma FlagAfterZero(s: Link)
    requires s.ones == 0
    ensures Synced(RunBits(s, FLAG)) && RunBits(s, FLAG).prevRaw == s.prevRaw
    ensures !s.inFrame || s.frameBits == [] ==> RunBits(s, FLAG).frames == s.frames
  {
    RunFlag(s);
  }

  // ---- aborts ---------------------------------------------------------------------------

  // Seven ones or more, and the zero that ends them, drop the open frame.
  lemma AbortDropsFrame(s: Link, n: nat)
    requires 7 <= s.ones + n < U32
    ensures RunBits(s, Ones(n) + [false]) == Link(s.prevRaw, 0, false, [], s.frames)
  {
    hide FrameOf, Ones;
    var t := s.(ones := s.ones + n);
    RunBitsAppend(s, Ones(n), [false]);
    RunOnes(s, n);
    assert RunBits(s, Ones(n)) == t;
    RunZeroBit(t, []);
    assert [false] + [] == [false];
  }

  // Outside a frame data leaves no trace.
  lemma {:induction false} DataOutside(s: Link, bits: Bits)
    requires !s.inFrame && s.ones < 5
    ensures var t := RunBits(s, Stuff(bits, s.ones));
            !t.inFrame && t.ones < 5 && t.frameBits == s.frameBits && t.frames == s.frames && t.prevRaw == s.prevRaw
    decreases |bits|
  {
    if bits == [] {
    } else {
      var first := StuffOne(bits[0], s.ones);
      OneOutside(s, bits[0]);
      RunBitsAppend(s, first, Stuff(bits[1..], OnesAfter(bits[0], s.ones)));
      DataOutside(RunBits(s, first), bits[1..]);
    }
  }

  lemma OneOutside(s: Link, bit: bool)
    requires !s.inFrame && s.ones < 5
    ensures var t := RunBits(s, StuffOne(bit, s.ones));
            !t.inFrame && t.ones == OnesAfter(bit, s.ones) && t.frameBits == s.frameBits && t.frames == s.frames
            && t.prevRaw == s.prevRaw
  {
    hide FrameOf, Ones;
    if bit && s.ones == 4 {
      assert [true, false][1..] == [false] + [];
      RunZeroBit(BitStep(s, true), []);
    }
  }

  // A frame aborted at any point delivers nothing, whatever follows up to the next flag.
  lemma AbortedFrameLost(s: Link, data: Bits, n: nat, more: Bits)
    requires Synced(s) && 7 <= n < U32 - 5
    ensures var t := RunBits(s, Stuff(data, 0) + (Ones(n) + [false]) + Stuff(more, 0) + FLAG);
            Synced(t) && t.frames == s.frames
  {
    hide FrameOf, Stuff;
    assert [] + data == data;
    DestuffsData(s, [], data);
    var t := RunBits(s, Stuff(data, 0));
    RunBitsAppend(s, Stuff(data, 0), Ones(n) + [false]);
    AbortDropsFrame(t, n);
    var u := RunBits(t, Ones(n) + [false]);
    RunBitsAppend(s, Stuff(data, 0) + (Ones(n) + [false]), Stuff(more, 0));
    DataOutside(u, more);
    RunBitsAppend(s, Stuff(data, 0) + (Ones(n) + [false]) + Stuff(more, 0), FLAG);
    FlagOutside(RunBits(u, Stuff(more, 0)));
  }

  lemma FlagOutside(s: Link)
    requires !s.inFrame && s.ones < 5
    ensures Synced(RunBits(s, FLAG)) && RunBits(s, FLAG).frames == s.frames
  {
    RunFlag(s);
  }

  // ---- what the receiver makes of a transmission --------------------------------------------

  lemma FcsChecks(payload: seq<u8>)
    ensures CrcOk(WithFcs(payload))
  {
    var all, n := WithFcs(payload), |payload|;
    assert all[..n] == payload && FromLeBytes(all[n], all[n + 1]) == Fcs(payload);
  }

  // Of any bytes between two flags the receiver makes a frame, if there are at least three, and
  // drops up to seven bits behind them. The closing flag's own zero is always such a bit.
  lemma BytesReceived(bytes: seq<u8>, rest: Bits)
    requires |rest| < 8
    ensures FrameOf(Serial(bytes) + rest)
            == if |bytes| < 3 then None else Some(RawFrame(bytes[..|bytes| - 2], Serial(bytes), CrcOk(bytes)))
  {
    hide Bytes, CrcOk, Serial, FrameOf;
    var data := Serial(bytes);
    RestDropped(|bytes|, |rest|);
    FrontBits(data, rest);
    FrameOfWhole(data + rest, data);
    assert data + [] == data;
    BytesOfSerial(bytes, []);
  }

  lemma FrameOfWhole(collected: Bits, data: Bits)
    requires |data| == |collected| - |collected| % 8 && collected[..|data|] == data
    ensures FrameOf(collected)
            == if |data| < 24 then None
               else Some(RawFrame(Bytes(data)[..|Bytes(data)| - 2], data, CrcOk(Bytes(data))))
  {
    hide Bytes, CrcOk;
  }

  lemma FrontBits(a: Bits, b: Bits)
    ensures (a + b)[..|a|] == a
  {
  }

  lemma RestDropped(n: nat, rest: nat)
    requires rest < 8
    ensures (8 * n + rest) - (8 * n + rest) % 8 == 8 * n
  {
  }

  lemma FrameReceived(payload: seq<u8>)
    ensures FrameOf(Serial(WithFcs(payload)) + [false])
            == if payload == [] then None else Some(RawFrame(payload, Serial(WithFcs(payload)), true))
  {
    hide Fcs, CrcOk, Serial, FrameOf;
    var bytes := WithFcs(payload);
    BytesReceived(bytes, [false]);
    FcsChecks(payload);
    assert bytes[..|payload|] == payload;
  }

  lemma {:induction false} FramesDecoded(s: Link, payloads: seq<seq<u8>>)
    requires Synced(s)
    ensures var t := RunBits(s, Frames(payloads));
            Synced(t) && t.prevRaw == s.prevRaw && t.frames == s.frames + Expected(payloads)
    decreases |payloads|
  {
    if payloads == [] {
      assert s.frames + [] == s.frames;
    } else {
      OneFrameDecoded(s, payloads[0]);
      FramesDecoded(RunBits(s, Encoded(payloads[0])), payloads[1..]);
      OneMoreFrame(s, Encoded(payloads[0]), Frames(payloads[1..]), Receipt(payloads[0]), Expected(payloads[1..]));
    }
  }

  lemma OneMoreFrame(s: Link, head: Bits, tail: Bits, first: seq<RawFrame>, others: seq<RawFrame>)
    requires RunBits(s, head).frames == s.frames + first
    requires RunBits(RunBits(s, head), tail).frames == RunBits(s, head).frames + others
    ensures RunBits(s, head + tail) == RunBits(RunBits(s, head), tail)
    ensures RunBits(s, head + tail).frames == s.frames + (first + others)
  {
    RunBitsAppend(s, head, tail);
    assert s.frames + first + others == s.frames + (first + others);
  }

  lemma OneFrameDecoded(s: Link, payload: seq<u8>)
    requires Synced(s)
    ensures var t := RunBits(s, Encoded(payload));
            Synced(t) && t.prevRaw == s.prevRaw && t.frames == s.frames + Receipt(payload)
  {
    hide FrameOf, OnAir;
    FrameReceived(payload);
    OneOnAir(s, WithFcs(payload));
    assert s.frames + [] == s.frames;
  }

  lemma OneOnAir(s: Link, bytes: seq<u8>)
    requires Synced(s)
    ensures var t := RunBits(s, OnAir(bytes));
            Synced(t) && t.prevRaw == s.prevRaw && t.frames == Add(s.frames, FrameOf(Serial(bytes) + [false]))
  {
    hide FrameOf;
    var data := Serial(bytes);
    assert [] + data == data;
    DestuffsData(s, [], data);
    ClosingFlag(RunBits(s, Stuff(data, 0)), data);
    RunBitsAppend(s, Stuff(data, 0), FLAG);
  }

  // The round trip: an idle decoder recovers every payload, in order, with a good check
  // sequence.
  lemma TransmissionDecoded(s: Link, payloads: seq<seq<u8>>)
    requires s.ones == 0 && (!s.inFrame || s.frameBits == [])
    ensures RunSymbols(s, Nrzi(s.prevRaw, Transmission(payloads))).frames == s.frames + Expected(payloads)
  {
    NrziDecodes(s, Transmission(payloads));
    RunBitsAppend(s, FLAG, Frames(payloads));
    FlagAfterZero(s);
    FramesDecoded(RunBits(s, FLAG), payloads);
  }

  // ---- synchronisation from any state --------------------------------------------------------

  // Two flags on a line of either level bring any decoder into step.
  lemma TwoFlagsSync(s: Link, level: bool)
    ensures var t := RunSymbols(s, Nrzi(level, FLAG + FLAG));
            Synced(t) && t.prevRaw == level
  {
    var bits := FLAG + FLAG;
    var raws := Nrzi(level, bits);
    assert bits[0] == false && bits[1..] == FLAG[1..] + FLAG;
    assert raws[0] == !level && raws[1..] == Nrzi(!level, FLAG[1..] + FLAG);
    var u := SymbolStep(s, !level);
    assert RunSymbols(s, raws) == RunSymbols(u, raws[1..]);
    NrziDecodes(u, FLAG[1..] + FLAG);
    RunBitsAppend(u, FLAG[1..], FLAG);
    SixOnesThenZero(u);
    FlagAfterZero(RunBits(u, FLAG[1..]));
    FlagLevel(level);
  }

  lemma {:induction false} OnesKeepLevel(level: bool, n: nat)
    ensures NrziLevel(level, Ones(n)) == level
    decreases n
  {
    if n == 0 {
    } else {
      assert Ones(n)[1..] == Ones(n - 1);
      OnesKeepLevel(level, n - 1);
    }
  }

  lemma FlagLevel(level: bool)
    ensures NrziLevel(!level, FLAG[1..] + FLAG) == level
    ensures NrziLevel(level, FLAG + FLAG) == level
  {
    assert FLAG[1..] == Ones(6) + [false];
    forall l: bool ensures NrziLevel(l, FLAG[1..]) == !l {
      NrziAppend(l, Ones(6), [false]);
      OnesKeepLevel(l, 6);
    }
    NrziAppend(!level, FLAG[1..], FLAG);
    NrziAppend(level, FLAG, FLAG);
  }

  // Behind two flags, symbols drive any decoder as the bits themselves, from a frame just opened.
  lemma BehindTwoFlags(s: Link, level: bool, bits: Bits)
    ensures var t := RunSymbols(s, Nrzi(level, FLAG + FLAG));
            Synced(t) && RunSymbols(s, Nrzi(level, FLAG + FLAG + bits)).frames == RunBits(t, bits).frames
  {
    var sync := Nrzi(level, FLAG + FLAG);
    NrziAppend(level, FLAG + FLAG, bits);
    FlagLevel(level);
    RunSymbolsAppend(s, sync, Nrzi(level, bits));
    TwoFlagsSync(s, level);
    NrziDecodes(RunSymbols(s, sync), bits);
  }

  // From any decoder state whatever, and for either line polarity, the payloads that
  // follow two flags are received.
  lemma AnyStateDecodes(s: Link, level: bool, payloads: seq<seq<u8>>)
    ensures RunSymbols(s, Nrzi(level, FLAG + FLAG + Frames(payloads))).frames
            == RunSymbols(s, Nrzi(level, FLAG + FLAG)).frames + Expected(payloads)
  {
    BehindTwoFlags(s, level, Frames(payloads));
    FramesDecoded(RunSymbols(s, Nrzi(level, FLAG + FLAG)), payloads);
  }

  function Not(bits: Bits): (r: Bits)
    ensures |r| == |bits|
  {
    seq(|bits|, i requires 0 <= i < |bits| => !bits[i])
  }

  // An inverted line drives the decoder through the same frames, whatever the symbols are.
  lemma {:induction false} PolarityInvisible(s: Link, raws: Bits)
    ensures var t := RunSymbols(s, raws);
            RunSymbols(s.(prevRaw := !s.prevRaw), Not(raws)) == t.(prevRaw := !t.prevRaw)
    decreases |raws|
  {
    if raws == [] {
    } else {
      assert Not(raws)[1..] == Not(raws[1..]);
      var u := SymbolStep(s, raws[0]);
      assert SymbolStep(s.(prevRaw := !s.prevRaw), !raws[0]) == u.(prevRaw := !u.prevRaw);
      PolarityInvisible(u, raws[1..]);
    }
  }

  // Frames already delivered have no influence on later ones.
  lemma {:induction false} EarlierFramesInvisible(s: Link, raws: Bits)
    ensures var t := RunSymbols(s.(frames := []), raws);
            RunSymbols(s, raws) == t.(frames := s.frames + t.frames)
    decreases |raws|, 0
  {
    if raws == [] {
      assert s.frames + [] == s.frames;
    } else {
      StepEarlierFrames(s, raws[0]);
      EarlierFramesCompose(s, SymbolStep(s, raws[0]), SymbolStep(s.(frames := []), raws[0]), raws[1..]);
    }
  }

  lemma {:induction false} EarlierFramesCompose(s: Link, u: Link, v: Link, rest: Bits)
    requires u == v.(frames := s.frames + v.frames)
    ensures var t := RunSymbols(v, rest);
            RunSymbols(u, rest) == t.(frames := s.frames + t.frames)
    decreases |rest|, 1
  {
    EarlierFramesInvisible(u, rest);
    EarlierFramesInvisible(v, rest);
    assert u.(frames := []) == v.(frames := []);
    var t := RunSymbols(v.(frames := []), rest);
    assert s.frames + (v.frames + t.frames) == u.frames + t.frames;
  }

  lemma StepEarlierFrames(s: Link, raw: bool)
    ensures var v := SymbolStep(s.(frames := []), raw);
            SymbolStep(s, raw) == v.(frames := s.frames + v.frames)
  {
    assert s.frames + [] == s.frames;
  }
}
