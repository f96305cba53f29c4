// The two AIS messages that carry text: static data (message 5) and the extended class B
// report (message 19), at the layouts of ITU-R M.1371-5 Annex 8.
module AisStatic {
  import opened Basics
  import opened Words
  import opened AisLink
  import opened AisFields

  // A text that fits into `size` six-bit characters.
  predicate FitsText(text: string, size: nat) {
    |text| <= size && forall c :: c in text ==> SixbitWritable(c)
  }

  function Text(text: string, size: nat): (r: Bits)
    requires FitsText(text, size)
    ensures |r| == 6 * size
  {
    TextField(text, size - |text|)
  }

  lemma PrefixRead(a: Bits, b: Bits, at: nat, n: nat)
    requires at + n <= |a|
    ensures UintAt(a + b, at, n) == UintAt(a, at, n) && IntAt(a + b, at, n) == IntAt(a, at, n)
  {
    assert (a + b)[at..at + n] == a[at..at + n];
  }

  // A text field anywhere in a message.
  lemma TextAt(bits: Bits, before: Bits, text: string, size: nat, after: Bits)
    requires FitsText(text, size) && bits == before + Text(text, size) + after
    ensures SixbitText(bits, |before|, 6 * size) == Trimmed(text)
  {
    TextFieldReadBack(before, text, size - |text|, after);
  }

  // ---- message 5 ------------------------------------------------------------------------

  datatype StaticData = StaticData(
    repeatIndicator: nat, mmsi: nat, version: nat, imo: nat, callsign: string, name: string,
    shipType: nat, dimensions: nat, fixType: nat, eta: nat, draught: nat, destination: string, last: nat)

  predicate IsStatic(s: StaticData) {
    && s.repeatIndicator < 4 && s.mmsi < 0x4000_0000
    && FitsText(s.callsign, 7) && FitsText(s.name, 20) && FitsText(s.destination, 20)
  }

  function StaticHead(s: StaticData): seq<Field> {
    [Field(5, 6), Field(s.repeatIndicator, 2), Field(s.mmsi, 30), Field(s.version, 2), Field(s.imo, 30)]
  }

  function StaticMiddle(s: StaticData): seq<Field> {
    [Field(s.shipType, 8), Field(s.dimensions, 30), Field(s.fixType, 4), Field(s.eta, 20), Field(s.draught, 8)]
  }

  function StaticBits(s: StaticData): Bits
    requires IsStatic(s)
  {
    Encode(StaticHead(s)) + Text(s.callsign, 7) + Text(s.name, 20) + Encode(StaticMiddle(s)) + Text(s.destination, 20)
    + Encode([Field(s.last, 2)])
  }

  lemma StaticLengths(s: StaticData)
    ensures |Encode(StaticHead(s))| == 70 && |Encode(StaticMiddle(s))| == 70 && |Encode([Field(s.last, 2)])| == 2
    ensures Offset(StaticHead(s), 1) == 6 && Offset(StaticHead(s), 2) == 8
  {
    EncodeLength(StaticHead(s));
    EncodeLength(StaticMiddle(s));
    EncodeLength([Field(s.last, 2)]);
    var h, m := StaticHead(s), StaticMiddle(s);
    assert Offset(h, 1) == 6 && Offset(h, 2) == 8 && Offset(h, 3) == 38 && Offset(h, 4) == 40;
    assert Offset(m, 1) == 8 && Offset(m, 2) == 38 && Offset(m, 3) == 42 && Offset(m, 4) == 62;
    assert Offset([Field(s.last, 2)], 1) == 2;
  }

  lemma SixParts(a: Bits, b: Bits, c: Bits, d: Bits, e: Bits, f: Bits)
    ensures var bits := a + b + c + d + e + f;
            && bits == a + (b + c + d + e + f)
            && bits == a + b + (c + d + e + f)
            && bits == (a + b) + c + (d + e + f)
            && bits == (a + b + c + d) + e + f
  {
  }

  // What a receiver must report for static data of which so many bits have arrived: the texts
  // that are there, without the spaces around them.
  function StaticExpectation(s: StaticData, channel: string, bitLen: nat, rawBytes: seq<u8>): AisMessage {
    var n := 8 * |rawBytes|;
    AisMessage(channel, 5, s.repeatIndicator, s.mmsi, true, bitLen, rawBytes, None, None, None, None, None, None,
               if n >= 232 then Trimmed(s.name) else None,
               if n >= 112 then Trimmed(s.callsign) else None,
               if n >= 422 then Trimmed(s.destination) else None)
  }

  lemma StaticFieldsRead(s: StaticData, bits: Bits)
    requires IsStatic(s) && bits == StaticBits(s)
    ensures |bits| == 424
    ensures UintAt(bits, 0, 6) == Some(5) && UintAt(bits, 6, 2) == Some(s.repeatIndicator)
            && UintAt(bits, 8, 30) == Some(s.mmsi)
    ensures SixbitText(bits, 70, 42) == Trimmed(s.callsign)
    ensures SixbitText(bits, 112, 120) == Trimmed(s.name)
    ensures SixbitText(bits, 302, 120) == Trimmed(s.destination)
  {
    hide Encode, Text, SixbitText, UintAt, IntAt, Trimmed;
    var head, middle, last := Encode(StaticHead(s)), Encode(StaticMiddle(s)), Encode([Field(s.last, 2)]);
    var callsign, name, destination := Text(s.callsign, 7), Text(s.name, 20), Text(s.destination, 20);
    StaticLengths(s);
    SmallPowers();
    SixParts(head, callsign, name, middle, destination, last);
    FieldRead(StaticHead(s), 0);
    FieldRead(StaticHead(s), 1);
    FieldRead(StaticHead(s), 2);
    var behind := callsign + name + middle + destination + last;
    PrefixRead(head, behind, 0, 6);
    PrefixRead(head, behind, 6, 2);
    PrefixRead(head, behind, 8, 30);
    TextAt(bits, head, s.callsign, 7, name + middle + destination + last);
    TextAt(bits, head + callsign, s.name, 20, middle + destination + last);
    TextAt(bits, head + callsign + name + middle, s.destination, 20, last);
  }

  // Static data comes back: identity, callsign, name and destination; of a message that breaks
  // off what is there, and whatever follows one does not matter.
  lemma StaticReadFrom(s: StaticData, frame: RawFrame, channel: string)
    requires IsStatic(s) && frame.crcOk && |frame.payload| >= 5
    requires var n := 8 * |frame.payload|; Agree(MsbBits(frame.payload), StaticBits(s), if n < 422 then n else 422)
    ensures ParseFrame(frame, channel) == Some(StaticExpectation(s, channel, |frame.bits|, frame.payload))
  {
    hide StaticBits, UintAt, SixbitText, Trimmed, MsbBits, Pack, Agree;
    var bits, sent := MsbBits(frame.payload), StaticBits(s);
    var n := if |bits| < 422 then |bits| else 422;
    StaticFieldsRead(s, sent);
    AgreeAt(bits, sent, n, 0, 6);
    AgreeAt(bits, sent, n, 6, 2);
    AgreeAt(bits, sent, n, 8, 30);
    StaticText(bits, sent, n, 70, 42);
    StaticText(bits, sent, n, 112, 120);
    StaticText(bits, sent, n, 302, 120);
  }

  lemma StaticText(bits: Bits, sent: Bits, n: nat, at: nat, len: nat)
    requires Agree(bits, sent, n) && (n == |bits| || at + len <= n)
    ensures SixbitText(bits, at, len) == if at + len <= n then SixbitText(sent, at, len) else None
  {
    if at + len <= n {
      AgreeAt(bits, sent, n, at, len);
    }
  }

  lemma StaticReadBack(s: StaticData, channel: string, wire: Bits)
    requires IsStatic(s)
    ensures var payload := Pack(StaticBits(s));
            && |payload| == 53
            && ParseFrame(RawFrame(payload, wire, true), channel)
               == Some(StaticExpectation(s, channel, |wire|, payload))
  {
    hide StaticBits, UintAt, SixbitText, Trimmed, MsbBits, Pack;
    var bits := StaticBits(s);
    StaticFieldsRead(s, bits);
    PackUnpacks(bits);
    StaticReadFrom(s, RawFrame(Pack(bits), wire, true), channel);
  }

  // ---- message 19 ------------------------------------------------------------------------

  datatype Extended = Extended(
    repeatIndicator: nat, mmsi: nat, reserved: nat, sog: nat, accuracy: nat, lon: int, lat: int, cog: nat, hdg: nat,
    second: nat, name: string, rest: nat)

  predicate IsExtended(x: Extended) {
    && x.repeatIndicator < 4 && x.mmsi < 0x4000_0000 && x.sog < 1024 && x.cog < 4096 && x.hdg < 512
    && -0x800_0000 <= x.lon < 0x800_0000 && -0x400_0000 <= x.lat < 0x400_0000
    && FitsText(x.name, 20)
  }

  function ExtendedHead(x: Extended): seq<Field> {
    [Field(19, 6), Field(x.repeatIndicator, 2), Field(x.mmsi, 30), Field(x.reserved, 8), Field(x.sog, 10),
     Field(x.accuracy, 1),
     Field(x.lon, 28), Field(x.lat, 27), Field(x.cog, 12), Field(x.hdg, 9), Field(x.second, 10)]
  }

  function ExtendedBits(x: Extended): Bits
    requires IsExtended(x)
  {
    Encode(ExtendedHead(x)) + Text(x.name, 20) + Encode([Field(x.rest, 49)])
  }

  lemma ExtendedOffsets(x: Extended)
    ensures var f := ExtendedHead(x);
            && Offset(f, 1) == 6 && Offset(f, 2) == 8 && Offset(f, 4) == 46 && Offset(f, 6) == 57 && Offset(f, 7) == 85
            && Offset(f, 8) == 112 && Offset(f, 9) == 124 && |Encode(f)| == 143
    ensures |Encode([Field(x.rest, 49)])| == 49
  {
    var f := ExtendedHead(x);
    EncodeLength(f);
    EncodeLength([Field(x.rest, 49)]);
    assert Offset(f, 1) == 6 && Offset(f, 2) == 8 && Offset(f, 3) == 38 && Offset(f, 4) == 46;
    assert Offset(f, 5) == 56 && Offset(f, 6) == 57 && Offset(f, 7) == 85 && Offset(f, 8) == 112;
    assert Offset(f, 9) == 124 && Offset(f, 10) == 133 && Offset(f, 11) == 143;
    assert Offset([Field(x.rest, 49)], 1) == 49;
  }

  function ExtendedExpectation(x: Extended, channel: string, bitLen: nat, rawBytes: seq<u8>): AisMessage {
    AisMessage(channel, 19, x.repeatIndicator, x.mmsi, true, bitLen, rawBytes,
               if -54_600_000 < x.lat < 54_600_000 then Some(x.lat as real / 600_000.0) else None,
               if -108_600_000 < x.lon < 108_600_000 then Some(x.lon as real / 600_000.0) else None,
               if x.sog == 1023 then None else Some(x.sog as real / 10.0),
               if x.cog == 3600 then None else Some(x.cog as real / 10.0),
               if x.hdg < 360 then Some(x.hdg) else None,
               None, if 8 * |rawBytes| >= 263 then Trimmed(x.name) else None, None, None)
  }

  lemma ExtendedHeadRead(x: Extended, head: Bits)
    requires IsExtended(x) && head == Encode(ExtendedHead(x))
    ensures UintAt(head, 0, 6) == Some(19) && UintAt(head, 6, 2) == Some(x.repeatIndicator)
            && UintAt(head, 8, 30) == Some(x.mmsi)
    ensures UintAt(head, 46, 10) == Some(x.sog) && IntAt(head, 57, 28) == Some(x.lon)
            && IntAt(head, 85, 27) == Some(x.lat)
    ensures UintAt(head, 112, 12) == Some(x.cog) && UintAt(head, 124, 9) == Some(x.hdg)
  {
    hide Encode, UintAt, IntAt;
    var f := ExtendedHead(x);
    ExtendedOffsets(x);
    SmallPowers();
    FieldRead(f, 0);
    FieldRead(f, 1);
    FieldRead(f, 2);
    FieldRead(f, 4);
    FieldRead(f, 6);
    FieldRead(f, 7);
    FieldRead(f, 8);
    FieldRead(f, 9);
  }

  lemma ExtendedFieldsRead(x: Extended, bits: Bits)
    requires IsExtended(x) && bits == ExtendedBits(x)
    ensures |bits| == 312
    ensures UintAt(bits, 0, 6) == Some(19) && UintAt(bits, 6, 2) == Some(x.repeatIndicator)
            && UintAt(bits, 8, 30) == Some(x.mmsi)
    ensures UintAt(bits, 46, 10) == Some(x.sog) && IntAt(bits, 57, 28) == Some(x.lon)
            && IntAt(bits, 85, 27) == Some(x.lat)
    ensures UintAt(bits, 112, 12) == Some(x.cog) && UintAt(bits, 124, 9) == Some(x.hdg)
    ensures SixbitText(bits, 143, 120) == Trimmed(x.name)
  {
    hide Encode, Text, SixbitText, UintAt, IntAt, Trimmed;
    var head, name, last := Encode(ExtendedHead(x)), Text(x.name, 20), Encode([Field(x.rest, 49)]);
    ExtendedOffsets(x);
    ExtendedHeadRead(x, head);
    assert bits == head + (name + last);
    PrefixRead(head, name + last, 0, 6);
    PrefixRead(head, name + last, 6, 2);
    PrefixRead(head, name + last, 8, 30);
    PrefixRead(head, name + last, 46, 10);
    PrefixRead(head, name + last, 57, 28);
    PrefixRead(head, name + last, 85, 27);
    PrefixRead(head, name + last, 112, 12);
    PrefixRead(head, name + last, 124, 9);
    TextAt(bits, head, x.name, 20, last);
  }

  // An extended report comes back, position and name; the name only if it is there in full.
  lemma ExtendedReadFrom(x: Extended, frame: RawFrame, channel: string)
    requires IsExtended(x) && frame.crcOk && 8 * |frame.payload| >= 133
    requires var n := 8 * |frame.payload|; Agree(MsbBits(frame.payload), ExtendedBits(x), if n < 263 then n else 263)
    ensures ParseFrame(frame, channel) == Some(ExtendedExpectation(x, channel, |frame.bits|, frame.payload))
  {
    hide ExtendedBits, UintAt, IntAt, SixbitText, Trimmed, MsbBits, Pack, DecodeCoord, Agree;
    var bits, sent := MsbBits(frame.payload), ExtendedBits(x);
    var n := if |bits| < 263 then |bits| else 263;
    ExtendedFieldsRead(x, sent);
    AgreeAt(bits, sent, n, 0, 6);
    AgreeAt(bits, sent, n, 6, 2);
    AgreeAt(bits, sent, n, 8, 30);
    AgreeAt(bits, sent, n, 46, 10);
    AgreeAt(bits, sent, n, 57, 28);
    AgreeAt(bits, sent, n, 85, 27);
    AgreeAt(bits, sent, n, 112, 12);
    AgreeAt(bits, sent, n, 124, 9);
    StaticText(bits, sent, n, 143, 120);
    CoordinateLimits(x.lat, 54_600_000, 91.0);
    CoordinateLimits(x.lon, 108_600_000, 181.0);
  }

  lemma ExtendedReadBack(x: Extended, channel: string, wire: Bits)
    requires IsExtended(x)
    ensures var payload := Pack(ExtendedBits(x));
            && |payload| == 39
            && ParseFrame(RawFrame(payload, wire, true), channel)
               == Some(ExtendedExpectation(x, channel, |wire|, payload))
  {
    hide ExtendedBits, UintAt, IntAt, SixbitText, Trimmed, MsbBits, Pack, DecodeCoord;
    var bits := ExtendedBits(x);
    ExtendedFieldsRead(x, bits);
    PackUnpacks(bits);
    ExtendedReadFrom(x, RawFrame(Pack(bits), wire, true), channel);
  }
}
