// The PSK Reporter uplink (src/trx-reporting/src/pskreporter.rs): the packet it builds by
// hand, read back by a collector that knows only RFC 7011 and the two templates.
module PskReporter {
  import opened Basics
  import opened Octets
  import opened Ipfix

  // ---- what is reported ---------------------------------------------------------------

  // A 32-bit float; strings are their UTF-8 octets.
  datatype Float = Finite(value: real) | Infinite(negative: bool) | NotANumber

  datatype Spot = Spot(senderCallsign: Octets, senderLocator: Option<Octets>, mode: Octets, snrDb: Float,
                       absFreqHz: nat, flowStartSeconds: u32)

  datatype Station = Station(callsign: Octets, locator: Octets, software: Octets)

  // Rounds half away from zero.
  function Round(x: real): (r: int)
    ensures if x >= 0.0 then r as real - 0.5 <= x < r as real + 0.5 else r as real - 0.5 < x <= r as real + 0.5
  {
    if x >= 0.0 then (x + 0.5).Floor else -((0.5 - x).Floor)
  }

  function Clamp(x: int, lo: int, hi: int): int {
    if x < lo then lo else if x > hi then hi else x
  }

  // `round().clamp(-128.0, 127.0) as i8`; not-a-number becomes 0.
  function Snr(db: Float): (r: int)
    ensures -128 <= r <= 127
  {
    match db
    case Finite(x) => Clamp(Round(x), -128, 127)
    case Infinite(negative) => if negative then -128 else 127
    case NotANumber => 0
  }

  function Freq(hz: nat): u32 {
    if hz < U32 then hz else U32 - 1
  }

  function Locator(spot: Spot): Octets {
    if spot.senderLocator.Some? then spot.senderLocator.value else []
  }

  // ---- templates ------------------------------------------------------------------------

  const RECEIVER_FLOWSET: u16 := 0x9992
  const SENDER_FLOWSET: u16 := 0x9993

  function Element(id: u15, length: u16): FieldSpec {
    FieldSpec(Some(30351), id, length)
  }

  function ReceiverSpecs(): seq<FieldSpec> {
    [Element(2, VARIABLE), Element(4, VARIABLE), Element(8, VARIABLE)]
  }

  function SenderSpecs(): seq<FieldSpec> {
    [Element(1, VARIABLE), Element(5, 4), Element(6, 1), Element(7, 1), Element(10, VARIABLE), Element(11, 1),
     Element(3, VARIABLE), FieldSpec(None, 150, 4)]
  }

  function Join(rows: seq<Octets>): Octets {
    if rows == [] then [] else rows[0] + Join(rows[1..])
  }

  // The template octets, row by row as the program has them.
  function ReceiverRows(): seq<Octets> {
    [[0x80, 0x02, 0xFF, 0xFF, 0x00, 0x00, 0x76, 0x8F],
     [0x80, 0x04, 0xFF, 0xFF, 0x00, 0x00, 0x76, 0x8F],
     [0x80, 0x08, 0xFF, 0xFF, 0x00, 0x00, 0x76, 0x8F]]
  }

  function SenderRows(): seq<Octets> {
    [[0x80, 0x01, 0xFF, 0xFF, 0x00, 0x00, 0x76, 0x8F],
     [0x80, 0x05, 0x00, 0x04, 0x00, 0x00, 0x76, 0x8F],
     [0x80, 0x06, 0x00, 0x01, 0x00, 0x00, 0x76, 0x8F],
     [0x80, 0x07, 0x00, 0x01, 0x00, 0x00, 0x76, 0x8F],
     [0x80, 0x0A, 0xFF, 0xFF, 0x00, 0x00, 0x76, 0x8F],
     [0x80, 0x0B, 0x00, 0x01, 0x00, 0x00, 0x76, 0x8F],
     [0x80, 0x03, 0xFF, 0xFF, 0x00, 0x00, 0x76, 0x8F],
     [0x00, 0x96, 0x00, 0x04]]
  }

  function ReceiverTemplate(): Octets {
    [0x00, 0x03, 0x00, 0x24] + ([0x99, 0x92, 0x00, 0x03, 0x00, 0x01] + (Join(ReceiverRows()) + [0x00, 0x00]))
  }

  function SenderTemplate(): Octets {
    [0x00, 0x02, 0x00, 0x44] + ([0x99, 0x93, 0x00, 0x08] + Join(SenderRows()))
  }

  ghost predicate RowsOf(rows: seq<Octets>, specs: seq<FieldSpec>) {
    |rows| == |specs| && forall i :: 0 <= i < |specs| ==> EncodeSpec(specs[i]) == rows[i]
  }

  lemma {:induction false} RowsJoined(rows: seq<Octets>, specs: seq<FieldSpec>)
    requires RowsOf(rows, specs)
    ensures EncodeSpecs(specs) == Join(rows)
  {
    if specs == [] {
    } else {
      RowsJoined(rows[1..], specs[1..]);
    }
  }

  lemma {:induction false} SpecsLength(specs: seq<FieldSpec>)
    ensures (forall f :: f in specs ==> f.enterprise.Some?) ==> |EncodeSpecs(specs)| == 8 * |specs|
    ensures |specs| > 0 && specs[|specs| - 1].enterprise.None?
            && (forall f :: f in specs[..|specs| - 1] ==> f.enterprise.Some?)
            ==> |EncodeSpecs(specs)| == 8 * |specs| - 4
  {
    if specs == [] {
    } else {
      SpecsLength(specs[1..]);
      assert |specs| > 1 ==> specs[1..][..|specs| - 2] == specs[..|specs| - 1][1..];
      assert |EncodeSpec(specs[0])| == if specs[0].enterprise.Some? then 8 else 4;
    }
  }

  lemma ElementOctets(id: u15, length: u16)
    requires id < 256
    ensures EncodeSpec(Element(id, length)) == [0x80, id, length / 256, length % 256, 0x00, 0x00, 0x76, 0x8F]
  {
    assert Be16(0x8000 + id) == [0x80, id];
    assert Be32(30351) == [0x00, 0x00, 0x76, 0x8F];
  }

  lemma StandardElement(id: u15, length: u16)
    requires id < 256
    ensures EncodeSpec(FieldSpec(None, id, length)) == [0, id, length / 256, length % 256]
  {
  }

  lemma TwoNumbers(a: u16, b: u16, rest: Octets)
    ensures Be16(a) + (Be16(b) + rest) == [a / 256, a % 256, b / 256, b % 256] + rest
  {
  }

  lemma ThreeNumbers(a: u16, b: u16, c: u16, rest: Octets)
    ensures Be16(a) + (Be16(b) + (Be16(c) + rest)) == [a / 256, a % 256, b / 256, b % 256, c / 256, c % 256] + rest
  {
  }

  // The octets are an options template set for the receiver and a template set for the
  // senders.
  lemma ReceiverTemplateIs()
    ensures |EncodeSpecs(ReceiverSpecs())| == 24 && |ReceiverTemplate()| == 36
    ensures ReceiverTemplate() == SetOf(3, EncodeOptionsTemplate(RECEIVER_FLOWSET, 1, ReceiverSpecs()) + [0, 0])
  {
    hide Be16, Be32, EncodeSpec, EncodeOptionsTemplate, SetOf, EncodeSpecs, Join;
    var s := ReceiverSpecs();
    ElementOctets(2, VARIABLE);
    ElementOctets(4, VARIABLE);
    ElementOctets(8, VARIABLE);
    RowsJoined(ReceiverRows(), s);
    SpecsLength(s);
    ReceiverSetOctets(s);
  }

  lemma ReceiverSetOctets(s: seq<FieldSpec>)
    requires |s| == 3 && |EncodeSpecs(s)| == 24
    ensures SetOf(3, EncodeOptionsTemplate(RECEIVER_FLOWSET, 1, s) + [0, 0])
            == [0x00, 0x03, 0x00, 0x24] + ([0x99, 0x92, 0x00, 0x03, 0x00, 0x01] + (EncodeSpecs(s) + [0, 0]))
  {
    OptionsOctets(s, EncodeSpecs(s));
    TwoNumbers(3, 36, EncodeOptionsTemplate(RECEIVER_FLOWSET, 1, s) + [0, 0]);
  }

  lemma OptionsOctets(s: seq<FieldSpec>, specs: Octets)
    requires |s| == 3 && specs == EncodeSpecs(s)
    ensures EncodeOptionsTemplate(RECEIVER_FLOWSET, 1, s) + [0, 0]
            == [0x99, 0x92, 0x00, 0x03, 0x00, 0x01] + (specs + [0, 0])
  {
    ThreeNumbers(0x9992, 3, 1, specs + [0, 0]);
    Regroup(Be16(0x9992), Be16(3), Be16(1), specs, [0, 0]);
  }

  lemma Regroup(a: Octets, b: Octets, c: Octets, d: Octets, e: Octets)
    ensures (a + (b + (c + d))) + e == a + (b + (c + (d + e)))
  {
  }

  lemma SenderTemplateIs()
    ensures |EncodeSpecs(SenderSpecs())| == 60 && |SenderTemplate()| == 68
    ensures SenderTemplate() == SetOf(2, EncodeTemplate(SENDER_FLOWSET, SenderSpecs()))
  {
    hide Be16, Be32, EncodeSpec, EncodeTemplate, SetOf, EncodeSpecs, Join;
    SenderElements();
    RowsJoined(SenderRows(), SenderSpecs());
    SpecsLength(SenderSpecs());
    SenderSetOctets(SenderSpecs());
  }

  lemma SenderSetOctets(s: seq<FieldSpec>)
    requires |s| == 8 && |EncodeSpecs(s)| == 60
    ensures SetOf(2, EncodeTemplate(SENDER_FLOWSET, s))
            == [0x00, 0x02, 0x00, 0x44] + ([0x99, 0x93, 0x00, 0x08] + EncodeSpecs(s))
  {
    TwoNumbers(0x9993, 8, EncodeSpecs(s));
    TwoNumbers(2, 68, EncodeTemplate(SENDER_FLOWSET, s));
  }

  lemma SenderElements()
    ensures var s := SenderSpecs();
            forall i :: 0 <= i < 8 ==> EncodeSpec(s[i]) == SenderRows()[i]
  {
    hide EncodeSpec;
    StandardElement(150, 4);
    ElementOctets(1, VARIABLE);
    ElementOctets(5, 4);
    ElementOctets(6, 1);
    ElementOctets(7, 1);
    ElementOctets(10, VARIABLE);
    ElementOctets(11, 1);
    ElementOctets(3, VARIABLE);
  }

  // ---- the packet ------------------------------------------------------------------------

  datatype Error = StringTooLong(value: Octets) | PacketTooLarge | SendFailed

  // The strings in the order in which they are written.
  function SpotStrings(spot: Spot): seq<Octets> {
    [spot.senderCallsign, spot.mode, Locator(spot)]
  }

  function SpotsStrings(spots: seq<Spot>): seq<Octets> {
    if spots == [] then [] else SpotStrings(spots[0]) + SpotsStrings(spots[1..])
  }

  function Strings(station: Station, spots: seq<Spot>): seq<Octets> {
    [station.callsign, station.locator, station.software] + SpotsStrings(spots)
  }

  // The first string that does not fit into a field.
  function FirstTooLong(strings: seq<Octets>): (r: Option<Octets>)
    ensures r.None? <==> forall s :: s in strings ==> |s| <= 254
    ensures r.Some? ==> exists k :: 0 <= k < |strings| && strings[k] == r.value && |r.value| > 254
                                    && forall j :: 0 <= j < k ==> |strings[j]| <= 254
  {
    if strings == [] then None
    else if |strings[0]| > 254 then Some(strings[0])
    else FirstTooLong(strings[1..])
  }

  function Prefixed(value: Octets): Octets
    requires |value| <= 254
  {
    [|value|] + value
  }

  function Padding(n: nat): Octets {
    if n % 4 == 0 then [] else seq(4 - n % 4, _ => 0)
  }

  function Padded(data: Octets): (r: Octets)
    ensures |r| % 4 == 0
  {
    data + Padding(|data|)
  }

  predicate Writable(spot: Spot) {
    |spot.senderCallsign| <= 254 && |spot.mode| <= 254 && |Locator(spot)| <= 254
  }

  // One spot, field by field in the order of the sender template. There is no reading for
  // the intermodulation field, and the information source is 1: extracted automatically.
  function SpotRows(spot: Spot): seq<Octets>
    requires Writable(spot)
  {
    [Prefixed(spot.senderCallsign), Be32(Freq(spot.absFreqHz)), [Snr(spot.snrDb) % 256], [0], Prefixed(spot.mode), [1],
     Prefixed(Locator(spot)), Be32(spot.flowStartSeconds)]
  }

  function SpotData(spot: Spot): Octets
    requires Writable(spot)
  {
    Join(SpotRows(spot))
  }

  function SpotsData(spots: seq<Spot>): Octets
    requires forall s :: s in spots ==> Writable(s)
  {
    if spots == [] then [] else SpotData(spots[0]) + SpotsData(spots[1..])
  }

  // A set header whose length is cut to sixteen bits.
  function CutSet(id: u16, data: Octets): Octets {
    Be16(id) + Be16((|data| + 4) % U16) + data
  }

  predicate AllWritable(station: Station, spots: seq<Spot>) {
    && |station.callsign| <= 254 && |station.locator| <= 254 && |station.software| <= 254
    && forall s :: s in spots ==> Writable(s)
  }

  lemma {:induction false} FirstTooLongAppend(a: seq<Octets>, b: seq<Octets>)
    ensures FirstTooLong(a + b) == if FirstTooLong(a).Some? then FirstTooLong(a) else FirstTooLong(b)
  {
    if a == [] {
      assert a + b == b;
    } else {
      assert (a + b)[1..] == a[1..] + b;
      FirstTooLongAppend(a[1..], b);
    }
  }

  lemma ThreeStrings(a: Octets, b: Octets, c: Octets)
    ensures FirstTooLong([a, b, c])
            == if |a| > 254 then Some(a) else if |b| > 254 then Some(b) else if |c| > 254 then Some(c) else None
  {
    assert [a, b, c][1..] == [b, c] && [b, c][1..] == [c] && [c][1..] == [];
    assert FirstTooLong([c]) == if |c| > 254 then Some(c) else None;
    assert FirstTooLong([b, c]) == if |b| > 254 then Some(b) else FirstTooLong([c]);
  }

  lemma {:induction false} WritableStrings(spots: seq<Spot>)
    ensures FirstTooLong(SpotsStrings(spots)).None? <==> forall s :: s in spots ==> Writable(s)
  {
    if spots == [] {
    } else {
      var s := spots[0];
      WritableStrings(spots[1..]);
      FirstTooLongAppend(SpotStrings(s), SpotsStrings(spots[1..]));
      ThreeStrings(s.senderCallsign, s.mode, Locator(s));
      assert spots == [s] + spots[1..];
      assert FirstTooLong(SpotStrings(s)).None? <==> Writable(s);
      assert SpotsStrings(spots) == SpotStrings(s) + SpotsStrings(spots[1..]);
      assert FirstTooLong(SpotsStrings(spots)).None? <==> Writable(s) && FirstTooLong(SpotsStrings(spots[1..])).None?;
    }
  }

  // Nothing is too long exactly when everything can be written.
  lemma AllWritableIsShort(station: Station, spots: seq<Spot>)
    ensures FirstTooLong(Strings(station, spots)).None? <==> AllWritable(station, spots)
  {
    FirstTooLongAppend([station.callsign, station.locator, station.software], SpotsStrings(spots));
    ThreeStrings(station.callsign, station.locator, station.software);
    WritableStrings(spots);
  }

  function TemplateOctets(withTemplates: bool): Octets {
    if withTemplates then ReceiverTemplate() + SenderTemplate() else []
  }

  // Everything behind the message header.
  function Body(station: Station, spots: seq<Spot>, withTemplates: bool): Octets
    requires AllWritable(station, spots)
  {
    TemplateOctets(withTemplates)
    + CutSet(RECEIVER_FLOWSET,
             Padded(Prefixed(station.callsign) + Prefixed(station.locator) + Prefixed(station.software)))
    + CutSet(SENDER_FLOWSET, Padded(SpotsData(spots)))
  }

  function Packet(station: Station, now: u32, sequence: u32, session: u32, spots: seq<Spot>,
                  withTemplates: bool): Result<Octets, Error> {
    var long := FirstTooLong(Strings(station, spots));
    if long.Some? then Err(StringTooLong(long.value))
    else
      AllWritableIsShort(station, spots);
      var body := Body(station, spots, withTemplates);
      if 16 + |body| >= U16 then Err(PacketTooLarge)
      else Ok(Header(16 + |body|, now, sequence, session) + body)
  }

  // ---- building it ------------------------------------------------------------------------

  method PushPrefixedString(buf: Octets, value: Octets) returns (r: Result<Octets, Error>)
    ensures r == if |value| > 254 then Err(StringTooLong(value)) else Ok(buf + Prefixed(value))
  {
    if |value| > 254 {
      return Err(StringTooLong(value));
    }
    r := Ok(buf + [|value|] + value);
    assert buf + [|value|] + value == buf + Prefixed(value);
  }

  method PadTo4(buf: Octets) returns (r: Octets)
    ensures r == Padded(buf)
  {
    r := buf;
    var rem := |buf| % 4;
    if rem != 0 {
      r := r + seq(4 - rem, _ => 0);
    }
  }

  lemma JoinNext(front: Octets, rows: seq<Octets>, k: nat)
    requires k < |rows|
    ensures front + Join(rows[k..]) == (front + rows[k]) + Join(rows[k + 1..])
  {
    assert rows[k..][1..] == rows[k + 1..];
    Assoc(front, rows[k], Join(rows[k + 1..]));
  }

  lemma JoinDone(front: Octets, rows: seq<Octets>)
    ensures front + Join(rows[|rows|..]) == front
  {
  }

  method PushSpot(buf: Octets, spot: Spot) returns (r: Result<Octets, Error>)
    ensures FirstTooLong(SpotStrings(spot)).Some? ==> r == Err(StringTooLong(FirstTooLong(SpotStrings(spot)).value))
    ensures FirstTooLong(SpotStrings(spot)).None? ==> Writable(spot) && r == Ok(buf + SpotData(spot))
  {
    ThreeStrings(spot.senderCallsign, spot.mode, Locator(spot));
    var callsign := PushPrefixedString(buf, spot.senderCallsign);
    if callsign.Err? {
      return Err(callsign.error);
    }
    var front := callsign.value + Be32(Freq(spot.absFreqHz)) + [Snr(spot.snrDb) % 256] + [0];
    var mode := PushPrefixedString(front, spot.mode);
    if mode.Err? {
      return Err(mode.error);
    }
    var locator := PushPrefixedString(mode.value + [1], Locator(spot));
    if locator.Err? {
      return Err(locator.error);
    }
    r := Ok(locator.value + Be32(spot.flowStartSeconds));
    SpotInOrder(buf, SpotRows(spot));
  }

  lemma SpotInOrder(buf: Octets, rows: seq<Octets>)
    requires |rows| == 8
    ensures buf + rows[0] + rows[1] + rows[2] + rows[3] + rows[4] + rows[5] + rows[6] + rows[7] == buf + Join(rows)
  {
    var half := buf + rows[0] + rows[1] + rows[2] + rows[3];
    FourInOrder(buf, rows, 0);
    FourInOrder(half, rows, 4);
    JoinDone(half + rows[4] + rows[5] + rows[6] + rows[7], rows);
    assert rows[0..] == rows;
  }

  lemma FourInOrder(front: Octets, rows: seq<Octets>, k: nat)
    requires k + 4 <= |rows|
    ensures front + Join(rows[k..]) == front + rows[k] + rows[k + 1] + rows[k + 2] + rows[k + 3] + Join(rows[k + 4..])
  {
    JoinNext(front, rows, k);
    JoinNext(front + rows[k], rows, k + 1);
    JoinNext(front + rows[k] + rows[k + 1], rows, k + 2);
    JoinNext(front + rows[k] + rows[k + 1] + rows[k + 2], rows, k + 3);
  }

  method PushSpots(spots: seq<Spot>) returns (r: Result<Octets, Error>)
    ensures FirstTooLong(SpotsStrings(spots)).Some? ==> r == Err(StringTooLong(FirstTooLong(SpotsStrings(spots)).value))
    ensures FirstTooLong(SpotsStrings(spots)).None?
            ==> (forall s :: s in spots ==> Writable(s)) && r == Ok(SpotsData(spots))
  {
    var data: Octets := [];
    var i := 0;
    while i < |spots|
      invariant 0 <= i <= |spots|
      invariant forall s :: s in spots[..i] ==> Writable(s)
      invariant data == SpotsData(spots[..i])
      invariant FirstTooLong(SpotsStrings(spots)) == FirstTooLong(SpotsStrings(spots[i..]))
    {
      NextSpot(spots, i);
      var pushed := PushSpot(data, spots[i]);
      if pushed.Err? {
        return Err(pushed.error);
      }
      data := pushed.value;
      i := i + 1;
    }
    assert spots[..|spots|] == spots;
    r := Ok(data);
  }

  lemma NextSpot(spots: seq<Spot>, i: nat)
    requires i < |spots| && forall s :: s in spots[..i] ==> Writable(s)
    ensures FirstTooLong(SpotsStrings(spots[i..]))
            == if FirstTooLong(SpotStrings(spots[i])).Some? then FirstTooLong(SpotStrings(spots[i]))
               else FirstTooLong(SpotsStrings(spots[i + 1..]))
    ensures Writable(spots[i]) ==>
              (forall s :: s in spots[..i + 1] ==> Writable(s))
              && SpotsData(spots[..i + 1]) == SpotsData(spots[..i]) + SpotData(spots[i])
  {
    assert spots[i..][1..] == spots[i + 1..];
    FirstTooLongAppend(SpotStrings(spots[i]), SpotsStrings(spots[i + 1..]));
    assert spots[..i] + [spots[i]] == spots[..i + 1];
    if Writable(spots[i]) {
      SpotsDataSnoc(spots[..i], spots[i]);
    }
  }

  lemma {:induction false} SpotsDataSnoc(spots: seq<Spot>, last: Spot)
    requires Writable(last) && forall s :: s in spots ==> Writable(s)
    ensures SpotsData(spots + [last]) == SpotsData(spots) + SpotData(last)
  {
    if spots == [] {
      assert spots + [last] == [last] && [last][1..] == [];
    } else {
      SpotsDataSnoc(spots[1..], last);
      assert (spots + [last])[1..] == spots[1..] + [last];
      Assoc(SpotData(spots[0]), SpotsData(spots[1..]), SpotData(last));
    }
  }

  // The length is written last, over the two octets kept free for it.
  lemma Patched(length: u16, now: u32, sequence: u32, session: u32, body: Octets)
    ensures (Header(0, now, sequence, session) + body)[2 := length / 256][3 := length % 256]
            == Header(length, now, sequence, session) + body
  {
    var tail := Be32(now) + (Be32(sequence) + Be32(session));
    TwoNumbers(10, 0, tail);
    TwoNumbers(10, length, tail);
    PatchedAt([0, 10, 0, 0], [0, 10, length / 256, length % 256], tail, body);
  }

  lemma PatchedAt(a: Octets, b: Octets, tail: Octets, body: Octets)
    requires |a| == |b| == 4 && a[0] == b[0] && a[1] == b[1]
    ensures ((a + tail) + body)[2 := b[2]][3 := b[3]] == (b + tail) + body
  {
  }
}
