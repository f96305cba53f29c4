// What a collector that follows RFC 7011 recovers from the PSK Reporter packets.
module PskCollector {
  import opened Basics
  import opened Octets
  import opened Ipfix
  import opened PskReporter

  function StationValues(station: Station): seq<Octets> {
    [station.callsign, station.locator, station.software]
  }

  function SpotValues(spot: Spot): seq<Octets> {
    [spot.senderCallsign, Be32(Freq(spot.absFreqHz)), [Snr(spot.snrDb) % 256], [0], spot.mode, [1], Locator(spot),
     Be32(spot.flowStartSeconds)]
  }

  function SpotsValues(spots: seq<Spot>): seq<seq<Octets>> {
    if spots == [] then [] else [SpotValues(spots[0])] + SpotsValues(spots[1..])
  }

  // ---- records ------------------------------------------------------------------------

  ghost predicate RowsOfRecord(rows: seq<Octets>, specs: seq<FieldSpec>, values: seq<Octets>) {
    AllFit(specs, values) && |rows| == |specs|
    && forall i :: 0 <= i < |specs| ==> EncodeValue(specs[i], values[i]) == rows[i]
  }

  lemma {:induction false} RecordJoined(rows: seq<Octets>, specs: seq<FieldSpec>, values: seq<Octets>)
    requires RowsOfRecord(rows, specs, values)
    ensures EncodeRecord(specs, values) == Join(rows)
    decreases |rows|
  {
    if specs == [] {
    } else {
      RecordJoined(rows[1..], specs[1..], values[1..]);
    }
  }

  lemma SpotIsRecord(spot: Spot)
    requires Writable(spot)
    ensures AllFit(SenderSpecs(), SpotValues(spot)) && SpotData(spot) == EncodeRecord(SenderSpecs(), SpotValues(spot))
  {
    RecordJoined(SpotRows(spot), SenderSpecs(), SpotValues(spot));
  }

  lemma {:induction false} SpotsAreRecords(spots: seq<Spot>)
    requires forall s :: s in spots ==> Writable(s)
    ensures forall r :: r in SpotsValues(spots) ==> AllFit(SenderSpecs(), r)
    ensures SpotsData(spots) == EncodeRecords(SenderSpecs(), SpotsValues(spots))
  {
    if spots == [] {
    } else {
      SpotIsRecord(spots[0]);
      SpotsAreRecords(spots[1..]);
      assert SpotsValues(spots)[1..] == SpotsValues(spots[1..]);
    }
  }

  predicate Short(station: Station) {
    |station.callsign| <= 254 && |station.locator| <= 254 && |station.software| <= 254
  }

  function StationData(station: Station): Octets
    requires Short(station)
  {
    Prefixed(station.callsign) + Prefixed(station.locator) + Prefixed(station.software)
  }

  lemma JoinThree(a: Octets, b: Octets, c: Octets)
    ensures Join([a, b, c]) == a + b + c
  {
    var rows := [a, b, c];
    JoinNext([], rows, 0);
    JoinNext(a, rows, 1);
    JoinNext(a + b, rows, 2);
    JoinDone(a + b + c, rows);
    assert rows[0..] == rows && [] + Join(rows) == Join(rows) && [] + a == a;
  }

  lemma StationIsRecord(station: Station)
    requires Short(station)
    ensures AllFit(ReceiverSpecs(), StationValues(station))
    ensures StationData(station) == EncodeRecord(ReceiverSpecs(), StationValues(station))
  {
    var rows: seq<Octets> := [Prefixed(station.callsign), Prefixed(station.locator), Prefixed(station.software)];
    RecordJoined(rows, ReceiverSpecs(), StationValues(station));
    JoinThree(Prefixed(station.callsign), Prefixed(station.locator), Prefixed(station.software));
  }

  lemma ReceiverMinimum()
    ensures MinRecord(ReceiverSpecs()) == 3
  {
    var s := ReceiverSpecs();
    assert s[1..] == [s[1], s[2]] && s[1..][1..] == [s[2]] && s[1..][1..][1..] == [];
    assert MinRecord([s[2]]) == 1 && MinRecord([s[1], s[2]]) == 2;
  }

  lemma SenderMinimum()
    ensures MinRecord(SenderSpecs()) == 14
  {
    MinimumOfEight(SenderSpecs());
  }

  lemma MinimumOfEight(s: seq<FieldSpec>)
    requires |s| == 8
    ensures MinRecord(s) == MinLength(s[0]) + MinLength(s[1]) + MinLength(s[2]) + MinLength(s[3])
                            + MinLength(s[4]) + MinLength(s[5]) + MinLength(s[6]) + MinLength(s[7])
  {
    MinimumFrom(s, 0);
    MinimumFrom(s, 1);
    MinimumFrom(s, 2);
    MinimumFrom(s, 3);
    MinimumFrom(s, 4);
    MinimumFrom(s, 5);
    MinimumFrom(s, 6);
    MinimumFrom(s, 7);
    assert s[0..] == s && MinRecord(s[8..]) == 0;
  }

  lemma MinimumFrom(s: seq<FieldSpec>, k: nat)
    requires k < |s|
    ensures MinRecord(s[k..]) == MinLength(s[k]) + MinRecord(s[k + 1..])
  {
    assert s[k..][1..] == s[k + 1..];
  }

  // ---- padding ----------------------------------------------------------------------------

  // Three octets of padding behind the receiver record have the size of the smallest
  // receiver record.
  function Extra(n: nat): seq<seq<Octets>> {
    if n % 4 == 1 then [[[], [], []]] else []
  }

  function ReceiverRecords(station: Station): seq<seq<Octets>> {
    [StationValues(station)] + Extra(|station.callsign| + |station.locator| + |station.software| + 3)
  }

  lemma PaddingLength(n: nat)
    ensures |Padding(n)| == if n % 4 == 0 then 0 else 4 - n % 4
  {
  }

  lemma ThreeZeros()
    ensures ParseRecord([0, 0, 0], ReceiverSpecs()) == Parsed([[], [], []], [])
  {
    var values: seq<Octets> := [[], [], []];
    RecordReadBack(ReceiverSpecs(), values, []);
    RecordJoined([[0], [0], [0]], ReceiverSpecs(), values);
    JoinThree([0], [0], [0]);
    assert EncodeRecord(ReceiverSpecs(), values) + [] == [0, 0, 0];
  }

  lemma ShortPadding(n: nat, specs: seq<FieldSpec>)
    requires |Padding(n)| < MinRecord(specs)
    ensures ParseRecords(Padding(n), specs) == Some([])
  {
  }

  lemma OneRecordLeft(bytes: Octets, specs: seq<FieldSpec>, values: seq<Octets>)
    requires ParseRecord(bytes, specs) == Parsed(values, []) && 0 < MinRecord(specs) <= |bytes|
    ensures ParseRecords(bytes, specs) == Some([values])
  {
    var none: seq<seq<Octets>> := [];
    assert ParseRecords([], specs) == Some(none);
    assert [values] + none == [values];
  }

  lemma PaddingParsed(n: nat)
    ensures ParseRecords(Padding(n), ReceiverSpecs()) == Some(Extra(n))
    ensures ParseRecords(Padding(n), SenderSpecs()) == Some([])
  {
    ReceiverMinimum();
    SenderMinimum();
    PaddingLength(n);
    ShortPadding(n, SenderSpecs());
    if n % 4 == 1 {
      assert Padding(n) == [0, 0, 0];
      ThreeZeros();
      OneRecordLeft(Padding(n), ReceiverSpecs(), [[], [], []]);
    } else {
      ShortPadding(n, ReceiverSpecs());
    }
  }

  lemma PaddedParsed(data: Octets, specs: seq<FieldSpec>, records: seq<seq<Octets>>, extra: seq<seq<Octets>>)
    requires MinRecord(specs) > 0 && (forall r :: r in records ==> AllFit(specs, r))
             && data == EncodeRecords(specs, records)
    requires ParseRecords(Padding(|data|), specs) == Some(extra)
    ensures ParseRecords(Padded(data), specs) == Some(records + extra)
  {
    RecordsReadBack(specs, records, Padding(|data|));
  }

  lemma OneRecord(specs: seq<FieldSpec>, values: seq<Octets>)
    requires AllFit(specs, values)
    ensures EncodeRecords(specs, [values]) == EncodeRecord(specs, values)
  {
    assert [values][1..] == [];
    assert EncodeRecord(specs, values) + [] == EncodeRecord(specs, values);
  }

  // The receiver record comes back, and behind it an empty record exactly when the padding is
  // three octets long.
  lemma ReceiverSetParsed(station: Station)
    requires Short(station)
    ensures ParseRecords(Padded(StationData(station)), ReceiverSpecs()) == Some(ReceiverRecords(station))
  {
    hide ReceiverSpecs, Padded, StationData, ParseRecords, EncodeRecord;
    StationIsRecord(station);
    StationLength(station);
    ReceiverRecordParsed(StationData(station), StationValues(station));
  }

  lemma StationLength(station: Station)
    requires Short(station)
    ensures |StationData(station)| == |station.callsign| + |station.locator| + |station.software| + 3
  {
  }

  lemma ReceiverRecordParsed(data: Octets, values: seq<Octets>)
    requires AllFit(ReceiverSpecs(), values) && data == EncodeRecord(ReceiverSpecs(), values)
    ensures ParseRecords(Padded(data), ReceiverSpecs()) == Some([values] + Extra(|data|))
  {
    ReceiverMinimum();
    PaddingParsed(|data|);
    OneRecord(ReceiverSpecs(), values);
    PaddedParsed(data, ReceiverSpecs(), [values], Extra(|data|));
  }

  // The spots come back in order, and padding is never read as a spot.
  lemma SenderSetParsed(spots: seq<Spot>)
    requires forall s :: s in spots ==> Writable(s)
    ensures ParseRecords(Padded(SpotsData(spots)), SenderSpecs()) == Some(SpotsValues(spots))
  {
    SenderMinimum();
    SpotsAreRecords(spots);
    PaddingParsed(|SpotsData(spots)|);
    PaddedParsed(SpotsData(spots), SenderSpecs(), SpotsValues(spots), []);
    assert SpotsValues(spots) + [] == SpotsValues(spots);
  }

  // ---- the packet ----------------------------------------------------------------------------

  predicate Known(known: Templates) {
    && RECEIVER_FLOWSET in known && known[RECEIVER_FLOWSET] == ReceiverSpecs()
    && SENDER_FLOWSET in known && known[SENDER_FLOWSET] == SenderSpecs()
  }

  function Learned(known: Templates, withTemplates: bool): Templates {
    if withTemplates then known[RECEIVER_FLOWSET := ReceiverSpecs()][SENDER_FLOWSET := SenderSpecs()] else known
  }

  function PacketRecords(station: Station, spots: seq<Spot>): seq<Record> {
    Tagged(RECEIVER_FLOWSET, ReceiverRecords(station)) + Tagged(SENDER_FLOWSET, SpotsValues(spots))
  }

  lemma DataSetsParsed(station: Station, spots: seq<Spot>, known: Templates)
    requires AllWritable(station, spots) && Known(known)
    requires |Padded(StationData(station))| + 4 < U16 && |Padded(SpotsData(spots))| + 4 < U16
    ensures ParseSets(SetOf(RECEIVER_FLOWSET, Padded(StationData(station)))
                      + SetOf(SENDER_FLOWSET, Padded(SpotsData(spots))),
                      known)
            == Some(Decoded(known, PacketRecords(station, spots)))
  {
    var receiver, sender := Padded(StationData(station)), Padded(SpotsData(spots));
    ReceiverSetParsed(station);
    SenderSetParsed(spots);
    TwoSetsParsed(receiver, sender, known, ReceiverRecords(station), SpotsValues(spots));
  }

  lemma OneSetParsed(id: u16, content: Octets, rest: Octets, specs: seq<FieldSpec>, known: Templates,
                     records: seq<seq<Octets>>, more: Decoded)
    requires |content| + 4 < U16 && id >= 256 && id in known && known[id] == specs
    requires ParseRecords(content, specs) == Some(records) && ParseSets(rest, known) == Some(more)
    ensures ParseSets(SetOf(id, content) + rest, known)
            == Some(Decoded(more.templates, Tagged(id, records) + more.records))
  {
    SetReadBack(id, content, rest, known);
  }

  lemma TwoSetsParsed(receiver: Octets, sender: Octets, known: Templates, stations: seq<seq<Octets>>,
                      spots: seq<seq<Octets>>)
    requires Known(known) && |receiver| + 4 < U16 && |sender| + 4 < U16
    requires ParseRecords(receiver, ReceiverSpecs()) == Some(stations)
             && ParseRecords(sender, SenderSpecs()) == Some(spots)
    ensures ParseSets(SetOf(RECEIVER_FLOWSET, receiver) + SetOf(SENDER_FLOWSET, sender), known)
            == Some(Decoded(known, Tagged(RECEIVER_FLOWSET, stations) + Tagged(SENDER_FLOWSET, spots)))
  {
    OneSetParsed(SENDER_FLOWSET, sender, [], known[SENDER_FLOWSET], known, spots, Decoded(known, []));
    assert SetOf(SENDER_FLOWSET, sender) + [] == SetOf(SENDER_FLOWSET, sender);
    assert Tagged(SENDER_FLOWSET, spots) + [] == Tagged(SENDER_FLOWSET, spots);
    OneSetParsed(RECEIVER_FLOWSET, receiver, SetOf(SENDER_FLOWSET, sender), known[RECEIVER_FLOWSET], known, stations,
                 Decoded(known, Tagged(SENDER_FLOWSET, spots)));
  }

  lemma TemplatesParsed(rest: Octets, known: Templates)
    ensures ParseSets(ReceiverTemplate() + (SenderTemplate() + rest), known) == ParseSets(rest, Learned(known, true))
  {
    TemplatesAreSets(ReceiverSpecs(), SenderSpecs());
    TemplateSetsParsed(ReceiverSpecs(), SenderSpecs(), rest, known);
  }

  lemma TemplatesAreSets(receiver: seq<FieldSpec>, sender: seq<FieldSpec>)
    requires receiver == ReceiverSpecs() && sender == SenderSpecs()
    ensures |receiver| < 10 && |sender| < 10
    ensures |EncodeSpecs(receiver)| < 1000 && |EncodeSpecs(sender)| < 1000
    ensures ReceiverTemplate() == SetOf(3, EncodeOptionsTemplate(RECEIVER_FLOWSET, 1, receiver) + [0, 0])
    ensures SenderTemplate() == SetOf(2, EncodeTemplate(SENDER_FLOWSET, sender))
  {
    hide ReceiverTemplate, SenderTemplate, EncodeSpecs, EncodeTemplate, EncodeOptionsTemplate, SetOf;
    ReceiverTemplateIs();
    SenderTemplateIs();
  }

  lemma TemplateSetsParsed(receiver: seq<FieldSpec>, sender: seq<FieldSpec>, rest: Octets, known: Templates)
    requires |receiver| < 10 && |sender| < 10
    requires |EncodeSpecs(receiver)| < 1000 && |EncodeSpecs(sender)| < 1000
    ensures ParseSets(SetOf(3, EncodeOptionsTemplate(RECEIVER_FLOWSET, 1, receiver) + [0, 0])
                      + (SetOf(2, EncodeTemplate(SENDER_FLOWSET, sender)) + rest), known)
            == ParseSets(rest, known[RECEIVER_FLOWSET := receiver][SENDER_FLOWSET := sender])
  {
    var half := known[RECEIVER_FLOWSET := receiver];
    var first := EncodeOptionsTemplate(RECEIVER_FLOWSET, 1, receiver) + [0, 0];
    var second := EncodeTemplate(SENDER_FLOWSET, sender);
    OptionsTemplateReadBack(RECEIVER_FLOWSET, 1, receiver, [0, 0], known);
    TemplateReadBack(SENDER_FLOWSET, sender, [], half);
    assert second + [] == second;
    TemplateSetParsed(3, first, SetOf(2, second) + rest, known, half);
    TemplateSetParsed(2, second, rest, half, half[SENDER_FLOWSET := sender]);
  }

  lemma TemplateSetParsed(id: u16, content: Octets, rest: Octets, known: Templates, learned: Templates)
    requires |content| + 4 < U16 && (id == 2 || id == 3) && ParseTemplates(content, id == 3, known) == Some(learned)
    ensures ParseSets(SetOf(id, content) + rest, known) == ParseSets(rest, learned)
  {
    SetReadBack(id, content, rest, known);
    var end := ParseSets(rest, learned);
    assert end.Some? ==> [] + end.value.records == end.value.records;
  }

  // Every set of a packet is a multiple of four octets long, and so is the packet.
  lemma SetsAligned(station: Station, spots: seq<Spot>, withTemplates: bool)
    requires AllWritable(station, spots)
    ensures |ReceiverTemplate()| == 36 && |SenderTemplate()| == 68
    ensures |CutSet(RECEIVER_FLOWSET, Padded(StationData(station)))| % 4 == 0
            && |CutSet(SENDER_FLOWSET, Padded(SpotsData(spots)))| % 4 == 0
    ensures |Body(station, spots, withTemplates)| % 4 == 0
  {
    hide ReceiverTemplate, SenderTemplate, SpotsData, Padded, CutSet, SetOf, EncodeSpecs;
    NotCut(RECEIVER_FLOWSET, Padded(StationData(station)));
    NotCut(SENDER_FLOWSET, Padded(SpotsData(spots)));
    ReceiverTemplateIs();
    SenderTemplateIs();
  }

  // ---- when a packet is made -----------------------------------------------------------------

  function UpTo4(n: nat): nat {
    (n + 3) / 4 * 4
  }

  function SpotsSize(spots: seq<Spot>): nat {
    if spots == [] then 0
    else
      var s := spots[0];
      14 + |s.senderCallsign| + |s.mode| + (if s.senderLocator.Some? then |s.senderLocator.value| else 0)
      + SpotsSize(spots[1..])
  }

  // The octets of a whole packet, header and templates included.
  function PacketSize(station: Station, spots: seq<Spot>, withTemplates: bool): nat {
    16 + (if withTemplates then 104 else 0)
    + 4 + UpTo4(3 + |station.callsign| + |station.locator| + |station.software|)
    + 4 + UpTo4(SpotsSize(spots))
  }

  // A packet is made exactly if every string fits its field and all of it into 65,535 octets; it is
  // then that long. Otherwise the first string that is too long is told, or that there is too much.
  lemma MadeIff(station: Station, now: u32, sequence: u32, session: u32, spots: seq<Spot>, withTemplates: bool)
    ensures var p := Packet(station, now, sequence, session, spots, withTemplates);
            && (p.Ok? <==> AllWritable(station, spots) && PacketSize(station, spots, withTemplates) <= 65535)
            && (p.Ok? ==> |p.value| == PacketSize(station, spots, withTemplates))
            && (p.Err? && p.error.PacketTooLarge?
                <==> AllWritable(station, spots) && PacketSize(station, spots, withTemplates) > 65535)
  {
    hide Body, PacketSize, FirstTooLong;
    AllWritableIsShort(station, spots);
    if AllWritable(station, spots) {
      BodySize(station, spots, withTemplates);
    }
  }

  lemma BodySize(station: Station, spots: seq<Spot>, withTemplates: bool)
    requires AllWritable(station, spots)
    ensures 16 + |Body(station, spots, withTemplates)| == PacketSize(station, spots, withTemplates)
  {
    hide ReceiverTemplate, SenderTemplate, SpotsData, Padded, SpotsSize;
    SetsAligned(station, spots, withTemplates);
    SpotsDataSize(spots);
    var own := Prefixed(station.callsign) + Prefixed(station.locator) + Prefixed(station.software);
    PaddedSize(own);
    PaddedSize(SpotsData(spots));
  }

  lemma PaddedSize(data: Octets)
    ensures |Padded(data)| == UpTo4(|data|)
  {
  }

  lemma {:induction false} SpotsDataSize(spots: seq<Spot>)
    requires forall s :: s in spots ==> Writable(s)
    ensures |SpotsData(spots)| == SpotsSize(spots)
  {
    if spots == [] {
    } else {
      SpotDataSize(spots[0]);
      SpotsDataSize(spots[1..]);
    }
  }

  lemma SpotDataSize(s: Spot)
    requires Writable(s)
    ensures |SpotData(s)|
            == 14 + |s.senderCallsign| + |s.mode| + if s.senderLocator.Some? then |s.senderLocator.value| else 0
  {
    hide Join;
    JoinEight(SpotRows(s));
  }

  lemma JoinEight(rows: seq<Octets>)
    requires |rows| == 8
    ensures |Join(rows)|
            == |rows[0]| + |rows[1]| + |rows[2]| + |rows[3]| + |rows[4]| + |rows[5]| + |rows[6]| + |rows[7]|
  {
    hide Join;
    JoinTwo(rows);
    JoinTwo(rows[2..]);
    JoinTwo(rows[4..]);
    JoinTwo(rows[6..]);
    assert rows[2..][2..] == rows[4..] && rows[4..][2..] == rows[6..] && rows[6..][2..] == [];
  }

  lemma JoinTwo(rows: seq<Octets>)
    requires |rows| >= 2
    ensures |Join(rows)| == |rows[0]| + |rows[1]| + |Join(rows[2..])| && |Join([])| == 0
  {
    assert rows[1..][1..] == rows[2..];
  }

  // A packet that is made is read completely: the receiver and every spot in order, the
  // frequency and the signal report as they were clamped.
  lemma PacketDecoded(station: Station, now: u32, sequence: u32, session: u32, spots: seq<Spot>, withTemplates: bool,
                      known: Templates)
    requires withTemplates || Known(known)
    ensures var p := Packet(station, now, sequence, session, spots, withTemplates);
            p.Ok? ==> ParseMessage(p.value, known)
                      == Some(Message(now, sequence, session,
                                      Decoded(Learned(known, withTemplates), PacketRecords(station, spots))))
  {
    hide ReceiverTemplate, SenderTemplate, ReceiverSpecs, SenderSpecs, Padded, CutSet, Header, ParseMessage,
         PacketRecords, FirstTooLong;
    AllWritableIsShort(station, spots);
    if Packet(station, now, sequence, session, spots, withTemplates).Ok? {
      var body := Body(station, spots, withTemplates);
      BodyParsed(station, spots, withTemplates, known, body);
      MessageParsed(now, sequence, session, body, known,
                    Decoded(Learned(known, withTemplates), PacketRecords(station, spots)));
    }
  }

  lemma MessageParsed(now: u32, sequence: u32, session: u32, body: Octets, known: Templates, content: Decoded)
    requires 16 + |body| < U16 && ParseSets(body, known) == Some(content)
    ensures ParseMessage(Header(16 + |body|, now, sequence, session) + body, known)
            == Some(Message(now, sequence, session, content))
  {
    HeaderReadBack(16 + |body|, now, sequence, session, body, known);
  }

  lemma BodyParsed(station: Station, spots: seq<Spot>, withTemplates: bool, known: Templates, body: Octets)
    requires AllWritable(station, spots) && body == Body(station, spots, withTemplates) && 16 + |body| < U16
    requires withTemplates || Known(known)
    ensures ParseSets(body, known) == Some(Decoded(Learned(known, withTemplates), PacketRecords(station, spots)))
  {
    hide ReceiverTemplate, SenderTemplate, ReceiverSpecs, SenderSpecs, Padded;
    BodySets(station, spots, withTemplates);
    DataSetsParsed(station, spots, Learned(known, withTemplates));
    if withTemplates {
      TemplatesParsed(SetOf(RECEIVER_FLOWSET, Padded(StationData(station)))
                      + SetOf(SENDER_FLOWSET, Padded(SpotsData(spots))),
                      known);
    }
  }

  lemma BodySets(station: Station, spots: seq<Spot>, withTemplates: bool)
    requires AllWritable(station, spots) && 16 + |Body(station, spots, withTemplates)| < U16
    ensures |Padded(StationData(station))| + 4 < U16 && |Padded(SpotsData(spots))| + 4 < U16
    ensures var sets := SetOf(RECEIVER_FLOWSET, Padded(StationData(station)))
                        + SetOf(SENDER_FLOWSET, Padded(SpotsData(spots)));
            Body(station, spots, withTemplates)
            == if withTemplates then ReceiverTemplate() + (SenderTemplate() + sets) else sets
  {
    var receiver, sender := Padded(StationData(station)), Padded(SpotsData(spots));
    NotCut(RECEIVER_FLOWSET, receiver);
    NotCut(SENDER_FLOWSET, sender);
    var sets := CutSet(RECEIVER_FLOWSET, receiver) + CutSet(SENDER_FLOWSET, sender);
    assert Body(station, spots, withTemplates)
           == TemplateOctets(withTemplates) + CutSet(RECEIVER_FLOWSET, receiver) + CutSet(SENDER_FLOWSET, sender);
    Assoc(TemplateOctets(withTemplates), CutSet(RECEIVER_FLOWSET, receiver), CutSet(SENDER_FLOWSET, sender));
    if withTemplates {
      Assoc(ReceiverTemplate(), SenderTemplate(), sets);
    } else {
      assert [] + sets == sets;
    }
  }

  lemma NotCut(id: u16, data: Octets)
    ensures |CutSet(id, data)| == |data| + 4
    ensures |data| + 4 < U16 ==> CutSet(id, data) == SetOf(id, data)
  {
    if |data| + 4 < U16 {
      assert (|data| + 4) % U16 == |data| + 4;
      Assoc(Be16(id), Be16(|data| + 4), data);
    }
  }

  // ---- without the templates ----------------------------------------------------------------

  predicate Unknown(known: Templates) {
    RECEIVER_FLOWSET !in known && SENDER_FLOWSET !in known
  }

  lemma SetPassedOver(id: u16, content: Octets, rest: Octets, known: Templates)
    requires |content| + 4 < U16 && id >= 256 && id !in known
    ensures ParseSets(SetOf(id, content) + rest, known) == ParseSets(rest, known)
  {
    hide ParseSets;
    SetReadBack(id, content, rest, known);
    var end := ParseSets(rest, known);
    assert end.Some? ==> [] + end.value.records == end.value.records;
  }

  lemma SetsPassedOver(receiver: Octets, sender: Octets, known: Templates)
    requires |receiver| + 4 < U16 && |sender| + 4 < U16 && Unknown(known)
    ensures ParseSets(SetOf(RECEIVER_FLOWSET, receiver) + SetOf(SENDER_FLOWSET, sender), known)
            == Some(Decoded(known, []))
  {
    hide SetOf;
    SetPassedOver(RECEIVER_FLOWSET, receiver, SetOf(SENDER_FLOWSET, sender), known);
    SetPassedOver(SENDER_FLOWSET, sender, [], known);
    assert SetOf(SENDER_FLOWSET, sender) + [] == SetOf(SENDER_FLOWSET, sender);
  }

  // A packet without templates, read by a collector that has none: the header alone.
  lemma PacketPassedOver(station: Station, now: u32, sequence: u32, session: u32, spots: seq<Spot>, known: Templates)
    requires Unknown(known)
    ensures var p := Packet(station, now, sequence, session, spots, false);
            p.Ok? ==> ParseMessage(p.value, known) == Some(Message(now, sequence, session, Decoded(known, [])))
  {
    hide ReceiverTemplate, SenderTemplate, Padded, CutSet, Header, ParseMessage, FirstTooLong, SetOf, ParseSets,
         Unknown;
    AllWritableIsShort(station, spots);
    if Packet(station, now, sequence, session, spots, false).Ok? {
      BodySets(station, spots, false);
      SetsPassedOver(Padded(StationData(station)), Padded(SpotsData(spots)), known);
      MessageParsed(now, sequence, session, Body(station, spots, false), known, Decoded(known, []));
    }
  }
}
