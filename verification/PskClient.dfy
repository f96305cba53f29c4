// Whole runs of the PSK Reporter client and of the uplink loop that feeds it.
module PskClient {
  import opened Basics
  import opened Octets
  import opened Ipfix
  import opened PskReporter
  import opened PskCollector

  // Instants of the monotonic clock, in nanoseconds.
  const TEMPLATE_RESEND := 3600 * 1_000_000_000

  datatype ClientState = ClientState(sequence: u32, packetsSent: u32, lastTemplate: Option<nat>)

  const START := ClientState(1, 0, None)

  // One call of send_spots: the wall clock, the instants at which the age of the templates is
  // looked at and at which they are marked as sent, and whether the socket took the packet.
  datatype Attempt = Attempt(now: u32, checked: nat, finished: nat, spots: seq<Spot>, delivered: bool)

  predicate IncludesTemplates(s: ClientState, checked: nat) {
    s.packetsSent < 3 || s.lastTemplate.None? || checked - s.lastTemplate.value >= TEMPLATE_RESEND
  }

  function PacketOf(station: Station, session: u32, s: ClientState, a: Attempt): Result<Octets, Error> {
    Packet(station, a.now, s.sequence, session, a.spots, IncludesTemplates(s, a.checked))
  }

  predicate Sends(station: Station, session: u32, s: ClientState, a: Attempt) {
    PacketOf(station, session, s, a).Ok? && a.delivered
  }

  function After(station: Station, session: u32, s: ClientState, a: Attempt): ClientState {
    hide PacketOf;
    if !Sends(station, session, s, a) then s
    else
      ClientState((s.sequence + |a.spots| % U32) % U32, (s.packetsSent + 1) % U32,
                  if IncludesTemplates(s, a.checked) then Some(a.finished) else s.lastTemplate)
  }

  // A call sends exactly if the packet can be made and the socket takes it; otherwise it leaves the
  // client as it was.
  lemma SendsIff(station: Station, session: u32, s: ClientState, a: Attempt)
    ensures Sends(station, session, s, a)
            <==> a.delivered && AllWritable(station, a.spots)
                 && PacketSize(station, a.spots, IncludesTemplates(s, a.checked)) <= 65535
    ensures !Sends(station, session, s, a) ==> After(station, session, s, a) == s
  {
    hide Packet, PacketSize, AllWritable;
    MadeIff(station, a.now, s.sequence, session, a.spots, IncludesTemplates(s, a.checked));
  }

  class Client {
    const station: Station
    const session: u32
    var sequence: u32
    var packetsSent: u32
    var lastTemplate: Option<nat>

    function State(): ClientState
      reads this
    {
      ClientState(sequence, packetsSent, lastTemplate)
    }

    constructor (station: Station, session: u32)
      ensures this.station == station && this.session == session && State() == START
    {
      this.station := station;
      this.session := session;
      sequence := 1;
      packetsSent := 0;
      lastTemplate := None;
    }

    method MakePacket(now: u32, spots: seq<Spot>, includeTemplates: bool) returns (r: Result<Octets, Error>)
      ensures r == Packet(station, now, sequence, session, spots, includeTemplates)
    {
      hide Packet, Padded, StationData, StationValues, SpotsData, SpotsStrings, FirstTooLong, ReceiverTemplate,
           SenderTemplate, Be16, Be32;
      var out := Be16(10);
      out := out + Be16(0);
      out := out + Be32(now);
      out := out + Be32(sequence);
      out := out + Be32(session);
      if includeTemplates {
        out := out + ReceiverTemplate();
        out := out + SenderTemplate();
      }
      ghost var front := out;

      StringsDecide(station, now, sequence, session, spots, includeTemplates);
      var rx := PushReceiver(station);
      if rx.Err? {
        return Err(rx.error);
      }
      var rxData := PadTo4(rx.value);
      out := out + Be16(RECEIVER_FLOWSET);
      out := out + Be16((|rxData| + 4) % U16);
      out := out + rxData;
      assert out == front + Be16(RECEIVER_FLOWSET) + Be16((|rxData| + 4) % U16) + rxData;

      var tx := PushSpots(spots);
      if tx.Err? {
        return Err(tx.error);
      }
      var txData := PadTo4(tx.value);
      ghost var middle := out;
      out := out + Be16(SENDER_FLOWSET);
      out := out + Be16((|txData| + 4) % U16);
      out := out + txData;
      assert out == middle + Be16(SENDER_FLOWSET) + Be16((|txData| + 4) % U16) + txData;

      PacketInOrder(station, now, sequence, session, spots, includeTemplates, front, middle, out);
      var len := |out|;
      if len > 65535 {
        return Err(PacketTooLarge);
      }
      var be := Be16(len);
      out := out[2 := be[0]];
      out := out[3 := be[1]];
      return Ok(out);
    }

    // What goes out on the socket, if anything.
    method SendSpots(a: Attempt) returns (r: Result<Octets, Error>)
      modifies this`sequence, this`packetsSent, this`lastTemplate
      ensures State() == After(station, session, old(State()), a)
      ensures var p := PacketOf(station, session, old(State()), a);
              r == if p.Err? then p else if a.delivered then p else Err(SendFailed)
    {
      hide Packet;
      var includeTemplates := packetsSent < 3
        || (match lastTemplate case None => true case Some(t) => a.checked - t >= TEMPLATE_RESEND);
      var packet := MakePacket(a.now, a.spots, includeTemplates);
      if packet.Err? {
        return packet;
      }
      if !a.delivered {
        return Err(SendFailed);
      }
      packetsSent := (packetsSent + 1) % U32;
      sequence := (sequence + |a.spots| % U32) % U32;
      if includeTemplates {
        lastTemplate := Some(a.finished);
      }
      return packet;
    }
  }

  method PushReceiver(station: Station) returns (r: Result<Octets, Error>)
    ensures var long := FirstTooLong(StationValues(station));
            if long.Some? then r == Err(StringTooLong(long.value)) else Short(station) && r == Ok(StationData(station))
  {
    ThreeStrings(station.callsign, station.locator, station.software);
    r := PushPrefixedString([], station.callsign);
    if r.Ok? {
      assert [] + Prefixed(station.callsign) == Prefixed(station.callsign);
      r := PushPrefixedString(r.value, station.locator);
    }
    if r.Ok? {
      r := PushPrefixedString(r.value, station.software);
    }
  }

  // The first string that is too long, in the order of writing, ends the work.
  lemma StringsDecide(station: Station, now: u32, sequence: u32, session: u32, spots: seq<Spot>, withTemplates: bool)
    ensures var p := Packet(station, now, sequence, session, spots, withTemplates);
            var mine, theirs := FirstTooLong(StationValues(station)), FirstTooLong(SpotsStrings(spots));
            && (mine.Some? ==> p == Err(StringTooLong(mine.value)))
            && (mine.None? && theirs.Some? ==> p == Err(StringTooLong(theirs.value)))
            && (mine.None? && theirs.None? ==> AllWritable(station, spots))
  {
    hide Body, AllWritable, SpotsStrings;
    FirstTooLongAppend(StationValues(station), SpotsStrings(spots));
    AllWritableIsShort(station, spots);
  }

  lemma HeaderInOrder(now: u32, sequence: u32, session: u32)
    ensures Be16(10) + Be16(0) + Be32(now) + Be32(sequence) + Be32(session) == Header(0, now, sequence, session)
  {
    hide Be16, Be32;
  }

  lemma SetInOrder(front: Octets, id: u16, data: Octets)
    ensures front + Be16(id) + Be16((|data| + 4) % U16) + data == front + CutSet(id, data)
  {
    hide Be16;
  }

  // The octets before the length is patched in, and the packet they become.
  lemma PacketInOrder(station: Station, now: u32, sequence: u32, session: u32, spots: seq<Spot>, withTemplates: bool,
                      front: Octets, middle: Octets, out: Octets)
    requires AllWritable(station, spots)
    requires front == if withTemplates
                      then Be16(10) + Be16(0) + Be32(now) + Be32(sequence) + Be32(session)
                           + ReceiverTemplate() + SenderTemplate()
                      else Be16(10) + Be16(0) + Be32(now) + Be32(sequence) + Be32(session)
    requires var rx := Padded(StationData(station));
             middle == front + Be16(RECEIVER_FLOWSET) + Be16((|rx| + 4) % U16) + rx
    requires var tx := Padded(SpotsData(spots));
             out == middle + Be16(SENDER_FLOWSET) + Be16((|tx| + 4) % U16) + tx
    ensures |out| >= 16
    ensures Packet(station, now, sequence, session, spots, withTemplates)
            == if |out| > 65535 then Err(PacketTooLarge) else Ok(out[2 := Be16(|out|)[0]][3 := Be16(|out|)[1]])
  {
    hide Packet, Padded, StationData, SpotsData, ReceiverTemplate, SenderTemplate, Header, CutSet, Body, Be16, Be32;
    var rx, tx := Padded(StationData(station)), Padded(SpotsData(spots));
    HeaderInOrder(now, sequence, session);
    SetInOrder(front, RECEIVER_FLOWSET, rx);
    SetInOrder(middle, SENDER_FLOWSET, tx);
    AssembledBody(station, spots, withTemplates, Header(0, now, sequence, session), front, CutSet(RECEIVER_FLOWSET, rx),
                  CutSet(SENDER_FLOWSET, tx));
    PacketFrom(station, now, sequence, session, spots, withTemplates, Body(station, spots, withTemplates));
  }

  lemma AssembledBody(station: Station, spots: seq<Spot>, withTemplates: bool, header: Octets, front: Octets,
                      rx: Octets, tx: Octets)
    requires AllWritable(station, spots)
    requires rx == CutSet(RECEIVER_FLOWSET, Padded(StationData(station)))
             && tx == CutSet(SENDER_FLOWSET, Padded(SpotsData(spots)))
    requires front == if withTemplates then header + ReceiverTemplate() + SenderTemplate() else header
    ensures front + rx + tx == header + Body(station, spots, withTemplates)
  {
    hide CutSet, Padded, SpotsData, ReceiverTemplate, SenderTemplate, AllWritable;
    var templates := TemplateOctets(withTemplates);
    Assoc(header, ReceiverTemplate(), SenderTemplate());
    assert front == header + templates;
    Assoc(header, templates, rx);
    Assoc(header, templates + rx, tx);
  }

  lemma PacketFrom(station: Station, now: u32, sequence: u32, session: u32, spots: seq<Spot>, withTemplates: bool,
                   body: Octets)
    requires AllWritable(station, spots) && body == Body(station, spots, withTemplates)
    ensures var out := Header(0, now, sequence, session) + body;
            Packet(station, now, sequence, session, spots, withTemplates)
            == if |out| > 65535 then Err(PacketTooLarge) else Ok(out[2 := Be16(|out|)[0]][3 := Be16(|out|)[1]])
  {
    hide Header, Body, AllWritable, FirstTooLong;
    AllWritableIsShort(station, spots);
    var out := Header(0, now, sequence, session) + body;
    if |out| <= 65535 {
      Patched(|out|, now, sequence, session, body);
    }
  }

  // ---- runs of the client -------------------------------------------------------------------

  // Runs are sequences of attempts from the fresh client, latest last.
  function StateAfter(station: Station, session: u32, run: seq<Attempt>): ClientState {
    if run == [] then START
    else After(station, session, StateAfter(station, session, run[..|run| - 1]), run[|run| - 1])
  }

  // An attempt whose packet went out, and whether the templates were in it.
  datatype Sending = Sending(attempt: Attempt, templates: bool)

  function Sent(station: Station, session: u32, run: seq<Attempt>): seq<Sending> {
    if run == [] then []
    else
      var before, a := run[..|run| - 1], run[|run| - 1];
      var s := StateAfter(station, session, before);
      Sent(station, session, before)
      + if Sends(station, session, s, a) then [Sending(a, IncludesTemplates(s, a.checked))] else []
  }

  function Wire(station: Station, session: u32, run: seq<Attempt>): seq<Octets> {
    if run == [] then []
    else
      var before, a := run[..|run| - 1], run[|run| - 1];
      var s := StateAfter(station, session, before);
      Wire(station, session, before)
      + if Sends(station, session, s, a) then [PacketOf(station, session, s, a).value] else []
  }

  function SpotCount(sent: seq<Sending>): nat {
    if sent == [] then 0 else SpotCount(sent[..|sent| - 1]) + |sent[|sent| - 1].attempt.spots|
  }

  function LastTemplates(sent: seq<Sending>): Option<nat> {
    if sent == [] then None
    else if sent[|sent| - 1].templates then Some(sent[|sent| - 1].attempt.finished)
    else LastTemplates(sent[..|sent| - 1])
  }

  lemma SentSnoc(sent: seq<Sending>, last: Sending)
    ensures SpotCount(sent + [last]) == SpotCount(sent) + |last.attempt.spots|
    ensures LastTemplates(sent + [last]) == if last.templates then Some(last.attempt.finished) else LastTemplates(sent)
  {
    assert (sent + [last])[..|sent + [last]| - 1] == sent;
  }

  lemma WrapAdd(a: nat, b: nat)
    ensures (a % U32 + b % U32) % U32 == (a + b) % U32
    ensures (a % U32 + 1) % U32 == (a + 1) % U32
  {
    var qa, qb := a / U32, b / U32;
    assert a == U32 * qa + a % U32 && b == U32 * qb + b % U32;
    assert a + b == U32 * (qa + qb) + (a % U32 + b % U32);
  }

  lemma {:induction false} StateIs(station: Station, session: u32, run: seq<Attempt>)
    ensures var s, sent := StateAfter(station, session, run), Sent(station, session, run);
            && s.packetsSent == |sent| % U32
            && s.sequence == (1 + SpotCount(sent)) % U32
            && s.lastTemplate == LastTemplates(sent)
  {
    hide PacketOf, IncludesTemplates;
    if run == [] {
    } else {
      var before, a := run[..|run| - 1], run[|run| - 1];
      StateIs(station, session, before);
      StateStep(station, session, StateAfter(station, session, before), a, Sent(station, session, before));
    }
  }

  lemma StateStep(station: Station, session: u32, s: ClientState, a: Attempt, sent: seq<Sending>)
    requires s.packetsSent == |sent| % U32 && s.sequence == (1 + SpotCount(sent)) % U32
             && s.lastTemplate == LastTemplates(sent)
    ensures var t := After(station, session, s, a);
            var more := if Sends(station, session, s, a) then [Sending(a, IncludesTemplates(s, a.checked))] else [];
            var now := sent + more;
            t.packetsSent == |now| % U32 && t.sequence == (1 + SpotCount(now)) % U32
            && t.lastTemplate == LastTemplates(now)
  {
    hide PacketOf, IncludesTemplates, SpotCount, LastTemplates;
    if Sends(station, session, s, a) {
      SentSnoc(sent, Sending(a, IncludesTemplates(s, a.checked)));
      WrapAdd(1 + SpotCount(sent), |a.spots|);
      WrapAdd(|sent|, 0);
    } else {
      assert sent + [] == sent;
    }
  }

  // Exactly the first three packets, and every packet an hour or more behind the last one
  // with templates, carry them (the packet count wraps at 2^32).
  lemma {:induction false} TemplatesOften(station: Station, session: u32, run: seq<Attempt>, i: nat)
    requires i < |Sent(station, session, run)|
    ensures var sent := Sent(station, session, run);
            sent[i].templates <==>
              || i % U32 < 3
              || LastTemplates(sent[..i]).None?
              || sent[i].attempt.checked - LastTemplates(sent[..i]).value >= 3_600_000_000_000
  {
    hide PacketOf;
    var before, a := run[..|run| - 1], run[|run| - 1];
    var s, old_ := StateAfter(station, session, before), Sent(station, session, before);
    var sent := Sent(station, session, run);
    if i < |old_| {
      TemplatesOften(station, session, before, i);
      assert sent[..i] == old_[..i];
    } else {
      StateIs(station, session, before);
      assert sent[..i] == old_;
    }
  }

  // ---- what a collector makes of a run ----------------------------------------------------

  datatype Report = Report(time: u32, sequence: u32, session: u32, records: seq<Record>)

  datatype Heard = Heard(known: Templates, reports: seq<Report>)

  // Packets are read one after the other, with the templates learned so far.
  function Hear(known: Templates, packets: seq<Octets>): Option<Heard> {
    if packets == [] then Some(Heard(known, []))
    else
      var before := Hear(known, packets[..|packets| - 1]);
      if before.None? then None
      else
        var m := ParseMessage(packets[|packets| - 1], before.value.known);
        if m.None? then None
        else
          Some(Heard(m.value.content.templates,
                     before.value.reports
                     + [Report(m.value.exportTime, m.value.sequence, m.value.domain, m.value.content.records)]))
  }

  function Expected(station: Station, session: u32, sent: seq<Sending>): seq<Report> {
    if sent == [] then []
    else
      var before, a := sent[..|sent| - 1], sent[|sent| - 1].attempt;
      Expected(station, session, before)
      + [Report(a.now, (1 + SpotCount(before)) % U32, session, PacketRecords(station, a.spots))]
  }

  // A collector that starts with any templates, or none, reads every packet of a run. The
  // sequence numbers count the spots sent before.
  lemma {:induction false} RunHeard(station: Station, session: u32, run: seq<Attempt>, known: Templates)
    ensures var heard := Hear(known, Wire(station, session, run));
            && heard.Some?
            && heard.value.reports == Expected(station, session, Sent(station, session, run))
            && (StateAfter(station, session, run).lastTemplate.Some? ==> Known(heard.value.known))
  {
    hide PacketOf, Known, PacketRecords, ParseMessage, IncludesTemplates;
    if run == [] {
    } else {
      var before, a := run[..|run| - 1], run[|run| - 1];
      RunHeard(station, session, before, known);
      var s := StateAfter(station, session, before);
      var sent, wire := Sent(station, session, before), Wire(station, session, before);
      StateIs(station, session, before);
      if Sends(station, session, s, a) {
        var p := PacketOf(station, session, s, a).value;
        SendingHeard(station, session, s, a, Hear(known, wire).value.known);
        HeardSnoc(known, wire, p);
        ExpectedSnoc(station, session, sent, Sending(a, IncludesTemplates(s, a.checked)));
      } else {
        assert wire + [] == wire && sent + [] == sent;
      }
    }
  }

  lemma HeardSnoc(known: Templates, wire: seq<Octets>, p: Octets)
    requires Hear(known, wire).Some? && ParseMessage(p, Hear(known, wire).value.known).Some?
    ensures var h, m := Hear(known, wire).value, ParseMessage(p, Hear(known, wire).value.known).value;
            Hear(known, wire + [p])
            == Some(Heard(m.content.templates,
                          h.reports + [Report(m.exportTime, m.sequence, m.domain, m.content.records)]))
  {
    hide ParseMessage;
    assert (wire + [p])[..|wire + [p]| - 1] == wire;
  }

  lemma ExpectedSnoc(station: Station, session: u32, sent: seq<Sending>, last: Sending)
    ensures Expected(station, session, sent + [last])
            == Expected(station, session, sent)
               + [Report(last.attempt.now, (1 + SpotCount(sent)) % U32, session,
                         PacketRecords(station, last.attempt.spots))]
  {
    hide PacketRecords;
    assert (sent + [last])[..|sent + [last]| - 1] == sent;
  }

  lemma SendingHeard(station: Station, session: u32, s: ClientState, a: Attempt, known: Templates)
    requires Sends(station, session, s, a)
    requires s.lastTemplate.Some? ==> Known(known)
    ensures var m := ParseMessage(PacketOf(station, session, s, a).value, known);
            && m.Some? && m.value.exportTime == a.now && m.value.sequence == s.sequence && m.value.domain == session
            && m.value.content.records == PacketRecords(station, a.spots)
            && (s.lastTemplate.Some? || IncludesTemplates(s, a.checked) ==> Known(m.value.content.templates))
  {
    hide Packet, ParseMessage, PacketRecords, ReceiverSpecs, SenderSpecs;
    PacketDecoded(station, a.now, s.sequence, session, a.spots, IncludesTemplates(s, a.checked), known);
  }

  // ---- the spots, as numbers and strings ------------------------------------------------------

  datatype Seen = Seen(callsign: Octets, hz: u32, snr: int, intermodulation: octet, mode: Octets, source: octet,
                       locator: Octets, seconds: u32)

  function SeenIn(values: seq<Octets>): Option<Seen> {
    if |values| == 8 && |values[1]| == 4 && |values[2]| == |values[3]| == |values[5]| == 1 && |values[7]| == 4 then
      var snr: int := values[2][0];
      Some(Seen(values[0], Get32(values[1]), if snr >= 128 then snr - 256 else snr, values[3][0],
                values[4], values[5][0], values[6], Get32(values[7])))
    else None
  }

  function AllSeen(records: seq<Record>): seq<Seen> {
    if records == [] then []
    else
      var first := if records[0].template == SENDER_FLOWSET then SeenIn(records[0].values) else None;
      (if first.Some? then [first.value] else []) + AllSeen(records[1..])
  }

  function AllReported(reports: seq<Report>): seq<Seen> {
    if reports == [] then [] else AllReported(reports[..|reports| - 1]) + AllSeen(reports[|reports| - 1].records)
  }

  // The signal report that a spot should be seen with: the nearest whole number of decibels within
  // -128 to 127, halves away from zero.
  ghost predicate IsReport(db: Float, snr: int) {
    match db
    case Finite(x) =>
      if x >= 127.0 then snr == 127
      else if x <= -128.0 then snr == -128
      else if x >= 0.0 then snr as real - 0.5 <= x < snr as real + 0.5
      else snr as real - 0.5 < x <= snr as real + 0.5
    case Infinite(negative) => snr == if negative then -128 else 127
    case NotANumber => snr == 0
  }

  // A spot as it should be seen: its strings, its time, the frequency as far as it fits into 32 bits,
  // no intermodulation, and as its source that it was extracted automatically.
  ghost predicate IsSeen(spot: Spot, seen: Seen) {
    && seen.callsign == spot.senderCallsign
    && seen.hz == (if spot.absFreqHz < 0x1_0000_0000 then spot.absFreqHz else 0xFFFF_FFFF)
    && IsReport(spot.snrDb, seen.snr)
    && seen.intermodulation == 0 && seen.source == 1
    && seen.mode == spot.mode
    && seen.locator == (if spot.senderLocator.Some? then spot.senderLocator.value else [])
    && seen.seconds == spot.flowStartSeconds
  }

  // There is only one way to see a spot.
  lemma SeenIsUnique(spot: Spot, a: Seen, b: Seen)
    requires IsSeen(spot, a) && IsSeen(spot, b)
    ensures a == b
  {
  }

  ghost predicate AllAreSeen(spots: seq<Spot>, seen: seq<Seen>) {
    |seen| == |spots| && forall i :: 0 <= i < |spots| ==> IsSeen(spots[i], seen[i])
  }

  // Frequency and signal report as they fit into their fields.
  function SpotsOf(sent: seq<Sending>): seq<Spot> {
    if sent == [] then [] else SpotsOf(sent[..|sent| - 1]) + sent[|sent| - 1].attempt.spots
  }

  lemma SpotSeen(spot: Spot)
    ensures SeenIn(SpotValues(spot)).Some? && IsSeen(spot, SeenIn(SpotValues(spot)).value)
  {
    hide Be32, Get32;
    Get32Whole(Freq(spot.absFreqHz));
    Get32Whole(spot.flowStartSeconds);
  }

  lemma Get32Whole(v: u32)
    ensures Get32(Be32(v)) == v
  {
    Get32Front(v, []);
    assert Be32(v) + [] == Be32(v);
  }

  lemma {:induction false} AllSeenAppend(a: seq<Record>, b: seq<Record>)
    ensures AllSeen(a + b) == AllSeen(a) + AllSeen(b)
  {
    hide SeenIn;
    if a == [] {
      assert a + b == b;
    } else {
      assert (a + b)[1..] == a[1..] + b;
      AllSeenAppend(a[1..], b);
    }
  }

  lemma {:induction false} NotSeen(records: seq<seq<Octets>>)
    ensures AllSeen(Tagged(RECEIVER_FLOWSET, records)) == []
  {
    hide SeenIn;
    if records == [] {
    } else {
      NotSeen(records[1..]);
      assert Tagged(RECEIVER_FLOWSET, records)[1..] == Tagged(RECEIVER_FLOWSET, records[1..]);
    }
  }

  lemma {:induction false} SpotsSeen(spots: seq<Spot>)
    ensures AllAreSeen(spots, AllSeen(Tagged(SENDER_FLOWSET, SpotsValues(spots))))
  {
    hide SeenIn, SpotValues, IsSeen;
    if spots == [] {
    } else {
      SpotSeen(spots[0]);
      SpotsSeen(spots[1..]);
      var records := Tagged(SENDER_FLOWSET, SpotsValues(spots));
      assert SpotsValues(spots)[1..] == SpotsValues(spots[1..]);
      assert records[1..] == Tagged(SENDER_FLOWSET, SpotsValues(spots[1..]));
    }
  }

  // Of a whole run the collector sees every spot that was sent, in order, and no other.
  lemma SpotsArrive(station: Station, session: u32, run: seq<Attempt>, known: Templates)
    ensures Hear(known, Wire(station, session, run)).Some?
    ensures AllAreSeen(SpotsOf(Sent(station, session, run)),
                       AllReported(Hear(known, Wire(station, session, run)).value.reports))
  {
    RunHeard(station, session, run, known);
    ExpectedSeen(station, session, Sent(station, session, run));
  }

  lemma {:induction false} ExpectedSeen(station: Station, session: u32, sent: seq<Sending>)
    ensures AllAreSeen(SpotsOf(sent), AllReported(Expected(station, session, sent)))
  {
    hide SeenIn, SpotValues, IsSeen, ReceiverRecords, AllSeen;
    if sent == [] {
    } else {
      var before, a := sent[..|sent| - 1], sent[|sent| - 1].attempt;
      ExpectedSeen(station, session, before);
      var reports := Expected(station, session, sent);
      assert reports[..|reports| - 1] == Expected(station, session, before);
      NotSeen(ReceiverRecords(station));
      SpotsSeen(a.spots);
      AllSeenAppend(Tagged(RECEIVER_FLOWSET, ReceiverRecords(station)), Tagged(SENDER_FLOWSET, SpotsValues(a.spots)));
      var seen := AllSeen(Tagged(SENDER_FLOWSET, SpotsValues(a.spots)));
      assert [] + seen == seen;
    }
  }

  // ---- the sequence numbers -----------------------------------------------------------------

  function RecordCount(reports: seq<Report>): nat {
    if reports == [] then 0 else RecordCount(reports[..|reports| - 1]) + |reports[|reports| - 1].records|
  }

  lemma {:induction false} TaggedLength(id: u16, records: seq<seq<Octets>>)
    ensures |Tagged(id, records)| == |records|
  {
    if records == [] {
    } else {
      TaggedLength(id, records[1..]);
    }
  }

  lemma {:induction false} ValuesLength(spots: seq<Spot>)
    ensures |SpotsValues(spots)| == |spots|
  {
    hide SpotValues;
    if spots == [] {
    } else {
      ValuesLength(spots[1..]);
    }
  }

  lemma PacketLength(station: Station, spots: seq<Spot>)
    ensures |PacketRecords(station, spots)| == |ReceiverRecords(station)| + |spots|
    ensures 1 <= |ReceiverRecords(station)| <= 2
  {
    TaggedLength(RECEIVER_FLOWSET, ReceiverRecords(station));
    TaggedLength(SENDER_FLOWSET, SpotsValues(spots));
    ValuesLength(spots);
  }

  // A collector reads the spots of a run, and the receiver records of every packet.
  lemma {:induction false} RecordsCounted(station: Station, session: u32, sent: seq<Sending>)
    ensures RecordCount(Expected(station, session, sent)) == SpotCount(sent) + |sent| * |ReceiverRecords(station)|
  {
    hide PacketRecords, ReceiverRecords;
    if sent == [] {
    } else {
      var before, last := sent[..|sent| - 1], sent[|sent| - 1];
      RecordsCounted(station, session, before);
      ExpectedSnoc(station, session, before, last);
      assert sent == before + [last];
      PacketLength(station, last.attempt.spots);
      OneMore(|before|, |ReceiverRecords(station)|);
      var reports := Expected(station, session, sent);
      assert reports[..|reports| - 1] == Expected(station, session, before);
    }
  }

  lemma OneMore(n: nat, k: nat)
    ensures (n + 1) * k == n * k + k
  {
  }

  lemma {:induction false} ExpectedAt(station: Station, session: u32, sent: seq<Sending>, i: nat)
    requires i < |sent|
    ensures |Expected(station, session, sent)| == |sent|
    ensures var a := sent[i].attempt;
            Expected(station, session, sent)[i]
            == Report(a.now, (1 + SpotCount(sent[..i])) % U32, session, PacketRecords(station, a.spots))
  {
    hide PacketRecords;
    var before, last := sent[..|sent| - 1], sent[|sent| - 1];
    assert sent == before + [last];
    ExpectedSnoc(station, session, before, last);
    ExpectedLength(station, session, before);
    if i < |before| {
      ExpectedAt(station, session, before, i);
      assert before[..i] == sent[..i];
    } else {
      assert sent[..i] == before;
    }
  }

  lemma {:induction false} ExpectedLength(station: Station, session: u32, sent: seq<Sending>)
    ensures |Expected(station, session, sent)| == |sent|
  {
    hide PacketRecords;
    if sent == [] {
    } else {
      ExpectedLength(station, session, sent[..|sent| - 1]);
    }
  }

  // The number of a message, by RFC 7011 section 3.1, counts the data records before it.
  predicate Follows(a: Report, b: Report) {
    b.sequence == (a.sequence + |a.records|) % U32
  }

  // The client counts spots alone, so its numbers advance by the receiver records too little:
  // no two consecutive packets ever follow each other.
  lemma NeverFollows(station: Station, session: u32, sent: seq<Sending>, i: nat)
    requires i + 1 < |sent|
    ensures |Expected(station, session, sent)| == |sent|
    ensures var a, b := Expected(station, session, sent)[i], Expected(station, session, sent)[i + 1];
            && (b.sequence + |ReceiverRecords(station)|) % U32 == (a.sequence + |a.records|) % U32
            && !Follows(a, b)
  {
    hide PacketRecords, ReceiverRecords, Expected;
    ExpectedAt(station, session, sent, i);
    ExpectedAt(station, session, sent, i + 1);
    assert sent[..i + 1] == sent[..i] + [sent[i]];
    SentSnoc(sent[..i], sent[i]);
    PacketLength(station, sent[i].attempt.spots);
    var k, spots := |ReceiverRecords(station)|, |sent[i].attempt.spots|;
    var n := 1 + SpotCount(sent[..i]);
    WrapStep(n + spots, k);
    WrapStep(n, k + spots);
    NotTheSame(n + spots, k);
  }

  lemma WrapStep(a: nat, b: nat)
    ensures (a % U32 + b) % U32 == (a + b) % U32
  {
    assert a == U32 * (a / U32) + a % U32;
    assert a + b == U32 * (a / U32) + (a % U32 + b);
  }

  lemma NotTheSame(n: nat, k: nat)
    requires 0 < k < U32
    ensures n % U32 != (n + k) % U32
  {
  }

  // ---- packets that are lost --------------------------------------------------------------------

  function Passed(got: seq<bool>): nat {
    if got == [] then 0 else Passed(got[..|got| - 1]) + if got[|got| - 1] then 1 else 0
  }

  // Those elements that get through.
  function Through<T>(xs: seq<T>, got: seq<bool>): (r: seq<T>)
    requires |xs| == |got|
    ensures |r| == Passed(got)
  {
    if xs == [] then []
    else Through(xs[..|xs| - 1], got[..|got| - 1]) + if got[|got| - 1] then [xs[|xs| - 1]] else []
  }

  lemma ThroughSnoc<T>(xs: seq<T>, got: seq<bool>, x: T, g: bool)
    requires |xs| == |got|
    ensures Through(xs + [x], got + [g]) == if g then Through(xs, got) + [x] else Through(xs, got)
  {
    assert (xs + [x])[..|xs + [x]| - 1] == xs && (got + [g])[..|got + [g]| - 1] == got;
    assert Through(xs, got) + [] == Through(xs, got);
  }

  lemma {:induction false} WireLength(station: Station, session: u32, run: seq<Attempt>)
    ensures |Wire(station, session, run)| == |Sent(station, session, run)|
  {
    hide PacketOf, IncludesTemplates;
    if run == [] {
    } else {
      WireLength(station, session, run[..|run| - 1]);
    }
  }

  // Whether the templates have been received with one of these packets or an earlier one.
  predicate Taught(sent: seq<Sending>) {
    exists j :: 0 <= j < |sent| && sent[j].templates
  }

  // The reports of the packets received, without records as long as there were no templates.
  function Understood(ready: bool, reports: seq<Report>, sent: seq<Sending>): seq<Report>
    requires |reports| == |sent|
  {
    if sent == [] then []
    else
      var last := reports[|reports| - 1];
      Understood(ready, reports[..|reports| - 1], sent[..|sent| - 1])
      + [if ready || Taught(sent) then last else last.(records := [])]
  }

  lemma UnderstoodSnoc(ready: bool, reports: seq<Report>, sent: seq<Sending>, r: Report, x: Sending)
    requires |reports| == |sent|
    ensures Understood(ready, reports + [r], sent + [x])
            == Understood(ready, reports, sent) + [if ready || Taught(sent + [x]) then r else r.(records := [])]
    ensures Taught(sent + [x]) <==> Taught(sent) || x.templates
  {
    var all := sent + [x];
    assert (reports + [r])[..|reports + [r]| - 1] == reports && all[..|all| - 1] == sent;
    assert all[|sent|] == x;
    forall j | 0 <= j < |sent| ensures all[j] == sent[j] {
    }
  }

  lemma SendingUnderstood(station: Station, session: u32, s: ClientState, a: Attempt, known: Templates)
    requires Sends(station, session, s, a) && (Known(known) || Unknown(known))
    ensures var m := ParseMessage(PacketOf(station, session, s, a).value, known);
            var ready := Known(known) || IncludesTemplates(s, a.checked);
            && m.Some? && m.value.exportTime == a.now && m.value.sequence == s.sequence && m.value.domain == session
            && m.value.content.records == (if ready then PacketRecords(station, a.spots) else [])
            && (if ready then Known(m.value.content.templates) else Unknown(m.value.content.templates))
  {
    hide Packet, ParseMessage, PacketRecords, ReceiverSpecs, SenderSpecs;
    if Known(known) || IncludesTemplates(s, a.checked) {
      PacketDecoded(station, a.now, s.sequence, session, a.spots, IncludesTemplates(s, a.checked), known);
    } else {
      PacketPassedOver(station, a.now, s.sequence, session, a.spots, known);
    }
  }

  // What a collector makes of received packets, given what was sent with each of them.
  ghost predicate HeardAs(known: Templates, packets: seq<Octets>, reports: seq<Report>, sent: seq<Sending>) {
    && |reports| == |sent|
    && var heard := Hear(known, packets);
       && heard.Some?
       && heard.value.reports == Understood(Known(known), reports, sent)
       && (if Known(known) || Taught(sent) then Known(heard.value.known) else Unknown(heard.value.known))
  }

  lemma NothingHeard(known: Templates)
    requires Known(known) || Unknown(known)
    ensures HeardAs(known, [], [], [])
    ensures Through<Octets>([], []) == [] && Through<Sending>([], []) == [] && Through<Report>([], []) == []
  {
  }

  lemma OneMoreHeard(station: Station, session: u32, s: ClientState, a: Attempt, known: Templates,
                     packets: seq<Octets>, reports: seq<Report>, sent: seq<Sending>)
    requires Sends(station, session, s, a) && HeardAs(known, packets, reports, sent)
    ensures HeardAs(known, packets + [PacketOf(station, session, s, a).value],
                    reports + [Report(a.now, s.sequence, session, PacketRecords(station, a.spots))],
                    sent + [Sending(a, IncludesTemplates(s, a.checked))])
  {
    hide PacketOf, Known, Unknown, PacketRecords, ParseMessage, IncludesTemplates, Taught, Understood, Hear;
    var p := PacketOf(station, session, s, a).value;
    var r := Report(a.now, s.sequence, session, PacketRecords(station, a.spots));
    var x := Sending(a, IncludesTemplates(s, a.checked));
    var h := Hear(known, packets).value;
    KnownOrNot(Known(known), Taught(sent), h.known);
    SendingUnderstood(station, session, s, a, h.known);
    HeardSnoc(known, packets, p);
    UnderstoodSnoc(Known(known), reports, sent, r, x);
  }

  lemma KnownOrNot(ready: bool, taught: bool, known: Templates)
    requires if ready || taught then Known(known) else Unknown(known)
    ensures Known(known) <==> ready || taught
    ensures Known(known) || Unknown(known)
  {
  }

  // Whatever packets are lost: a collector reads every packet that it receives exactly from the
  // first one with templates on, and of those before it the header.
  lemma {:induction false} LossyRunHeard(station: Station, session: u32, run: seq<Attempt>, got: seq<bool>,
                                         known: Templates)
    requires |got| == |Sent(station, session, run)| && (Known(known) || Unknown(known))
    ensures |Wire(station, session, run)| == |got| && |Expected(station, session, Sent(station, session, run))| == |got|
    ensures var sent := Sent(station, session, run);
            HeardAs(known, Through(Wire(station, session, run), got), Through(Expected(station, session, sent), got),
                    Through(sent, got))
    decreases |run|
  {
    hide PacketOf, Known, Unknown, PacketRecords, IncludesTemplates, Through, Expected, HeardAs;
    WireLength(station, session, run);
    ExpectedLength(station, session, Sent(station, session, run));
    if run == [] {
      NothingHeard(known);
      NothingExpected(station, session);
    } else {
      var before, a := run[..|run| - 1], run[|run| - 1];
      var s := StateAfter(station, session, before);
      var sent, wire := Sent(station, session, before), Wire(station, session, before);
      StateIs(station, session, before);
      if Sends(station, session, s, a) {
        var gotBefore := got[..|got| - 1];
        LossyRunHeard(station, session, before, gotBefore, known);
        assert got == gotBefore + [got[|got| - 1]];
        var p, x := PacketOf(station, session, s, a).value, Sending(a, IncludesTemplates(s, a.checked));
        var r := Report(a.now, s.sequence, session, PacketRecords(station, a.spots));
        var expected := Expected(station, session, sent);
        ExpectedSnoc(station, session, sent, x);
        OneMoreHeard(station, session, s, a, known, Through(wire, gotBefore), Through(expected, gotBefore),
                     Through(sent, gotBefore));
        LossyStep(known, wire, expected, sent, gotBefore, p, r, x, got[|got| - 1]);
      } else {
        assert wire + [] == wire && sent + [] == sent;
        LossyRunHeard(station, session, before, got, known);
      }
    }
  }

  lemma NothingExpected(station: Station, session: u32)
    ensures Expected(station, session, []) == []
  {
  }

  // One more packet, that gets through or not.
  lemma LossyStep(known: Templates, wire: seq<Octets>, expected: seq<Report>, sent: seq<Sending>, got: seq<bool>,
                  p: Octets, r: Report, x: Sending, g: bool)
    requires |sent| == |wire| == |got| == |expected|
    requires HeardAs(known, Through(wire, got), Through(expected, got), Through(sent, got))
    requires HeardAs(known, Through(wire, got) + [p], Through(expected, got) + [r], Through(sent, got) + [x])
    ensures HeardAs(known, Through(wire + [p], got + [g]), Through(expected + [r], got + [g]),
                    Through(sent + [x], got + [g]))
  {
    hide Through, HeardAs;
    ThroughSnoc(sent, got, x, g);
    ThroughSnoc(wire, got, p, g);
    ThroughSnoc(expected, got, r, g);
  }
}
