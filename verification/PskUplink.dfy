// The loop that gathers spots and flushes them every five minutes
// (src/trx-reporting/src/pskreporter.rs:113-186). Its events are parameters: a decode with
// the spot made from it, if any, and the flush tick.
module PskUplink {
  import opened Basics
  import opened Octets
  import opened PskReporter
  import opened PskClient

  const FLUSH_INTERVAL_SECS := 300

  type Pending = map<Octets, Spot>

  // The most recent spot of every callsign in a log, latest last.
  function Latest(log: seq<Spot>): Pending {
    if log == [] then map[]
    else
      var last := log[|log| - 1];
      Latest(log[..|log| - 1])[last.senderCallsign := last]
  }

  lemma {:induction false} LatestIsLast(log: seq<Spot>, callsign: Octets)
    ensures callsign in Latest(log) <==> exists i :: 0 <= i < |log| && log[i].senderCallsign == callsign
    ensures callsign in Latest(log) ==>
              exists i :: 0 <= i < |log| && log[i] == Latest(log)[callsign] && log[i].senderCallsign == callsign
                          && forall j :: i < j < |log| ==> log[j].senderCallsign != callsign
  {
    if log == [] {
    } else {
      var before := log[..|log| - 1];
      LatestIsLast(before, callsign);
      if log[|log| - 1].senderCallsign != callsign && callsign in Latest(before) {
        var i :| 0 <= i < |before| && before[i] == Latest(before)[callsign] && before[i].senderCallsign == callsign
                 && forall j :: i < j < |before| ==> before[j].senderCallsign != callsign;
        assert log[i] == before[i];
      }
    }
  }

  // A listing has every pending spot exactly once, in any order.
  ghost predicate Lists(spots: seq<Spot>, pending: Pending) {
    && |spots| == |pending|
    && (forall s :: s in spots ==> s.senderCallsign in pending && pending[s.senderCallsign] == s)
    && (forall k :: k in pending ==> pending[k] in spots)
    && (forall i, j :: 0 <= i < j < |spots| ==> spots[i].senderCallsign != spots[j].senderCallsign)
  }

  ghost predicate Keyed(pending: Pending) {
    forall k :: k in pending ==> pending[k].senderCallsign == k
  }

  // Empties the map in whatever order it is walked.
  method Drain(pending: Pending) returns (spots: seq<Spot>)
    requires Keyed(pending)
    ensures Lists(spots, pending)
  {
    spots := [];
    var rest := pending;
    while rest.Keys != {}
      invariant Keyed(rest)
      invariant |rest| + |spots| == |pending|
      invariant forall k :: k in rest ==> k in pending && pending[k] == rest[k]
      invariant forall s :: s in spots
                            ==> s.senderCallsign in pending && pending[s.senderCallsign] == s
                                && s.senderCallsign !in rest
      invariant forall k :: k in pending ==> k in rest || pending[k] in spots
      invariant forall i, j :: 0 <= i < j < |spots| ==> spots[i].senderCallsign != spots[j].senderCallsign
      decreases |rest|
    {
      var k :| k in rest.Keys;
      Without(rest, k);
      var s := rest[k];
      assert s == pending[k] && s.senderCallsign == k;
      spots := spots + [s];
      rest := map x | x in rest && x != k :: rest[x];
    }
    assert |rest| == 0 by { assert rest == map[]; }
  }

  lemma Without(m: Pending, k: Octets)
    requires k in m
    ensures |map x | x in m && x != k :: m[x]| == |m| - 1
  {
    var r := map x | x in m && x != k :: m[x];
    assert r.Keys == m.Keys - {k};
  }

  lemma {:induction false} LatestKeyed(log: seq<Spot>)
    ensures Keyed(Latest(log))
  {
    if log == [] {
    } else {
      LatestKeyed(log[..|log| - 1]);
    }
  }

  class Uplink {
    const client: Client
    var pending: Pending
    var received: nat
    var sent: nat
    var skipped: nat
    var sendErrors: nat
    // The spots accepted since the last flush; how many were ever replaced by a later one, and
    // how many were lost in flushes that failed.
    ghost var log: seq<Spot>
    ghost var superseded: nat
    ghost var lost: nat

    // Every decode is accounted for exactly once.
    ghost predicate Valid()
      reads this
    {
      && pending == Latest(log)
      && received == skipped + superseded + sent + lost + |pending|
    }

    constructor (client: Client)
      ensures Valid() && this.client == client && received == 0 && log == []
    {
      this.client := client;
      pending := map[];
      received, sent, skipped, sendErrors := 0, 0, 0, 0;
      log := [];
      superseded, lost := 0, 0;
    }

    // `spot` is what the decoded message makes, `now` the wall clock.
    method Decoded(spot: Option<Spot>, now: u32)
      requires Valid()
      modifies this`received, this`skipped, this`pending, this`log, this`superseded
      ensures Valid()
      ensures received == old(received) + 1
      ensures log == old(log)
                   + if spot.Some? && now - spot.value.flowStartSeconds <= 300 then [spot.value] else []
    {
      assert log + [] == log;
      received := received + 1;
      if spot.None? {
        skipped := skipped + 1;
        return;
      }
      var s := spot.value;
      var age := if now >= s.flowStartSeconds then now - s.flowStartSeconds else 0;
      if age > FLUSH_INTERVAL_SECS {
        skipped := skipped + 1;
        return;
      }
      hide Latest;
      ghost var before := log;
      LatestSnoc(before, s);
      if s.senderCallsign in pending {
        superseded := superseded + 1;
      }
      pending := pending[s.senderCallsign := s];
      log := before + [s];
    }

    // A flush sends the most recent spot of every callsign heard since the last one, once. A
    // failed flush loses its spots.
    method Flush(now: u32, checked: nat, finished: nat, delivered: bool)
      returns (ghost spots: seq<Spot>, r: Option<Result<Octets, Error>>)
      requires Valid()
      modifies this`pending, this`sent, this`sendErrors, this`log, this`lost
      modifies client
      ensures Valid()
      ensures pending == map[] && log == []
      ensures Lists(spots, Latest(old(log)))
      ensures var a := Attempt(now, checked, finished, spots, delivered);
              if old(pending) == map[] then
                r == None && client.State() == old(client.State()) && sent == old(sent) && sendErrors == old(sendErrors)
                && lost == old(lost)
              else
                var p := PacketOf(client.station, client.session, old(client.State()), a);
                && client.State() == After(client.station, client.session, old(client.State()), a)
                && r == Some(if p.Ok? && !delivered then Err(SendFailed) else p)
                && (if p.Ok? && delivered then
                      sent == old(sent) + |spots| && sendErrors == old(sendErrors) && lost == old(lost)
                    else sent == old(sent) && sendErrors == old(sendErrors) + 1 && lost == old(lost) + |spots|)
    {
      hide PacketOf, After, Lists, Latest;
      LatestKeyed(log);
      if pending == map[] {
        spots := [];
        r := None;
        EmptyListed();
      } else {
        var all := Drain(pending);
        spots := all;
        DrainedSize(all, pending);
        var n := |all|;
        var result := client.SendSpots(Attempt(now, checked, finished, all, delivered));
        if result.Err? {
          sendErrors := sendErrors + 1;
          lost := lost + n;
        } else {
          sent := sent + n;
        }
        r := Some(result);
      }
      pending := map[];
      log := [];
      NothingLatest();
    }
  }

  lemma NothingLatest()
    ensures Latest([]) == map[]
  {
  }

  lemma EmptyListed()
    ensures Lists([], map[])
  {
  }

  lemma DrainedSize(spots: seq<Spot>, pending: Pending)
    requires Lists(spots, pending)
    ensures |spots| == |pending|
  {
  }

  lemma LatestSnoc(log: seq<Spot>, s: Spot)
    ensures Latest(log + [s]) == Latest(log)[s.senderCallsign := s]
    ensures |Latest(log + [s])| == |Latest(log)| + if s.senderCallsign in Latest(log) then 0 else 1
  {
    assert (log + [s])[..|log + [s]| - 1] == log;
  }
}
