// Saving a history queue and loading it back (src/trx-server/src/history_store.rs:69-100). The
// wall clock is read once by a save and once by a load, the monotonic clock for every entry.
module HistoryStore {
  import opened History

  const RETENTION_MS := 24 * 60 * 60 * 1_000
  const MS := 1_000_000

  datatype Stored<T> = Stored(tsMs: int, data: T)

  // The readings of the monotonic clock, by the position of the entry.
  type Readings = nat -> int

  // Whole milliseconds; an instant ahead of the clock has not elapsed at all.
  function ElapsedMs(since: int, at: int): nat {
    if at >= since then (at - since) / MS else 0
  }

  function SaveKey<T>(deque: seq<Entry<T>>, nowMs: int, at: Readings): (r: seq<Stored<T>>)
    ensures |r| == |deque|
  {
    if deque == [] then []
    else
      var n := |deque| - 1;
      SaveKey(deque[..n], nowMs, at) + [Stored(nowMs - ElapsedMs(deque[n].at, at(n)), deque[n].msg)]
  }

  // Instants before `origin` cannot be represented; such an entry counts as new, by a second
  // reading of the clock.
  function InstantOf(ageMs: nat, at: int, again: int, origin: int): int {
    if at - ageMs * MS >= origin then at - ageMs * MS else again
  }

  function LoadKey<T>(stored: seq<Stored<T>>, nowMs: int, at: Readings, again: Readings, origin: int): seq<Entry<T>> {
    if stored == [] then []
    else
      var n := |stored| - 1;
      var e, before := stored[n], LoadKey(stored[..n], nowMs, at, again, origin);
      var ageMs := if nowMs - e.tsMs >= 0 then nowMs - e.tsMs else 0;
      if e.tsMs >= nowMs - RETENTION_MS then before + [Entry(InstantOf(ageMs, at(n), again(n), origin), e.data)]
      else before
  }

  // A save and the load after it: wall clock and instants of both.
  datatype Restart = Restart(savedMs: int, savedAt: Readings, loadedMs: int, loadedAt: Readings, again: Readings,
                             origin: int)

  function AfterRestart<T>(deque: seq<Entry<T>>, r: Restart): seq<Entry<T>> {
    LoadKey(SaveKey(deque, r.savedMs, r.savedAt), r.loadedMs, r.loadedAt, r.again, r.origin)
  }

  // The age of the i-th entry after a restart, in wall-clock time.
  function AgeMs<T>(e: Entry<T>, i: nat, r: Restart): int {
    ElapsedMs(e.at, r.savedAt(i)) + (r.loadedMs - r.savedMs)
  }

  function Survives<T>(e: Entry<T>, i: nat, r: Restart): bool {
    AgeMs(e, i, r) <= RETENTION_MS
  }

  function Restored<T>(e: Entry<T>, i: nat, r: Restart): Entry<T> {
    Entry(InstantOf(if AgeMs(e, i, r) >= 0 then AgeMs(e, i, r) else 0, r.loadedAt(i), r.again(i), r.origin), e.msg)
  }

  function Reloaded<T>(deque: seq<Entry<T>>, r: Restart): seq<Entry<T>> {
    if deque == [] then []
    else
      var n := |deque| - 1;
      Reloaded(deque[..n], r) + if Survives(deque[n], n, r) then [Restored(deque[n], n, r)] else []
  }

  // A restart keeps exactly the entries that are at most a day old, in order, and their age.
  lemma {:induction false} LoadAfterSave<T>(deque: seq<Entry<T>>, r: Restart)
    ensures AfterRestart(deque, r) == Reloaded(deque, r)
  {
    if deque == [] {
      assert SaveKey(deque, r.savedMs, r.savedAt) == [];
    } else {
      var n := |deque| - 1;
      var before, stored := SaveKey(deque[..n], r.savedMs, r.savedAt), SaveKey(deque, r.savedMs, r.savedAt);
      LoadAfterSave(deque[..n], r);
      assert stored[..n] == before
             && stored[n] == Stored(r.savedMs - ElapsedMs(deque[n].at, r.savedAt(n)), deque[n].msg);
      assert Reloaded(deque[..n], r) + [] == Reloaded(deque[..n], r);
    }
  }

  // Nothing that was loaded is later than the clock: what History.HistoryQueue.Load asks for.
  lemma {:induction false} ReloadedIsPast<T>(deque: seq<Entry<T>>, r: Restart, clock: int)
    requires forall i :: 0 <= i < |deque| ==> r.loadedAt(i) <= clock && r.again(i) <= clock
    ensures Past(Reloaded(deque, r), clock)
  {
    if deque == [] {
      assert Reloaded(deque, r) == [];
    } else {
      ReloadedIsPast(deque[..|deque| - 1], r, clock);
    }
  }

  // An entry survives if its age, by the clocks, is at most a day.
  lemma SurvivesMeans<T>(e: Entry<T>, i: nat, r: Restart)
    requires e.at <= r.savedAt(i)
    ensures var age := r.savedAt(i) - e.at + 1_000_000 * (r.loadedMs - r.savedMs);
            && (Survives(e, i, r) ==> age < 86_400_000 * 1_000_000 + 1_000_000)
            && (age <= 86_400_000 * 1_000_000 ==> Survives(e, i, r))
  {
    ElapsedIs(e.at, r.savedAt(i));
  }

  lemma ElapsedIs(since: int, at: int)
    ensures at < since ==> ElapsedMs(since, at) == 0
    ensures at >= since
            ==> 1_000_000 * ElapsedMs(since, at) <= at - since < 1_000_000 * ElapsedMs(since, at) + 1_000_000
  {
  }

  // A restored entry that the clock can represent has the age it had, with the time between save and
  // load added, and short of less than a millisecond; one from ahead of the clocks is brand-new, and so
  // is one the clock cannot represent, by its second reading.
  lemma AgeKept<T>(e: Entry<T>, i: nat, r: Restart)
    requires e.at <= r.savedAt(i) && r.savedMs <= r.loadedMs
    ensures var age := r.savedAt(i) - e.at + 1_000_000 * (r.loadedMs - r.savedMs);
            var restored := Restored(e, i, r);
            && restored.msg == e.msg
            && (r.loadedAt(i) - age >= r.origin ==> age - 1_000_000 < r.loadedAt(i) - restored.at <= age)
            && (r.loadedAt(i) - age + 1_000_000 <= r.origin ==> restored.at == r.again(i))
  {
    ElapsedIs(e.at, r.savedAt(i));
  }

  lemma FutureIsNew<T>(e: Entry<T>, i: nat, r: Restart)
    requires e.at >= r.savedAt(i) && r.savedMs >= r.loadedMs && r.origin <= r.loadedAt(i)
    ensures Survives(e, i, r) && Restored(e, i, r) == Entry(r.loadedAt(i), e.msg)
  {
  }

  lemma {:induction false} ReloadedElements<T>(deque: seq<Entry<T>>, r: Restart, e: Entry<T>)
    ensures e in Reloaded(deque, r)
            <==> exists i :: 0 <= i < |deque| && Survives(deque[i], i, r) && Restored(deque[i], i, r) == e
  {
    hide Survives, Restored;
    if deque == [] {
      assert Reloaded(deque, r) == [];
    } else {
      var n := |deque| - 1;
      ReloadedElements(deque[..n], r, e);
      assert forall i :: 0 <= i < n ==> deque[..n][i] == deque[i];
    }
  }

  // An entry too old for the clock to represent.
  predicate Stamped<T>(e: Entry<T>, i: nat, r: Restart) {
    r.loadedAt(i) - AgeMs(e, i, r) * MS < r.origin
  }

  ghost predicate InOrder<T>(deque: seq<Entry<T>>, r: Restart) {
    forall i, j :: 0 <= i < j < |deque| && Survives(deque[i], i, r) && Survives(deque[j], j, r)
                   ==> Restored(deque[i], i, r).at <= Restored(deque[j], j, r).at
  }

  lemma {:induction false} ReloadedOrder<T>(deque: seq<Entry<T>>, r: Restart)
    ensures Ordered(Reloaded(deque, r)) <==> InOrder(deque, r)
  {
    hide Survives, Restored;
    if deque == [] {
      assert Reloaded(deque, r) == [];
    } else {
      var n := |deque| - 1;
      var before := Reloaded(deque[..n], r);
      ReloadedOrder(deque[..n], r);
      assert forall i :: 0 <= i < n ==> deque[..n][i] == deque[i];
      if Survives(deque[n], n, r) {
        var last := Restored(deque[n], n, r);
        LastOrder(before, last);
        LastAbove(deque[..n], r, last.at);
      } else {
        assert before + [] == before;
      }
    }
  }

  lemma LastOrder<T>(before: seq<Entry<T>>, last: Entry<T>)
    ensures Ordered(before + [last]) <==> Ordered(before) && forall e :: e in before ==> e.at <= last.at
  {
    var all := before + [last];
    assert forall i :: 0 <= i < |before| ==> all[i] == before[i];
    if Ordered(all) {
      forall e | e in before ensures e.at <= last.at {
        var k :| 0 <= k < |before| && before[k] == e;
        assert all[k].at <= all[|before|].at;
      }
    }
  }

  lemma LastAbove<T>(deque: seq<Entry<T>>, r: Restart, at: int)
    ensures (forall e :: e in Reloaded(deque, r) ==> e.at <= at)
            <==> forall i :: 0 <= i < |deque| && Survives(deque[i], i, r) ==> Restored(deque[i], i, r).at <= at
  {
    hide Survives, Restored;
    forall e
      ensures e in Reloaded(deque, r)
              <==> exists i :: 0 <= i < |deque| && Survives(deque[i], i, r) && Restored(deque[i], i, r) == e
    {
      ReloadedElements(deque, r, e);
    }
  }

  // The monotonic clock stands still during the save, and during the load.
  ghost predicate Steady(r: Restart) {
    forall i: nat, j: nat :: r.savedAt(i) == r.savedAt(j) && r.loadedAt(i) == r.again(j)
  }

  // Then a restart keeps a queue in the order of time exactly when no surviving entry that the
  // clock cannot represent is in front of one that it can, unless that one is brand-new.
  lemma OrderAfterRestart<T>(deque: seq<Entry<T>>, r: Restart)
    requires Ordered(deque) && Steady(r)
    ensures Ordered(AfterRestart(deque, r))
            <==> forall i, j :: 0 <= i < j < |deque| && Survives(deque[i], i, r) && Survives(deque[j], j, r)
                                && Stamped(deque[i], i, r) && AgeMs(deque[i], i, r) > 0
                                ==> Stamped(deque[j], j, r) || AgeMs(deque[j], j, r) <= 0
  {
    LoadAfterSave(deque, r);
    ReloadedOrder(deque, r);
    forall i, j | 0 <= i < j < |deque|
      ensures Restored(deque[i], i, r).at <= Restored(deque[j], j, r).at
              <==> (Stamped(deque[i], i, r) && AgeMs(deque[i], i, r) > 0
                    ==> Stamped(deque[j], j, r) || AgeMs(deque[j], j, r) <= 0)
    {
      PairOrder(deque[i], i, deque[j], j, r);
    }
  }

  lemma PairOrder<T>(a: Entry<T>, i: nat, b: Entry<T>, j: nat, r: Restart)
    requires a.at <= b.at && Steady(r)
    ensures Restored(a, i, r).at <= Restored(b, j, r).at
            <==> (Stamped(a, i, r) && AgeMs(a, i, r) > 0 ==> Stamped(b, j, r) || AgeMs(b, j, r) <= 0)
  {
    assert r.loadedAt(i) == r.again(j) == r.loadedAt(j) && r.again(i) == r.again(j);
  }

  // While the clock moves on, entries that it can represent are out of order by less than the time
  // the save took and a millisecond.
  lemma DisorderIsSmall<T>(a: Entry<T>, i: nat, b: Entry<T>, j: nat, r: Restart)
    requires a.at <= b.at && r.savedAt(i) <= r.savedAt(j) && r.loadedAt(i) <= r.loadedAt(j)
    requires !Stamped(a, i, r) && !Stamped(b, j, r) && AgeMs(a, i, r) >= 0 && AgeMs(b, j, r) >= 0
    ensures Restored(a, i, r).at < Restored(b, j, r).at + (r.savedAt(j) - r.savedAt(i)) + MS
  {
    assert MS * ElapsedMs(b.at, r.savedAt(j)) <= if r.savedAt(j) >= b.at then r.savedAt(j) - b.at else 0;
    assert r.savedAt(i) - a.at < MS * (ElapsedMs(a.at, r.savedAt(i)) + 1);
  }

  // And it happens: of two entries of one instant, the later one is saved a millisecond older.
  lemma MovingClockReorders<T>(m: T, r: Restart)
    requires r.savedMs == r.loadedMs && r.savedAt(0) == MS - 1 && r.savedAt(1) == MS
    requires r.loadedAt(0) == r.loadedAt(1) == 5 * MS && r.origin == 0
    ensures var deque := [Entry(0, m), Entry(0, m)];
            AfterRestart(deque, r) == [Entry(5 * MS, m), Entry(4 * MS, m)] && !Ordered(AfterRestart(deque, r))
  {
    var deque := [Entry(0, m), Entry(0, m)];
    LoadAfterSave(deque, r);
    assert deque[..1] == [Entry(0, m)] && deque[..1][..0] == [];
    assert Reloaded(deque[..1][..0], r) == [];
    assert Reloaded(deque[..1], r) == [Restored(Entry(0, m), 0, r)];
    assert Restored(Entry(0, m), 1, r) == Entry(4 * MS, m);
    var now := Reloaded(deque, r);
    assert now == [Entry(5 * MS, m), Entry(4 * MS, m)];
    assert now[0].at > now[1].at;
  }
}
