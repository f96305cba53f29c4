// Decoder history queues of the server (src/trx-server/src/audio.rs:249-253, 302-331,
// 404-409). The queues of all decoders have the same code; instants are in nanoseconds.
module History {

  const RETENTION := 24 * 60 * 60 * 1_000_000_000
  const MAX_ENTRIES := 10_000

  datatype Entry<T> = Entry(at: int, msg: T)

  // ---- the two ways in which entries leave -----------------------------------------------

  // The index of the first entry that is not older than the cutoff.
  function FirstFresh<T>(q: seq<Entry<T>>, cutoff: int): (r: nat)
    ensures r <= |q|
    ensures forall i :: 0 <= i < r ==> q[i].at < cutoff
    ensures r < |q| ==> q[r].at >= cutoff
  {
    if q == [] || q[0].at >= cutoff then 0 else 1 + FirstFresh(q[1..], cutoff)
  }

  function Unexpired<T>(q: seq<Entry<T>>, now: int): seq<Entry<T>> {
    q[FirstFresh(q, now - RETENTION)..]
  }

  function Newest<T>(q: seq<Entry<T>>, max: nat): seq<Entry<T>> {
    if |q| > max then q[|q| - max..] else q
  }

  // The prune loop, on any queue: it stops at the first entry that has not expired.
  method Prune<T>(q: seq<Entry<T>>, now: int) returns (r: seq<Entry<T>>)
    ensures r == Unexpired(q, now)
  {
    var cutoff := now - RETENTION;
    r := q;
    ghost var dropped := 0;
    while r != [] && r[0].at < cutoff
      invariant 0 <= dropped <= |q| && r == q[dropped..]
      invariant forall i :: 0 <= i < dropped ==> q[i].at < cutoff
      decreases |r|
    {
      r := r[1..];
      dropped := dropped + 1;
    }
    FirstFreshIs(q, cutoff, dropped);
  }

  lemma FirstFreshIs<T>(q: seq<Entry<T>>, cutoff: int, n: nat)
    requires n <= |q| && (forall i :: 0 <= i < n ==> q[i].at < cutoff) && (n < |q| ==> q[n].at >= cutoff)
    ensures FirstFresh(q, cutoff) == n
  {
  }

  method EnforceCapacity<T>(q: seq<Entry<T>>, max: nat) returns (r: seq<Entry<T>>)
    ensures r == Newest(q, max)
  {
    r := q;
    while |r| > max
      invariant |r| <= |q| && r == q[|q| - |r|..]
      invariant |q| > max ==> |r| >= max
      invariant |q| <= max ==> r == q
      decreases |r|
    {
      r := r[1..];
    }
  }

  // Pruning leaves no expired entry exactly when the expired ones are all in front; entries
  // that were loaded from disk need not be in order.
  lemma PruneIsComplete<T>(q: seq<Entry<T>>, cutoff: int)
    ensures (forall e :: e in q[FirstFresh(q, cutoff)..] ==> e.at >= cutoff)
            <==> forall i, j :: 0 <= i < j < |q| && q[j].at < cutoff ==> q[i].at < cutoff
  {
    var n := FirstFresh(q, cutoff);
    if forall i, j :: 0 <= i < j < |q| && q[j].at < cutoff ==> q[i].at < cutoff {
      forall e | e in q[n..] ensures e.at >= cutoff {
        var k :| 0 <= k < |q[n..]| && q[n..][k] == e;
        assert q[n + k] == e;
      }
    }
    if forall e :: e in q[n..] ==> e.at >= cutoff {
      forall j | n <= j < |q| ensures q[j].at >= cutoff {
        assert q[n..][j - n] == q[j];
      }
    }
  }

  // ---- what a queue holds after a run --------------------------------------------------------

  ghost predicate Ordered<T>(log: seq<Entry<T>>) {
    forall i, j :: 0 <= i <= j < |log| ==> log[i].at <= log[j].at
  }

  function Max(a: int, b: int): int {
    if a > b then a else b
  }

  // How many records of the log have left: those expired at the last prune, and those with
  // 10,000 newer ones.
  function Left<T>(log: seq<Entry<T>>, cutoff: int): (r: nat)
    ensures r <= |log|
  {
    Max(FirstFresh(log, cutoff), |log| - MAX_ENTRIES)
  }

  function Kept<T>(log: seq<Entry<T>>, cutoff: int): seq<Entry<T>> {
    log[Left(log, cutoff)..]
  }

  lemma FreshSuffix<T>(log: seq<Entry<T>>, cutoff: int, n: nat)
    requires Ordered(log) && n <= |log|
    ensures FirstFresh(log[n..], cutoff) == Max(FirstFresh(log, cutoff) - n, 0)
  {
    var f := FirstFresh(log, cutoff);
    FirstFreshIs(log[n..], cutoff, Max(f - n, 0));
  }

  lemma {:induction false} FreshAtLeast<T>(log: seq<Entry<T>>, cutoff: int, n: nat)
    requires n <= |log| && forall i :: 0 <= i < n ==> log[i].at < cutoff
    ensures n <= FirstFresh(log, cutoff)
  {
    if n == 0 {
    } else {
      FreshAtLeast(log[1..], cutoff, n - 1);
    }
  }

  lemma FreshLater<T>(log: seq<Entry<T>>, earlier: int, later: int)
    requires earlier <= later
    ensures FirstFresh(log, earlier) <= FirstFresh(log, later)
  {
    FreshAtLeast(log, later, FirstFresh(log, earlier));
  }

  lemma SliceSlice<T>(s: seq<T>, n: nat, k: nat)
    requires n + k <= |s|
    ensures s[n..][k..] == s[n + k..]
  {
  }

  // Pruning again.
  lemma KeptPruned<T>(log: seq<Entry<T>>, earlier: int, later: int)
    requires Ordered(log) && earlier <= later
    ensures var q := Kept(log, earlier); q[FirstFresh(q, later)..] == Kept(log, later)
  {
    hide FirstFresh;
    var n := Left(log, earlier);
    FreshLater(log, earlier, later);
    FreshSuffix(log, later, n);
    SliceSlice(log, n, Max(FirstFresh(log, later) - n, 0));
  }

  lemma PrunedAndCut<T>(all: seq<Entry<T>>, q: seq<Entry<T>>, n: nat, later: int)
    requires n <= Left(all, later) && q == all[n..]
    requires FirstFresh(q, later) == Max(FirstFresh(all, later) - n, 0)
    ensures Newest(q[FirstFresh(q, later)..], MAX_ENTRIES) == Kept(all, later)
  {
    hide FirstFresh;
    TwoCuts(all, n, FirstFresh(q, later), MAX_ENTRIES);
  }

  lemma TwoCuts<T>(s: seq<Entry<T>>, n: nat, k: nat, max: nat)
    requires n + k <= |s|
    ensures Newest(s[n..][k..], max) == s[Max(n + k, |s| - max)..]
  {
    SliceSlice(s, n, k);
    var p := s[n + k..];
    if |p| > max {
      SliceSlice(s, n + k, |p| - max);
    }
  }

  // Nothing in the log is later than the clock.
  ghost predicate Past<T>(log: seq<Entry<T>>, clock: int) {
    forall i :: 0 <= i < |log| ==> log[i].at <= clock
  }

  // The queue is the end of the log, and the rest has left for a reason.
  ghost predicate LeftRightly<T>(log: seq<Entry<T>>, q: seq<Entry<T>>, cutoff: int) {
    && |q| <= |log| && q == log[|log| - |q|..]
    && forall i :: 0 <= i < |log| - |q| ==> log[i].at < cutoff || |log| - (i + 1) >= 10_000
  }

  // In a log in the order of time, nothing has left too early.
  ghost predicate NotEarly<T>(log: seq<Entry<T>>, q: seq<Entry<T>>, cutoff: int) {
    Ordered(log) ==> |log| - |q| <= Left(log, cutoff)
  }

  lemma OrderedSnoc<T>(log: seq<Entry<T>>, e: Entry<T>, clock: int)
    requires Past(log, clock) && clock <= e.at
    ensures Past(log + [e], e.at) && (Ordered(log) <==> Ordered(log + [e]))
  {
    var all := log + [e];
    assert forall i :: 0 <= i < |log| ==> all[i] == log[i];
  }

  // More behind the queue and the log, with no prune.
  lemma LeftRightlyAppend<T>(log: seq<Entry<T>>, q: seq<Entry<T>>, more: seq<Entry<T>>, cutoff: int)
    requires LeftRightly(log, q, cutoff)
    ensures LeftRightly(log + more, q + more, cutoff)
  {
    var n := |log| - |q|;
    assert (log + more)[n..] == log[n..] + more;
    assert forall i :: 0 <= i < |log| ==> (log + more)[i] == log[i];
  }

  lemma LeftRightlyPruned<T>(log: seq<Entry<T>>, q: seq<Entry<T>>, earlier: int, now: int)
    requires LeftRightly(log, q, earlier) && earlier <= now - RETENTION
    ensures LeftRightly(log, Unexpired(q, now), now - RETENTION)
  {
    var n, f := |log| - |q|, FirstFresh(q, now - RETENTION);
    SliceSlice(log, n, f);
    forall i | n <= i < n + f ensures log[i].at < now - RETENTION {
      assert log[i] == q[i - n];
    }
  }

  lemma LeftRightlyCut<T>(log: seq<Entry<T>>, q: seq<Entry<T>>, cutoff: int)
    requires LeftRightly(log, q, cutoff)
    ensures LeftRightly(log, Newest(q, MAX_ENTRIES), cutoff)
  {
    if |q| > MAX_ENTRIES {
      SliceSlice(log, |log| - |q|, |q| - MAX_ENTRIES);
    }
  }

  lemma LeftGrows<T>(log: seq<Entry<T>>, more: seq<Entry<T>>, cutoff: int)
    ensures Left(log, cutoff) <= Left(log + more, cutoff)
  {
    var f, all := FirstFresh(log, cutoff), log + more;
    assert forall i :: 0 <= i < |log| ==> all[i] == log[i];
    FreshAtLeast(all, cutoff, f);
  }

  lemma OrderedFront<T>(a: seq<Entry<T>>, b: seq<Entry<T>>)
    requires Ordered(a + b)
    ensures Ordered(a)
  {
    assert forall i :: 0 <= i < |a| ==> (a + b)[i] == a[i];
  }

  lemma NotEarlyAppend<T>(log: seq<Entry<T>>, q: seq<Entry<T>>, more: seq<Entry<T>>, cutoff: int)
    requires NotEarly(log, q, cutoff)
    ensures NotEarly(log + more, q + more, cutoff)
  {
    hide Ordered;
    LeftGrows(log, more, cutoff);
    if Ordered(log + more) {
      OrderedFront(log, more);
    }
  }

  // Pruned, and then cut or not: the queue of an ordered log.
  lemma PrunedQueue<T>(log: seq<Entry<T>>, q: seq<Entry<T>>, earlier: int, now: int)
    requires Ordered(log) && LeftRightly(log, q, earlier) && NotEarly(log, q, earlier) && earlier <= now - RETENTION
    ensures NotEarly(log, Unexpired(q, now), now - RETENTION)
    ensures Newest(Unexpired(q, now), MAX_ENTRIES) == Kept(log, now - RETENTION)
  {
    hide FirstFresh, Ordered;
    var n, later := |log| - |q|, now - RETENTION;
    FreshLater(log, earlier, later);
    FreshSuffix(log, later, n);
    PrunedAndCut(log, q, n, later);
  }

  // One more record, pushed, pruned and cut to the capacity: of a log in the order of time, however
  // much of it was loaded, exactly what the formula says remains.
  lemma RecordedQueue<T>(log: seq<Entry<T>>, q: seq<Entry<T>>, e: Entry<T>, clock: int, pruned: int, now: int)
    requires LeftRightly(log, q, pruned - RETENTION) && NotEarly(log, q, pruned - RETENTION)
    requires Past(log, clock) && pruned <= clock <= e.at <= now
    ensures var kept := Newest(Unexpired(q + [e], now), MAX_ENTRIES);
            && LeftRightly(log + [e], kept, now - RETENTION)
            && NotEarly(log + [e], kept, now - RETENTION)
            && Past(log + [e], now)
            && (Ordered(log) <==> Ordered(log + [e]))
            && (Ordered(log) ==> kept == Kept(log + [e], now - RETENTION))
  {
    hide LeftRightly, NotEarly, Kept, FirstFresh, Ordered, Newest, Unexpired;
    OrderedSnoc(log, e, clock);
    LeftRightlyAppend(log, q, [e], pruned - RETENTION);
    NotEarlyAppend(log, q, [e], pruned - RETENTION);
    LeftRightlyPruned(log + [e], q + [e], pruned - RETENTION, now);
    LeftRightlyCut(log + [e], Unexpired(q + [e], now), now - RETENTION);
    if Ordered(log) {
      PrunedQueue(log + [e], q + [e], pruned - RETENTION, now);
      KeptIsNotEarly(log + [e], now - RETENTION);
    } else {
      UnorderedIsNotEarly(log + [e], Newest(Unexpired(q + [e], now), MAX_ENTRIES), now - RETENTION);
    }
  }

  lemma KeptIsNotEarly<T>(log: seq<Entry<T>>, cutoff: int)
    ensures NotEarly(log, Kept(log, cutoff), cutoff)
  {
  }

  lemma UnorderedIsNotEarly<T>(log: seq<Entry<T>>, q: seq<Entry<T>>, cutoff: int)
    requires !Ordered(log)
    ensures NotEarly(log, q, cutoff)
  {
  }

  lemma SnapshotQueue<T>(log: seq<Entry<T>>, q: seq<Entry<T>>, clock: int, pruned: int, now: int)
    requires LeftRightly(log, q, pruned - RETENTION) && NotEarly(log, q, pruned - RETENTION)
    requires Past(log, clock) && pruned <= clock <= now
    ensures LeftRightly(log, Unexpired(q, now), now - RETENTION)
    ensures NotEarly(log, Unexpired(q, now), now - RETENTION)
    ensures Past(log, now)
    ensures Ordered(log) && q == Kept(log, pruned - RETENTION) ==> Unexpired(q, now) == Kept(log, now - RETENTION)
  {
    hide LeftRightly, NotEarly, Kept, FirstFresh, Ordered;
    LeftRightlyPruned(log, q, pruned - RETENTION, now);
    if Ordered(log) {
      PrunedQueue(log, q, pruned - RETENTION, now);
      KeptPruned(log, pruned - RETENTION, now - RETENTION);
    } else {
      UnorderedIsNotEarly(log, Unexpired(q, now), now - RETENTION);
    }
  }

  class HistoryQueue<T> {
    var deque: seq<Entry<T>>
    // Everything loaded or recorded since the queue was last cleared, the instant of the last
    // prune, and the last instant read from the clock.
    ghost var log: seq<Entry<T>>
    ghost var pruned: int
    ghost var clock: int

    ghost predicate Valid()
      reads this
    {
      && Past(log, clock)
      && pruned <= clock
      && LeftRightly(log, deque, pruned - RETENTION)
      && NotEarly(log, deque, pruned - RETENTION)
    }

    // What the log and the last prune say.
    ghost predicate Settled()
      reads this
    {
      deque == Kept(log, pruned - RETENTION)
    }

    constructor (now: int)
      ensures Valid() && Settled() && deque == [] && log == [] && clock == now
    {
      hide Kept, Past, LeftRightly, NotEarly;
      NothingKept<T>(now - RETENTION, now);
      deque := [];
      log := [];
      pruned, clock := now, now;
    }

    // At the start of the server, entries from disk: neither pruned nor cut, in any order.
    method Load(loaded: seq<Entry<T>>)
      requires Valid() && Past(loaded, clock)
      modifies this`deque, this`log
      ensures Valid() && log == old(log) + loaded && deque == old(deque) + loaded
    {
      hide Ordered, FirstFresh, LeftRightly, NotEarly;
      deque := deque + loaded;
      LeftRightlyAppend(log, old(deque), loaded, pruned - RETENTION);
      NotEarlyAppend(log, old(deque), loaded, pruned - RETENTION);
      log := log + loaded;
    }

    // The clock is read for the new entry, and again for the prune.
    method Record(msg: T, pushedAt: int, prunedAt: int)
      requires Valid() && clock <= pushedAt <= prunedAt
      modifies this
      ensures Valid() && clock == pruned == prunedAt
      ensures log == old(log) + [Entry(pushedAt, msg)]
      ensures deque == Newest(Unexpired(old(deque) + [Entry(pushedAt, msg)], prunedAt), MAX_ENTRIES)
      ensures Ordered(log) <==> old(Ordered(log))
      ensures Ordered(log) ==> Settled() && forall e :: e in deque ==> e.at >= prunedAt - 86_400_000_000_000
    {
      hide Kept, FirstFresh, Ordered, Past, LeftRightly, NotEarly, Newest, Unexpired;
      var h := deque + [Entry(pushedAt, msg)];
      h := Prune(h, prunedAt);
      h := EnforceCapacity(h, MAX_ENTRIES);
      RecordedQueue(log, deque, Entry(pushedAt, msg), clock, pruned, prunedAt);
      deque := h;
      log := log + [Entry(pushedAt, msg)];
      pruned, clock := prunedAt, prunedAt;
      if Ordered(log) {
        KeptMeans(log, pruned - RETENTION);
      }
    }

    method Snapshot(now: int) returns (msgs: seq<T>)
      requires Valid() && clock <= now
      modifies this`deque, this`pruned, this`clock
      ensures Valid() && clock == pruned == now
      ensures deque == Unexpired(old(deque), now)
      ensures Ordered(log) && old(Settled()) ==> Settled()
      ensures |msgs| == |deque| && forall i :: 0 <= i < |msgs| ==> msgs[i] == deque[i].msg
    {
      hide Kept, FirstFresh, Ordered, Past, LeftRightly, NotEarly, Unexpired;
      SnapshotQueue(log, deque, clock, pruned, now);
      deque := Prune(deque, now);
      pruned, clock := now, now;
      msgs := [];
      while |msgs| < |deque|
        invariant |msgs| <= |deque| && forall i :: 0 <= i < |msgs| ==> msgs[i] == deque[i].msg
      {
        msgs := msgs + [deque[|msgs|].msg];
      }
    }

    method Clear()
      requires Valid()
      modifies this`deque, this`log
      ensures Valid() && Settled() && deque == [] && log == []
    {
      hide Kept, Past, LeftRightly, NotEarly;
      NothingKept<T>(pruned - RETENTION, clock);
      deque := [];
      log := [];
    }
  }

  lemma NothingKept<T>(cutoff: int, clock: int)
    ensures Kept<T>([], cutoff) == [] && Past<T>([], clock)
    ensures LeftRightly<T>([], [], cutoff) && NotEarly<T>([], [], cutoff)
  {
  }

  // What the formula for the contents means: a suffix of the log within the capacity, without
  // entries that had expired at the last prune, and nothing else has left but entries with
  // 10,000 newer ones.
  lemma KeptMeans<T>(log: seq<Entry<T>>, cutoff: int)
    requires Ordered(log)
    ensures Kept(log, cutoff) == log[|log| - |Kept(log, cutoff)|..] && |Kept(log, cutoff)| <= MAX_ENTRIES
    ensures forall e :: e in Kept(log, cutoff) ==> e.at >= cutoff
    ensures forall i :: 0 <= i < |log| - |Kept(log, cutoff)| ==> log[i].at < cutoff || |log| - (i + 1) >= MAX_ENTRIES
  {
    var n := Left(log, cutoff);
    forall e | e in log[n..] ensures e.at >= cutoff {
      var k :| 0 <= k < |log[n..]| && log[n..][k] == e;
      assert log[n + k] == e && FirstFresh(log, cutoff) <= n + k;
    }
  }
}
