// The shared entry count of all history queues (src/trx-server/src/audio.rs:273-298) under
// every interleaving of the tasks that record, take snapshots and clear. A task holds the
// lock of its queue from its first look at the length until the count is adjusted.
module HistoryCounter {

  // What the holder of a queue's lock is doing: changing the queue since it took the old
  // length, or inside the compare-and-swap loop with the value of the count it last saw.
  datatype Phase =
    | Unlocked
    | Editing(before: nat)
    | Subtracting(delta: nat, current: nat)

  // `counted` is the length at the last completed adjustment of the count.
  datatype Queue = Queue(len: nat, counted: nat, phase: Phase)

  // `loaded` counts the entries that were read back from disk.
  datatype System = System(total: nat, queues: seq<Queue>, loaded: nat)

  // Loads of the count are relaxed, so the value seen can be any. A weak compare-and-swap
  // may fail for no reason.
  datatype Event =
    | Lock(q: nat)
    | Edit(q: nat, length: nat)
    | Adjust(q: nat, seen: nat)
    | CompareAndSwap(q: nat, spurious: bool, seen: nat)
    | Load(q: nat, entries: nat)

  function SaturatingSub(a: nat, b: nat): nat {
    if a >= b then a - b else 0
  }

  predicate Enabled(s: System, e: Event) {
    && e.q < |s.queues|
    && match e
       case Lock(q) => s.queues[q].phase.Unlocked?
       case Edit(q, _) => s.queues[q].phase.Editing?
       case Adjust(q, _) => s.queues[q].phase.Editing?
       case CompareAndSwap(q, _, _) => s.queues[q].phase.Subtracting?
       case Load(q, _) => s.queues[q].phase.Unlocked?
  }

  function Set(s: System, q: nat, queue: Queue): System
    requires q < |s.queues|
  {
    s.(queues := s.queues[q := queue])
  }

  function Step(s: System, e: Event): System
    requires Enabled(s, e)
  {
    var x := s.queues[e.q];
    match e
    case Lock(q) => Set(s, q, x.(phase := Editing(x.len)))
    case Edit(q, length) => Set(s, q, x.(len := length))
    case Adjust(q, seen) =>
      var before := x.phase.before;
      if x.len > before then Set(s, q, Queue(x.len, x.len, Unlocked)).(total := s.total + (x.len - before))
      else if before > x.len then Set(s, q, x.(phase := Subtracting(before - x.len, seen)))
      else Set(s, q, Queue(x.len, x.len, Unlocked))
    case CompareAndSwap(q, spurious, seen) =>
      var current := x.phase.current;
      if s.total == current && !spurious then
        Set(s, q, Queue(x.len, x.len, Unlocked)).(total := SaturatingSub(current, x.phase.delta))
      else Set(s, q, x.(phase := Subtracting(x.phase.delta, seen)))
    case Load(q, entries) =>
      Set(s, q, Queue(x.len + entries, x.counted + entries, Unlocked)).(loaded := s.loaded + entries)
  }

  ghost predicate Empty(s: System) {
    s.total == 0 && s.loaded == 0 && forall q :: 0 <= q < |s.queues| ==> s.queues[q] == Queue(0, 0, Unlocked)
  }

  // The states of a run, every event being possible where it happens.
  ghost predicate Run(states: seq<System>, events: seq<Event>) {
    && |states| == |events| + 1
    && Empty(states[0])
    && forall i :: 0 <= i < |events| ==> Enabled(states[i], events[i]) && states[i + 1] == Step(states[i], events[i])
  }

  function Sum(queues: seq<Queue>): nat {
    if queues == [] then 0 else queues[0].counted + Sum(queues[1..])
  }

  function Lengths(queues: seq<Queue>): nat {
    if queues == [] then 0 else queues[0].len + Lengths(queues[1..])
  }

  lemma {:induction false} SumSet(queues: seq<Queue>, q: nat, x: Queue)
    requires q < |queues|
    ensures Sum(queues[q := x]) == Sum(queues) - queues[q].counted + x.counted
    ensures Sum(queues) >= queues[q].counted
  {
    if q == 0 {
      assert queues[0 := x][1..] == queues[1..];
    } else {
      SumSet(queues[1..], q - 1, x);
      assert queues[q := x][1..] == queues[1..][q - 1 := x];
    }
  }

  ghost predicate QueueOk(x: Queue) {
    match x.phase
    case Unlocked => x.counted == x.len
    case Editing(before) => x.counted == before
    case Subtracting(delta, _) => delta > 0 && x.counted == x.len + delta
  }

  ghost predicate Inv(s: System) {
    && (forall q :: 0 <= q < |s.queues| ==> QueueOk(s.queues[q]))
    && s.total <= Sum(s.queues) <= s.total + s.loaded
  }

  lemma {:induction false} SumOfEmpty(queues: seq<Queue>)
    requires forall q :: 0 <= q < |queues| ==> queues[q] == Queue(0, 0, Unlocked)
    ensures Sum(queues) == 0
  {
    if queues == [] {
    } else {
      SumOfEmpty(queues[1..]);
    }
  }

  lemma StepKeepsInv(s: System, e: Event)
    requires Inv(s) && Enabled(s, e)
    ensures Inv(Step(s, e))
  {
    var t := Step(s, e);
    var x := s.queues[e.q];
    SumSet(s.queues, e.q, t.queues[e.q]);
    assert t.queues == s.queues[e.q := t.queues[e.q]];
    assert QueueOk(x);
  }

  // In every run the count is the sum of the lengths at the last adjustments, short of at
  // most the entries that were loaded from disk without being counted.
  lemma {:induction false} CountIsSum(states: seq<System>, events: seq<Event>, i: nat)
    requires Run(states, events) && i < |states|
    ensures Inv(states[i])
    ensures states[i].loaded == 0 ==> states[i].total == Sum(states[i].queues)
  {
    if i == 0 {
      SumOfEmpty(states[0].queues);
    } else {
      CountIsSum(states, events, i - 1);
      StepKeepsInv(states[i - 1], events[i - 1]);
    }
  }

  // Without loaded entries no subtraction ever saturates.
  lemma NeverSaturates(states: seq<System>, events: seq<Event>, i: nat)
    requires Run(states, events) && i < |events|
    requires events[i].CompareAndSwap? && states[i].loaded == 0
    requires states[i + 1].queues[events[i].q].phase.Unlocked?
    ensures var phase := states[i].queues[events[i].q].phase;
            phase.current >= phase.delta && states[i + 1].total == states[i].total - phase.delta
  {
    CountIsSum(states, events, i);
    var q := events[i].q;
    SumSet(states[i].queues, q, states[i].queues[q]);
  }

  lemma {:induction false} LengthsCounted(queues: seq<Queue>)
    requires forall q :: 0 <= q < |queues| ==> queues[q].counted == queues[q].len
    ensures Lengths(queues) == Sum(queues)
  {
    if queues == [] {
    } else {
      LengthsCounted(queues[1..]);
    }
  }

  // Whenever no task is inside an operation, the count is the number of entries.
  lemma QuietCountIsExact(states: seq<System>, events: seq<Event>, i: nat)
    requires Run(states, events) && i < |states|
    requires forall q :: 0 <= q < |states[i].queues| ==> states[i].queues[q].phase.Unlocked?
    ensures states[i].total <= Lengths(states[i].queues) <= states[i].total + states[i].loaded
    ensures states[i].loaded == 0 ==> states[i].total == Lengths(states[i].queues)
  {
    CountIsSum(states, events, i);
    LengthsCounted(states[i].queues);
  }

  // One operation by itself, with a swap that fails before it succeeds: from any quiet queue, the
  // length is what was edited, and the count has changed by the difference.
  lemma OperationCounts(s: System, q: nat, length: nat, seen: nat)
    requires Inv(s) && s.loaded == 0 && q < |s.queues| && s.queues[q].phase.Unlocked?
    ensures Enabled(Step(s, Lock(q)), Edit(q, length))
    ensures Enabled(Step(Step(s, Lock(q)), Edit(q, length)), Adjust(q, seen))
    ensures var t := Step(Step(Step(s, Lock(q)), Edit(q, length)), Adjust(q, seen));
            var tries := [CompareAndSwap(q, true, s.total), CompareAndSwap(q, false, 0)];
            length < s.queues[q].len ==> Enabled(t, tries[0]) && Enabled(Step(t, tries[0]), tries[1])
    ensures var t := Step(Step(Step(s, Lock(q)), Edit(q, length)), Adjust(q, seen));
            var u := if length >= s.queues[q].len then t
                     else Step(Step(t, CompareAndSwap(q, true, s.total)), CompareAndSwap(q, false, 0));
            && u.queues == s.queues[q := Queue(length, length, Unlocked)]
            && u.total == s.total - s.queues[q].len + length && u.loaded == 0
  {
    hide Inv, Sum;
    CountedThere(s, q);
    assert s.queues[q := s.queues[q]] == s.queues;
  }

  lemma CountedThere(s: System, q: nat)
    requires Inv(s) && s.loaded == 0 && q < |s.queues| && s.queues[q].phase.Unlocked?
    ensures s.queues[q].len == s.queues[q].counted <= s.total
  {
    SumSet(s.queues, q, s.queues[q]);
    assert QueueOk(s.queues[q]);
  }

  // Loading appends entries and counts none.
  lemma LoadCountsNothing(s: System, q: nat, entries: nat)
    requires Enabled(s, Load(q, entries))
    ensures var t := Step(s, Load(q, entries));
            t.total == s.total && t.loaded == s.loaded + entries && t.queues[q].len == s.queues[q].len + entries
  {
  }

  // What a step does to the shortfall: a load adds to it, a subtraction that saturates makes
  // up for part of it, and nothing else changes it.
  lemma Shortfall(s: System, e: Event)
    requires Inv(s) && Enabled(s, e)
    ensures var t := Step(s, e);
            var before, after := Sum(s.queues) - s.total, Sum(t.queues) - t.total;
            after - before
            == if e.Load? then e.entries
               else if e.CompareAndSwap? && t.queues[e.q].phase.Unlocked? && s.queues[e.q].phase.delta > s.total
                    then s.total - s.queues[e.q].phase.delta
               else 0
  {
    var t := Step(s, e);
    SumSet(s.queues, e.q, t.queues[e.q]);
    assert t.queues == s.queues[e.q := t.queues[e.q]];
    assert QueueOk(s.queues[e.q]);
  }

  lemma {:induction false} LoadedGrows(states: seq<System>, events: seq<Event>, i: nat, j: nat)
    requires Run(states, events) && i <= j < |states|
    ensures states[i].loaded <= states[j].loaded
    decreases j
  {
    if i == j {
    } else {
      LoadedGrows(states, events, i, j - 1);
    }
  }

  // The first step that loads entries takes the count off the sum.
  lemma {:induction false} LoadIsMissed(states: seq<System>, events: seq<Event>, n: nat)
    requires Run(states, events) && n < |states| && states[n].loaded > 0
    ensures exists i :: 0 <= i <= n && states[i].total != Sum(states[i].queues)
    decreases n
  {
    if n == 0 {
    } else {
      if states[n - 1].loaded > 0 {
        LoadIsMissed(states, events, n - 1);
      } else {
        CountIsSum(states, events, n - 1);
        Shortfall(states[n - 1], events[n - 1]);
      }
    }
  }

  // Over a run, the count is the sum of the lengths at their last adjustments throughout if and
  // only if no entry has been loaded from disk.
  lemma ExactIffNothingLoaded(states: seq<System>, events: seq<Event>, n: nat)
    requires Run(states, events) && n < |states|
    ensures (forall i :: 0 <= i <= n ==> states[i].total == Sum(states[i].queues)) <==> states[n].loaded == 0
  {
    if states[n].loaded > 0 {
      LoadIsMissed(states, events, n);
    } else {
      forall i | 0 <= i <= n ensures states[i].total == Sum(states[i].queues) {
        LoadedGrows(states, events, i, n);
        CountIsSum(states, events, i);
      }
    }
  }

  // Five entries are loaded and two of them expire: the count stays at zero.
  lemma LoadedEntriesAreNotCounted()
    ensures var s0 := System(0, [Queue(0, 0, Unlocked)], 0);
            var s1 := Step(s0, Load(0, 5));
            var s2 := Step(s1, Lock(0));
            var s3 := Step(s2, Edit(0, 3));
            var s4 := Step(s3, Adjust(0, 0));
            var s5 := Step(s4, CompareAndSwap(0, false, 0));
            Empty(s0) && s5 == System(0, [Queue(3, 3, Unlocked)], 5)
  {
    var s0 := System(0, [Queue(0, 0, Unlocked)], 0);
    var s1 := Step(s0, Load(0, 5));
    assert s1 == System(0, [Queue(5, 5, Unlocked)], 5);
    var s2 := Step(s1, Lock(0));
    assert s2 == System(0, [Queue(5, 5, Editing(5))], 5);
    var s3 := Step(s2, Edit(0, 3));
    assert s3 == System(0, [Queue(3, 5, Editing(5))], 5);
    var s4 := Step(s3, Adjust(0, 0));
    assert s4 == System(0, [Queue(3, 5, Subtracting(2, 0))], 5);
  }
}
