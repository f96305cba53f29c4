// Whole runs of the reset protocol: what the rig task's events make of the published state, which
// frequency a message's samples were taken at, and which samples a decoder task holds
// (src/trx-server/src/rig_task.rs:606-629, 1148-1175, src/trx-server/src/audio.rs:1973-2445).
module ResetRuns {
  import opened ResetProtocol

  // ---- the rig, told by the events alone -----------------------------------------------------

  function FreqAfter(freq: nat, events: seq<Event>): nat {
    if events == [] then freq
    else
      var e := events[|events| - 1];
      if e.Retune? then e.freq else FreqAfter(freq, events[..|events| - 1])
  }

  function ModeAfter(mode: Mode, events: seq<Event>): Mode {
    if events == [] then mode
    else
      var e := events[|events| - 1];
      if e.SetMode? then e.mode else ModeAfter(mode, events[..|events| - 1])
  }

  function EnabledAfter(enabled: bool, events: seq<Event>): bool {
    if events == [] then enabled
    else
      var e := events[|events| - 1];
      if e.SetEnabled? then e.enabled else EnabledAfter(enabled, events[..|events| - 1])
  }

  // A change of the frequency, by the mode in which it is made.
  predicate RetunedIn(r: Rig, before: seq<Event>, e: Event, other: bool) {
    e.Retune? && e.freq != FreqAfter(r.freq, before) && (ModeAfter(r.mode, before) == Other) == other
  }

  // The resets, and the retunes in DIG and USB.
  function Invalidations(r: Rig, events: seq<Event>): nat {
    if events == [] then 0
    else
      var before, e := events[..|events| - 1], events[|events| - 1];
      Invalidations(r, before) + if e.Reset? || RetunedIn(r, before, e, false) then 1 else 0
  }

  // The retunes in other modes.
  function SilentRetunes(r: Rig, events: seq<Event>): nat {
    if events == [] then 0
    else
      var before, e := events[..|events| - 1], events[|events| - 1];
      SilentRetunes(r, before) + if RetunedIn(r, before, e, true) then 1 else 0
  }

  function RigAfter(r: Rig, events: seq<Event>): Rig {
    Rig(FreqAfter(r.freq, events), ModeAfter(r.mode, events), EnabledAfter(r.enabled, events),
        r.resets + Invalidations(r, events), r.silent + SilentRetunes(r, events))
  }

  // How many events the published state has seen: those before the last publication.
  function Seen(events: seq<Event>): (n: nat)
    ensures n <= |events|
  {
    if events == [] then 0
    else if events[|events| - 1].Publish? then |events| - 1
    else Seen(events[..|events| - 1])
  }

  lemma RigAfterOne(r: Rig, events: seq<Event>)
    requires events != []
    ensures RigAfter(r, events) == RigStep(RigAfter(r, events[..|events| - 1]), events[|events| - 1])
  {
  }

  lemma {:induction false} LastStep(s: System, events: seq<Event>, t: System) returns (u: System)
    requires events != [] && Reaches(s, events, t)
    ensures Reaches(s, events[..|events| - 1], u) && TaskEnabled(u.task, events[|events| - 1])
    ensures t == Step(u, events[|events| - 1])
    decreases |events|
  {
    hide Step, TaskEnabled;
    if |events| == 1 {
      u := s;
      assert events[1..] == [];
    } else {
      u := LastStep(Step(s, events[0]), events[1..], t);
      assert events[..|events| - 1][1..] == events[1..][..|events| - 2];
    }
  }

  // The published state when so many events have happened.
  function Look(r: Rig, events: seq<Event>, v: nat): Rig
    requires v <= |events|
  {
    RigAfter(r, events[..Seen(events[..v])])
  }

  ghost predicate Told(r: Rig, events: seq<Event>, t: System) {
    && t.rig == RigAfter(r, events) && t.published == Look(r, events, |events|)
    && |t.log| == |events| && forall v :: 0 <= v < |events| ==> t.log[v] == Look(r, events, v)
  }

  // In every run the rig is what its events say, and every look at the published state, and the
  // published state itself, what those before the last publication say.
  lemma {:induction false} RigIs(s: System, events: seq<Event>, t: System)
    requires Initial(s) && Reaches(s, events, t)
    ensures Told(s.rig, events, t)
    decreases |events|
  {
    hide Initial, Step, Told, TaskEnabled;
    if events == [] {
      ToldFirst(s);
    } else {
      hide Reaches;
      var n := |events| - 1;
      var u := LastStep(s, events, t);
      RigIs(s, events[..n], u);
      ToldOn(s.rig, events[..n], u, events[n]);
      assert events[..n] + [events[n]] == events;
    }
  }

  lemma ToldOn(r: Rig, events: seq<Event>, u: System, e: Event)
    requires Told(r, events, u) && TaskEnabled(u.task, e)
    ensures Told(r, events + [e], Step(u, e))
  {
    hide RigAfter, RigStep, Look, Step, TaskEnabled;
    var all := events + [e];
    RigAfterOne(r, all);
    assert all[..|all| - 1] == events;
    StepLooks(u, e);
    forall v | 0 <= v <= |events| ensures Look(r, all, v) == Look(r, events, v) {
      LookBefore(r, events, e, v);
    }
    LookNow(r, events, e);
  }

  lemma LookBefore(r: Rig, events: seq<Event>, e: Event, v: nat)
    requires v <= |events|
    ensures Look(r, events + [e], v) == Look(r, events, v)
  {
    hide RigAfter, Seen;
    assert (events + [e])[..v] == events[..v];
    var n := Seen(events[..v]);
    assert (events + [e])[..n] == events[..n];
  }

  lemma LookNow(r: Rig, events: seq<Event>, e: Event)
    ensures var all := events + [e];
            Look(r, all, |all|) == if e.Publish? then RigAfter(r, events) else Look(r, events, |events|)
  {
    hide RigAfter;
    var all := events + [e];
    assert all[..|all|] == all && all[..|events|] == events && events[..|events|] == events;
    assert all[..|all| - 1] == events;
    var n := Seen(events);
    assert all[..n] == events[..n];
  }

  lemma ToldFirst(s: System)
    requires Initial(s)
    ensures Told(s.rig, [], s)
  {
    assert RigAfter(s.rig, []) == s.rig;
  }

  lemma StepLooks(s: System, e: Event)
    requires TaskEnabled(s.task, e)
    ensures var t := Step(s, e);
            && t.rig == RigStep(s.rig, e)
            && t.published == (if e.Publish? then s.rig else s.published)
            && t.log == s.log + [s.published]
  {
    hide TaskStep, RigStep, Emitted;
  }

  // ---- the frequency of a message ---------------------------------------------------------------

  lemma {:induction false} SilentBetween(r: Rig, events: seq<Event>, p: nat, q: nat)
    requires p <= q <= |events| && SilentRetunes(r, events[..p]) != SilentRetunes(r, events[..q])
    ensures exists k :: p <= k < q && RetunedIn(r, events[..k], events[k], true)
    decreases q
  {
    assert events[..q][..q - 1] == events[..q - 1];
    if !RetunedIn(r, events[..q - 1], events[q - 1], true) {
      SilentBetween(r, events, p, q - 1);
    }
  }

  lemma {:induction false} SeenGrows(events: seq<Event>, v: nat, w: nat)
    requires v <= w <= |events|
    ensures Seen(events[..v]) <= Seen(events[..w])
    decreases w
  {
    if v < w {
      assert events[..w][..w - 1] == events[..w - 1];
      SeenGrows(events, v, w - 1);
    }
  }

  // In every run a sample of a message was taken at another frequency than its check saw only if
  // the rig was retuned in another mode, and that was published between the two.
  lemma OtherFrequency(s: System, events: seq<Event>, t: System, m: Message, i: nat)
    requires Initial(s) && Reaches(s, events, t) && m in t.sent && i < |m.samples|
    ensures m.samples[i].at <= m.guard < |t.log| == |events|
    ensures t.log[m.samples[i].at].freq != t.log[m.guard].freq
            ==> exists k :: Seen(events[..m.samples[i].at]) <= k < Seen(events[..m.guard])
                            && RetunedIn(s.rig, events[..k], events[k], true)
  {
    hide Reaches;
    WrongFrequency(s, events, t, m, i);
    RigIs(s, events, t);
    assert Told(s.rig, events, t);
    var at, guard := m.samples[i].at, m.guard;
    if t.log[at].freq != t.log[guard].freq {
      SeenGrows(events, at, guard);
      var p, q := Seen(events[..at]), Seen(events[..guard]);
      assert SilentRetunes(s.rig, events[..p]) < SilentRetunes(s.rig, events[..q]);
      SilentBetween(s.rig, events, p, q);
    }
  }

  lemma {:induction false} NeverLeft(mode: Mode, events: seq<Event>)
    requires mode != Other && SetMode(Other) !in events
    ensures ModeAfter(mode, events) != Other
  {
    if events != [] {
      var n := |events| - 1;
      assert events == events[..n] + [events[n]];
      NeverLeft(mode, events[..n]);
    }
  }

  // While the rig never leaves DIG and USB, every sample of every message was taken at the
  // frequency of its check: retunes invalidate what was held.
  lemma OneFrequency(s: System, events: seq<Event>, t: System, m: Message, i: nat)
    requires Initial(s) && Reaches(s, events, t) && m in t.sent && i < |m.samples|
    requires s.rig.mode != Other && SetMode(Other) !in events
    ensures m.samples[i].at <= m.guard < |t.log| && t.log[m.samples[i].at].freq == t.log[m.guard].freq
  {
    hide Reaches;
    OtherFrequency(s, events, t, m, i);
    if t.log[m.samples[i].at].freq != t.log[m.guard].freq {
      var k :| Seen(events[..m.samples[i].at]) <= k < Seen(events[..m.guard])
               && RetunedIn(s.rig, events[..k], events[k], true);
      assert forall e :: e in events[..k] ==> e in events;
      NeverLeft(s.rig.mode, events[..k]);
    }
  }

  // A retune in DIG or USB invalidates, one in another mode is silent, and one to the same frequency
  // is neither.
  lemma RetuneInvalidates(s: System, freq: nat)
    ensures var rig := Step(s, Retune(freq)).rig;
            rig == if freq == s.rig.freq then s.rig
                   else if s.rig.mode == Other then s.rig.(freq := freq, silent := s.rig.silent + 1)
                   else s.rig.(freq := freq, resets := s.rig.resets + 1)
  {
  }

  // ---- the samples a task holds -------------------------------------------------------------------

  function Held(t: Task): seq<Sample> {
    t.window + t.buf
  }

  // A waiting task goes on waiting, and an idle one starts to, exactly while the decoder is enabled in
  // DIG or USB.
  lemma WakeIs(s: System)
    requires TaskEnabled(s.task, Wake)
    ensures var pc := Step(s, Wake).task.pc;
            if s.published.enabled && s.published.mode != Other then pc == Waiting else pc == Inactive
  {
  }

  // An idle task holds nothing, and only the decoder of FT8 and FT4 has a memory of its own.
  ghost predicate IdleIsEmpty(t: Task) {
    && (t.pc.Inactive? ==> t.buf == [] && t.window == [])
    && (!t.kind.Ftx? ==> t.window == [])
  }

  // So it is from the start, and HeldIs keeps it.
  lemma EmptyAtFirst(s: System)
    requires Initial(s)
    ensures IdleIsEmpty(s.task) && Inv(s)
  {
  }

  predicate Looking(e: Event) {
    e.Wake? || e.Frame? || e.Check? || e.Accept?
  }

  // Whether a step of the task drops what it holds: a look that finds the sequence moved or the
  // decoder not wanted, a new slot of FT8 and FT4, and the end of a WSPR decode.
  predicate Drops(t: Task, r: Rig, e: Event)
  {
    || (Looking(e) && r.resets != t.last)
    || (e.Wake? && !(r.enabled && r.mode != Other))
    || (e.Frame? && e.newSlot && t.kind.Ftx?)
    || (t.kind.Wspr? && (e.EmitDone? || (e.Check? && t.pc.Checking? && !t.pc.found)))
  }

  // The samples a step takes in: those of a frame, unless it finds the sequence moved.
  function Taken(t: Task, r: Rig, e: Event, now: nat): seq<Sample> {
    if r.resets != t.last then []
    else if e.Frame? && !t.kind.Wspr? then seq(e.count, _ => Sample(now))
    else if e.Accept? then seq(e.count, _ => Sample(now))
    else []
  }

  ghost predicate HeldAfter(t: Task, r: Rig, e: Event, now: nat, u: Task) {
    && IdleIsEmpty(u)
    && (if e.Drop? then e.count <= |t.buf| && u.window == t.window && u.buf == t.buf[e.count..]
        else Held(u) == (if Drops(t, r, e) then [] else Held(t)) + Taken(t, r, e, now))
    && u.last == if Looking(e) then r.resets else t.last
  }

  // What is held changes in no other way, but for the oldest samples that may be dropped to keep a
  // buffer short; and every look leaves the task with the published sequence.
  lemma HeldIs(s: System, e: Event)
    requires Inv(s) && TaskEnabled(s.task, e) && IdleIsEmpty(s.task)
    ensures HeldAfter(s.task, s.published, e, |s.log|, Step(s, e).task)
  {
    hide LogOk, MessageOk, Recorded, From, RigStep, Emitted, HeldAfter, TaskStep, IdleIsEmpty;
    TaskHeld(s.task, s.published, |s.log|, e);
  }

  lemma TaskHeld(t: Task, r: Rig, now: nat, e: Event)
    requires TaskEnabled(t, e) && IdleIsEmpty(t) && (t.pc.Checking? ==> t.pc.current == t.last)
    ensures HeldAfter(t, r, e, now, TaskStep(t, r, now, e))
  {
    assert Held(t) + [] == Held(t);
    match e
    case Decode(take, _) => DecodeHeld(t, r, now, e);
    case Frame(_, _) => FrameHeld(t, r, now, e);
    case Accept(count) => FrameHeld(t, r, now, e);
    case Check => CheckHeld(t, r, now);
    case _ =>
  }

  lemma CheckHeld(t: Task, r: Rig, now: nat)
    requires t.pc.Checking? && IdleIsEmpty(t) && t.pc.current == t.last
    ensures HeldAfter(t, r, Check, now, TaskStep(t, r, now, Check))
  {
    assert Held(t) + [] == Held(t);
  }

  lemma DecodeHeld(t: Task, r: Rig, now: nat, e: Event)
    requires e.Decode? && t.pc.Decoding? && IdleIsEmpty(t)
    ensures HeldAfter(t, r, e, now, TaskStep(t, r, now, e))
  {
    assert Held(t) + [] == Held(t);
    if t.kind.Ftx? && 0 < e.take <= |t.buf| {
      assert t.buf == t.buf[..e.take] + t.buf[e.take..];
      assert (t.window + t.buf[..e.take]) + t.buf[e.take..] == Held(t);
    }
  }

  lemma FrameHeld(t: Task, r: Rig, now: nat, e: Event)
    requires (e.Frame? || e.Accept?) && TaskEnabled(t, e) && IdleIsEmpty(t)
    ensures HeldAfter(t, r, e, now, TaskStep(t, r, now, e))
  {
    var news := Stamped(e.count, now);
    assert news == seq(e.count, _ => Sample(now));
    assert t.window + (t.buf + news) == Held(t) + news;
    assert Held(t) + [] == Held(t);
    assert [] + ([] + news) == [] + news;
  }

  // ---- what cannot get past an empty buffer --------------------------------------------------------

  ghost predicate AllFrom(samples: seq<Sample>, n: nat) {
    forall i :: 0 <= i < |samples| ==> samples[i].at >= n
  }

  // Nothing that the task holds or works on is from before step `n`.
  ghost predicate TaskYoung(t: Task, n: nat) {
    && AllFrom(t.buf, n) && AllFrom(t.window, n)
    && (t.pc.Checking? || t.pc.Emitting? ==> AllFrom(t.pc.source, n))
  }

  // Nor is any message but the first `k` ones.
  ghost predicate Young(s: System, n: nat, k: nat) {
    && n <= |s.log| && k <= |s.sent|
    && TaskYoung(s.task, n)
    && forall i :: k <= i < |s.sent| ==> AllFrom(s.sent[i].samples, n)
  }

  lemma TaskStepYoung(t: Task, r: Rig, now: nat, e: Event, n: nat)
    requires TaskYoung(t, n) && n <= now && TaskEnabled(t, e)
    ensures TaskYoung(TaskStep(t, r, now, e), n)
  {
  }

  lemma StepYoung(s: System, e: Event, n: nat, k: nat)
    requires Young(s, n, k) && TaskEnabled(s.task, e)
    ensures Young(Step(s, e), n, k)
  {
    hide RigStep, TaskStep, AllFrom;
    TaskStepYoung(s.task, s.published, |s.log|, e, n);
    assert forall m :: m in Emitted(s.task, e, |s.log|) ==> AllFrom(m.samples, n);
  }

  lemma {:induction false} StaysYoung(s: System, events: seq<Event>, t: System, n: nat, k: nat)
    requires Young(s, n, k) && Reaches(s, events, t)
    ensures Young(t, n, k)
    decreases |events|
  {
    hide Young, Step, TaskEnabled;
    if events == [] {
    } else {
      StepYoung(s, events[0], n, k);
      StaysYoung(Step(s, events[0]), events[1..], t, n, k);
    }
  }

  // A step that drops everything held is a barrier: no message sent later has a sample from before it.
  lemma DropIsABarrier(s: System, e: Event, events: seq<Event>, t: System, i: nat)
    requires Inv(s) && IdleIsEmpty(s.task) && TaskEnabled(s.task, e) && Drops(s.task, s.published, e)
    requires Reaches(Step(s, e), events, t) && |s.sent| <= i < |t.sent|
    ensures AllFrom(t.sent[i].samples, |s.log|)
  {
    hide Inv, Step, Reaches;
    var u := Step(s, e);
    HeldIs(s, e);
    DropLeavesNoSource(s, e);
    TakenNow(s.task, s.published, e, |s.log|, u.task);
    StaysYoung(u, events, t, |s.log|, |s.sent|);
  }

  lemma TakenNow(t: Task, r: Rig, e: Event, now: nat, u: Task)
    requires Held(u) == [] + Taken(t, r, e, now)
    ensures AllFrom(u.buf, now) && AllFrom(u.window, now)
  {
    assert Held(u) == Taken(t, r, e, now);
    forall i | 0 <= i < |u.buf| ensures u.buf[i].at >= now {
      assert u.buf[i] == Held(u)[|u.window| + i];
    }
    forall i | 0 <= i < |u.window| ensures u.window[i].at >= now {
      assert u.window[i] == Held(u)[i];
    }
  }

  lemma DropLeavesNoSource(s: System, e: Event)
    requires Inv(s) && TaskEnabled(s.task, e) && Drops(s.task, s.published, e)
    ensures var t := Step(s, e);
            !t.task.pc.Checking? && !t.task.pc.Emitting? && t.sent == s.sent && |t.log| == |s.log| + 1
  {
    hide LogOk, MessageOk, Recorded, From, RigStep;
  }

  // ---- what does get through ----------------------------------------------------------------------

  // FT8 and FT4: a frame, a block of it that completes a decode with a result, an unmoved sequence.
  lemma FtxCycle(s: System, count: nat, take: nat) returns (t: System)
    requires s.task.kind.Ftx? && s.task.pc.Waiting? && s.task.last == s.published.resets
    requires 0 < take <= |s.task.buf| + count
    ensures Reaches(s, [Frame(false, count), Decode(take, true), Check, Emit], t)
    ensures var n, now := |s.log|, s.task.buf + seq(count, _ => Sample(|s.log|));
            t.sent == s.sent + [Message(s.task.window + now[..take], n + 2, n + 3)]
  {
    t := FourSteps(s, Frame(false, count), Decode(take, true));
  }

  // FT2: the same, the decoder being shown the end of the buffer.
  lemma Ft2Cycle(s: System, newSlot: bool, count: nat, take: nat) returns (t: System)
    requires s.task.kind.Ft2? && s.task.pc.Waiting? && s.task.last == s.published.resets
    requires 0 < take <= |s.task.buf| + count
    ensures Reaches(s, [Frame(newSlot, count), Decode(take, true), Check, Emit], t)
    ensures var n, now := |s.log|, s.task.buf + seq(count, _ => Sample(|s.log|));
            t.sent == s.sent + [Message(now[|now| - take..], n + 2, n + 3)]
  {
    t := FourSteps(s, Frame(newSlot, count), Decode(take, true));
  }

  // WSPR: the first frame of a new slot has the whole buffer decoded, with the base frequency read
  // before; then the buffer is emptied and the frame taken in.
  lemma WsprCycle(s: System, count: nat) returns (t: System, u: System)
    requires s.task.kind.Wspr? && s.task.pc.Waiting? && s.task.last == s.published.resets
    ensures Reaches(s, [Frame(true, count), ReadBase(true), Check, Emit], t) && Reaches(t, [EmitDone, Accept(count)], u)
    ensures t.sent == s.sent + [Message(s.task.buf, |s.log| + 2, |s.log| + 1)] && u.sent == t.sent
    ensures u.task.pc == Waiting && u.task.buf == seq(count, _ => Sample(|s.log| + 5))
  {
    t := FourSteps(s, Frame(true, count), ReadBase(true));
    hide Step, Reaches;
    u := WsprAccepts(t, count);
  }

  lemma WsprAccepts(t: System, count: nat) returns (u: System)
    requires t.task.kind.Wspr? && t.task.pc.Emitting? && t.task.last == t.published.resets
    ensures Reaches(t, [EmitDone, Accept(count)], u) && u.sent == t.sent
    ensures u.task.pc == Waiting && u.task.buf == seq(count, _ => Sample(|t.log| + 1))
  {
    hide Step, Reaches;
    TaskTick(t, EmitDone);
    var v := Step(t, EmitDone);
    TaskTick(v, Accept(count));
    u := Step(v, Accept(count));
    TwoSteps(t, EmitDone, Accept(count));
  }

  // A step of the task but the one that sends.
  lemma TaskTick(s: System, e: Event)
    requires TaskEnabled(s.task, e) && (e.Frame? || e.Decode? || e.ReadBase? || e.Check? || e.EmitDone? || e.Accept?)
    ensures Step(s, e) == Tick(s).(task := TaskStep(s.task, s.published, |s.log|, e))
  {
    hide TaskStep;
    NothingEmitted(s, e);
  }

  // From a frame to the message it completes.
  lemma FourSteps(s: System, a: Event, b: Event) returns (t: System)
    requires TaskEnabled(s.task, a) && a.Frame? && (b.Decode? || b.ReadBase?)
    requires var t1 := TaskStep(s.task, s.published, |s.log|, a);
             TaskEnabled(t1, b)
             && var t2 := TaskStep(t1, s.published, |s.log| + 1, b);
                t2.pc.Checking? && t2.pc.found && t2.pc.current == s.published.resets
    ensures Reaches(s, [a, b, Check, Emit], t)
    ensures t.published == s.published && |t.log| == |s.log| + 4
    ensures var t1 := TaskStep(s.task, s.published, |s.log|, a);
            var t2 := TaskStep(t1, s.published, |s.log| + 1, b);
            var base := if t2.kind.Wspr? then t2.pc.base else |s.log| + 3;
            && t.sent == s.sent + [Message(t2.pc.source, |s.log| + 2, base)]
            && t.task == t2.(pc := Emitting(t2.pc.current, t2.pc.source, |s.log| + 2, t2.pc.base))
  {
    hide Step, Framed, Decoded, Reaches;
    TaskTick(s, a);
    var x := Step(s, a);
    TaskTick(x, b);
    var y := Step(x, b);
    StepCheck(y);
    var z := Step(y, Check);
    SendStep(z);
    t := Step(z, Emit);
    TwoSteps(s, a, b);
    TwoSteps(y, Check, Emit);
    ReachesAppend(s, [a, b], y, [Check, Emit], t);
    assert [a, b] + [Check, Emit] == [a, b, Check, Emit];
  }

  lemma TwoSteps(s: System, a: Event, b: Event)
    requires TaskEnabled(s.task, a) && TaskEnabled(Step(s, a).task, b)
    ensures Reaches(s, [a, b], Step(Step(s, a), b))
  {
    hide Step, TaskEnabled;
    var u := Step(s, a);
    assert [a, b][1..] == [b] && [b][1..] == [];
    assert Reaches(u, [b], Step(u, b));
  }

  lemma SendStep(s: System)
    requires s.task.pc.Emitting?
    ensures var m := Message(s.task.pc.source, s.task.pc.guard, if s.task.kind.Wspr? then s.task.pc.base else |s.log|);
            Step(s, Emit) == Tick(s).(recorded := s.recorded + [m], sent := s.sent + [m])
  {
  }

  // Without a result nothing is sent.
  lemma NotFoundSilent(s: System)
    requires s.task.pc.Checking? && !s.task.pc.found
    ensures !Step(s, Check).task.pc.Emitting? && Step(s, Check).sent == s.sent
  {
    NothingEmitted(s, Check);
  }

  // A task that has dropped what it held, or has taken a frame in, waits for the next event; one that
  // is through with a decode looks for the next block, or, for WSPR, takes in the frame.
  lemma WhereNext(s: System, e: Event)
    requires TaskEnabled(s.task, e)
    ensures var pc, moved := Step(s, e).task.pc, s.published.resets != s.task.last;
            && (e.Accept? || (e.Frame? && moved) ==> pc == Waiting)
            && (e.Check? && s.published.resets != s.task.pc.current ==> pc == Waiting)
            && (e.EmitDone? || (e.Check? && s.published.resets == s.task.pc.current && !s.task.pc.found)
                ==> pc == if s.task.kind.Wspr? then Accepting else Decoding(s.task.pc.current))
            && (e.Stop? ==> pc == Stopped)
  {
    hide RigStep, Emitted;
  }

  // A task that has stopped sends nothing more.
  lemma {:induction false} StoppedIsSilent(s: System, events: seq<Event>, t: System)
    requires s.task.pc == Stopped && Reaches(s, events, t)
    ensures t.sent == s.sent && t.task.pc == Stopped
    decreases |events|
  {
    hide RigStep;
    if events == [] {
    } else {
      NothingEmitted(s, events[0]);
      StoppedIsSilent(Step(s, events[0]), events[1..], t);
    }
  }
}
