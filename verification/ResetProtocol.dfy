// The reset-sequence protocol between the rig task (src/trx-server/src/rig_task.rs:606-629,
// 1148-1175) and an FT8/FT4, FT2 or WSPR decoder task (src/trx-server/src/audio.rs:1973-2117,
// 2144-2278, 2309-2445), as a state machine in which every look at the shared state is one
// step. Audio blocks, slot changes and the decoders' results are events that can be anything.
module ResetProtocol {
  datatype Mode = DIG | USB | Other

  // The part of the rig state that matters here. `silent` counts the frequency changes made
  // in modes in which this decoder's window is not invalidated.
  datatype Rig = Rig(freq: nat, mode: Mode, enabled: bool, resets: nat, silent: nat)

  // A sample knows the step of the check that accepted it.
  datatype Sample = Sample(at: nat)

  // A message knows what it was decoded from, the step of the check that guards its
  // publication, and the step at which its base frequency was read.
  datatype Message = Message(samples: seq<Sample>, guard: nat, base: nat)

  datatype Kind = Ftx | Ft2 | Wspr

  datatype Pc =
    | Inactive
    | Waiting
    | Decoding(current: nat)
    | NewSlot(current: nat)
    | Checking(current: nat, source: seq<Sample>, found: bool, base: nat)
    | Emitting(current: nat, source: seq<Sample>, guard: nat, base: nat)
    | Accepting
    | Stopped

  // `window` is what the decoder itself has been fed since it was last reset.
  datatype Task = Task(kind: Kind, pc: Pc, last: nat, buf: seq<Sample>, window: seq<Sample>)

  // `log` holds the published rig state of every step so far.
  datatype System = System(log: seq<Rig>, rig: Rig, published: Rig, task: Task, recorded: seq<Message>,
                           sent: seq<Message>)

  datatype Event =
    // the rig task
    | Retune(freq: nat)
    | SetMode(mode: Mode)
    | SetEnabled(enabled: bool)
    | Reset
    | ClearHistory
    | Publish
    // the decoder task
    | Wake
    | Frame(newSlot: bool, count: nat)
    | Decode(take: nat, found: bool)
    | ReadBase(found: bool)
    | Check
    | Emit
    | EmitDone
    | Accept(count: nat)
    | Drop(count: nat)
    | Stop

  // ---- the rig task -------------------------------------------------------------------

  // A frequency change in a mode this decoder works in invalidates its window.
  function Retuned(r: Rig, freq: nat): Rig {
    if r.freq == freq then r
    else if r.mode.DIG? || r.mode.USB? then r.(freq := freq, resets := r.resets + 1)
    else r.(freq := freq, silent := r.silent + 1)
  }

  // ---- the decoder task -----------------------------------------------------------------

  function Stamped(count: nat, at: nat): (r: seq<Sample>)
    ensures forall x :: x in r ==> x.at == at
  {
    seq(count, _ => Sample(at))
  }

  function Cleared(t: Task): Task {
    t.(buf := [], window := [])
  }

  function Active(r: Rig): bool {
    r.enabled && (r.mode.DIG? || r.mode.USB?)
  }

  // A change notification. An idle WSPR task always empties its buffer.
  function Woken(t: Task, r: Rig): Task {
    var u := if r.resets != t.last || (t.pc.Inactive? && t.kind.Wspr?) then Cleared(t.(last := r.resets)) else t;
    if Active(r) then u.(pc := Waiting)
    else if t.pc.Inactive? then u
    else Cleared(u.(pc := Inactive))
  }

  // A frame of audio: dropped, with everything held, when the sequence has moved.
  function Framed(t: Task, r: Rig, newSlot: bool, count: nat, now: nat): Task {
    var u := if t.kind.Ftx? && newSlot then Cleared(t) else t;
    if r.resets != u.last then Cleared(u.(last := r.resets, pc := Waiting))
    else if u.kind.Wspr? then u.(pc := if newSlot then NewSlot(r.resets) else Accepting)
    else u.(buf := u.buf + Stamped(count, now), pc := Decoding(r.resets))
  }

  // One decode: FT8 and FT4 feed a block to the decoder, FT2 shows it the end of the buffer.
  function Decoded(t: Task, take: nat, found: bool): Task
    requires t.pc.Decoding?
  {
    if take > |t.buf| || take == 0 then t.(pc := Waiting)
    else if t.kind.Ftx? then
      var window := t.window + t.buf[..take];
      t.(buf := t.buf[take..], window := window, pc := Checking(t.pc.current, window, found, 0))
    else t.(pc := Checking(t.pc.current, t.buf[|t.buf| - take..], found, 0))
  }

  // The check after a decode.
  function Checked(t: Task, r: Rig, now: nat): Task
    requires t.pc.Checking?
  {
    if r.resets != t.pc.current then Cleared(t.(last := r.resets, pc := Waiting))
    else if t.pc.found then t.(pc := Emitting(t.pc.current, t.pc.source, now, t.pc.base))
    else Finished(t, t.pc.current)
  }

  function Finished(t: Task, current: nat): Task {
    if t.kind.Wspr? then t.(buf := [], pc := Accepting) else t.(pc := Decoding(current))
  }

  // The WSPR task looks a last time before it takes the frame.
  function Accepted(t: Task, r: Rig, count: nat, now: nat): Task {
    if r.resets != t.last then Cleared(t.(last := r.resets, pc := Waiting))
    else t.(buf := t.buf + Stamped(count, now), pc := Waiting)
  }

  predicate TaskEnabled(t: Task, e: Event) {
    match e
    case Wake => t.pc.Inactive? || t.pc.Waiting?
    case Frame(_, _) => t.pc.Waiting?
    case Decode(_, _) => t.pc.Decoding?
    case ReadBase(_) => t.pc.NewSlot?
    case Check => t.pc.Checking?
    case Emit => t.pc.Emitting?
    case EmitDone => t.pc.Emitting?
    case Accept(_) => t.pc.Accepting?
    case Drop(count) => count <= |t.buf|
    case _ => true
  }

  // What the decoder task does in one step, against the published state it sees.
  function TaskStep(t: Task, r: Rig, now: nat, e: Event): Task
    requires TaskEnabled(t, e)
  {
    match e
    case Wake => Woken(t, r)
    case Frame(newSlot, count) => Framed(t, r, newSlot, count, now)
    case Decode(take, found) => Decoded(t, take, found)
    case ReadBase(found) => t.(pc := Checking(t.pc.current, t.buf, found, now))
    case Check => Checked(t, r, now)
    case EmitDone => Finished(t, t.pc.current)
    case Accept(count) => Accepted(t, r, count, now)
    case Drop(count) => t.(buf := t.buf[count..])
    case Stop => t.(pc := Stopped)
    case _ => t
  }

  // ---- steps ------------------------------------------------------------------------------

  function RigStep(r: Rig, e: Event): Rig {
    match e
    case Retune(freq) => Retuned(r, freq)
    case SetMode(mode) => r.(mode := mode)
    case SetEnabled(enabled) => r.(enabled := enabled)
    case Reset => r.(resets := r.resets + 1)
    case _ => r
  }

  function Emitted(t: Task, e: Event, now: nat): seq<Message>
    requires TaskEnabled(t, e)
  {
    if e.Emit? then [Message(t.pc.source, t.pc.guard, if t.kind.Wspr? then t.pc.base else now)] else []
  }

  function Step(s: System, e: Event): System
    requires TaskEnabled(s.task, e)
  {
    var now := |s.log|;
    System(s.log + [s.published], RigStep(s.rig, e), if e.Publish? then s.rig else s.published,
           TaskStep(s.task, s.published, now, e),
           if e.ClearHistory? then [] else s.recorded + Emitted(s.task, e, now), s.sent + Emitted(s.task, e, now))
  }

  predicate Initial(s: System) {
    && s.log == [] && s.rig == s.published && s.recorded == [] && s.sent == []
    && s.task.buf == [] && s.task.window == [] && s.task.last == 0 && (s.task.pc.Inactive? || s.task.pc.Waiting?)
  }

  ghost predicate Reaches(s: System, events: seq<Event>, t: System)
    decreases |events|
  {
    if events == [] then t == s
    else TaskEnabled(s.task, events[0]) && Reaches(Step(s, events[0]), events[1..], t)
  }

  // ---- what every step keeps ---------------------------------------------------------------

  // Counters only grow, and while they stand still so does the frequency.
  predicate Later(a: Rig, b: Rig) {
    && a.resets <= b.resets && a.silent <= b.silent
    && (a.resets == b.resets && a.silent == b.silent ==> a.freq == b.freq)
  }

  ghost predicate LogOk(s: System) {
    && (forall u, v :: 0 <= u <= v < |s.log| ==> Later(s.log[u], s.log[v]))
    && (forall u :: 0 <= u < |s.log| ==> Later(s.log[u], s.published))
    && Later(s.published, s.rig)
  }

  // The samples were accepted up to step `end`, while the sequence was `current`.
  ghost predicate From(samples: seq<Sample>, log: seq<Rig>, current: nat, end: nat) {
    end <= |log| && forall i :: 0 <= i < |samples| ==> samples[i].at < end && log[samples[i].at].resets == current
  }

  ghost predicate At(step: nat, log: seq<Rig>, current: nat) {
    step < |log| && log[step].resets == current
  }

  ghost predicate TaskOk(t: Task, log: seq<Rig>) {
    && From(t.buf, log, t.last, |log|) && From(t.window, log, t.last, |log|)
    && match t.pc
       case Decoding(current) => current == t.last && !t.kind.Wspr?
       case NewSlot(current) => current == t.last && t.kind.Wspr?
       case Checking(current, source, _, base) =>
         && current == t.last
         && From(source, log, current, |log|)
         && (t.kind.Wspr? ==> base < |log| && From(source, log, current, base + 1))
       case Emitting(current, source, guard, base) =>
         && current == t.last
         && At(guard, log, current)
         && From(source, log, current, guard + 1)
         && (t.kind.Wspr? ==> base <= guard && From(source, log, current, base + 1))
       case _ => true
  }

  // What holds of every message: its samples were accepted at or before the check, with the
  // sequence that the check saw. WSPR reads its base frequency before the check, the others
  // after it.
  ghost predicate MessageOk(m: Message, kind: Kind, log: seq<Rig>) {
    && m.guard < |log| && m.base < |log|
    && From(m.samples, log, log[m.guard].resets, m.guard + 1)
    && (if kind.Wspr? then m.base <= m.guard && From(m.samples, log, log[m.guard].resets, m.base + 1)
        else m.guard < m.base)
  }

  ghost predicate Inv(s: System) {
    && LogOk(s)
    && TaskOk(s.task, s.log)
    && (forall i :: 0 <= i < |s.sent| ==> MessageOk(s.sent[i], s.task.kind, s.log))
    && Recorded(s)
  }

  // What is in the history has been sent.
  ghost predicate Recorded(s: System) {
    forall i :: 0 <= i < |s.recorded| ==> s.recorded[i] in s.sent
  }

  lemma FromLater(samples: seq<Sample>, log: seq<Rig>, r: Rig, current: nat, end: nat)
    requires From(samples, log, current, end)
    ensures From(samples, log + [r], current, end) && From(samples, log + [r], current, |log + [r]|)
  {
  }

  lemma TaskLater(t: Task, log: seq<Rig>, r: Rig)
    requires TaskOk(t, log)
    ensures TaskOk(t, log + [r])
  {
    FromLater(t.buf, log, r, t.last, |log|);
    FromLater(t.window, log, r, t.last, |log|);
    match t.pc
    case Checking(current, source, _, base) => {
      FromLater(source, log, r, current, |log|);
      if t.kind.Wspr? {
        FromLater(source, log, r, current, base + 1);
      }
    }
    case Emitting(current, source, guard, base) => {
      FromLater(source, log, r, current, guard + 1);
      if t.kind.Wspr? {
        FromLater(source, log, r, current, base + 1);
      }
    }
    case _ =>
  }

  lemma MessageLater(m: Message, kind: Kind, log: seq<Rig>, r: Rig)
    requires MessageOk(m, kind, log)
    ensures MessageOk(m, kind, log + [r])
  {
    FromLater(m.samples, log, r, log[m.guard].resets, m.guard + 1);
    if kind.Wspr? {
      FromLater(m.samples, log, r, log[m.guard].resets, m.base + 1);
    }
  }

  lemma CheckingKept(t: Task, log: seq<Rig>, r: Rig, e: Event)
    requires TaskOk(t, log) && TaskEnabled(t, e) && (e.Check? || e.Decode? || e.ReadBase?)
    ensures TaskOk(TaskStep(t, r, |log|, e), log + [r])
  {
    TaskLater(t, log, r);
  }

  lemma FramesKept(t: Task, log: seq<Rig>, r: Rig, e: Event)
    requires TaskOk(t, log) && TaskEnabled(t, e) && (e.Frame? || e.Accept?)
    ensures TaskOk(TaskStep(t, r, |log|, e), log + [r])
  {
    TaskLater(t, log, r);
  }

  lemma TaskStepKept(t: Task, log: seq<Rig>, r: Rig, e: Event)
    requires TaskOk(t, log) && TaskEnabled(t, e)
    ensures TaskOk(TaskStep(t, r, |log|, e), log + [r])
  {
    match e
    case Check => CheckingKept(t, log, r, e);
    case Decode(_, _) => CheckingKept(t, log, r, e);
    case ReadBase(_) => CheckingKept(t, log, r, e);
    case Frame(_, _) => FramesKept(t, log, r, e);
    case Accept(_) => FramesKept(t, log, r, e);
    case _ => TaskLater(t, log, r);
  }

  lemma LogKept(s: System, e: Event)
    requires LogOk(s) && TaskEnabled(s.task, e)
    ensures LogOk(Step(s, e))
  {
    hide TaskStep, Emitted;
    var t := Step(s, e);
    forall u, v | 0 <= u <= v < |t.log| ensures Later(t.log[u], t.log[v]) {
      assert v < |s.log| ==> t.log[v] == s.log[v] && t.log[u] == s.log[u];
    }
  }

  lemma RecordedKept(s: System, e: Event)
    requires Recorded(s) && TaskEnabled(s.task, e)
    ensures Recorded(Step(s, e))
  {
    hide TaskStep, Emitted, RigStep;
  }

  lemma StepKeepsInv(s: System, e: Event)
    requires Inv(s) && TaskEnabled(s.task, e)
    ensures Inv(Step(s, e))
  {
    hide LogOk, MessageOk, TaskStep, Emitted, Recorded;
    var t := Step(s, e);
    RecordedKept(s, e);
    LogKept(s, e);
    TaskStepKept(s.task, s.log, s.published, e);
    KindStays(s.task, s.published, |s.log|, e);
    EmittedOk(s.task, s.log, s.published, e);
    forall i | 0 <= i < |t.sent| ensures MessageOk(t.sent[i], s.task.kind, t.log) {
      if i < |s.sent| {
        MessageLater(s.sent[i], s.task.kind, s.log, s.published);
      }
    }
  }

  lemma KindStays(t: Task, r: Rig, now: nat, e: Event)
    requires TaskEnabled(t, e)
    ensures TaskStep(t, r, now, e).kind == t.kind
  {
  }

  lemma EmittedOk(t: Task, log: seq<Rig>, r: Rig, e: Event)
    requires TaskOk(t, log) && TaskEnabled(t, e)
    ensures forall m :: m in Emitted(t, e, |log|) ==> MessageOk(m, t.kind, log + [r])
  {
    TaskLater(t, log, r);
  }

  lemma {:induction false} ReachesInv(s: System, events: seq<Event>, t: System)
    requires Inv(s) && Reaches(s, events, t)
    ensures Inv(t) && t.task.kind == s.task.kind
    decreases |events|
  {
    hide Inv, Step;
    if events == [] {
    } else {
      StepKeepsInv(s, events[0]);
      StepKind(s, events[0]);
      ReachesInv(Step(s, events[0]), events[1..], t);
    }
  }

  lemma StepKind(s: System, e: Event)
    requires TaskEnabled(s.task, e)
    ensures Step(s, e).task.kind == s.task.kind
  {
    KindStays(s.task, s.published, |s.log|, e);
  }

  // In every interleaving, each message comes only from samples such that the reset sequence
  // stood still from the check that accepted the sample to the check that guards the message.
  lemma NoStaleMessage(s: System, events: seq<Event>, t: System, m: Message)
    requires Initial(s) && Reaches(s, events, t) && m in t.sent
    ensures m.guard < |t.log|
    ensures forall i, u :: 0 <= i < |m.samples| && m.samples[i].at <= u <= m.guard
                           ==> t.log[u].resets == t.log[m.guard].resets
  {
    ReachesInv(s, events, t);
    SentOk(t, m);
    forall i, u | 0 <= i < |m.samples| && m.samples[i].at <= u <= m.guard
      ensures t.log[u].resets == t.log[m.guard].resets
    {
      assert Later(t.log[m.samples[i].at], t.log[u]) && Later(t.log[u], t.log[m.guard]);
    }
  }

  lemma SentOk(t: System, m: Message)
    requires Inv(t) && m in t.sent
    ensures MessageOk(m, t.task.kind, t.log)
  {
  }

  // Once a new sequence has been published, no message whose check comes later contains a
  // sample accepted before.
  lemma ResetIsABarrier(s: System, events: seq<Event>, t: System, m: Message, p: nat)
    requires Initial(s) && Reaches(s, events, t) && m in t.sent
    requires p + 1 < |t.log| && t.log[p].resets != t.log[p + 1].resets && m.guard > p
    ensures forall i :: 0 <= i < |m.samples| ==> m.samples[i].at > p
  {
    NoStaleMessage(s, events, t, m);
    var before, after := t.log[p].resets, t.log[p + 1].resets;
    forall i | 0 <= i < |m.samples| ensures m.samples[i].at > p {
    }
  }

  // The dial frequency of a message, which was read at step `base`, is the one its samples
  // were taken at, when neither counter moved in between. For WSPR the reset sequence cannot
  // have moved; for the others it can, after the check.
  lemma DialFrequency(s: System, events: seq<Event>, t: System, m: Message)
    requires Initial(s) && Reaches(s, events, t) && m in t.sent
    ensures m.base < |t.log| && m.guard < |t.log|
    ensures forall i :: 0 <= i < |m.samples| ==> m.samples[i].at < |t.log| && m.samples[i].at <= m.base
    ensures forall i :: 0 <= i < |m.samples| && t.log[m.samples[i].at].silent == t.log[m.base].silent
                        && (t.task.kind.Wspr? || t.log[m.base].resets == t.log[m.guard].resets)
                        ==> t.log[m.samples[i].at].freq == t.log[m.base].freq
  {
    ReachesInv(s, events, t);
    SentOk(t, m);
    NoStaleMessage(s, events, t, m);
    forall i | 0 <= i < |m.samples| ensures m.samples[i].at <= m.base && Later(t.log[m.samples[i].at], t.log[m.base]) {
    }
  }

  // ---- what the protocol does not prevent -------------------------------------------------

  // Of a message in the history and a reset that has been published: the message is from
  // after the reset if and only if its check is. So the history keeps a message from before
  // exactly when its check came before the publication; clearing the history first does not
  // matter.
  lemma HistoryFreshIff(s: System, events: seq<Event>, t: System, m: Message, p: nat)
    requires Initial(s) && Reaches(s, events, t) && m in t.recorded && m.samples != []
    requires p + 1 < |t.log| && t.log[p].resets != t.log[p + 1].resets
    ensures (forall i :: 0 <= i < |m.samples| ==> m.samples[i].at > p) <==> m.guard > p
  {
    ReachesInv(s, events, t);
    InHistory(t, m);
    SentOk(t, m);
    if m.guard > p {
      ResetIsABarrier(s, events, t, m, p);
    } else {
      assert m.samples[0].at <= m.guard;
    }
  }

  lemma InHistory(t: System, m: Message)
    requires Inv(t) && m in t.recorded
    ensures m in t.sent
  {
  }

  // What the dial frequency of a message can go wrong by: its samples differ only by retunes
  // that invalidate nothing, and its base frequency only by these or by a reset after the check.
  lemma WrongFrequency(s: System, events: seq<Event>, t: System, m: Message, i: nat)
    requires Initial(s) && Reaches(s, events, t) && m in t.sent && i < |m.samples|
    ensures m.samples[i].at <= m.guard < |t.log| && m.base < |t.log|
    ensures var sample, check, base := t.log[m.samples[i].at], t.log[m.guard], t.log[m.base];
            && (sample.freq != check.freq ==> sample.silent < check.silent)
            && (sample.freq != base.freq ==> sample.silent < base.silent || check.resets < base.resets)
            && (t.task.kind.Wspr? ==> base.resets == check.resets)
  {
    ReachesInv(s, events, t);
    SentOk(t, m);
    NoStaleMessage(s, events, t, m);
    var at := m.samples[i].at;
    assert Later(t.log[at], t.log[m.guard]) && Later(t.log[at], t.log[m.base]);
    assert !t.task.kind.Wspr? ==> Later(t.log[m.guard], t.log[m.base]);
  }

  // From any state past a check: a complete reset leaves room for a record from before it.
  lemma HistoryKeepsStaleMessage(s: System)
    requires Inv(s) && s.task.pc.Emitting?
    ensures var cleared := Step(Step(Step(s, ClearHistory), Reset), Publish);
            var t := Step(cleared, Emit);
            && cleared.recorded == [] && cleared.published.resets > s.published.resets
            && |t.recorded| == 1 && t.recorded[0].samples == s.task.pc.source
            && From(t.recorded[0].samples, s.log, s.task.pc.current, |s.log|)
  {
    var a := Step(s, ClearHistory);
    assert a.recorded == [] + Emitted(s.task, ClearHistory, |s.log|) == [];
    assert a.task == s.task;
    var b := Step(a, Reset);
    assert b.recorded == [] && b.task == s.task;
    var c := Step(b, Publish);
    assert c.recorded == [] && c.task == s.task;
  }

  // From any state past a check: a retune gives the message the new frequency, except for WSPR.
  lemma BaseReadTooLate(s: System, freq: nat)
    requires Inv(s) && s.task.pc.Emitting? && !s.task.kind.Wspr?
    ensures var t := Step(Step(Step(s, Retune(freq)), Publish), Emit);
            && |t.sent| == |s.sent| + 1 && t.sent[|s.sent|].samples == s.task.pc.source
            && t.log[t.sent[|s.sent|].base].freq == freq
  {
    var a := Step(s, Retune(freq));
    assert a.task == s.task && a.sent == s.sent;
    var b := Step(a, Publish);
    assert b.task == s.task && b.sent == s.sent;
  }

  // ---- runs that show it ----------------------------------------------------------------------

  lemma {:induction false} ReachesAppend(s: System, a: seq<Event>, t: System, b: seq<Event>, u: System)
    requires Reaches(s, a, t) && Reaches(t, b, u)
    ensures Reaches(s, a + b, u)
    decreases |a|
  {
    hide Step;
    if a == [] {
      assert a + b == b;
    } else {
      assert (a + b)[1..] == a[1..] + b;
      ReachesAppend(Step(s, a[0]), a[1..], t, b, u);
    }
  }

  lemma ReachesNext(s: System, a: seq<Event>, t: System, e: Event)
    requires Reaches(s, a, t) && TaskEnabled(t.task, e)
    ensures Reaches(s, a + [e], Step(t, e))
  {
    hide Step;
    assert [e][1..] == [];
    ReachesAppend(s, a, t, [e], Step(t, e));
  }

  function Tick(s: System): System {
    s.(log := s.log + [s.published])
  }

  lemma StepFrame(s: System)
    requires s.task.pc.Waiting? && s.task.kind.Ftx? && s.task.last == s.published.resets
    ensures var t := s.task;
            Step(s, Frame(false, 1)) == Tick(s).(task := t.(buf := t.buf + [Sample(|s.log|)], pc := Decoding(t.last)))
  {
    assert Stamped(1, |s.log|) == [Sample(|s.log|)];
    NothingEmitted(s, Frame(false, 1));
  }

  lemma NothingEmitted(s: System, e: Event)
    requires !e.Emit? && TaskEnabled(s.task, e)
    ensures Emitted(s.task, e, |s.log|) == [] && s.sent + [] == s.sent && s.recorded + [] == s.recorded
  {
  }

  // Too few samples for a block.
  lemma StepShort(s: System)
    requires s.task.pc.Decoding?
    ensures Step(s, Decode(|s.task.buf| + 1, false)) == Tick(s).(task := s.task.(pc := Waiting))
  {
    NothingEmitted(s, Decode(|s.task.buf| + 1, false));
  }

  lemma StepDecode(s: System)
    requires s.task.pc.Decoding? && s.task.kind.Ftx? && s.task.buf != []
    ensures var t := s.task;
            Step(s, Decode(|t.buf|, true))
            == Tick(s).(task := Task(Ftx, Checking(t.pc.current, t.window + t.buf, true, 0), t.last, [],
                                     t.window + t.buf))
  {
    assert s.task.buf[..|s.task.buf|] == s.task.buf;
    NothingEmitted(s, Decode(|s.task.buf|, true));
  }

  lemma StepCheck(s: System)
    requires s.task.pc.Checking? && s.task.pc.found && s.task.pc.current == s.published.resets
    ensures var t := s.task;
            Step(s, Check) == Tick(s).(task := t.(pc := Emitting(t.pc.current, t.pc.source, |s.log|, t.pc.base)))
  {
    NothingEmitted(s, Check);
  }

  lemma StepRig(s: System, e: Event)
    requires e.Retune? || e.SetMode? || e.Reset?
    ensures Step(s, e) == Tick(s).(rig := RigStep(s.rig, e))
    ensures Step(s, Publish) == Tick(s).(published := s.rig)
    ensures Step(s, ClearHistory) == Tick(s).(recorded := [])
  {
    NothingEmitted(s, e);
    NothingEmitted(s, Publish);
    NothingEmitted(s, ClearHistory);
  }

  lemma StepEmit(s: System)
    requires s.task.pc.Emitting? && !s.task.kind.Wspr?
    ensures var m := Message(s.task.pc.source, s.task.pc.guard, |s.log|);
            Step(s, Emit) == Tick(s).(recorded := s.recorded + [m], sent := s.sent + [m])
  {
  }

  const DIAL := Rig(14_074_000, USB, true, 0, 0)

  // An FT8 task that has just come up.
  function Start(): System {
    System([], DIAL, DIAL, Task(Ftx, Waiting, 0, [], []), [], [])
  }

  // The same task past the check of a decode.
  function PastCheck(): System {
    System([DIAL, DIAL, DIAL], DIAL, DIAL, Task(Ftx, Emitting(0, [Sample(0)], 2, 0), 0, [], [Sample(0)]), [], [])
  }

  const TO_PAST_CHECK := [Frame(false, 1), Decode(1, true), Check]

  lemma PastCheckReached()
    ensures Initial(Start()) && Reaches(Start(), TO_PAST_CHECK, PastCheck())
  {
    hide Step, TaskStep;
    var s := Start();
    assert [] + [Sample(0)] == [Sample(0)];
    assert Reaches(s, [], s);
    StepFrame(s);
    var a := Step(s, Frame(false, 1));
    ReachesNext(s, [], s, Frame(false, 1));
    StepDecode(a);
    var b := Step(a, Decode(1, true));
    ReachesNext(s, [] + [Frame(false, 1)], a, Decode(1, true));
    StepCheck(b);
    ReachesNext(s, [] + [Frame(false, 1)] + [Decode(1, true)], b, Check);
    assert [] + [Frame(false, 1)] + [Decode(1, true)] + [Check] == TO_PAST_CHECK;
    assert Step(b, Check) == PastCheck();
  }

  // A reset clears the history and publishes the new sequence; then the task records what it
  // decoded from a sample of before.
  lemma StaleMessageInHistory() returns (events: seq<Event>, t: System)
    ensures Initial(Start()) && Reaches(Start(), events, t)
    ensures events == TO_PAST_CHECK + [ClearHistory] + [Reset] + [Publish] + [Emit]
    ensures t.recorded == [Message([Sample(0)], 2, 6)] && |t.log| == 7 && t.log[5].resets < t.log[6].resets
  {
    hide Step, TaskStep;
    var s := Start();
    PastCheckReached();
    var c := PastCheck();
    StepRig(c, Reset);
    ReachesNext(s, TO_PAST_CHECK, c, ClearHistory);
    var d := Step(c, ClearHistory);
    StepRig(d, Reset);
    ReachesNext(s, TO_PAST_CHECK + [ClearHistory], d, Reset);
    var e := Step(d, Reset);
    StepRig(e, Reset);
    ReachesNext(s, TO_PAST_CHECK + [ClearHistory] + [Reset], e, Publish);
    var f := Step(e, Publish);
    StepEmit(f);
    ReachesNext(s, TO_PAST_CHECK + [ClearHistory] + [Reset] + [Publish], f, Emit);
    events, t := TO_PAST_CHECK + [ClearHistory] + [Reset] + [Publish] + [Emit], Step(f, Emit);
    assert [] + [Message([Sample(0)], 2, 6)] == [Message([Sample(0)], 2, 6)];
  }

  // FT8, FT4 and FT2 read the base frequency after the check: a retune in between gives the
  // message a frequency that its sample was not taken at.
  lemma BaseFrequencyIsWrong(freq: nat) returns (events: seq<Event>, t: System)
    ensures Initial(Start()) && Reaches(Start(), events, t)
    ensures events == TO_PAST_CHECK + [Retune(freq)] + [Publish] + [Emit]
    ensures t.sent == [Message([Sample(0)], 2, 5)] && |t.log| == 6 && t.log[0] == DIAL && t.log[5].freq == freq
  {
    hide Step, TaskStep;
    var s := Start();
    PastCheckReached();
    var c := PastCheck();
    StepRig(c, Retune(freq));
    ReachesNext(s, TO_PAST_CHECK, c, Retune(freq));
    var d := Step(c, Retune(freq));
    StepRig(d, Reset);
    ReachesNext(s, TO_PAST_CHECK + [Retune(freq)], d, Publish);
    var e := Step(d, Publish);
    StepEmit(e);
    ReachesNext(s, TO_PAST_CHECK + [Retune(freq)] + [Publish], e, Emit);
    events, t := TO_PAST_CHECK + [Retune(freq)] + [Publish] + [Emit], Step(e, Emit);
    assert [] + [Message([Sample(0)], 2, 5)] == [Message([Sample(0)], 2, 5)];
  }

  // From any waiting state: a retune while the rig is, for a moment, in another mode leaves
  // the task as it was, and its sequence.
  lemma SilentRetune(s: System, freq: nat) returns (t: System)
    requires s.task.pc.Waiting? && s.rig == s.published && s.rig.mode.USB? && freq != s.rig.freq
    ensures Reaches(s, [SetMode(Other), Publish, Retune(freq), Publish, SetMode(USB), Publish], t)
    ensures t.task == s.task && t.sent == s.sent
    ensures t.published == s.published.(freq := freq, silent := s.published.silent + 1)
    ensures s.log <= t.log && |t.log| == |s.log| + 6
  {
    hide Step, TaskStep, Reaches;
    RunsNowhere(s);
    StepRig(s, SetMode(Other));
    var a := Step(s, SetMode(Other));
    ReachesNext(s, [], s, SetMode(Other));
    StepRig(a, Reset);
    var b := Step(a, Publish);
    ReachesNext(s, [] + [SetMode(Other)], a, Publish);
    StepRig(b, Retune(freq));
    var c := Step(b, Retune(freq));
    ReachesNext(s, [] + [SetMode(Other)] + [Publish], b, Retune(freq));
    StepRig(c, Reset);
    var d := Step(c, Publish);
    ReachesNext(s, [] + [SetMode(Other)] + [Publish] + [Retune(freq)], c, Publish);
    StepRig(d, SetMode(USB));
    var e := Step(d, SetMode(USB));
    ReachesNext(s, [] + [SetMode(Other)] + [Publish] + [Retune(freq)] + [Publish], d, SetMode(USB));
    StepRig(e, Reset);
    t := Step(e, Publish);
    ReachesNext(s, [] + [SetMode(Other)] + [Publish] + [Retune(freq)] + [Publish] + [SetMode(USB)], e, Publish);
    assert [] + [SetMode(Other)] + [Publish] + [Retune(freq)] + [Publish] + [SetMode(USB)] + [Publish]
        == [SetMode(Other), Publish, Retune(freq), Publish, SetMode(USB), Publish];
  }

  // A sample that waits for a block to fill, and the one that fills it.
  lemma OneSampleWaits() returns (t: System)
    ensures Reaches(Start(), [Frame(false, 1), Decode(2, false)], t)
    ensures t == System([DIAL, DIAL], DIAL, DIAL, Task(Ftx, Waiting, 0, [Sample(0)], []), [], [])
  {
    hide Step, TaskStep, Reaches;
    var s := Start();
    RunsNowhere(s);
    assert [] + [Sample(0)] == [Sample(0)];
    StepFrame(s);
    var a := Step(s, Frame(false, 1));
    ReachesNext(s, [], s, Frame(false, 1));
    StepShort(a);
    t := Step(a, Decode(2, false));
    ReachesNext(s, [] + [Frame(false, 1)], a, Decode(2, false));
    assert [] + [Frame(false, 1)] + [Decode(2, false)] == [Frame(false, 1), Decode(2, false)];
  }

  lemma BlockFills(s: System, x: Sample) returns (t: System)
    requires s.task == Task(Ftx, Waiting, s.published.resets, [x], []) && s.sent == []
    ensures Reaches(s, [Frame(false, 1), Decode(2, true), Check, Emit], t)
    ensures t.sent == [Message([x, Sample(|s.log|)], |s.log| + 2, |s.log| + 3)]
    ensures s.log + [s.published] <= t.log && |t.log| == |s.log| + 4
  {
    hide Step, TaskStep, Reaches;
    RunsNowhere(s);
    StepFrame(s);
    var a := Step(s, Frame(false, 1));
    ReachesNext(s, [], s, Frame(false, 1));
    StepDecode(a);
    var b := Step(a, Decode(2, true));
    ReachesNext(s, [] + [Frame(false, 1)], a, Decode(2, true));
    assert b.task.window == [x, Sample(|s.log|)];
    StepCheck(b);
    var c := Step(b, Check);
    ReachesNext(s, [] + [Frame(false, 1)] + [Decode(2, true)], b, Check);
    StepEmit(c);
    t := Step(c, Emit);
    ReachesNext(s, [] + [Frame(false, 1)] + [Decode(2, true)] + [Check], c, Emit);
    assert [] + [Frame(false, 1)] + [Decode(2, true)] + [Check] + [Emit]
           == [Frame(false, 1), Decode(2, true), Check, Emit];
  }

  // So one message can be made from samples of two dial frequencies.
  lemma SilentRetuneMixesSamples(freq: nat) returns (events: seq<Event>, t: System)
    requires freq != DIAL.freq
    ensures Initial(Start()) && Reaches(Start(), events, t)
    ensures t.sent == [Message([Sample(0), Sample(8)], 10, 11)] && |t.log| == 12
    ensures t.log[0].freq == DIAL.freq && t.log[8].freq == freq
  {
    hide Reaches;
    var first := [Frame(false, 1), Decode(2, false)];
    var retune := [SetMode(Other), Publish, Retune(freq), Publish, SetMode(USB), Publish];
    var last := [Frame(false, 1), Decode(2, true), Check, Emit];
    var a := OneSampleWaits();
    var b := SilentRetune(a, freq);
    t := BlockFills(b, Sample(0));
    events := first + retune + last;
    ReachesAppend(Start(), first, a, retune, b);
    ReachesAppend(Start(), first + retune, b, last, t);
    assert t.log[8] == (b.log + [b.published])[8];
    assert t.log[0] == b.log[0] == a.log[0];
  }

  lemma RunsNowhere(s: System)
    ensures Reaches(s, [], s)
  {
  }
}
