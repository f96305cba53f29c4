// The request loop of the rig task (src/trx-server/src/rig_task.rs:404-507): requests that
// have queued up are taken together, and all requests for the spectrum are answered with one
// execution.
module RequestBatch {

  datatype Command = GetSpectrum | Other(id: nat)

  // Every request has a responder of its own.
  datatype Request = Request(cmd: Command, responder: nat)

  // A responder is sent the result of one execution; results are told apart by the number of
  // the execution.
  datatype Answer = Answer(request: Request, execution: nat)

  predicate Spectrum(r: Request) {
    r.cmd.GetSpectrum?
  }

  // ---- what the loop does -----------------------------------------------------------------

  function SwapRemove(batch: seq<Request>, i: nat): (r: seq<Request>)
    requires i < |batch|
    ensures |r| == |batch| - 1
  {
    batch[i := batch[|batch| - 1]][..|batch| - 1]
  }

  // What is left of a part of the batch when the requests for the spectrum are taken out,
  // each hole being filled with the last request.
  function Kept(s: seq<Request>): seq<Request>
    decreases |s|
  {
    if s == [] then []
    else if !Spectrum(s[0]) then [s[0]] + Kept(s[1..])
    else if |s| == 1 then []
    else Kept([s[|s| - 1]] + s[1..|s| - 1])
  }

  function Taken(s: seq<Request>): seq<Request>
    decreases |s|
  {
    if s == [] then []
    else if !Spectrum(s[0]) then Taken(s[1..])
    else if |s| == 1 then [s[0]]
    else [s[0]] + Taken([s[|s| - 1]] + s[1..|s| - 1])
  }

  lemma HoleFilled(batch: seq<Request>, i: nat)
    requires i < |batch| && Spectrum(batch[i])
    ensures SwapRemove(batch, i)[..i] == batch[..i]
    ensures batch[i..][0] == batch[i]
    ensures Kept(batch[i..]) == Kept(SwapRemove(batch, i)[i..])
    ensures Taken(batch[i..]) == [batch[i]] + Taken(SwapRemove(batch, i)[i..])
  {
    var s := batch[i..];
    var r := SwapRemove(batch, i);
    if i < |batch| - 1 {
      assert r[i..] == [s[|s| - 1]] + s[1..|s| - 1];
    } else {
      assert r[i..] == [] && s == [batch[i]];
    }
  }

  // The commands that are executed, with the request that each is executed for.
  function Executed(batch: seq<Request>): seq<Request>
    decreases |batch|
  {
    if batch == [] then []
    else if Spectrum(batch[0]) then
      KeptLength(batch[1..]);
      [batch[0]] + Executed(Kept(batch[1..]))
    else [batch[0]] + Executed(batch[1..])
  }

  function AnswerAll(requests: seq<Request>, execution: nat): seq<Answer> {
    if requests == [] then [] else [Answer(requests[0], execution)] + AnswerAll(requests[1..], execution)
  }

  // The answers in the order in which they are sent, executions being numbered from `n`.
  function Answers(batch: seq<Request>, n: nat): seq<Answer>
    decreases |batch|
  {
    if batch == [] then []
    else if Spectrum(batch[0]) then
      KeptLength(batch[1..]);
      AnswerAll([batch[0]] + Taken(batch[1..]), n) + Answers(Kept(batch[1..]), n + 1)
    else [Answer(batch[0], n)] + Answers(batch[1..], n + 1)
  }

  lemma {:induction false} KeptLength(s: seq<Request>)
    ensures |Kept(s)| + |Taken(s)| == |s|
    decreases |s|
  {
    if s == [] || |s| == 1 {
    } else if !Spectrum(s[0]) {
      KeptLength(s[1..]);
    } else {
      KeptLength([s[|s| - 1]] + s[1..|s| - 1]);
    }
  }

  class RigTask {
    var executed: seq<Request>
    var answered: seq<Answer>

    constructor ()
      ensures executed == [] && answered == []
    {
      executed, answered := [], [];
    }

    method Respond(requests: seq<Request>, execution: nat)
      modifies this`answered
      ensures answered == old(answered) + AnswerAll(requests, execution)
    {
      var i := 0;
      assert requests[0..] == requests;
      while i < |requests|
        invariant 0 <= i <= |requests|
        invariant answered + AnswerAll(requests[i..], execution) == old(answered) + AnswerAll(requests, execution)
      {
        assert requests[i..][1..] == requests[i + 1..];
        answered := answered + [Answer(requests[i], execution)];
        i := i + 1;
      }
      assert answered + [] == answered;
    }

    // Takes the requests for the spectrum out of the rest of a batch.
    static method Coalesce(rest: seq<Request>, first: Request) returns (batch: seq<Request>, responders: seq<Request>)
      ensures batch == Kept(rest) && responders == [first] + Taken(rest)
    {
      batch := rest;
      responders := [first];
      var idx := 0;
      assert batch[..0] + Kept(batch[0..]) == Kept(rest) && batch[0..] == rest;
      while idx < |batch|
        invariant 0 <= idx <= |batch| <= |rest|
        invariant batch[..idx] + Kept(batch[idx..]) == Kept(rest)
        invariant responders + Taken(batch[idx..]) == [first] + Taken(rest)
        decreases |batch| - idx
      {
        if batch[idx].cmd.GetSpectrum? {
          HoleFilled(batch, idx);
          Regroup(responders, batch[idx], Taken(SwapRemove(batch, idx)[idx..]));
          responders := responders + [batch[idx]];
          batch := SwapRemove(batch, idx);
        } else {
          NotTaken(batch, idx);
          idx := idx + 1;
        }
      }
      assert batch[idx..] == [] && batch[..idx] == batch;
      assert responders + [] == responders && batch + [] == batch;
    }

    method ProcessBatch(requests: seq<Request>)
      modifies this
      ensures executed == old(executed) + Executed(requests)
      ensures answered == old(answered) + Answers(requests, |old(executed)|)
    {
      hide AnswerAll, Kept, Taken;
      var batch := requests;
      while batch != []
        invariant executed + Executed(batch) == old(executed) + Executed(requests)
        invariant answered + Answers(batch, |executed|) == old(answered) + Answers(requests, |old(executed)|)
        decreases |batch|
      {
        var first := batch[0];
        KeptLength(batch[1..]);
        AnswerOne(first, |executed|);
        FirstStep(batch, |executed|);
        ghost var before, answers := executed, answered;
        executed := executed + [first];
        batch := batch[1..];
        var responders := [first];
        if first.cmd.GetSpectrum? {
          batch, responders := Coalesce(batch, first);
        }
        Regroup(before, first, Executed(batch));
        Assoc(answers, AnswerAll(responders, |before|), Answers(batch, |before| + 1));
        Respond(responders, |executed| - 1);
      }
      assert executed + [] == executed && answered + [] == answered;
    }
  }

  lemma FirstStep(batch: seq<Request>, n: nat)
    requires batch != []
    ensures var spectrum := Spectrum(batch[0]);
            var left := if spectrum then Kept(batch[1..]) else batch[1..];
            && Executed(batch) == [batch[0]] + Executed(left)
            && Answers(batch, n)
               == AnswerAll(if spectrum then [batch[0]] + Taken(batch[1..]) else [batch[0]], n) + Answers(left, n + 1)
  {
    hide Kept, Taken;
    AnswerOne(batch[0], n);
  }

  lemma AnswerOne(r: Request, n: nat)
    ensures AnswerAll([r], n) == [Answer(r, n)]
  {
  }

  lemma Regroup<T>(a: seq<T>, x: T, b: seq<T>)
    ensures a + ([x] + b) == (a + [x]) + b
  {
  }

  lemma Assoc<T>(a: seq<T>, b: seq<T>, c: seq<T>)
    ensures a + (b + c) == (a + b) + c
  {
  }

  lemma NotTaken(batch: seq<Request>, i: nat)
    requires i < |batch| && !Spectrum(batch[i])
    ensures batch[..i] + Kept(batch[i..]) == batch[..i + 1] + Kept(batch[i + 1..])
    ensures Taken(batch[i..]) == Taken(batch[i + 1..])
  {
    assert batch[i..][1..] == batch[i + 1..];
    assert batch[..i + 1] == batch[..i] + [batch[i]];
    Regroup(batch[..i], batch[i], Kept(batch[i + 1..]));
  }

  // ---- every request is answered once ----------------------------------------------------------

  function Requests(answers: seq<Answer>): seq<Request> {
    if answers == [] then [] else [answers[0].request] + Requests(answers[1..])
  }

  function Others(s: seq<Request>): seq<Request> {
    if s == [] then [] else if Spectrum(s[0]) then Others(s[1..]) else [s[0]] + Others(s[1..])
  }

  function Spectra(s: seq<Request>): seq<Request> {
    if s == [] then [] else if Spectrum(s[0]) then [s[0]] + Spectra(s[1..]) else Spectra(s[1..])
  }

  lemma LastToFront(s: seq<Request>)
    requires |s| > 1
    ensures multiset([s[|s| - 1]] + s[1..|s| - 1]) == multiset(s[1..])
    ensures multiset(s) == multiset([s[0]]) + multiset(s[1..])
  {
    assert s[1..] == s[1..|s| - 1] + [s[|s| - 1]];
    assert s == [s[0]] + s[1..];
  }

  // Coalescing splits a batch: the requests for the spectrum, and all others.
  lemma {:induction false} KeptAndTaken(s: seq<Request>)
    ensures multiset(Kept(s)) + multiset(Taken(s)) == multiset(s)
    ensures (forall r :: r in Kept(s) ==> !Spectrum(r)) && (forall r :: r in Taken(s) ==> Spectrum(r))
    decreases |s|
  {
    if s == [] {
    } else if !Spectrum(s[0]) {
      KeptAndTaken(s[1..]);
      assert s == [s[0]] + s[1..];
    } else if |s| == 1 {
      assert s == [s[0]];
    } else {
      var next := [s[|s| - 1]] + s[1..|s| - 1];
      KeptAndTaken(next);
      LastToFront(s);
      assert Kept(s) == Kept(next) && Taken(s) == [s[0]] + Taken(next);
    }
  }

  lemma {:induction false} RequestsAppend(a: seq<Answer>, b: seq<Answer>)
    ensures Requests(a + b) == Requests(a) + Requests(b)
  {
    if a == [] {
      assert a + b == b;
    } else {
      RequestsAppend(a[1..], b);
      assert (a + b)[1..] == a[1..] + b;
    }
  }

  lemma {:induction false} RequestsOfAll(requests: seq<Request>, n: nat)
    ensures Requests(AnswerAll(requests, n)) == requests
  {
    if requests == [] {
    } else {
      RequestsOfAll(requests[1..], n);
      assert AnswerAll(requests, n)[1..] == AnswerAll(requests[1..], n);
    }
  }

  // Every request of a batch is answered exactly once, and nobody else is.
  lemma {:induction false} AnsweredOnce(batch: seq<Request>, n: nat)
    ensures multiset(Requests(Answers(batch, n))) == multiset(batch)
    decreases |batch|
  {
    if batch == [] {
    } else {
      var rest := batch[1..];
      assert batch == [batch[0]] + rest;
      FirstStep(batch, n);
      if Spectrum(batch[0]) {
        KeptLength(rest);
        KeptAndTaken(rest);
        AnsweredOnce(Kept(rest), n + 1);
        RequestsOfAll([batch[0]] + Taken(rest), n);
        RequestsAppend(AnswerAll([batch[0]] + Taken(rest), n), Answers(Kept(rest), n + 1));
      } else {
        AnsweredOnce(rest, n + 1);
        RequestsOfAll([batch[0]], n);
        RequestsAppend(AnswerAll([batch[0]], n), Answers(rest, n + 1));
      }
    }
  }

  // ---- what is executed ----------------------------------------------------------------------

  lemma {:induction false} OthersOf(s: seq<Request>)
    ensures (forall r :: r in s ==> !Spectrum(r)) ==> Others(s) == s && Executed(s) == s && Spectra(s) == []
  {
    if s == [] {
    } else {
      OthersOf(s[1..]);
      assert s == [s[0]] + s[1..];
    }
  }

  lemma {:induction false} OthersAppend(a: seq<Request>, b: seq<Request>)
    ensures Others(a + b) == Others(a) + Others(b)
  {
    if a == [] {
      assert a + b == b;
    } else {
      OthersAppend(a[1..], b);
      assert (a + b)[1..] == a[1..] + b;
    }
  }

  lemma {:induction false} OthersMultiset(s: seq<Request>)
    ensures multiset(Others(s)) <= multiset(s) && forall r :: !Spectrum(r) ==> multiset(Others(s))[r] == multiset(s)[r]
    ensures forall r :: r in Others(s) ==> !Spectrum(r)
  {
    if s == [] {
    } else {
      OthersMultiset(s[1..]);
      var rest := Others(s[1..]);
      assert s == [s[0]] + s[1..];
      assert Others(s) == if Spectrum(s[0]) then rest else [s[0]] + rest;
      assert multiset([s[0]] + rest) == multiset{s[0]} + multiset(rest);
    }
  }

  // Coalescing keeps all other requests, if not their order.
  lemma KeptIsPermutation(s: seq<Request>)
    ensures multiset(Kept(s)) == multiset(Others(s))
  {
    KeptAndTaken(s);
    OthersMultiset(s);
    forall r ensures multiset(Kept(s))[r] == multiset(Others(s))[r] {
      if Spectrum(r) {
        assert r !in Kept(s) && r !in Others(s);
      } else {
        assert r !in Taken(s);
      }
    }
  }

  // The other commands are executed once each, and the spectrum is asked for at most once.
  lemma {:induction false} ExecutedIsPermutation(batch: seq<Request>)
    ensures multiset(Others(Executed(batch))) == multiset(Others(batch))
    ensures |Spectra(Executed(batch))| == if Spectra(batch) == [] then 0 else 1
    decreases |batch|
  {
    if batch == [] {
    } else if Spectrum(batch[0]) {
      var kept := Kept(batch[1..]);
      KeptLength(batch[1..]);
      KeptAndTaken(batch[1..]);
      KeptIsPermutation(batch[1..]);
      OthersOf(kept);
      assert Executed(batch)[1..] == kept;
    } else {
      ExecutedIsPermutation(batch[1..]);
      assert Executed(batch)[1..] == Executed(batch[1..]);
    }
  }

  // Every answer is the result of an execution of the requested command: of the request
  // itself, or, for the spectrum, of the one execution that all its requesters share.
  lemma {:induction false} AnswersFit(batch: seq<Request>, n: nat, a: Answer)
    requires a in Answers(batch, n)
    ensures n <= a.execution < n + |Executed(batch)|
    ensures var e := Executed(batch)[a.execution - n];
            if a.request.cmd.GetSpectrum? then e.cmd.GetSpectrum? else e == a.request
    decreases |batch|
  {
    var rest := batch[1..];
    FirstStep(batch, n);
    KeptLength(rest);
    KeptAndTaken(rest);
    var left := if Spectrum(batch[0]) then Kept(rest) else rest;
    var now := if Spectrum(batch[0]) then [batch[0]] + Taken(rest) else [batch[0]];
    if a in AnswerAll(now, n) {
      AnswersOf(now, n, a);
    } else {
      AnswersFit(left, n + 1, a);
    }
  }

  lemma {:induction false} AnswersOf(requests: seq<Request>, n: nat, a: Answer)
    requires a in AnswerAll(requests, n)
    ensures a.execution == n && a.request in requests
  {
    if a == AnswerAll(requests, n)[0] {
    } else {
      AnswersOf(requests[1..], n, a);
    }
  }

  lemma {:induction false} OneSpectrum(s: seq<Request>, i: nat, j: nat)
    requires i <= j < |s| && Spectrum(s[i]) && Spectrum(s[j]) && |Spectra(s)| <= 1
    ensures i == j
  {
    if i == 0 {
      if j > 0 {
        SpectrumThere(s[1..], j - 1);
      }
    } else {
      OneSpectrum(s[1..], i - 1, j - 1);
    }
  }

  lemma {:induction false} SpectrumThere(s: seq<Request>, j: nat)
    requires j < |s| && Spectrum(s[j])
    ensures Spectra(s) != []
  {
    if j == 0 {
    } else {
      SpectrumThere(s[1..], j - 1);
    }
  }

  lemma SpectrumShared(batch: seq<Request>, n: nat, a: Answer, b: Answer)
    requires a in Answers(batch, n) && b in Answers(batch, n)
    requires a.request.cmd.GetSpectrum? && b.request.cmd.GetSpectrum?
    ensures a.execution == b.execution
  {
    AnswersFit(batch, n, a);
    AnswersFit(batch, n, b);
    ExecutedIsPermutation(batch);
    if a.execution <= b.execution {
      OneSpectrum(Executed(batch), a.execution - n, b.execution - n);
    } else {
      OneSpectrum(Executed(batch), b.execution - n, a.execution - n);
    }
  }

  // ---- the order of the other commands ------------------------------------------------------

  ghost predicate Distinct(s: seq<Request>) {
    forall i, j :: 0 <= i < j < |s| ==> s[i] != s[j]
  }

  // What comes behind the first request for the spectrum.
  function Behind(s: seq<Request>): (r: seq<Request>)
    ensures |r| <= |s|
  {
    if s == [] then [] else if Spectrum(s[0]) then s[1..] else Behind(s[1..])
  }

  // At most one other command behind the first of these requests for the spectrum.
  predicate AtMostOne(s: seq<Request>) {
    |Others(Behind(s))| <= 1
  }

  lemma ShortPermutation(a: seq<Request>, b: seq<Request>)
    requires multiset(a) == multiset(b) && |b| <= 1
    ensures a == b
  {
    assert |multiset(a)| == |a| && |multiset(b)| == |b|;
    if |b| == 1 {
      assert b[0] in multiset(b);
      assert b[0] in multiset(a);
    }
  }

  lemma {:induction false} KeptInOrder(s: seq<Request>)
    requires Distinct(s)
    ensures Kept(s) == Others(s) <==> AtMostOne(s)
    decreases |s|
  {
    if s == [] {
    } else if !Spectrum(s[0]) {
      KeptInOrder(s[1..]);
      assert Kept(s)[1..] == Kept(s[1..]) && Others(s)[1..] == Others(s[1..]);
    } else if AtMostOne(s) {
      KeptIsPermutation(s);
      ShortPermutation(Kept(s), Others(s));
    } else {
      OutOfOrder(s);
    }
  }

  // Two or more commands behind a hole: the last one comes to the front.
  lemma {:induction false} OutOfOrder(s: seq<Request>)
    requires Distinct(s) && s != [] && Spectrum(s[0]) && |Others(s[1..])| >= 2
    ensures Kept(s) != Others(s)
    decreases |s|
  {
    var t, last := s[1..], s[|s| - 1];
    var front := t[..|t| - 1];
    assert t == front + [last] && s[1..|s| - 1] == front;
    OthersAppend(front, [last]);
    assert Others(s) == Others(t) == Others(front) + Others([last]);
    var moved := [last] + front;
    assert moved[1..] == front;
    if Spectrum(last) {
      assert Others([last]) == [];
      assert Distinct(moved) by {
        assert forall i :: 1 <= i < |moved| ==> moved[i] == s[i];
      }
      OutOfOrder(moved);
    } else {
      assert Others([last]) == [last];
      assert |Others(front)| >= 1;
      KeptOfHole(s, last, front);
      FirstOther(front);
      assert Others(s)[0] == Others(front)[0];
      var k :| 0 <= k < |front| && front[k] == Others(front)[0];
      assert s[k + 1] == front[k] && k + 1 < |s| - 1;
    }
  }

  lemma KeptOfHole(s: seq<Request>, last: Request, front: seq<Request>)
    requires s != [] && s == [s[0]] + front + [last] && Spectrum(s[0]) && !Spectrum(last)
    ensures Kept(s) == [last] + Kept(front)
  {
    assert [s[|s| - 1]] + s[1..|s| - 1] == [last] + front;
    assert ([last] + front)[1..] == front;
  }

  lemma {:induction false} FirstOther(s: seq<Request>)
    requires Others(s) != []
    ensures Others(s)[0] in s
  {
    if s == [] {
    } else if Spectrum(s[0]) {
      FirstOther(s[1..]);
    }
  }

  // The other commands are executed in the order of arrival if and only if at most one of them
  // arrived behind the second request for the spectrum.
  lemma {:induction false} InOrderIff(batch: seq<Request>)
    requires Distinct(batch)
    ensures Others(Executed(batch)) == Others(batch) <==> AtMostOne(Behind(batch))
    decreases |batch|
  {
    if batch == [] {
    } else if Spectrum(batch[0]) {
      var rest := batch[1..];
      KeptLength(rest);
      KeptAndTaken(rest);
      KeptInOrder(rest);
      OthersOf(Kept(rest));
      assert Executed(batch)[1..] == Kept(rest);
    } else {
      InOrderIff(batch[1..]);
      assert Executed(batch)[1..] == Executed(batch[1..]);
      assert Others(Executed(batch))[1..] == Others(Executed(batch[1..])) && Others(batch)[1..] == Others(batch[1..]);
    }
  }
}
