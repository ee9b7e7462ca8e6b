/** Client, worker and the channels between them, under every interleaving. */
module EngineRuns {
  import opened Common
  import opened VaultCrypto
  import opened KeyManagement
  import opened EngineWorker
  import opened EngineClient
  import WorkerRuns

  /** A reply the worker has posted, with the request it answers. */
  datatype Answered = Answered(request: Request, outcome: Result<EngineValue, EngineError>)

  /**
   * `calls` remembers what each call asked for; `leaked` are the ids of calls
   * whose message could not be posted; `inbox` is what the worker has not
   * handled yet; `answers` is everything it has posted.
   */
  datatype System = System(
    client: Client,
    calls: seq<EngineOp>,
    leaked: set<nat>,
    inbox: seq<Request>,
    answers: seq<Answered>,
    dek: Option<Bytes>,
    alive: bool
  )

  datatype Event =
    | Issue(op: EngineOp, cloneable: bool)
    | Work(index: nat)
    | DeliverAnswer(index: nat)
    | DeliverStray(response: Response)
    | Crash(message: string)
    | Terminate

  const START := System(Client([], {}), [], {}, [], [], None, true)

  /** One promise per call, and pending ids among them. */
  ghost predicate Shape(s: System) {
    ClientOk(s.client) && |s.client.promises| == |s.calls|
  }

  /** The worker may take messages, and the client may see replies, in any order; replies may come twice. */
  function Step(c: Crypto, s: System, e: Event): (s': System)
    requires Shape(s)
    ensures Shape(s')
  {
    match e
    case Issue(op, cloneable) =>
      var id := |s.calls| + 1;
      s.(client := Call(s.client, cloneable),
         calls := s.calls + [op],
         leaked := if cloneable then s.leaked else s.leaked + {id},
         inbox := if cloneable then s.inbox + [Request(id, op)] else s.inbox)
    case Work(i) =>
      if s.alive && i < |s.inbox| then
        var (dek, outcome) := Handle(c, s.dek, s.inbox[i].op);
        s.(inbox := s.inbox[..i] + s.inbox[i + 1..],
           answers := s.answers + [Answered(s.inbox[i], outcome)],
           dek := dek)
      else s
    case DeliverAnswer(i) =>
      if i < |s.answers| then
        s.(client := HandleResponse(s.client, Response(s.answers[i].request.id, s.answers[i].outcome)))
      else s
    case DeliverStray(r) =>
      if 1 <= r.id <= |s.calls| then s else s.(client := HandleResponse(s.client, r))
    case Crash(message) => s.(client := RejectAll(s.client, WorkerCrashed(message)), leaked := {})
    case Terminate => s.(client := RejectAll(s.client, WorkerTerminated), leaked := {}, alive := false)
  }

  ghost predicate Consistent(s: System) {
    && Shape(s)
    && (forall i :: 0 <= i < |s.inbox| ==> Genuine(s, s.inbox[i]))
    && (forall i :: 0 <= i < |s.answers| ==> Genuine(s, s.answers[i].request))
    && s.leaked <= s.client.pending
  }

  /** The request carries what its call asked for, and was really posted. */
  ghost predicate Genuine(s: System, r: Request)
    requires Shape(s)
  {
    && 1 <= r.id <= |s.calls|
    && r.op == s.calls[r.id - 1]
    && r.id !in s.leaked
    && !(s.client.promises[r.id - 1].settlement == Rejected(NotCloneable))
  }

  /** What holds of the promise of call `id`. */
  ghost predicate PromiseOk(s: System, id: nat)
    requires Shape(s) && 1 <= id <= |s.calls|
  {
    var p := s.client.promises[id - 1];
    && (id in s.client.pending <==> p.settlement.Unsettled? || id in s.leaked)
    && (id in s.leaked ==> p == Promise(Rejected(NotCloneable), 1))
    && (p.settlement.Unsettled? ==> p.attempts == 0)
    && (!p.settlement.Unsettled? && p.settlement != Rejected(NotCloneable) ==> p.attempts == 1)
    && p.attempts <= 2
    && (p.settlement.Resolved? ==> AnsweredWith(s, id, Ok(p.settlement.value)))
    && (p.settlement.Rejected? && p.settlement.failure.WorkerError? ==>
          AnsweredWith(s, id, Err(p.settlement.failure.error)))
  }

  ghost predicate AnsweredWith(s: System, id: nat, outcome: Result<EngineValue, EngineError>) {
    exists i :: 0 <= i < |s.answers| && s.answers[i].request.id == id && s.answers[i].outcome == outcome
  }

  ghost predicate Inv(s: System) {
    && Consistent(s)
    && forall id :: 1 <= id <= |s.calls| ==> PromiseOk(s, id)
  }

  lemma StepKeepsGenuine(c: Crypto, s: System, e: Event, r: Request)
    requires Shape(s) && Genuine(s, r) && PromiseOk(s, r.id)
    ensures Genuine(Step(c, s, e), r)
  {
  }

  lemma StepKeepsConsistent(c: Crypto, s: System, e: Event)
    requires Inv(s)
    ensures Consistent(Step(c, s, e))
  {
    var s' := Step(c, s, e);
    forall i | 0 <= i < |s'.inbox| ensures Genuine(s', s'.inbox[i]) {
      if e.Issue? && i == |s.inbox| {
        assert s'.inbox[i] == Request(|s.calls| + 1, e.op);
      } else {
        var j := if e.Work? && s' != s && i >= e.index then i + 1 else i;
        assert s'.inbox[i] == s.inbox[j];
        StepKeepsGenuine(c, s, e, s.inbox[j]);
      }
    }
    forall i | 0 <= i < |s'.answers| ensures Genuine(s', s'.answers[i].request) {
      if i < |s.answers| {
        assert s'.answers[i] == s.answers[i];
        StepKeepsGenuine(c, s, e, s.answers[i].request);
      } else {
        StepKeepsGenuine(c, s, e, s.inbox[e.index]);
      }
    }
  }

  lemma AnswersStay(c: Crypto, s: System, e: Event, id: nat)
    requires Shape(s)
    ensures forall outcome :: AnsweredWith(s, id, outcome) ==> AnsweredWith(Step(c, s, e), id, outcome)
  {
    var s' := Step(c, s, e);
    assert s.answers <= s'.answers;
    forall outcome | AnsweredWith(s, id, outcome) ensures AnsweredWith(s', id, outcome) {
      var i :| 0 <= i < |s.answers| && s.answers[i].request.id == id && s.answers[i].outcome == outcome;
      assert s'.answers[i] == s.answers[i];
    }
  }

  lemma StepKeepsPromises(c: Crypto, s: System, e: Event, id: nat)
    requires Inv(s) && 1 <= id <= |Step(c, s, e).calls|
    ensures PromiseOk(Step(c, s, e), id)
  {
    if id <= |s.calls| {
      assert PromiseOk(s, id);
      AnswersStay(c, s, e, id);
      if e.DeliverAnswer? && e.index < |s.answers| && s.answers[e.index].request.id == id {
        assert Genuine(s, s.answers[e.index].request);
        assert AnsweredWith(s, id, s.answers[e.index].outcome);
      }
    }
  }

  lemma StepKeepsInv(c: Crypto, s: System, e: Event)
    requires Inv(s)
    ensures Inv(Step(c, s, e))
  {
    StepKeepsConsistent(c, s, e);
    forall id | 1 <= id <= |Step(c, s, e).calls| ensures PromiseOk(Step(c, s, e), id) {
      StepKeepsPromises(c, s, e, id);
    }
  }

  function RunFrom(c: Crypto, s: System, events: seq<Event>): (s': System)
    requires Shape(s)
    ensures Shape(s')
  {
    if events == [] then s else Step(c, RunFrom(c, s, events[..|events| - 1]), events[|events| - 1])
  }

  lemma {:induction false} RunFromKeepsInv(c: Crypto, s: System, events: seq<Event>)
    requires Inv(s)
    ensures Inv(RunFrom(c, s, events))
  {
    if events != [] {
      RunFromKeepsInv(c, s, events[..|events| - 1]);
      StepKeepsInv(c, RunFrom(c, s, events[..|events| - 1]), events[|events| - 1]);
    }
  }

  function Run(c: Crypto, events: seq<Event>): (s: System)
    ensures Shape(s)
  {
    RunFrom(c, START, events)
  }

  /** The event is the worker taking this request from its inbox, and this is what it then answers. */
  ghost predicate Computes(
      c: Crypto, s: System, e: Event, request: Request, outcome: Result<EngineValue, EngineError>)
  {
    && e.Work? && e.index < |s.inbox| && s.inbox[e.index] == request
    && Handle(c, s.dek, request.op).1 == outcome
  }

  /** What the worker computed for one request, at some moment of the run. */
  ghost predicate WorkedOut(
      c: Crypto, events: seq<Event>, request: Request, outcome: Result<EngineValue, EngineError>)
  {
    exists k :: 0 <= k < |events| && Computes(c, Run(c, events[..k]), events[k], request, outcome)
  }

  lemma NewAnswer(c: Crypto, s: System, e: Event, i: nat)
    requires Shape(s) && i < |Step(c, s, e).answers|
    ensures var a := Step(c, s, e).answers[i];
            if i < |s.answers| then a == s.answers[i] else Computes(c, s, e, a.request, a.outcome)
  {
  }

  lemma {:induction false} AnswersAreWorkedOut(c: Crypto, events: seq<Event>, i: nat)
    requires i < |Run(c, events).answers|
    ensures WorkedOut(c, events, Run(c, events).answers[i].request, Run(c, events).answers[i].outcome)
  {
    var n := |events| - 1;
    var before, a := Run(c, events[..n]), Run(c, events).answers[i];
    NewAnswer(c, before, events[n], i);
    if i < |before.answers| {
      AnswersAreWorkedOut(c, events[..n], i);
      var k :| 0 <= k < n && Computes(c, Run(c, events[..n][..k]), events[..n][k], a.request, a.outcome);
      assert events[..n][..k] == events[..k];
    } else {
      assert Computes(c, Run(c, events[..n]), events[n], a.request, a.outcome);
    }
  }

  lemma AnswerToCall(s: System, id: nat, outcome: Result<EngineValue, EngineError>) returns (i: nat)
    requires Consistent(s) && 1 <= id <= |s.calls| && AnsweredWith(s, id, outcome)
    ensures i < |s.answers| && s.answers[i] == Answered(Request(id, s.calls[id - 1]), outcome)
  {
    i :| 0 <= i < |s.answers| && s.answers[i].request.id == id && s.answers[i].outcome == outcome;
    assert Genuine(s, s.answers[i].request);
  }

  lemma AnsweredIsWorkedOut(c: Crypto, events: seq<Event>, id: nat, outcome: Result<EngineValue, EngineError>)
    requires 1 <= id <= |Run(c, events).calls| && AnsweredWith(Run(c, events), id, outcome)
    ensures WorkedOut(c, events, Request(id, Run(c, events).calls[id - 1]), outcome)
  {
    RunFromKeepsInv(c, START, events);
    var i := AnswerToCall(Run(c, events), id, outcome);
    AnswersAreWorkedOut(c, events, i);
  }

  /**
   * Correlation, under every interleaving: a call resolves (or fails with a
   * worker error) only with what the worker computed for that very request;
   * it is settled at most once, and the pending ids are exactly those of calls
   * not yet settled, together with those whose message could not be posted.
   */
  lemma CallsAreCorrelated(c: Crypto, events: seq<Event>, id: nat)
    requires 1 <= id <= |Run(c, events).calls|
    ensures var s := Run(c, events);
            var p := s.client.promises[id - 1];
            && (p.settlement.Resolved? ==> WorkedOut(c, events, Request(id, s.calls[id - 1]), Ok(p.settlement.value)))
            && (p.settlement.Rejected? && p.settlement.failure.WorkerError? ==>
                  WorkedOut(c, events, Request(id, s.calls[id - 1]), Err(p.settlement.failure.error)))
            && (p.settlement != Rejected(NotCloneable) ==> p.attempts == if p.settlement.Unsettled? then 0 else 1)
            && (id in s.client.pending <==> p.settlement.Unsettled? || id in s.leaked)
            && (forall other :: other in s.client.pending ==> 1 <= other <= |s.calls|)
  {
    var s := Run(c, events);
    RunFromKeepsInv(c, START, events);
    assert PromiseOk(s, id);
    var p := s.client.promises[id - 1].settlement;
    if p.Resolved? {
      AnsweredIsWorkedOut(c, events, id, Ok(p.value));
    } else if p.Rejected? && p.failure.WorkerError? {
      AnsweredIsWorkedOut(c, events, id, Err(p.failure.error));
    }
  }

  /** Once settled, a promise never changes its mind. */
  lemma {:induction false} SettlementIsFinal(c: Crypto, s: System, events: seq<Event>, id: nat)
    requires Shape(s) && 1 <= id <= |s.calls| && !s.client.promises[id - 1].settlement.Unsettled?
    ensures id <= |RunFrom(c, s, events).calls|
    ensures RunFrom(c, s, events).client.promises[id - 1].settlement == s.client.promises[id - 1].settlement
  {
    if events != [] {
      SettlementIsFinal(c, s, events[..|events| - 1], id);
      StepKeepsSettled(c, RunFrom(c, s, events[..|events| - 1]), events[|events| - 1], id);
    }
  }

  /** A crash or a termination rejects every unsettled call, saying which it was, and leaves nothing pending. */
  lemma {:induction false} RejectAllSettlesEverything(c: Crypto, events: seq<Event>, e: Event, id: nat)
    requires (e.Crash? || e.Terminate?) && 1 <= id <= |Run(c, events).calls|
    ensures var s, s' := Run(c, events), Step(c, Run(c, events), e);
            var p, p' := s.client.promises[id - 1].settlement, s'.client.promises[id - 1].settlement;
            && p' == (if !p.Unsettled? then p
                      else Rejected(if e.Crash? then WorkerCrashed(e.message) else WorkerTerminated))
            && s'.client.pending == {} && s'.leaked == {}
  {
    RunFromKeepsInv(c, START, events);
    assert PromiseOk(Run(c, events), id);
  }

  // ---- the worker's part, and what a call comes to ----

  /** The operations the worker has handled, in order. */
  function Handled(answers: seq<Answered>): seq<EngineOp> {
    if answers == [] then [] else Handled(answers[..|answers| - 1]) + [answers[|answers| - 1].request.op]
  }

  /** Each answer is the one of `WorkerRuns` after those before it, and so is the resident key. */
  ghost predicate WorkerRun(c: Crypto, answers: seq<Answered>, dek: Option<Bytes>) {
    && dek == WorkerRuns.After(c, Handled(answers))
    && forall i :: 0 <= i < |answers| ==> InOrder(c, answers, i)
  }

  ghost predicate InOrder(c: Crypto, answers: seq<Answered>, i: nat)
    requires i < |answers|
  {
    answers[i].outcome == WorkerRuns.Answer(c, Handled(answers[..i]), answers[i].request.op)
  }

  lemma AnswerExtendsRun(c: Crypto, answers: seq<Answered>, dek: Option<Bytes>, a: Answered, dek': Option<Bytes>)
    requires WorkerRun(c, answers, dek) && (dek', a.outcome) == Handle(c, dek, a.request.op)
    ensures WorkerRun(c, answers + [a], dek')
  {
    var longer := answers + [a];
    assert longer[..|answers|] == answers;
    assert Handled(longer)[..|Handled(answers)|] == Handled(answers);
    forall i | 0 <= i < |longer| ensures InOrder(c, longer, i) {
      if i < |answers| {
        assert InOrder(c, answers, i) && longer[..i] == answers[..i];
      }
    }
  }

  lemma StepKeepsWorkerRun(c: Crypto, s: System, e: Event)
    requires Shape(s) && WorkerRun(c, s.answers, s.dek)
    ensures WorkerRun(c, Step(c, s, e).answers, Step(c, s, e).dek)
  {
    if e.Work? && s.alive && e.index < |s.inbox| {
      var (dek, outcome) := Handle(c, s.dek, s.inbox[e.index].op);
      AnswerExtendsRun(c, s.answers, s.dek, Answered(s.inbox[e.index], outcome), dek);
    }
  }

  /** The client's messages reach the worker in some order; for that order it is the worker of `WorkerRuns`. */
  lemma {:induction false} AnswersAreAWorkerRun(c: Crypto, events: seq<Event>)
    ensures WorkerRun(c, Run(c, events).answers, Run(c, events).dek)
  {
    if events != [] {
      var n := |events| - 1;
      AnswersAreAWorkerRun(c, events[..n]);
      StepKeepsWorkerRun(c, Run(c, events[..n]), events[n]);
    }
  }

  /** The settlement an answer stands for. */
  function SettlementOf(outcome: Result<EngineValue, EngineError>): Settlement {
    match outcome
    case Ok(value) => Resolved(value)
    case Err(error) => Rejected(WorkerError(error))
  }

  /**
   * When an answer reaches the client, the call it belongs to settles with it
   * unless it was settled before; the call is no longer pending, and no other
   * call is touched.
   */
  lemma DeliveryIsExact(c: Crypto, events: seq<Event>, i: nat, other: nat)
    requires i < |Run(c, events).answers| && 1 <= other <= |Run(c, events).calls|
    ensures var s, s' := Run(c, events), Step(c, Run(c, events), DeliverAnswer(i));
            var a := s.answers[i];
            var p, p' := s.client.promises[other - 1].settlement, s'.client.promises[other - 1].settlement;
            && s'.client.pending == s.client.pending - {a.request.id}
            && p' == if other == a.request.id && p.Unsettled? then SettlementOf(a.outcome) else p
  {
    RunFromKeepsInv(c, START, events);
    var s := Run(c, events);
    assert Genuine(s, s.answers[i].request);
    assert PromiseOk(s, other);
  }

  /** A call that cannot be posted is rejected at once and reaches nobody; a posted one waits for its answer. */
  lemma IssueIsExact(c: Crypto, events: seq<Event>, op: EngineOp, cloneable: bool)
    ensures var s, s' := Run(c, events), Step(c, Run(c, events), Issue(op, cloneable));
            var id := |s.calls| + 1;
            && |s'.client.promises| == id
            && s'.client.promises[..id - 1] == s.client.promises
            && s'.client.promises[id - 1].settlement == (if cloneable then Unsettled else Rejected(NotCloneable))
            && s'.client.pending == s.client.pending + {id}
            && s'.inbox == s.inbox + if cloneable then [Request(id, op)] else []
  {
  }

  /**
   * A call comes through: issued in any reachable state, taken up by the
   * worker and its answer delivered, it settles with what the worker answers
   * to its operation after all those it has handled.
   */
  lemma CallCompletes(c: Crypto, events: seq<Event>, op: EngineOp)
    requires Run(c, events).alive
    ensures var s := Run(c, events);
            var s' := RunFrom(c, s, [Issue(op, true), Work(|s.inbox|), DeliverAnswer(|s.answers|)]);
            && |s'.client.promises| == |s.calls| + 1
            && s'.client.promises[|s.calls|].settlement
            == SettlementOf(WorkerRuns.Answer(c, Handled(s.answers), op))
            && s'.client.pending == s.client.pending
  {
    RunFromKeepsInv(c, START, events);
    AnswersAreAWorkerRun(c, events);
    IssuedCallSettles(c, Run(c, events), op);
    var s := Run(c, events);
    ThreeSteps(c, s, Issue(op, true), Work(|s.inbox|), DeliverAnswer(|s.answers|));
  }

  lemma IssuedCallSettles(c: Crypto, s: System, op: EngineOp)
    requires Inv(s) && s.alive
    ensures var s1 := Step(c, s, Issue(op, true));
            var s3 := Step(c, Step(c, s1, Work(|s.inbox|)), DeliverAnswer(|s.answers|));
            && |s3.client.promises| == |s.calls| + 1
            && s3.client.promises[|s.calls|].settlement == SettlementOf(Handle(c, s.dek, op).1)
            && s3.client.pending == s.client.pending
  {
    var id := |s.calls| + 1;
    var s1 := Step(c, s, Issue(op, true));
    var s2 := Step(c, s1, Work(|s.inbox|));
    assert s1.inbox[|s.inbox|] == Request(id, op) && s1.client.promises[id - 1] == NEW_PROMISE;
    assert s2.answers[|s.answers|] == Answered(Request(id, op), Handle(c, s.dek, op).1);
    assert s1.client.pending - {id} == s.client.pending;
  }

  lemma ThreeSteps(c: Crypto, s: System, e1: Event, e2: Event, e3: Event)
    requires Shape(s)
    ensures RunFrom(c, s, [e1, e2, e3]) == Step(c, Step(c, Step(c, s, e1), e2), e3)
  {
    assert [e1, e2, e3][..2] == [e1, e2] && [e1, e2][..1] == [e1] && [e1][..0] == [];
    assert RunFrom(c, s, [e1]) == Step(c, s, e1);
  }

  // ---- what the client reads is what it wrote ----

  /** Nonces and draws have their proper lengths. */
  ghost predicate WellTyped(calls: seq<EngineOp>) {
    forall i :: 0 <= i < |calls| ==>
      && (calls[i].CreateVault? ==> DrawsOk(calls[i].draws))
      && (calls[i].Encrypt? ==> |calls[i].nonce| == NONCE_BYTES)
  }

  /** Every key that was ever resident is one of 32 bytes. */
  ghost predicate FullKeys(c: Crypto, answers: seq<Answered>) {
    forall i :: 0 <= i <= |answers| ==>
                  var dek := WorkerRuns.ResidentDek(c, Handled(answers[..i]));
                  dek.Some? ==> |dek.value| == DEK_BYTES
  }

  lemma {:induction false} HandledAreWellDrawn(s: System, answers: seq<Answered>)
    requires Shape(s) && WellTyped(s.calls)
    requires forall i :: 0 <= i < |answers| ==> Genuine(s, answers[i].request)
    ensures WorkerRuns.WellDrawn(Handled(answers))
  {
    if answers != [] {
      HandledAreWellDrawn(s, answers[..|answers| - 1]);
      assert Genuine(s, answers[|answers| - 1].request);
    }
  }

  /** Of two answers of the worker: the decryption of a ciphertext it made is the plaintext that went in. */
  lemma AnswersRoundTrip(c: Crypto, s: System, i: nat, j: nat, plain: Bytes, nonce: Bytes, packed: Bytes, read: Bytes)
    requires Lawful(c) && Consistent(s) && WellTyped(s.calls)
    requires WorkerRun(c, s.answers, s.dek) && FullKeys(c, s.answers)
    requires i < |s.answers| && s.answers[i].request.op == Encrypt(plain, nonce)
    requires s.answers[i].outcome == Ok(Ciphertext(packed))
    requires j < |s.answers| && s.answers[j].request.op == Decrypt(packed)
    requires s.answers[j].outcome == Ok(Plaintext(read))
    ensures read == plain
  {
    var earlier, later := Handled(s.answers[..i]), Handled(s.answers[..j]);
    assert |nonce| == NONCE_BYTES by {
      assert Genuine(s, s.answers[i].request);
    }
    assert WorkerRuns.WellDrawn(earlier) && WorkerRuns.WellDrawn(later) by {
      HandledAreWellDrawn(s, s.answers[..i]);
      HandledAreWellDrawn(s, s.answers[..j]);
    }
    assert InOrder(c, s.answers, i) && InOrder(c, s.answers, j);
    WorkerRuns.NeverMisread(c, earlier, later, plain, nonce, packed, read);
  }

  /**
   * Under every interleaving, through any locks, unlocks and other vaults: if
   * a call to encrypt resolves with a ciphertext and a call to decrypt it
   * resolves at all, then with the plaintext that was encrypted.
   */
  lemma CallsRoundTrip(
      c: Crypto, events: seq<Event>, a: nat, b: nat, plain: Bytes, nonce: Bytes, packed: Bytes, read: Bytes)
    requires var s := Run(c, events);
             && Lawful(c) && WellTyped(s.calls) && FullKeys(c, s.answers)
             && 1 <= a <= |s.calls| && 1 <= b <= |s.calls|
             && s.calls[a - 1] == Encrypt(plain, nonce) && s.calls[b - 1] == Decrypt(packed)
             && s.client.promises[a - 1].settlement == Resolved(Ciphertext(packed))
             && s.client.promises[b - 1].settlement == Resolved(Plaintext(read))
    ensures read == plain
  {
    var s := Run(c, events);
    RunFromKeepsInv(c, START, events);
    AnswersAreAWorkerRun(c, events);
    assert PromiseOk(s, a) && PromiseOk(s, b);
    var i := AnswerToCall(s, a, Ok(Ciphertext(packed)));
    var j := AnswerToCall(s, b, Ok(Plaintext(read)));
    AnswersRoundTrip(c, s, i, j, plain, nonce, packed, read);
  }

  // ---- calls on a terminated client ----

  ghost predicate EndsNothing(events: seq<Event>) {
    forall i :: 0 <= i < |events| ==> !events[i].Crash? && !events[i].Terminate?
  }

  /** Not answered, nothing on its way back, and no worker to change that. */
  ghost predicate Hangs(s: System, id: nat)
    requires Shape(s)
  {
    && !s.alive
    && 1 <= id <= |s.calls|
    && s.client.promises[id - 1].settlement.Unsettled?
    && (forall i :: 0 <= i < |s.answers| ==> s.answers[i].request.id != id)
  }

  lemma {:induction false} HangingLasts(c: Crypto, s: System, events: seq<Event>, id: nat)
    requires Shape(s) && Hangs(s, id) && EndsNothing(events)
    ensures Hangs(RunFrom(c, s, events), id)
  {
    if events != [] {
      HangingLasts(c, s, events[..|events| - 1], id);
    }
  }

  lemma StepKeepsSettled(c: Crypto, s: System, e: Event, id: nat)
    requires Shape(s) && 1 <= id <= |s.calls| && !s.client.promises[id - 1].settlement.Unsettled?
    ensures id <= |Step(c, s, e).calls|
    ensures Step(c, s, e).client.promises[id - 1].settlement == s.client.promises[id - 1].settlement
  {
  }

  lemma EndSettles(c: Crypto, s: System, e: Event, id: nat)
    requires Inv(s) && 1 <= id <= |s.calls| && (e.Crash? || e.Terminate?)
    ensures id <= |Step(c, s, e).calls|
    ensures !Step(c, s, e).client.promises[id - 1].settlement.Unsettled?
    ensures Step(c, s, e).client.pending == {} && Step(c, s, e).leaked == {}
  {
    assert PromiseOk(s, id);
  }

  lemma {:induction false} EndingSettles(c: Crypto, s: System, events: seq<Event>, id: nat)
    requires Inv(s) && 1 <= id <= |s.calls| && !EndsNothing(events)
    ensures id <= |RunFrom(c, s, events).calls| && !RunFrom(c, s, events).client.promises[id - 1].settlement.Unsettled?
  {
    var front, last := events[..|events| - 1], events[|events| - 1];
    if EndsNothing(front) {
      CallsOnlyGrow(c, s, front);
      RunFromKeepsInv(c, s, front);
      EndSettles(c, RunFrom(c, s, front), last, id);
    } else {
      EndingSettles(c, s, front, id);
      StepKeepsSettled(c, RunFrom(c, s, front), last, id);
    }
  }

  lemma {:induction false} CallsOnlyGrow(c: Crypto, s: System, events: seq<Event>)
    requires Shape(s)
    ensures s.calls <= RunFrom(c, s, events).calls
  {
    if events != [] {
      CallsOnlyGrow(c, s, events[..|events| - 1]);
    }
  }

  /**
   * The client does not remember that it was terminated: a call made after
   * that is settled if and only if a later crash or termination sweeps it up.
   */
  lemma CallAfterTerminateHangs(c: Crypto, events: seq<Event>, op: EngineOp, later: seq<Event>)
    ensures var dead := Step(c, Run(c, events), Terminate);
            var id := |dead.calls| + 1;
            var s' := RunFrom(c, Step(c, dead, Issue(op, true)), later);
            && id <= |s'.client.promises|
            && (s'.client.promises[id - 1].settlement.Unsettled? <==> EndsNothing(later))
  {
    var dead := Step(c, Run(c, events), Terminate);
    RunFromKeepsInv(c, START, events);
    StepKeepsInv(c, Run(c, events), Terminate);
    var s := Step(c, dead, Issue(op, true));
    StepKeepsInv(c, dead, Issue(op, true));
    var id := |dead.calls| + 1;
    if EndsNothing(later) {
      forall i | 0 <= i < |s.answers| ensures s.answers[i].request.id != id {
        assert Genuine(dead, dead.answers[i].request);
      }
      HangingLasts(c, s, later, id);
    } else {
      EndingSettles(c, s, later, id);
    }
  }
}
