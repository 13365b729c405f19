/**
  What an invocation and a confirmation of packages/crm-modules/ai-gateway/src/service.ts come to,
  read off the answers of the ports and the calls so far.
*/
module AiOutcomes {
  import opened AiInvocations
  import Confirmations = AiConfirmations

  // ---------------------------------------------------------------- the answers decide

  /** What the ports have answered for this operation, in order. */
  ghost function Answers(events: seq<Event>, op: OperationId): seq<Answer> {
    if events == [] then []
    else
      var last := events[|events| - 1];
      Answers(events[..|events| - 1], op) + if last.PortAnswers? && last.op == op then [last.answer] else []
  }

  predicate AllYes(answers: seq<Answer>) { forall k :: 0 <= k < |answers| ==> !answers[k].No? }

  /** Nothing was refused before the last of them, which was. */
  predicate EndsInNo(answers: seq<Answer>) {
    |answers| > 0 && answers[|answers| - 1].No? && AllYes(answers[..|answers| - 1])
  }

  /** Why an invocation failed; a success that could not be recorded is an adapter that cannot be reached. */
  function FailureOf(answers: seq<Answer>): Failure
    requires EndsInNo(answers)
  {
    if |answers| == 4 then AdapterUnavailable else answers[|answers| - 1].failure
  }

  /**
    Leave to call, then the budget, then the model, then the record of success; a refusal is recorded, and the
    caller is told of it if the record was accepted.
  */
  ghost predicate Reached(stage: Stage, answers: seq<Answer>, validId: bool) {
    match stage
    case Authorizing => validId && answers == []
    case Reserving => validId && |answers| == 1 && AllYes(answers)
    case Invoking => validId && |answers| == 2 && AllYes(answers)
    case Recording(p) => validId && |answers| == 3 && AllYes(answers) && answers[2] == Output(p)
    case RecordingFailure(failure) => validId && |answers| <= 4 && EndsInNo(answers) && failure == FailureOf(answers)
    case Settled(Created(p)) => validId && |answers| == 4 && AllYes(answers) && answers[2] == Output(p)
    case Settled(Rejected(failure)) =>
      if !validId then answers == [] && failure == AdapterUnavailable
      else
        && 1 < |answers| <= 5 && EndsInNo(answers[..|answers| - 1])
        && failure == if answers[|answers| - 1].No? then AdapterUnavailable else FailureOf(answers[..|answers| - 1])
  }

  /** Event j is the first invocation of this operation. */
  ghost predicate IsFirst(events: seq<Event>, j: nat, op: OperationId) {
    && j < |events| && events[j].Invoke? && events[j].op == op
    && forall k :: 0 <= k < j ==> !(events[k].Invoke? && events[k].op == op)
  }

  lemma {:induction false} FirstInvoked(states: seq<Ledger>, events: seq<Event>, i: nat, op: OperationId) returns (j: nat)
    requires Run(states, events) && i <= |events| && op in states[i].operations
    ensures j < i && IsFirst(events, j, op) && events[j].Invoke? && states[i].operations[op].fingerprint == events[j].fingerprint
  {
    assert i > 0;
    var s, e := states[i - 1], events[i - 1];
    assert states[i] == Step(s, e);
    if op in s.operations {
      j := FirstInvoked(states, events, i - 1, op);
    } else {
      j := i - 1;
      forall k | 0 <= k < j ensures !(events[k].Invoke? && events[k].op == op) {
        if events[k].Invoke? && events[k].op == op { KnownSince(states, events, k, j, op); }
      }
    }
  }

  lemma {:induction false} KnownSince(states: seq<Ledger>, events: seq<Event>, k: nat, i: nat, op: OperationId)
    requires Run(states, events) && k < i <= |events| && events[k].Invoke? && events[k].op == op
    ensures op in states[i].operations
    decreases i
  {
    assert Enabled(states[i - 1], events[i - 1]);
    if k < i - 1 { KnownSince(states, events, k, i - 1, op); }
  }

  lemma AnswersStep(events: seq<Event>, i: nat, op: OperationId)
    requires i < |events|
    ensures Answers(events[..i + 1], op) ==
            Answers(events[..i], op) + if events[i].PortAnswers? && events[i].op == op then [events[i].answer] else []
  {
    assert events[..i + 1][..i] == events[..i];
  }

  lemma {:induction false} NothingAnswered(states: seq<Ledger>, events: seq<Event>, i: nat, op: OperationId)
    requires Run(states, events) && i <= |events| && op !in states[i].operations
    ensures Answers(events[..i], op) == []
  {
    if i > 0 {
      assert states[i] == Step(states[i - 1], events[i - 1]);
      NothingAnswered(states, events, i - 1, op);
      AnswersStep(events, i - 1, op);
    }
  }

  lemma MoveReaches(stage: Stage, answers: seq<Answer>, answer: Answer)
    requires Reached(stage, answers, true) && Fits(stage, answer)
    ensures Reached(Next(stage, answer), answers + [answer], true)
  {
    var more := answers + [answer];
    assert more[..|more| - 1] == answers;
  }

  /**
    In every run the answers so far decide where an operation is and what becomes of it: the model is called
    exactly after leave and budget were given, and a proposal comes of four yeses and of nothing less.
  */
  lemma {:induction false} AnswersDecide(states: seq<Ledger>, events: seq<Event>, i: nat, j: nat, op: OperationId)
    requires Run(states, events) && j < i <= |events| && IsFirst(events, j, op)
    ensures op in states[i].operations && Reached(states[i].operations[op].stage, Answers(events[..i], op), events[j].validId)
    decreases i
  {
    hide *;
    FirstInvokes(events, j, op);
    RunTakes(states, events, i - 1);
    if j == i - 1 {
      FirstReaches(states, events, j, op);
    } else {
      AnswersDecide(states, events, i - 1, j, op);
      AnswersStep(events, i - 1, op);
      StageMoves(states[i - 1], events[i - 1], op, Answers(events[..i - 1], op), events[j].validId);
    }
  }

  lemma FirstInvokes(events: seq<Event>, j: nat, op: OperationId)
    requires IsFirst(events, j, op)
    ensures j < |events| && events[j].Invoke? && events[j].op == op
  {
  }

  lemma RunTakes(states: seq<Ledger>, events: seq<Event>, i: nat)
    requires Run(states, events) && i < |events|
    ensures |states| == |events| + 1 && Enabled(states[i], events[i]) && states[i + 1] == Step(states[i], events[i])
  {
  }

  lemma FirstReaches(states: seq<Ledger>, events: seq<Event>, j: nat, op: OperationId)
    requires Run(states, events) && IsFirst(events, j, op)
    ensures op in states[j + 1].operations && Reached(states[j + 1].operations[op].stage, Answers(events[..j + 1], op), events[j].validId)
  {
    NotYet(states, events, j, op);
    NothingAnswered(states, events, j, op);
    AnswersStep(events, j, op);
    RunTakes(states, events, j);
    assert events[j].Invoke? && events[j].op == op;
    hide *;
    JustInvoked(states[j], events[j]);
  }

  lemma JustInvoked(s: Ledger, e: Event)
    requires Enabled(s, e) && e.Invoke? && e.op !in s.operations
    ensures e.op in Step(s, e).operations && Reached(Step(s, e).operations[e.op].stage, [], e.validId)
  {
  }

  lemma {:induction false} NotYet(states: seq<Ledger>, events: seq<Event>, j: nat, op: OperationId)
    requires Run(states, events) && IsFirst(events, j, op)
    ensures op !in states[j].operations
  {
    if op in states[j].operations {
      var k := FirstInvoked(states, events, j, op);
    }
  }

  lemma StageMoves(s: Ledger, e: Event, op: OperationId, answers: seq<Answer>, validId: bool)
    requires Enabled(s, e) && op in s.operations && Reached(s.operations[op].stage, answers, validId)
    ensures var more := answers + if e.PortAnswers? && e.op == op then [e.answer] else [];
            op in Step(s, e).operations && Reached(Step(s, e).operations[op].stage, more, validId)
  {
    if e.PortAnswers? && e.op == op {
      assert validId;
      MoveReaches(s.operations[op].stage, answers, e.answer);
    } else {
      assert answers + [] == answers;
      OtherwiseStays(s, e, op);
    }
    hide Reached, Step;
  }

  lemma OtherwiseStays(s: Ledger, e: Event, op: OperationId)
    requires Enabled(s, e) && op in s.operations && !(e.PortAnswers? && e.op == op)
    ensures op in Step(s, e).operations && Step(s, e).operations[op].stage == s.operations[op].stage
  {
  }

  /** The same answers never leave an operation in two places. */
  lemma ReachedOnce(a: Stage, b: Stage, answers: seq<Answer>, validId: bool)
    requires Reached(a, answers, validId) && Reached(b, answers, validId)
    ensures a == b
  {
    if |answers| > 1 {
      var before := answers[..|answers| - 1];
      assert AllYes(answers) ==> AllYes(before) && !answers[|answers| - 1].No?;
      assert AllYes(before) ==> !EndsInNo(before) by { assert before[|before| - 1] == answers[|answers| - 2]; }
    }
  }

  // ---------------------------------------------------------------- the model call

  /** The model is called for an operation if and only if leave to call and the budget were given. */
  lemma {:induction false} CalledExactly(states: seq<Ledger>, events: seq<Event>, i: nat, op: OperationId)
    requires Run(states, events) && i <= |events|
    ensures op in states[i].adapterCalls <==>
              |Answers(events[..i], op)| >= 2 && !Answers(events[..i], op)[0].No? && !Answers(events[..i], op)[1].No?
  {
    hide *;
    if i == 0 {
      NothingCalled(states, events, op);
    } else {
      CalledExactly(states, events, i - 1, op);
      AnswersStep(events, i - 1, op);
      RunTakes(states, events, i - 1);
      var s, e := states[i - 1], events[i - 1];
      if e.PortAnswers? && e.op == op {
        InOperations(s, e);
        var j := FirstInvoked(states, events, i - 1, op);
        AnswersDecide(states, events, i - 1, j, op);
        CallMoves(s, e, Answers(events[..i - 1], op), events[j].validId);
      } else {
        CallsStay(s, e, op);
      }
    }
  }

  lemma NothingCalled(states: seq<Ledger>, events: seq<Event>, op: OperationId)
    requires Run(states, events)
    ensures |states| > 0 && op !in states[0].adapterCalls && |Answers(events[..0], op)| == 0
  {
  }

  lemma InOperations(s: Ledger, e: Event)
    requires Enabled(s, e) && e.PortAnswers?
    ensures e.op in s.operations
  {
  }

  lemma CallMoves(s: Ledger, e: Event, answers: seq<Answer>, validId: bool)
    requires Enabled(s, e) && e.PortAnswers? && Reached(s.operations[e.op].stage, answers, validId)
    ensures e.op in Step(s, e).adapterCalls <==> e.op in s.adapterCalls || (|answers| == 1 && !answers[0].No? && !e.answer.No?)
  {
  }

  lemma CallsStay(s: Ledger, e: Event, op: OperationId)
    requires Enabled(s, e) && !(e.PortAnswers? && e.op == op)
    ensures op in Step(s, e).adapterCalls <==> op in s.adapterCalls
  {
  }

  // ---------------------------------------------------------------- the callers

  /** The first caller of an id starts it, one with the same command waits for it, any other is told of the conflict at once. */
  lemma InvokedExactly(states: seq<Ledger>, events: seq<Event>, i: nat)
    requires Run(states, events) && i < |events| && events[i].Invoke?
    ensures var e, t := events[i], states[i + 1];
            && e.caller in t.callers && t.callers[e.caller].op == e.op && t.callers[e.caller].fingerprint == e.fingerprint
            && (t.callers[e.caller].first <==> IsFirst(events, i, e.op))
            && forall j :: 0 <= j < i && IsFirst(events, j, e.op) ==>
                 t.callers[e.caller].status == (if events[j].fingerprint == e.fingerprint then Awaiting else Answered(Rejected(OperationConflict), true))
    ensures IsFirst(events, i, events[i].op) ==> states[i + 1].callers[events[i].caller].status == Awaiting
  {
    var s, e := states[i], events[i];
    assert Enabled(s, e) && states[i + 1] == Step(s, e);
    if e.op in s.operations {
      var k := FirstInvoked(states, events, i, e.op);
    } else {
      forall k | 0 <= k < i ensures !(events[k].Invoke? && events[k].op == e.op) {
        if events[k].Invoke? && events[k].op == e.op { KnownSince(states, events, k, i, e.op); }
      }
    }
  }

  /** A caller that waited is told what became of its operation, as new if it was the first and as a replay if not. */
  lemma ToldExactly(states: seq<Ledger>, events: seq<Event>, i: nat)
    requires Run(states, events) && i < |events| && events[i].Resume?
    ensures var c := events[i].caller;
            && c in states[i].callers && c in states[i + 1].callers && states[i].callers[c].op in states[i].operations
            && states[i].operations[states[i].callers[c].op].stage.Settled?
            && states[i + 1].callers[c].status
               == Answered(states[i].operations[states[i].callers[c].op].stage.outcome, !states[i].callers[c].first)
  {
  }

  /** Nobody is stuck: a port can answer either way while it is awaited, and a waiting caller is told once it has. */
  lemma NobodyIsStuck(s: Ledger, op: OperationId, caller: CallerId, failure: Failure, p: Proposal)
    requires op in s.operations
    ensures !s.operations[op].stage.Settled? ==> Enabled(s, PortAnswers(op, No(failure)))
    ensures !s.operations[op].stage.Settled? && !s.operations[op].stage.Invoking? ==> Enabled(s, PortAnswers(op, Yes))
    ensures s.operations[op].stage.Invoking? && p.useCaseId == s.operations[op].useCaseId && p.resourceReference == s.operations[op].resourceReference
            && p.id !in s.proposals
            && (forall other :: other in s.operations && s.operations[other].stage.Recording? ==> s.operations[other].stage.proposal.id != p.id)
            ==> Enabled(s, PortAnswers(op, Output(p)))
    ensures caller in s.callers && s.callers[caller].status == Awaiting && s.callers[caller].op == op && s.operations[op].stage.Settled?
            ==> Enabled(s, Resume(caller))
  {
  }

  // ---------------------------------------------------------------- the confirmations

  type Desk = Confirmations.Desk

  /** A run of this id that was not taken away again. */
  predicate IsKept(d: Desk, r: CallerId, op: OperationId) { r in d.runs && d.runs[r].op == op && !d.runs[r].dropped }

  /**
    A confirmation joins the kept run of its id if that was asked for by the same command and is refused if by
    another; if there is none it starts one exactly when it names a stored, unexpired proposal of its use case and
    resource, and the use case is on.
  */
  lemma ConfirmationTaken(
      d: Desk, proposals: map<ProposalId, Proposal>, caller: CallerId, op: OperationId, fingerprint: Fingerprint,
      request: Confirmations.Request, enabled: bool, nowMs: int)
    requires Confirmations.DeskSound(d, proposals) && caller !in d.runs && caller !in d.waiting
    ensures Confirmations.Enabled(d, Confirmations.Confirm(caller, op, fingerprint, request, enabled, nowMs))
    ensures var t := Confirmations.Step(d, proposals, Confirmations.Confirm(caller, op, fingerprint, request, enabled, nowMs));
            && (forall r :: IsKept(d, r, op) ==>
                  t == if d.runs[r].fingerprint == fingerprint then d.(waiting := d.waiting[caller := r]) else d)
            && ((forall r :: !IsKept(d, r, op)) ==>
                  if request.proposalId in proposals && proposals[request.proposalId].useCaseId == request.useCaseId
                     && proposals[request.proposalId].resourceReference == request.resourceReference
                     && enabled && nowMs < proposals[request.proposalId].expiresAtMs then
                    && t.runs == d.runs[caller := Confirmations.Confirmation(op, fingerprint, request, nowMs, Confirmations.Pending, false)]
                    && t.waiting == d.waiting[caller := caller]
                  else t == d)
  {
    forall r | IsKept(d, r, op) ensures op in d.confirmations && d.confirmations[op] == Confirmations.Entry(d.runs[r].fingerprint, r) {
      assert Confirmations.RunSound(d, proposals, r);
    }
    if op in d.confirmations {
      assert Confirmations.EntrySound(d, op, d.confirmations[op]);
      assert IsKept(d, d.confirmations[op].run, op);
    }
  }

  /** A run is confirmed if its authorization allowed it and denied if not; a denied run is taken away, and its id is free. */
  lemma ConfirmationEnds(d: Desk, proposals: map<ProposalId, Proposal>, r: CallerId, allowed: bool)
    requires Confirmations.DeskSound(d, proposals) && r in d.runs
    ensures Confirmations.Enabled(d, Confirmations.AuthorizationArrives(r, allowed)) <==> d.runs[r].verdict.Pending?
    ensures Confirmations.Enabled(d, Confirmations.DropFailed(r)) <==> d.runs[r].verdict.Denied? && !d.runs[r].dropped
    ensures d.runs[r].verdict.Pending? ==>
              var t := Confirmations.Step(d, proposals, Confirmations.AuthorizationArrives(r, allowed));
              && t.runs == d.runs[r := d.runs[r].(verdict := if allowed then Confirmations.Confirmed else Confirmations.Denied)]
              && t.waiting == d.waiting
    ensures d.runs[r].verdict.Denied? && !d.runs[r].dropped ==>
              var t := Confirmations.Step(d, proposals, Confirmations.DropFailed(r));
              && t.runs == d.runs[r := d.runs[r].(dropped := true)] && t.waiting == d.waiting
              && forall q :: !IsKept(t, q, d.runs[r].op)
  {
    assert Confirmations.RunSound(d, proposals, r);
    forall q | IsKept(d, q, d.runs[r].op) ensures d.confirmations[d.runs[r].op] == Confirmations.Entry(d.runs[q].fingerprint, q) {
      assert Confirmations.RunSound(d, proposals, q);
    }
  }
}
