/**
  `invoke` of packages/crm-modules/ai-gateway/src/service.ts: one model call per operation id,
  shared by everybody who asks for it.
*/
module AiInvocations {
  // The service keeps its maps for its whole life.  A turn runs from one await to the next; the
  // first call of an id and its map entry share a turn, so whoever comes later finds the entry.
  // Commands have passed validation; a fingerprint is the digest of one (SafeJson says when two
  // agree).  What the ports answer comes from outside.

  type OperationId = string
  type Fingerprint = string
  type ProposalId = string
  type CallerId = nat

  datatype Failure =
    | UseCaseUnavailable | BudgetExceeded | OutputInvalid | AdapterUnavailable | AdapterRefused(code: string)
    | ConfirmationDenied | OperationConflict

  datatype Proposal = Proposal(id: ProposalId, useCaseId: string, resourceReference: string, expiresAtMs: int, outputDigest: string)

  datatype Outcome = Created(proposal: Proposal) | Rejected(failure: Failure)

  /** The port an invocation waits for, or what became of it. */
  datatype Stage =
    | Authorizing
    | Reserving
    | Invoking
    | Recording(proposal: Proposal)
    | RecordingFailure(failure: Failure)
    | Settled(outcome: Outcome)

  /** A port's answer: yes, no with what it means for the caller, or the adapter's valid output. */
  datatype Answer = Yes | No(failure: Failure) | Output(proposal: Proposal)

  datatype Operation = Operation(fingerprint: Fingerprint, useCaseId: string, resourceReference: string, attempts: nat, stage: Stage)

  datatype Status = Awaiting | Answered(outcome: Outcome, replayed: bool)

  datatype Caller = Caller(op: OperationId, fingerprint: Fingerprint, first: bool, status: Status)

  /** The operations and proposals, the calls of `invoke`, and the model calls so far. */
  datatype Ledger = Ledger(
    operations: map<OperationId, Operation>,
    proposals: map<ProposalId, Proposal>,
    callers: map<CallerId, Caller>,
    adapterCalls: seq<OperationId>)

  const EMPTY_LEDGER := Ledger(map[], map[], map[], [])

  datatype Event =
    | Invoke(caller: CallerId, op: OperationId, fingerprint: Fingerprint, useCaseId: string, resourceReference: string, validId: bool)
    | PortAnswers(op: OperationId, answer: Answer)
    | Resume(caller: CallerId)

  predicate Fits(stage: Stage, answer: Answer) {
    !stage.Settled? && (answer.Output? <==> stage.Invoking? && !answer.No?)
  }

  function Next(stage: Stage, answer: Answer): Stage
    requires Fits(stage, answer)
  {
    match stage
    case Authorizing => if answer.No? then RecordingFailure(answer.failure) else Reserving
    case Reserving => if answer.No? then RecordingFailure(answer.failure) else Invoking
    case Invoking => if answer.No? then RecordingFailure(answer.failure) else Recording(answer.proposal)
    case Recording(p) => if answer.No? then RecordingFailure(AdapterUnavailable) else Settled(Created(p))
    case RecordingFailure(failure) => Settled(Rejected(if answer.No? then AdapterUnavailable else failure))
  }

  /** Proposal ids are random; the rest of a proposal is copied from its command. */
  predicate Issued(s: Ledger, o: Operation, p: Proposal) {
    && p.useCaseId == o.useCaseId && p.resourceReference == o.resourceReference
    && p.id !in s.proposals
    && forall other :: other in s.operations && s.operations[other].stage.Recording? ==> s.operations[other].stage.proposal.id != p.id
  }

  predicate Enabled(s: Ledger, e: Event) {
    match e
    case Invoke(caller, _, _, _, _, _) => caller !in s.callers
    case PortAnswers(op, answer) =>
      op in s.operations && Fits(s.operations[op].stage, answer)
      && (answer.Output? ==> Issued(s, s.operations[op], answer.proposal))
    case Resume(caller) =>
      caller in s.callers && s.callers[caller].status.Awaiting? && s.callers[caller].op in s.operations
      && s.operations[s.callers[caller].op].stage.Settled?
  }

  function Step(s: Ledger, e: Event): Ledger
    requires Enabled(s, e)
  {
    match e
    case Invoke(caller, op, fingerprint, useCaseId, resourceReference, validId) =>
      if op in s.operations then
        s.(callers := s.callers[caller := Caller(op, fingerprint, false,
          if s.operations[op].fingerprint != fingerprint then Answered(Rejected(OperationConflict), true) else Awaiting)])
      else
        s.(operations := s.operations[op := Operation(fingerprint, useCaseId, resourceReference, 0,
             if validId then Authorizing else Settled(Rejected(AdapterUnavailable)))],
           callers := s.callers[caller := Caller(op, fingerprint, true, Awaiting)])
    case PortAnswers(op, answer) => Moved(s, op, Next(s.operations[op].stage, answer))
    case Resume(caller) =>
      var c := s.callers[caller];
      s.(callers := s.callers[caller := c.(status := Answered(s.operations[c.op].stage.outcome, !c.first))])
  }

  /** Entering a stage calls its port; the model call is the one counted, and an accepted record stores the proposal. */
  function Moved(s: Ledger, op: OperationId, stage: Stage): Ledger
    requires op in s.operations
  {
    var o := s.operations[op];
    s.(operations := s.operations[op := o.(attempts := o.attempts + if stage.Invoking? then 1 else 0, stage := stage)],
       adapterCalls := if stage.Invoking? then s.adapterCalls + [op] else s.adapterCalls,
       proposals := if stage.Settled? && stage.outcome.Created?
         then s.proposals[stage.outcome.proposal.id := stage.outcome.proposal] else s.proposals)
  }

  // ---------------------------------------------------------------- the invariant

  predicate BeforeCall(stage: Stage) { stage.Authorizing? || stage.Reserving? }

  predicate AfterCall(stage: Stage) { stage.Invoking? || stage.Recording? || (stage.Settled? && stage.outcome.Created?) }

  /** The model calls, each operation at most once, and which operations can have made theirs. */
  ghost predicate CallsSound(s: Ledger) {
    && (forall i, j :: 0 <= i < j < |s.adapterCalls| ==> s.adapterCalls[i] != s.adapterCalls[j])
    && (forall op :: op in s.adapterCalls ==> op in s.operations)
    && (forall op :: op in s.operations ==> CountSound(s, op))
  }

  predicate CountSound(s: Ledger, op: OperationId)
    requires op in s.operations
  {
    var o := s.operations[op];
    && o.attempts == (if op in s.adapterCalls then 1 else 0)
    && (BeforeCall(o.stage) ==> op !in s.adapterCalls)
    && (AfterCall(o.stage) ==> op in s.adapterCalls)
  }

  /** What a caller has been told is what became of its operation, or that it asked for something else. */
  predicate CallerSound(s: Ledger, c: Caller) {
    && c.op in s.operations
    && (if c.fingerprint == s.operations[c.op].fingerprint then
          c.status.Answered? ==> s.operations[c.op].stage == Settled(c.status.outcome) && c.status.replayed == !c.first
        else !c.first && c.status == Answered(Rejected(OperationConflict), true))
  }

  ghost predicate CallersSound(s: Ledger) {
    && (forall k :: k in s.callers ==> CallerSound(s, s.callers[k]))
    && (forall k, m :: k in s.callers && m in s.callers && s.callers[k].first && s.callers[m].first && k != m ==>
          s.callers[k].op != s.callers[m].op)
  }

  ghost predicate PendingFresh(s: Ledger) {
    && (forall op :: op in s.operations && s.operations[op].stage.Recording? ==> s.operations[op].stage.proposal.id !in s.proposals)
    && (forall a, b :: a in s.operations && b in s.operations && a != b && s.operations[a].stage.Recording? && s.operations[b].stage.Recording? ==>
          s.operations[a].stage.proposal.id != s.operations[b].stage.proposal.id)
  }

  ghost predicate Stored(s: Ledger, op: OperationId)
    requires op in s.operations
  {
    var stage := s.operations[op].stage;
    stage.Settled? && stage.outcome.Created? ==>
      stage.outcome.proposal.id in s.proposals && s.proposals[stage.outcome.proposal.id] == stage.outcome.proposal
  }

  ghost predicate Sound(s: Ledger) {
    CallsSound(s) && CallersSound(s) && PendingFresh(s) && forall op :: op in s.operations ==> Stored(s, op)
  }

  lemma MoveKeepsCalls(s: Ledger, e: Event)
    requires CallsSound(s) && Enabled(s, e) && e.PortAnswers?
    ensures CallsSound(Step(s, e))
  {
    var t := Step(s, e);
    assert CountSound(s, e.op);
    forall op | op in t.operations ensures CountSound(t, op) {
      assert CountSound(s, op);
    }
  }

  lemma OthersKeepCalls(s: Ledger, e: Event)
    requires CallsSound(s) && Enabled(s, e) && !e.PortAnswers?
    ensures CallsSound(Step(s, e))
  {
    var t := Step(s, e);
    forall op | op in t.operations ensures CountSound(t, op) {
      if op in s.operations { assert CountSound(s, op); }
    }
  }

  /** An operation keeps its command, and once settled it never moves again. */
  lemma OperationsLast(s: Ledger, e: Event, op: OperationId)
    requires Enabled(s, e) && op in s.operations
    ensures var t := Step(s, e);
            op in t.operations && t.operations[op].fingerprint == s.operations[op].fingerprint
            && (s.operations[op].stage.Settled? ==> t.operations[op] == s.operations[op])
  {
  }

  lemma StepKeepsCaller(s: Ledger, e: Event, k: CallerId)
    requires CallersSound(s) && Enabled(s, e) && k in Step(s, e).callers
    ensures CallerSound(Step(s, e), Step(s, e).callers[k])
  {
    if k in s.callers {
      assert CallerSound(s, s.callers[k]);
      OperationsLast(s, e, s.callers[k].op);
    }
    hide Moved;
  }

  lemma StepKeepsCallers(s: Ledger, e: Event)
    requires CallersSound(s) && Enabled(s, e)
    ensures CallersSound(Step(s, e))
  {
    forall k | k in Step(s, e).callers ensures CallerSound(Step(s, e), Step(s, e).callers[k]) {
      StepKeepsCaller(s, e, k);
    }
    if e.Invoke? && e.op !in s.operations {
      forall k | k in s.callers ensures s.callers[k].op != e.op {
        assert CallerSound(s, s.callers[k]);
      }
    }
    hide Moved, CallerSound;
  }

  lemma MoveKeepsPending(s: Ledger, e: Event)
    requires PendingFresh(s) && Enabled(s, e) && e.PortAnswers?
    ensures PendingFresh(Step(s, e))
  {
  }

  /** Storing one proposal leaves every other where it is. */
  lemma MoveKeepsStored(s: Ledger, e: Event, op: OperationId)
    requires PendingFresh(s) && Enabled(s, e) && e.PortAnswers? && op in s.operations && Stored(s, op)
    ensures Stored(Step(s, e), op)
  {
    if op != e.op { OperationsLast(s, e, op); }
  }

  lemma StepKeepsSound(s: Ledger, e: Event)
    requires Sound(s) && Enabled(s, e)
    ensures Sound(Step(s, e))
  {
    StepKeepsCallers(s, e);
    if e.PortAnswers? {
      MoveKeepsCalls(s, e);
      MoveKeepsPending(s, e);
      forall op | op in Step(s, e).operations ensures Stored(Step(s, e), op) {
        MoveKeepsStored(s, e, op);
      }
    } else {
      OthersKeepCalls(s, e);
      OthersKeepProposals(s, e);
    }
    hide Step, CallsSound, CallersSound, PendingFresh, Stored;
  }

  lemma OthersKeepProposals(s: Ledger, e: Event)
    requires PendingFresh(s) && (forall op :: op in s.operations ==> Stored(s, op)) && Enabled(s, e) && !e.PortAnswers?
    ensures PendingFresh(Step(s, e)) && forall op :: op in Step(s, e).operations ==> Stored(Step(s, e), op)
  {
    forall op | op in Step(s, e).operations ensures Stored(Step(s, e), op) {
      if op in s.operations { assert Stored(s, op); }
    }
  }

  // ---------------------------------------------------------------- runs

  ghost predicate Run(states: seq<Ledger>, events: seq<Event>) {
    && |states| == |events| + 1
    && states[0] == EMPTY_LEDGER
    && forall i :: 0 <= i < |events| ==> Enabled(states[i], events[i]) && states[i + 1] == Step(states[i], events[i])
  }

  lemma {:induction false} RunSound(states: seq<Ledger>, events: seq<Event>, i: nat)
    requires Run(states, events) && i <= |events|
    ensures Sound(states[i])
  {
    hide Step, Enabled;
    if i > 0 {
      RunSound(states, events, i - 1);
      StepKeepsSound(states[i - 1], events[i - 1]);
    }
  }

  /** In every interleaving the model is called at most once per operation id, and only for an id somebody invoked. */
  lemma ModelCalledAtMostOnce(
      states: seq<Ledger>, events: seq<Event>, i: nat, m: nat, n: nat)
    requires Run(states, events) && i <= |events| && m < |states[i].adapterCalls| && n < |states[i].adapterCalls|
    ensures states[i].adapterCalls[m] == states[i].adapterCalls[n] ==> m == n
    ensures states[i].adapterCalls[m] in states[i].operations && states[i].operations[states[i].adapterCalls[m]].attempts == 1
  {
    RunSound(states, events, i);
    assert states[i].adapterCalls[m] in states[i].adapterCalls;
    assert CountSound(states[i], states[i].adapterCalls[m]);
  }

  /**
    Callers of one id who sent the same command get the same outcome, and only the first of them is told it is
    new; of two callers with different commands at least one is told of the conflict.
  */
  lemma CallersShareOutcome(
      states: seq<Ledger>, events: seq<Event>, i: nat, a: CallerId, b: CallerId)
    requires Run(states, events) && i <= |events| && a in states[i].callers && b in states[i].callers && a != b
    requires states[i].callers[a].op == states[i].callers[b].op
    requires states[i].callers[a].status.Answered? && states[i].callers[b].status.Answered?
    ensures var x, y := states[i].callers[a], states[i].callers[b];
            && (x.fingerprint == y.fingerprint ==> x.status.outcome == y.status.outcome)
            && (x.fingerprint != y.fingerprint ==> x.status.outcome == Rejected(OperationConflict) || y.status.outcome == Rejected(OperationConflict))
            && (x.status.replayed || y.status.replayed)
  {
    RunSound(states, events, i);
    assert CallerSound(states[i], states[i].callers[a]) && CallerSound(states[i], states[i].callers[b]);
    hide CallsSound, PendingFresh, Stored;
  }

  /** A caller is promised an outcome that was created only if the model was called and its proposal is stored. */
  lemma CreatedIsStored(states: seq<Ledger>, events: seq<Event>, i: nat, a: CallerId)
    requires Run(states, events) && i <= |events| && a in states[i].callers
    requires states[i].callers[a].status.Answered? && states[i].callers[a].status.outcome.Created?
    ensures var p := states[i].callers[a].status.outcome.proposal;
            p.id in states[i].proposals && states[i].proposals[p.id] == p && states[i].callers[a].op in states[i].adapterCalls
  {
    RunSound(states, events, i);
    var s, c := states[i], states[i].callers[a];
    assert CallerSound(s, c) && Stored(s, c.op) && CountSound(s, c.op);
  }

  /** What one event may add to the proposals: the one whose success record it accepts. */
  lemma StepStores(s: Ledger, e: Event, id: ProposalId)
    requires Enabled(s, e) && id in Step(s, e).proposals
    ensures (id in s.proposals && s.proposals[id] == Step(s, e).proposals[id])
            || (e.PortAnswers? && s.operations[e.op].stage == Recording(Step(s, e).proposals[id]) && !e.answer.No?)
  {
  }

  lemma StepKeepsProposals(s: Ledger, e: Event)
    requires Sound(s) && Enabled(s, e)
    ensures forall id :: id in s.proposals ==> id in Step(s, e).proposals && Step(s, e).proposals[id] == s.proposals[id]
  {
  }

  // ---------------------------------------------------------------- the service itself

  /** The maps of the service and the calls under way, changed in place turn by turn. */
  class AiInvocationService {
    var operations: map<OperationId, Operation>
    var proposals: map<ProposalId, Proposal>
    var callers: map<CallerId, Caller>
    var adapterCalls: seq<OperationId>

    ghost function View(): Ledger
      reads this
    {
      Ledger(operations, proposals, callers, adapterCalls)
    }

    constructor ()
      ensures View() == EMPTY_LEDGER
    {
      operations, proposals, callers, adapterCalls := map[], map[], map[], [];
    }

    /** The first turn of `invoke`. */
    method Invoke(caller: CallerId, op: OperationId, fingerprint: Fingerprint, useCaseId: string, resourceReference: string, validId: bool)
      requires caller !in callers
      modifies this`operations, this`callers
      ensures View() == Step(old(View()), Event.Invoke(caller, op, fingerprint, useCaseId, resourceReference, validId))
    {
      if op in operations {
        if operations[op].fingerprint != fingerprint {
          callers := callers[caller := Caller(op, fingerprint, false, Answered(Rejected(OperationConflict), true))];
          return;
        }
        callers := callers[caller := Caller(op, fingerprint, false, Awaiting)];
        return;
      }
      var stage := if validId then Authorizing else Settled(Rejected(AdapterUnavailable));
      operations := operations[op := Operation(fingerprint, useCaseId, resourceReference, 0, stage)];
      callers := callers[caller := Caller(op, fingerprint, true, Awaiting)];
    }

    /** The turn after a port answered. */
    method OnPortAnswer(op: OperationId, answer: Answer)
      requires Enabled(View(), PortAnswers(op, answer))
      modifies this`operations, this`proposals, this`adapterCalls
      ensures View() == Step(old(View()), PortAnswers(op, answer))
    {
      var o := operations[op];
      match o.stage {
        case Authorizing =>
          o := o.(stage := if answer.No? then RecordingFailure(answer.failure) else Reserving);
        case Reserving =>
          if answer.No? {
            o := o.(stage := RecordingFailure(answer.failure));
          } else {
            adapterCalls := adapterCalls + [op];
            o := o.(attempts := o.attempts + 1, stage := Invoking);
          }
        case Invoking =>
          o := o.(stage := if answer.No? then RecordingFailure(answer.failure) else Recording(answer.proposal));
        case Recording(p) =>
          if answer.No? {
            o := o.(stage := RecordingFailure(AdapterUnavailable));
          } else {
            proposals := proposals[p.id := p];
            o := o.(stage := Settled(Created(p)));
          }
        case RecordingFailure(failure) =>
          o := o.(stage := Settled(Rejected(if answer.No? then AdapterUnavailable else failure)));
      }
      operations := operations[op := o];
    }

    /** The caller's continuation once the shared promise has settled. */
    method OnSettled(caller: CallerId) returns (outcome: Outcome, replayed: bool)
      requires Enabled(View(), Resume(caller))
      modifies this`callers
      ensures View() == Step(old(View()), Resume(caller))
      ensures View().callers[caller].status == Answered(outcome, replayed)
    {
      var c := callers[caller];
      outcome, replayed := operations[c.op].stage.outcome, !c.first;
      callers := callers[caller := c.(status := Answered(outcome, replayed))];
    }
  }
}
