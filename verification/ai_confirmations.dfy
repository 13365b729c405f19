/**
  `confirm` of packages/crm-modules/ai-gateway/src/service.ts, beside the invocations that store
  the proposals.

  Callers of one operation id share one run of the confirmation code.  A run that fails takes its
  entry away again, in the continuation of the caller that started it, so the id can be used anew.
*/
module AiConfirmations {
  import Invocations = AiInvocations

  type OperationId = Invocations.OperationId
  type Fingerprint = Invocations.Fingerprint
  type ProposalId = Invocations.ProposalId
  type CallerId = Invocations.CallerId
  type Proposals = map<ProposalId, Invocations.Proposal>

  datatype Verdict = Pending | Confirmed | Denied

  /** One run of the confirmation code, named after the caller that started it. */
  datatype Confirmation = Confirmation(op: OperationId, fingerprint: Fingerprint, request: Request, confirmedAtMs: int, verdict: Verdict, dropped: bool)

  datatype Request = Request(proposalId: ProposalId, useCaseId: string, resourceReference: string)

  datatype Entry = Entry(fingerprint: Fingerprint, run: CallerId)

  /** The confirmations map, the runs, and which run each caller waits for. */
  datatype Desk = Desk(confirmations: map<OperationId, Entry>, runs: map<CallerId, Confirmation>, waiting: map<CallerId, CallerId>)

  datatype Event =
    | Confirm(caller: CallerId, op: OperationId, fingerprint: Fingerprint, request: Request, enabled: bool, nowMs: int)
    | AuthorizationArrives(run: CallerId, allowed: bool)
    | DropFailed(run: CallerId)

  /** The proposal is stored, is the one meant, its use case is on, and it has not expired. */
  predicate Confirmable(proposals: Proposals, request: Request, enabled: bool, nowMs: int) {
    && request.proposalId in proposals
    && proposals[request.proposalId].useCaseId == request.useCaseId
    && proposals[request.proposalId].resourceReference == request.resourceReference
    && enabled
    && nowMs < proposals[request.proposalId].expiresAtMs
  }

  predicate Enabled(d: Desk, e: Event) {
    match e
    case Confirm(caller, _, _, _, _, _) => caller !in d.runs && caller !in d.waiting
    case AuthorizationArrives(run, _) => run in d.runs && d.runs[run].verdict.Pending?
    case DropFailed(run) => run in d.runs && d.runs[run].verdict.Denied? && !d.runs[run].dropped
  }

  function Step(d: Desk, proposals: Proposals, e: Event): Desk
    requires Enabled(d, e)
  {
    match e
    case Confirm(caller, op, fingerprint, request, enabled, nowMs) =>
      if op in d.confirmations then
        if d.confirmations[op].fingerprint != fingerprint then d else d.(waiting := d.waiting[caller := d.confirmations[op].run])
      else if !Confirmable(proposals, request, enabled, nowMs) then d
      else
        Desk(d.confirmations[op := Entry(fingerprint, caller)],
             d.runs[caller := Confirmation(op, fingerprint, request, nowMs, Pending, false)],
             d.waiting[caller := caller])
    case AuthorizationArrives(run, allowed) =>
      d.(runs := d.runs[run := d.runs[run].(verdict := if allowed then Confirmed else Denied)])
    case DropFailed(run) =>
      d.(runs := d.runs[run := d.runs[run].(dropped := true)], confirmations := d.confirmations - {d.runs[run].op})
  }

  // ---------------------------------------------------------------- the invariant

  /** A run that was not dropped is the one its operation's entry names. */
  predicate RunSound(d: Desk, proposals: Proposals, r: CallerId)
    requires r in d.runs
  {
    var run := d.runs[r];
    && (run.dropped ==> run.verdict.Denied?)
    && (!run.dropped ==> run.op in d.confirmations && d.confirmations[run.op] == Entry(run.fingerprint, r))
    && Confirmable(proposals, run.request, true, run.confirmedAtMs)
  }

  predicate EntrySound(d: Desk, op: OperationId, entry: Entry) {
    entry.run in d.runs && d.runs[entry.run].op == op && d.runs[entry.run].fingerprint == entry.fingerprint && !d.runs[entry.run].dropped
  }

  ghost predicate DeskSound(d: Desk, proposals: Proposals) {
    && (forall r :: r in d.runs ==> RunSound(d, proposals, r))
    && (forall op :: op in d.confirmations ==> EntrySound(d, op, d.confirmations[op]))
    && (forall k :: k in d.waiting ==> d.waiting[k] in d.runs)
  }

  lemma StepKeepsRun(d: Desk, proposals: Proposals, e: Event, r: CallerId)
    requires DeskSound(d, proposals) && Enabled(d, e) && r in Step(d, proposals, e).runs
    ensures RunSound(Step(d, proposals, e), proposals, r)
  {
    if r in d.runs { assert RunSound(d, proposals, r); }
    if e.DropFailed? { assert RunSound(d, proposals, e.run); }
  }

  lemma StepKeepsEntry(d: Desk, proposals: Proposals, e: Event, op: OperationId)
    requires DeskSound(d, proposals) && Enabled(d, e) && op in Step(d, proposals, e).confirmations
    ensures EntrySound(Step(d, proposals, e), op, Step(d, proposals, e).confirmations[op])
  {
    if op in d.confirmations { assert EntrySound(d, op, d.confirmations[op]); }
    if e.DropFailed? { assert RunSound(d, proposals, e.run); }
    hide Confirmable;
  }

  lemma StepKeepsDesk(d: Desk, proposals: Proposals, e: Event)
    requires DeskSound(d, proposals) && Enabled(d, e)
    ensures DeskSound(Step(d, proposals, e), proposals)
  {
    var t := Step(d, proposals, e);
    forall r | r in t.runs ensures RunSound(t, proposals, r) {
      StepKeepsRun(d, proposals, e, r);
    }
    forall op | op in t.confirmations ensures EntrySound(t, op, t.confirmations[op]) {
      StepKeepsEntry(d, proposals, e, op);
    }
    forall k | k in t.waiting ensures t.waiting[k] in t.runs {
      if k in d.waiting { assert d.waiting[k] in d.runs; }
      if e.Confirm? && e.op in d.confirmations { assert EntrySound(d, e.op, d.confirmations[e.op]); }
    }
    hide RunSound, EntrySound, Confirmable;
  }

  /** More proposals never unsettle a confirmation. */
  lemma MoreProposals(d: Desk, before: Proposals, after: Proposals)
    requires DeskSound(d, before) && forall id :: id in before ==> id in after && after[id] == before[id]
    ensures DeskSound(d, after)
  {
    forall r | r in d.runs ensures RunSound(d, after, r) {
      assert RunSound(d, before, r);
    }
  }

  // ---------------------------------------------------------------- the whole service

  datatype Gateway = Gateway(ledger: Invocations.Ledger, desk: Desk)

  datatype Action = Invoking(invocation: Invocations.Event) | Confirming(confirmation: Event)

  const NEW_GATEWAY := Gateway(Invocations.EMPTY_LEDGER, Desk(map[], map[], map[]))

  predicate Possible(g: Gateway, a: Action) {
    match a
    case Invoking(e) => Invocations.Enabled(g.ledger, e)
    case Confirming(e) => Enabled(g.desk, e)
  }

  function Act(g: Gateway, a: Action): Gateway
    requires Possible(g, a)
  {
    match a
    case Invoking(e) => g.(ledger := Invocations.Step(g.ledger, e))
    case Confirming(e) => g.(desk := Step(g.desk, g.ledger.proposals, e))
  }

  ghost predicate Run(states: seq<Gateway>, actions: seq<Action>) {
    && |states| == |actions| + 1
    && states[0] == NEW_GATEWAY
    && forall i :: 0 <= i < |actions| ==> Possible(states[i], actions[i]) && states[i + 1] == Act(states[i], actions[i])
  }

  ghost predicate Sound(g: Gateway) { Invocations.Sound(g.ledger) && DeskSound(g.desk, g.ledger.proposals) }

  lemma ActKeepsSound(g: Gateway, a: Action)
    requires Sound(g) && Possible(g, a)
    ensures Sound(Act(g, a))
  {
    match a
    case Invoking(e) =>
      Invocations.StepKeepsSound(g.ledger, e);
      Invocations.StepKeepsProposals(g.ledger, e);
      MoreProposals(g.desk, g.ledger.proposals, Invocations.Step(g.ledger, e).proposals);
    case Confirming(e) => StepKeepsDesk(g.desk, g.ledger.proposals, e);
    hide Step, Invocations.Step, DeskSound;
  }

  lemma {:induction false} RunIsSound(states: seq<Gateway>, actions: seq<Action>, i: nat)
    requires Run(states, actions) && i <= |actions|
    ensures Sound(states[i])
  {
    hide Act, Possible;
    if i > 0 {
      RunIsSound(states, actions, i - 1);
      ActKeepsSound(states[i - 1], actions[i - 1]);
    }
  }

  /** Action j is the answer that accepted the success record of proposal p. */
  ghost predicate RecordAccepted(states: seq<Gateway>, actions: seq<Action>, j: nat, p: Invocations.Proposal)
    requires |states| == |actions| + 1 && j < |actions|
  {
    && actions[j].Invoking? && actions[j].invocation.PortAnswers? && !actions[j].invocation.answer.No?
    && actions[j].invocation.op in states[j].ledger.operations
    && states[j].ledger.operations[actions[j].invocation.op].stage == Invocations.Recording(p)
  }

  /** A proposal is stored only after its success record was accepted. */
  lemma {:induction false} StoredAfterRecord(
      states: seq<Gateway>, actions: seq<Action>, i: nat, id: ProposalId)
    requires Run(states, actions) && i <= |actions| && id in states[i].ledger.proposals
    ensures exists j :: 0 <= j < i && RecordAccepted(states, actions, j, states[i].ledger.proposals[id])
  {
    hide Invocations.Step, Step;
    assert i > 0;
    var g, a := states[i - 1], actions[i - 1];
    assert states[i] == Act(g, a);
    if a.Invoking? {
      Invocations.StepStores(g.ledger, a.invocation, id);
    }
    if id in g.ledger.proposals && g.ledger.proposals[id] == states[i].ledger.proposals[id] {
      StoredAfterRecord(states, actions, i - 1, id);
    } else {
      assert RecordAccepted(states, actions, i - 1, states[i].ledger.proposals[id]);
    }
  }

  /**
    Whatever is being confirmed, or has been, names a stored proposal of its own use case and resource that had
    not expired, and whose success record was accepted before.
  */
  lemma ConfirmedAfterRecord(
      states: seq<Gateway>, actions: seq<Action>, i: nat, r: CallerId)
    requires Run(states, actions) && i <= |actions| && r in states[i].desk.runs
    ensures var run := states[i].desk.runs[r];
            && Confirmable(states[i].ledger.proposals, run.request, true, run.confirmedAtMs)
            && exists j :: 0 <= j < i && RecordAccepted(states, actions, j, states[i].ledger.proposals[run.request.proposalId])
  {
    RunIsSound(states, actions, i);
    assert RunSound(states[i].desk, states[i].ledger.proposals, r);
    StoredAfterRecord(states, actions, i, states[i].desk.runs[r].request.proposalId);
  }

  /** An operation id confirms at most once: of two runs of one id only one can have succeeded or still succeed. */
  lemma ConfirmsAtMostOnce(
      states: seq<Gateway>, actions: seq<Action>, i: nat, q: CallerId, r: CallerId)
    requires Run(states, actions) && i <= |actions| && q in states[i].desk.runs && r in states[i].desk.runs
    requires states[i].desk.runs[q].op == states[i].desk.runs[r].op
    requires !states[i].desk.runs[q].verdict.Denied? && !states[i].desk.runs[r].verdict.Denied?
    ensures q == r
  {
    RunIsSound(states, actions, i);
    assert RunSound(states[i].desk, states[i].ledger.proposals, q);
    assert RunSound(states[i].desk, states[i].ledger.proposals, r);
  }

  /** Callers that wait see the run of their own command, even after another run took the id. */
  lemma WaitersSeeOneRun(d: Desk, proposals: Proposals, e: Event)
    requires DeskSound(d, proposals) && Enabled(d, e) && e.Confirm? && e.caller in Step(d, proposals, e).waiting
    ensures var t := Step(d, proposals, e);
            && t.waiting[e.caller] in t.runs
            && t.runs[t.waiting[e.caller]].op == e.op && t.runs[t.waiting[e.caller]].fingerprint == e.fingerprint
  {
    if e.op in d.confirmations { assert EntrySound(d, e.op, d.confirmations[e.op]); }
  }

  // ---------------------------------------------------------------- the confirmations map itself

  class AiConfirmationService {
    var confirmations: map<OperationId, Entry>
    var runs: map<CallerId, Confirmation>
    var waiting: map<CallerId, CallerId>

    ghost function View(): Desk
      reads this
    {
      Desk(confirmations, runs, waiting)
    }

    constructor ()
      ensures View() == NEW_GATEWAY.desk
    {
      confirmations, runs, waiting := map[], map[], map[];
    }

    /** The first turn of `confirm`; a refusal changes nothing. */
    method Confirm(proposals: Proposals, caller: CallerId, op: OperationId, fingerprint: Fingerprint, request: Request, enabled: bool, nowMs: int)
      returns (accepted: bool)
      requires caller !in runs && caller !in waiting
      modifies this
      ensures View() == Step(old(View()), proposals, Event.Confirm(caller, op, fingerprint, request, enabled, nowMs))
      ensures accepted <==> caller in waiting
      ensures !accepted ==> View() == old(View())
    {
      if op in confirmations {
        if confirmations[op].fingerprint != fingerprint {
          return false;
        }
        waiting := waiting[caller := confirmations[op].run];
        return true;
      }
      if request.proposalId !in proposals {
        return false;
      }
      var proposal := proposals[request.proposalId];
      if proposal.useCaseId != request.useCaseId || proposal.resourceReference != request.resourceReference {
        return false;
      }
      if !enabled || proposal.expiresAtMs <= nowMs {
        return false;
      }
      confirmations := confirmations[op := Entry(fingerprint, caller)];
      runs := runs[caller := Confirmation(op, fingerprint, request, nowMs, Pending, false)];
      waiting := waiting[caller := caller];
      return true;
    }

    method OnAuthorization(run: CallerId, allowed: bool)
      requires Enabled(View(), AuthorizationArrives(run, allowed))
      modifies this`runs
      ensures forall proposals :: View() == Step(old(View()), proposals, AuthorizationArrives(run, allowed))
    {
      runs := runs[run := runs[run].(verdict := if allowed then Confirmed else Denied)];
    }

    method OnFailure(run: CallerId)
      requires Enabled(View(), DropFailed(run))
      modifies this`runs, this`confirmations
      ensures forall proposals :: View() == Step(old(View()), proposals, DropFailed(run))
    {
      confirmations := confirmations - {runs[run].op};
      runs := runs[run := runs[run].(dropped := true)];
    }
  }
}
