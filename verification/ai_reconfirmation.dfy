/**
  How often one proposal of packages/crm-modules/ai-gateway/src/service.ts is confirmed: the
  confirmations map is keyed by operation id alone, so once per id, not once per proposal.
*/
module AiReconfirmation {
  import Invocations = AiInvocations
  import opened AiConfirmations

  /** A run that has confirmed its proposal, or still may. */
  predicate LiveRun(d: Desk, r: CallerId, p: ProposalId) {
    r in d.runs && !d.runs[r].verdict.Denied? && d.runs[r].request.proposalId == p
  }

  /** At most one run of the proposal has succeeded or can still succeed. */
  ghost predicate ConfirmedOnce(d: Desk, p: ProposalId) {
    forall q, r :: LiveRun(d, q, p) && LiveRun(d, r, p) ==> q == r
  }

  /** Action j is the confirmation request that started run r. */
  predicate Started(states: seq<Gateway>, actions: seq<Action>, j: nat, r: CallerId)
    requires |states| == |actions| + 1 && j < |actions|
  {
    && actions[j].Confirming? && actions[j].confirmation.Confirm? && actions[j].confirmation.caller == r
    && r !in states[j].desk.runs && r in states[j + 1].desk.runs
  }

  lemma RunsKeepTheirRequest(g: Gateway, a: Action, r: CallerId)
    requires Possible(g, a) && r in Act(g, a).desk.runs
    ensures var run := Act(g, a).desk.runs[r];
            if r in g.desk.runs then run.op == g.desk.runs[r].op && run.request == g.desk.runs[r].request
            else a.Confirming? && a.confirmation.Confirm? && a.confirmation.caller == r
                 && a.confirmation.op == run.op && a.confirmation.request == run.request
  {
  }

  /** Every run was started by a request, and keeps its operation id and proposal. */
  lemma {:induction false} StartedBefore(
      states: seq<Gateway>, actions: seq<Action>, i: nat, r: CallerId) returns (j: nat)
    requires Run(states, actions) && i <= |actions| && r in states[i].desk.runs
    ensures j < i && Started(states, actions, j, r)
    ensures actions[j].confirmation.op == states[i].desk.runs[r].op && actions[j].confirmation.request == states[i].desk.runs[r].request
  {
    hide Act, Possible;
    assert i > 0;
    RunsKeepTheirRequest(states[i - 1], actions[i - 1], r);
    if r in states[i - 1].desk.runs {
      j := StartedBefore(states, actions, i - 1, r);
    } else {
      j := i - 1;
    }
  }

  /** The requests for this proposal that started a run not denied so far all carry one operation id. */
  ghost predicate OneId(states: seq<Gateway>, actions: seq<Action>, i: nat, p: ProposalId)
    requires |states| == |actions| + 1 && i <= |actions|
  {
    forall j: nat, k: nat, q, r :: Counts(states, actions, i, p, j, q) && Counts(states, actions, i, p, k, r) ==>
      actions[j].confirmation.op == actions[k].confirmation.op
  }

  /** Request j started run r, which has not been denied by state i. */
  predicate Counts(states: seq<Gateway>, actions: seq<Action>, i: nat, p: ProposalId, j: nat, r: CallerId)
    requires |states| == |actions| + 1 && i <= |actions|
  {
    j < i && Started(states, actions, j, r) && LiveRun(states[i].desk, r, p)
  }

  lemma {:induction false} StartFixesId(
      states: seq<Gateway>, actions: seq<Action>, j: nat, i: nat, r: CallerId)
    requires Run(states, actions) && j < i <= |actions| && Started(states, actions, j, r) && r in states[i].desk.runs
    ensures states[i].desk.runs[r].op == actions[j].confirmation.op
    decreases i
  {
    RunsKeepTheirRequest(states[i - 1], actions[i - 1], r);
    if j < i - 1 {
      RunsStay(states, actions, j + 1, i - 1, r);
      StartFixesId(states, actions, j, i - 1, r);
    }
    hide Act, Possible;
  }

  lemma {:induction false} RunsStay(
      states: seq<Gateway>, actions: seq<Action>, j: nat, i: nat, r: CallerId)
    requires Run(states, actions) && j <= i <= |actions| && r in states[j].desk.runs
    ensures r in states[i].desk.runs
    decreases i
  {
    if j < i { RunsStay(states, actions, j, i - 1, r); }
  }

  /** In every run a proposal is confirmed at most once exactly if its requests that can count carry one operation id. */
  lemma ConfirmedOnceExactly(
      states: seq<Gateway>, actions: seq<Action>, i: nat, p: ProposalId)
    requires Run(states, actions) && i <= |actions|
    ensures ConfirmedOnce(states[i].desk, p) <==> OneId(states, actions, i, p)
  {
    hide Act, Possible;
    if OneId(states, actions, i, p) {
      forall q, r | LiveRun(states[i].desk, q, p) && LiveRun(states[i].desk, r, p) ensures q == r {
        var j := StartedBefore(states, actions, i, q);
        var k := StartedBefore(states, actions, i, r);
        assert Counts(states, actions, i, p, j, q) && Counts(states, actions, i, p, k, r);
        ConfirmsAtMostOnce(states, actions, i, q, r);
      }
    }
    if ConfirmedOnce(states[i].desk, p) {
      forall j: nat, k: nat, q, r | Counts(states, actions, i, p, j, q) && Counts(states, actions, i, p, k, r)
        ensures actions[j].confirmation.op == actions[k].confirmation.op
      {
        StartFixesId(states, actions, j, i, q);
        StartFixesId(states, actions, k, i, r);
      }
    }
  }

  /** With one run of a proposal alive, a request starts another exactly if its id is unused and the proposal still confirmable. */
  lemma SecondRunExactly(states: seq<Gateway>, actions: seq<Action>, i: nat, q: CallerId)
    requires Run(states, actions) && i < |actions| && actions[i].Confirming? && actions[i].confirmation.Confirm?
    requires LiveRun(states[i].desk, q, actions[i].confirmation.request.proposalId)
    requires ConfirmedOnce(states[i].desk, actions[i].confirmation.request.proposalId)
    ensures var e := actions[i].confirmation;
            !ConfirmedOnce(states[i + 1].desk, e.request.proposalId) <==>
              e.op !in states[i].desk.confirmations && Confirmable(states[i].ledger.proposals, e.request, e.enabled, e.nowMs)
  {
    var d, t, e := states[i].desk, states[i + 1].desk, actions[i].confirmation;
    var p := e.request.proposalId;
    assert q != e.caller && LiveRun(t, q, p);
    if e.op !in d.confirmations && Confirmable(states[i].ledger.proposals, e.request, e.enabled, e.nowMs) {
      assert LiveRun(t, e.caller, p);
    } else {
      assert t.runs == d.runs;
      assert forall r :: LiveRun(t, r, p) <==> LiveRun(d, r, p);
    }
  }

  // ---------------------------------------------------------------- confirming twice

  lemma RunExtends(
      states: seq<Gateway>, actions: seq<Action>, a: Action) returns (ts: seq<Gateway>, bs: seq<Action>)
    requires Run(states, actions) && Possible(states[|actions|], a)
    ensures Run(ts, bs) && |ts| == |bs| + 1 && ts == states + [Act(states[|actions|], a)] && bs == actions + [a]
  {
    hide Act, Possible;
    ts, bs := states + [Act(states[|actions|], a)], actions + [a];
    forall i | 0 <= i < |bs| ensures Possible(ts[i], bs[i]) && ts[i + 1] == Act(ts[i], bs[i]) {
      assert i < |actions| ==> Possible(states[i], actions[i]);
    }
  }

  /** Two requests for one proposal under two unused ids, both allowed, confirm it twice. */
  lemma TwoIdsConfirmTwice(g: Gateway, a: Event, b: Event)
    requires a.Confirm? && b.Confirm? && a.op != b.op && a.caller != b.caller && a.request == b.request
    requires Enabled(g.desk, a) && Enabled(g.desk, b) && a.op !in g.desk.confirmations && b.op !in g.desk.confirmations
    requires Confirmable(g.ledger.proposals, a.request, a.enabled, a.nowMs) && Confirmable(g.ledger.proposals, b.request, b.enabled, b.nowMs)
    ensures var g1 := Act(g, Confirming(a));
            Possible(g1, Confirming(b)) &&
            var g2 := Act(g1, Confirming(b));
            Possible(g2, Confirming(AuthorizationArrives(a.caller, true))) &&
            var g3 := Act(g2, Confirming(AuthorizationArrives(a.caller, true)));
            Possible(g3, Confirming(AuthorizationArrives(b.caller, true))) &&
            var g4 := Act(g3, Confirming(AuthorizationArrives(b.caller, true)));
            && a.caller in g4.desk.runs && g4.desk.runs[a.caller].verdict == Confirmed && g4.desk.runs[a.caller].request == a.request
            && b.caller in g4.desk.runs && g4.desk.runs[b.caller].verdict == Confirmed && g4.desk.runs[b.caller].request == b.request
  {
  }

  /** Every run that has a confirmable proposal can go on to confirm it twice, under any two unused ids. */
  lemma ConfirmableTwice(
      states: seq<Gateway>, actions: seq<Action>, a: Event, b: Event) returns (ts: seq<Gateway>, bs: seq<Action>)
    requires Run(states, actions)
    requires a.Confirm? && b.Confirm? && a.op != b.op && a.caller != b.caller && a.request == b.request
    requires var g := states[|actions|];
             && Enabled(g.desk, a) && Enabled(g.desk, b) && a.op !in g.desk.confirmations && b.op !in g.desk.confirmations
             && Confirmable(g.ledger.proposals, a.request, a.enabled, a.nowMs)
             && Confirmable(g.ledger.proposals, b.request, b.enabled, b.nowMs)
    ensures Run(ts, bs) && |bs| == |actions| + 4 && bs[..|actions|] == actions
    ensures !ConfirmedOnce(ts[|bs|].desk, a.request.proposalId)
  {
    TwoIdsConfirmTwice(states[|actions|], a, b);
    assert Possible(states[|actions|], Confirming(a));
    hide Act, Possible, Run, Enabled, Confirmable;
    ts, bs := RunExtends(states, actions, Confirming(a));
    ts, bs := RunExtends(ts, bs, Confirming(b));
    ts, bs := RunExtends(ts, bs, Confirming(AuthorizationArrives(a.caller, true)));
    ts, bs := RunExtends(ts, bs, Confirming(AuthorizationArrives(b.caller, true)));
    var d := ts[|bs|].desk;
    assert LiveRun(d, a.caller, a.request.proposalId) && LiveRun(d, b.caller, a.request.proposalId);
  }

  function ExampleProposal(): Invocations.Proposal { Invocations.Proposal("p", "u", "r", 100, "d") }

  function ExampleRequest(op: OperationId, caller: CallerId): Event {
    Confirm(caller, op, "f", Request("p", "u", "r"), true, 50)
  }

  function ExampleLedger(stage: Invocations.Stage, attempts: nat): Invocations.Ledger {
    Invocations.Ledger(map["o" := Invocations.Operation("f", "u", "r", attempts, stage)], map[],
                       map[0 := Invocations.Caller("o", "f", true, Invocations.Awaiting)], if attempts == 0 then [] else ["o"])
  }

  function ExampleAnswer(answer: Invocations.Answer): Action { Invoking(Invocations.PortAnswers("o", answer)) }

  lemma ExampleInvoked()
    ensures var a := Invoking(Invocations.Invoke(0, "o", "f", "u", "r", true));
            Possible(NEW_GATEWAY, a) && Act(NEW_GATEWAY, a) == Gateway(ExampleLedger(Invocations.Authorizing, 0), NEW_GATEWAY.desk)
  {
  }

  /** Authorized, with a reserved budget, answered, and recorded. */
  lemma ExampleAnswered()
    ensures var desk := NEW_GATEWAY.desk;
            var g := Gateway(ExampleLedger(Invocations.Authorizing, 0), desk);
            var g1 := Gateway(ExampleLedger(Invocations.Reserving, 0), desk);
            var g2 := Gateway(ExampleLedger(Invocations.Invoking, 1), desk);
            var g3 := Gateway(ExampleLedger(Invocations.Recording(ExampleProposal()), 1), desk);
            && Possible(g, ExampleAnswer(Invocations.Yes)) && Act(g, ExampleAnswer(Invocations.Yes)) == g1
            && Possible(g1, ExampleAnswer(Invocations.Yes)) && Act(g1, ExampleAnswer(Invocations.Yes)) == g2
            && Possible(g2, ExampleAnswer(Invocations.Output(ExampleProposal()))) && Act(g2, ExampleAnswer(Invocations.Output(ExampleProposal()))) == g3
            && Possible(g3, ExampleAnswer(Invocations.Yes))
            && Act(g3, ExampleAnswer(Invocations.Yes)).ledger.proposals == map["p" := ExampleProposal()]
            && Act(g3, ExampleAnswer(Invocations.Yes)).desk == desk
  {
  }

  lemma ExampleStored() returns (states: seq<Gateway>, actions: seq<Action>)
    ensures Run(states, actions) && states[|actions|].desk == NEW_GATEWAY.desk
    ensures states[|actions|].ledger.proposals == map["p" := ExampleProposal()]
  {
    states, actions := [NEW_GATEWAY], [];
    assert Run(states, actions);
    ExampleInvoked();
    ExampleAnswered();
    var yes := ExampleAnswer(Invocations.Yes);
    hide Act, Possible, ExampleLedger, ExampleProposal, ExampleAnswer, Run;
    states, actions := RunExtends(states, actions, Invoking(Invocations.Invoke(0, "o", "f", "u", "r", true)));
    states, actions := RunExtends(states, actions, yes);
    states, actions := RunExtends(states, actions, yes);
    states, actions := RunExtends(states, actions, ExampleAnswer(Invocations.Output(ExampleProposal())));
    states, actions := RunExtends(states, actions, yes);
  }

  /** A run in which one proposal is confirmed under two operation ids. */
  lemma ConfirmedTwice() returns (states: seq<Gateway>, actions: seq<Action>)
    ensures Run(states, actions) && !ConfirmedOnce(states[|actions|].desk, "p")
  {
    states, actions := ExampleStored();
    states, actions := ConfirmableTwice(states, actions, ExampleRequest("x", 1), ExampleRequest("y", 2));
  }
}
