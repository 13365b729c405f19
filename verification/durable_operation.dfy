/**
  The at-most-once protocol of apps/api/src/workforce-administration/durable-operation.ts.
*/
module DurableOperation {
  import opened Basics

  // A call claims an operation id by inserting its row in an open transaction, does the work in
  // that same transaction, and commits both.  Whoever inserts an id that an open transaction
  // holds waits until that transaction ends.  After a failure the id is marked failed in a
  // transaction of its own, so a retry may claim the id first.

  type OperationId = string
  type Fingerprint = string
  type Value = string
  type CallId = nat

  datatype Status = Failed | Succeeded(result: Value)

  datatype Row = Row(fingerprint: Fingerprint, status: Status)

  /** The work of one call, once committed. */
  datatype Effect = Effect(op: OperationId, call: CallId, fingerprint: Fingerprint, result: Value)

  datatype Outcome = Answer(replayed: bool, value: Value) | Threw | Crashed

  /** How far a call has come.  `Failing` is the catch block with state.claimed set. */
  datatype Phase =
    | Begun
    | Existing
    | Claimed
    | Worked(value: Value)
    | Failing
    | Ended(outcome: Outcome)

  datatype Call = Call(op: OperationId, fingerprint: Fingerprint, phase: Phase)

  /** The committed rows, the ids held by open transactions, the committed work, and the calls so far. */
  datatype State = State(rows: map<OperationId, Row>, holders: map<OperationId, CallId>, effects: seq<Effect>, calls: map<CallId, Call>)

  /** What the caller sees of a commit that reached the server. */
  datatype Acknowledgement = Acknowledged | Lost | CallerDied

  datatype Event =
    | Begin(call: CallId, op: OperationId, fingerprint: Fingerprint)
    | InsertPending(call: CallId)
    | SelectExisting(call: CallId)
    | WorkDone(call: CallId, value: Value)
    | Commit(call: CallId, acknowledgement: Acknowledgement)
    | Rollback(call: CallId)
    | InsertFailed(call: CallId)
    | GiveUp(call: CallId)
    | Crash(call: CallId)

  const NOTHING_YET := State(map[], map[], [], map[])

  predicate InPhase(s: State, call: CallId, phase: Phase) { call in s.calls && s.calls[call].phase == phase }

  predicate Holding(phase: Phase) { phase.Claimed? || phase.Worked? }

  /** Events that can happen; an insert of a held id waits. */
  predicate Enabled(s: State, e: Event) {
    match e
    case Begin(call, _, _) => call !in s.calls
    case InsertPending(call) => InPhase(s, call, Begun) && s.calls[call].op !in s.holders
    case SelectExisting(call) => InPhase(s, call, Existing)
    case WorkDone(call, _) => InPhase(s, call, Claimed)
    case Commit(call, _) => call in s.calls && s.calls[call].phase.Worked?
    case Rollback(call) => call in s.calls && Holding(s.calls[call].phase)
    case InsertFailed(call) => InPhase(s, call, Failing) && s.calls[call].op !in s.holders
    case GiveUp(call) => InPhase(s, call, Failing) || InPhase(s, call, Begun) || InPhase(s, call, Existing)
    case Crash(call) => call in s.calls && !s.calls[call].phase.Ended?
  }

  function MoveTo(s: State, call: CallId, phase: Phase): State
    requires call in s.calls
  {
    s.(calls := s.calls[call := s.calls[call].(phase := phase)])
  }

  function Step(s: State, e: Event): State
    requires Enabled(s, e)
  {
    match e
    case Begin(call, op, fingerprint) => s.(calls := s.calls[call := Call(op, fingerprint, Begun)])
    case InsertPending(call) =>
      var op := s.calls[call].op;
      if op in s.rows then MoveTo(s, call, Existing)
      else MoveTo(s.(holders := s.holders[op := call]), call, Claimed)
    case SelectExisting(call) =>
      MoveTo(s, call, Ended(Replay(s.rows, s.calls[call].op, s.calls[call].fingerprint)))
    case WorkDone(call, value) => MoveTo(s, call, Worked(value))
    case Commit(call, acknowledgement) =>
      var c := s.calls[call];
      var after := match acknowledgement
        case Acknowledged => Ended(Answer(false, c.phase.value))
        case Lost => Failing
        case CallerDied => Ended(Crashed);
      MoveTo(State(s.rows[c.op := Row(c.fingerprint, Succeeded(c.phase.value))], s.holders - {c.op},
                   s.effects + [Effect(c.op, call, c.fingerprint, c.phase.value)], s.calls), call, after)
    case Rollback(call) => MoveTo(s.(holders := s.holders - {s.calls[call].op}), call, Failing)
    case InsertFailed(call) =>
      var c := s.calls[call];
      MoveTo(if c.op in s.rows then s else s.(rows := s.rows[c.op := Row(c.fingerprint, Failed)]), call, Ended(Threw))
    case GiveUp(call) => MoveTo(s, call, Ended(Threw))
    case Crash(call) =>
      MoveTo(if Holding(s.calls[call].phase) then s.(holders := s.holders - {s.calls[call].op}) else s, call, Ended(Crashed))
  }

  /** What a call that found the id taken answers. */
  function Replay(rows: map<OperationId, Row>, op: OperationId, fingerprint: Fingerprint): Outcome {
    if op in rows && rows[op].fingerprint == fingerprint && rows[op].status.Succeeded?
    then Answer(true, rows[op].status.result)
    else Threw
  }

  // ---------------------------------------------------------------- the invariant

  predicate Committed(s: State, op: OperationId, fingerprint: Fingerprint, value: Value) {
    op in s.rows && s.rows[op] == Row(fingerprint, Succeeded(value))
  }

  ghost predicate HoldersSound(s: State) {
    && (forall op :: op in s.holders ==>
          op !in s.rows && s.holders[op] in s.calls && s.calls[s.holders[op]].op == op && Holding(s.calls[s.holders[op]].phase))
    && (forall call :: call in s.calls && Holding(s.calls[call].phase) ==>
          s.calls[call].op in s.holders && s.holders[s.calls[call].op] == call)
  }

  ghost predicate EffectsSound(s: State) {
    && (forall i :: 0 <= i < |s.effects| ==> Committed(s, s.effects[i].op, s.effects[i].fingerprint, s.effects[i].result))
    && (forall i, j :: 0 <= i < j < |s.effects| ==> s.effects[i].op != s.effects[j].op)
    && (forall op :: op in s.rows && s.rows[op].status.Succeeded? ==> EffectOf(s, op))
  }

  ghost predicate EffectOf(s: State, op: OperationId) {
    exists i :: 0 <= i < |s.effects| && s.effects[i].op == op
  }

  predicate AnswerSound(s: State, call: CallId)
    requires call in s.calls
  {
    var c := s.calls[call];
    c.phase.Ended? && c.phase.outcome.Answer? ==>
      && Committed(s, c.op, c.fingerprint, c.phase.outcome.value)
      && (!c.phase.outcome.replayed ==> Effect(c.op, call, c.fingerprint, c.phase.outcome.value) in s.effects)
  }

  ghost predicate Sound(s: State) {
    && HoldersSound(s)
    && EffectsSound(s)
    && forall call :: call in s.calls ==> AnswerSound(s, call)
  }

  /** Rows and committed work are never taken back or changed. */
  ghost predicate Grows(s: State, t: State) {
    && (forall op :: op in s.rows ==> op in t.rows && t.rows[op] == s.rows[op])
    && s.effects <= t.effects
  }

  lemma StepGrows(s: State, e: Event)
    requires Sound(s) && Enabled(s, e)
    ensures Grows(s, Step(s, e))
  {
  }

  predicate Releases(s: State, e: Event)
    requires Enabled(s, e)
  {
    e.Commit? || e.Rollback? || (e.Crash? && Holding(s.calls[e.call].phase))
  }

  lemma ReleaseKeepsHolders(s: State, e: Event)
    requires HoldersSound(s) && Enabled(s, e) && Releases(s, e)
    ensures HoldersSound(Step(s, e))
  {
    var t, op := Step(s, e), s.calls[e.call].op;
    assert t.holders == s.holders - {op};
    forall other | other in t.holders
      ensures other !in t.rows && t.holders[other] in t.calls && t.calls[t.holders[other]].op == other && Holding(t.calls[t.holders[other]].phase)
    {
      assert s.holders[op] == e.call && t.holders[other] != e.call;
    }
  }

  lemma ClaimKeepsHolders(s: State, e: Event)
    requires HoldersSound(s) && Enabled(s, e) && e.InsertPending?
    ensures HoldersSound(Step(s, e))
  {
  }

  lemma OthersKeepHolders(s: State, e: Event)
    requires HoldersSound(s) && Enabled(s, e) && !Releases(s, e) && !e.InsertPending?
    ensures HoldersSound(Step(s, e))
  {
    assert Step(s, e).holders == s.holders;
  }

  lemma StepKeepsHolders(s: State, e: Event)
    requires HoldersSound(s) && Enabled(s, e)
    ensures HoldersSound(Step(s, e))
  {
    hide Step, HoldersSound;
    if Releases(s, e) {
      ReleaseKeepsHolders(s, e);
    } else if e.InsertPending? {
      ClaimKeepsHolders(s, e);
    } else {
      OthersKeepHolders(s, e);
    }
  }

  lemma CommitKeepsEffects(s: State, e: Event)
    requires HoldersSound(s) && EffectsSound(s) && Enabled(s, e) && e.Commit?
    ensures EffectsSound(Step(s, e))
  {
    var t, op := Step(s, e), s.calls[e.call].op;
    assert op !in s.rows;
    assert t.effects[|s.effects|].op == op;
    forall other | other in t.rows && t.rows[other].status.Succeeded? ensures EffectOf(t, other) {
      if other != op {
        assert EffectOf(s, other);
        var i :| 0 <= i < |s.effects| && s.effects[i].op == other;
        assert t.effects[i].op == other;
      }
    }
  }

  lemma StepKeepsEffects(s: State, e: Event)
    requires HoldersSound(s) && EffectsSound(s) && Enabled(s, e)
    ensures EffectsSound(Step(s, e))
  {
    if e.Commit? {
      CommitKeepsEffects(s, e);
    } else {
      var t := Step(s, e);
      assert t.effects == s.effects;
      forall op | op in t.rows && t.rows[op].status.Succeeded? ensures EffectOf(t, op) {
        assert EffectOf(s, op);
      }
    }
  }

  /** The phase of a call changes only by its own events; where it is answered now, the event says with what. */
  lemma Answered(s: State, e: Event, call: CallId)
    requires Enabled(s, e) && call in Step(s, e).calls
    ensures var c := Step(s, e).calls[call];
            c.phase.Ended? && c.phase.outcome.Answer? ==>
              || (call in s.calls && s.calls[call] == c)
              || (e == Commit(call, Acknowledged) && call in s.calls && s.calls[call] == c.(phase := Worked(c.phase.outcome.value))
                  && !c.phase.outcome.replayed)
              || (e == SelectExisting(call) && c.phase.outcome == Replay(s.rows, c.op, c.fingerprint))
  {
  }

  lemma StepKeepsAnswers(s: State, e: Event, call: CallId)
    requires Sound(s) && Enabled(s, e) && call in Step(s, e).calls
    ensures AnswerSound(Step(s, e), call)
  {
    StepGrows(s, e);
    Answered(s, e, call);
    hide EffectsSound, HoldersSound;
    var t := Step(s, e);
    if e == Commit(call, Acknowledged) {
      assert t.effects[|s.effects|] in t.effects;
    } else {
      hide Step;
      if call in s.calls {
        assert AnswerSound(s, call);
      }
    }
  }

  lemma StepKeepsSound(s: State, e: Event)
    requires Sound(s) && Enabled(s, e)
    ensures Sound(Step(s, e)) && Grows(s, Step(s, e))
  {
    StepGrows(s, e);
    StepKeepsHolders(s, e);
    StepKeepsEffects(s, e);
    forall call | call in Step(s, e).calls ensures AnswerSound(Step(s, e), call) {
      StepKeepsAnswers(s, e, call);
    }
    hide Step, HoldersSound, EffectsSound, AnswerSound;
  }

  // ---------------------------------------------------------------- runs

  /** The states of a run: each follows from the one before by an event that could happen. */
  ghost predicate Run(states: seq<State>, events: seq<Event>) {
    && |states| == |events| + 1
    && states[0] == NOTHING_YET
    && forall i :: 0 <= i < |events| ==> Enabled(states[i], events[i]) && states[i + 1] == Step(states[i], events[i])
  }

  lemma {:induction false} RunSound(states: seq<State>, events: seq<Event>, i: nat)
    requires Run(states, events) && i <= |events|
    ensures Sound(states[i])
  {
    if i > 0 {
      RunSound(states, events, i - 1);
      StepKeepsSound(states[i - 1], events[i - 1]);
    }
  }

  lemma {:induction false} RunGrows(
      states: seq<State>, events: seq<Event>, i: nat, j: nat)
    requires Run(states, events) && i <= j <= |events|
    ensures Grows(states[i], states[j])
    decreases j - i
  {
    hide Step, Enabled, Sound;
    if i < j {
      RunGrows(states, events, i, j - 1);
      RunSound(states, events, j - 1);
      StepKeepsSound(states[j - 1], events[j - 1]);
    }
  }

  /** The work of an operation id commits at most once. */
  lemma WorkCommitsAtMostOnce(
      states: seq<State>, events: seq<Event>, i: nat, m: nat, n: nat)
    requires Run(states, events) && i <= |events|
    requires m < |states[i].effects| && n < |states[i].effects| && states[i].effects[m].op == states[i].effects[n].op
    ensures m == n
  {
    RunSound(states, events, i);
  }

  /**
    Whoever is answered is answered with work that committed under the same fingerprint; the
    answer says `replayed` exactly when that was another call's work.
  */
  lemma AnswersAreCommitted(states: seq<State>, events: seq<Event>, i: nat, call: CallId)
    requires Run(states, events) && i <= |events| && call in states[i].calls
    requires var phase := states[i].calls[call].phase; phase.Ended? && phase.outcome.Answer?
    ensures var c := states[i].calls[call];
            exists m :: 0 <= m < |states[i].effects|
              && var done := states[i].effects[m];
                 done.op == c.op && done.fingerprint == c.fingerprint && done.result == c.phase.outcome.value
                 && (!c.phase.outcome.replayed ==> done.call == call)
  {
    RunSound(states, events, i);
    var s, c := states[i], states[i].calls[call];
    assert AnswerSound(s, call);
    if c.phase.outcome.replayed {
      assert EffectOf(s, c.op);
      var m :| 0 <= m < |s.effects| && s.effects[m].op == c.op;
    } else {
      var m :| 0 <= m < |s.effects| && s.effects[m] == Effect(c.op, call, c.fingerprint, c.phase.outcome.value);
    }
  }

  /** Two calls that were answered for one id had the same fingerprint and got the same value, and only one did the work. */
  lemma AnswersAgree(states: seq<State>, events: seq<Event>, i: nat, a: CallId, b: CallId)
    requires Run(states, events) && i <= |events| && a in states[i].calls && b in states[i].calls
    requires states[i].calls[a].op == states[i].calls[b].op
    requires var phase := states[i].calls[a].phase; phase.Ended? && phase.outcome.Answer?
    requires var phase := states[i].calls[b].phase; phase.Ended? && phase.outcome.Answer?
    ensures states[i].calls[a].fingerprint == states[i].calls[b].fingerprint
    ensures states[i].calls[a].phase.outcome.value == states[i].calls[b].phase.outcome.value
    ensures !states[i].calls[a].phase.outcome.replayed && !states[i].calls[b].phase.outcome.replayed ==> a == b
  {
    RunSound(states, events, i);
    var s := states[i];
    assert AnswerSound(s, a) && AnswerSound(s, b);
    if !s.calls[a].phase.outcome.replayed && !s.calls[b].phase.outcome.replayed {
      var m :| 0 <= m < |s.effects| && s.effects[m] == Effect(s.calls[a].op, a, s.calls[a].fingerprint, s.calls[a].phase.outcome.value);
      var n :| 0 <= n < |s.effects| && s.effects[n] == Effect(s.calls[b].op, b, s.calls[b].fingerprint, s.calls[b].phase.outcome.value);
    }
  }

  /** An id recorded as failed stays failed: its work never commits and nobody is ever answered for it. */
  lemma FailedNeverSucceeds(
      states: seq<State>, events: seq<Event>, i: nat, j: nat, op: OperationId)
    requires Run(states, events) && i <= j <= |events| && op in states[i].rows && states[i].rows[op].status.Failed?
    ensures op in states[j].rows && states[j].rows[op] == states[i].rows[op]
    ensures forall m :: 0 <= m < |states[j].effects| ==> states[j].effects[m].op != op
    ensures forall call :: call in states[j].calls && states[j].calls[call].op == op && states[j].calls[call].phase.Ended? ==>
              !states[j].calls[call].phase.outcome.Answer?
  {
    RunSound(states, events, j);
    RunGrows(states, events, i, j);
    forall call | call in states[j].calls && states[j].calls[call].op == op && states[j].calls[call].phase.Ended?
      ensures !states[j].calls[call].phase.outcome.Answer?
    {
      assert AnswerSound(states[j], call);
    }
  }

  /** The work of this id committed under this fingerprint, with this result. */
  ghost predicate HasCommitted(s: State, op: OperationId, fingerprint: Fingerprint, result: Value) {
    exists m :: 0 <= m < |s.effects| && s.effects[m].op == op && s.effects[m].fingerprint == fingerprint && s.effects[m].result == result
  }

  /** A call that finds its id taken is answered with the committed work of its own fingerprint, and throws if there is none. */
  lemma RetryIsAnswered(states: seq<State>, events: seq<Event>, i: nat, result: Value)
    requires Run(states, events) && i < |events| && events[i].SelectExisting?
    ensures var call := events[i].call;
            && call in states[i].calls && call in states[i + 1].calls
            && var c := states[i].calls[call];
               && (HasCommitted(states[i], c.op, c.fingerprint, result) <==> states[i + 1].calls[call].phase == Ended(Answer(true, result)))
               && ((forall r :: !HasCommitted(states[i], c.op, c.fingerprint, r)) ==> states[i + 1].calls[call].phase == Ended(Threw))
               && states[i + 1].rows == states[i].rows && states[i + 1].effects == states[i].effects
  {
    var s, call := states[i], events[i].call;
    RunSound(states, events, i);
    assert Enabled(s, events[i]) && states[i + 1] == Step(s, events[i]);
    var c := s.calls[call];
    if c.op in s.rows && s.rows[c.op].status.Succeeded? {
      assert EffectOf(s, c.op);
      var m :| 0 <= m < |s.effects| && s.effects[m].op == c.op;
      assert Committed(s, c.op, s.effects[m].fingerprint, s.effects[m].result);
      assert HasCommitted(s, c.op, s.rows[c.op].fingerprint, s.rows[c.op].status.result);
    }
    forall fingerprint, r | HasCommitted(s, c.op, fingerprint, r) ensures Committed(s, c.op, fingerprint, r) {
    }
    hide Sound, Run;
  }

  /** A call claims its id if and only if no call has claimed it for good, and then keeps others out until it ends. */
  lemma FreeIdIsClaimed(states: seq<State>, events: seq<Event>, i: nat)
    requires Run(states, events) && i < |events| && events[i].InsertPending?
    ensures var call := events[i].call;
            && call in states[i].calls && call in states[i + 1].calls
            && var op := states[i].calls[call].op;
               && op !in states[i].holders
               && states[i + 1].calls[call].phase == (if op in states[i].rows then Existing else Claimed)
               && (op in states[i + 1].holders <==> op !in states[i].rows)
               && (op in states[i + 1].holders ==> states[i + 1].holders[op] == call)
  {
    assert Enabled(states[i], events[i]);
  }

  /** Work that is committed and acknowledged is answered as the caller's own. */
  lemma CommittedIsAnswered(states: seq<State>, events: seq<Event>, i: nat)
    requires Run(states, events) && i < |events| && events[i].Commit?
    ensures var call := events[i].call;
            && call in states[i].calls && states[i].calls[call].phase.Worked? && call in states[i + 1].calls
            && var c := states[i].calls[call];
               && states[i + 1].effects == states[i].effects + [Effect(c.op, call, c.fingerprint, c.phase.value)]
               && (events[i].acknowledgement.Acknowledged? <==> states[i + 1].calls[call].phase == Ended(Answer(false, c.phase.value)))
               && (events[i].acknowledgement.Lost? ==> states[i + 1].calls[call].phase == Failing)
  {
    assert Enabled(states[i], events[i]);
  }

  /** A failure is only ever recorded for an id whose work has not committed, whatever retries ran since the rollback. */
  lemma FailureYieldsToRetry(
      states: seq<State>, events: seq<Event>, i: nat, op: OperationId)
    requires Run(states, events) && i < |events| && events[i].InsertFailed? && states[i].calls[events[i].call].op == op
    ensures op in states[i + 1].rows && states[i + 1].effects == states[i].effects
    ensures EffectOf(states[i], op) <==> states[i + 1].rows[op].status.Succeeded?
    ensures op in states[i].rows ==> states[i + 1].rows == states[i].rows
  {
    RunSound(states, events, i);
    RunSound(states, events, i + 1);
  }

  // ---------------------------------------------------------------- the port itself

  /** The operation table and the calls on it, changed in place. */
  class DurableAdministrationOperationPort {
    var rows: map<OperationId, Row>
    var holders: map<OperationId, CallId>
    var effects: seq<Effect>
    var calls: map<CallId, Call>

    ghost function View(): State
      reads this
    {
      State(rows, holders, effects, calls)
    }

    constructor ()
      ensures View() == NOTHING_YET
    {
      rows, holders, effects, calls := map[], map[], [], map[];
    }

    method Enter(call: CallId, phase: Phase)
      requires call in calls
      modifies this`calls
      ensures View() == MoveTo(old(View()), call, phase)
    {
      calls := calls[call := calls[call].(phase := phase)];
    }

    method Begin(call: CallId, op: OperationId, fingerprint: Fingerprint)
      requires call !in calls
      modifies this`calls
      ensures View() == Step(old(View()), Event.Begin(call, op, fingerprint))
    {
      calls := calls[call := Call(op, fingerprint, Begun)];
    }

    method InsertPending(call: CallId) returns (inserted: bool)
      requires Enabled(View(), Event.InsertPending(call))
      modifies this
      ensures View() == Step(old(View()), Event.InsertPending(call))
      ensures inserted <==> InPhase(View(), call, Claimed)
    {
      var op := calls[call].op;
      if op in rows {
        Enter(call, Existing);
        return false;
      }
      holders := holders[op := call];
      Enter(call, Claimed);
      return true;
    }

    method SelectExisting(call: CallId) returns (outcome: Outcome)
      requires Enabled(View(), Event.SelectExisting(call))
      modifies this`calls
      ensures View() == Step(old(View()), Event.SelectExisting(call))
      ensures InPhase(View(), call, Ended(outcome))
    {
      var op := calls[call].op;
      if op !in rows || rows[op].fingerprint != calls[call].fingerprint || !rows[op].status.Succeeded? {
        outcome := Threw;
      } else {
        outcome := Answer(true, rows[op].status.result);
      }
      Enter(call, Ended(outcome));
    }

    method Commit(call: CallId, acknowledgement: Acknowledgement)
      requires Enabled(View(), Event.Commit(call, acknowledgement))
      modifies this
      ensures View() == Step(old(View()), Event.Commit(call, acknowledgement))
    {
      var c := calls[call];
      rows := rows[c.op := Row(c.fingerprint, Succeeded(c.phase.value))];
      effects := effects + [Effect(c.op, call, c.fingerprint, c.phase.value)];
      holders := holders - {c.op};
      match acknowledgement
      case Acknowledged => Enter(call, Ended(Answer(false, c.phase.value)));
      case Lost => Enter(call, Failing);
      case CallerDied => Enter(call, Ended(Crashed));
    }

    method Rollback(call: CallId)
      requires Enabled(View(), Event.Rollback(call))
      modifies this
      ensures View() == Step(old(View()), Event.Rollback(call))
    {
      holders := holders - {calls[call].op};
      Enter(call, Failing);
    }

    method InsertFailed(call: CallId)
      requires Enabled(View(), Event.InsertFailed(call))
      modifies this
      ensures View() == Step(old(View()), Event.InsertFailed(call))
    {
      var c := calls[call];
      if c.op !in rows {
        rows := rows[c.op := Row(c.fingerprint, Failed)];
      }
      Enter(call, Ended(Threw));
    }

    /**
      A whole call with nobody in between.  `work` is what the work returns, if it does not throw.
      The first call of an id decides it: its value if the work succeeded, else failure for good.
    */
    method Execute(call: CallId, op: OperationId, fingerprint: Fingerprint, work: Option<Value>, acknowledgement: Acknowledgement)
      returns (outcome: Outcome)
      requires call !in calls && op !in holders
      modifies this
      ensures op in rows && holders == old(holders)
      ensures op in old(rows) ==>
                rows == old(rows) && effects == old(effects)
                && match old(rows)[op]
                   case Row(recorded, Succeeded(value)) => outcome == if recorded == fingerprint then Answer(true, value) else Threw
                   case Row(_, Failed) => outcome == Threw
      ensures op !in old(rows) ==>
                rows == old(rows)[op := Row(fingerprint, if work.None? then Failed else Succeeded(work.value))]
                && effects == old(effects) + (if work.None? then [] else [Effect(op, call, fingerprint, work.value)])
                && outcome == if work.None? || acknowledgement.Lost? then Threw else if acknowledgement.CallerDied? then Crashed else Answer(false, work.value)
    {
      Begin(call, op, fingerprint);
      var claimed := InsertPending(call);
      if !claimed {
        outcome := SelectExisting(call);
        return;
      }
      if work.None? {
        Rollback(call);
      } else {
        Enter(call, Worked(work.value));
        Commit(call, acknowledgement);
        if acknowledgement.Acknowledged? {
          return Answer(false, work.value);
        } else if acknowledgement.CallerDied? {
          return Crashed;
        }
      }
      InsertFailed(call);
      return Threw;
    }
  }
}
