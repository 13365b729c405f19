/**
  What decides a transaction of packages/database/src/runtime.ts: which statement each turn sends, when it is destroyed,
  and how it ends.
*/
module PostgresOutcomes {
  import opened PostgresTransaction

  // ---------------------------------------------------------------- what one turn sends

  /** Work that came back without an abort, a destruction or a failed statement. */
  predicate CleanEnd(t: Transaction, e: Event) { e == WorkEnds(true) && !t.aborted && !t.destroyed && t.failed == {} }

  /** Something before the commit, or the commit itself, went wrong on a connection that still works. */
  predicate MustRollBack(t: Transaction, e: Event) {
    && !t.destroyed
    && match e
       case BeginSettles(ok) => !ok || t.aborted
       case WorkEnds(ok) => !ok || t.aborted || t.failed != {}
       case CommitSettles(ok) => !ok
       case _ => false
  }

  /** The one statement a turn sends, if any. */
  function Sent(t: Transaction, e: Event): seq<Statement> {
    if e == Acquired(true) && !t.aborted then [Begin]
    else if e.Issue? && !t.destroyed && !e.signalAborted then [Work(e.id)]
    else if CleanEnd(t, e) then [Commit]
    else if MustRollBack(t, e) then [Rollback]
    else []
  }

  lemma StepSends(t: Transaction, e: Event)
    requires Sound(t) && Enabled(t, e)
    ensures Step(t, e).issued == t.issued + Sent(t, e)
  {
    if InPlace(e) && !e.Issue? && !e.Settles? {
      AbortsKeepLog(t, e);
      hide Step, Enabled;
    } else {
      DestroyKeepsLog(t);
      CatchSends(t);
      hide Destroy, Catch, ReleaseSound, StatementsSound;
    }
  }

  /** In every run each turn sends exactly this. */
  lemma SentExactly(states: seq<Transaction>, events: seq<Event>, i: nat)
    requires Run(states, events) && i < |events|
    ensures states[i + 1].issued == states[i].issued + Sent(states[i], events[i])
  {
    RunSound(states, events, i);
    hide Step, Enabled, Sound, Sent;
    StepSends(states[i], events[i]);
  }

  /** A commit goes out when work ended cleanly, and only then. */
  lemma CommitSentExactly(states: seq<Transaction>, events: seq<Event>, i: nat)
    requires Run(states, events) && i < |events|
    ensures states[i + 1].issued == states[i].issued + [Commit] <==> CleanEnd(states[i], events[i])
  {
    SentExactly(states, events, i);
    hide Run;
    assert Sent(states[i], events[i]) == [Commit] <==> CleanEnd(states[i], events[i]);
    assert states[i].issued + Sent(states[i], events[i]) == states[i].issued + [Commit] <==> Sent(states[i], events[i]) == [Commit] by {
      AppendsOne(states[i].issued, Sent(states[i], events[i]), Commit);
    }
  }

  lemma AppendsOne(before: seq<Statement>, sent: seq<Statement>, statement: Statement)
    ensures before + sent == before + [statement] <==> sent == [statement]
  {
    if before + sent == before + [statement] {
      assert |sent| == 1 && (before + sent)[|before|] == sent[0];
    }
  }

  // ---------------------------------------------------------------- when it is destroyed

  /** An abort after the connection was acquired, an aborted statement, or a rollback that failed. */
  predicate Destroys(t: Transaction, e: Event) {
    match e
    case Abort => t.point != Acquiring && t.point != Finishing && t.point != Over
    case Issue(_, signalAborted) => signalAborted
    case SignalAborts(_) => true
    case NestedAborts => true
    case RollbackSettles(ok) => !ok
    case _ => false
  }

  lemma StepDestroys(t: Transaction, e: Event)
    requires Enabled(t, e)
    ensures Step(t, e).destroyed <==> t.destroyed || Destroys(t, e)
  {
    hide MoveCancellation;
    if e.CancellationMoves? { MovesKeepDestroyed(t, e.ok); }
  }

  lemma MovesKeepDestroyed(t: Transaction, ok: bool)
    ensures MoveCancellation(t, ok).destroyed == t.destroyed
  {
    hide Destroy;
  }

  lemma DestroyedExactly(states: seq<Transaction>, events: seq<Event>, i: nat)
    requires Run(states, events) && i < |events|
    ensures states[i + 1].destroyed <==> states[i].destroyed || Destroys(states[i], events[i])
  {
    hide Step, Enabled, Destroys, Initial;
    StepDestroys(states[i], events[i]);
  }

  // ---------------------------------------------------------------- which statements have failed

  lemma StepFails(t: Transaction, e: Event)
    requires Enabled(t, e)
    ensures Step(t, e).failed == t.failed + if e.Settles? && !(e.ok && !t.running[e.id]) then {e.id} else {}
  {
    if InPlace(e) && !e.Issue? && !e.Settles? {
      AbortsKeepLog(t, e);
      hide Step;
    } else {
      DestroyKeepsLog(t);
      hide Destroy;
    }
  }

  /** A statement has failed if it settled badly, or settled while its own signal was aborted. */
  lemma FailedExactly(states: seq<Transaction>, events: seq<Event>, i: nat)
    requires Run(states, events) && i < |events|
    ensures events[i].Settles? ==> events[i].id in states[i].running
    ensures states[i + 1].failed ==
              states[i].failed + if events[i].Settles? && !(events[i].ok && !states[i].running[events[i].id]) then {events[i].id} else {}
  {
    assert Enabled(states[i], events[i]);
    hide Step, Initial;
    StepFails(states[i], events[i]);
  }

  // ---------------------------------------------------------------- how it ends

  /** The turn in which the call decides to throw. */
  predicate Throws(t: Transaction, e: Event) {
    match e
    case Acquired(ok) => !ok || t.aborted
    case BeginSettles(ok) => !ok || t.aborted
    case WorkEnds(ok) => !ok || t.aborted || (!t.destroyed && t.failed != {})
    case CancellationAwaited => true
    case CommitSettles(ok) => !ok
    case _ => false
  }

  lemma StepDecides(t: Transaction, e: Event)
    requires Sound(t) && Enabled(t, e)
    ensures Step(t, e).result == if e == CommitSettles(true) then Returned else if Throws(t, e) then Thrown else t.result
  {
    if InPlace(e) && !e.Issue? && !e.Settles? {
      AbortsKeepLog(t, e);
      hide Step, Enabled;
    } else {
      DestroyKeepsLog(t);
      hide Destroy, ReleaseSound, StatementsSound;
    }
  }

  lemma DecidedExactly(states: seq<Transaction>, events: seq<Event>, i: nat)
    requires Run(states, events) && i < |events|
    ensures states[i + 1].result ==
              if events[i] == CommitSettles(true) then Returned else if Throws(states[i], events[i]) then Thrown else states[i].result
  {
    RunSound(states, events, i);
    hide Step, Enabled, Sound, Initial, Throws;
    StepDecides(states[i], events[i]);
  }

  ghost predicate CommitAcknowledged(events: seq<Event>, i: nat)
    requires i <= |events|
  {
    exists j :: 0 <= j < i && events[j] == CommitSettles(true)
  }

  /** Once the commit is acknowledged only the end is left. */
  lemma NothingAfterReturn(states: seq<Transaction>, events: seq<Event>, i: nat)
    requires Run(states, events) && i < |events| && states[i].result == Returned
    ensures !Throws(states[i], events[i])
  {
    RunSound(states, events, i);
    assert Enabled(states[i], events[i]);
    hide Step, Run;
  }

  /** A call returns its result if and only if its commit was acknowledged. */
  lemma {:induction false} ReturnedExactly(states: seq<Transaction>, events: seq<Event>, i: nat)
    requires Run(states, events) && i <= |events|
    ensures states[i].result == Returned <==> CommitAcknowledged(events, i)
  {
    hide Step, Enabled, Throws;
    if i > 0 {
      ReturnedExactly(states, events, i - 1);
      DecidedExactly(states, events, i - 1);
      if states[i - 1].result == Returned { NothingAfterReturn(states, events, i - 1); }
      hide Run;
      assert CommitAcknowledged(events, i) <==> CommitAcknowledged(events, i - 1) || events[i - 1] == CommitSettles(true);
    }
  }

  /** Clean work is committed, and returned as soon as the commit is acknowledged. */
  lemma CleanWorkCommits(states: seq<Transaction>, events: seq<Event>, i: nat, j: nat)
    requires Run(states, events) && i < j < |events| && CleanEnd(states[i], events[i])
    ensures Commit in states[i + 1].issued && Enabled(states[i + 1], CommitSettles(true))
    ensures events[j] == CommitSettles(true) ==> states[j + 1].result == Returned
  {
    SentExactly(states, events, i);
    DecidedExactly(states, events, j);
    RunSound(states, events, i);
    assert Enabled(states[i], events[i]) && states[i + 1] == Step(states[i], events[i]);
    hide Run, Throws;
    assert states[i + 1].issued[|states[i].issued|] == Commit;
  }

  // ---------------------------------------------------------------- nothing hangs

  function StepsToTermination(c: Cancellation): nat {
    match c case Connecting => 3 case Cancelling => 2 case Disconnecting => 1 case _ => 0
  }

  lemma MovesNearer(t: Transaction, ok: bool)
    requires !Ended(t.cancellation)
    ensures var u := MoveCancellation(t, ok);
            && StepsToTermination(u.cancellation) < StepsToTermination(t.cancellation)
            && (StepsToTermination(u.cancellation) == 0 ==> u.released == t.released + 1)
  {
    var u := MoveCancellation(t, ok);
    if t.cancellation.Connecting? {
      assert u == t.(cancellation := if ok then Cancelling else Disconnecting);
    } else if t.cancellation.Cancelling? {
      assert u == t.(cancellation := Disconnecting);
    } else {
      assert u == Terminate(t);
    }
    hide MoveCancellation;
  }

  lemma MovesAtStep(t: Transaction, e: Event)
    requires Enabled(t, e) && e.CancellationMoves?
    ensures Step(t, e) == MoveCancellation(t, e.ok) && !Ended(t.cancellation)
  {
    hide MoveCancellation;
  }

  /** However its connection and its query fare, a cancellation comes nearer to its end with every turn. */
  lemma CancellationEnds(states: seq<Transaction>, events: seq<Event>, i: nat)
    requires Run(states, events) && i < |events| && events[i].CancellationMoves?
    ensures StepsToTermination(states[i + 1].cancellation) < StepsToTermination(states[i].cancellation)
    ensures StepsToTermination(states[i + 1].cancellation) == 0 ==> states[i + 1].released == states[i].released + 1
  {
    hide Step, Enabled, MoveCancellation, Initial;
    MovesAtStep(states[i], events[i]);
    MovesNearer(states[i], events[i].ok);
  }

  /** Until the call is over the next turn of it can happen, whatever was aborted. */
  lemma SomethingCanHappen(states: seq<Transaction>, events: seq<Event>, i: nat)
    requires Run(states, events) && i <= |events| && states[i].point != Over
    ensures exists e :: Enabled(states[i], e) && !e.Abort?
  {
    var t := states[i];
    match t.point
    case Acquiring => assert Enabled(t, Acquired(true));
    case Beginning => assert Enabled(t, BeginSettles(true));
    case Working =>
      if id :| id in t.running { assert Enabled(t, Settles(id, true)); } else { assert t.running == map[]; assert Enabled(t, WorkEnds(true)); }
    case Committing => assert Enabled(t, CommitSettles(true));
    case RollingBack => assert Enabled(t, RollbackSettles(true));
    case AwaitingCancellation =>
      assert Enabled(t, if Ended(t.cancellation) then CancellationAwaited else CancellationMoves(true));
    case Finishing =>
      assert Enabled(t, if Ended(t.cancellation) then Finish else CancellationMoves(true));
  }

  // ---------------------------------------------------------------- one statement outside any transaction

  /** The statement came back, and nobody had aborted it. */
  ghost predicate CameBack(states: seq<Call>, events: seq<CallEvent>, i: nat)
    requires |states| == |events| + 1 && i <= |events|
  {
    exists j :: 0 <= j < i && events[j] == QuerySettles(true) && !states[j].aborted
  }

  lemma CallStepDecides(c: Call, e: CallEvent)
    requires CallSound(c) && CallEnabled(c, e)
    ensures CallStep(c, e).result == Returned <==> c.result == Returned || (e == QuerySettles(true) && !c.aborted)
  {
  }

  /** A single statement with a signal returns if and only if it came back before anybody aborted it. */
  lemma {:induction false} CallReturnedExactly(states: seq<Call>, events: seq<CallEvent>, i: nat)
    requires CallRun(states, events) && i <= |events|
    ensures states[i].result == Returned <==> CameBack(states, events, i)
  {
    hide CallStep, CallEnabled, CallSound;
    if i > 0 {
      CallReturnedExactly(states, events, i - 1);
      CallRunSound(states, events, i - 1);
      CallStepDecides(states[i - 1], events[i - 1]);
      hide CallRun;
      assert CameBack(states, events, i) <==> CameBack(states, events, i - 1) || (events[i - 1] == QuerySettles(true) && !states[i - 1].aborted);
    }
  }
}
