/**
  One transaction of packages/database/src/runtime.ts, from acquiring its connection to giving
  it back, with aborts at any await.
*/
module PostgresTransaction {
  // A turn runs from one await to the next.  `work` may issue statements one after another or side
  // by side, each with its own signal, and awaits them all before it ends.  Destroying the transaction
  // starts a job of its own that cancels the backend and then terminates the connection.

  type StatementId = nat

  datatype Statement = Begin | Work(id: StatementId) | Commit | Rollback

  datatype Cancellation = NotStarted | Connecting | Cancelling | Disconnecting | Terminated

  /** Where withTransaction is suspended. */
  datatype Point =
    | Acquiring
    | Beginning
    | Working
    | AwaitingCancellation
    | Committing
    | RollingBack
    | Finishing
    | Over

  datatype Result = Unsettled | Returned | Thrown

  datatype Transaction = Transaction(
    hasProcessId: bool,
    aborted: bool,
    point: Point,
    destroyed: bool,
    failure: bool,
    cancellation: Cancellation,
    running: map<StatementId, bool>,
    result: Result,
    acquired: bool,
    released: nat,
    issued: seq<Statement>,
    failed: set<StatementId>)

  datatype Event =
    | Abort
    | Acquired(ok: bool)
    | BeginSettles(ok: bool)
    | Issue(id: StatementId, signalAborted: bool)
    | SignalAborts(id: StatementId)
    | NestedAborts
    | Settles(id: StatementId, ok: bool)
    | WorkEnds(ok: bool)
    | CancellationMoves(ok: bool)
    | CancellationAwaited
    | CommitSettles(ok: bool)
    | RollbackSettles(ok: bool)
    | Finish

  /** A call whose signal was not aborted yet when it was made. */
  predicate Initial(t: Transaction) {
    t == Transaction(t.hasProcessId, false, Acquiring, false, false, NotStarted, map[], Unsettled, false, 0, [], {})
  }

  predicate Ended(cancellation: Cancellation) { cancellation.NotStarted? || cancellation.Terminated? }

  predicate Enabled(t: Transaction, e: Event) {
    match e
    case Abort => !t.aborted
    case Acquired(_) => t.point == Acquiring
    case BeginSettles(_) => t.point == Beginning
    case Issue(id, _) => t.point == Working && id !in t.running && Work(id) !in t.issued
    case SignalAborts(id) => t.point == Working && id in t.running
    case NestedAborts => t.point == Working
    case Settles(id, _) => t.point == Working && id in t.running
    case WorkEnds(_) => t.point == Working && t.running == map[]
    case CancellationMoves(_) => !Ended(t.cancellation)
    case CancellationAwaited => t.point == AwaitingCancellation && Ended(t.cancellation)
    case CommitSettles(_) => t.point == Committing
    case RollbackSettles(_) => t.point == RollingBack
    case Finish => t.point == Finishing && Ended(t.cancellation)
  }

  // ---------------------------------------------------------------- the steps

  /** Gives the connection back, destroyed. */
  function Terminate(t: Transaction): Transaction {
    t.(cancellation := Terminated, released := t.released + 1)
  }

  function Destroy(t: Transaction): Transaction {
    if t.destroyed then t
    else if t.hasProcessId then t.(destroyed := true, cancellation := Connecting)
    else Terminate(t.(destroyed := true))
  }

  function Send(t: Transaction, statement: Statement, point: Point): Transaction {
    t.(issued := t.issued + [statement], point := point)
  }

  /** Connects, cancels, disconnects, and gives the connection back whatever came of it. */
  function MoveCancellation(t: Transaction, ok: bool): Transaction {
    match t.cancellation
    case Connecting => t.(cancellation := if ok then Cancelling else Disconnecting)
    case Cancelling => t.(cancellation := Disconnecting)
    case _ => Terminate(t)
  }

  /** The catch block. */
  function Catch(t: Transaction): Transaction {
    var u := t.(result := Thrown);
    if t.destroyed then u.(point := Finishing) else Send(u, Rollback, RollingBack)
  }

  /** The abort listener stands from before `begin` to the end of the try block. */
  predicate Listening(point: Point) { point != Acquiring && point != Finishing && point != Over }

  function Step(t: Transaction, e: Event): Transaction
    requires Enabled(t, e)
  {
    match e
    case Abort => var u := t.(aborted := true); if Listening(t.point) then Destroy(u) else u
    case Acquired(ok) =>
      if !ok then t.(point := Over, result := Thrown)
      else if t.aborted then t.(acquired := true, released := t.released + 1, point := Over, result := Thrown)
      else Send(t.(acquired := true), Begin, Beginning)
    case BeginSettles(ok) => if !ok || t.aborted then Catch(t) else t.(point := Working)
    case Issue(id, signalAborted) =>
      if t.destroyed then t
      else if signalAborted then Destroy(t)
      else Send(t.(running := t.running[id := false]), Work(id), Working)
    case SignalAborts(id) => Destroy(t.(running := t.running[id := true]))
    case NestedAborts => Destroy(t)
    case Settles(id, ok) =>
      var u := t.(running := t.running - {id});
      if ok && !t.running[id] then u else u.(failure := true, failed := t.failed + {id})
    case WorkEnds(ok) =>
      if !ok || t.aborted then Catch(t)
      else if t.destroyed then t.(point := AwaitingCancellation)
      else if t.failure then Catch(t)
      else Send(t, Commit, Committing)
    case CancellationMoves(ok) => MoveCancellation(t, ok)
    case CancellationAwaited => Catch(t)
    case CommitSettles(ok) => if ok then t.(point := Finishing, result := Returned) else Catch(t)
    case RollbackSettles(ok) => (if ok then t else Destroy(t)).(point := Finishing)
    case Finish => (if t.destroyed then t else t.(released := t.released + 1)).(point := Over)
  }

  // ---------------------------------------------------------------- the invariant

  predicate ReleaseSound(t: Transaction) {
    && (t.destroyed <==> t.cancellation != NotStarted)
    && (t.point == Acquiring ==> !t.acquired)
    && (!t.acquired ==> t.point in {Acquiring, Over} && !t.destroyed && t.issued == [])
    && t.released == (if t.cancellation.Terminated? || (t.point == Over && t.acquired && !t.destroyed) then 1 else 0)
    && (t.point == Over ==> Ended(t.cancellation))
    && (Listening(t.point) && t.aborted ==> t.destroyed)
    && (t.point == AwaitingCancellation ==> t.destroyed)
  }

  /** Before the try block has decided. */
  predicate Undecided(point: Point) { !point.RollingBack? && !point.Finishing? && !point.Over? }

  predicate PastWork(point: Point) { point.Committing? || !Undecided(point) }

  ghost predicate CommitSound(t: Transaction) {
    && (t.failure <==> t.failed != {})
    && (Commit in t.issued ==> !t.failure && PastWork(t.point))
    && (t.point.Committing? ==> Commit in t.issued)
    && (Undecided(t.point) ==> t.result == Unsettled && Rollback !in t.issued)
    && (!Undecided(t.point) ==> t.result != Unsettled)
    && (t.point.RollingBack? ==> t.result == Thrown)
    && (t.result == Returned ==> Commit in t.issued && Rollback !in t.issued)
  }

  ghost predicate StatementsSound(t: Transaction) {
    && (forall id :: id in t.running || id in t.failed ==> Work(id) in t.issued)
    && (!t.point.Working? ==> t.running == map[])
  }

  ghost predicate Sound(t: Transaction) { ReleaseSound(t) && CommitSound(t) && StatementsSound(t) }

  /** Everything but who holds the connection. */
  predicate SameLog(t: Transaction, u: Transaction) {
    && u.point == t.point && u.failure == t.failure && u.failed == t.failed && u.issued == t.issued
    && u.running == t.running && u.result == t.result
  }

  lemma DestroyKeepsLog(t: Transaction)
    ensures SameLog(t, Destroy(t))
  {
  }

  lemma DestroyKeepsRelease(t: Transaction)
    requires ReleaseSound(t.(aborted := t.destroyed)) && t.acquired && t.point != Over
    ensures ReleaseSound(Destroy(t)) && Destroy(t).destroyed
  {
  }

  lemma CatchKeepsRelease(t: Transaction)
    requires ReleaseSound(t) && t.acquired && Listening(t.point)
    ensures ReleaseSound(Catch(t))
  {
  }

  /** Events that may destroy the transaction, and events that may enter the catch block. */
  predicate MayDestroy(e: Event) { e.Abort? || e.Issue? || e.SignalAborts? || e.NestedAborts? || e.RollbackSettles? }

  predicate MayCatch(e: Event) { e.BeginSettles? || e.WorkEnds? || e.CancellationAwaited? || e.CommitSettles? }

  lemma DestroyingKeepsRelease(t: Transaction, e: Event)
    requires ReleaseSound(t) && Enabled(t, e) && MayDestroy(e)
    ensures ReleaseSound(Step(t, e))
  {
    if !e.Abort? || Listening(t.point) {
      DestroyKeepsRelease(if e.Abort? then t.(aborted := true) else if e.SignalAborts? then t.(running := t.running[e.id := true]) else t);
    }
    hide Destroy;
  }

  lemma CatchingKeepsRelease(t: Transaction, e: Event)
    requires ReleaseSound(t) && Enabled(t, e) && MayCatch(e)
    ensures ReleaseSound(Step(t, e))
  {
    CatchKeepsRelease(t);
    hide Catch;
  }

  lemma EndingKeepsRelease(t: Transaction, e: Event)
    requires ReleaseSound(t) && Enabled(t, e) && !MayDestroy(e) && !MayCatch(e)
    ensures ReleaseSound(Step(t, e))
  {
  }

  lemma StepKeepsRelease(t: Transaction, e: Event)
    requires ReleaseSound(t) && Enabled(t, e)
    ensures ReleaseSound(Step(t, e))
  {
    hide Step, Enabled, ReleaseSound;
    if MayDestroy(e) {
      DestroyingKeepsRelease(t, e);
    } else if MayCatch(e) {
      CatchingKeepsRelease(t, e);
    } else {
      EndingKeepsRelease(t, e);
    }
  }

  lemma CatchKeepsCommit(t: Transaction)
    requires CommitSound(t) && (Undecided(t.point))
    ensures CommitSound(Catch(t))
  {
  }

  /** Events that leave the log of the transaction alone but for its statements. */
  predicate InPlace(e: Event) {
    e.Abort? || e.Issue? || e.SignalAborts? || e.NestedAborts? || e.Settles? || e.CancellationMoves?
  }

  lemma MovesKeepLog(t: Transaction, ok: bool)
    ensures SameLog(t, MoveCancellation(t, ok)) && MoveCancellation(t, ok).acquired == t.acquired
  {
    var u := MoveCancellation(t, ok);
    if t.cancellation.Connecting? {
      assert u == t.(cancellation := if ok then Cancelling else Disconnecting);
    } else if t.cancellation.Cancelling? {
      assert u == t.(cancellation := Disconnecting);
    } else {
      assert u == Terminate(t);
    }
    hide MoveCancellation;
  }

  lemma CancellationKeepsLog(t: Transaction, e: Event)
    requires Enabled(t, e) && e.CancellationMoves?
    ensures SameLog(t, Step(t, e))
  {
    MovesKeepLog(t, e.ok);
    hide MoveCancellation, Destroy, Catch, SameLog;
  }

  /** Aborts and the cancellation move nothing in the log. */
  lemma AbortsKeepLog(t: Transaction, e: Event)
    requires Enabled(t, e) && (e.Abort? || e.SignalAborts? || e.NestedAborts? || e.CancellationMoves?)
    ensures var u := Step(t, e);
            u.point == t.point && u.failure == t.failure && u.failed == t.failed && u.issued == t.issued
            && u.running.Keys == t.running.Keys && u.result == t.result
  {
    if e.CancellationMoves? {
      CancellationKeepsLog(t, e);
      hide Step, Enabled;
    } else {
      var marked := if e.SignalAborts? then t.(running := t.running[e.id := true]) else if e.Abort? then t.(aborted := true) else t;
      assert marked.running.Keys == t.running.Keys;
      DestroyKeepsLog(marked);
      hide Destroy;
    }
  }

  lemma InPlaceKeepsCommit(t: Transaction, e: Event)
    requires CommitSound(t) && Enabled(t, e) && InPlace(e)
    ensures CommitSound(Step(t, e))
  {
    if e.Issue? {
      DestroyKeepsLog(t);
      hide Destroy;
    } else if !e.Settles? {
      AbortsKeepLog(t, e);
      hide Step, Enabled;
    }
  }

  lemma WorkEndKeepsCommit(t: Transaction, e: Event)
    requires CommitSound(t) && Enabled(t, e) && (e.WorkEnds? || e.CommitSettles?)
    ensures CommitSound(Step(t, e))
  {
    CatchKeepsCommit(t);
    hide Catch;
  }

  lemma StartKeepsCommit(t: Transaction, e: Event)
    requires CommitSound(t) && Enabled(t, e) && (e.BeginSettles? || e.CancellationAwaited?)
    ensures CommitSound(Step(t, e))
  {
    CatchKeepsCommit(t);
    hide Catch;
  }

  lemma EndKeepsCommit(t: Transaction, e: Event)
    requires CommitSound(t) && Enabled(t, e) && (e.Acquired? || e.RollbackSettles? || e.Finish?)
    ensures CommitSound(Step(t, e))
  {
    if e.RollbackSettles? {
      DestroyKeepsLog(t);
    }
    hide Destroy, Catch;
  }

  lemma TransitionKeepsCommit(t: Transaction, e: Event)
    requires CommitSound(t) && Enabled(t, e) && !InPlace(e)
    ensures CommitSound(Step(t, e))
  {
    hide Step, Enabled, CommitSound;
    if e.WorkEnds? || e.CommitSettles? {
      WorkEndKeepsCommit(t, e);
    } else if e.BeginSettles? || e.CancellationAwaited? {
      StartKeepsCommit(t, e);
    } else {
      EndKeepsCommit(t, e);
    }
  }

  lemma CatchKeepsStatements(t: Transaction)
    requires StatementsSound(t) && t.running == map[]
    ensures StatementsSound(Catch(t))
  {
  }

  lemma StepKeepsStatements(t: Transaction, e: Event)
    requires StatementsSound(t) && Enabled(t, e)
    ensures StatementsSound(Step(t, e))
  {
    if e.Issue? || e.RollbackSettles? {
      DestroyKeepsLog(t);
      hide Destroy;
    } else if InPlace(e) && !e.Settles? {
      AbortsKeepLog(t, e);
      hide Step, Enabled;
    } else if e.BeginSettles? || e.WorkEnds? || e.CancellationAwaited? || e.CommitSettles? {
      CatchKeepsStatements(t);
      hide Catch;
    }
  }

  lemma StepKeepsSound(t: Transaction, e: Event)
    requires Sound(t) && Enabled(t, e)
    ensures Sound(Step(t, e))
  {
    StepKeepsRelease(t, e);
    StepKeepsStatements(t, e);
    if InPlace(e) {
      InPlaceKeepsCommit(t, e);
    } else {
      TransitionKeepsCommit(t, e);
    }
    hide ReleaseSound, CommitSound, StatementsSound;
  }

  /** What one step may add to the statements sent. */
  ghost predicate SendsAtMost(t: Transaction, u: Transaction) {
    u.issued == t.issued
    || (exists statement :: u.issued == t.issued + [statement] && !t.destroyed && t.released == 0 && u.acquired
                            && (statement == Commit ==> t.failed == {} && t.running == map[]))
  }

  lemma CatchSends(t: Transaction)
    ensures Catch(t).issued == if t.destroyed then t.issued else t.issued + [Rollback]
    ensures Catch(t).acquired == t.acquired
  {
  }

  /**
    Statements go out one at a time, only while the transaction is not destroyed and its connection
    not given back; commit goes out only when every statement is settled and none has failed.
  */
  lemma IssuesOnLiveConnection(t: Transaction, e: Event)
    requires Sound(t) && Enabled(t, e)
    ensures SendsAtMost(t, Step(t, e))
  {
    var u := Step(t, e);
    if InPlace(e) && !e.Issue? && !e.Settles? {
      AbortsKeepLog(t, e);
      hide Step, Enabled;
    } else {
      DestroyKeepsLog(t);
      hide Destroy, Catch, Listening, MoveCancellation;
      CatchSends(t);
      if u.issued != t.issued {
        var statement := u.issued[|t.issued|];
        assert u.issued == t.issued + [statement];
      }
    }
  }

  // ---------------------------------------------------------------- runs

  ghost predicate Run(states: seq<Transaction>, events: seq<Event>) {
    && |states| == |events| + 1
    && Initial(states[0])
    && forall i :: 0 <= i < |events| ==> Enabled(states[i], events[i]) && states[i + 1] == Step(states[i], events[i])
  }

  lemma {:induction false} RunSound(states: seq<Transaction>, events: seq<Event>, i: nat)
    requires Run(states, events) && i <= |events|
    ensures Sound(states[i])
  {
    if i > 0 {
      hide Step, Enabled, Sound, Initial;
      RunSound(states, events, i - 1);
      StepKeepsSound(states[i - 1], events[i - 1]);
    }
  }

  /** A connection that was acquired is given back exactly once by the time the call is over, and never twice. */
  lemma GivenBackOnce(states: seq<Transaction>, events: seq<Event>, i: nat)
    requires Run(states, events) && i <= |events|
    ensures states[i].released <= 1
    ensures states[i].point == Over ==> states[i].released == if states[i].acquired then 1 else 0
  {
    RunSound(states, events, i);
    hide CommitSound, StatementsSound;
    var t := states[i];
    if t.point == Over && t.acquired && t.destroyed {
      assert t.cancellation.Terminated?;
    }
  }

  /** Every statement of a run goes out on a connection that is there and not destroyed; commit only after clean work. */
  lemma StatementsOnLiveConnection(states: seq<Transaction>, events: seq<Event>, i: nat)
    requires Run(states, events) && i < |events|
    ensures SendsAtMost(states[i], states[i + 1])
  {
    RunSound(states, events, i);
    IssuesOnLiveConnection(states[i], events[i]);
  }

  lemma FailedGrows(t: Transaction, e: Event)
    requires Enabled(t, e)
    ensures t.failed <= Step(t, e).failed
  {
    if InPlace(e) && !e.Issue? && !e.Settles? {
      AbortsKeepLog(t, e);
      hide Step, Enabled;
    } else {
      DestroyKeepsLog(t);
      hide Destroy;
    }
  }

  lemma {:induction false} RunFailedGrows(
      states: seq<Transaction>, events: seq<Event>, i: nat, j: nat)
    requires Run(states, events) && i <= j <= |events|
    ensures states[i].failed <= states[j].failed
    decreases j - i
  {
    hide Step, Enabled;
    if i < j {
      RunFailedGrows(states, events, i, j - 1);
      FailedGrows(states[j - 1], events[j - 1]);
    }
  }

  /** A failed statement rules commit out for good, even if the caller swallowed the failure. */
  lemma FailureRulesOutCommit(
      states: seq<Transaction>, events: seq<Event>, i: nat, j: nat)
    requires Run(states, events) && i <= j <= |events| && states[i].failed != {}
    ensures Commit !in states[j].issued && states[j].result != Returned
  {
    RunSound(states, events, j);
    RunFailedGrows(states, events, i, j);
  }

  /** A call that returned had its commit acknowledged, after work without a failed statement, and sent no rollback. */
  lemma ReturnedMeansCommitted(states: seq<Transaction>, events: seq<Event>, i: nat)
    requires Run(states, events) && i <= |events| && states[i].result == Returned
    ensures Commit in states[i].issued && Rollback !in states[i].issued && states[i].failed == {}
    ensures !Undecided(states[i].point)
  {
    RunSound(states, events, i);
  }

  /** The call never hangs on its cancellation: either the cancellation can move, or the call may go on. */
  lemma NeverStuck(states: seq<Transaction>, events: seq<Event>, i: nat)
    requires Run(states, events) && i <= |events|
    requires states[i].point == AwaitingCancellation || states[i].point == Finishing
    ensures Enabled(states[i], CancellationMoves(true))
            || Enabled(states[i], if states[i].point == Finishing then Finish else CancellationAwaited)
  {
  }

  // ---------------------------------------------------------------- one statement outside any transaction

  datatype CallPoint = CallAcquiring | Querying | Closing | CallOver

  /** `execute` with a signal and its own connection; `handedOver` is membership in the released set. */
  datatype Call = Call(hasProcessId: bool, aborted: bool, point: CallPoint, handedOver: bool, cancellation: Cancellation,
                       acquired: bool, released: nat, result: Result)

  datatype CallEvent =
    | CallAborts
    | CallAcquired(ok: bool)
    | QuerySettles(ok: bool)
    | CallCancellationMoves(ok: bool)
    | CallFinishes

  predicate CallInitial(c: Call) { c == Call(c.hasProcessId, false, CallAcquiring, false, NotStarted, false, 0, Unsettled) }

  predicate CallEnabled(c: Call, e: CallEvent) {
    match e
    case CallAborts => !c.aborted
    case CallAcquired(_) => c.point == CallAcquiring
    case QuerySettles(_) => c.point == Querying
    case CallCancellationMoves(_) => !Ended(c.cancellation)
    case CallFinishes => c.point == Closing && Ended(c.cancellation)
  }

  function CallTerminate(c: Call): Call { c.(cancellation := Terminated, released := c.released + 1) }

  function CallStep(c: Call, e: CallEvent): Call
    requires CallEnabled(c, e)
  {
    match e
    case CallAborts =>
      var d := c.(aborted := true);
      if c.point != Querying || c.handedOver then d
      else if c.hasProcessId then d.(handedOver := true, cancellation := Connecting)
      else CallTerminate(d.(handedOver := true))
    case CallAcquired(ok) =>
      if !ok then c.(point := CallOver, result := Thrown)
      else if c.aborted then c.(acquired := true, released := c.released + 1, point := CallOver, result := Thrown)
      else c.(acquired := true, point := Querying)
    case QuerySettles(ok) => c.(point := Closing, result := if ok && !c.aborted then Returned else Thrown)
    case CallCancellationMoves(ok) =>
      (match c.cancellation
       case Connecting => c.(cancellation := if ok then Cancelling else Disconnecting)
       case Cancelling => c.(cancellation := Disconnecting)
       case _ => CallTerminate(c))
    case CallFinishes => (if c.handedOver then c else c.(released := c.released + 1)).(point := CallOver)
  }

  predicate CallSound(c: Call) {
    && (c.handedOver <==> c.cancellation != NotStarted)
    && (c.handedOver ==> c.aborted)
    && (c.point == CallAcquiring ==> !c.acquired)
    && (!c.acquired ==> c.point in {CallAcquiring, CallOver} && !c.handedOver)
    && c.released == (if c.cancellation.Terminated? || (c.point == CallOver && c.acquired && !c.handedOver) then 1 else 0)
    && (c.point == CallOver ==> Ended(c.cancellation))
    && (c.point == Querying && c.aborted ==> c.handedOver)
    && (c.point == CallAcquiring || c.point == Querying ==> c.result == Unsettled)
    && (c.handedOver ==> c.result != Returned)
  }

  ghost predicate CallRun(states: seq<Call>, events: seq<CallEvent>) {
    && |states| == |events| + 1
    && CallInitial(states[0])
    && forall i :: 0 <= i < |events| ==> CallEnabled(states[i], events[i]) && states[i + 1] == CallStep(states[i], events[i])
  }

  lemma CallStepKeepsSound(c: Call, e: CallEvent)
    requires CallSound(c) && CallEnabled(c, e)
    ensures CallSound(CallStep(c, e))
  {
  }

  lemma {:induction false} CallRunSound(states: seq<Call>, events: seq<CallEvent>, i: nat)
    requires CallRun(states, events) && i <= |events|
    ensures CallSound(states[i])
  {
    if i > 0 {
      hide CallStep, CallEnabled, CallInitial;
      CallRunSound(states, events, i - 1);
      CallStepKeepsSound(states[i - 1], events[i - 1]);
    }
  }

  /** The same for a single statement: its connection goes back exactly once, and a statement that returned was not cancelled. */
  lemma CallGivenBackOnce(states: seq<Call>, events: seq<CallEvent>, i: nat)
    requires CallRun(states, events) && i <= |events|
    ensures states[i].released <= 1
    ensures states[i].point == CallOver ==> states[i].released == if states[i].acquired then 1 else 0
    ensures states[i].result == Returned ==> states[i].cancellation == NotStarted
  {
    CallRunSound(states, events, i);
  }

  // ---------------------------------------------------------------- the runtime itself

  /** One withTransaction call, changed in place turn by turn. */
  class PostgresTransactionCall {
    const hasProcessId: bool
    var aborted: bool
    var point: Point
    var destroyed: bool
    var failure: bool
    var cancellation: Cancellation
    var running: map<StatementId, bool>
    var result: Result
    var acquired: bool
    var released: nat
    ghost var issued: seq<Statement>
    ghost var failed: set<StatementId>

    ghost function View(): Transaction
      reads this
    {
      Transaction(hasProcessId, aborted, point, destroyed, failure, cancellation, running, result, acquired, released, issued, failed)
    }

    constructor (hasProcessId: bool)
      ensures Initial(View()) && this.hasProcessId == hasProcessId
    {
      this.hasProcessId, aborted, point, destroyed, failure := hasProcessId, false, Acquiring, false, false;
      cancellation, running, result, acquired, released, issued, failed := NotStarted, map[], Unsettled, false, 0, [], {};
    }

    method TerminateConnection()
      modifies this`cancellation, this`released
      ensures View() == Terminate(old(View()))
    {
      cancellation, released := Terminated, released + 1;
    }

    method DestroyTransaction()
      modifies this`destroyed, this`cancellation, this`released
      ensures View() == Destroy(old(View()))
    {
      if destroyed {
        return;
      }
      destroyed := true;
      if hasProcessId {
        cancellation := Connecting;
      } else {
        TerminateConnection();
      }
    }

    method CatchError()
      modifies this`result, this`point, this`issued
      ensures View() == Catch(old(View()))
    {
      result := Thrown;
      if !destroyed {
        issued := issued + [Rollback];
        point := RollingBack;
      } else {
        point := Finishing;
      }
    }

    method OnAbort()
      requires !aborted
      modifies this`aborted, this`destroyed, this`cancellation, this`released
      ensures View() == Step(old(View()), Abort)
    {
      aborted := true;
      if Listening(point) {
        DestroyTransaction();
      }
    }

    method OnAcquired(ok: bool)
      requires point == Acquiring
      modifies this
      ensures View() == Step(old(View()), Event.Acquired(ok))
    {
      if !ok {
        point, result := Over, Thrown;
        return;
      }
      acquired := true;
      if aborted {
        released, point, result := released + 1, Over, Thrown;
        return;
      }
      issued := issued + [Begin];
      point := Beginning;
    }

    method OnBegun(ok: bool)
      requires point == Beginning
      modifies this`result, this`point, this`issued
      ensures View() == Step(old(View()), BeginSettles(ok))
    {
      if !ok || aborted {
        CatchError();
      } else {
        point := Working;
      }
    }

    /** The first turn of `execute` inside the transaction; a destroyed transaction takes no statement. */
    method Execute(id: StatementId, signalAborted: bool) returns (sent: bool)
      requires Enabled(View(), Issue(id, signalAborted))
      modifies this`destroyed, this`cancellation, this`released, this`running, this`issued
      ensures View() == Step(old(View()), Issue(id, signalAborted))
      ensures sent <==> !old(destroyed) && !signalAborted
    {
      if destroyed {
        return false;
      }
      if signalAborted {
        DestroyTransaction();
        return false;
      }
      issued := issued + [Work(id)];
      running := running[id := false];
      return true;
    }

    method OnSignal(id: StatementId)
      requires Enabled(View(), SignalAborts(id))
      modifies this`destroyed, this`cancellation, this`released, this`running
      ensures View() == Step(old(View()), SignalAborts(id))
    {
      running := running[id := true];
      DestroyTransaction();
    }

    method OnStatement(id: StatementId, ok: bool)
      requires Enabled(View(), Settles(id, ok))
      modifies this`running, this`failure, this`failed
      ensures View() == Step(old(View()), Settles(id, ok))
    {
      var threw := !ok || running[id];
      running := running - {id};
      if threw {
        failure := true;
        failed := failed + {id};
      }
    }

    method OnWorkEnd(ok: bool)
      requires Enabled(View(), WorkEnds(ok))
      modifies this`result, this`point, this`issued
      ensures View() == Step(old(View()), WorkEnds(ok))
    {
      if !ok || aborted {
        CatchError();
        return;
      }
      if destroyed {
        point := AwaitingCancellation;
        return;
      }
      if failure {
        CatchError();
        return;
      }
      issued := issued + [Commit];
      point := Committing;
    }

    /** The next turn of the cancellation: connect, cancel the backend, disconnect, terminate. */
    method OnCancellation(ok: bool)
      requires Enabled(View(), CancellationMoves(ok))
      modifies this`cancellation, this`released
      ensures View() == Step(old(View()), CancellationMoves(ok))
    {
      match cancellation
      case Connecting => cancellation := if ok then Cancelling else Disconnecting;
      case Cancelling => cancellation := Disconnecting;
      case Disconnecting => TerminateConnection();
    }

    method OnCancellationAwaited()
      requires Enabled(View(), CancellationAwaited)
      modifies this`result, this`point, this`issued
      ensures View() == Step(old(View()), CancellationAwaited)
    {
      CatchError();
    }

    method OnCommit(ok: bool)
      requires point == Committing
      modifies this`result, this`point, this`issued
      ensures View() == Step(old(View()), CommitSettles(ok))
    {
      if ok {
        point, result := Finishing, Returned;
      } else {
        CatchError();
      }
    }

    method OnRollback(ok: bool)
      requires point == RollingBack
      modifies this`destroyed, this`cancellation, this`released, this`point
      ensures View() == Step(old(View()), RollbackSettles(ok))
    {
      if !ok {
        DestroyTransaction();
      }
      point := Finishing;
    }

    method Release()
      requires Enabled(View(), Finish)
      modifies this`released, this`point
      ensures View() == Step(old(View()), Finish)
    {
      if !destroyed {
        released := released + 1;
      }
      point := Over;
    }
  }
}
