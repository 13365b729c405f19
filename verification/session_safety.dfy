/**
  What the session store keeps over every run: any interleaving of commands from any
  number of clients, with time passing between them.
*/
module SessionSafety {
  import opened Basics
  import opened SessionStore

  /**
    What is assumed of the world: clients and server share one clock, a client reads it
    before its command runs, and a session is not created in the future.
  */
  predicate Plausible(s: Keyspace, op: Op) {
    match op
    case Create(_, _, session, _) => session.createdAtMs <= s.nowMs
    case Rotate(_, _, _, _, _, nowMs) => nowMs <= s.nowMs
    case Touch(_, _, _, nowMs) => nowMs <= s.nowMs
    case Peek(_, _, nowMs) => nowMs <= s.nowMs
    case _ => true
  }

  function StateAt(s: Keyspace, ops: seq<Op>, i: nat): Keyspace
    requires i <= |ops|
  {
    if i == 0 then s else Apply(StateAt(s, ops, i - 1), ops[i - 1]).0
  }

  function ReplyAt(s: Keyspace, ops: seq<Op>, i: nat): Reply
    requires i < |ops|
  {
    Apply(StateAt(s, ops, i), ops[i]).1
  }

  ghost predicate PlausibleRun(s: Keyspace, ops: seq<Op>) {
    forall i :: 0 <= i < |ops| ==> Plausible(StateAt(s, ops, i), ops[i])
  }

  const EMPTY := Keyspace(0, map[], map[])

  predicate Present(s: Keyspace, k: SessionKey) {
    k in s.sessions && s.nowMs <= s.sessions[k].expiresAtMs
  }

  /** A record that can still authenticate somebody. */
  predicate Live(s: Keyspace, k: SessionKey) {
    Present(s, k) && s.nowMs < s.sessions[k].value.absoluteExpiresAtMs
  }

  function IndexKey(s: Keyspace, k: SessionKey): AccountKey
    requires k in s.sessions
  {
    AccountKey(k.surface, s.sessions[k].value.accountId)
  }

  /** The account's index names this record's credential until at least the given time. */
  predicate IndexedUntil(s: Keyspace, k: SessionKey, ms: int)
    requires k in s.sessions
  {
    var a := IndexKey(s, k);
    a in s.accounts && s.accounts[a].value == k.credential && ms <= s.accounts[a].expiresAtMs
  }

  ghost predicate Agreement(s: Keyspace) {
    && (forall k :: k in s.sessions ==> ValidSession(s.sessions[k].value, k.surface))
    && (forall k :: k in s.sessions && Live(s, k) ==> IndexedUntil(s, k, s.sessions[k].value.absoluteExpiresAtMs))
  }

  lemma CreateKeepsAgreement(s: Keyspace, op: Op)
    requires Agreement(s) && Plausible(s, op) && op.Create?
    ensures Agreement(Apply(s, op).0)
  {
  }

  lemma RotateKeepsAgreement(s: Keyspace, op: Op)
    requires Agreement(s) && Plausible(s, op) && op.Rotate?
    ensures Agreement(Apply(s, op).0)
  {
  }

  lemma DeleteKeepsAgreement(s: Keyspace, op: Op)
    requires Agreement(s) && Plausible(s, op) && op.CompareDelete?
    ensures Agreement(Apply(s, op).0)
  {
  }

  lemma ReadKeepsAgreement(s: Keyspace, op: Op)
    requires Agreement(s) && Plausible(s, op) && (op.Touch? || op.Peek?)
    ensures Agreement(Apply(s, op).0)
  {
  }

  lemma StepKeepsAgreement(s: Keyspace, op: Op)
    requires Agreement(s) && Plausible(s, op)
    ensures Agreement(Apply(s, op).0)
  {
    if op.Create? {
      CreateKeepsAgreement(s, op);
    } else if op.Rotate? {
      RotateKeepsAgreement(s, op);
    } else if op.CompareDelete? {
      DeleteKeepsAgreement(s, op);
    } else if op.Touch? || op.Peek? {
      ReadKeepsAgreement(s, op);
    }
  }

  lemma {:induction false} RunKeepsAgreement(ops: seq<Op>, i: nat)
    requires PlausibleRun(EMPTY, ops) && i <= |ops|
    ensures Agreement(StateAt(EMPTY, ops, i))
  {
    if i > 0 {
      RunKeepsAgreement(ops, i - 1);
      StepKeepsAgreement(StateAt(EMPTY, ops, i - 1), ops[i - 1]);
    }
  }

  /**
    In every reachable state each live record is the one its account's unexpired index entry
    names, so at most one session is live per surface and account.
  */
  lemma OneLiveSession(ops: seq<Op>, i: nat, k: SessionKey)
    requires PlausibleRun(EMPTY, ops) && i <= |ops| && Live(StateAt(EMPTY, ops, i), k)
    ensures var s := StateAt(EMPTY, ops, i);
            && Get(s.accounts, IndexKey(s, k), s.nowMs) == Some(k.credential)
            && forall other :: Live(s, other) && IndexKey(s, other) == IndexKey(s, k) ==> other == k
  {
    RunKeepsAgreement(ops, i);
  }

  // ---------------------------------------------------------------- the index outlives the record

  /** Every record that is there at all, live or not, is covered by its index entry for as long as it is there. */
  ghost predicate Covered(s: Keyspace) {
    forall k :: k in s.sessions && Present(s, k) ==>
      IndexedUntil(s, k, Max(s.sessions[k].expiresAtMs, s.sessions[k].value.absoluteExpiresAtMs))
  }

  /** A touch is prompt when it runs in the millisecond its client read the clock. */
  predicate Prompt(s: Keyspace, op: Op) { op.Touch? ==> op.nowMs == s.nowMs }

  lemma CreateKeepsCovered(s: Keyspace, op: Op)
    requires Covered(s) && Plausible(s, op) && op.Create?
    ensures Covered(Apply(s, op).0)
  {
  }

  lemma RotateKeepsCovered(s: Keyspace, op: Op)
    requires Covered(s) && Plausible(s, op) && op.Rotate?
    ensures Covered(Apply(s, op).0)
  {
  }

  lemma DeleteKeepsCovered(s: Keyspace, op: Op)
    requires Covered(s) && op.CompareDelete?
    ensures Covered(Apply(s, op).0)
  {
  }

  lemma PeekKeepsCovered(s: Keyspace, op: Op)
    requires Covered(s) && (op.Peek? || op.Tick? || op.Fetch?)
    ensures Covered(Apply(s, op).0)
  {
  }

  /**
    A touch keeps every record covered exactly when it runs no later than the index entry's
    lead over the absolute expiry, or its idle window ends before the index entry does.
  */
  lemma TouchKeepsCoveredExactly(s: Keyspace, op: Op)
    requires Covered(s) && op.Touch? && op.idleTtlMs > 0 && 0 <= op.nowMs
    requires var k := SessionKey(op.surface, op.credential);
             Present(s, k) && op.nowMs < s.sessions[k].value.absoluteExpiresAtMs
    ensures var k := SessionKey(op.surface, op.credential);
            var indexExpiry := s.accounts[IndexKey(s, k)].expiresAtMs;
            var delay := s.nowMs - op.nowMs;
            Covered(Apply(s, op).0) <==>
              delay <= indexExpiry - s.sessions[k].value.absoluteExpiresAtMs || s.nowMs + op.idleTtlMs <= indexExpiry
  {
    var k := SessionKey(op.surface, op.credential);
    var after := Apply(s, op).0;
    assert Present(after, k);
    assert IndexKey(after, k) == IndexKey(s, k);
    if IndexedUntil(after, k, Max(after.sessions[k].expiresAtMs, after.sessions[k].value.absoluteExpiresAtMs)) {
      forall other | other in after.sessions && Present(after, other)
        ensures IndexedUntil(after, other, Max(after.sessions[other].expiresAtMs, after.sessions[other].value.absoluteExpiresAtMs))
      {
        assert other != k ==> Present(s, other);
      }
    }
  }

  /** The touch changes nothing, or its delay is one the record's index entry allows for. */
  predicate TouchFits(s: Keyspace, op: Op) {
    op.Touch? ==>
      var k := SessionKey(op.surface, op.credential);
      (op.idleTtlMs > 0 && 0 <= op.nowMs && Present(s, k) && op.nowMs < s.sessions[k].value.absoluteExpiresAtMs) ==>
        (IndexKey(s, k) in s.accounts
         && var indexExpiry := s.accounts[IndexKey(s, k)].expiresAtMs;
         (s.nowMs - op.nowMs <= indexExpiry - s.sessions[k].value.absoluteExpiresAtMs || s.nowMs + op.idleTtlMs <= indexExpiry))
  }

  lemma TouchKeepsCovered(s: Keyspace, op: Op)
    requires Covered(s) && op.Touch?
    ensures Covered(Apply(s, op).0) <==> TouchFits(s, op)
  {
    var k := SessionKey(op.surface, op.credential);
    if op.idleTtlMs > 0 && 0 <= op.nowMs && Present(s, k) && op.nowMs < s.sessions[k].value.absoluteExpiresAtMs {
      TouchKeepsCoveredExactly(s, op);
      hide Apply, Covered;
    }
  }

  lemma StepKeepsCovered(s: Keyspace, op: Op)
    requires Covered(s) && Plausible(s, op)
    ensures Covered(Apply(s, op).0) <==> TouchFits(s, op)
  {
    hide Apply, Covered;
    if op.Create? {
      CreateKeepsCovered(s, op);
    } else if op.Rotate? {
      RotateKeepsCovered(s, op);
    } else if op.CompareDelete? {
      DeleteKeepsCovered(s, op);
    } else if op.Touch? {
      TouchKeepsCovered(s, op);
    } else {
      PeekKeepsCovered(s, op);
    }
  }

  lemma RunKeepsCovered(ops: seq<Op>, i: nat)
    requires PlausibleRun(EMPTY, ops) && i < |ops| && Covered(StateAt(EMPTY, ops, i))
    ensures Covered(StateAt(EMPTY, ops, i + 1)) <==> TouchFits(StateAt(EMPTY, ops, i), ops[i])
  {
    hide Apply, Covered, TouchFits, Plausible;
    StepKeepsCovered(StateAt(EMPTY, ops, i), ops[i]);
  }

  lemma EmptyCovered(ops: seq<Op>)
    ensures Covered(StateAt(EMPTY, ops, 0))
  {
  }

  ghost predicate AllCovered(ops: seq<Op>) { forall i :: 0 <= i <= |ops| ==> Covered(StateAt(EMPTY, ops, i)) }

  ghost predicate AllFit(ops: seq<Op>) { forall i :: 0 <= i < |ops| ==> TouchFits(StateAt(EMPTY, ops, i), ops[i]) }

  lemma {:induction false} FittingRunCovered(ops: seq<Op>, i: nat)
    requires PlausibleRun(EMPTY, ops) && i <= |ops| && AllFit(ops)
    ensures Covered(StateAt(EMPTY, ops, i))
  {
    hide StateAt, PlausibleRun, Covered, TouchFits;
    if i > 0 {
      FittingRunCovered(ops, i - 1);
      RunKeepsCovered(ops, i - 1);
    } else {
      EmptyCovered(ops);
    }
  }

  /** Throughout a run every record is covered if and only if each touch in it fits when it runs. */
  lemma IndexOutlivesRecordExactly(ops: seq<Op>)
    requires PlausibleRun(EMPTY, ops)
    ensures AllCovered(ops) <==> AllFit(ops)
  {
    hide StateAt, PlausibleRun, Covered, TouchFits;
    if AllCovered(ops) {
      forall i | 0 <= i < |ops| ensures TouchFits(StateAt(EMPTY, ops, i), ops[i]) {
        RunKeepsCovered(ops, i);
      }
    }
    if AllFit(ops) {
      forall i | 0 <= i <= |ops| ensures Covered(StateAt(EMPTY, ops, i)) {
        FittingRunCovered(ops, i);
      }
    }
  }

  lemma PromptFits(s: Keyspace, op: Op)
    requires Covered(s) && Prompt(s, op)
    ensures TouchFits(s, op)
  {
  }

  /** While every touch is prompt, no record ever outlives the index entry that names it. */
  lemma {:induction false} IndexOutlivesRecord(ops: seq<Op>, i: nat)
    requires PlausibleRun(EMPTY, ops) && i <= |ops|
    requires forall j :: 0 <= j < |ops| ==> Prompt(StateAt(EMPTY, ops, j), ops[j])
    ensures Covered(StateAt(EMPTY, ops, i))
  {
    hide *;
    if i > 0 {
      IndexOutlivesRecord(ops, i - 1);
      PromptFits(StateAt(EMPTY, ops, i - 1), ops[i - 1]);
      RunKeepsCovered(ops, i - 1);
    } else {
      EmptyCovered(ops);
    }
  }

  function ExampleSession(): Session {
    Session(100, "a", 0, 0, "", None, None, 0, "", Pc, "")
  }

  function LaterSession(): Session {
    Session(300, "a", 101, 101, "", None, None, 0, "", Pc, "")
  }

  /** The example's store: the record held until a time, its index entry until 100. */
  function ExampleState(nowMs: nat, recordUntil: int): Keyspace {
    Keyspace(nowMs, map[SessionKey(Pc, "c") := Entry(ExampleSession(), recordUntil)], map[AccountKey(Pc, "a") := Entry("c", 100)])
  }

  lemma ExampleCreated()
    ensures Apply(EMPTY, Create(Pc, "c", ExampleSession(), 100)) == (ExampleState(0, 100), Done(true))
  {
    var t := Created(EMPTY, Pc, "c", ExampleSession(), 100);
    assert t.sessions == ExampleState(0, 100).sessions;
    assert t.accounts == ExampleState(0, 100).accounts;
  }

  lemma ExampleTouched()
    ensures Apply(ExampleState(100, 100), Touch(Pc, "c", 30, 50)) == (ExampleState(100, 130), Found(ExampleSession(), 30))
  {
    var k, s := SessionKey(Pc, "c"), ExampleState(100, 100);
    assert s.sessions[k := Entry(ExampleSession(), 130)] == ExampleState(100, 130).sessions;
  }

  lemma ExampleTicks(nowMs: nat, ms: nat, recordUntil: int)
    ensures Apply(ExampleState(nowMs, recordUntil), Tick(ms)) == (ExampleState(nowMs + ms, recordUntil), Done(true))
  {
  }

  lemma NextLogin()
    ensures var s := ExampleState(101, 130);
            var t := Apply(s, Create(Pc, "d", LaterSession(), 30)).0;
            && Present(s, SessionKey(Pc, "c")) && Get(s.accounts, AccountKey(Pc, "a"), 101) == None
            && Present(t, SessionKey(Pc, "c")) && Present(t, SessionKey(Pc, "d")) && !Live(t, SessionKey(Pc, "c"))
  {
  }

  lemma StateNext(s: Keyspace, ops: seq<Op>, i: nat)
    requires i < |ops|
    ensures StateAt(s, ops, i + 1) == Apply(StateAt(s, ops, i), ops[i]).0
  {
  }

  function ExampleRun(): seq<Op> {
    [Create(Pc, "c", ExampleSession(), 100), Tick(100), Touch(Pc, "c", 30, 50), Tick(1), Create(Pc, "d", LaterSession(), 30)]
  }

  lemma ExampleRunCommands()
    ensures var ops := ExampleRun();
            && |ops| == 5
            && ops[0] == Create(Pc, "c", ExampleSession(), 100) && ops[1] == Tick(100) && ops[2] == Touch(Pc, "c", 30, 50)
            && ops[3] == Tick(1) && ops[4] == Create(Pc, "d", LaterSession(), 30)
    ensures Plausible(EMPTY, ExampleRun()[0]) && Plausible(ExampleState(100, 100), ExampleRun()[2]) && Plausible(ExampleState(101, 130), ExampleRun()[4])
  {
  }

  lemma ExampleStates()
    ensures var ops := ExampleRun();
            && StateAt(EMPTY, ops, 0) == EMPTY && StateAt(EMPTY, ops, 1) == ExampleState(0, 100)
            && StateAt(EMPTY, ops, 2) == ExampleState(100, 100) && StateAt(EMPTY, ops, 3) == ExampleState(100, 130)
            && StateAt(EMPTY, ops, 4) == ExampleState(101, 130)
            && StateAt(EMPTY, ops, 5) == Apply(ExampleState(101, 130), Create(Pc, "d", LaterSession(), 30)).0
  {
    var ops := ExampleRun();
    assert StateAt(EMPTY, ops, 0) == EMPTY;
    ExampleRunCommands();
    ExampleCreated();
    ExampleTicks(0, 100, 100);
    ExampleTouched();
    ExampleTicks(100, 1, 130);
    hide ExampleRun, Apply, StateAt, ExampleState, ExampleSession, LaterSession;
    StateNext(EMPTY, ops, 0);
    StateNext(EMPTY, ops, 1);
    StateNext(EMPTY, ops, 2);
    StateNext(EMPTY, ops, 3);
    StateNext(EMPTY, ops, 4);
  }

  /**
    A touch whose clock reading is late does break it: a session that ends at 100 is created at 0 and
    touched at 100 by a client that read 50.  At 101 its record is still there and its index entry is not,
    and the next login of the account leaves the record in place.
  */
  lemma LateTouchOutlivesIndex()
    ensures var ops := ExampleRun();
            && PlausibleRun(EMPTY, ops)
            && ReplyAt(EMPTY, ops, 2) == Found(ExampleSession(), 30)
            && Present(StateAt(EMPTY, ops, 4), SessionKey(Pc, "c"))
            && Get(StateAt(EMPTY, ops, 4).accounts, AccountKey(Pc, "a"), 101) == None
            && Present(StateAt(EMPTY, ops, 5), SessionKey(Pc, "c")) && Present(StateAt(EMPTY, ops, 5), SessionKey(Pc, "d"))
            && !Live(StateAt(EMPTY, ops, 5), SessionKey(Pc, "c"))
  {
    var ops := ExampleRun();
    ExampleRunCommands();
    ExampleStates();
    ExampleTouched();
    NextLogin();
    hide ExampleRun, Apply, StateAt, ExampleState, ExampleSession, LaterSession, Present, Live, Get;
    forall i | 0 <= i < |ops| ensures Plausible(StateAt(EMPTY, ops, i), ops[i]) {
      assert i == 0 || i == 1 || i == 2 || i == 3 || i == 4;
    }
  }

  // ---------------------------------------------------------------- a credential that is gone stays gone

  predicate Introduces(op: Op, k: SessionKey) {
    match op
    case Create(surface, credential, _, _) => k == SessionKey(surface, credential)
    case Rotate(surface, _, next, _, _, _) => k == SessionKey(surface, next)
    case _ => false
  }

  /** The operation uses credential k to authenticate somebody. */
  predicate Resolves(op: Op, k: SessionKey) {
    match op
    case Touch(surface, credential, _, _) => k == SessionKey(surface, credential)
    case Peek(surface, credential, _) => k == SessionKey(surface, credential)
    case _ => false
  }

  predicate RotatesFrom(op: Op, k: SessionKey) {
    op.Rotate? && k == SessionKey(op.surface, op.previous)
  }

  ghost predicate NotIntroduced(ops: seq<Op>, k: SessionKey, from: nat, to: nat)
    requires to <= |ops|
  {
    forall j :: from <= j < to ==> !Introduces(ops[j], k)
  }

  lemma StepIntroducesOnly(s: Keyspace, op: Op, k: SessionKey)
    requires !Introduces(op, k)
    ensures Present(Apply(s, op).0, k) ==> Present(s, k) && Apply(s, op).0.sessions[k].value == s.sessions[k].value
  {
  }

  /** Without being introduced again, a record that is there was there before with the same contents. */
  lemma {:induction false} PresentBefore(
      s: Keyspace, ops: seq<Op>, k: SessionKey, i: nat, j: nat)
    requires i <= j <= |ops| && NotIntroduced(ops, k, i, j)
    ensures Present(StateAt(s, ops, j), k) ==>
              Present(StateAt(s, ops, i), k) && StateAt(s, ops, j).sessions[k].value == StateAt(s, ops, i).sessions[k].value
    decreases j - i
  {
    if i < j {
      PresentBefore(s, ops, k, i, j - 1);
      StepIntroducesOnly(StateAt(s, ops, j - 1), ops[j - 1], k);
    }
  }

  lemma RotationRetires(s: Keyspace, op: Op, k: SessionKey)
    requires RotatesFrom(op, k) && Apply(s, op).1 == Done(true) && !Introduces(op, k)
    ensures Present(s, k) && !Present(Apply(s, op).0, k)
  {
  }

  lemma AbsentRefused(s: Keyspace, op: Op, k: SessionKey)
    requires !Present(s, k)
    ensures Resolves(op, k) ==> Apply(s, op).1 == Missing
    ensures RotatesFrom(op, k) ==> Apply(s, op).1 == Done(false)
  {
  }

  /**
    After a successful rotation the old credential neither resolves nor rotates again, in any
    interleaving, as credentials are never reused.
  */
  lemma RotatedAwayForGood(s: Keyspace, ops: seq<Op>, k: SessionKey, i: nat, j: nat)
    requires i < j < |ops| && NotIntroduced(ops, k, i, j)
    requires RotatesFrom(ops[i], k) && ReplyAt(s, ops, i) == Done(true)
    ensures Resolves(ops[j], k) ==> ReplyAt(s, ops, j) == Missing
    ensures RotatesFrom(ops[j], k) ==> ReplyAt(s, ops, j) == Done(false)
  {
    hide Apply;
    assert StateAt(s, ops, i + 1) == Apply(StateAt(s, ops, i), ops[i]).0;
    RotationRetires(StateAt(s, ops, i), ops[i], k);
    PresentBefore(s, ops, k, i + 1, j);
    AbsentRefused(StateAt(s, ops, j), ops[j], k);
  }

  /** Of any number of interleaved rotations of one credential at most one succeeds. */
  lemma AtMostOneRotation(s: Keyspace, ops: seq<Op>, k: SessionKey, i: nat, j: nat)
    requires i < |ops| && j < |ops| && NotIntroduced(ops, k, 0, |ops|)
    requires RotatesFrom(ops[i], k) && ReplyAt(s, ops, i) == Done(true)
    requires RotatesFrom(ops[j], k) && ReplyAt(s, ops, j) == Done(true)
    ensures i == j
  {
    hide Apply;
    if i < j { RotatedAwayForGood(s, ops, k, i, j); }
    if j < i { RotatedAwayForGood(s, ops, k, j, i); }
  }

  /** A successful rotation hands the account over to the next credential. */
  lemma RotationHandsOver(s: Keyspace, op: Op)
    requires Plausible(s, op) && op.Rotate? && Apply(s, op).1 == Done(true)
    ensures var after := Apply(s, op).0;
            var next := SessionKey(op.surface, op.next);
            && Present(after, next) && after.sessions[next] == Entry(op.session, s.nowMs + op.ttlMs)
            && Get(after.accounts, AccountKey(op.surface, op.session.accountId), after.nowMs) == Some(op.next)
            && Present(s, SessionKey(op.surface, op.previous))
            && forall k :: k != next && k != SessionKey(op.surface, op.previous) ==>
                 (k in after.sessions <==> k in s.sessions) && (k in s.sessions ==> after.sessions[k] == s.sessions[k])
  {
  }

  /** A login ends the account's live session on that surface; a session its index does not name is untouched. */
  lemma CreateReplaces(s: Keyspace, op: Op, k: SessionKey)
    requires Agreement(s) && Plausible(s, op) && op.Create? && Apply(s, op).1 == Done(true)
    requires k != SessionKey(op.surface, op.credential) && Live(s, k)
    ensures var a := AccountKey(op.surface, op.session.accountId);
            var after := Apply(s, op).0;
            && (IndexKey(s, k) == a ==> !Present(after, k))
            && (k.surface != op.surface || Get(s.accounts, a, s.nowMs) != Some(k.credential) ==>
                  k in after.sessions && after.sessions[k] == s.sessions[k])
            && Live(after, SessionKey(op.surface, op.credential)) == (s.nowMs < op.session.absoluteExpiresAtMs)
  {
  }

  // ---------------------------------------------------------------- logout

  /**
    A logout is a GET and, later, a compare-and-delete of what the GET saw.  Whatever runs in
    between, the delete removes at most that record and an index entry that names it.
  */
  lemma LogoutSparesOthers(s: Keyspace, op: Op)
    requires op.CompareDelete?
    ensures var k := SessionKey(op.surface, op.credential);
            var after := Apply(s, op).0;
            && (forall other :: other != k ==>
                  (other in after.sessions <==> other in s.sessions) && (other in s.sessions ==> after.sessions[other] == s.sessions[other]))
            && (forall a :: a in s.accounts && s.accounts[a].value != op.credential ==> a in after.accounts && after.accounts[a] == s.accounts[a])
            && (forall a :: a in after.accounts ==> a in s.accounts)
            && (k in s.sessions && s.sessions[k].value != op.raw ==> after == s)
  {
  }

  /** A session that logged in, or was rotated to, between the two halves of another credential's logout survives it. */
  lemma LogoutSparesNewer(s: Keyspace, ops: seq<Op>, j: nat, k: SessionKey)
    requires PlausibleRun(EMPTY, ops) && j < |ops| && ops[j].CompareDelete?
    requires k != SessionKey(ops[j].surface, ops[j].credential)
    requires Live(StateAt(EMPTY, ops, j), k)
    ensures Live(StateAt(EMPTY, ops, j + 1), k)
    ensures var after := StateAt(EMPTY, ops, j + 1);
            Get(after.accounts, IndexKey(after, k), after.nowMs) == Some(k.credential)
  {
    hide Apply;
    assert StateAt(EMPTY, ops, j + 1) == Apply(StateAt(EMPTY, ops, j), ops[j]).0;
    LogoutSparesOthers(StateAt(EMPTY, ops, j), ops[j]);
    OneLiveSession(ops, j, k);
    ClockStands(StateAt(EMPTY, ops, j), ops[j]);
    OneLiveSession(ops, j + 1, k);
  }

  lemma ClockStands(s: Keyspace, op: Op)
    ensures Apply(s, op).0.nowMs == s.nowMs + if op.Tick? then op.ms else 0
  {
  }

  lemma DeleteFinishes(s: Keyspace, op: Op, k: SessionKey)
    requires op.CompareDelete? && k == SessionKey(op.surface, op.credential)
    requires Present(s, k) ==> s.sessions[k].value == op.raw
    ensures !Present(Apply(s, op).0, k)
  {
  }

  /** After a logout, whatever came between its two commands, the credential is gone for good. */
  lemma LoggedOutForGood(s: Keyspace, ops: seq<Op>, k: SessionKey, i: nat, j: nat, n: nat)
    requires i < j < n <= |ops| && NotIntroduced(ops, k, i, n)
    requires ops[i] == Fetch(k.surface, k.credential) && ReplyAt(s, ops, i).Found?
    requires ops[j] == CompareDelete(k.surface, k.credential, ReplyAt(s, ops, i).session)
    ensures !Present(StateAt(s, ops, n), k)
    ensures n < |ops| && Resolves(ops[n], k) ==> ReplyAt(s, ops, n) == Missing
    ensures n < |ops| && RotatesFrom(ops[n], k) ==> ReplyAt(s, ops, n) == Done(false)
  {
    FetchSees(StateAt(s, ops, i), k);
    hide Apply;
    PresentBefore(s, ops, k, i, j);
    assert StateAt(s, ops, j + 1) == Apply(StateAt(s, ops, j), ops[j]).0;
    DeleteFinishes(StateAt(s, ops, j), ops[j], k);
    PresentBefore(s, ops, k, j + 1, n);
    if n < |ops| { AbsentRefused(StateAt(s, ops, n), ops[n], k); }
  }

  lemma FetchSees(s: Keyspace, k: SessionKey)
    ensures var reply := Apply(s, Fetch(k.surface, k.credential)).1;
            reply.Found? <==> Present(s, k)
    ensures var reply := Apply(s, Fetch(k.surface, k.credential)).1;
            reply.Found? ==> reply.session == s.sessions[k].value
  {
  }

  // ---------------------------------------------------------------- idle expiry

  /** No record stays longer than the idle window from now. */
  ghost predicate WithinIdle(s: Keyspace, idleMs: nat) {
    forall k :: k in s.sessions ==> s.sessions[k].expiresAtMs <= s.nowMs + idleMs
  }

  predicate UsesIdle(op: Op, idleMs: nat) {
    match op
    case Create(_, _, _, ttlMs) => ttlMs <= idleMs
    case Rotate(_, _, _, _, ttlMs, _) => ttlMs <= idleMs
    case Touch(_, _, idleTtlMs, _) => idleTtlMs <= idleMs
    case _ => true
  }

  lemma StepKeepsIdle(s: Keyspace, op: Op, idleMs: nat)
    requires WithinIdle(s, idleMs) && UsesIdle(op, idleMs)
    ensures WithinIdle(Apply(s, op).0, idleMs)
  {
  }

  lemma {:induction false} RunKeepsIdle(s: Keyspace, ops: seq<Op>, i: nat, idleMs: nat)
    requires WithinIdle(s, idleMs) && i <= |ops| && forall j :: 0 <= j < |ops| ==> UsesIdle(ops[j], idleMs)
    ensures WithinIdle(StateAt(s, ops, i), idleMs)
  {
    hide Apply, WithinIdle, UsesIdle;
    if i > 0 {
      RunKeepsIdle(s, ops, i - 1, idleMs);
      StepKeepsIdle(StateAt(s, ops, i - 1), ops[i - 1], idleMs);
    }
  }

  /** The operation neither introduces k nor extends it. */
  predicate LeavesAlone(op: Op, k: SessionKey) {
    !Introduces(op, k) && !(op.Touch? && k == SessionKey(op.surface, op.credential))
  }

  lemma StepKeepsExpiry(s: Keyspace, op: Op, k: SessionKey)
    requires LeavesAlone(op, k)
    ensures k in Apply(s, op).0.sessions ==> k in s.sessions && Apply(s, op).0.sessions[k] == s.sessions[k]
  {
  }

  lemma {:induction false} ExpiryKept(
      s: Keyspace, ops: seq<Op>, k: SessionKey, i: nat, j: nat)
    requires i <= j <= |ops| && forall m :: i <= m < j ==> LeavesAlone(ops[m], k)
    ensures k in StateAt(s, ops, j).sessions ==>
              k in StateAt(s, ops, i).sessions && StateAt(s, ops, j).sessions[k] == StateAt(s, ops, i).sessions[k]
    decreases j - i
  {
    hide Apply, LeavesAlone;
    if i < j {
      ExpiryKept(s, ops, k, i, j - 1);
      StepKeepsExpiry(StateAt(s, ops, j - 1), ops[j - 1], k);
    }
  }

  /** A credential nobody used for longer than the idle window no longer resolves. */
  lemma IdleSessionEnds(ops: seq<Op>, k: SessionKey, i: nat, j: nat, idleMs: nat)
    requires i <= j <= |ops| && (forall m :: 0 <= m < |ops| ==> UsesIdle(ops[m], idleMs))
    requires forall m :: i <= m < j ==> LeavesAlone(ops[m], k)
    requires StateAt(EMPTY, ops, j).nowMs > StateAt(EMPTY, ops, i).nowMs + idleMs
    ensures !Present(StateAt(EMPTY, ops, j), k)
    ensures j < |ops| && Resolves(ops[j], k) ==> ReplyAt(EMPTY, ops, j) == Missing
  {
    RunKeepsIdle(EMPTY, ops, i, idleMs);
    hide Apply;
    ExpiryKept(EMPTY, ops, k, i, j);
    if j < |ops| { AbsentRefused(StateAt(EMPTY, ops, j), ops[j], k); }
  }
}
