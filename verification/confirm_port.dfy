/**
  Publisher confirms over one RabbitMQ channel: ConfirmPort of apps/worker/src/rabbit-adapter.ts.
*/
module ConfirmPort {
  // Between two awaits nothing else runs, so each turn is one event: a publication and the claim
  // of its confirmation, a confirm or a return from the broker, a failure, the continuation
  // of a waiter, its look at whether its message came back.  A confirmation is a promise: the first
  // settlement counts.  Back-pressure is not part of this model.

  type PublicationId = string
  type MessageId = string
  type WaiterId = nat

  datatype Operation = Operation(id: PublicationId, messageId: MessageId, claimed: bool, confirmed: bool, returned: bool)

  datatype Verdict = Delivered | Unroutable | Uncertain

  datatype Phase = Waiting | Confirmed | Ended(verdict: Verdict)

  datatype Waiter = Waiter(messageId: MessageId, claimed: PublicationId, own: PublicationId, phase: Phase)

  /**
    The port and its connection, the settled confirmations, the waiters; then what the broker has
    said so far: the publications it confirmed positively, and those it returned.
  */
  datatype Port = Port(
    open: bool,
    connected: bool,
    blocked: bool,
    operations: seq<Operation>,
    settled: map<PublicationId, bool>,
    waiters: map<WaiterId, Waiter>,
    issued: set<PublicationId>,
    acked: set<PublicationId>,
    bounced: set<PublicationId>)

  datatype Event =
    | Publish(waiter: WaiterId, id: PublicationId, messageId: MessageId)
    | Confirm(id: PublicationId, positive: bool)
    | Return(id: PublicationId)
    | Break(connection: bool)
    | Block(on: bool)
    | Resume(waiter: WaiterId)
    | TakeReturned(waiter: WaiterId)

  const CONNECTED := Port(true, true, false, [], map[], map[], {}, {}, {})

  predicate Healthy(s: Port) { s.open && s.connected && !s.blocked }

  // ---------------------------------------------------------------- finding an operation

  datatype Wanted = Unclaimed | Unreturned(id: PublicationId) | Settled(messageId: MessageId)

  predicate Matches(o: Operation, wanted: Wanted) {
    match wanted
    case Unclaimed => !o.claimed
    case Unreturned(id) => o.id == id && !o.returned
    case Settled(messageId) => o.claimed && o.confirmed && o.messageId == messageId
  }

  /** The first operation that matches, or the length of the list. */
  function Find(ops: seq<Operation>, wanted: Wanted): (r: nat)
    ensures r <= |ops|
    ensures r < |ops| ==> Matches(ops[r], wanted)
    ensures forall i :: 0 <= i < r ==> !Matches(ops[i], wanted)
  {
    if ops == [] || Matches(ops[0], wanted) then 0 else 1 + Find(ops[1..], wanted)
  }

  /** Whatever satisfies the search first is what is found. */
  lemma FindFirst(ops: seq<Operation>, wanted: Wanted, i: nat)
    requires i < |ops| && Matches(ops[i], wanted) && forall j :: 0 <= j < i ==> !Matches(ops[j], wanted)
    ensures Find(ops, wanted) == i
  {
  }

  function Without(ops: seq<Operation>, i: nat): seq<Operation>
    requires i < |ops|
  {
    ops[..i] + ops[i + 1..]
  }

  function Settle(settled: map<PublicationId, bool>, id: PublicationId, positive: bool): map<PublicationId, bool> {
    if id in settled then settled else settled[id := positive]
  }

  /** Rejects every listed operation the broker has not answered. */
  function RejectOpen(ops: seq<Operation>, settled: map<PublicationId, bool>): map<PublicationId, bool> {
    if ops == [] then settled
    else RejectOpen(ops[1..], if ops[0].confirmed then settled else Settle(settled, ops[0].id, false))
  }

  function Failed(s: Port): Port {
    if !s.open then s else s.(open := false, settled := RejectOpen(s.operations, s.settled))
  }

  // ---------------------------------------------------------------- the steps

  predicate Enabled(s: Port, e: Event) {
    match e
    case Publish(waiter, id, _) => Healthy(s) && waiter !in s.waiters && id !in s.issued && id !in s.bounced
    case Confirm(id, _) => id in s.issued
    case Resume(waiter) => waiter in s.waiters && s.waiters[waiter].phase == Waiting && s.waiters[waiter].claimed in s.settled
    case TakeReturned(waiter) => waiter in s.waiters && s.waiters[waiter].phase == Confirmed
    case _ => true
  }

  function EnterPhase(s: Port, waiter: WaiterId, phase: Phase): Port
    requires waiter in s.waiters
  {
    s.(waiters := s.waiters[waiter := s.waiters[waiter].(phase := phase)])
  }

  function Step(s: Port, e: Event): Port
    requires Enabled(s, e)
  {
    match e
    case Publish(waiter, id, messageId) => Claim(Listed(s, id, messageId), waiter, id, messageId)
    case Confirm(id, positive) => Answered(s, id, positive)
    case Return(id) => Bounced(s, id)
    case Break(connection) => Failed(s.(connected := s.connected && !connection))
    case Block(on) => s.(blocked := on)
    case Resume(waiter) => Resumed(s, waiter)
    case TakeReturned(waiter) => Taken(s, waiter)
  }

  function Listed(s: Port, id: PublicationId, messageId: MessageId): Port {
    s.(operations := s.operations + [Operation(id, messageId, false, false, false)], issued := s.issued + {id})
  }

  function Claim(s: Port, waiter: WaiterId, own: PublicationId, messageId: MessageId): Port {
    var i := Find(s.operations, Unclaimed);
    if i == |s.operations| then s.(waiters := s.waiters[waiter := Waiter(messageId, own, own, Ended(Uncertain))])
    else
      s.(operations := s.operations[i := s.operations[i].(claimed := true)],
         waiters := s.waiters[waiter := Waiter(messageId, s.operations[i].id, own, Waiting)])
  }

  /** The broker's answer reaches the operation whether or not it is still listed. */
  function Answered(s: Port, id: PublicationId, positive: bool): Port {
    s.(operations := MarkConfirmed(s.operations, id),
       settled := Settle(s.settled, id, positive),
       acked := if positive then s.acked + {id} else s.acked)
  }

  function MarkConfirmed(ops: seq<Operation>, id: PublicationId): (r: seq<Operation>)
    ensures |r| == |ops|
    ensures forall i :: 0 <= i < |ops| ==> r[i] == if ops[i].id == id then ops[i].(confirmed := true) else ops[i]
  {
    if ops == [] then [] else [if ops[0].id == id then ops[0].(confirmed := true) else ops[0]] + MarkConfirmed(ops[1..], id)
  }

  function Bounced(s: Port, id: PublicationId): Port {
    var i := Find(s.operations, Unreturned(id));
    var t := s.(bounced := s.bounced + {id});
    if i == |s.operations| then Failed(t) else t.(operations := s.operations[i := s.operations[i].(returned := true)])
  }

  function Resumed(s: Port, waiter: WaiterId): Port
    requires waiter in s.waiters && s.waiters[waiter].claimed in s.settled
  {
    var w := s.waiters[waiter];
    if s.settled[w.claimed] then EnterPhase(s, waiter, if Healthy(s) then Confirmed else Ended(Uncertain))
    else
      var i := IndexOf(s.operations, w.claimed);
      EnterPhase(if i < |s.operations| then s.(operations := Without(s.operations, i)) else s, waiter, Ended(Uncertain))
  }

  function IndexOf(ops: seq<Operation>, id: PublicationId): (r: nat)
    ensures r <= |ops|
    ensures r < |ops| ==> ops[r].id == id
    ensures forall i :: 0 <= i < r ==> ops[i].id != id
  {
    if ops == [] || ops[0].id == id then 0 else 1 + IndexOf(ops[1..], id)
  }

  function Taken(s: Port, waiter: WaiterId): Port
    requires waiter in s.waiters
  {
    var i := Find(s.operations, Settled(s.waiters[waiter].messageId));
    if i == |s.operations| then EnterPhase(s, waiter, Ended(Uncertain))
    else
      EnterPhase(s.(operations := Without(s.operations, i)), waiter, Ended(if s.operations[i].returned then Unroutable else Delivered))
  }

  // ---------------------------------------------------------------- the invariant of every run

  /** What the flags of a listed operation mean. */
  predicate OperationSound(s: Port, o: Operation) {
    && o.claimed && o.id in s.issued
    && (o.returned <==> o.id in s.bounced)
    && (o.confirmed ==> o.id in s.settled)
    && (o.id in s.settled ==> o.confirmed || (!s.open && !s.settled[o.id]))
    && (!s.open ==> o.id in s.settled)
  }

  ghost predicate DistinctIds(ops: seq<Operation>) {
    forall i, j :: 0 <= i < j < |ops| ==> ops[i].id != ops[j].id
  }

  ghost predicate ListSound(s: Port) {
    DistinctIds(s.operations) && forall i :: 0 <= i < |s.operations| ==> OperationSound(s, s.operations[i])
  }

  ghost predicate SettledSound(s: Port) {
    forall id :: id in s.settled ==> id in s.issued && (s.settled[id] ==> id in s.acked)
  }

  predicate IsListed(ops: seq<Operation>, id: PublicationId) { exists i :: 0 <= i < |ops| && ops[i].id == id }

  /** A waiter waits for its own publication, which is listed under its message or already settled. */
  ghost predicate WaiterSound(s: Port, w: Waiter) {
    && w.claimed == w.own && w.own in s.issued
    && (w.phase == Waiting ==> IsListed(s.operations, w.own) || w.own in s.settled)
    && (w.phase == Confirmed ==> w.own in s.settled && s.settled[w.own])
    && (forall i :: 0 <= i < |s.operations| && s.operations[i].id == w.own ==> s.operations[i].messageId == w.messageId)
  }

  ghost predicate WaitersSound(s: Port) {
    && (forall w :: w in s.waiters ==> WaiterSound(s, s.waiters[w]))
    && (forall v, w :: v in s.waiters && w in s.waiters && v != w ==> s.waiters[v].own != s.waiters[w].own)
  }

  ghost predicate Sound(s: Port) { ListSound(s) && SettledSound(s) && WaitersSound(s) }

  lemma {:induction false} FindLast(ops: seq<Operation>, last: Operation, wanted: Wanted)
    requires Matches(last, wanted) && forall i :: 0 <= i < |ops| ==> !Matches(ops[i], wanted)
    ensures Find(ops + [last], wanted) == |ops|
  {
    assert forall i :: 0 <= i < |ops| ==> (ops + [last])[i] == ops[i];
    var r := Find(ops + [last], wanted);
    assert (ops + [last])[|ops|] == last;
  }

  function Published(s: Port, e: Event): Port
    requires e.Publish?
  {
    s.(operations := s.operations + [Operation(e.id, e.messageId, true, false, false)],
       issued := s.issued + {e.id},
       waiters := s.waiters[e.waiter := Waiter(e.messageId, e.id, e.id, Waiting)])
  }

  /** With every listed operation claimed, a publication claims its own confirmation in the same turn. */
  lemma PublishClaimsOwn(s: Port, e: Event)
    requires ListSound(s) && Enabled(s, e) && e.Publish?
    ensures Step(s, e) == Published(s, e)
  {
    var o := Operation(e.id, e.messageId, false, false, false);
    forall i | 0 <= i < |s.operations| ensures !Matches(s.operations[i], Unclaimed) {
      assert OperationSound(s, s.operations[i]);
    }
    FindLast(s.operations, o, Unclaimed);
    assert (s.operations + [o])[|s.operations| := o.(claimed := true)] == s.operations + [o.(claimed := true)];
  }

  lemma PublishKeepsList(s: Port, e: Event)
    requires ListSound(s) && SettledSound(s) && Enabled(s, e) && e.Publish?
    ensures ListSound(Published(s, e))
  {
    var t := Published(s, e);
    forall i | 0 <= i < |t.operations| ensures OperationSound(t, t.operations[i]) {
      if i < |s.operations| { assert OperationSound(s, s.operations[i]); }
    }
    forall i, j | 0 <= i < j < |t.operations| ensures t.operations[i].id != t.operations[j].id {
      assert OperationSound(s, s.operations[i]);
    }
  }

  lemma ListedAppend(ops: seq<Operation>, more: seq<Operation>, id: PublicationId)
    requires IsListed(ops, id)
    ensures IsListed(ops + more, id)
  {
    var i :| 0 <= i < |ops| && ops[i].id == id;
    assert (ops + more)[i] == ops[i];
  }

  lemma PublishKeepsWaiter(s: Port, e: Event, w: WaiterId)
    requires ListSound(s) && WaitersSound(s) && Enabled(s, e) && e.Publish? && w in Published(s, e).waiters
    ensures WaiterSound(Published(s, e), Published(s, e).waiters[w])
  {
    var t := Published(s, e);
    if w == e.waiter {
      assert t.operations[|s.operations|].id == e.id;
      forall i | 0 <= i < |s.operations| ensures s.operations[i].id != e.id {
        assert OperationSound(s, s.operations[i]);
      }
    } else {
      var o := s.waiters[w];
      assert WaiterSound(s, o);
      if IsListed(s.operations, o.own) { ListedAppend(s.operations, [t.operations[|s.operations|]], o.own); }
    }
  }

  lemma PublishKeepsSound(s: Port, e: Event)
    requires Sound(s) && Enabled(s, e) && e.Publish?
    ensures Sound(Step(s, e))
  {
    PublishClaimsOwn(s, e);
    PublishKeepsList(s, e);
    var t := Published(s, e);
    forall w | w in t.waiters ensures WaiterSound(t, t.waiters[w]) {
      PublishKeepsWaiter(s, e, w);
    }
    forall w | w in s.waiters ensures s.waiters[w].own != e.id {
      assert WaiterSound(s, s.waiters[w]);
    }
    hide Step, ListSound, WaiterSound;
  }

  /** The same operations in the same places, but for their flags, and nothing unsettled. */
  ghost predicate SamePlaces(s: Port, t: Port) {
    && |t.operations| == |s.operations|
    && (forall i :: 0 <= i < |s.operations| ==>
          t.operations[i].id == s.operations[i].id && t.operations[i].messageId == s.operations[i].messageId)
    && (forall id :: id in s.settled ==> id in t.settled && t.settled[id] == s.settled[id])
    && t.waiters == s.waiters && t.issued == s.issued
  }

  lemma SamePlacesListed(s: Port, t: Port, id: PublicationId)
    requires SamePlaces(s, t)
    ensures IsListed(s.operations, id) <==> IsListed(t.operations, id)
  {
    if IsListed(s.operations, id) {
      var i :| 0 <= i < |s.operations| && s.operations[i].id == id;
      assert t.operations[i].id == id;
    }
    if IsListed(t.operations, id) {
      var i :| 0 <= i < |t.operations| && t.operations[i].id == id;
      assert s.operations[i].id == id;
    }
  }

  lemma SamePlacesKeep(s: Port, t: Port)
    requires WaitersSound(s) && SamePlaces(s, t)
    ensures WaitersSound(t)
  {
    forall w | w in t.waiters ensures WaiterSound(t, t.waiters[w]) {
      assert WaiterSound(s, s.waiters[w]);
      SamePlacesListed(s, t, s.waiters[w].own);
    }
  }

  lemma SamePlacesDistinct(s: Port, t: Port)
    requires DistinctIds(s.operations) && SamePlaces(s, t)
    ensures DistinctIds(t.operations)
  {
  }

  lemma ConfirmKeepsPlaces(s: Port, e: Event)
    requires e.Confirm?
    ensures SamePlaces(s, Answered(s, e.id, e.positive))
  {
  }

  lemma ConfirmKeepsSound(s: Port, e: Event)
    requires Sound(s) && Enabled(s, e) && e.Confirm?
    ensures Sound(Step(s, e))
  {
    var t := Step(s, e);
    ConfirmKeepsPlaces(s, e);
    SamePlacesKeep(s, t);
    SamePlacesDistinct(s, t);
    hide WaitersSound, DistinctIds, SamePlaces;
    forall i | 0 <= i < |t.operations| ensures OperationSound(t, t.operations[i]) {
      assert OperationSound(s, s.operations[i]);
    }
    hide OperationSound, MarkConfirmed;
  }

  lemma {:induction false} RejectOpenFacts(
      ops: seq<Operation>, settled: map<PublicationId, bool>)
    ensures var r := RejectOpen(ops, settled);
            && (forall id :: id in settled ==> id in r && r[id] == settled[id])
            && (forall id :: id in r && id !in settled ==> !r[id] && IsListed(ops, id))
            && (forall i :: 0 <= i < |ops| && !ops[i].confirmed ==> ops[i].id in r)
  {
    if ops != [] {
      var next := if ops[0].confirmed then settled else Settle(settled, ops[0].id, false);
      RejectOpenFacts(ops[1..], next);
      var r := RejectOpen(ops, settled);
      assert r == RejectOpen(ops[1..], next);
      hide RejectOpen;
      forall id | id in r && id !in settled ensures !r[id] && IsListed(ops, id) {
        if id in next {
          assert ops[0].id == id;
        } else {
          var i :| 0 <= i < |ops[1..]| && ops[1..][i].id == id;
          assert ops[i + 1].id == id;
        }
      }
      forall i | 0 <= i < |ops| && !ops[i].confirmed ensures ops[i].id in r {
        if i > 0 {
          assert ops[i] == ops[1..][i - 1];
        } else {
          assert ops[0].id in next;
        }
      }
    }
  }

  lemma FailedKeepsPlaces(s: Port)
    ensures SamePlaces(s, Failed(s))
  {
    RejectOpenFacts(s.operations, s.settled);
    hide RejectOpen;
  }

  lemma FailedKeepsSound(s: Port)
    requires Sound(s)
    ensures Sound(Failed(s))
  {
    var t := Failed(s);
    FailedKeepsPlaces(s);
    SamePlacesKeep(s, t);
    RejectOpenFacts(s.operations, s.settled);
    hide WaitersSound, RejectOpen, DistinctIds;
    forall i | 0 <= i < |t.operations| ensures OperationSound(t, t.operations[i]) {
      assert OperationSound(s, s.operations[i]);
    }
    forall id | id in t.settled ensures id in t.issued && (t.settled[id] ==> id in t.acked) {
      if id !in s.settled {
        var i :| 0 <= i < |s.operations| && s.operations[i].id == id;
        assert OperationSound(s, s.operations[i]);
      }
    }
  }

  lemma BounceKeepsPlaces(s: Port, id: PublicationId)
    ensures SamePlaces(s, Bounced(s, id))
  {
    FailedKeepsPlaces(s.(bounced := s.bounced + {id}));
    hide Failed;
  }

  lemma BounceKeepsSound(s: Port, e: Event)
    requires Sound(s) && Enabled(s, e) && e.Return?
    ensures Sound(Step(s, e))
  {
    var i := Find(s.operations, Unreturned(e.id));
    var t := s.(bounced := s.bounced + {e.id});
    if i == |s.operations| {
      forall j | 0 <= j < |t.operations| ensures OperationSound(t, t.operations[j]) {
        assert OperationSound(s, s.operations[j]) && !Matches(s.operations[j], Unreturned(e.id));
      }
      SamePlacesKeep(s, t);
      FailedKeepsSound(t);
    } else {
      BounceFound(s, e, i);
    }
    hide ListSound, SettledSound, WaitersSound;
  }

  lemma BounceFound(s: Port, e: Event, i: nat)
    requires Sound(s) && e.Return? && i == Find(s.operations, Unreturned(e.id)) && i < |s.operations|
    ensures Sound(Step(s, e))
  {
    var t := Step(s, e);
    BounceKeepsPlaces(s, e.id);
    SamePlacesKeep(s, t);
    SamePlacesDistinct(s, t);
    hide WaitersSound, SamePlaces, Failed;
    forall j | 0 <= j < |t.operations| ensures OperationSound(t, t.operations[j]) {
      assert OperationSound(s, s.operations[j]);
      assert s.operations[i].id == e.id;
      assert j != i ==> s.operations[j].id != e.id;
    }
  }

  /** Operations before the gap keep their places, the others move up by one. */
  lemma WithoutFacts(ops: seq<Operation>, i: nat)
    requires i < |ops|
    ensures |Without(ops, i)| == |ops| - 1
    ensures forall j :: 0 <= j < |ops| - 1 ==> Without(ops, i)[j] == ops[if j < i then j else j + 1]
  {
  }

  lemma WithoutKeeps(ops: seq<Operation>, i: nat, id: PublicationId)
    requires i < |ops| && IsListed(ops, id) && ops[i].id != id
    ensures IsListed(Without(ops, i), id)
  {
    var j :| 0 <= j < |ops| && ops[j].id == id;
    assert Without(ops, i)[if j < i then j else j - 1] == ops[j];
  }

  /** Taking a settled operation off the list, as its waiter or another one ends. */
  function Removed(s: Port, i: nat, w: WaiterId, verdict: Verdict): Port
    requires i < |s.operations| && w in s.waiters
  {
    EnterPhase(s.(operations := Without(s.operations, i)), w, Ended(verdict))
  }

  lemma RemovalKeepsList(s: Port, i: nat, w: WaiterId, verdict: Verdict)
    requires ListSound(s) && i < |s.operations| && w in s.waiters
    ensures ListSound(Removed(s, i, w, verdict))
  {
    var t := Removed(s, i, w, verdict);
    WithoutFacts(s.operations, i);
    hide Without;
    forall j | 0 <= j < |t.operations| ensures OperationSound(t, t.operations[j]) {
      assert OperationSound(s, s.operations[if j < i then j else j + 1]);
    }
  }

  lemma RemovalKeepsSound(s: Port, i: nat, w: WaiterId, verdict: Verdict)
    requires Sound(s) && i < |s.operations| && w in s.waiters && s.operations[i].id in s.settled
    ensures Sound(Removed(s, i, w, verdict))
  {
    var t := Removed(s, i, w, verdict);
    RemovalKeepsList(s, i, w, verdict);
    WithoutFacts(s.operations, i);
    hide ListSound;
    forall v | v in t.waiters ensures WaiterSound(t, t.waiters[v]) {
      var o := s.waiters[v];
      assert WaiterSound(s, o);
      if IsListed(s.operations, o.own) && s.operations[i].id != o.own { WithoutKeeps(s.operations, i, o.own); }
      hide Without, IsListed;
    }
    hide WaiterSound, Without;
  }

  lemma PhaseKeepsSound(s: Port, w: WaiterId, phase: Phase)
    requires Sound(s) && w in s.waiters && phase != Waiting
    requires phase == Confirmed ==> s.waiters[w].own in s.settled && s.settled[s.waiters[w].own]
    ensures Sound(EnterPhase(s, w, phase))
  {
    var t := EnterPhase(s, w, phase);
    forall i | 0 <= i < |t.operations| ensures OperationSound(t, t.operations[i]) {
      assert OperationSound(s, s.operations[i]);
    }
    hide OperationSound, IsListed;
    forall v | v in t.waiters ensures WaiterSound(t, t.waiters[v]) {
      assert WaiterSound(s, s.waiters[v]);
    }
  }

  lemma ResumeKeepsSound(s: Port, e: Event)
    requires Sound(s) && Enabled(s, e) && e.Resume?
    ensures Sound(Step(s, e))
  {
    var w := s.waiters[e.waiter];
    assert WaiterSound(s, w);
    var i := IndexOf(s.operations, w.claimed);
    if s.settled[w.claimed] {
      PhaseKeepsSound(s, e.waiter, if Healthy(s) then Confirmed else Ended(Uncertain));
    } else if i < |s.operations| {
      RemovalKeepsSound(s, i, e.waiter, Uncertain);
    } else {
      PhaseKeepsSound(s, e.waiter, Ended(Uncertain));
    }
    hide Sound, EnterPhase;
  }

  lemma TakeKeepsSound(s: Port, e: Event)
    requires Sound(s) && Enabled(s, e) && e.TakeReturned?
    ensures Sound(Step(s, e))
  {
    var i := Find(s.operations, Settled(s.waiters[e.waiter].messageId));
    if i < |s.operations| {
      assert OperationSound(s, s.operations[i]);
      RemovalKeepsSound(s, i, e.waiter, if s.operations[i].returned then Unroutable else Delivered);
    } else {
      PhaseKeepsSound(s, e.waiter, Ended(Uncertain));
    }
    hide Sound, EnterPhase;
  }

  /** Health alone says nothing about the list. */
  lemma HealthKeepsSound(s: Port, connected: bool, blocked: bool)
    requires Sound(s)
    ensures Sound(s.(connected := connected, blocked := blocked))
  {
    var t := s.(connected := connected, blocked := blocked);
    SamePlacesKeep(s, t);
    forall i | 0 <= i < |t.operations| ensures OperationSound(t, t.operations[i]) {
      assert OperationSound(s, s.operations[i]);
    }
    hide WaitersSound;
  }

  lemma StepKeepsSound(s: Port, e: Event)
    requires Sound(s) && Enabled(s, e)
    ensures Sound(Step(s, e))
  {
    hide Sound, Enabled, Listed, Claim, Answered, Bounced, Failed, Resumed, Taken;
    match e
    case Publish(_, _, _) => PublishKeepsSound(s, e);
    case Confirm(_, _) => ConfirmKeepsSound(s, e);
    case Return(_) => BounceKeepsSound(s, e);
    case Break(connection) =>
      HealthKeepsSound(s, s.connected && !connection, s.blocked);
      FailedKeepsSound(s.(connected := s.connected && !connection));
    case Block(on) => HealthKeepsSound(s, s.connected, on);
    case Resume(_) => ResumeKeepsSound(s, e);
    case TakeReturned(_) => TakeKeepsSound(s, e);
  }

  // ---------------------------------------------------------------- one message at a time

  predicate OfMessage(ops: seq<Operation>, i: int, messageId: MessageId) { 0 <= i < |ops| && ops[i].messageId == messageId }

  ghost predicate MessageListed(s: Port, messageId: MessageId) { exists i :: OfMessage(s.operations, i, messageId) }

  /** Nobody publishes this message while it is still listed. */
  ghost predicate Respects(s: Port, e: Event, messageId: MessageId) {
    e.Publish? && e.messageId == messageId ==> !MessageListed(s, messageId)
  }

  /** The waiter's confirmation has not been rejected, so it may come to take an operation. */
  predicate Hopes(s: Port, w: Waiter) {
    !w.phase.Ended? && (w.own in s.settled ==> s.settled[w.own])
  }

  /** At most one operation of the message is listed, and whoever may come to take one has its own listed. */
  ghost predicate Sole(s: Port, messageId: MessageId) {
    && (forall i, j :: OfMessage(s.operations, i, messageId) && OfMessage(s.operations, j, messageId) ==> i == j)
    && (forall w :: w in s.waiters && s.waiters[w].messageId == messageId && Hopes(s, s.waiters[w]) ==>
          IsListed(s.operations, s.waiters[w].own))
  }

  lemma PublishKeepsSole(s: Port, e: Event, messageId: MessageId)
    requires Sound(s) && Enabled(s, e) && e.Publish? && Sole(s, messageId) && Respects(s, e, messageId)
    ensures Sole(Published(s, e), messageId)
  {
    var t := Published(s, e);
    forall i, j | OfMessage(t.operations, i, messageId) && OfMessage(t.operations, j, messageId) ensures i == j {
      assert i < |s.operations| ==> OfMessage(s.operations, i, messageId);
      assert j < |s.operations| ==> OfMessage(s.operations, j, messageId);
    }
    forall w | w in t.waiters && t.waiters[w].messageId == messageId && Hopes(t, t.waiters[w]) ensures IsListed(t.operations, t.waiters[w].own) {
      if w == e.waiter {
        assert t.operations[|s.operations|].id == e.id;
      } else {
        ListedAppend(s.operations, [t.operations[|s.operations|]], s.waiters[w].own);
      }
    }
  }

  lemma SamePlacesSole(s: Port, t: Port, messageId: MessageId)
    requires SamePlaces(s, t) && Sole(s, messageId)
    ensures Sole(t, messageId)
  {
    assert forall i :: OfMessage(t.operations, i, messageId) ==> OfMessage(s.operations, i, messageId);
    forall w | w in t.waiters && t.waiters[w].messageId == messageId && Hopes(t, t.waiters[w]) ensures IsListed(t.operations, t.waiters[w].own) {
      assert Hopes(s, s.waiters[w]);
      SamePlacesListed(s, t, s.waiters[w].own);
    }
  }

  lemma PhaseKeepsSole(s: Port, w: WaiterId, phase: Phase, messageId: MessageId)
    requires Sole(s, messageId) && w in s.waiters && !s.waiters[w].phase.Ended?
    ensures Sole(EnterPhase(s, w, phase), messageId)
  {
    var t := EnterPhase(s, w, phase);
    forall v | v in t.waiters && t.waiters[v].messageId == messageId && Hopes(t, t.waiters[v]) ensures IsListed(t.operations, t.waiters[v].own) {
      assert Hopes(s, s.waiters[v]);
    }
  }

  lemma RemovalKeepsSole(
      s: Port, i: nat, w: WaiterId, verdict: Verdict, messageId: MessageId)
    requires Sole(s, messageId) && i < |s.operations| && w in s.waiters
    requires forall v :: v in s.waiters && v != w && s.waiters[v].messageId == messageId && Hopes(s, s.waiters[v]) ==>
               s.waiters[v].own != s.operations[i].id
    ensures Sole(Removed(s, i, w, verdict), messageId)
  {
    var t := Removed(s, i, w, verdict);
    WithoutFacts(s.operations, i);
    assert forall j :: OfMessage(t.operations, j, messageId) ==> OfMessage(s.operations, if j < i then j else j + 1, messageId);
    forall v | v in t.waiters && t.waiters[v].messageId == messageId && Hopes(t, t.waiters[v]) ensures IsListed(t.operations, t.waiters[v].own) {
      assert v != w && Hopes(s, s.waiters[v]);
      WithoutKeeps(s.operations, i, s.waiters[v].own);
    }
    hide Without, Hopes, IsListed;
  }

  lemma ResumeKeepsSole(s: Port, e: Event, messageId: MessageId)
    requires Sound(s) && Enabled(s, e) && e.Resume? && Sole(s, messageId)
    ensures Sole(Step(s, e), messageId)
  {
    var w := s.waiters[e.waiter];
    assert WaiterSound(s, w);
    var i := IndexOf(s.operations, w.claimed);
    if s.settled[w.claimed] {
      PhaseKeepsSole(s, e.waiter, if Healthy(s) then Confirmed else Ended(Uncertain), messageId);
    } else if i < |s.operations| {
      RemovalKeepsSole(s, i, e.waiter, Uncertain, messageId);
    } else {
      PhaseKeepsSole(s, e.waiter, Ended(Uncertain), messageId);
    }
    hide Sole, EnterPhase, WaiterSound;
  }

  /** Where a message has at most one operation, a confirmed waiter of it finds its own. */
  lemma ConfirmedFindsOwn(s: Port, w: WaiterId)
    requires Sound(s) && w in s.waiters && s.waiters[w].phase == Confirmed && Sole(s, s.waiters[w].messageId)
    ensures var i := Find(s.operations, Settled(s.waiters[w].messageId));
            i < |s.operations| && s.operations[i].id == s.waiters[w].own && OperationSound(s, s.operations[i])
  {
    var waiter := s.waiters[w];
    assert WaiterSound(s, waiter) && Hopes(s, waiter);
    var i :| 0 <= i < |s.operations| && s.operations[i].id == waiter.own;
    assert OperationSound(s, s.operations[i]) && OfMessage(s.operations, i, waiter.messageId);
    forall j | 0 <= j < i ensures !Matches(s.operations[j], Settled(waiter.messageId)) {
      assert !OfMessage(s.operations, j, waiter.messageId);
    }
    FindFirst(s.operations, Settled(waiter.messageId), i);
  }

  lemma TakeKeepsSole(s: Port, e: Event, messageId: MessageId)
    requires Sound(s) && Enabled(s, e) && e.TakeReturned? && Sole(s, messageId)
    ensures Sole(Step(s, e), messageId)
  {
    var w := s.waiters[e.waiter];
    var i := Find(s.operations, Settled(w.messageId));
    if i == |s.operations| {
      PhaseKeepsSole(s, e.waiter, Ended(Uncertain), messageId);
    } else {
      if w.messageId == messageId { ConfirmedFindsOwn(s, e.waiter); }
      forall v | v in s.waiters && v != e.waiter && s.waiters[v].messageId == messageId ensures s.waiters[v].own != s.operations[i].id {
        assert WaiterSound(s, s.waiters[v]);
      }
      RemovalKeepsSole(s, i, e.waiter, if s.operations[i].returned then Unroutable else Delivered, messageId);
    }
    hide Sole, EnterPhase;
  }

  lemma StepKeepsSole(s: Port, e: Event, messageId: MessageId)
    requires Sound(s) && Enabled(s, e) && Sole(s, messageId) && Respects(s, e, messageId)
    ensures Sole(Step(s, e), messageId)
  {
    if e.Publish? { PublishClaimsOwn(s, e); PublishKeepsSole(s, e, messageId); }
    if e.Confirm? { ConfirmKeepsPlaces(s, e); SamePlacesSole(s, Step(s, e), messageId); }
    if e.Return? { BounceKeepsPlaces(s, e.id); SamePlacesSole(s, Step(s, e), messageId); }
    if e.Break? {
      FailedKeepsPlaces(s.(connected := s.connected && !e.connection));
      assert SamePlaces(s, Step(s, e)) by { hide Failed; }
      SamePlacesSole(s, Step(s, e), messageId);
    }
    if e.Block? { SamePlacesSole(s, Step(s, e), messageId); }
    if e.Resume? { ResumeKeepsSole(s, e, messageId); }
    if e.TakeReturned? { TakeKeepsSole(s, e, messageId); }
    hide Step, Sole, Sound, Enabled;
  }

  // ---------------------------------------------------------------- runs

  ghost predicate Run(states: seq<Port>, events: seq<Event>) {
    && |states| == |events| + 1
    && states[0] == CONNECTED
    && forall i :: 0 <= i < |events| ==> Enabled(states[i], events[i]) && states[i + 1] == Step(states[i], events[i])
  }

  /** No event of the run publishes the message while it is listed. */
  ghost predicate Reserved(states: seq<Port>, events: seq<Event>, messageId: MessageId)
    requires |states| == |events| + 1
  {
    forall i :: 0 <= i < |events| ==> Respects(states[i], events[i], messageId)
  }

  lemma {:induction false} RunSound(states: seq<Port>, events: seq<Event>, i: nat)
    requires Run(states, events) && i <= |events|
    ensures Sound(states[i])
  {
    hide Step, Enabled;
    if i > 0 {
      hide Sound;
      RunSound(states, events, i - 1);
      StepKeepsSound(states[i - 1], events[i - 1]);
    }
  }

  lemma {:induction false} RunSole(
      states: seq<Port>, events: seq<Event>, i: nat, messageId: MessageId)
    requires Run(states, events) && Reserved(states, events, messageId) && i <= |events|
    ensures Sole(states[i], messageId)
  {
    hide Step, Enabled, Respects;
    if i > 0 {
      hide Sole, Sound;
      RunSole(states, events, i - 1, messageId);
      RunSound(states, events, i - 1);
      StepKeepsSole(states[i - 1], events[i - 1], messageId);
    }
  }

  /** In every run each waiter waits for the confirmation of its own publication, and shares it with nobody. */
  lemma WaitersGetTheirOwn(
      states: seq<Port>, events: seq<Event>, i: nat, v: WaiterId, w: WaiterId)
    requires Run(states, events) && i <= |events|
    requires v in states[i].waiters && w in states[i].waiters
    ensures states[i].waiters[w].claimed == states[i].waiters[w].own
    ensures states[i].waiters[v].claimed == states[i].waiters[w].claimed ==> v == w
  {
    RunSound(states, events, i);
    assert WaiterSound(states[i], states[i].waiters[v]) && WaiterSound(states[i], states[i].waiters[w]);
  }

  /** Once the port of any run has failed nobody is left waiting for an answer that will not come. */
  lemma NobodyStranded(states: seq<Port>, events: seq<Event>, i: nat, w: WaiterId)
    requires Run(states, events) && i <= |events| && !states[i].open
    requires w in states[i].waiters && states[i].waiters[w].phase == Waiting
    ensures Enabled(states[i], Resume(w))
  {
    RunSound(states, events, i);
    var s, waiter := states[i], states[i].waiters[w];
    assert WaiterSound(s, waiter);
    if IsListed(s.operations, waiter.own) {
      var k :| 0 <= k < |s.operations| && s.operations[k].id == waiter.own;
      assert OperationSound(s, s.operations[k]);
    }
  }

  /**
    Where its message was never published while listed, a waiter that gets as far as asking takes its own
    operation off the list; it is told its message was delivered exactly when the broker, having confirmed
    that publication, has not returned it.
  */
  lemma VerdictIsEarned(states: seq<Port>, events: seq<Event>, i: nat)
    requires Run(states, events) && i < |events| && events[i].TakeReturned?
    requires events[i].waiter in states[i].waiters && Reserved(states, events, states[i].waiters[events[i].waiter].messageId)
    ensures var w := events[i].waiter;
            var own := states[i].waiters[w].own;
            var at := Find(states[i].operations, Settled(states[i].waiters[w].messageId));
            && w in states[i + 1].waiters && own in states[i].acked
            && states[i + 1].waiters[w].phase == Ended(if own in states[i].bounced then Unroutable else Delivered)
            && at < |states[i].operations| && states[i].operations[at].id == own
            && states[i + 1].operations == Without(states[i].operations, at)
  {
    var w := events[i].waiter;
    RunSound(states, events, i);
    RunSole(states, events, i, states[i].waiters[w].messageId);
    ConfirmedFindsOwn(states[i], w);
    assert WaiterSound(states[i], states[i].waiters[w]);
  }

  ghost predicate Earned(states: seq<Port>, events: seq<Event>, i: nat, w: WaiterId)
    requires |states| == |events| + 1 && i < |events|
  {
    && events[i] == TakeReturned(w) && w in states[i].waiters
    && states[i].waiters[w].own in states[i].acked && states[i].waiters[w].own !in states[i].bounced
  }

  lemma BrokerLeavesWaiters(s: Port, e: Event)
    requires Enabled(s, e) && !e.Publish? && !e.Resume? && !e.TakeReturned?
    ensures Step(s, e).waiters == s.waiters
  {
  }

  lemma TurnEndsOwn(s: Port, e: Event, w: WaiterId)
    requires Enabled(s, e) && (e.Publish? || e.Resume? || e.TakeReturned?)
    ensures w != e.waiter ==> (w in Step(s, e).waiters <==> w in s.waiters) && (w in s.waiters ==> Step(s, e).waiters[w] == s.waiters[w])
    ensures e.waiter in Step(s, e).waiters && (e.Publish? <==> e.waiter !in s.waiters)
    ensures !e.Publish? ==> Step(s, e).waiters[e.waiter].messageId == s.waiters[e.waiter].messageId
    ensures !e.Publish? ==> Step(s, e).waiters[e.waiter].own == s.waiters[e.waiter].own
    ensures !e.TakeReturned? ==> Step(s, e).waiters[e.waiter].phase != Ended(Delivered)
  {
  }

  lemma EndStays(s: Port, e: Event, w: WaiterId)
    requires Enabled(s, e) && w in Step(s, e).waiters && Step(s, e).waiters[w].phase == Ended(Delivered)
    ensures w in s.waiters && Step(s, e).waiters[w].messageId == s.waiters[w].messageId
    ensures e == TakeReturned(w) || s.waiters[w].phase == Ended(Delivered)
  {
    hide Step, Enabled;
    if e.Publish? || e.Resume? || e.TakeReturned? {
      TurnEndsOwn(s, e, w);
    } else {
      BrokerLeavesWaiters(s, e);
    }
  }

  /** In every order of confirms, returns and closes: whoever was told of a delivery was told so by the broker. */
  lemma {:induction false} DeliveredWasEarned(
      states: seq<Port>, events: seq<Event>, j: nat, w: WaiterId)
    requires Run(states, events) && j <= |events|
    requires w in states[j].waiters && states[j].waiters[w].phase == Ended(Delivered)
    requires Reserved(states, events, states[j].waiters[w].messageId)
    ensures exists i :: 0 <= i < j && Earned(states, events, i, w)
  {
    hide Step, Enabled;
    assert j > 0;
    EndStays(states[j - 1], events[j - 1], w);
    if events[j - 1] == TakeReturned(w) {
      VerdictIsEarned(states, events, j - 1);
      assert Earned(states, events, j - 1, w);
    } else {
      DeliveredWasEarned(states, events, j - 1, w);
    }
  }

  // ---------------------------------------------------------------- the port itself

  /** The port and its connection, changed in place turn by turn. */
  class RabbitConfirmPort {
    var open: bool
    var connected: bool
    var blocked: bool
    var operations: seq<Operation>
    var settled: map<PublicationId, bool>
    var waiters: map<WaiterId, Waiter>
    ghost var issued: set<PublicationId>
    ghost var acked: set<PublicationId>
    ghost var bounced: set<PublicationId>

    ghost function View(): Port
      reads this
    {
      Port(open, connected, blocked, operations, settled, waiters, issued, acked, bounced)
    }

    constructor ()
      ensures View() == CONNECTED
    {
      open, connected, blocked, operations := true, true, false, [];
      settled, waiters, issued, acked, bounced := map[], map[], {}, {}, {};
    }

    method Fail()
      modifies this`open, this`settled
      ensures View() == Failed(old(View()))
    {
      if !open {
        return;
      }
      open := false;
      var i := 0;
      assert operations[0..] == operations;
      while i < |operations|
        invariant 0 <= i <= |operations| && !open
        invariant RejectOpen(operations[i..], settled) == RejectOpen(operations, old(settled))
        modifies this`settled
      {
        assert operations[i..][1..] == operations[i + 1..];
        if !operations[i].confirmed {
          settled := Settle(settled, operations[i].id, false);
        }
        i := i + 1;
      }
    }

    method OnConnectionLost(connection: bool)
      modifies this`open, this`settled, this`connected
      ensures View() == Step(old(View()), Break(connection))
    {
      connected := connected && !connection;
      Fail();
    }

    method OnBlocked(on: bool)
      modifies this`blocked
      ensures View() == Step(old(View()), Block(on))
    {
      blocked := on;
    }

    method OnReturn(id: PublicationId)
      modifies this`open, this`settled, this`operations, this`bounced
      ensures View() == Step(old(View()), Return(id))
    {
      var i := Find(operations, Unreturned(id));
      bounced := bounced + {id};
      if i == |operations| {
        Fail();
      } else {
        operations := operations[i := operations[i].(returned := true)];
      }
    }

    method OnConfirm(id: PublicationId, positive: bool)
      requires id in issued
      modifies this`operations, this`settled, this`acked
      ensures View() == Step(old(View()), Confirm(id, positive))
    {
      operations := MarkConfirmed(operations, id);
      settled := Settle(settled, id, positive);
      if positive {
        acked := acked + {id};
      }
    }

    /** Publishes and claims in one turn; an unhealthy port refuses and nothing changes. */
    method PublishAndClaim(waiter: WaiterId, id: PublicationId, messageId: MessageId) returns (accepted: bool)
      requires waiter !in waiters && id !in issued && id !in bounced
      modifies this`operations, this`waiters, this`issued
      ensures accepted <==> old(open) && old(connected) && !old(blocked)
      ensures View() == if accepted then Step(old(View()), Publish(waiter, id, messageId)) else old(View())
    {
      if !open || !connected || blocked {
        return false;
      }
      operations := operations + [Operation(id, messageId, false, false, false)];
      issued := issued + {id};
      var i := Find(operations, Unclaimed);
      if i == |operations| {
        waiters := waiters[waiter := Waiter(messageId, id, id, Ended(Uncertain))];
      } else {
        waiters := waiters[waiter := Waiter(messageId, operations[i].id, id, Waiting)];
        operations := operations[i := operations[i].(claimed := true)];
      }
      return true;
    }

    method ResumeConfirms(waiter: WaiterId)
      requires Enabled(View(), Resume(waiter))
      modifies this`operations, this`waiters
      ensures View() == Step(old(View()), Resume(waiter))
    {
      var w := waiters[waiter];
      if settled[w.claimed] {
        waiters := waiters[waiter := w.(phase := if open && connected && !blocked then Confirmed else Ended(Uncertain))];
        return;
      }
      var i := IndexOf(operations, w.claimed);
      if i < |operations| {
        operations := operations[..i] + operations[i + 1..];
      }
      waiters := waiters[waiter := w.(phase := Ended(Uncertain))];
    }

    method TakeReturned(waiter: WaiterId) returns (verdict: Verdict)
      requires Enabled(View(), Event.TakeReturned(waiter))
      modifies this`operations, this`waiters
      ensures View() == Step(old(View()), Event.TakeReturned(waiter))
      ensures View().waiters[waiter].phase == Ended(verdict)
    {
      var i := Find(operations, Settled(waiters[waiter].messageId));
      if i == |operations| {
        verdict := Uncertain;
      } else {
        verdict := if operations[i].returned then Unroutable else Delivered;
        operations := operations[..i] + operations[i + 1..];
      }
      waiters := waiters[waiter := waiters[waiter].(phase := Ended(verdict))];
    }
  }
}
