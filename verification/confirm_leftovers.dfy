/**
  When a publication the broker returned is reported delivered, in the ConfirmPort of
  apps/worker/src/rabbit-adapter.ts.

  Its waiter must take an operation of the same message that was not returned.  Such an operation is out of its
  reach only behind abandoned ones: listed operations whose waiter has ended.  A waiter of the message whose own
  operation is not ahead can take one of those away.
*/
module ConfirmLeftovers {
  import opened Basics
  import opened ConfirmPort
  import opened ConfirmContention

  // ---------------------------------------------------------------- what stands ahead of an operation

  /** The publications of the message listed before this one. */
  ghost function Ahead(ops: seq<Operation>, id: PublicationId, m: MessageId): set<PublicationId> {
    set i | 0 <= i < IndexOf(ops, id) && OfMessage(ops, i, m) :: ops[i].id
  }

  /** Somebody has not ended and waits for, or will come to take an operation because of, this publication. */
  predicate Live(s: Port, id: PublicationId) {
    exists v :: v in s.waiters && s.waiters[v].own == id && !s.waiters[v].phase.Ended?
  }

  ghost function Abandoned(s: Port, id: PublicationId, m: MessageId): set<PublicationId> {
    set o | o in Ahead(s.operations, id, m) && !Live(s, o)
  }

  /** The waiters of the message that may come to take an operation, and have none of their own ahead. */
  ghost function Free(s: Port, id: PublicationId, m: MessageId): set<WaiterId> {
    set v | v in s.waiters && s.waiters[v].messageId == m && Hopes(s, s.waiters[v])
            && s.waiters[v].own !in Ahead(s.operations, id, m)
  }

  /** A listed operation of the message that the broker has not returned. */
  predicate Deliverable(s: Port, j: int, m: MessageId) { OfMessage(s.operations, j, m) && !s.operations[j].returned }

  /** Every abandoned operation ahead of it can be taken away. */
  ghost predicate Passable(s: Port, id: PublicationId, m: MessageId) {
    |Abandoned(s, id, m)| <= |Free(s, id, m)|
  }

  // ---------------------------------------------------------------- no abandoned operation is unconfirmed

  predicate Attended(s: Port, o: Operation) {
    o.confirmed || exists v :: v in s.waiters && s.waiters[v].own == o.id && s.waiters[v].phase == Waiting
  }

  ghost predicate AllAttended(s: Port) { forall i :: 0 <= i < |s.operations| ==> Attended(s, s.operations[i]) }

  lemma PublishKeepsAttended(s: Port, e: Event)
    requires AllAttended(s) && Enabled(s, e) && e.Publish?
    ensures AllAttended(Published(s, e))
  {
    var t := Published(s, e);
    forall i | 0 <= i < |t.operations| ensures Attended(t, t.operations[i]) {
      if i < |s.operations| {
        assert Attended(s, s.operations[i]);
        if !s.operations[i].confirmed {
          var v :| v in s.waiters && s.waiters[v].own == s.operations[i].id && s.waiters[v].phase == Waiting;
          assert t.waiters[v] == s.waiters[v];
        }
      } else {
        assert t.waiters[e.waiter].own == e.id;
      }
    }
  }

  /** The same operations in the same places, none of them unconfirmed again. */
  lemma PlacesKeepAttended(s: Port, t: Port)
    requires AllAttended(s) && SamePlaces(s, t)
    requires forall i :: 0 <= i < |s.operations| && s.operations[i].confirmed ==> t.operations[i].confirmed
    ensures AllAttended(t)
  {
    forall i | 0 <= i < |t.operations| ensures Attended(t, t.operations[i]) {
      assert Attended(s, s.operations[i]);
    }
  }

  lemma PhaseKeepsAttended(s: Port, w: WaiterId, phase: Phase)
    requires AllAttended(s) && w in s.waiters
    requires s.waiters[w].phase == Waiting ==> forall i :: 0 <= i < |s.operations| && s.operations[i].id == s.waiters[w].own ==> s.operations[i].confirmed
    ensures AllAttended(EnterPhase(s, w, phase))
  {
    var t := EnterPhase(s, w, phase);
    forall i | 0 <= i < |t.operations| ensures Attended(t, t.operations[i]) {
      assert Attended(s, s.operations[i]);
      if !s.operations[i].confirmed {
        var v :| v in s.waiters && s.waiters[v].own == s.operations[i].id && s.waiters[v].phase == Waiting;
        assert t.waiters[v] == s.waiters[v];
      }
    }
  }

  lemma RemovalKeepsAttended(s: Port, i: nat, w: WaiterId, verdict: Verdict)
    requires AllAttended(s) && DistinctIds(s.operations) && i < |s.operations| && w in s.waiters
    requires s.waiters[w].phase == Waiting ==> s.operations[i].id == s.waiters[w].own
    ensures AllAttended(Removed(s, i, w, verdict))
  {
    var t := Removed(s, i, w, verdict);
    WithoutFacts(s.operations, i);
    hide Without;
    forall k | 0 <= k < |t.operations| ensures Attended(t, t.operations[k]) {
      var j := if k < i then k else k + 1;
      assert Attended(s, s.operations[j]);
      if !s.operations[j].confirmed {
        var v :| v in s.waiters && s.waiters[v].own == s.operations[j].id && s.waiters[v].phase == Waiting;
        assert t.waiters[v] == s.waiters[v];
      }
    }
  }

  lemma ResumeKeepsAttended(s: Port, e: Event)
    requires Sound(s) && AllAttended(s) && Enabled(s, e) && e.Resume?
    ensures AllAttended(Step(s, e))
  {
    var w := s.waiters[e.waiter];
    assert WaiterSound(s, w);
    var i := IndexOf(s.operations, w.claimed);
    if s.settled[w.claimed] {
      forall k | 0 <= k < |s.operations| && s.operations[k].id == w.own ensures s.operations[k].confirmed {
        assert OperationSound(s, s.operations[k]);
      }
      PhaseKeepsAttended(s, e.waiter, if Healthy(s) then Confirmed else Ended(Uncertain));
    } else if i < |s.operations| {
      RemovalKeepsAttended(s, i, e.waiter, Uncertain);
    } else {
      PhaseKeepsAttended(s, e.waiter, Ended(Uncertain));
    }
    hide AllAttended, Sound, EnterPhase;
  }

  lemma TakeKeepsAttended(s: Port, e: Event)
    requires Sound(s) && AllAttended(s) && Enabled(s, e) && e.TakeReturned?
    ensures AllAttended(Step(s, e))
  {
    var i := Find(s.operations, Settled(s.waiters[e.waiter].messageId));
    if i < |s.operations| {
      RemovalKeepsAttended(s, i, e.waiter, if s.operations[i].returned then Unroutable else Delivered);
    } else {
      PhaseKeepsAttended(s, e.waiter, Ended(Uncertain));
    }
    hide AllAttended, EnterPhase;
  }

  lemma BounceKeepsConfirmed(s: Port, id: PublicationId)
    ensures |Bounced(s, id).operations| == |s.operations|
    ensures forall i :: 0 <= i < |s.operations| ==> Bounced(s, id).operations[i].confirmed == s.operations[i].confirmed
    ensures forall i :: 0 <= i < |s.operations| && s.operations[i].returned ==> Bounced(s, id).operations[i].returned
  {
  }

  lemma StepKeepsAttended(s: Port, e: Event)
    requires Sound(s) && AllAttended(s) && Enabled(s, e)
    ensures AllAttended(Step(s, e))
  {
    if e.Publish? { PublishClaimsOwn(s, e); PublishKeepsAttended(s, e); }
    if e.Confirm? { ConfirmKeepsPlaces(s, e); PlacesKeepAttended(s, Step(s, e)); }
    if e.Return? { BounceKeepsPlaces(s, e.id); BounceKeepsConfirmed(s, e.id); PlacesKeepAttended(s, Step(s, e)); }
    if e.Break? {
      FailedKeepsPlaces(s.(connected := s.connected && !e.connection));
      assert SamePlaces(s, Step(s, e)) by { hide Failed; }
      PlacesKeepAttended(s, Step(s, e));
    }
    if e.Block? { PlacesKeepAttended(s, Step(s, e)); }
    if e.Resume? { ResumeKeepsAttended(s, e); }
    if e.TakeReturned? { TakeKeepsAttended(s, e); }
    hide Step, AllAttended, Sound, Enabled;
  }

  lemma {:induction false} RunAttended(states: seq<Port>, events: seq<Event>, i: nat)
    requires Run(states, events) && i <= |events|
    ensures AllAttended(states[i])
  {
    hide Step, Enabled;
    if i > 0 {
      hide AllAttended, Sound;
      RunAttended(states, events, i - 1);
      RunSound(states, events, i - 1);
      StepKeepsAttended(states[i - 1], events[i - 1]);
    }
  }

  // ---------------------------------------------------------------- what a turn does to the places ahead

  lemma SamePlacesAhead(s: Port, t: Port, id: PublicationId, m: MessageId)
    requires SamePlaces(s, t)
    ensures Ahead(t.operations, id, m) == Ahead(s.operations, id, m)
  {
    var i, j := IndexOf(s.operations, id), IndexOf(t.operations, id);
    assert i < |s.operations| ==> t.operations[i].id == id;
    assert j < |t.operations| ==> s.operations[j].id == id;
    assert i == j;
    assert forall k :: OfMessage(t.operations, k, m) <==> OfMessage(s.operations, k, m);
  }

  lemma AppendAhead(ops: seq<Operation>, last: Operation, id: PublicationId, m: MessageId)
    requires IsListed(ops, id)
    ensures Ahead(ops + [last], id, m) == Ahead(ops, id, m)
  {
    var more := ops + [last];
    assert forall k :: 0 <= k < |ops| ==> more[k] == ops[k];
    assert IndexOf(more, id) == IndexOf(ops, id);
    assert forall k :: 0 <= k < |ops| ==> (OfMessage(more, k, m) <==> OfMessage(ops, k, m));
  }

  lemma RemovalIndex(ops: seq<Operation>, i: nat, id: PublicationId)
    requires i < |ops| && ops[i].id != id && IsListed(ops, id)
    ensures IndexOf(Without(ops, i), id) == if i < IndexOf(ops, id) then IndexOf(ops, id) - 1 else IndexOf(ops, id)
  {
    var now := Without(ops, i);
    WithoutFacts(ops, i);
    hide Without;
    var q := IndexOf(ops, id);
    var r := if i < q then q - 1 else q;
    assert now[r].id == id;
    forall k | 0 <= k < r ensures now[k].id != id { assert now[k] == ops[if k < i then k else k + 1]; }
  }

  lemma PlaceAhead(
      ops: seq<Operation>, o: PublicationId, id: PublicationId, m: MessageId) returns (k: nat)
    requires o in Ahead(ops, id, m)
    ensures k < IndexOf(ops, id) && OfMessage(ops, k, m) && ops[k].id == o
  {
    k :| 0 <= k < IndexOf(ops, id) && OfMessage(ops, k, m) && ops[k].id == o;
  }

  lemma RemovalAheadKept(
      ops: seq<Operation>, i: nat, id: PublicationId, m: MessageId, o: PublicationId)
    requires i < |ops| && ops[i].id != id && IsListed(ops, id) && o in Ahead(ops, id, m) && o != ops[i].id
    ensures o in Ahead(Without(ops, i), id, m)
  {
    var now := Without(ops, i);
    RemovalIndex(ops, i, id);
    var j := PlaceAhead(ops, o, id, m);
    var k := if j < i then j else j - 1;
    assert now[k] == ops[j];
    hide Without, IndexOf;
    assert OfMessage(now, k, m) && now[k].id == o;
  }

  lemma RemovalAheadOnly(
      ops: seq<Operation>, i: nat, id: PublicationId, m: MessageId, o: PublicationId)
    requires DistinctIds(ops) && i < |ops| && ops[i].id != id && IsListed(ops, id) && o in Ahead(Without(ops, i), id, m)
    ensures o in Ahead(ops, id, m) && o != ops[i].id
  {
    var now := Without(ops, i);
    RemovalIndex(ops, i, id);
    var k := PlaceAhead(now, o, id, m);
    var j := if k < i then k else k + 1;
    assert ops[j] == now[k];
    hide Without, IndexOf;
    assert OfMessage(ops, j, m) && ops[j].id == o;
  }

  lemma RemovalAhead(ops: seq<Operation>, i: nat, id: PublicationId, m: MessageId)
    requires DistinctIds(ops) && i < |ops| && ops[i].id != id && IsListed(ops, id)
    ensures Ahead(Without(ops, i), id, m) == Ahead(ops, id, m) - {ops[i].id}
  {
    hide Ahead;
    forall o | o in Ahead(Without(ops, i), id, m) ensures o in Ahead(ops, id, m) - {ops[i].id} {
      RemovalAheadOnly(ops, i, id, m, o);
    }
    forall o | o in Ahead(ops, id, m) - {ops[i].id} ensures o in Ahead(Without(ops, i), id, m) {
      RemovalAheadKept(ops, i, id, m, o);
    }
  }

  // ---------------------------------------------------------------- out of reach stays out of reach

  /** Leaving the waiter w aside, more abandoned operations are ahead than others can take away. */
  ghost predicate Blocked(s: Port, id: PublicationId, m: MessageId, w: WaiterId) {
    |Abandoned(s, id, m)| > |Free(s, id, m) - {w}|
  }

  lemma StillBlocked(s: Port, t: Port, id: PublicationId, m: MessageId, w: WaiterId)
    requires Blocked(s, id, m, w)
    requires Abandoned(s, id, m) <= Abandoned(t, id, m) && Free(t, id, m) - {w} <= Free(s, id, m)
    ensures Blocked(t, id, m, w)
  {
    SubsetSize(Abandoned(s, id, m), Abandoned(t, id, m));
    SubsetSize(Free(t, id, m) - {w}, Free(s, id, m) - {w});
  }

  lemma PublishKeepsBlocked(
      s: Port, e: Event, id: PublicationId, m: MessageId, w: WaiterId)
    requires Sound(s) && Enabled(s, e) && e.Publish? && IsListed(s.operations, id) && Blocked(s, id, m, w)
    requires e.messageId == m ==> e.waiter == w
    ensures Blocked(Published(s, e), id, m, w)
  {
    var t := Published(s, e);
    AppendAhead(s.operations, t.operations[|s.operations|], id, m);
    forall o | o in Ahead(s.operations, id, m) ensures Live(t, o) ==> Live(s, o) {
      var k := PlaceAhead(s.operations, o, id, m);
      assert OperationSound(s, s.operations[k]);
      PublishedLive(s, e, o);
    }
    hide Ahead, Sound, Live, IsListed;
    StillBlocked(s, t, id, m, w);
  }

  lemma PublishedLive(s: Port, e: Event, o: PublicationId)
    requires Enabled(s, e) && e.Publish? && o != e.id
    ensures Live(Published(s, e), o) ==> Live(s, o)
  {
    if Live(Published(s, e), o) {
      var v :| v in Published(s, e).waiters && Published(s, e).waiters[v].own == o && !Published(s, e).waiters[v].phase.Ended?;
      assert s.waiters[v].own == o;
    }
  }

  lemma PlacesKeepBlocked(s: Port, t: Port, id: PublicationId, m: MessageId, w: WaiterId)
    requires SamePlaces(s, t) && Blocked(s, id, m, w)
    ensures Blocked(t, id, m, w)
  {
    SamePlacesAhead(s, t, id, m);
    hide Ahead;
    StillBlocked(s, t, id, m, w);
  }

  lemma PhaseKeepsBlocked(
      s: Port, v: WaiterId, phase: Phase, id: PublicationId, m: MessageId, w: WaiterId)
    requires v in s.waiters && !s.waiters[v].phase.Ended? && Blocked(s, id, m, w)
    ensures Blocked(EnterPhase(s, v, phase), id, m, w)
  {
    hide Ahead;
    StillBlocked(s, EnterPhase(s, v, phase), id, m, w);
  }

  ghost function Owners(s: Port, id: PublicationId): set<WaiterId> {
    set u | u in s.waiters && s.waiters[u].own == id && !s.waiters[u].phase.Ended?
  }

  lemma OneOwner(s: Port, id: PublicationId)
    requires WaitersSound(s)
    ensures |Owners(s, id)| <= 1 && (Owners(s, id) == {} <==> !Live(s, id))
  {
    if u :| u in Owners(s, id) {
      assert Owners(s, id) == {u};
      assert Live(s, id);
    }
    if Live(s, id) {
      var u :| u in s.waiters && s.waiters[u].own == id && !s.waiters[u].phase.Ended?;
      assert u in Owners(s, id);
    }
  }

  /** A waiter that ends leaves its own publication, and no other, without a live waiter. */
  lemma EndedLive(s: Port, i: nat, v: WaiterId, verdict: Verdict, o: PublicationId)
    requires WaitersSound(s) && i < |s.operations| && v in s.waiters && !s.waiters[v].phase.Ended?
    ensures Live(Removed(s, i, v, verdict), o) <==> Live(s, o) && o != s.waiters[v].own
  {
    var t := Removed(s, i, v, verdict);
    if Live(s, o) && o != s.waiters[v].own {
      var u :| u in s.waiters && s.waiters[u].own == o && !s.waiters[u].phase.Ended?;
      assert t.waiters[u] == s.waiters[u];
    }
  }

  /** A waiter that takes its own operation away opens no way. */
  lemma OwnRemovalKeepsBlocked(
      s: Port, i: nat, v: WaiterId, verdict: Verdict, id: PublicationId, m: MessageId, w: WaiterId)
    requires Sound(s) && i < |s.operations| && v in s.waiters && !s.waiters[v].phase.Ended? && s.operations[i].id == s.waiters[v].own
    requires IsListed(s.operations, id) && s.operations[i].id != id && Blocked(s, id, m, w)
    ensures Blocked(Removed(s, i, v, verdict), id, m, w)
  {
    var t := Removed(s, i, v, verdict);
    RemovalAhead(s.operations, i, id, m);
    forall o { EndedLive(s, i, v, verdict, o); }
    assert Live(s, s.operations[i].id);
    hide Ahead, Without, ListSound, SettledSound, WaiterSound, Live, IsListed;
    StillBlocked(s, t, id, m, w);
  }

  /** Nor does taking an operation of another message. */
  lemma OtherRemovalKeepsBlocked(
      s: Port, i: nat, v: WaiterId, verdict: Verdict, id: PublicationId, m: MessageId, w: WaiterId)
    requires Sound(s) && i < |s.operations| && v in s.waiters && !s.waiters[v].phase.Ended? && s.operations[i].messageId != m
    requires IsListed(s.operations, id) && s.operations[i].id != id && Blocked(s, id, m, w)
    ensures Blocked(Removed(s, i, v, verdict), id, m, w)
  {
    var t := Removed(s, i, v, verdict);
    RemovalAhead(s.operations, i, id, m);
    assert s.operations[i].id !in Ahead(s.operations, id, m);
    hide Ahead, Without, Sound;
    StillBlocked(s, t, id, m, w);
  }

  lemma TakenAbandoned(
      s: Port, i: nat, v: WaiterId, verdict: Verdict, id: PublicationId, m: MessageId)
    requires Sound(s) && i < |s.operations| && v in s.waiters && !s.waiters[v].phase.Ended? && s.operations[i].id != s.waiters[v].own
    requires IsListed(s.operations, id) && s.operations[i].id != id
    ensures var t, own := Removed(s, i, v, verdict), s.waiters[v].own;
            && own !in Abandoned(s, id, m)
            && Abandoned(t, id, m) == Abandoned(s, id, m) - {s.operations[i].id} + if own in Ahead(s.operations, id, m) then {own} else {}
  {
    RemovalAhead(s.operations, i, id, m);
    forall o { EndedLive(s, i, v, verdict, o); }
    assert Live(s, s.waiters[v].own);
    hide Ahead, Without, Sound, Live;
  }

  lemma TakenFree(
      s: Port, i: nat, v: WaiterId, verdict: Verdict, id: PublicationId, m: MessageId)
    requires Sound(s) && i < |s.operations| && v in s.waiters
    requires IsListed(s.operations, id) && s.operations[i].id != id
    ensures Free(Removed(s, i, v, verdict), id, m) <= Free(s, id, m) - {v} + Owners(s, s.operations[i].id)
  {
    RemovalAhead(s.operations, i, id, m);
    hide Ahead, Without, Sound;
  }

  /** A waiter that takes an operation ahead either gives up its own place ahead or was one of the few that could. */
  lemma TakingKeepsBlocked(
      s: Port, i: nat, v: WaiterId, verdict: Verdict, id: PublicationId, m: MessageId, w: WaiterId)
    requires Sound(s) && i < |s.operations| && v in s.waiters && v != w && Hopes(s, s.waiters[v]) && s.waiters[v].messageId == m
    requires s.operations[i].id != s.waiters[v].own && s.operations[i].id in Ahead(s.operations, id, m)
    requires IsListed(s.operations, id) && s.operations[i].id != id && Blocked(s, id, m, w)
    ensures Blocked(Removed(s, i, v, verdict), id, m, w)
  {
    var t, o := Removed(s, i, v, verdict), s.operations[i].id;
    TakenAbandoned(s, i, v, verdict, id, m);
    TakenFree(s, i, v, verdict, id, m);
    OneOwner(s, o);
    assert o in Abandoned(s, id, m) <==> Owners(s, o) == {};
    assert v in Free(s, id, m) <==> s.waiters[v].own !in Ahead(s.operations, id, m);
    hide Abandoned, Free, Ahead, Sound, Removed, Owners;
    var lost := Abandoned(s, id, m) - {o};
    SubsetSize(Free(t, id, m) - {w}, Free(s, id, m) - {w} - {v} + Owners(s, o));
  }

  predicate IsDeliverable(s: Port, id: PublicationId, m: MessageId) {
    exists j :: 0 <= j < |s.operations| && Deliverable(s, j, m) && s.operations[j].id == id
  }

  /** Every operation of the message that was not returned, the waiter's own aside, is out of its reach. */
  ghost predicate Stuck(s: Port, m: MessageId, w: WaiterId, own: PublicationId) {
    forall id :: IsDeliverable(s, id, m) && id != own ==> Blocked(s, id, m, w)
  }

  lemma DeliverableListed(s: Port, id: PublicationId, m: MessageId)
    requires IsDeliverable(s, id, m)
    ensures IsListed(s.operations, id)
  {
  }

  lemma PublishKeepsStuck(
      s: Port, e: Event, m: MessageId, w: WaiterId, own: PublicationId)
    requires Sound(s) && Enabled(s, e) && e.Publish? && Stuck(s, m, w, own)
    requires e.messageId == m ==> e.waiter == w && e.id == own
    ensures Stuck(Published(s, e), m, w, own)
  {
    var t := Published(s, e);
    forall id | IsDeliverable(t, id, m) && id != own ensures Blocked(t, id, m, w) {
      var j :| 0 <= j < |t.operations| && Deliverable(t, j, m) && t.operations[j].id == id;
      assert Deliverable(s, j, m);
      PublishKeepsBlocked(s, e, id, m, w);
    }
  }

  lemma PlacesKeepStuck(s: Port, t: Port, m: MessageId, w: WaiterId, own: PublicationId)
    requires SamePlaces(s, t) && Stuck(s, m, w, own)
    requires forall i :: 0 <= i < |s.operations| && s.operations[i].returned ==> t.operations[i].returned
    ensures Stuck(t, m, w, own)
  {
    forall id | IsDeliverable(t, id, m) && id != own ensures Blocked(t, id, m, w) {
      var j :| 0 <= j < |t.operations| && Deliverable(t, j, m) && t.operations[j].id == id;
      assert Deliverable(s, j, m);
      PlacesKeepBlocked(s, t, id, m, w);
    }
  }

  lemma PhaseKeepsStuck(
      s: Port, v: WaiterId, phase: Phase, m: MessageId, w: WaiterId, own: PublicationId)
    requires v in s.waiters && !s.waiters[v].phase.Ended? && Stuck(s, m, w, own)
    ensures Stuck(EnterPhase(s, v, phase), m, w, own)
  {
    var t := EnterPhase(s, v, phase);
    forall id | IsDeliverable(t, id, m) && id != own ensures Blocked(t, id, m, w) {
      var j :| 0 <= j < |t.operations| && Deliverable(t, j, m) && t.operations[j].id == id;
      assert Deliverable(s, j, m);
      PhaseKeepsBlocked(s, v, phase, id, m, w);
    }
  }

  lemma RemovedDeliverable(
      s: Port, i: nat, v: WaiterId, verdict: Verdict, id: PublicationId, m: MessageId)
    requires DistinctIds(s.operations) && i < |s.operations| && v in s.waiters && IsDeliverable(Removed(s, i, v, verdict), id, m)
    ensures IsDeliverable(s, id, m) && IsListed(s.operations, id) && s.operations[i].id != id
  {
    var t := Removed(s, i, v, verdict);
    WithoutFacts(s.operations, i);
    hide Without;
    var j :| 0 <= j < |t.operations| && Deliverable(t, j, m) && t.operations[j].id == id;
    assert Deliverable(s, if j < i then j else j + 1, m);
  }

  /** A rejected waiter takes its own operation away. */
  lemma RejectionKeepsStuck(
      s: Port, i: nat, v: WaiterId, m: MessageId, w: WaiterId, own: PublicationId)
    requires Sound(s) && i < |s.operations| && v in s.waiters && !s.waiters[v].phase.Ended? && s.operations[i].id == s.waiters[v].own
    requires Stuck(s, m, w, own)
    ensures Stuck(Removed(s, i, v, Uncertain), m, w, own)
  {
    var t := Removed(s, i, v, Uncertain);
    forall id | IsDeliverable(t, id, m) && id != own ensures Blocked(t, id, m, w) {
      RemovedDeliverable(s, i, v, Uncertain, id, m);
      OwnRemovalKeepsBlocked(s, i, v, Uncertain, id, m, w);
    }
  }

  /** The first confirmed operation of the message is ahead of whatever abandoned ones are ahead of. */
  lemma FirstIsAhead(s: Port, id: PublicationId, m: MessageId)
    requires ListSound(s) && AllAttended(s) && Abandoned(s, id, m) != {}
    ensures var i := Find(s.operations, Settled(m)); i < |s.operations| && s.operations[i].id in Ahead(s.operations, id, m)
  {
    var o :| o in Abandoned(s, id, m);
    var k := PlaceAhead(s.operations, o, id, m);
    assert OperationSound(s, s.operations[k]) && Attended(s, s.operations[k]);
    var i := Find(s.operations, Settled(m));
    assert Matches(s.operations[k], Settled(m));
    assert OfMessage(s.operations, i, m);
  }

  lemma TakeKeepsStuck(s: Port, e: Event, m: MessageId, w: WaiterId, own: PublicationId)
    requires Sound(s) && AllAttended(s) && Enabled(s, e) && e.TakeReturned? && e.waiter != w && Stuck(s, m, w, own)
    ensures Stuck(Step(s, e), m, w, own)
  {
    var v := s.waiters[e.waiter];
    assert WaiterSound(s, v) && Hopes(s, v);
    var i := Find(s.operations, Settled(v.messageId));
    if i == |s.operations| {
      PhaseKeepsStuck(s, e.waiter, Ended(Uncertain), m, w, own);
    } else {
      TakingKeepsStuck(s, i, e.waiter, if s.operations[i].returned then Unroutable else Delivered, m, w, own);
    }
    hide Stuck, EnterPhase, Sound, WaiterSound, AllAttended;
  }

  lemma TakingKeepsStuck(
      s: Port, i: nat, v: WaiterId, verdict: Verdict, m: MessageId, w: WaiterId, own: PublicationId)
    requires Sound(s) && AllAttended(s) && v in s.waiters && v != w && Hopes(s, s.waiters[v]) && Stuck(s, m, w, own)
    requires i == Find(s.operations, Settled(s.waiters[v].messageId)) && i < |s.operations|
    ensures Stuck(Removed(s, i, v, verdict), m, w, own)
  {
    var t := Removed(s, i, v, verdict);
    forall id | IsDeliverable(t, id, m) && id != own ensures Blocked(t, id, m, w) {
      RemovedDeliverable(s, i, v, verdict, id, m);
      TakeKeepsBlocked(s, i, v, verdict, id, m, w);
    }
  }

  lemma TakeKeepsBlocked(
      s: Port, i: nat, v: WaiterId, verdict: Verdict, id: PublicationId, m: MessageId, w: WaiterId)
    requires Sound(s) && AllAttended(s) && v in s.waiters && v != w && Hopes(s, s.waiters[v])
    requires i == Find(s.operations, Settled(s.waiters[v].messageId)) && i < |s.operations|
    requires IsListed(s.operations, id) && s.operations[i].id != id && Blocked(s, id, m, w)
    ensures Blocked(Removed(s, i, v, verdict), id, m, w)
  {
    if s.operations[i].id == s.waiters[v].own {
      OwnRemovalKeepsBlocked(s, i, v, verdict, id, m, w);
    } else if s.waiters[v].messageId != m {
      OtherRemovalKeepsBlocked(s, i, v, verdict, id, m, w);
    } else {
      assert Abandoned(s, id, m) != {};
      FirstIsAhead(s, id, m);
      TakingKeepsBlocked(s, i, v, verdict, id, m, w);
    }
  }

  lemma ResumeKeepsStuck(s: Port, e: Event, m: MessageId, w: WaiterId, own: PublicationId)
    requires Sound(s) && Enabled(s, e) && e.Resume? && Stuck(s, m, w, own)
    ensures Stuck(Step(s, e), m, w, own)
  {
    var v := s.waiters[e.waiter];
    assert WaiterSound(s, v);
    var i := IndexOf(s.operations, v.claimed);
    if s.settled[v.claimed] {
      PhaseKeepsStuck(s, e.waiter, if Healthy(s) then Confirmed else Ended(Uncertain), m, w, own);
    } else if i < |s.operations| {
      RejectionKeepsStuck(s, i, e.waiter, m, w, own);
    } else {
      PhaseKeepsStuck(s, e.waiter, Ended(Uncertain), m, w, own);
    }
    hide Stuck, EnterPhase, Sound, WaiterSound;
  }

  lemma StepKeepsStuck(s: Port, e: Event, m: MessageId, w: WaiterId, own: PublicationId)
    requires Sound(s) && AllAttended(s) && Enabled(s, e) && Stuck(s, m, w, own)
    requires (e.Publish? && e.messageId == m ==> e.waiter == w && e.id == own) && e != TakeReturned(w)
    ensures Stuck(Step(s, e), m, w, own)
  {
    if e.Publish? { PublishClaimsOwn(s, e); PublishKeepsStuck(s, e, m, w, own); }
    if e.Confirm? { ConfirmKeepsPlaces(s, e); PlacesKeepStuck(s, Step(s, e), m, w, own); }
    if e.Return? { BounceKeepsPlaces(s, e.id); BounceKeepsConfirmed(s, e.id); PlacesKeepStuck(s, Step(s, e), m, w, own); }
    if e.Break? {
      FailedKeepsPlaces(s.(connected := s.connected && !e.connection));
      assert SamePlaces(s, Step(s, e)) by { hide Failed; }
      PlacesKeepStuck(s, Step(s, e), m, w, own);
    }
    if e.Block? { PlacesKeepStuck(s, Step(s, e), m, w, own); }
    if e.Resume? { ResumeKeepsStuck(s, e, m, w, own); }
    if e.TakeReturned? { TakeKeepsStuck(s, e, m, w, own); }
    hide Step, Stuck, Sound, AllAttended, Enabled;
  }

  // ---------------------------------------------------------------- a stuck waiter is not told of a delivery

  lemma TurnKeepsSettled(s: Port, e: Event)
    requires Enabled(s, e) && (e.Publish? || e.Resume? || e.TakeReturned?)
    ensures Step(s, e).settled == s.settled && Step(s, e).bounced == s.bounced
  {
    hide Find, IndexOf, Without, Matches, Healthy;
  }

  lemma BrokerKeepsPlaces(s: Port, e: Event)
    requires Enabled(s, e) && !e.Publish? && !e.Resume? && !e.TakeReturned?
    ensures SamePlaces(s, Step(s, e))
  {
    if e.Confirm? { ConfirmKeepsPlaces(s, e); }
    if e.Return? { BounceKeepsPlaces(s, e.id); }
    if e.Break? { FailedKeepsPlaces(s.(connected := s.connected && !e.connection)); }
    hide Failed, Bounced, Answered;
  }

  /** A waiter that may still come through has been able to all along. */
  lemma HopeWasThere(s: Port, e: Event, w: WaiterId, own: PublicationId, m: MessageId)
    requires Enabled(s, e) && IsOwn(s, w, own, m) && w in Step(s, e).waiters && Hopes(Step(s, e), Step(s, e).waiters[w])
    ensures Hopes(s, s.waiters[w])
  {
    hide Step, Enabled;
    OwnStays(s, e, w, own, m);
    if e.Publish? || e.Resume? || e.TakeReturned? { TurnKeepsSettled(s, e); } else { BrokerKeepsPlaces(s, e); }
  }

  lemma TakesEnd(s: Port, e: Event)
    requires Enabled(s, e) && e.TakeReturned?
    ensures e.waiter in Step(s, e).waiters && Step(s, e).waiters[e.waiter].phase.Ended?
  {
  }

  /** As long as the waiter may come through, its message is listed and so not published, and it stays stuck. */
  lemma {:induction false} OnwardStuck(
      s: Port, more: seq<Port>, turns: seq<Event>, w: WaiterId, id: PublicationId, m: MessageId, i: nat)
    requires Sound(s) && Enough(s, m) && AllAttended(s) && Onward(s, more, turns, w, id, m) && 1 <= i <= |turns|
    requires Stuck(more[1], m, w, id)
    ensures Sound(more[i]) && Enough(more[i], m) && AllAttended(more[i]) && IsOwn(more[i], w, id, m)
    ensures Hopes(more[i], more[i].waiters[w]) ==> Stuck(more[i], m, w, id)
  {
    hide Step, Enabled, Sound, Enough, AllAttended, Stuck;
    OnwardSound(s, more, turns, w, id, m, i);
    if i == 1 {
      StepKeepsEnough(s, turns[0], m);
      StepKeepsAttended(s, turns[0]);
    } else {
      var t, e := more[i - 1], turns[i - 1];
      OnwardStuck(s, more, turns, w, id, m, i - 1);
      StepKeepsEnough(t, e, m);
      StepKeepsAttended(t, e);
      if Hopes(more[i], more[i].waiters[w]) {
        HopeWasThere(t, e, w, id, m);
        if e.TakeReturned? { TakesEnd(t, e); }
        HopefulIsListed(t, w, id, m);
        assert e.Publish? ==> e.messageId != m by { assert Respects(t, e, m); }
        StepKeepsStuck(t, e, m, w, id);
      }
    }
  }

  lemma HopefulIsListed(s: Port, w: WaiterId, id: PublicationId, m: MessageId)
    requires Enough(s, m) && IsOwn(s, w, id, m) && Hopes(s, s.waiters[w])
    ensures MessageListed(s, m)
  {
    assert w in Takers(s, m);
    ListedTaken(s, m, w);
  }

  /** At the end of its wait a stuck waiter whose publication came back takes a returned operation or none. */
  lemma StuckNotDelivered(s: Port, m: MessageId, w: WaiterId, id: PublicationId)
    requires Sound(s) && AllAttended(s) && Stuck(s, m, w, id) && IsOwn(s, w, id, m) && id in s.bounced && s.waiters[w].phase == Confirmed
    ensures Step(s, TakeReturned(w)).waiters[w].phase != Ended(Delivered)
  {
    var i := Find(s.operations, Settled(m));
    if i < |s.operations| {
      var o := s.operations[i];
      assert OperationSound(s, o);
      if !o.returned {
        assert Deliverable(s, i, m) && IsDeliverable(s, o.id, m);
        assert Abandoned(s, o.id, m) != {};
        FirstIsAhead(s, o.id, m);
        var k := PlaceAhead(s.operations, o.id, o.id, m);
      }
    }
  }

  lemma BlockedNeverLost(
      s: Port, more: seq<Port>, turns: seq<Event>, w: WaiterId, id: PublicationId, m: MessageId)
    requires Sound(s) && Enough(s, m) && AllAttended(s)
    requires forall q :: IsDeliverable(s, q, m) ==> !Passable(s, q, m)
    ensures !Lost(s, more, turns, w, id, m)
  {
    if Lost(s, more, turns, w, id, m) {
      var e, last := turns[0], |turns| - 1;
      FreeWithout(s, w, m);
      hide Step, Enabled, Sound, Enough, AllAttended, Stuck, Passable;
      StepKeepsStuck(s, e, m, w, id);
      OnwardStuck(s, more, turns, w, id, m, last);
      ComesConfirmed(more[last], w);
      StuckNotDelivered(more[last], m, w, id);
    }
  }

  lemma FreeWithout(s: Port, w: WaiterId, m: MessageId)
    requires w !in s.waiters && forall q :: IsDeliverable(s, q, m) ==> !Passable(s, q, m)
    ensures forall own :: Stuck(s, m, w, own)
  {
    forall q ensures Free(s, q, m) - {w} == Free(s, q, m) {
    }
  }

  lemma ComesConfirmed(s: Port, w: WaiterId)
    requires Sound(s) && Enabled(s, TakeReturned(w))
    ensures w in s.waiters && s.waiters[w].phase == Confirmed && Hopes(s, s.waiters[w])
    ensures Step(s, TakeReturned(w)).bounced == s.bounced
  {
    assert WaiterSound(s, s.waiters[w]);
    TurnKeepsSettled(s, TakeReturned(w));
    hide Step;
  }
}
