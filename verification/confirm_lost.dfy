/**
  The other half of the question of confirm_leftovers.dfy: where the abandoned operations ahead of one that was not
  returned can be taken away, some order of the broker's answers and the waiters' turns does so, and a returned
  publication is reported delivered.
*/
module ConfirmLost {
  import opened Basics
  import opened ConfirmPort
  import opened ConfirmContention
  import opened ConfirmLeftovers

  /** The waiter w of the returned publication waits, and q, listed and not returned, can be brought within its reach. */
  ghost predicate Within(s: Port, q: PublicationId, w: WaiterId, id: PublicationId, m: MessageId) {
    && Sound(s) && Healthy(s)
    && w in s.waiters && s.waiters[w] == Waiter(m, id, id, Waiting)
    && IsDeliverable(s, q, m) && q != id && id !in Ahead(s.operations, q, m)
    && |Abandoned(s, q, m)| <= |Free(s, q, m) - {w}|
  }

  ghost predicate Poised(s: Port, q: PublicationId, w: WaiterId, id: PublicationId, m: MessageId) {
    Within(s, q, w, id, m) && id in s.settled && s.settled[id] && id in s.bounced
  }

  // ---------------------------------------------------------------- what keeps it within reach

  lemma StaysDeliverable(
      s: Port, t: Port, q: PublicationId, id: PublicationId, m: MessageId)
    requires ListSound(s) && ListSound(t) && SamePlaces(s, t) && t.bounced <= s.bounced + {id} && q != id && IsDeliverable(s, q, m)
    ensures IsDeliverable(t, q, m)
  {
    var j :| 0 <= j < |s.operations| && Deliverable(s, j, m) && s.operations[j].id == q;
    assert OperationSound(s, s.operations[j]) && OperationSound(t, t.operations[j]);
    assert Deliverable(t, j, m);
  }

  /** The broker confirms something, or returns the waiter's own publication. */
  lemma AnswerKeepsWithin(
      s: Port, t: Port, q: PublicationId, w: WaiterId, id: PublicationId, m: MessageId)
    requires Within(s, q, w, id, m) && Undisturbed(s, t) && t.bounced <= s.bounced + {id}
    requires forall o :: o in t.settled && o !in s.settled ==> t.settled[o]
    ensures Within(t, q, w, id, m)
    ensures Ahead(t.operations, q, m) == Ahead(s.operations, q, m)
  {
    StaysDeliverable(s, t, q, id, m);
    SamePlacesAhead(s, t, q, m);
    hide Ahead, Sound, IsDeliverable;
    assert Abandoned(t, q, m) == Abandoned(s, q, m);
    assert Free(s, q, m) <= Free(t, q, m);
    SubsetSize(Free(s, q, m) - {w}, Free(t, q, m) - {w});
  }

  lemma ThroughLive(s: Port, v: WaiterId, o: PublicationId)
    requires v in s.waiters && !s.waiters[v].phase.Ended?
    ensures Live(EnterPhase(s, v, Confirmed), o) <==> Live(s, o)
  {
    var t := EnterPhase(s, v, Confirmed);
    if Live(s, o) {
      var u :| u in s.waiters && s.waiters[u].own == o && !s.waiters[u].phase.Ended?;
      assert t.waiters[u].own == o && !t.waiters[u].phase.Ended?;
    }
  }

  lemma ThroughFree(s: Port, v: WaiterId, q: PublicationId, m: MessageId)
    requires v in s.waiters && !s.waiters[v].phase.Ended?
    ensures Free(EnterPhase(s, v, Confirmed), q, m) == Free(s, q, m)
    ensures Abandoned(EnterPhase(s, v, Confirmed), q, m) == Abandoned(s, q, m)
    ensures IsDeliverable(s, q, m) ==> IsDeliverable(EnterPhase(s, v, Confirmed), q, m)
  {
    hide Ahead, Live;
    forall o { ThroughLive(s, v, o); }
    if IsDeliverable(s, q, m) {
      var j :| 0 <= j < |s.operations| && Deliverable(s, j, m) && s.operations[j].id == q;
      assert Deliverable(EnterPhase(s, v, Confirmed), j, m);
    }
  }

  lemma ComingThroughKeepsWithin(
      s: Port, v: WaiterId, q: PublicationId, w: WaiterId, id: PublicationId, m: MessageId)
    requires Within(s, q, w, id, m) && v in s.waiters && v != w && s.waiters[v].phase == Waiting
    requires s.waiters[v].own in s.settled && s.settled[s.waiters[v].own]
    ensures Within(EnterPhase(s, v, Confirmed), q, w, id, m)
  {
    PhaseKeepsSound(s, v, Confirmed);
    ThroughFree(s, v, q, m);
    hide Ahead, Sound, Free, Abandoned, IsDeliverable;
  }

  lemma RemovalKeepsDeliverable(
      s: Port, i: nat, v: WaiterId, verdict: Verdict, q: PublicationId, m: MessageId)
    requires i < |s.operations| && v in s.waiters && IsDeliverable(s, q, m) && s.operations[i].id != q
    ensures IsDeliverable(Removed(s, i, v, verdict), q, m)
  {
    var j :| 0 <= j < |s.operations| && Deliverable(s, j, m) && s.operations[j].id == q;
    WithoutFacts(s.operations, i);
    hide Without;
    assert Deliverable(Removed(s, i, v, verdict), if j < i then j else j - 1, m);
  }

  lemma RemovalKeepsWithin(
      s: Port, i: nat, v: WaiterId, verdict: Verdict, q: PublicationId, w: WaiterId, id: PublicationId, m: MessageId)
    requires Within(s, q, w, id, m) && i < |s.operations| && v in s.waiters && v != w
    requires s.operations[i].id != q && s.operations[i].id in s.settled
    requires var t := Removed(s, i, v, verdict);
             |Abandoned(t, q, m)| - |Free(t, q, m) - {w}| <= |Abandoned(s, q, m)| - |Free(s, q, m) - {w}|
    ensures Within(Removed(s, i, v, verdict), q, w, id, m)
  {
    var t := Removed(s, i, v, verdict);
    RemovalKeepsSound(s, i, v, verdict);
    RemovalKeepsDeliverable(s, i, v, verdict, q, m);
    assert id !in Ahead(t.operations, q, m) by { RemovalAhead(s.operations, i, q, m); hide Ahead, Without, Free, Abandoned; }
    assert Healthy(t) && w in t.waiters && t.waiters[w] == s.waiters[w];
    hide Ahead, Without, Sound, Free, Abandoned, Removed, IsDeliverable;
  }

  lemma OwnTakenFree(
      s: Port, i: nat, v: WaiterId, verdict: Verdict, q: PublicationId, m: MessageId)
    requires WaitersSound(s) && DistinctIds(s.operations) && i < |s.operations| && v in s.waiters
    requires s.operations[i].id == s.waiters[v].own && s.operations[i].id in Ahead(s.operations, q, m)
    requires IsListed(s.operations, q) && s.operations[i].id != q
    ensures Free(s, q, m) <= Free(Removed(s, i, v, verdict), q, m)
  {
    RemovalAhead(s.operations, i, q, m);
    hide Ahead, Without, WaiterSound, IsListed, DistinctIds;
  }

  lemma OwnTakenAbandoned(
      s: Port, i: nat, v: WaiterId, verdict: Verdict, q: PublicationId, m: MessageId)
    requires WaitersSound(s) && DistinctIds(s.operations) && i < |s.operations| && v in s.waiters && !s.waiters[v].phase.Ended?
    requires s.operations[i].id == s.waiters[v].own && IsListed(s.operations, q) && s.operations[i].id != q
    ensures Abandoned(Removed(s, i, v, verdict), q, m) == Abandoned(s, q, m)
  {
    RemovalAhead(s.operations, i, q, m);
    forall o { EndedLive(s, i, v, verdict, o); }
    assert Live(s, s.operations[i].id);
    hide Ahead, Without, WaitersSound, Live, IsListed, DistinctIds;
  }

  /** A waiter takes its own operation, which was ahead: one fewer there, and nobody abandoned. */
  lemma OwnRemovalKeepsWithin(
      s: Port, i: nat, v: WaiterId, verdict: Verdict, q: PublicationId, w: WaiterId, id: PublicationId, m: MessageId)
    requires Within(s, q, w, id, m) && i < |s.operations| && v in s.waiters && v != w && !s.waiters[v].phase.Ended?
    requires s.operations[i].id == s.waiters[v].own && s.operations[i].id in Ahead(s.operations, q, m) && s.operations[i].id != q
    requires s.operations[i].id in s.settled
    ensures Within(Removed(s, i, v, verdict), q, w, id, m)
  {
    var t := Removed(s, i, v, verdict);
    assert IsListed(s.operations, q);
    OwnTakenAbandoned(s, i, v, verdict, q, m);
    OwnTakenFree(s, i, v, verdict, q, m);
    hide Ahead, Sound, Free, Abandoned, IsDeliverable, Removed;
    SubsetSize(Free(s, q, m) - {w}, Free(t, q, m) - {w});
    RemovalKeepsWithin(s, i, v, verdict, q, w, id, m);
  }

  lemma TakenFreeKept(
      s: Port, i: nat, v: WaiterId, verdict: Verdict, q: PublicationId, m: MessageId)
    requires DistinctIds(s.operations) && i < |s.operations| && v in s.waiters && IsListed(s.operations, q) && s.operations[i].id != q
    ensures Free(s, q, m) - {v} <= Free(Removed(s, i, v, verdict), q, m)
  {
    RemovalAhead(s.operations, i, q, m);
    hide Ahead, Without, IsListed, DistinctIds;
  }

  /** A waiter without an operation of its own ahead takes an abandoned one away. */
  lemma TakingKeepsWithin(
      s: Port, i: nat, v: WaiterId, verdict: Verdict, q: PublicationId, w: WaiterId, id: PublicationId, m: MessageId)
    requires Within(s, q, w, id, m) && i < |s.operations| && v in Free(s, q, m) - {w}
    requires s.operations[i].id in Abandoned(s, q, m) && s.operations[i].id != q && s.operations[i].id in s.settled
    ensures Within(Removed(s, i, v, verdict), q, w, id, m)
  {
    var t, o := Removed(s, i, v, verdict), s.operations[i].id;
    assert IsListed(s.operations, q);
    TakenAbandoned(s, i, v, verdict, q, m);
    TakenFreeKept(s, i, v, verdict, q, m);
    assert s.waiters[v].own !in Ahead(s.operations, q, m);
    hide Ahead, Sound, Live, IsDeliverable, Free, Abandoned, Removed;
    SubsetSize(Free(s, q, m) - {w} - {v}, Free(t, q, m) - {w});
    RemovalKeepsWithin(s, i, v, verdict, q, w, id, m);
  }

  // ---------------------------------------------------------------- clearing the way

  ghost function Restless(s: Port): nat { |AllWaiting(s)| + |Unsettled(s)| }

  ghost function AllWaiting(s: Port): set<WaiterId> { set v | v in s.waiters && s.waiters[v].phase == Waiting }

  ghost function Unsettled(s: Port): set<WaiterId> { set v | v in s.waiters && s.waiters[v].own !in s.settled }

  /** A turn after which the waiter is as near as before, and fewer operations are ahead or fewer waiters are restless. */
  ghost predicate Clears(s: Port, e: Event, q: PublicationId, w: WaiterId, id: PublicationId, m: MessageId) {
    && Enabled(s, e) && !e.Publish? && Poised(Step(s, e), q, w, id, m)
    && (|| |Ahead(Step(s, e).operations, q, m)| < |Ahead(s.operations, q, m)|
        || (|Ahead(Step(s, e).operations, q, m)| == |Ahead(s.operations, q, m)| && Restless(Step(s, e)) < Restless(s)))
  }

  lemma ThroughRestless(s: Port, v: WaiterId)
    requires v in s.waiters && s.waiters[v].phase == Waiting
    ensures Restless(EnterPhase(s, v, Confirmed)) < Restless(s)
  {
    assert AllWaiting(EnterPhase(s, v, Confirmed)) == AllWaiting(s) - {v};
    assert Unsettled(EnterPhase(s, v, Confirmed)) == Unsettled(s);
  }

  lemma ThroughClears(
      s: Port, v: WaiterId, q: PublicationId, w: WaiterId, id: PublicationId, m: MessageId)
    requires Poised(s, q, w, id, m) && v in s.waiters && v != w && s.waiters[v].phase == Waiting
    requires s.waiters[v].own in s.settled && s.settled[s.waiters[v].own]
    ensures Clears(s, Resume(v), q, w, id, m)
  {
    ComesThrough(s, v);
    ComingThroughKeepsWithin(s, v, q, w, id, m);
    ThroughRestless(s, v);
    hide Step, Within, Ahead, Restless, Enabled;
  }

  lemma ConfirmedRestless(s: Port, t: Port, v: WaiterId)
    requires v in s.waiters && s.waiters[v].own !in s.settled && t.waiters == s.waiters && t.settled == s.settled[s.waiters[v].own := true]
    ensures Restless(t) < Restless(s)
  {
    assert AllWaiting(t) == AllWaiting(s);
    SubsetSize(Unsettled(t), Unsettled(s) - {v});
  }

  lemma ConfirmingClears(
      s: Port, v: WaiterId, q: PublicationId, w: WaiterId, id: PublicationId, m: MessageId)
    requires Poised(s, q, w, id, m) && v in s.waiters && s.waiters[v].own !in s.settled
    ensures Clears(s, Confirm(s.waiters[v].own, true), q, w, id, m)
  {
    var o := s.waiters[v].own;
    assert WaiterSound(s, s.waiters[v]);
    var t := Step(s, Confirm(o, true));
    IsConfirmed(s, o);
    assert t.settled == s.settled[o := true] && t.waiters == s.waiters;
    ConfirmedRestless(s, t, v);
    hide Step, Sound, Restless;
    AnswerKeepsWithin(s, t, q, w, id, m);
    hide Within, Ahead;
  }

  lemma OneFewer(
      s: Port, i: nat, v: WaiterId, verdict: Verdict, q: PublicationId, m: MessageId)
    requires DistinctIds(s.operations) && i < |s.operations| && v in s.waiters && IsListed(s.operations, q)
    requires s.operations[i].id in Ahead(s.operations, q, m) && s.operations[i].id != q
    ensures |Ahead(Removed(s, i, v, verdict).operations, q, m)| < |Ahead(s.operations, q, m)|
  {
    RemovalAhead(s.operations, i, q, m);
    hide Ahead, DistinctIds, IsListed;
    assert Ahead(s.operations, q, m) == Ahead(Without(s.operations, i), q, m) + {s.operations[i].id};
  }

  /** The first confirmed operation of the message stands ahead of q. */
  ghost predicate InTheWay(s: Port, i: nat, q: PublicationId, m: MessageId) {
    && i == Find(s.operations, Settled(m)) && i < |s.operations|
    && s.operations[i].messageId == m && s.operations[i].id in Ahead(s.operations, q, m) && s.operations[i].id != q && s.operations[i].id in s.settled
    && IsListed(s.operations, q)
  }

  /** Its own waiter takes it, or is rejected and takes it off. */
  lemma OwnerClears(
      s: Port, i: nat, u: WaiterId, q: PublicationId, w: WaiterId, id: PublicationId, m: MessageId) returns (e: Event)
    requires Poised(s, q, w, id, m) && InTheWay(s, i, q, m)
    requires u in s.waiters && s.waiters[u].own == s.operations[i].id && !s.waiters[u].phase.Ended?
    ensures Clears(s, e, q, w, id, m)
  {
    var o := s.waiters[u];
    assert o.messageId == m && u != w by { assert WaiterSound(s, o); }
    if o.phase == Waiting && s.settled[o.own] {
      e := Resume(u);
      ThroughClears(s, u, q, w, id, m);
    } else {
      var verdict := if o.phase == Waiting then Uncertain else if s.operations[i].returned then Unroutable else Delivered;
      e := if o.phase == Waiting then Resume(u) else TakeReturned(u);
      OwnerTakes(s, i, u);
      OwnRemovalKeepsWithin(s, i, u, verdict, q, w, id, m);
      OneFewer(s, i, u, verdict, q, m);
      hide Step, Within, InTheWay, Ahead;
    }
  }

  lemma OwnerTakes(s: Port, i: nat, u: WaiterId)
    requires Sound(s) && u in s.waiters && i == Find(s.operations, Settled(s.waiters[u].messageId)) && i < |s.operations|
    requires s.waiters[u].own == s.operations[i].id && s.waiters[u].own in s.settled && !s.waiters[u].phase.Ended?
    ensures s.waiters[u].phase == Confirmed ==> Enabled(s, TakeReturned(u))
    ensures s.waiters[u].phase == Confirmed ==>
              Step(s, TakeReturned(u)) == Removed(s, i, u, if s.operations[i].returned then Unroutable else Delivered)
    ensures s.waiters[u].phase == Waiting && !s.settled[s.waiters[u].own] ==> Enabled(s, Resume(u))
    ensures s.waiters[u].phase == Waiting && !s.settled[s.waiters[u].own] ==> Step(s, Resume(u)) == Removed(s, i, u, Uncertain)
  {
    assert WaiterSound(s, s.waiters[u]);
    assert IndexOf(s.operations, s.waiters[u].own) == i;
  }

  /** Nobody waits for it any more: a free waiter is confirmed, comes through and takes it. */
  lemma FreeClears(
      s: Port, i: nat, v: WaiterId, q: PublicationId, w: WaiterId, id: PublicationId, m: MessageId) returns (e: Event)
    requires Poised(s, q, w, id, m) && InTheWay(s, i, q, m)
    requires s.operations[i].id in Abandoned(s, q, m) && v in Free(s, q, m) - {w}
    ensures Clears(s, e, q, w, id, m)
  {
    var o := s.waiters[v];
    assert WaiterSound(s, o);
    if o.own !in s.settled {
      e := Confirm(o.own, true);
      ConfirmingClears(s, v, q, w, id, m);
    } else if o.phase == Waiting {
      e := Resume(v);
      ThroughClears(s, v, q, w, id, m);
    } else {
      e := TakeReturned(v);
      var verdict := if s.operations[i].returned then Unroutable else Delivered;
      assert Enabled(s, e) && Step(s, e) == Removed(s, i, v, verdict);
      hide Step, Sound, WaiterSound;
      TakingKeepsWithin(s, i, v, verdict, q, w, id, m);
      OneFewer(s, i, v, verdict, q, m);
      hide Step, Within, InTheWay, Ahead, WaiterSound;
    }
  }

  lemma SomethingClears(
      s: Port, i: nat, q: PublicationId, w: WaiterId, id: PublicationId, m: MessageId) returns (e: Event)
    requires Poised(s, q, w, id, m) && InTheWay(s, i, q, m)
    ensures Clears(s, e, q, w, id, m)
  {
    hide Clears, Ahead;
    var o := s.operations[i].id;
    if Live(s, o) {
      var u :| u in s.waiters && s.waiters[u].own == o && !s.waiters[u].phase.Ended?;
      e := OwnerClears(s, i, u, q, w, id, m);
    } else {
      assert o in Abandoned(s, q, m);
      assert Free(s, q, m) - {w} != {};
      var v :| v in Free(s, q, m) - {w};
      e := FreeClears(s, i, v, q, w, id, m);
    }
  }

  lemma FirstInTheWay(
      s: Port, q: PublicationId, w: WaiterId, id: PublicationId, m: MessageId)
    requires Poised(s, q, w, id, m) && Find(s.operations, Settled(m)) < IndexOf(s.operations, q)
    ensures InTheWay(s, Find(s.operations, Settled(m)), q, m)
  {
    var i := Find(s.operations, Settled(m));
    assert IsListed(s.operations, q);
    assert OfMessage(s.operations, i, m) && OperationSound(s, s.operations[i]);
  }

  /** Nothing confirmed is ahead of q, so once confirmed it is what the waiter takes. */
  lemma ComesFirst(
      s: Port, q: PublicationId, w: WaiterId, id: PublicationId, m: MessageId)
    requires Poised(s, q, w, id, m) && Find(s.operations, Settled(m)) >= IndexOf(s.operations, q)
    ensures Enabled(s, Confirm(q, true)) && q !in s.bounced
    ensures var t, at := Step(s, Confirm(q, true)), IndexOf(s.operations, q);
            && Sound(t) && Healthy(t) && t.waiters == s.waiters && t.bounced == s.bounced && id in t.settled && t.settled[id]
            && at < |t.operations| && t.operations[at].id == q && at == Find(t.operations, Settled(m))
  {
    var at := IndexOf(s.operations, q);
    var j :| 0 <= j < |s.operations| && Deliverable(s, j, m) && s.operations[j].id == q;
    assert j == at;
    assert OperationSound(s, s.operations[at]);
    IsConfirmed(s, q);
    var t := Step(s, Confirm(q, true));
    hide Sound, Within, IsDeliverable;
    FindFirst(t.operations, Settled(m), at);
  }

  lemma {:induction false} Drained(
      s: Port, more: seq<Port>, turns: seq<Event>, q: PublicationId, w: WaiterId, id: PublicationId, m: MessageId)
      returns (ts: seq<Port>, es: seq<Event>)
    requires Onward(s, more, turns, w, id, m) && Poised(more[|turns|], q, w, id, m)
    ensures Lost(s, ts, es, w, id, m)
    decreases |Ahead(more[|turns|].operations, q, m)|, Restless(more[|turns|])
  {
    var t := more[|turns|];
    hide Step, Enabled, Onward;
    if Find(t.operations, Settled(m)) < IndexOf(t.operations, q) {
      FirstInTheWay(t, q, w, id, m);
      hide Poised, Ahead, Restless;
      var e := SomethingClears(t, Find(t.operations, Settled(m)), q, w, id, m);
      ts, es := Extended(s, more, turns, w, id, m, e);
      ts, es := Drained(s, ts, es, q, w, id, m);
    } else {
      ComesFirst(t, q, w, id, m);
      ts, es := Extended(s, more, turns, w, id, m, Confirm(q, true));
      ts, es := LastTurns(s, ts, es, IndexOf(t.operations, q), w, id, m);
    }
  }

  // ---------------------------------------------------------------- from the publication on

  lemma PublishedAbandoned(s: Port, e: Event, q: PublicationId, m: MessageId)
    requires Sound(s) && Enabled(s, e) && e.Publish? && IsListed(s.operations, q)
    ensures Abandoned(Published(s, e), q, m) <= Abandoned(s, q, m)
    ensures e.id !in Ahead(Published(s, e).operations, q, m)
  {
    var t := Published(s, e);
    AppendAhead(s.operations, t.operations[|s.operations|], q, m);
    forall o | o in Ahead(s.operations, q, m) ensures o != e.id && (Live(s, o) ==> Live(t, o)) {
      var k := PlaceAhead(s.operations, o, q, m);
      assert OperationSound(s, s.operations[k]);
      LivesOn(s, e, o);
    }
    hide Ahead, Sound, Live, IsListed;
  }

  lemma LivesOn(s: Port, e: Event, o: PublicationId)
    requires Enabled(s, e) && e.Publish?
    ensures Live(s, o) ==> Live(Published(s, e), o)
  {
    if Live(s, o) {
      var v :| v in s.waiters && s.waiters[v].own == o && !s.waiters[v].phase.Ended?;
      assert Published(s, e).waiters[v] == s.waiters[v];
    }
  }

  lemma PublishedFree(s: Port, e: Event, q: PublicationId, m: MessageId)
    requires Enabled(s, e) && e.Publish? && IsListed(s.operations, q)
    ensures Free(s, q, m) <= Free(Published(s, e), q, m) - {e.waiter}
  {
    AppendAhead(s.operations, Published(s, e).operations[|s.operations|], q, m);
    hide Ahead, IsListed;
  }

  lemma PublishedDeliverable(s: Port, e: Event, q: PublicationId, m: MessageId)
    requires Sound(s) && Enabled(s, e) && e.Publish? && IsDeliverable(s, q, m)
    ensures IsListed(s.operations, q) && IsDeliverable(Published(s, e), q, m) && q != e.id
  {
    var j :| 0 <= j < |s.operations| && Deliverable(s, j, m) && s.operations[j].id == q;
    assert OperationSound(s, s.operations[j]) && Deliverable(Published(s, e), j, m);
  }

  lemma StartsWithin(
      s: Port, q: PublicationId, w: WaiterId, id: PublicationId, m: MessageId)
    requires Sound(s) && Enabled(s, Publish(w, id, m)) && IsDeliverable(s, q, m) && Passable(s, q, m)
    ensures Within(Step(s, Publish(w, id, m)), q, w, id, m)
    ensures var t := Step(s, Publish(w, id, m)); t.bounced == s.bounced && id in t.issued && id !in t.settled && IsListed(t.operations, id)
  {
    var e := Publish(w, id, m);
    var t := Published(s, e);
    PublishClaimsOwn(s, e);
    PublishKeepsSound(s, e);
    assert t.operations[|s.operations|].id == id;
    PublishedDeliverable(s, e, q, m);
    PublishedAbandoned(s, e, q, m);
    PublishedFree(s, e, q, m);
    hide Step, Ahead, Abandoned, Free, ListSound, WaitersSound, Live, IsDeliverable;
    SubsetSize(Abandoned(t, q, m), Abandoned(s, q, m));
    SubsetSize(Free(s, q, m), Free(t, q, m) - {w});
  }

  /** The publication is returned, then confirmed, and its waiter is poised. */
  lemma ReachesPoised(
      s: Port, q: PublicationId, w: WaiterId, id: PublicationId, m: MessageId) returns (more: seq<Port>, turns: seq<Event>)
    requires Sound(s) && Enabled(s, Publish(w, id, m)) && IsDeliverable(s, q, m) && Passable(s, q, m)
    ensures Onward(s, more, turns, w, id, m) && Poised(more[|turns|], q, w, id, m)
  {
    StartsWithin(s, q, w, id, m);
    more, turns := FirstTurn(s, w, id, m);
    var t := more[1];
    ComesBack(t, id);
    hide Step, Sound, Healthy, IsDeliverable, Ahead, Passable, Onward;
    AnswerKeepsWithin(t, Step(t, Return(id)), q, w, id, m);
    more, turns := Extended(s, more, turns, w, id, m, Return(id));
    var u := more[2];
    IsConfirmed(u, id);
    OnlySettles(u, id);
    AnswerKeepsWithin(u, Step(u, Confirm(id, true)), q, w, id, m);
    more, turns := Extended(s, more, turns, w, id, m, Confirm(id, true));
  }

  lemma OnlySettles(s: Port, id: PublicationId)
    requires Enabled(s, Confirm(id, true))
    ensures forall o :: o in Step(s, Confirm(id, true)).settled && o !in s.settled ==> Step(s, Confirm(id, true)).settled[o]
  {
  }

  ghost predicate Answerable(s: Port, q: PublicationId, m: MessageId) { IsDeliverable(s, q, m) && Passable(s, q, m) }

  /**
    In every run, a publication made now can be returned and yet reported delivered, though its message is never
    again published while listed, if and only if an operation of its message that the broker has not returned is
    listed now, and no more abandoned ones are ahead of it than waiters can take away.
  */
  lemma LostExactly(
      states: seq<Port>, events: seq<Event>, i: nat, w: WaiterId, id: PublicationId, m: MessageId)
    requires Run(states, events) && i <= |events| && Enabled(states[i], Publish(w, id, m))
    ensures (exists more, turns :: Lost(states[i], more, turns, w, id, m)) <==> (exists q :: Answerable(states[i], q, m))
  {
    var s := states[i];
    RunSound(states, events, i);
    RunEnough(states, events, i, m);
    RunAttended(states, events, i);
    hide Step, Sound, Enough, AllAttended, Lost, IsDeliverable, Passable;
    if q :| Answerable(s, q, m) {
      var more, turns := ReachesPoised(s, q, w, id, m);
      more, turns := Drained(s, more, turns, q, w, id, m);
    } else {
      assert forall q :: IsDeliverable(s, q, m) ==> !Passable(s, q, m) by {
        forall q | IsDeliverable(s, q, m) ensures !Passable(s, q, m) { assert !Answerable(s, q, m); }
      }
      forall more, turns ensures !Lost(s, more, turns, w, id, m) {
        BlockedNeverLost(s, more, turns, w, id, m);
      }
    }
  }

  // ---------------------------------------------------------------- a leftover answering for a retry

  lemma RunExtends(states: seq<Port>, events: seq<Event>, e: Event)
    requires Run(states, events) && Enabled(states[|events|], e)
    ensures Run(states + [Step(states[|events|], e)], events + [e])
  {
    hide Step, Enabled;
    var ts, es := states + [Step(states[|events|], e)], events + [e];
    forall i | 0 <= i < |es| ensures Enabled(ts[i], es[i]) && ts[i + 1] == Step(ts[i], es[i]) {
      assert i < |events| ==> Enabled(states[i], events[i]);
    }
  }

  /**
    Publishing a message that is still listed goes wrong: the first attempt is confirmed while the
    connection is blocked, so its waiter gives up and its operation stays; the second attempt comes
    back from the broker, takes the leftover, and is reported delivered.
  */
  lemma LeftoverAnswersForRetry() returns (states: seq<Port>, events: seq<Event>)
    ensures Run(states, events)
    ensures events == [Publish(0, "a", "m"), Confirm("a", true), Block(true), Resume(0), Block(false),
                       Publish(1, "b", "m"), Return("b"), Confirm("b", true), Resume(1), TakeReturned(1)]
    ensures !Respects(states[5], events[5], "m")
    ensures var t := states[|events|];
            "b" in t.bounced && 1 in t.waiters && t.waiters[1].own == "b" && t.waiters[1].phase == Ended(Delivered)
  {
    states, events := LeftoverMet();
    LeftoverTaken(states[7]);
    hide Step, Enabled, Respects, Healthy, Run;
    states, events := RunExtended(states, events, Confirm("b", true));
    states, events := RunExtended(states, events, Resume(1));
    states, events := RunExtended(states, events, TakeReturned(1));
  }

  lemma RunExtended(
      states: seq<Port>, events: seq<Event>, e: Event) returns (ts: seq<Port>, es: seq<Event>)
    requires Run(states, events) && Enabled(states[|events|], e)
    ensures Run(ts, es) && |ts| == |es| + 1 && ts == states + [Step(states[|events|], e)] && es == events + [e]
  {
    hide Step, Enabled;
    RunExtends(states, events, e);
    return states + [Step(states[|events|], e)], events + [e];
  }

  lemma LeftoverStays() returns (states: seq<Port>, events: seq<Event>)
    ensures Run(states, events)
    ensures events == [Publish(0, "a", "m"), Confirm("a", true), Block(true), Resume(0), Block(false)]
    ensures var t := states[5];
            && t.operations == [Operation("a", "m", true, true, false)] && Healthy(t)
            && t.waiters == map[0 := Waiter("m", "a", "a", Ended(Uncertain))] && t.issued == {"a"} && t.bounced == {}
            && t.settled == map["a" := true]
  {
    states, events := [CONNECTED], [];
    FirstAttempt();
    assert Run(states, events);
    hide Step, Enabled, Healthy, Run;
    states, events := RunExtended(states, events, Publish(0, "a", "m"));
    states, events := RunExtended(states, events, Confirm("a", true));
    states, events := RunExtended(states, events, Block(true));
    states, events := RunExtended(states, events, Resume(0));
    states, events := RunExtended(states, events, Block(false));
  }

  lemma FirstAttempt()
    ensures var s1 := Step(CONNECTED, Publish(0, "a", "m"));
            Enabled(s1, Confirm("a", true)) &&
            var s2 := Step(s1, Confirm("a", true));
            var s3 := Step(s2, Block(true));
            Enabled(s3, Resume(0)) &&
            var t := Step(Step(s3, Resume(0)), Block(false));
            && t.operations == [Operation("a", "m", true, true, false)] && Healthy(t)
            && t.waiters == map[0 := Waiter("m", "a", "a", Ended(Uncertain))] && t.issued == {"a"} && t.bounced == {}
            && t.settled == map["a" := true]
    ensures Enabled(CONNECTED, Publish(0, "a", "m")) && forall s, on :: Enabled(s, Block(on))
  {
    var s1 := Step(CONNECTED, Publish(0, "a", "m"));
    assert s1.operations == [Operation("a", "m", true, false, false)];
    var s2 := Step(s1, Confirm("a", true));
    assert s2.operations == [Operation("a", "m", true, true, false)];
  }

  lemma LeftoverMet() returns (states: seq<Port>, events: seq<Event>)
    ensures Run(states, events) && |states| == 8
    ensures events == [Publish(0, "a", "m"), Confirm("a", true), Block(true), Resume(0), Block(false), Publish(1, "b", "m"), Return("b")]
    ensures !Respects(states[5], events[5], "m") && MeetsLeftover(states[7])
  {
    states, events := LeftoverStays();
    LeftoverPassed(states[5]);
    hide Step, Enabled, Respects, Healthy, Run, MeetsLeftover;
    states, events := RunExtended(states, events, Publish(1, "b", "m"));
    states, events := RunExtended(states, events, Return("b"));
  }

  predicate MeetsLeftover(s: Port) {
    && s.operations == [Operation("a", "m", true, true, false), Operation("b", "m", true, false, true)] && Healthy(s)
    && 1 in s.waiters && s.waiters[1] == Waiter("m", "b", "b", Waiting) && "b" in s.issued && "b" in s.bounced
    && s.settled == map["a" := true]
  }

  /** The second attempt is returned before it is confirmed. */
  lemma LeftoverPassed(s: Port)
    requires s.operations == [Operation("a", "m", true, true, false)] && Healthy(s)
    requires s.waiters == map[0 := Waiter("m", "a", "a", Ended(Uncertain))] && s.issued == {"a"} && s.bounced == {}
    requires s.settled == map["a" := true]
    ensures Enabled(s, Publish(1, "b", "m")) && Enabled(Step(s, Publish(1, "b", "m")), Return("b"))
    ensures !Respects(s, Publish(1, "b", "m"), "m")
    ensures MeetsLeftover(Step(Step(s, Publish(1, "b", "m")), Return("b")))
  {
    assert OfMessage(s.operations, 0, "m");
    FindLast([s.operations[0]], Operation("b", "m", false, false, false), Unclaimed);
    var s1 := Step(s, Publish(1, "b", "m"));
    assert s1.operations == [s.operations[0], Operation("b", "m", true, false, false)];
    FindLast([s.operations[0]], s1.operations[1], Unreturned("b"));
  }

  lemma LeftoverTaken(s: Port)
    requires MeetsLeftover(s)
    ensures Enabled(s, Confirm("b", true)) && Enabled(Step(s, Confirm("b", true)), Resume(1))
    ensures Enabled(Step(Step(s, Confirm("b", true)), Resume(1)), TakeReturned(1))
    ensures var t := Step(Step(Step(s, Confirm("b", true)), Resume(1)), TakeReturned(1));
            "b" in t.bounced && 1 in t.waiters && t.waiters[1].own == "b" && t.waiters[1].phase == Ended(Delivered)
  {
    var s1 := Step(s, Confirm("b", true));
    assert s1.operations == [s.operations[0], Operation("b", "m", true, true, true)];
    var s2 := Step(s1, Resume(1));
    FindFirst(s2.operations, Settled("m"), 0);
  }
}
