/**
  One message published again while an earlier publication of it is still listed, in the ConfirmPort of
  apps/worker/src/rabbit-adapter.ts: takeReturned searches the list by message, so a waiter may be answered
  by another publication.  Here is which publications that can happen to.
*/
module ConfirmContention {
  import opened Basics
  import opened ConfirmPort

  // ---------------------------------------------------------------- as many operations as waiters

  /** The waiter may yet take an operation off the list: its own if rejected, otherwise one of its message. */
  predicate Expects(s: Port, w: Waiter) {
    !w.phase.Ended? && (IsListed(s.operations, w.own) || Hopes(s, w))
  }

  ghost function Takers(s: Port, messageId: MessageId): set<WaiterId> {
    set w | w in s.waiters && s.waiters[w].messageId == messageId && Expects(s, s.waiters[w])
  }

  ghost function Places(ops: seq<Operation>, messageId: MessageId): set<PublicationId> {
    set i | 0 <= i < |ops| && OfMessage(ops, i, messageId) :: ops[i].id
  }

  ghost predicate Enough(s: Port, messageId: MessageId) { |Takers(s, messageId)| <= |Places(s.operations, messageId)| }

  lemma PublishAddsPlace(s: Port, e: Event, messageId: MessageId)
    requires ListSound(s) && Enabled(s, e) && e.Publish?
    ensures |Places(Published(s, e).operations, messageId)| >=
              |Places(s.operations, messageId)| + if e.messageId == messageId then 1 else 0
  {
    var t := Published(s, e);
    var was, now := Places(s.operations, messageId), Places(t.operations, messageId);
    forall i | OfMessage(s.operations, i, messageId) ensures s.operations[i].id in now && s.operations[i].id != e.id {
      assert OfMessage(t.operations, i, messageId) && OperationSound(s, s.operations[i]);
    }
    if e.messageId == messageId {
      assert OfMessage(t.operations, |s.operations|, messageId) && t.operations[|s.operations|].id == e.id;
      SubsetSize(was + {e.id}, now);
    }
    SubsetSize(was, now);
  }

  lemma PublishKeepsEnough(s: Port, e: Event, messageId: MessageId)
    requires Sound(s) && Enabled(s, e) && e.Publish? && Enough(s, messageId)
    ensures Enough(Published(s, e), messageId)
  {
    var t := Published(s, e);
    PublishAddsPlace(s, e, messageId);
    forall w | w in Takers(t, messageId) && w != e.waiter ensures w in Takers(s, messageId) {
      PublishedExpects(s, e, w);
    }
    hide Sound, Places;
    SubsetSize(Takers(t, messageId), Takers(s, messageId) + if e.messageId == messageId then {e.waiter} else {});
  }

  lemma PublishedExpects(s: Port, e: Event, w: WaiterId)
    requires Sound(s) && Enabled(s, e) && e.Publish? && w in s.waiters && Expects(Published(s, e), s.waiters[w])
    ensures Expects(s, s.waiters[w])
  {
    var t, o := Published(s, e), s.waiters[w];
    assert WaiterSound(s, o);
    if IsListed(t.operations, o.own) {
      var i :| 0 <= i < |t.operations| && t.operations[i].id == o.own;
      assert s.operations[i].id == o.own;
    }
  }

  lemma SamePlacesEnough(s: Port, t: Port, messageId: MessageId)
    requires SamePlaces(s, t) && Enough(s, messageId)
    ensures Enough(t, messageId)
  {
    forall w | w in Takers(t, messageId) ensures w in Takers(s, messageId) {
      SamePlacesListed(s, t, t.waiters[w].own);
    }
    SubsetSize(Takers(t, messageId), Takers(s, messageId));
    forall i | OfMessage(s.operations, i, messageId) ensures s.operations[i].id in Places(t.operations, messageId) {
      assert OfMessage(t.operations, i, messageId);
    }
    SubsetSize(Places(s.operations, messageId), Places(t.operations, messageId));
  }

  lemma PhaseKeepsEnough(s: Port, w: WaiterId, phase: Phase, messageId: MessageId)
    requires Enough(s, messageId) && w in s.waiters && !s.waiters[w].phase.Ended?
    ensures Enough(EnterPhase(s, w, phase), messageId)
  {
    var t := EnterPhase(s, w, phase);
    forall v | v in Takers(t, messageId) ensures v in Takers(s, messageId) {
      assert Expects(s, s.waiters[v]);
    }
    SubsetSize(Takers(t, messageId), Takers(s, messageId));
  }

  /** Whoever takes an operation off the list gives up the place it had itself. */
  lemma RemovalKeepsEnough(
      s: Port, i: nat, w: WaiterId, verdict: Verdict, messageId: MessageId)
    requires DistinctIds(s.operations) && Enough(s, messageId) && i < |s.operations| && w in s.waiters
    requires s.operations[i].messageId == messageId ==> w in Takers(s, messageId)
    ensures Enough(Removed(s, i, w, verdict), messageId)
  {
    var t := Removed(s, i, w, verdict);
    WithoutFacts(s.operations, i);
    hide Without;
    var gone := if s.operations[i].messageId == messageId then {w} else {};
    forall v | v in Takers(t, messageId) ensures v in Takers(s, messageId) - gone {
      if IsListed(t.operations, s.waiters[v].own) {
        var j :| 0 <= j < |t.operations| && t.operations[j].id == s.waiters[v].own;
        assert s.operations[if j < i then j else j + 1].id == s.waiters[v].own;
      }
    }
    SubsetSize(Takers(t, messageId), Takers(s, messageId) - gone);
    RemovalKeepsPlaces(s.operations, i, messageId);
  }

  lemma RemovalKeepsPlaces(ops: seq<Operation>, i: nat, messageId: MessageId)
    requires i < |ops|
    ensures |Places(Without(ops, i), messageId)| >= |Places(ops, messageId)| - if ops[i].messageId == messageId then 1 else 0
  {
    WithoutFacts(ops, i);
    var now := Places(Without(ops, i), messageId);
    forall j | OfMessage(ops, j, messageId) && j != i ensures ops[j].id in now {
      var k := if j < i then j else j - 1;
      assert OfMessage(Without(ops, i), k, messageId) && Without(ops, i)[k] == ops[j];
    }
    hide Without;
    SubsetSize(Places(ops, messageId), if ops[i].messageId == messageId then now + {ops[i].id} else now);
  }

  lemma ResumeKeepsEnough(s: Port, e: Event, messageId: MessageId)
    requires Sound(s) && Enabled(s, e) && e.Resume? && Enough(s, messageId)
    ensures Enough(Step(s, e), messageId)
  {
    var w := s.waiters[e.waiter];
    assert WaiterSound(s, w);
    var i := IndexOf(s.operations, w.claimed);
    if s.settled[w.claimed] {
      PhaseKeepsEnough(s, e.waiter, if Healthy(s) then Confirmed else Ended(Uncertain), messageId);
    } else if i < |s.operations| {
      assert IsListed(s.operations, w.own);
      RemovalKeepsEnough(s, i, e.waiter, Uncertain, messageId);
    } else {
      PhaseKeepsEnough(s, e.waiter, Ended(Uncertain), messageId);
    }
    hide Enough, EnterPhase, WaiterSound, ListSound;
  }

  lemma TakeKeepsEnough(s: Port, e: Event, messageId: MessageId)
    requires Sound(s) && Enabled(s, e) && e.TakeReturned? && Enough(s, messageId)
    ensures Enough(Step(s, e), messageId)
  {
    var w := s.waiters[e.waiter];
    assert WaiterSound(s, w) && Hopes(s, w);
    var i := Find(s.operations, Settled(w.messageId));
    if i == |s.operations| {
      PhaseKeepsEnough(s, e.waiter, Ended(Uncertain), messageId);
    } else {
      RemovalKeepsEnough(s, i, e.waiter, if s.operations[i].returned then Unroutable else Delivered, messageId);
    }
    hide Enough, EnterPhase, WaiterSound, ListSound;
  }

  lemma StepKeepsEnough(s: Port, e: Event, messageId: MessageId)
    requires Sound(s) && Enabled(s, e) && Enough(s, messageId)
    ensures Enough(Step(s, e), messageId)
  {
    if e.Publish? { PublishClaimsOwn(s, e); PublishKeepsEnough(s, e, messageId); }
    if e.Confirm? { ConfirmKeepsPlaces(s, e); SamePlacesEnough(s, Step(s, e), messageId); }
    if e.Return? { BounceKeepsPlaces(s, e.id); SamePlacesEnough(s, Step(s, e), messageId); }
    if e.Break? {
      FailedKeepsPlaces(s.(connected := s.connected && !e.connection));
      assert SamePlaces(s, Step(s, e)) by { hide Failed; }
      SamePlacesEnough(s, Step(s, e), messageId);
    }
    if e.Block? { SamePlacesEnough(s, Step(s, e), messageId); }
    if e.Resume? { ResumeKeepsEnough(s, e, messageId); }
    if e.TakeReturned? { TakeKeepsEnough(s, e, messageId); }
    hide Step, Enough, Sound, Enabled;
  }

  /** In every run a message never has more waiters that may take an operation than operations listed. */
  lemma {:induction false} RunEnough(
      states: seq<Port>, events: seq<Event>, i: nat, messageId: MessageId)
    requires Run(states, events) && i <= |events|
    ensures Enough(states[i], messageId)
  {
    hide Step, Enabled;
    if i > 0 {
      hide Enough, Sound;
      RunEnough(states, events, i - 1, messageId);
      RunSound(states, events, i - 1);
      StepKeepsEnough(states[i - 1], events[i - 1], messageId);
    } else {
      assert Takers(states[0], messageId) == {};
    }
  }

  lemma ListedTaken(s: Port, messageId: MessageId, w: WaiterId)
    requires Enough(s, messageId) && w in Takers(s, messageId)
    ensures MessageListed(s, messageId)
  {
    assert Places(s.operations, messageId) != {};
    var id :| id in Places(s.operations, messageId);
    var i :| OfMessage(s.operations, i, messageId) && s.operations[i].id == id;
  }

  /** A message nobody has listed has nobody left to take one of its operations. */
  lemma UnlistedSole(s: Port, messageId: MessageId)
    requires Enough(s, messageId) && !MessageListed(s, messageId)
    ensures Sole(s, messageId)
  {
    forall w | w in s.waiters && s.waiters[w].messageId == messageId ensures !Hopes(s, s.waiters[w]) {
      if w in Takers(s, messageId) { ListedTaken(s, messageId, w); }
    }
  }

  // ---------------------------------------------------------------- what follows a publication

  /** The publication and what comes after it, in which its message is not published again while listed. */
  ghost predicate Onward(s: Port, more: seq<Port>, turns: seq<Event>, w: WaiterId, id: PublicationId, messageId: MessageId) {
    && |more| == |turns| + 1 && |turns| > 0
    && more[0] == s && turns[0] == Publish(w, id, messageId)
    && (forall i :: 0 <= i < |turns| ==> Enabled(more[i], turns[i]) && more[i + 1] == Step(more[i], turns[i]))
    && (forall i :: 0 < i < |turns| ==> Respects(more[i], turns[i], messageId))
  }

  /** It ends with the waiter told this. */
  ghost predicate Told(s: Port, more: seq<Port>, turns: seq<Event>, w: WaiterId, verdict: Verdict)
    requires |more| == |turns| + 1
  {
    && |turns| > 0 && turns[|turns| - 1] == TakeReturned(w)
    && w in more[|turns|].waiters && more[|turns|].waiters[w].phase == Ended(verdict)
  }

  /** The waiter is told something else than the broker said of its own publication. */
  ghost predicate Misled(s: Port, more: seq<Port>, turns: seq<Event>, w: WaiterId, id: PublicationId, messageId: MessageId) {
    && Onward(s, more, turns, w, id, messageId)
    && exists verdict :: Told(s, more, turns, w, verdict) && verdict != if id in more[|turns|].bounced then Unroutable else Delivered
  }

  /** The broker returned the publication, and its waiter is told that it was delivered. */
  ghost predicate Lost(s: Port, more: seq<Port>, turns: seq<Event>, w: WaiterId, id: PublicationId, messageId: MessageId) {
    Onward(s, more, turns, w, id, messageId) && Told(s, more, turns, w, Delivered) && id in more[|turns|].bounced
  }

  ghost predicate IsOwn(s: Port, w: WaiterId, id: PublicationId, messageId: MessageId) {
    w in s.waiters && s.waiters[w].own == id && s.waiters[w].messageId == messageId
  }

  lemma OwnStays(s: Port, e: Event, w: WaiterId, id: PublicationId, messageId: MessageId)
    requires Enabled(s, e) && IsOwn(s, w, id, messageId)
    ensures IsOwn(Step(s, e), w, id, messageId)
    ensures s.waiters[w].phase.Ended? ==> Step(s, e).waiters[w].phase.Ended?
  {
    assert e.Resume? || e.TakeReturned? ==> !s.waiters[e.waiter].phase.Ended?;
    assert e.Publish? ==> e.waiter !in s.waiters;
    hide Step, Enabled;
    if e.Publish? || e.Resume? || e.TakeReturned? {
      TurnEndsOwn(s, e, w);
    } else {
      BrokerLeavesWaiters(s, e);
    }
  }

  lemma PublishOwns(s: Port, e: Event)
    requires Sound(s) && Enabled(s, e) && e.Publish?
    ensures IsOwn(Step(s, e), e.waiter, e.id, e.messageId) && Sound(Step(s, e))
  {
    PublishClaimsOwn(s, e);
    PublishKeepsSound(s, e);
    hide Step, Sound, Enabled;
  }

  lemma {:induction false} OnwardSound(
      s: Port, more: seq<Port>, turns: seq<Event>, w: WaiterId, id: PublicationId, m: MessageId, i: nat)
    requires Sound(s) && Onward(s, more, turns, w, id, m) && 1 <= i <= |turns|
    ensures Sound(more[i]) && IsOwn(more[i], w, id, m)
  {
    hide Step, Enabled, Sound, IsOwn, Respects;
    if i == 1 {
      PublishOwns(s, turns[0]);
    } else {
      OnwardSound(s, more, turns, w, id, m, i - 1);
      StepKeepsSound(more[i - 1], turns[i - 1]);
      OwnStays(more[i - 1], turns[i - 1], w, id, m);
    }
  }

  lemma {:induction false} OnwardSole(
      s: Port, more: seq<Port>, turns: seq<Event>, w: WaiterId, id: PublicationId, m: MessageId, i: nat)
    requires Sound(s) && Sole(s, m) && !MessageListed(s, m) && Onward(s, more, turns, w, id, m) && i <= |turns|
    ensures Sole(more[i], m)
  {
    hide Step, Enabled, Sound, Sole, MessageListed;
    if i > 0 {
      OnwardSole(s, more, turns, w, id, m, i - 1);
      if i > 1 { OnwardSound(s, more, turns, w, id, m, i - 1); }
      StepKeepsSole(more[i - 1], turns[i - 1], m);
    }
  }

  lemma UnlistedNeverMisled(
      s: Port, more: seq<Port>, turns: seq<Event>, w: WaiterId, id: PublicationId, m: MessageId)
    requires Sound(s) && Enough(s, m) && !MessageListed(s, m)
    ensures !Misled(s, more, turns, w, id, m)
  {
    if Misled(s, more, turns, w, id, m) {
      var last := |turns| - 1;
      UnlistedSole(s, m);
      OnwardSound(s, more, turns, w, id, m, last);
      OnwardSole(s, more, turns, w, id, m, last);
      ConfirmedFindsOwn(more[last], w);
    }
  }

  // ---------------------------------------------------------------- how a leftover is taken

  /** Healthy still, with the same publications in the same places. */
  ghost predicate Undisturbed(s: Port, t: Port) { SamePlaces(s, t) && Sound(t) && Healthy(t) }

  /** The first operation of the message, if it is listed. */
  ghost predicate FirstOf(ops: seq<Operation>, at: nat, m: MessageId) {
    OfMessage(ops, at, m) && forall j :: 0 <= j < at ==> !OfMessage(ops, j, m)
  }

  lemma {:induction false} FirstExists(
      ops: seq<Operation>, i: nat, m: MessageId) returns (at: nat)
    requires OfMessage(ops, i, m)
    ensures FirstOf(ops, at, m)
  {
    at := i;
    if j :| 0 <= j < i && OfMessage(ops, j, m) { at := FirstExists(ops, j, m); }
  }

  lemma PublishesAfter(s: Port, at: nat, w: WaiterId, id: PublicationId, m: MessageId)
    requires Sound(s) && Enabled(s, Publish(w, id, m)) && FirstOf(s.operations, at, m)
    ensures var t := Step(s, Publish(w, id, m));
            && Sound(t) && Healthy(t) && t.bounced == s.bounced && id in t.issued && id !in t.settled
            && FirstOf(t.operations, at, m) && t.operations[at] == s.operations[at] && IsListed(t.operations, id)
            && w in t.waiters && t.waiters[w] == Waiter(m, id, id, Waiting)
  {
    var e := Publish(w, id, m);
    PublishClaimsOwn(s, e);
    PublishKeepsSound(s, e);
    assert Step(s, e).operations[|s.operations|].id == id;
    forall j | 0 <= j < at ensures !OfMessage(Step(s, e).operations, j, m) { assert !OfMessage(s.operations, j, m); }
    hide Step, Sound, ListSound;
  }

  lemma ComesBack(s: Port, id: PublicationId)
    requires Sound(s) && Healthy(s) && IsListed(s.operations, id) && id !in s.bounced
    ensures var t := Step(s, Return(id)); Undisturbed(s, t) && t.bounced == s.bounced + {id} && t.settled == s.settled
  {
    var i :| 0 <= i < |s.operations| && s.operations[i].id == id;
    assert OperationSound(s, s.operations[i]) && Matches(s.operations[i], Unreturned(id));
    BounceKeepsSound(s, Return(id));
    BounceKeepsPlaces(s, id);
    hide Sound, SamePlaces, Failed;
  }

  lemma IsConfirmed(s: Port, id: PublicationId)
    requires Sound(s) && Healthy(s) && id in s.issued
    ensures var t := Step(s, Confirm(id, true));
            && Undisturbed(s, t) && t.bounced == s.bounced && id in t.settled && (id !in s.settled ==> t.settled[id])
            && forall i :: 0 <= i < |s.operations| && (s.operations[i].confirmed || s.operations[i].id == id) ==> t.operations[i].confirmed
  {
    ConfirmKeepsSound(s, Confirm(id, true));
    ConfirmKeepsPlaces(s, Confirm(id, true));
    hide Sound;
  }

  lemma ComesThrough(s: Port, w: WaiterId)
    requires Sound(s) && Healthy(s) && w in s.waiters && s.waiters[w].phase == Waiting
    requires s.waiters[w].own in s.settled && s.settled[s.waiters[w].own]
    ensures Enabled(s, Resume(w))
    ensures Step(s, Resume(w)) == EnterPhase(s, w, Confirmed)
    ensures Sound(Step(s, Resume(w)))
  {
    assert WaiterSound(s, s.waiters[w]);
    ResumeKeepsSound(s, Resume(w));
    hide Sound;
  }

  lemma TakesFirst(s: Port, w: WaiterId)
    requires Sound(s) && w in s.waiters && s.waiters[w].phase == Confirmed
    requires Find(s.operations, Settled(s.waiters[w].messageId)) < |s.operations|
    ensures var t, at := Step(s, TakeReturned(w)), Find(s.operations, Settled(s.waiters[w].messageId));
            && t.bounced == s.bounced && w in t.waiters
            && t.waiters[w].phase == Ended(if s.operations[at].id in s.bounced then Unroutable else Delivered)
  {
    assert OperationSound(s, s.operations[Find(s.operations, Settled(s.waiters[w].messageId))]);
  }

  lemma SamePlacesFirst(s: Port, t: Port, at: nat, m: MessageId)
    requires SamePlaces(s, t) && FirstOf(s.operations, at, m)
    ensures FirstOf(t.operations, at, m) && t.operations[at].id == s.operations[at].id
  {
    forall j | 0 <= j < at ensures !OfMessage(t.operations, j, m) { assert !OfMessage(s.operations, j, m); }
  }

  /** One more turn that is not a publication. */
  lemma Extended(
      s: Port, more: seq<Port>, turns: seq<Event>, w: WaiterId, id: PublicationId, m: MessageId, e: Event)
      returns (ts: seq<Port>, es: seq<Event>)
    requires Onward(s, more, turns, w, id, m) && Enabled(more[|turns|], e) && !e.Publish?
    ensures Onward(s, ts, es, w, id, m) && es == turns + [e]
    ensures es[|turns|] == e && ts[|turns|] == more[|turns|] && ts[|es|] == Step(more[|turns|], e)
  {
    hide Step, Enabled;
    ts, es := more + [Step(more[|turns|], e)], turns + [e];
    forall i | 0 <= i < |es| ensures Enabled(ts[i], es[i]) && ts[i + 1] == Step(ts[i], es[i]) {
      assert i < |turns| ==> Enabled(more[i], turns[i]);
    }
    forall i | 0 < i < |es| ensures Respects(ts[i], es[i], m) {
      assert i < |turns| ==> Respects(more[i], turns[i], m);
    }
  }

  lemma FirstTurn(
      s: Port, w: WaiterId, id: PublicationId, m: MessageId) returns (more: seq<Port>, turns: seq<Event>)
    requires Enabled(s, Publish(w, id, m))
    ensures Onward(s, more, turns, w, id, m) && turns == [Publish(w, id, m)] && more[1] == Step(s, Publish(w, id, m))
  {
    hide Step, Enabled;
    return [s, Step(s, Publish(w, id, m))], [Publish(w, id, m)];
  }

  /** The last two turns: the waiter comes through and takes the first confirmed operation of its message. */
  lemma LastTurns(
      s: Port, more: seq<Port>, turns: seq<Event>, at: nat, w: WaiterId, id: PublicationId, m: MessageId)
      returns (ts: seq<Port>, es: seq<Event>)
    requires Onward(s, more, turns, w, id, m)
    requires var t := more[|turns|];
             && Sound(t) && Healthy(t) && w in t.waiters && t.waiters[w] == Waiter(m, id, id, Waiting)
             && id in t.settled && t.settled[id] && at == Find(t.operations, Settled(m)) && at < |t.operations|
    ensures Onward(s, ts, es, w, id, m) && ts[|es|].bounced == more[|turns|].bounced && es == turns + [Resume(w), TakeReturned(w)]
    ensures Told(s, ts, es, w, if more[|turns|].operations[at].id in more[|turns|].bounced then Unroutable else Delivered)
  {
    var t := more[|turns|];
    ComesThrough(t, w);
    hide Step, Sound, Healthy, Onward;
    ts, es := Extended(s, more, turns, w, id, m, Resume(w));
    assert ts[|es|] == EnterPhase(t, w, Confirmed);
    TakesFirst(ts[|es|], w);
    assert Enabled(ts[|es|], TakeReturned(w)) by { assert ts[|es|].waiters[w].phase == Confirmed; }
    ts, es := Extended(s, ts, es, w, id, m, TakeReturned(w));
  }

  /** While an earlier publication of the message is listed, the waiter can be told of that one instead of its own. */
  lemma LeftoverMisleads(s: Port, at: nat, w: WaiterId, id: PublicationId, m: MessageId)
      returns (more: seq<Port>, turns: seq<Event>)
    requires Sound(s) && Enabled(s, Publish(w, id, m)) && FirstOf(s.operations, at, m)
    ensures Misled(s, more, turns, w, id, m)
  {
    PublishesAfter(s, at, w, id, m);
    assert OperationSound(s, s.operations[at]);
    var back := !s.operations[at].returned;
    hide Step, Sound, Healthy;
    more, turns := FirstTurn(s, w, id, m);
    if back {
      ComesBack(more[1], id);
      SamePlacesFirst(more[1], Step(more[1], Return(id)), at, m);
      more, turns := Extended(s, more, turns, w, id, m, Return(id));
    }
    more, turns := BothConfirmed(s, more, turns, at, w, id, m);
    more, turns := LastTurns(s, more, turns, at, w, id, m);
  }

  lemma BothConfirmed(
      s: Port, more: seq<Port>, turns: seq<Event>, at: nat, w: WaiterId, id: PublicationId, m: MessageId)
      returns (ts: seq<Port>, es: seq<Event>)
    requires Onward(s, more, turns, w, id, m)
    requires var t := more[|turns|];
             Sound(t) && Healthy(t) && id in t.issued && id !in t.settled && FirstOf(t.operations, at, m) && t.operations[at].id != id
    ensures Onward(s, ts, es, w, id, m)
    ensures var t, u := more[|turns|], ts[|es|];
            && Sound(u) && Healthy(u) && u.waiters == t.waiters && u.bounced == t.bounced && id in u.settled && u.settled[id]
            && at == Find(u.operations, Settled(m)) && at < |u.operations| && u.operations[at].id == t.operations[at].id
  {
    var t := more[|turns|];
    var o := t.operations[at].id;
    assert OperationSound(t, t.operations[at]);
    hide Step, Sound, Healthy, Onward;
    IsConfirmed(t, id);
    SamePlacesFirst(t, Step(t, Confirm(id, true)), at, m);
    ts, es := Extended(s, more, turns, w, id, m, Confirm(id, true));
    var u := ts[|es|];
    IsConfirmed(u, o);
    SamePlacesFirst(u, Step(u, Confirm(o, true)), at, m);
    ts, es := Extended(s, ts, es, w, id, m, Confirm(o, true));
    FirstFound(ts[|es|], at, m);
  }

  lemma FirstFound(s: Port, at: nat, m: MessageId)
    requires Sound(s) && FirstOf(s.operations, at, m) && s.operations[at].confirmed
    ensures Find(s.operations, Settled(m)) == at
  {
    assert OperationSound(s, s.operations[at]);
    forall j | 0 <= j < at ensures !Matches(s.operations[j], Settled(m)) { assert !OfMessage(s.operations, j, m); }
    FindFirst(s.operations, Settled(m), at);
  }

  /**
    In every run, a publication made now can be answered with another one's verdict, though its message is
    never again published while listed, if and only if its message is listed now.
  */
  lemma WrongVerdictExactly(
      states: seq<Port>, events: seq<Event>, i: nat, w: WaiterId, id: PublicationId, m: MessageId)
    requires Run(states, events) && i <= |events| && Enabled(states[i], Publish(w, id, m))
    ensures (exists more, turns :: Misled(states[i], more, turns, w, id, m)) <==> MessageListed(states[i], m)
  {
    RunSound(states, events, i);
    RunEnough(states, events, i, m);
    hide Step, Enabled, Sound, Enough, Misled;
    if MessageListed(states[i], m) {
      var k :| OfMessage(states[i].operations, k, m);
      var at := FirstExists(states[i].operations, k, m);
      var more, turns := LeftoverMisleads(states[i], at, w, id, m);
    } else {
      forall more, turns ensures !Misled(states[i], more, turns, w, id, m) {
        UnlistedNeverMisled(states[i], more, turns, w, id, m);
      }
    }
  }
}
