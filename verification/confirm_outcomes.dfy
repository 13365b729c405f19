/**
  What becomes of a publication over the ConfirmPort of apps/worker/src/rabbit-adapter.ts: when its waiter comes through,
  when the port fails, and that a delivery can be reported.
*/
module ConfirmOutcomes {
  import opened Basics
  import opened ConfirmPort
  import opened ConfirmContention

  /** The operation of this publication is listed and was not returned before. */
  predicate AwaitsReturn(s: Port, id: PublicationId) {
    exists i :: 0 <= i < |s.operations| && s.operations[i].id == id && !s.operations[i].returned
  }

  lemma FindsAwaited(s: Port, id: PublicationId)
    ensures Find(s.operations, Unreturned(id)) < |s.operations| <==> AwaitsReturn(s, id)
  {
    var i := Find(s.operations, Unreturned(id));
    forall j | 0 <= j < |s.operations| && s.operations[j].id == id && !s.operations[j].returned ensures i < |s.operations| {
      assert Matches(s.operations[j], Unreturned(id));
    }
  }

  lemma StepFails(s: Port, e: Event)
    requires Enabled(s, e)
    ensures Step(s, e).open <==> s.open && !e.Break? && !(e.Return? && !AwaitsReturn(s, e.id))
    ensures Step(s, e).connected <==> s.connected && !(e.Break? && e.connection)
    ensures Step(s, e).blocked <==> if e.Block? then e.on else s.blocked
  {
    if e.Return? { FindsAwaited(s, e.id); }
    hide RejectOpen, MarkConfirmed, AwaitsReturn, Without;
  }

  /** The port fails when the channel or the connection is lost, or something is returned that it does not await, and for good. */
  lemma FailsExactly(states: seq<Port>, events: seq<Event>, i: nat)
    requires Run(states, events) && i < |events|
    ensures states[i + 1].open <==> states[i].open && !events[i].Break? && !(events[i].Return? && !AwaitsReturn(states[i], events[i].id))
    ensures states[i + 1].connected <==> states[i].connected && !(events[i].Break? && events[i].connection)
    ensures states[i + 1].blocked <==> if events[i].Block? then events[i].on else states[i].blocked
  {
    hide Step, Enabled, AwaitsReturn;
    StepFails(states[i], events[i]);
  }

  /** A waiter comes through if its own publication was confirmed and the port is well; else it is told it is uncertain. */
  lemma ResumedExactly(states: seq<Port>, events: seq<Event>, i: nat)
    requires Run(states, events) && i < |events| && events[i].Resume?
    ensures var s, t, w := states[i], states[i + 1], events[i].waiter;
            && w in s.waiters && w in t.waiters && s.waiters[w].own in s.settled
            && var own := s.waiters[w].own;
               && t.waiters[w].phase == (if s.settled[own] && s.open && s.connected && !s.blocked then Confirmed else Ended(Uncertain))
               && (s.settled[own] ==> t.operations == s.operations)
               && (!s.settled[own] ==> !IsListed(t.operations, own))
               && (forall id :: id != own ==> (IsListed(t.operations, id) <==> IsListed(s.operations, id)))
  {
    var s, w := states[i], events[i].waiter;
    RunSound(states, events, i);
    assert Enabled(s, events[i]) && WaiterSound(s, s.waiters[w]);
    ResumeLists(s, events[i]);
    hide Sound, WaiterSound, IsListed, Run;
  }

  lemma ResumeLists(s: Port, e: Event)
    requires DistinctIds(s.operations) && Enabled(s, e) && e.Resume?
    ensures var t, own := Step(s, e), s.waiters[e.waiter].claimed;
            && (s.settled[own] ==> t.operations == s.operations)
            && (!s.settled[own] ==> !IsListed(t.operations, own))
            && (forall id :: id != own ==> (IsListed(t.operations, id) <==> IsListed(s.operations, id)))
  {
    var own := s.waiters[e.waiter].claimed;
    var i := IndexOf(s.operations, own);
    if !s.settled[own] && i < |s.operations| {
      var t := Step(s, e);
      assert t.operations == Without(s.operations, i);
      WithoutFacts(s.operations, i);
      forall id | id != own ensures IsListed(t.operations, id) <==> IsListed(s.operations, id) {
        if IsListed(s.operations, id) { WithoutKeeps(s.operations, i, id); }
        if IsListed(t.operations, id) {
          var j :| 0 <= j < |t.operations| && t.operations[j].id == id;
          assert s.operations[if j < i then j else j + 1].id == id;
        }
      }
      hide Without;
    }
  }

  /** The broker's first answer stands. */
  lemma AnsweredExactly(states: seq<Port>, events: seq<Event>, i: nat)
    requires Run(states, events) && i < |events| && events[i].Confirm?
    ensures var s, t, e := states[i], states[i + 1], events[i];
            && t.settled == (if e.id in s.settled then s.settled else s.settled[e.id := e.positive])
            && |t.operations| == |s.operations|
            && forall k :: 0 <= k < |s.operations| ==>
                 t.operations[k] == if s.operations[k].id == e.id then s.operations[k].(confirmed := true) else s.operations[k]
  {
    assert Enabled(states[i], events[i]);
    hide Run;
  }

  // ---------------------------------------------------------------- a publication that goes through

  lemma PublishesAlone(s: Port, w: WaiterId, id: PublicationId, m: MessageId)
    requires Sound(s) && Enabled(s, Publish(w, id, m)) && !MessageListed(s, m)
    ensures var t, at := Step(s, Publish(w, id, m)), |s.operations|;
            && Sound(t) && Healthy(t) && t.bounced == s.bounced && id in t.issued && id !in t.settled
            && FirstOf(t.operations, at, m) && t.operations[at].id == id && IsListed(t.operations, id)
            && w in t.waiters && t.waiters[w] == Waiter(m, id, id, Waiting)
  {
    var e := Publish(w, id, m);
    PublishClaimsOwn(s, e);
    PublishKeepsSound(s, e);
    assert Step(s, e).operations[|s.operations|].id == id;
    forall j | 0 <= j < |s.operations| ensures !OfMessage(Step(s, e).operations, j, m) { assert !OfMessage(s.operations, j, m); }
    hide Step, Sound, ListSound;
  }

  /** The operation of this publication is the first of its message, and its waiter waits for it. */
  ghost predicate WaitsAlone(t: Port, at: nat, w: WaiterId, id: PublicationId, m: MessageId, returned: bool) {
    && Sound(t) && Healthy(t) && id in t.issued && id !in t.settled && (id in t.bounced <==> returned)
    && FirstOf(t.operations, at, m) && t.operations[at].id == id && w in t.waiters && t.waiters[w] == Waiter(m, id, id, Waiting)
  }

  lemma SentAlone(s: Port, w: WaiterId, id: PublicationId, m: MessageId, returned: bool) returns (more: seq<Port>, turns: seq<Event>)
    requires Sound(s) && Enabled(s, Publish(w, id, m)) && !MessageListed(s, m)
    ensures Onward(s, more, turns, w, id, m)
    ensures turns == [Publish(w, id, m)] + if returned then [Return(id)] else []
    ensures WaitsAlone(more[|turns|], |s.operations|, w, id, m, returned)
  {
    PublishesAlone(s, w, id, m);
    hide Step, Sound, Healthy, Onward, MessageListed;
    more, turns := FirstTurn(s, w, id, m);
    if returned {
      ComesBack(more[1], id);
      SamePlacesFirst(more[1], Step(more[1], Return(id)), |s.operations|, m);
      assert Enabled(more[1], Return(id)) by { BackEnabled(more[1], id); }
      hide Enabled;
      more, turns := Extended(s, more, turns, w, id, m, Return(id));
    }
  }

  lemma BackEnabled(t: Port, id: PublicationId)
    requires Healthy(t) && id in t.issued
    ensures Enabled(t, Return(id)) && Enabled(t, Confirm(id, true))
  {
  }

  lemma ConfirmedAlone(t: Port, at: nat, w: WaiterId, id: PublicationId, m: MessageId, returned: bool)
    requires WaitsAlone(t, at, w, id, m, returned)
    ensures var u := Step(t, Confirm(id, true));
            && Sound(u) && Healthy(u) && w in u.waiters && u.waiters[w] == Waiter(m, id, id, Waiting)
            && id in u.settled && u.settled[id] && Find(u.operations, Settled(m)) == at && at < |u.operations|
            && u.operations[at].id == id && (id in u.bounced <==> returned)
  {
    BackEnabled(t, id);
    IsConfirmed(t, id);
    SamePlacesFirst(t, Step(t, Confirm(id, true)), at, m);
    FirstFound(Step(t, Confirm(id, true)), at, m);
    hide Step, Sound, Healthy;
  }

  lemma ThroughAlone(s: Port, was: seq<Port>, done: seq<Event>, w: WaiterId, id: PublicationId, m: MessageId, returned: bool)
      returns (more: seq<Port>, turns: seq<Event>)
    requires Onward(s, was, done, w, id, m) && WaitsAlone(was[|done|], |s.operations|, w, id, m, returned)
    ensures Onward(s, more, turns, w, id, m) && turns == done + [Confirm(id, true), Resume(w), TakeReturned(w)]
    ensures Told(s, more, turns, w, if returned then Unroutable else Delivered)
  {
    var at, t := |s.operations|, was[|done|];
    ConfirmedAlone(t, at, w, id, m, returned);
    BackEnabled(t, id);
    hide Step, Sound, Healthy, Onward, Enabled, Told;
    more, turns := Extended(s, was, done, w, id, m, Confirm(id, true));
    more, turns := LastTurns(s, more, turns, at, w, id, m);
  }

  /** In every run a healthy port's next publication of a message not listed can be reported delivered, and unroutable if it is returned. */
  lemma GoesThrough(states: seq<Port>, events: seq<Event>, i: nat, w: WaiterId, id: PublicationId, m: MessageId, returned: bool)
      returns (more: seq<Port>, turns: seq<Event>)
    requires Run(states, events) && i <= |events|
    requires var s := states[i];
             s.open && s.connected && !s.blocked && w !in s.waiters && id !in s.issued && id !in s.bounced && !MessageListed(s, m)
    ensures Onward(states[i], more, turns, w, id, m)
    ensures turns == [Publish(w, id, m)] + (if returned then [Return(id)] else []) + [Confirm(id, true), Resume(w), TakeReturned(w)]
    ensures Told(states[i], more, turns, w, if returned then Unroutable else Delivered)
  {
    RunSound(states, events, i);
    assert Enabled(states[i], Publish(w, id, m));
    hide *;
    more, turns := SentAlone(states[i], w, id, m, returned);
    more, turns := ThroughAlone(states[i], more, turns, w, id, m, returned);
  }
}
