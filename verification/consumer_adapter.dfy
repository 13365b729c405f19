/**
  The bounded consumer of apps/worker/src/rabbit-adapter.ts: deliveries wait until fewer than
  `concurrency` are inside `accept`, and everything stops taking part once `stopping` is set.

  Code between two awaits is one turn.  A waiting delivery races the promises that were in flight
  when it looked: once one of them has settled it looks again, or, if that one failed, fails with it.
  One run per adapter.
*/
module ConsumerAdapter {

  type Binding = string
  type Tag = string
  type DeliveryId = nat

  datatype Phase =
    | Waiting(watched: set<DeliveryId>)
    | Running
    | Settled(failed: bool)
    | Released(failed: bool)

  datatype Adapter = Adapter(
    concurrency: nat,
    active: int,
    channelOpen: bool,
    stopping: bool,
    aborted: bool,
    consumers: map<Binding, Tag>,
    inFlight: set<DeliveryId>,
    phases: map<DeliveryId, Phase>,
    replied: map<Binding, Tag>,
    cancelled: set<Tag>,
    revoked: set<Binding>)

  datatype Event =
    | ConsumeReply(binding: Binding, tag: Tag)
    | ServerCancel(binding: Binding)
    | Deliver(id: DeliveryId)
    | Wake(id: DeliveryId, seen: DeliveryId)
    | AcceptEnds(id: DeliveryId, failed: bool)
    | Release(id: DeliveryId)
    | Abort
    | Stop
    | ChannelFails

  /** A new adapter; the limits were validated, the signal may already be aborted. */
  predicate Initial(s: Adapter) {
    s.concurrency >= 1 && s == Adapter(s.concurrency, 0, true, false, s.aborted, map[], {}, map[], map[], {}, {})
  }

  predicate IsWaiting(s: Adapter, id: DeliveryId) { id in s.phases && s.phases[id].Waiting? }

  predicate IsRunning(s: Adapter, id: DeliveryId) { id in s.phases && s.phases[id].Running? }

  predicate HasSettled(s: Adapter, id: DeliveryId) { id in s.phases && (s.phases[id].Settled? || s.phases[id].Released?) }

  predicate HasFailed(s: Adapter, id: DeliveryId) { HasSettled(s, id) && s.phases[id].failed }

  predicate Enabled(s: Adapter, e: Event) {
    match e
    case ConsumeReply(binding, tag) => binding !in s.replied && tag !in s.replied.Values
    case Deliver(id) => id !in s.phases
    case Wake(id, seen) => IsWaiting(s, id) && seen in s.phases[id].watched && HasSettled(s, seen)
    case AcceptEnds(id, _) => IsRunning(s, id)
    case Release(id) => id in s.phases && s.phases[id].Settled?
    case _ => true
  }

  /** One look of a delivery at whether it may enter `accept`. */
  function Look(s: Adapter, id: DeliveryId): Adapter {
    if s.stopping then s.(phases := s.phases[id := Settled(false)])
    else if s.active >= s.concurrency then s.(phases := s.phases[id := Waiting(s.inFlight)])
    else s.(active := s.active + 1, phases := s.phases[id := Running])
  }

  function StopAcquisition(s: Adapter): Adapter {
    if s.stopping && s.consumers == map[] then s
    else s.(stopping := true, consumers := map[], cancelled := s.cancelled + s.consumers.Values)
  }

  function Step(s: Adapter, e: Event): Adapter
    requires Enabled(s, e)
  {
    match e
    case ConsumeReply(binding, tag) =>
      var t := s.(replied := s.replied[binding := tag]);
      if s.stopping || s.aborted then t.(cancelled := s.cancelled + {tag}) else t.(consumers := s.consumers[binding := tag])
    case ServerCancel(binding) => s.(consumers := s.consumers - {binding}, revoked := s.revoked + {binding}, stopping := true)
    case Deliver(id) =>
      if s.stopping then s
      else
        var t := Look(s, id);
        t.(inFlight := s.inFlight + {id})
    case Wake(id, seen) => if HasFailed(s, seen) then s.(phases := s.phases[id := Settled(true)]) else Look(s, id)
    case AcceptEnds(id, failed) =>
      s.(active := s.active - 1, phases := s.phases[id := Settled(failed)])
    case Release(id) =>
      s.(inFlight := s.inFlight - {id}, phases := s.phases[id := Released(s.phases[id].failed)], stopping := s.stopping || s.phases[id].failed)
    case Abort => StopAcquisition(s.(aborted := true))
    case Stop => StopAcquisition(s)
    case ChannelFails => StopAcquisition(s.(channelOpen := false))
  }

  // ---------------------------------------------------------------- the invariant

  /** The deliveries inside `accept`. */
  function Inside(s: Adapter): set<DeliveryId> { set id | id in s.phases && s.phases[id].Running? }

  ghost predicate CountSound(s: Adapter) { s.active == |Inside(s)| && s.active <= s.concurrency }

  ghost predicate FlightSound(s: Adapter) {
    forall id :: id in s.inFlight <==> id in s.phases && !s.phases[id].Released?
  }

  /** Some delivery it watches was inside `accept` when it looked. */
  ghost predicate Watches(s: Adapter, watched: set<DeliveryId>) {
    exists d :: d in watched && (IsRunning(s, d) || HasSettled(s, d))
  }

  ghost predicate WatchSound(s: Adapter) {
    forall id :: IsWaiting(s, id) ==> Watches(s, s.phases[id].watched)
  }

  /** Every consumer tag the broker gave out is live, cancelled, or taken back by the broker. */
  ghost predicate TagsSound(s: Adapter) {
    && (forall b :: b in s.consumers ==> b in s.replied && s.consumers[b] == s.replied[b])
    && (forall b :: b in s.replied ==> b in s.consumers || s.replied[b] in s.cancelled || b in s.revoked)
  }

  ghost predicate Sound(s: Adapter) {
    s.concurrency >= 1 && CountSound(s) && FlightSound(s) && WatchSound(s) && TagsSound(s)
  }

  lemma LookKeepsCount(s: Adapter, id: DeliveryId)
    requires CountSound(s) && !IsRunning(s, id)
    ensures CountSound(Look(s, id))
  {
    var t := Look(s, id);
    if !s.stopping && s.active < s.concurrency {
      assert Inside(t) == Inside(s) + {id};
    } else {
      assert Inside(t) == Inside(s);
    }
  }

  // ---------------------------------------------------------------- what an event leaves alone

  predicate OfDelivery(e: Event) { e.Deliver? || e.Wake? || e.AcceptEnds? || e.Release? }

  /** A look is about one delivery. */
  lemma LookFacts(s: Adapter, id: DeliveryId)
    ensures var t := Look(s, id);
            && t.consumers == s.consumers && t.replied == s.replied && t.cancelled == s.cancelled && t.revoked == s.revoked
            && t.concurrency == s.concurrency && t.inFlight == s.inFlight && t.stopping == s.stopping
            && t.phases.Keys == s.phases.Keys + {id} && !t.phases[id].Released?
            && forall d :: d in s.phases && d != id ==> t.phases[d] == s.phases[d]
  {
  }

  lemma ControlLeavesDeliveries(s: Adapter, e: Event)
    requires Enabled(s, e) && !OfDelivery(e)
    ensures var t := Step(s, e); t.phases == s.phases && t.active == s.active && t.inFlight == s.inFlight && t.concurrency == s.concurrency
  {
  }

  lemma DeliveriesLeaveTags(s: Adapter, e: Event)
    requires Enabled(s, e) && OfDelivery(e)
    ensures var t := Step(s, e);
            && t.consumers == s.consumers && t.replied == s.replied && t.cancelled == s.cancelled && t.revoked == s.revoked
            && t.concurrency == s.concurrency
  {
    LookFacts(s, e.id);
    hide Look, HasFailed, HasSettled, IsRunning, IsWaiting;
  }

  lemma OneDelivery(s: Adapter, e: Event, d: DeliveryId)
    requires Enabled(s, e) && OfDelivery(e) && d != e.id
    ensures var t := Step(s, e);
            && (d in t.phases <==> d in s.phases) && (d in s.phases ==> t.phases[d] == s.phases[d])
            && (d in t.inFlight <==> d in s.inFlight)
  {
    LookFacts(s, e.id);
    hide Look, HasFailed, HasSettled, IsRunning, IsWaiting;
  }

  lemma StepKeepsCount(s: Adapter, e: Event)
    requires CountSound(s) && Enabled(s, e)
    ensures CountSound(Step(s, e))
  {
    var t := Step(s, e);
    if !OfDelivery(e) {
      ControlLeavesDeliveries(s, e);
      hide Step, Enabled;
    } else if e.Deliver? || e.Wake? {
      LookKeepsCount(s, e.id);
      assert Inside(t) == Inside(s) || Inside(t) == Inside(Look(s, e.id));
    } else {
      assert Inside(t) == Inside(s) - {e.id};
    }
  }

  lemma StepKeepsFlight(s: Adapter, e: Event)
    requires FlightSound(s) && Enabled(s, e)
    ensures FlightSound(Step(s, e))
  {
    if OfDelivery(e) {
      forall d | d != e.id ensures d in Step(s, e).inFlight <==> d in s.inFlight { OneDelivery(s, e, d); }
      forall d ensures d in Step(s, e).inFlight <==> d in Step(s, e).phases && !Step(s, e).phases[d].Released? {
        if d == e.id { OwnFlight(s, e); } else { OneDelivery(s, e, d); }
        hide Step, Enabled;
      }
    } else {
      ControlLeavesDeliveries(s, e);
      hide Step, Enabled;
    }
  }

  lemma OwnFlight(s: Adapter, e: Event)
    requires FlightSound(s) && Enabled(s, e) && OfDelivery(e)
    ensures e.id in Step(s, e).inFlight <==> e.id in Step(s, e).phases && !Step(s, e).phases[e.id].Released?
  {
    LookFacts(s, e.id);
    hide Look, HasFailed;
  }

  /** What is inside or past `accept` never goes back to waiting. */
  lemma EntryLasts(s: Adapter, e: Event, d: DeliveryId)
    requires Enabled(s, e) && (IsRunning(s, d) || HasSettled(s, d))
    ensures IsRunning(Step(s, e), d) || HasSettled(Step(s, e), d)
  {
    if !OfDelivery(e) {
      ControlLeavesDeliveries(s, e);
      hide Step, Enabled;
    } else if d != e.id {
      OneDelivery(s, e, d);
      hide Step, Enabled;
    } else {
      assert e.AcceptEnds? || e.Release?;
    }
  }

  /** A full adapter has somebody inside, who is in flight. */
  lemma FullHasSomebody(s: Adapter)
    requires CountSound(s) && FlightSound(s) && s.concurrency >= 1 && s.active >= s.concurrency
    ensures Watches(s, s.inFlight)
  {
    var inside := Inside(s);
    assert inside != {};
    var d :| d in inside;
    assert IsRunning(s, d) && d in s.inFlight;
  }

  /** Whoever starts to wait does so at a full adapter, and watches what is in flight. */
  lemma StartsWaiting(s: Adapter, e: Event, id: DeliveryId)
    requires Enabled(s, e) && IsWaiting(Step(s, e), id) && !(IsWaiting(s, id) && s.phases[id] == Step(s, e).phases[id])
    ensures s.active >= s.concurrency && Step(s, e).phases[id].watched == s.inFlight
  {
  }

  lemma StepKeepsWatch(s: Adapter, e: Event)
    requires Sound(s) && Enabled(s, e)
    ensures WatchSound(Step(s, e))
  {
    var t := Step(s, e);
    forall id | IsWaiting(t, id) ensures Watches(t, t.phases[id].watched) {
      if !(IsWaiting(s, id) && s.phases[id] == t.phases[id]) {
        StartsWaiting(s, e, id);
        FullHasSomebody(s);
      }
      hide Step, Enabled, CountSound, FlightSound, TagsSound;
      assert Watches(s, t.phases[id].watched);
      var d :| d in t.phases[id].watched && (IsRunning(s, d) || HasSettled(s, d));
      EntryLasts(s, e, d);
    }
  }

  lemma StepKeepsTags(s: Adapter, e: Event)
    requires TagsSound(s) && Enabled(s, e)
    ensures TagsSound(Step(s, e))
  {
    if OfDelivery(e) {
      DeliveriesLeaveTags(s, e);
      hide Step, Enabled;
    } else {
      ControlKeepsTags(s, e);
    }
  }

  lemma ControlKeepsTags(s: Adapter, e: Event)
    requires TagsSound(s) && Enabled(s, e) && !OfDelivery(e)
    ensures TagsSound(Step(s, e))
  {
    var t := Step(s, e);
    forall b | b in t.replied ensures b in t.consumers || t.replied[b] in t.cancelled || b in t.revoked {
      if b in s.consumers {
        assert s.consumers[b] in s.consumers.Values;
      }
    }
  }

  lemma StepKeepsSound(s: Adapter, e: Event)
    requires Sound(s) && Enabled(s, e)
    ensures Sound(Step(s, e)) && Step(s, e).concurrency == s.concurrency
  {
    StepKeepsCount(s, e);
    StepKeepsFlight(s, e);
    StepKeepsWatch(s, e);
    StepKeepsTags(s, e);
    hide CountSound, FlightSound, WatchSound, TagsSound;
  }

  // ---------------------------------------------------------------- runs

  ghost predicate Run(states: seq<Adapter>, events: seq<Event>) {
    && |states| == |events| + 1
    && Initial(states[0])
    && forall i :: 0 <= i < |events| ==> Enabled(states[i], events[i]) && states[i + 1] == Step(states[i], events[i])
  }

  lemma {:induction false} RunSound(states: seq<Adapter>, events: seq<Event>, i: nat)
    requires Run(states, events) && i <= |events|
    ensures Sound(states[i]) && states[i].concurrency == states[0].concurrency
  {
    if i > 0 {
      hide Step, Enabled, Sound, Initial;
      RunSound(states, events, i - 1);
      StepKeepsSound(states[i - 1], events[i - 1]);
    } else {
      assert Inside(states[0]) == {};
    }
  }

  /** Never are more than `concurrency` deliveries inside `accept`. */
  lemma ConcurrencyBounded(states: seq<Adapter>, events: seq<Event>, i: nat)
    requires Run(states, events) && i <= |events|
    ensures |Inside(states[i])| <= states[0].concurrency
  {
    RunSound(states, events, i);
  }

  /** What a stopped adapter still does: deliveries leave, tags go; nothing enters. */
  ghost predicate OnlyWindsDown(s: Adapter, t: Adapter) {
    && t.stopping
    && Inside(t) <= Inside(s)
    && t.inFlight <= s.inFlight
    && (forall b :: b in t.consumers ==> b in s.consumers && t.consumers[b] == s.consumers[b])
    && s.cancelled <= t.cancelled
  }

  lemma StepWindsDown(s: Adapter, e: Event)
    requires Enabled(s, e) && s.stopping
    ensures OnlyWindsDown(s, Step(s, e))
  {
  }

  /** Once stopping is set no delivery enters `accept`, none joins the flight and no tag joins the live set. */
  lemma {:induction false} StoppedOnlyWindsDown(
      states: seq<Adapter>, events: seq<Event>, i: nat, j: nat)
    requires Run(states, events) && i <= j <= |events| && states[i].stopping
    ensures OnlyWindsDown(states[i], states[j])
    decreases j - i
  {
    hide Step, Enabled;
    if i < j {
      StoppedOnlyWindsDown(states, events, i, j - 1);
      StepWindsDown(states[j - 1], events[j - 1]);
    }
  }

  /** The broker gave out this tag, it was cancelled, and its binding is not live. */
  ghost predicate Withdrawn(s: Adapter, b: Binding, tag: Tag) { b in s.replied && b !in s.consumers && tag in s.cancelled }

  lemma StepKeepsWithdrawn(s: Adapter, e: Event, b: Binding, tag: Tag)
    requires Enabled(s, e) && Withdrawn(s, b, tag)
    ensures Withdrawn(Step(s, e), b, tag)
  {
  }

  lemma {:induction false} WithdrawnForGood(
      states: seq<Adapter>, events: seq<Event>, i: nat, j: nat, b: Binding, tag: Tag)
    requires Run(states, events) && i <= j <= |events| && Withdrawn(states[i], b, tag)
    ensures Withdrawn(states[j], b, tag)
    decreases j - i
  {
    hide Step, Enabled, Withdrawn;
    if i < j {
      WithdrawnForGood(states, events, i, j - 1, b, tag);
      StepKeepsWithdrawn(states[j - 1], events[j - 1], b, tag);
    }
  }

  /** A tag that arrives after stopping or an abort is cancelled in the same turn, and is not live then or ever. */
  lemma LateTagCancelled(states: seq<Adapter>, events: seq<Event>, i: nat, j: nat)
    requires Run(states, events) && i < j <= |events| && events[i].ConsumeReply? && (states[i].stopping || states[i].aborted)
    ensures events[i].tag in states[i + 1].cancelled
    ensures states[i + 1].consumers == states[i].consumers && events[i].binding !in states[i].consumers
    ensures events[i].tag in states[j].cancelled && events[i].binding !in states[j].consumers
  {
    RunSound(states, events, i);
    WithdrawnForGood(states, events, i + 1, j, events[i].binding, events[i].tag);
  }

  /** From the moment acquisition stops nothing is live, and every tag is cancelled unless the broker took it back. */
  lemma StopLeavesNoTag(
      states: seq<Adapter>, events: seq<Event>, i: nat, j: nat, b: Binding)
    requires Run(states, events) && i < j <= |events|
    requires events[i].Stop? || events[i].Abort? || events[i].ChannelFails?
    ensures states[j].consumers == map[]
    ensures b in states[j].replied ==> states[j].replied[b] in states[j].cancelled || b in states[j].revoked
  {
    StopClears(states[i], events[i]);
    StoppedOnlyWindsDown(states, events, i + 1, j);
    RunSound(states, events, j);
  }

  lemma StopClears(s: Adapter, e: Event)
    requires e.Stop? || e.Abort? || e.ChannelFails?
    ensures Step(s, e).stopping && Step(s, e).consumers == map[]
  {
  }

  /** Nobody waits for ever: a waiting delivery watches one that is inside `accept`, or may look again now. */
  lemma WaitingCanWake(states: seq<Adapter>, events: seq<Event>, i: nat, id: DeliveryId)
    requires Run(states, events) && i <= |events| && IsWaiting(states[i], id)
    ensures (exists seen :: Enabled(states[i], Wake(id, seen))) || exists d :: d in states[i].phases[id].watched && IsRunning(states[i], d)
  {
    RunSound(states, events, i);
    var s := states[i];
    assert Watches(s, s.phases[id].watched);
    var d :| d in s.phases[id].watched && (IsRunning(s, d) || HasSettled(s, d));
    assert HasSettled(s, d) ==> Enabled(s, Wake(id, d));
  }

  /** A delivery fails only because `accept` failed, its own or that of one it was kept waiting by; a failure seen stops the adapter. */
  lemma {:induction false} FailuresStop(
      states: seq<Adapter>, events: seq<Event>, i: nat, id: DeliveryId)
    requires Run(states, events) && i <= |events| && HasFailed(states[i], id)
    ensures exists k, d :: 0 <= k < i && events[k] == AcceptEnds(d, true)
    ensures states[i].phases[id].Released? ==> states[i].stopping
  {
    hide Step, Enabled;
    assert i > 0;
    FailureBefore(states[i - 1], events[i - 1], id);
    var e := events[i - 1];
    if e != AcceptEnds(id, true) {
      FailuresStop(states, events, i - 1, if HasFailed(states[i - 1], id) then id else e.seen);
    }
  }

  lemma FailureBefore(s: Adapter, e: Event, id: DeliveryId)
    requires Enabled(s, e) && HasFailed(Step(s, e), id)
    ensures HasFailed(s, id) || e == AcceptEnds(id, true) || (e.Wake? && e.id == id && HasFailed(s, e.seen))
    ensures Step(s, e).phases[id].Released? ==> Step(s, e).stopping || (HasFailed(s, id) && s.phases[id].Released?)
    ensures s.stopping ==> Step(s, e).stopping
    ensures e == AcceptEnds(id, true) ==> !Step(s, e).phases[id].Released?
  {
  }

  /** Draining a stopped adapter: once everything that was in flight has settled, nobody is inside `accept`. */
  lemma DrainedIsIdle(states: seq<Adapter>, events: seq<Event>, i: nat, j: nat)
    requires Run(states, events) && i <= j <= |events| && states[i].stopping
    requires forall d :: d in states[i].inFlight ==> HasSettled(states[j], d)
    ensures states[j].active == 0 && Inside(states[j]) == {}
  {
    RunSound(states, events, i);
    RunSound(states, events, j);
    StoppedOnlyWindsDown(states, events, i, j);
    InsideInFlight(states[i]);
    SettledIsOutside(states[j], states[i].inFlight);
  }

  lemma SettledIsOutside(s: Adapter, settled: set<DeliveryId>)
    requires Inside(s) <= settled && forall d :: d in settled ==> HasSettled(s, d)
    ensures Inside(s) == {}
  {
    if d :| d in Inside(s) {
      assert d in settled;
      assert HasSettled(s, d) && IsRunning(s, d);
    }
  }

  lemma InsideInFlight(s: Adapter)
    requires FlightSound(s)
    ensures Inside(s) <= s.inFlight
  {
  }

  // ---------------------------------------------------------------- the adapter itself

  class RabbitConsumerAdapter {
    const concurrency: nat
    var active: int
    var channelOpen: bool
    var stopping: bool
    var aborted: bool
    var consumers: map<Binding, Tag>
    var inFlight: set<DeliveryId>
    var phases: map<DeliveryId, Phase>
    var replied: map<Binding, Tag>
    var cancelled: set<Tag>
    var revoked: set<Binding>

    ghost function View(): Adapter
      reads this
    {
      Adapter(concurrency, active, channelOpen, stopping, aborted, consumers, inFlight, phases, replied, cancelled, revoked)
    }

    constructor (concurrency: nat, aborted: bool)
      requires concurrency >= 1
      ensures Initial(View()) && this.concurrency == concurrency && this.aborted == aborted
    {
      this.concurrency, active, channelOpen, stopping, this.aborted := concurrency, 0, true, false, aborted;
      consumers, inFlight, phases, replied, cancelled, revoked := map[], {}, map[], map[], {}, {};
    }

    /** The turn after `channel.consume` answered. */
    method OnConsumeReply(binding: Binding, tag: Tag)
      requires Enabled(View(), ConsumeReply(binding, tag))
      modifies this
      ensures View() == Step(old(View()), ConsumeReply(binding, tag))
    {
      replied := replied[binding := tag];
      if stopping || aborted {
        cancelled := cancelled + {tag};
      } else {
        consumers := consumers[binding := tag];
      }
    }

    method OnServerCancel(binding: Binding)
      modifies this
      ensures View() == Step(old(View()), ServerCancel(binding))
    {
      consumers := consumers - {binding};
      revoked := revoked + {binding};
      if stopping {
        return;
      }
      stopping := true;
    }

    method OnMessage(id: DeliveryId)
      requires id !in phases
      modifies this
      ensures View() == Step(old(View()), Deliver(id))
    {
      if stopping {
        return;
      }
      Schedule(id);
      inFlight := inFlight + {id};
    }

    /** A watched promise has settled: the race rejects if it failed, and the loop looks again otherwise. */
    method OnRaceSettled(id: DeliveryId, seen: DeliveryId)
      requires Enabled(View(), Wake(id, seen))
      modifies this`active, this`phases
      ensures View() == Step(old(View()), Wake(id, seen))
    {
      if phases[seen].failed {
        phases := phases[id := Settled(true)];
      } else {
        Schedule(id);
      }
    }

    /** One turn of the waiting loop. */
    method Schedule(id: DeliveryId)
      modifies this`active, this`phases
      ensures View() == Look(old(View()), id)
    {
      if !stopping && active >= concurrency {
        phases := phases[id := Waiting(inFlight)];
        return;
      }
      if stopping {
        phases := phases[id := Settled(false)];
        return;
      }
      active := active + 1;
      phases := phases[id := Running];
    }

    method FinishAccept(id: DeliveryId, failed: bool)
      requires IsRunning(View(), id)
      modifies this`active, this`phases
      ensures View() == Step(old(View()), AcceptEnds(id, failed))
    {
      active := active - 1;
      phases := phases[id := Settled(failed)];
    }

    method OnSettled(id: DeliveryId)
      requires Enabled(View(), Release(id))
      modifies this`inFlight, this`phases, this`stopping
      ensures View() == Step(old(View()), Release(id))
    {
      inFlight := inFlight - {id};
      if phases[id].failed {
        stopping := true;
      }
      phases := phases[id := Released(phases[id].failed)];
    }

    method StopAcquisition()
      modifies this`stopping, this`consumers, this`cancelled
      ensures View() == Step(old(View()), Stop)
    {
      if stopping && consumers == map[] {
        return;
      }
      stopping := true;
      var tags := consumers.Values;
      consumers := map[];
      cancelled := cancelled + tags;
    }

    method OnAbort()
      modifies this`stopping, this`consumers, this`cancelled, this`aborted
      ensures View() == Step(old(View()), Abort)
    {
      aborted := true;
      StopAcquisition();
    }

    method OnChannelFailure()
      modifies this`stopping, this`consumers, this`cancelled, this`channelOpen
      ensures View() == Step(old(View()), ChannelFails)
    {
      channelOpen := false;
      StopAcquisition();
    }
  }
}
