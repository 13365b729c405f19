/**
  What the bounded consumer of apps/worker/src/rabbit-adapter.ts does do: who enters `accept`, which tags become live,
  and what stops it.
*/
module ConsumerOutcomes {
  import opened ConsumerAdapter

  /** Where a delivery stands after it has looked. */
  function AfterLook(s: Adapter): Phase {
    if s.stopping then Settled(false) else if |Inside(s)| < s.concurrency then Running else Waiting(s.inFlight)
  }

  lemma DeliverStep(s: Adapter, e: Event)
    requires CountSound(s) && Enabled(s, e) && e.Deliver?
    ensures var t := Step(s, e);
            && (s.stopping ==> t == s)
            && (!s.stopping ==> e.id in t.phases && t.phases[e.id] == AfterLook(s) && t.inFlight == s.inFlight + {e.id})
  {
    hide Inside;
  }

  lemma WakeStep(s: Adapter, e: Event)
    requires CountSound(s) && Enabled(s, e) && e.Wake?
    ensures var t := Step(s, e);
            && e.seen in s.phases && e.id in t.phases && t.inFlight == s.inFlight
            && t.phases[e.id] == if HasSettled(s, e.seen) && s.phases[e.seen].failed then Settled(true) else AfterLook(s)
  {
    hide Inside;
  }

  /**
    In every run a delivery enters `accept` as it arrives or wakes if and only if the adapter has not stopped, fewer than
    `concurrency` are inside, and what it was kept waiting by did not fail; it waits for those in flight if there is no place.
  */
  lemma EntersExactly(states: seq<Adapter>, events: seq<Event>, i: nat)
    requires Run(states, events) && i < |events| && (events[i].Deliver? || events[i].Wake?)
    ensures var s, t, id := states[i], states[i + 1], events[i].id;
            var failed := events[i].Wake? && HasSettled(s, events[i].seen) && s.phases[events[i].seen].failed;
            && (IsRunning(t, id) <==> !s.stopping && !failed && |Inside(s)| < states[0].concurrency)
            && (IsWaiting(t, id) <==> !s.stopping && !failed && |Inside(s)| >= states[0].concurrency)
            && (IsWaiting(t, id) ==> t.phases[id].watched == s.inFlight)
            && (events[i].Deliver? && !s.stopping ==> id in t.inFlight)
            && (events[i].Deliver? && s.stopping ==> t == s)
  {
    RunSound(states, events, i);
    var s, e := states[i], events[i];
    assert Enabled(s, e) && states[i + 1] == Step(s, e);
    if e.Deliver? {
      DeliverStep(s, e);
    } else {
      WakeStep(s, e);
    }
    hide Step, Run, Sound, Inside;
  }

  /** A consumer tag becomes live if it arrives before any stop or abort, and is cancelled otherwise. */
  lemma TagExactly(states: seq<Adapter>, events: seq<Event>, i: nat)
    requires Run(states, events) && i < |events| && events[i].ConsumeReply?
    ensures var s, t := states[i], states[i + 1];
            var late := s.stopping || s.aborted;
            && t.consumers == (if late then s.consumers else s.consumers[events[i].binding := events[i].tag])
            && t.cancelled == (if late then s.cancelled + {events[i].tag} else s.cancelled)
  {
    assert Enabled(states[i], events[i]);
  }

  /** The adapter stops when the broker takes a consumer back, a delivery fails, the signal aborts, it is told to, or the channel fails. */
  predicate Stops(s: Adapter, e: Event) {
    match e
    case ServerCancel(_) => true
    case Release(id) => id in s.phases && s.phases[id] == Settled(true)
    case Abort => true
    case Stop => true
    case ChannelFails => true
    case _ => false
  }

  lemma StopStep(s: Adapter, e: Event)
    requires Enabled(s, e)
    ensures Step(s, e).stopping <==> s.stopping || Stops(s, e)
  {
    if e.Deliver? || e.Wake? { LookFacts(s, e.id); }
    hide Look;
  }

  lemma StopsExactly(states: seq<Adapter>, events: seq<Event>, i: nat)
    requires Run(states, events) && i < |events|
    ensures states[i + 1].stopping <==> states[i].stopping || Stops(states[i], events[i])
  {
    hide Step, Enabled, Stops, Initial;
    StopStep(states[i], events[i]);
  }

  /** Whoever leaves `accept` frees its place, and is settled as it ended. */
  lemma LeavesExactly(states: seq<Adapter>, events: seq<Event>, i: nat)
    requires Run(states, events) && i < |events| && events[i].AcceptEnds?
    ensures var s, t, id := states[i], states[i + 1], events[i].id;
            && id in Inside(s) && Inside(t) == Inside(s) - {id} && id in t.phases && t.phases[id] == Settled(events[i].failed)
  {
    assert Enabled(states[i], events[i]);
  }

  /** A stop, an abort or a lost channel cancels exactly the tags that were live; an abort and a lost channel are remembered. */
  lemma CancelsExactly(states: seq<Adapter>, events: seq<Event>, i: nat)
    requires Run(states, events) && i < |events| && (events[i].Stop? || events[i].Abort? || events[i].ChannelFails?)
    ensures states[i + 1].cancelled == states[i].cancelled + (set b | b in states[i].consumers :: states[i].consumers[b])
    ensures states[i + 1].consumers == map[]
    ensures states[i + 1].aborted <==> states[i].aborted || events[i].Abort?
    ensures states[i + 1].channelOpen <==> states[i].channelOpen && !events[i].ChannelFails?
  {
    assert Enabled(states[i], events[i]);
    assert (set b | b in states[i].consumers :: states[i].consumers[b]) == states[i].consumers.Values;
  }
}
