/**
  The two login rate counters of apps/api/src/auth/local-session-store.ts: one per
  identifier, one per source address.  A counter lives fifteen minutes from its first
  increment; a success drops the identifier's counter and takes one off the source's.
*/
module LoginRate {
  import opened Basics
  import opened SessionStore

  const RATE_WINDOW_MS: int := 15 * 60 * 1000
  const IDENTIFIER_LIMIT: nat := 5
  const SOURCE_LIMIT: nat := 30

  datatype Counters = Counters(nowMs: nat, identifiers: map<string, Entry<nat>>, sources: map<string, Entry<nat>>)

  datatype RateOp =
    | Wait(ms: nat)
    | Attempt(identifier: string, source: string)
    | Success(identifier: string, source: string)

  function Count(m: map<string, Entry<nat>>, k: string, nowMs: int): nat {
    match Get(m, k, nowMs) case None => 0 case Some(n) => n
  }

  /** INCR, and PEXPIRE when the counter starts at one. */
  function Incremented(m: map<string, Entry<nat>>, k: string, nowMs: int): map<string, Entry<nat>> {
    match Get(m, k, nowMs)
    case None => m[k := Entry(1, nowMs + RATE_WINDOW_MS)]
    case Some(n) => m[k := Entry(n + 1, if n + 1 == 1 then nowMs + RATE_WINDOW_MS else m[k].expiresAtMs)]
  }

  function ApplyRate(s: Counters, op: RateOp): (Counters, bool) {
    match op
    case Wait(ms) => (s.(nowMs := s.nowMs + ms), true)
    case Attempt(identifier, source) =>
      if Count(s.identifiers, identifier, s.nowMs) >= IDENTIFIER_LIMIT || Count(s.sources, source, s.nowMs) >= SOURCE_LIMIT then (s, false)
      else
        (s.(identifiers := Incremented(s.identifiers, identifier, s.nowMs), sources := Incremented(s.sources, source, s.nowMs)), true)
    case Success(identifier, source) =>
      var n := Count(s.sources, source, s.nowMs);
      (s.(identifiers := s.identifiers - {identifier},
          sources := if n <= 1 then s.sources - {source} else s.sources[source := Entry(n - 1, s.sources[source].expiresAtMs)]),
       true)
  }

  class RedisLoginRate {
    var nowMs: nat
    var identifiers: map<string, Entry<nat>>
    var sources: map<string, Entry<nat>>

    ghost function View(): Counters
      reads this
    {
      Counters(nowMs, identifiers, sources)
    }

    constructor ()
      ensures View() == Counters(0, map[], map[])
    {
      nowMs, identifiers, sources := 0, map[], map[];
    }

    method Advance(ms: nat)
      modifies this`nowMs
      ensures View() == ApplyRate(old(View()), Wait(ms)).0
    {
      nowMs := nowMs + ms;
    }

    method AdmitLoginAttempt(identifier: string, source: string) returns (admitted: bool)
      modifies this`identifiers, this`sources
      ensures (View(), admitted) == ApplyRate(old(View()), Attempt(identifier, source))
      ensures !admitted ==> View() == old(View())
    {
      var currentA := Count(identifiers, identifier, nowMs);
      var currentB := Count(sources, source, nowMs);
      if currentA >= IDENTIFIER_LIMIT || currentB >= SOURCE_LIMIT {
        return false;
      }
      var a := currentA + 1;
      identifiers := identifiers[identifier := Entry(a, if a == 1 then nowMs + RATE_WINDOW_MS else identifiers[identifier].expiresAtMs)];
      var b := currentB + 1;
      sources := sources[source := Entry(b, if b == 1 then nowMs + RATE_WINDOW_MS else sources[source].expiresAtMs)];
      return true;
    }

    method RecordLoginSuccess(identifier: string, source: string)
      modifies this`identifiers, this`sources
      ensures View() == ApplyRate(old(View()), Success(identifier, source)).0
    {
      identifiers := identifiers - {identifier};
      var n := Count(sources, source, nowMs);
      if n <= 1 {
        sources := sources - {source};
      } else {
        sources := sources[source := Entry(n - 1, sources[source].expiresAtMs)];
      }
    }
  }

  function RateAt(s: Counters, ops: seq<RateOp>, i: nat): Counters
    requires i <= |ops|
  {
    if i == 0 then s else ApplyRate(RateAt(s, ops, i - 1), ops[i - 1]).0
  }

  predicate AdmittedAt(s: Counters, ops: seq<RateOp>, i: nat)
    requires i < |ops|
  {
    ops[i].Attempt? && ApplyRate(RateAt(s, ops, i), ops[i]).1
  }

  // ---------------------------------------------------------------- counters stay small and short-lived

  ghost predicate InBounds(m: map<string, Entry<nat>>, limit: nat, nowMs: int) {
    forall k :: k in m ==> 1 <= m[k].value <= limit && m[k].expiresAtMs <= nowMs + 900000
  }

  ghost predicate Bounded(s: Counters) {
    InBounds(s.identifiers, 5, s.nowMs) && InBounds(s.sources, 30, s.nowMs)
  }

  lemma StepKeepsBounds(s: Counters, op: RateOp)
    requires Bounded(s)
    ensures Bounded(ApplyRate(s, op).0)
  {
  }

  /** Every stored counter is in 1..5 or 1..30 and ends at most fifteen minutes from now. */
  lemma {:induction false} CountersBounded(ops: seq<RateOp>, i: nat)
    requires i <= |ops|
    ensures Bounded(RateAt(Counters(0, map[], map[]), ops, i))
  {
    hide ApplyRate;
    if i > 0 {
      CountersBounded(ops, i - 1);
      StepKeepsBounds(RateAt(Counters(0, map[], map[]), ops, i - 1), ops[i - 1]);
    }
  }

  /** A counter keeps the expiry it was created with for as long as it counts. */
  lemma ExpiryFixedAtCreation(s: Counters, op: RateOp, k: string)
    requires Bounded(s)
    ensures var after := ApplyRate(s, op).0;
            && (Get(s.identifiers, k, s.nowMs).Some? && Get(after.identifiers, k, after.nowMs).Some? ==>
                  after.identifiers[k].expiresAtMs == s.identifiers[k].expiresAtMs)
            && (Get(s.identifiers, k, s.nowMs).None? && Get(after.identifiers, k, after.nowMs).Some? ==>
                  after.identifiers[k] == Entry(1, s.nowMs + 900000))
            && (Get(s.sources, k, s.nowMs).Some? && Get(after.sources, k, after.nowMs).Some? ==>
                  after.sources[k].expiresAtMs == s.sources[k].expiresAtMs)
            && (Get(s.sources, k, s.nowMs).None? && Get(after.sources, k, after.nowMs).Some? ==>
                  after.sources[k] == Entry(1, s.nowMs + 900000))
  {
  }

  // ---------------------------------------------------------------- at most ten admissions in fifteen minutes

  /** An admission of one identifier: when, and when the counter it fell into began. */
  datatype Admission = Admission(at: int, begun: int)

  function Log(s: Counters, ops: seq<RateOp>, id: string, i: nat): seq<Admission>
    requires i <= |ops|
  {
    if i == 0 then []
    else
      var earlier := Log(s, ops, id, i - 1);
      if AdmittedAt(s, ops, i - 1) && ops[i - 1].identifier == id && id in RateAt(s, ops, i).identifiers then
        earlier + [Admission(RateAt(s, ops, i - 1).nowMs, RateAt(s, ops, i).identifiers[id].expiresAtMs - RATE_WINDOW_MS)]
      else earlier
  }

  /** a's counter is over before b's begins, and a was admitted before that. */
  predicate Before(a: Admission, b: Admission) { a.begun + RATE_WINDOW_MS < b.begun && a.at <= b.begun }

  ghost predicate WellOrdered(log: seq<Admission>) {
    && (forall n :: 0 <= n < |log| ==> log[n].begun <= log[n].at)
    && (forall n, m :: 0 <= n < m < |log| ==> log[n].at <= log[m].at)
    && (forall n, m :: 0 <= n < m < |log| ==> log[n].begun == log[m].begun || Before(log[n], log[m]))
    && (forall n, m :: 0 <= n && n + IDENTIFIER_LIMIT <= m < |log| ==> log[n].begun != log[m].begun)
  }

  /** How the log fits the identifier's counter as it stands. */
  ghost predicate Fits(log: seq<Admission>, s: Counters, id: string) {
    && WellOrdered(log)
    && (forall n :: 0 <= n < |log| ==> log[n].at <= s.nowMs)
    && match Get(s.identifiers, id, s.nowMs)
       case None => forall n :: 0 <= n < |log| ==> log[n].begun + RATE_WINDOW_MS < s.nowMs
       case Some(count) =>
         var begun := s.identifiers[id].expiresAtMs - RATE_WINDOW_MS;
         && begun <= s.nowMs
         && (forall n :: 0 <= n < |log| ==> log[n].begun == begun || (log[n].begun + RATE_WINDOW_MS < begun && log[n].at <= begun))
         && (forall n :: 0 <= n && n + count < |log| ==> log[n].begun != begun)
  }

  lemma FitsAdmission(log: seq<Admission>, s: Counters, op: RateOp)
    requires op.Attempt? && ApplyRate(s, op).1 && Bounded(s) && Fits(log, s, op.identifier)
    ensures op.identifier in ApplyRate(s, op).0.identifiers
    ensures var after := ApplyRate(s, op).0;
            Fits(log + [Admission(s.nowMs, after.identifiers[op.identifier].expiresAtMs - RATE_WINDOW_MS)], after, op.identifier)
  {
    AdmissionCounts(s, op);
    hide ApplyRate;
  }

  lemma AdmissionCounts(s: Counters, op: RateOp)
    requires op.Attempt? && ApplyRate(s, op).1 && Bounded(s)
    ensures var before, after := Get(s.identifiers, op.identifier, s.nowMs), ApplyRate(s, op).0;
            && after.nowMs == s.nowMs && op.identifier in after.identifiers
            && (before.None? ==> after.identifiers[op.identifier] == Entry(1, s.nowMs + RATE_WINDOW_MS))
            && (before.Some? ==> before.value < IDENTIFIER_LIMIT)
            && (before.Some? ==> after.identifiers[op.identifier] == Entry(before.value + 1, s.identifiers[op.identifier].expiresAtMs))
  {
  }

  lemma FitsOther(log: seq<Admission>, s: Counters, op: RateOp, id: string)
    requires Bounded(s) && Fits(log, s, id)
    requires !(op.Success? && op.identifier == id) && !(op.Attempt? && op.identifier == id && ApplyRate(s, op).1)
    ensures Fits(log, ApplyRate(s, op).0, id)
  {
  }

  lemma LogStep(s: Counters, ops: seq<RateOp>, id: string, i: nat)
    requires 0 < i <= |ops|
    ensures RateAt(s, ops, i) == ApplyRate(RateAt(s, ops, i - 1), ops[i - 1]).0
    ensures Log(s, ops, id, i) ==
              if AdmittedAt(s, ops, i - 1) && ops[i - 1].identifier == id && id in RateAt(s, ops, i).identifiers then
                Log(s, ops, id, i - 1) + [Admission(RateAt(s, ops, i - 1).nowMs, RateAt(s, ops, i).identifiers[id].expiresAtMs - RATE_WINDOW_MS)]
              else Log(s, ops, id, i - 1)
  {
    hide ApplyRate;
  }

  lemma {:induction false} LogFits(s: Counters, ops: seq<RateOp>, id: string, i: nat)
    requires Bounded(s) && i <= |ops| && forall j :: 0 <= j < |ops| ==> !(ops[j].Success? && ops[j].identifier == id)
    ensures Bounded(RateAt(s, ops, i)) && Fits(Log(s, ops, id, i), RateAt(s, ops, i), id)
  {
    if i == 0 {
      hide ApplyRate, Bounded, Fits;
      BeginFits(s, id);
    } else {
      hide ApplyRate, Bounded, Fits, RateAt, Log;
      var before := RateAt(s, ops, i - 1);
      LogFits(s, ops, id, i - 1);
      LogStep(s, ops, id, i);
      StepKeepsBounds(before, ops[i - 1]);
      if AdmittedAt(s, ops, i - 1) && ops[i - 1].identifier == id {
        FitsAdmission(Log(s, ops, id, i - 1), before, ops[i - 1]);
      } else {
        FitsOther(Log(s, ops, id, i - 1), before, ops[i - 1], id);
      }
    }
  }

  lemma BeginFits(s: Counters, id: string)
    requires Bounded(s)
    ensures Fits([], s, id)
  {
  }

  /** The admissions at or after t and before t plus fifteen minutes. */
  function Within(log: seq<Admission>, t: int): set<int> {
    set n | 0 <= n < |log| && t <= log[n].at < t + 900000 :: n
  }

  lemma ElevenSpanAWindow(log: seq<Admission>, n: nat)
    requires WellOrdered(log) && n + 2 * IDENTIFIER_LIMIT < |log|
    ensures log[n + 2 * IDENTIFIER_LIMIT].at > log[n].at + RATE_WINDOW_MS
  {
    assert Before(log[n], log[n + IDENTIFIER_LIMIT]);
    assert Before(log[n + IDENTIFIER_LIMIT], log[n + 2 * IDENTIFIER_LIMIT]);
  }

  function Range(lo: int, count: nat): set<int> {
    if count == 0 then {} else Range(lo, count - 1) + {lo + count - 1}
  }

  lemma {:induction false} RangeExact(lo: int, count: nat)
    ensures forall n :: n in Range(lo, count) <==> lo <= n < lo + count
    ensures |Range(lo, count)| == count
  {
    if count > 0 {
      RangeExact(lo, count - 1);
    }
  }

  /** The first admission, from n on, at or after t. */
  function FirstFrom(log: seq<Admission>, t: int, n: nat): (r: nat)
    requires n <= |log|
    ensures n <= r <= |log|
    ensures forall m :: n <= m < r ==> log[m].at < t
    ensures r < |log| ==> t <= log[r].at
    decreases |log| - n
  {
    if n == |log| || t <= log[n].at then n else FirstFrom(log, t, n + 1)
  }

  /**
    From any state whose counters are in bounds, however attempts and waits of all identifiers
    interleave, any half-open fifteen minutes hold at most ten admissions of an identifier that
    records no success meanwhile.
  */
  lemma AtMostTenAdmissions(s: Counters, ops: seq<RateOp>, id: string, t: int)
    requires Bounded(s) && forall j :: 0 <= j < |ops| ==> !(ops[j].Success? && ops[j].identifier == id)
    ensures |Within(Log(s, ops, id, |ops|), t)| <= 10
  {
    LogFits(s, ops, id, |ops|);
    hide ApplyRate, Bounded, Log, RateAt;
    var log := Log(s, ops, id, |ops|);
    var hits, first := Within(log, t), FirstFrom(log, t, 0);
    forall n | n in hits ensures first <= n < first + 2 * IDENTIFIER_LIMIT {
      if n >= first + 2 * IDENTIFIER_LIMIT {
        ElevenSpanAWindow(log, first);
      }
    }
    RangeExact(first, 2 * IDENTIFIER_LIMIT);
    SubsetSize(hits, Range(first, 2 * IDENTIFIER_LIMIT));
  }

  // ---------------------------------------------------------------- who is admitted

  const START := Counters(0, map[], map[])

  /** The admitted attempts of an identifier since its last success. */
  function Charged(ops: seq<RateOp>, id: string, i: nat): nat
    requires i <= |ops|
  {
    if i == 0 then 0
    else
      var n := Charged(ops, id, i - 1);
      match ops[i - 1]
      case Attempt(identifier, _) => if identifier == id && AdmittedAt(START, ops, i - 1) then n + 1 else n
      case Success(identifier, _) => if identifier == id then 0 else n
      case Wait(_) => n
  }

  /** The admitted attempts from a source, each success taking one off. */
  function ChargedToSource(ops: seq<RateOp>, source: string, i: nat): nat
    requires i <= |ops|
  {
    if i == 0 then 0
    else
      var n := ChargedToSource(ops, source, i - 1);
      match ops[i - 1]
      case Attempt(_, from) => if from == source && AdmittedAt(START, ops, i - 1) then n + 1 else n
      case Success(_, from) => if from == source && n > 0 then n - 1 else n
      case Wait(_) => n
  }

  /** Every counter lasts beyond the first fifteen minutes. */
  ghost predicate Lasting(s: Counters) {
    && (forall k :: k in s.identifiers ==> 1 <= s.identifiers[k].value && 900000 <= s.identifiers[k].expiresAtMs)
    && (forall k :: k in s.sources ==> 1 <= s.sources[k].value && 900000 <= s.sources[k].expiresAtMs)
  }

  lemma StepLasts(s: Counters, op: RateOp)
    requires Lasting(s) && s.nowMs <= 900000
    ensures Lasting(ApplyRate(s, op).0) && s.nowMs <= ApplyRate(s, op).0.nowMs
  {
  }

  lemma StepCharges(s: Counters, op: RateOp, id: string)
    requires Lasting(s) && ApplyRate(s, op).0.nowMs <= 900000
    ensures var (t, admitted) := ApplyRate(s, op);
            var n := Count(s.identifiers, id, s.nowMs);
            Count(t.identifiers, id, t.nowMs) ==
              match op
              case Attempt(identifier, _) => if identifier == id && admitted then n + 1 else n
              case Success(identifier, _) => if identifier == id then 0 else n
              case Wait(_) => n
  {
  }

  lemma StepChargesSource(s: Counters, op: RateOp, source: string)
    requires Lasting(s) && ApplyRate(s, op).0.nowMs <= 900000
    ensures var (t, admitted) := ApplyRate(s, op);
            var n := Count(s.sources, source, s.nowMs);
            Count(t.sources, source, t.nowMs) ==
              match op
              case Attempt(_, from) => if from == source && admitted then n + 1 else n
              case Success(_, from) => if from == source && n > 0 then n - 1 else n
              case Wait(_) => n
  {
  }

  lemma {:induction false} CountsAreCharges(ops: seq<RateOp>, i: nat, id: string, source: string)
    requires i <= |ops| && RateAt(START, ops, i).nowMs <= 900000
    ensures var s := RateAt(START, ops, i);
            Lasting(s) && Count(s.identifiers, id, s.nowMs) == Charged(ops, id, i) && Count(s.sources, source, s.nowMs) == ChargedToSource(ops, source, i)
  {
    hide ApplyRate, Count, Lasting;
    if i > 0 {
      ClockOnward(RateAt(START, ops, i - 1), ops[i - 1]);
      CountsAreCharges(ops, i - 1, id, source);
      StepLasts(RateAt(START, ops, i - 1), ops[i - 1]);
      StepCharges(RateAt(START, ops, i - 1), ops[i - 1], id);
      StepChargesSource(RateAt(START, ops, i - 1), ops[i - 1], source);
    } else {
      StartCounts(id, source);
    }
  }

  lemma ClockOnward(s: Counters, op: RateOp)
    ensures s.nowMs <= ApplyRate(s, op).0.nowMs
  {
  }

  lemma StartCounts(id: string, source: string)
    ensures Lasting(START) && Count(START.identifiers, id, 0) == 0 && Count(START.sources, source, 0) == 0
  {
  }

  lemma AdmitsBelow(s: Counters, op: RateOp)
    requires op.Attempt?
    ensures ApplyRate(s, op).1 <==> Count(s.identifiers, op.identifier, s.nowMs) < 5 && Count(s.sources, op.source, s.nowMs) < 30
  {
  }

  /**
    Within the first fifteen minutes an attempt is admitted if and only if fewer than five of its identifier have been
    since the identifier's last success, and fewer than thirty from its source, less one for each success from there.
  */
  lemma AdmittedExactly(ops: seq<RateOp>, i: nat)
    requires i < |ops| && ops[i].Attempt? && RateAt(START, ops, i).nowMs <= 900000
    ensures AdmittedAt(START, ops, i) <==> Charged(ops, ops[i].identifier, i) < 5 && ChargedToSource(ops, ops[i].source, i) < 30
  {
    CountsAreCharges(ops, i, ops[i].identifier, ops[i].source);
    AdmitsBelow(RateAt(START, ops, i), ops[i]);
    hide ApplyRate, Count, Lasting, Charged, ChargedToSource;
  }
}
