/**
  safeJson and invocationFingerprint of packages/crm-modules/ai-gateway/src/validation.ts.
*/
module SafeJson {
  import opened Basics
  import opened JsonText
  import opened CanonicalJson
  import opened JsonReader
  import opened CanonicalIdentity
  import opened CanonicalSpelling

  const MAX_DEPTH := 20
  const MAX_WIDTH := 1000

  /** inspectPlainData, on values whose properties are plain data properties. */
  predicate InspectPlainData(v: Value, depth: nat) {
    if depth > MAX_DEPTH then false
    else match v
      case Array(items) => |items| <= MAX_WIDTH && forall i :: 0 <= i < |items| ==> InspectPlainData(items[i], depth + 1)
      case Object(ms) => |ms| <= MAX_WIDTH && forall i :: 0 <= i < |ms| ==> InspectPlainData(ms[i].value, depth + 1)
      case Unsupported => false
      case _ => true
  }

  /** `scan`: the same limits again, and no forbidden member name. */
  predicate Scan(v: Value, depth: nat, forbidden: Text -> bool) {
    if depth > MAX_DEPTH then false
    else match v
      case Array(items) => |items| <= MAX_WIDTH && forall i :: 0 <= i < |items| ==> Scan(items[i], depth + 1, forbidden)
      case Object(ms) =>
        |ms| <= MAX_WIDTH && forall i :: 0 <= i < |ms| ==> !forbidden(ms[i].key) && Scan(ms[i].value, depth + 1, forbidden)
      case Unsupported => false
      case _ => true
  }

  /** Length of a text in UTF-8; a lone surrogate is replaced by a three-byte character. */
  function Utf8Length(t: Text): nat {
    if t == [] then 0
    else if |t| >= 2 && IsHighSurrogate(t[0]) && IsLowSurrogate(t[1]) then 4 + Utf8Length(t[2..])
    else (if t[0] < 0x80 then 1 else if t[0] < 0x800 then 2 else 3) + Utf8Length(t[1..])
  }

  /** What safeJson returns, or which error it throws; whatever the inspection throws becomes ai_invalid_input. */
  datatype Checked = Passed(value: Value) | InvalidInput | DataPolicyRejected

  function Safe(v: Value, maximumBytes: nat, forbidden: Text -> bool): Checked
    requires WellFormed(v)
  {
    if !InspectPlainData(v, 0) then InvalidInput
    else match Canonical(v)
      case None => InvalidInput
      case Some(encoded) =>
        if Utf8Length(encoded) > maximumBytes then DataPolicyRejected
        else if !Scan(v, 0, forbidden) then DataPolicyRejected
        else match Parse(encoded)
          case None => InvalidInput
          case Some(value) => Passed(value)
  }

  // ---------------------------------------------------------------- what is accepted, without counting levels downwards

  /** How many levels of arrays and objects lie above the deepest value inside v. */
  function Depth(v: Value): nat
    decreases v, 0
  {
    match v
    case Array(items) => DeepestItem(items)
    case Object(ms) => DeepestMember(ms)
    case _ => 0
  }

  function DeepestItem(items: seq<Value>): nat
    decreases items, 1
  {
    if items == [] then 0
    else var d := 1 + Depth(items[0]); var e := DeepestItem(items[1..]); if d < e then e else d
  }

  function DeepestMember(ms: seq<Member<Value>>): nat
    decreases ms, 1
  {
    if ms == [] then 0
    else var d := 1 + Depth(ms[0].value); var e := DeepestMember(ms[1..]); if d < e then e else d
  }

  predicate Narrow(v: Value) {
    match v
    case Array(items) => |items| <= 1000 && forall i :: 0 <= i < |items| ==> Narrow(items[i])
    case Object(ms) => |ms| <= 1000 && forall i :: 0 <= i < |ms| ==> Narrow(ms[i].value)
    case _ => true
  }

  predicate NoForbiddenName(v: Value, forbidden: Text -> bool) {
    match v
    case Array(items) => forall i :: 0 <= i < |items| ==> NoForbiddenName(items[i], forbidden)
    case Object(ms) => forall i :: 0 <= i < |ms| ==> !forbidden(ms[i].key) && NoForbiddenName(ms[i].value, forbidden)
    case _ => true
  }

  lemma {:induction false} DeepestItemExact(items: seq<Value>, limit: int)
    ensures DeepestItem(items) <= limit <==> 0 <= limit && forall i :: 0 <= i < |items| ==> 1 + Depth(items[i]) <= limit
    decreases items
  {
    if items != [] {
      DeepestItemExact(items[1..], limit);
      assert items == [items[0]] + items[1..];
      hide Depth;
    }
  }

  lemma {:induction false} DeepestMemberExact(ms: seq<Member<Value>>, limit: int)
    ensures DeepestMember(ms) <= limit <==> 0 <= limit && forall i :: 0 <= i < |ms| ==> 1 + Depth(ms[i].value) <= limit
    decreases ms
  {
    if ms != [] {
      DeepestMemberExact(ms[1..], limit);
      assert ms == [ms[0]] + ms[1..];
      hide Depth;
    }
  }

  /** Inspecting from a depth accepts exactly the supported, narrow values that are not too deep. */
  lemma {:induction false} InspectExact(v: Value, depth: nat)
    ensures InspectPlainData(v, depth) <==> Supported(v) && Narrow(v) && depth + Depth(v) <= 20
    decreases v
  {
    match v {
      case Array(items) =>
        forall i | 0 <= i < |items|
          ensures InspectPlainData(items[i], depth + 1) <==> Supported(items[i]) && Narrow(items[i]) && depth + 1 + Depth(items[i]) <= MAX_DEPTH
        {
          InspectExact(items[i], depth + 1);
        }
        DeepestItemExact(items, MAX_DEPTH - depth);
      case Object(ms) =>
        forall i | 0 <= i < |ms|
          ensures InspectPlainData(ms[i].value, depth + 1) <==> Supported(ms[i].value) && Narrow(ms[i].value) && depth + 1 + Depth(ms[i].value) <= MAX_DEPTH
        {
          InspectExact(ms[i].value, depth + 1);
        }
        DeepestMemberExact(ms, MAX_DEPTH - depth);
      case _ =>
    }
  }

  lemma {:induction false} ScanExact(v: Value, depth: nat, forbidden: Text -> bool)
    ensures Scan(v, depth, forbidden) <==> InspectPlainData(v, depth) && NoForbiddenName(v, forbidden)
    decreases v
  {
    match v {
      case Array(items) =>
        forall i | 0 <= i < |items|
          ensures Scan(items[i], depth + 1, forbidden) <==> InspectPlainData(items[i], depth + 1) && NoForbiddenName(items[i], forbidden)
        {
          ScanExact(items[i], depth + 1, forbidden);
        }
      case Object(ms) =>
        forall i | 0 <= i < |ms|
          ensures Scan(ms[i].value, depth + 1, forbidden) <==> InspectPlainData(ms[i].value, depth + 1) && NoForbiddenName(ms[i].value, forbidden)
        {
          ScanExact(ms[i].value, depth + 1, forbidden);
        }
      case _ =>
    }
  }

  /** Plain data within the inspection's limits. */
  predicate Inspectable(v: Value) { Supported(v) && Narrow(v) && Depth(v) <= 20 }

  /**
    safeJson throws ai_invalid_input for exactly the values that are not plain data or are too wide or too deep, and
    ai_data_policy_rejected for exactly the others that are too long or have a forbidden name.  What it returns is the
    same JSON value with the same canonical text, so a fingerprint taken later is unchanged.
  */
  lemma SafeExact(v: Value, maximumBytes: nat, forbidden: Text -> bool)
    requires WellFormed(v)
    ensures WellFormed(Normalized(v))
    ensures Safe(v, maximumBytes, forbidden).InvalidInput? <==> !Inspectable(v)
    ensures Safe(v, maximumBytes, forbidden).DataPolicyRejected? <==>
              Inspectable(v) && !(NoForbiddenName(v, forbidden) && BytesFrom(PlainText(Normalized(v)), 0) <= maximumBytes)
    ensures var r := Safe(v, maximumBytes, forbidden);
            r.Passed? ==> WellFormed(r.value) && Supported(r.value) && Same(v, r.value) && Canonical(r.value) == Canonical(v)
  {
    hide Canonical, Parse, InspectPlainData, Scan, Same, WellFormed, Supported, Normalized, PlainText, Utf8Length;
    CanonicalPrintsNormalized(v);
    Utf8Counts(PlainText(Normalized(v)), 0);
    assert PlainText(Normalized(v))[0..] == PlainText(Normalized(v));
    InspectExact(v, 0);
    ScanExact(v, 0, forbidden);
    CanonicalRoundTrip(v);
    if Supported(v) {
      NormalizedWellFormed(v);
      CanonicalIdentifies(v, Normalized(v));
    }
  }

  /** What unit i adds: half of a pair two bytes, any other one, two or three. */
  function BytesAt(t: Text, i: nat): nat
    requires i < |t|
  {
    if IsPaired(t, i) then 2 else if t[i] < 128 then 1 else if t[i] < 2048 then 2 else 3
  }

  function BytesFrom(t: Text, i: nat): nat
    requires i <= |t|
    decreases |t| - i
  {
    if i == |t| then 0 else BytesAt(t, i) + BytesFrom(t, i + 1)
  }

  lemma {:induction false} Utf8Counts(t: Text, i: nat)
    requires i <= |t| && (0 < i < |t| ==> !(0xD800 <= t[i - 1] < 0xDC00 && 0xDC00 <= t[i] < 0xE000))
    ensures Utf8Length(t[i..]) == BytesFrom(t, i)
    decreases |t| - i
  {
    if i < |t| {
      var n := if i + 1 < |t| && IsHighSurrogate(t[i]) && IsLowSurrogate(t[i + 1]) then 2 else 1;
      assert t[i..][n..] == t[i + n..];
      Utf8Counts(t, i + n);
    }
  }

  // ---------------------------------------------------------------- the fingerprint of an invocation

  datatype Actor = Actor(actorId: Text, actorType: Text, assignmentId: Option<Text>, workforcePersonId: Option<Text>)

  datatype Command = Command(
    actor: Actor, dataClassification: Text, input: Value, operationId: Text,
    resourceReference: Text, traceId: Text, useCaseId: Text)

  const ACTOR := Ascii("actor")
  const ACTOR_ID := Ascii("actorId")
  const ACTOR_TYPE := Ascii("actorType")
  const ASSIGNMENT_ID := Ascii("assignmentId")
  const WORKFORCE_PERSON_ID := Ascii("workforcePersonId")
  const DATA_CLASSIFICATION := Ascii("dataClassification")
  const INPUT := Ascii("input")
  const OPERATION_ID := Ascii("operationId")
  const RESOURCE_REFERENCE := Ascii("resourceReference")
  const USE_CASE_ID := Ascii("useCaseId")

  function Present<T>(value: Option<Text>, item: T): seq<T> { if value.Some? then [item] else [] }

  /** The member names of an actor, out of the four possible ones. */
  function ActorKeys(keys: seq<Text>, a: Actor): seq<Text>
    requires |keys| == 4
  {
    keys[..2] + Present(a.assignmentId, keys[2]) + Present(a.workforcePersonId, keys[3])
  }

  function ActorTexts(a: Actor): seq<Text> {
    [a.actorId, a.actorType]
      + (if a.assignmentId.Some? then [a.assignmentId.value] else [])
      + (if a.workforcePersonId.Some? then [a.workforcePersonId.value] else [])
  }

  function TextMembers(keys: seq<Text>, texts: seq<Text>): (r: seq<Member<Value>>)
    requires |keys| == |texts|
    ensures |r| == |keys| && forall i :: 0 <= i < |r| ==> r[i] == Member(keys[i], String(texts[i]))
  {
    seq(|keys|, i requires 0 <= i < |keys| => Member(keys[i], String(texts[i])))
  }

  function ActorValueNamed(keys: seq<Text>, a: Actor): Value
    requires |keys| == 4
  {
    Object(TextMembers(ActorKeys(keys, a), ActorTexts(a)))
  }

  function ActorValue(a: Actor): Value {
    ActorValueNamed([ACTOR_ID, ACTOR_TYPE, ASSIGNMENT_ID, WORKFORCE_PERSON_ID], a)
  }

  function CommandValues(actor: Value, c: Command): (r: seq<Value>)
    ensures |r| == 6
  {
    [actor, String(c.dataClassification), c.input, String(c.operationId), String(c.resourceReference), String(c.useCaseId)]
  }

  function ValueMembers(keys: seq<Text>, values: seq<Value>): (r: seq<Member<Value>>)
    requires |keys| == |values|
    ensures |r| == |keys| && forall i :: 0 <= i < |r| ==> r[i] == Member(keys[i], values[i])
  {
    seq(|keys|, i requires 0 <= i < |keys| => Member(keys[i], values[i]))
  }

  /** The object invocationFingerprint digests: every field but the trace id. */
  function FingerprintValue(c: Command): Value {
    Object(ValueMembers(
      [ACTOR, DATA_CLASSIFICATION, INPUT, OPERATION_ID, RESOURCE_REFERENCE, USE_CASE_ID],
      CommandValues(ActorValue(c.actor), c)))
  }

  /** The text whose SHA-256 is the fingerprint. */
  function FingerprintText(c: Command): Option<Text>
    requires WellFormed(c.input)
  {
    FingerprintWellFormed(c);
    Canonical(FingerprintValue(c))
  }

  predicate Distinct(keys: seq<Text>) { forall i, j :: 0 <= i < j < |keys| ==> keys[i] != keys[j] }

  lemma KeysDistinct()
    ensures Distinct([ACTOR_ID, ACTOR_TYPE, ASSIGNMENT_ID, WORKFORCE_PERSON_ID])
    ensures Distinct([ACTOR, DATA_CLASSIFICATION, INPUT, OPERATION_ID, RESOURCE_REFERENCE, USE_CASE_ID])
  {
    assert ACTOR_ID[5] != ACTOR_TYPE[5] && ACTOR_ID[1] != ASSIGNMENT_ID[1] && ACTOR_ID[0] != WORKFORCE_PERSON_ID[0];
    assert ACTOR_TYPE[1] != ASSIGNMENT_ID[1] && ACTOR_TYPE[0] != WORKFORCE_PERSON_ID[0] && ASSIGNMENT_ID[0] != WORKFORCE_PERSON_ID[0];
    assert ACTOR[0] == 0x61 && DATA_CLASSIFICATION[0] == 0x64 && INPUT[0] == 0x69;
    assert OPERATION_ID[0] == 0x6F && RESOURCE_REFERENCE[0] == 0x72 && USE_CASE_ID[0] == 0x75;
  }

  lemma ActorKeysDistinct(keys: seq<Text>, a: Actor)
    requires |keys| == 4 && Distinct(keys)
    ensures Distinct(ActorKeys(keys, a))
  {
  }

  lemma TextMembersWellFormed(keys: seq<Text>, texts: seq<Text>)
    requires |keys| == |texts| && Distinct(keys)
    ensures WellFormed(Object(TextMembers(keys, texts))) && Supported(Object(TextMembers(keys, texts)))
  {
  }

  lemma ActorWellFormed(keys: seq<Text>, a: Actor)
    requires |keys| == 4 && Distinct(keys)
    ensures WellFormed(ActorValueNamed(keys, a)) && Supported(ActorValueNamed(keys, a))
  {
    ActorKeysDistinct(keys, a);
    TextMembersWellFormed(ActorKeys(keys, a), ActorTexts(a));
  }

  lemma ValueMembersWellFormed(keys: seq<Text>, values: seq<Value>)
    requires |keys| == |values| && Distinct(keys) && forall i :: 0 <= i < |values| ==> WellFormed(values[i])
    ensures WellFormed(Object(ValueMembers(keys, values)))
    ensures Supported(Object(ValueMembers(keys, values))) <==> forall i :: 0 <= i < |values| ==> Supported(values[i])
  {
  }

  lemma CommandValuesWellFormed(actor: Value, c: Command)
    requires WellFormed(actor) && Supported(actor) && WellFormed(c.input)
    ensures var vs := CommandValues(actor, c);
            && (forall i :: 0 <= i < 6 ==> WellFormed(vs[i]))
            && ((forall i :: 0 <= i < 6 ==> Supported(vs[i])) <==> Supported(c.input))
  {
    var vs := CommandValues(actor, c);
    assert vs[2] == c.input;
  }

  lemma FingerprintWellFormed(c: Command)
    requires WellFormed(c.input)
    ensures WellFormed(FingerprintValue(c)) && (Supported(FingerprintValue(c)) <==> Supported(c.input))
  {
    KeysDistinct();
    hide Distinct, WellFormed, Supported, Ascii;
    ActorWellFormed([ACTOR_ID, ACTOR_TYPE, ASSIGNMENT_ID, WORKFORCE_PERSON_ID], c.actor);
    CommandValuesWellFormed(ActorValue(c.actor), c);
    ValueMembersWellFormed(
      [ACTOR, DATA_CLASSIFICATION, INPUT, OPERATION_ID, RESOURCE_REFERENCE, USE_CASE_ID],
      CommandValues(ActorValue(c.actor), c));
  }

  /** Objects with the same distinct keys in the same places are compared place by place. */
  lemma SamePlacewise(a: seq<Member<Value>>, b: seq<Member<Value>>)
    requires |a| == |b| && DistinctKeys(b) && forall i :: 0 <= i < |a| ==> a[i].key == b[i].key
    ensures Same(Object(a), Object(b)) <==> forall i :: 0 <= i < |a| ==> Same(a[i].value, b[i].value)
  {
    forall i | 0 <= i < |a| ensures HasSame(b, a[i].key, a[i].value) <==> Same(a[i].value, b[i].value) {
    }
    assert Same(Object(a), Object(b)) <==> forall i :: 0 <= i < |a| ==> HasSame(b, a[i].key, a[i].value);
  }

  lemma SameString(s: Text, t: Text)
    ensures Same(String(s), String(t)) <==> s == t
  {
  }

  lemma SameTexts(keys: seq<Text>, xs: seq<Text>, ys: seq<Text>)
    requires |keys| == |xs| == |ys| && Distinct(keys)
    ensures Same(Object(TextMembers(keys, xs)), Object(TextMembers(keys, ys))) <==> xs == ys
  {
    hide Same;
    SamePlacewise(TextMembers(keys, xs), TextMembers(keys, ys));
    forall i | 0 <= i < |xs| ensures Same(String(xs[i]), String(ys[i])) <==> xs[i] == ys[i] {
      SameString(xs[i], ys[i]);
    }
  }

  lemma SameNeedsKeys(a: seq<Member<Value>>, b: seq<Member<Value>>, i: nat)
    requires Same(Object(a), Object(b)) && i < |a|
    ensures |a| == |b| && exists j :: 0 <= j < |b| && b[j].key == a[i].key
  {
    assert HasSame(b, a[i].key, a[i].value);
  }

  lemma SameActor(keys: seq<Text>, a: Actor, b: Actor)
    requires |keys| == 4 && Distinct(keys)
    ensures Same(ActorValueNamed(keys, a), ActorValueNamed(keys, b)) <==> a == b
  {
    var ka, kb := ActorKeys(keys, a), ActorKeys(keys, b);
    hide Same;
    ActorKeysDistinct(keys, a);
    if ka == kb {
      SameTexts(ka, ActorTexts(a), ActorTexts(b));
      ActorTextsExact(keys, a, b);
    } else if Same(ActorValueNamed(keys, a), ActorValueNamed(keys, b)) {
      var ms, ns := TextMembers(ka, ActorTexts(a)), TextMembers(kb, ActorTexts(b));
      SameNeedsKeys(ms, ns, |ms| - 1);
      assert false;
    }
  }

  lemma ActorTextsExact(keys: seq<Text>, a: Actor, b: Actor)
    requires |keys| == 4 && Distinct(keys) && ActorKeys(keys, a) == ActorKeys(keys, b)
    ensures ActorTexts(a) == ActorTexts(b) <==> a == b
  {
    var ka, kb, xs, ys := ActorKeys(keys, a), ActorKeys(keys, b), ActorTexts(a), ActorTexts(b);
    assert |ka| == |kb| && ka[|ka| - 1] == kb[|kb| - 1];
    assert a.assignmentId.Some? == b.assignmentId.Some? && a.workforcePersonId.Some? == b.workforcePersonId.Some?;
    if xs == ys {
      assert xs[0] == ys[0] && xs[1] == ys[1];
      if a.assignmentId.Some? { assert xs[2] == ys[2]; }
      if a.workforcePersonId.Some? { assert xs[|xs| - 1] == ys[|ys| - 1]; }
    }
  }

  lemma SameValues(keys: seq<Text>, xs: seq<Value>, ys: seq<Value>)
    requires |keys| == |xs| == |ys| && Distinct(keys)
    ensures Same(Object(ValueMembers(keys, xs)), Object(ValueMembers(keys, ys))) <==> forall i :: 0 <= i < |xs| ==> Same(xs[i], ys[i])
  {
    hide Same;
    SamePlacewise(ValueMembers(keys, xs), ValueMembers(keys, ys));
  }

  lemma SameCommandValues(x: Value, c: Command, y: Value, d: Command)
    ensures (forall i :: 0 <= i < 6 ==> Same(CommandValues(x, c)[i], CommandValues(y, d)[i])) <==>
            Same(x, y) && Same(c.input, d.input) && c.dataClassification == d.dataClassification
            && c.operationId == d.operationId && c.resourceReference == d.resourceReference && c.useCaseId == d.useCaseId
  {
    var xs, ys := CommandValues(x, c), CommandValues(y, d);
    hide Same;
    SameString(c.dataClassification, d.dataClassification);
    SameString(c.operationId, d.operationId);
    SameString(c.resourceReference, d.resourceReference);
    SameString(c.useCaseId, d.useCaseId);
    assert xs[0] == x && xs[2] == c.input && ys[0] == y && ys[2] == d.input;
    if forall i :: 0 <= i < 6 ==> Same(xs[i], ys[i]) {
      assert Same(xs[0], ys[0]) && Same(xs[1], ys[1]) && Same(xs[2], ys[2]) && Same(xs[3], ys[3]) && Same(xs[4], ys[4]) && Same(xs[5], ys[5]);
    }
  }

  /**
    Two invocations share a fingerprint exactly when they agree on everything but the trace id,
    inputs compared as JSON values.
  */
  lemma FingerprintIdentifies(c: Command, d: Command)
    requires WellFormed(c.input) && WellFormed(d.input) && Supported(c.input) && Supported(d.input)
    ensures FingerprintText(c) == FingerprintText(d) <==>
            c.actor == d.actor && c.dataClassification == d.dataClassification && Same(c.input, d.input)
            && c.operationId == d.operationId && c.resourceReference == d.resourceReference && c.useCaseId == d.useCaseId
  {
    KeysDistinct();
    hide Distinct, WellFormed, Supported, Ascii, Canonical, Same;
    FingerprintWellFormed(c);
    FingerprintWellFormed(d);
    CanonicalIdentifies(FingerprintValue(c), FingerprintValue(d));
    SameActor([ACTOR_ID, ACTOR_TYPE, ASSIGNMENT_ID, WORKFORCE_PERSON_ID], c.actor, d.actor);
    var x, y := ActorValue(c.actor), ActorValue(d.actor);
    SameCommandValues(x, c, y, d);
    SameValues([ACTOR, DATA_CLASSIFICATION, INPUT, OPERATION_ID, RESOURCE_REFERENCE, USE_CASE_ID], CommandValues(x, c), CommandValues(y, d));
  }

  /** The names under which an actor and a command are fingerprinted, and what stands under each. */
  function ActorFields(a: Actor): seq<Member<Value>> {
    [Member(Ascii("actorId"), String(a.actorId)), Member(Ascii("actorType"), String(a.actorType))]
    + (if a.assignmentId.Some? then [Member(Ascii("assignmentId"), String(a.assignmentId.value))] else [])
    + (if a.workforcePersonId.Some? then [Member(Ascii("workforcePersonId"), String(a.workforcePersonId.value))] else [])
  }

  function CommandFields(c: Command): seq<Member<Value>> {
    [Member(Ascii("actor"), Object(ActorFields(c.actor))), Member(Ascii("dataClassification"), String(c.dataClassification)),
     Member(Ascii("input"), c.input), Member(Ascii("operationId"), String(c.operationId)),
     Member(Ascii("resourceReference"), String(c.resourceReference)), Member(Ascii("useCaseId"), String(c.useCaseId))]
  }

  lemma ActorIsFields(a: Actor)
    ensures ActorValue(a) == Object(ActorFields(a))
  {
    hide Ascii;
    assert ActorValue(a).members == ActorFields(a);
  }

  lemma CommandIsFields(c: Command)
    ensures FingerprintValue(c) == Object(CommandFields(c))
  {
    ActorIsFields(c.actor);
    hide Ascii, ActorValue, ActorFields;
    assert FingerprintValue(c).members == CommandFields(c);
  }

  /** The fingerprinted text spells the object of these fields. */
  lemma FingerprintSpelled(c: Command)
    requires WellFormed(c.input) && FingerprintText(c).Some?
    ensures exists w :: Same(Object(CommandFields(c)), w) && Spells(FingerprintText(c).value, w)
  {
    hide FingerprintValue, CommandFields, Spells, Same, Canonical, WellFormed;
    FingerprintWellFormed(c);
    CommandIsFields(c);
    CanonicalSpelled(FingerprintValue(c));
  }
}
