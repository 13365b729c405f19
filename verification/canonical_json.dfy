/**
  Values as the validators of the ai-gateway module see them, and their canonical text:
  packages/crm-modules/ai-gateway/src/validation.ts.  An object keeps its members in
  insertion order; the canonical text sorts them by key, UTF-16 unit by unit.
*/
module CanonicalJson {
  import opened Basics
  import opened JsonText

  datatype Member<+T> = Member(key: Text, value: T)

  datatype Value =
    | Null
    | Bool(truth: bool)
    | Numeric(number: Number)
    | String(text: Text)
    | Array(items: seq<Value>)
    | Object(members: seq<Member<Value>>)
    | Unsupported        // undefined, a function, a symbol, a bigint, NaN or an infinity

  const OPEN_BRACKET: Unit := 0x5B
  const CLOSE_BRACKET: Unit := 0x5D
  const OPEN_BRACE: Unit := 0x7B
  const CLOSE_BRACE: Unit := 0x7D
  const NULL_TEXT: Text := [LOWER_N, LOWER_U, 0x6C, 0x6C]
  const TRUE_TEXT: Text := [LOWER_T, LOWER_R, LOWER_U, LOWER_E]
  const FALSE_TEXT: Text := [LOWER_F, LOWER_A, 0x6C, 0x73, LOWER_E]

  // ---------------------------------------------------------------- key order

  predicate Less(a: Text, b: Text) {
    if b == [] then false
    else if a == [] then true
    else if a[0] != b[0] then a[0] < b[0]
    else Less(a[1..], b[1..])
  }

  function Insert<T>(m: Member<T>, sorted: seq<Member<T>>): seq<Member<T>> {
    if sorted == [] || !Less(sorted[0].key, m.key) then [m] + sorted
    else [sorted[0]] + Insert(m, sorted[1..])
  }

  function SortByKey<T>(ms: seq<Member<T>>): seq<Member<T>> {
    if ms == [] then [] else Insert(ms[0], SortByKey(ms[1..]))
  }

  // ---------------------------------------------------------------- canonical

  function Joined(texts: seq<Text>): Text {
    if texts == [] then []
    else if |texts| == 1 then texts[0]
    else texts[0] + [COMMA] + Joined(texts[1..])
  }

  function MemberText(m: Member<Text>): Text { Quoted(m.key) + [COLON] + m.value }

  function MemberTexts(ms: seq<Member<Text>>): (r: seq<Text>)
    ensures |r| == |ms| && forall i :: 0 <= i < |r| ==> r[i] == MemberText(ms[i])
  {
    seq(|ms|, i requires 0 <= i < |ms| => MemberText(ms[i]))
  }

  function ArrayText(texts: seq<Text>): Text { [OPEN_BRACKET] + Joined(texts) + [CLOSE_BRACKET] }

  function ObjectText(members: seq<Member<Text>>): Text { [OPEN_BRACE] + Joined(MemberTexts(members)) + [CLOSE_BRACE] }

  predicate DistinctKeys<T>(ms: seq<Member<T>>) {
    forall i, j :: 0 <= i < j < |ms| ==> ms[i].key != ms[j].key
  }

  /** Every value a program can hold: shortest digits in numbers, no key twice in an object. */
  predicate WellFormed(v: Value) {
    match v
    case Numeric(n) => ValidNumber(n)
    case Array(items) => forall i :: 0 <= i < |items| ==> WellFormed(items[i])
    case Object(ms) => DistinctKeys(ms) && forall i :: 0 <= i < |ms| ==> WellFormed(ms[i].value)
    case _ => true
  }

  predicate Supported(v: Value) {
    match v
    case Unsupported => false
    case Array(items) => forall i :: 0 <= i < |items| ==> Supported(items[i])
    case Object(ms) => forall i :: 0 <= i < |ms| ==> Supported(ms[i].value)
    case _ => true
  }

  /** `canonical`; None where the source throws. */
  function Canonical(v: Value): Option<Text>
    requires WellFormed(v)
    decreases v, 0
  {
    match v
    case Null => Some(NULL_TEXT)
    case Bool(b) => Some(if b then TRUE_TEXT else FALSE_TEXT)
    case Numeric(n) => Some(NumberText(n))
    case String(s) => Some(Quoted(s))
    case Array(items) => (match CanonicalItems(items) case None => None case Some(texts) => Some(ArrayText(texts)))
    case Object(ms) => (match CanonicalMembers(ms) case None => None case Some(texts) => Some(ObjectText(SortByKey(texts))))
    case Unsupported => None
  }

  function CanonicalItems(items: seq<Value>): (r: Option<seq<Text>>)
    requires forall i :: 0 <= i < |items| ==> WellFormed(items[i])
    ensures r.Some? ==> |r.value| == |items|
    decreases items, 1
  {
    if items == [] then Some([])
    else match (Canonical(items[0]), CanonicalItems(items[1..]))
      case (Some(text), Some(texts)) => Some([text] + texts)
      case _ => None
  }

  function CanonicalMembers(ms: seq<Member<Value>>): (r: Option<seq<Member<Text>>>)
    requires forall i :: 0 <= i < |ms| ==> WellFormed(ms[i].value)
    ensures r.Some? ==> |r.value| == |ms|
    decreases ms, 1
  {
    if ms == [] then Some([])
    else match (Canonical(ms[0].value), CanonicalMembers(ms[1..]))
      case (Some(text), Some(texts)) => Some([Member(ms[0].key, text)] + texts)
      case _ => None
  }

  // ---------------------------------------------------------------- the value behind the text

  /** The same value with every object's members in key order. */
  function Normalized(v: Value): Value
    decreases v, 0
  {
    match v
    case Array(items) => Array(NormalizedItems(items))
    case Object(ms) => Object(SortByKey(NormalizedMembers(ms)))
    case _ => v
  }

  function NormalizedItems(items: seq<Value>): (r: seq<Value>)
    ensures |r| == |items| && forall i :: 0 <= i < |r| ==> r[i] == Normalized(items[i])
    decreases items, 1
  {
    if items == [] then [] else [Normalized(items[0])] + NormalizedItems(items[1..])
  }

  function NormalizedMembers(ms: seq<Member<Value>>): (r: seq<Member<Value>>)
    ensures |r| == |ms| && forall i :: 0 <= i < |r| ==> r[i] == Member(ms[i].key, Normalized(ms[i].value))
    decreases ms, 1
  {
    if ms == [] then [] else [Member(ms[0].key, Normalized(ms[0].value))] + NormalizedMembers(ms[1..])
  }

  /** The text of a value with its members in the order they stand. */
  function PlainText(v: Value): Text
    requires WellFormed(v)
    decreases v, 0
  {
    match v
    case Null => NULL_TEXT
    case Bool(b) => if b then TRUE_TEXT else FALSE_TEXT
    case Numeric(n) => NumberText(n)
    case String(s) => Quoted(s)
    case Array(items) => ArrayText(PlainItems(items))
    case Object(ms) => ObjectText(PlainMembers(ms))
    case Unsupported => []
  }

  function PlainItems(items: seq<Value>): (r: seq<Text>)
    requires forall i :: 0 <= i < |items| ==> WellFormed(items[i])
    ensures |r| == |items| && forall i :: 0 <= i < |r| ==> r[i] == PlainText(items[i])
    decreases items, 1
  {
    if items == [] then [] else [PlainText(items[0])] + PlainItems(items[1..])
  }

  function PlainMembers(ms: seq<Member<Value>>): (r: seq<Member<Text>>)
    requires forall i :: 0 <= i < |ms| ==> WellFormed(ms[i].value)
    ensures |r| == |ms| && forall i :: 0 <= i < |r| ==> r[i] == Member(ms[i].key, PlainText(ms[i].value))
    decreases ms, 1
  {
    if ms == [] then [] else [Member(ms[0].key, PlainText(ms[0].value))] + PlainMembers(ms[1..])
  }

  /** Equal as JSON values: object members are compared by key, whatever their order. */
  predicate Same(v: Value, w: Value)
    decreases v, 0
  {
    match (v, w)
    case (Array(a), Array(b)) => |a| == |b| && forall i :: 0 <= i < |a| ==> Same(a[i], b[i])
    case (Object(a), Object(b)) => |a| == |b| && forall i :: 0 <= i < |a| ==> HasSame(b, a[i].key, a[i].value)
    case _ => v == w
  }

  /** Some member of ms has this key and an equal value. */
  predicate HasSame(ms: seq<Member<Value>>, key: Text, v: Value)
    decreases v, 1
  {
    exists j :: 0 <= j < |ms| && ms[j].key == key && Same(v, ms[j].value)
  }
}
