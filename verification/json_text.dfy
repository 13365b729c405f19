/**
  The leaves of JSON text: how JSON.stringify writes a string or a number, and how a
  JSON reader (RFC 8259, sections 6 and 7) reads them back.  Text is a sequence of
  UTF-16 code units.
*/
module JsonText {
  import opened Basics

  type Unit = u: nat | u < 0x10000

  type Text = seq<Unit>

  type Digit = d: nat | d < 10

  const QUOTE: Unit := 0x22
  const BACKSLASH: Unit := 0x5C
  const SOLIDUS: Unit := 0x2F
  const COMMA: Unit := 0x2C
  const COLON: Unit := 0x3A
  const MINUS: Unit := 0x2D
  const PLUS: Unit := 0x2B
  const POINT: Unit := 0x2E
  const ZERO: Unit := 0x30
  const LOWER_A: Unit := 0x61
  const LOWER_B: Unit := 0x62
  const LOWER_E: Unit := 0x65
  const UPPER_E: Unit := 0x45
  const LOWER_F: Unit := 0x66
  const LOWER_N: Unit := 0x6E
  const LOWER_R: Unit := 0x72
  const LOWER_T: Unit := 0x74
  const LOWER_U: Unit := 0x75

  // ---------------------------------------------------------------- strings

  predicate IsHighSurrogate(c: Unit) { 0xD800 <= c <= 0xDBFF }

  predicate IsLowSurrogate(c: Unit) { 0xDC00 <= c <= 0xDFFF }

  function HexDigit(d: nat): Unit
    requires d < 16
  {
    if d < 10 then ZERO + d else LOWER_A + (d - 10)
  }

  function Hex4(c: Unit): Text {
    var q1 := c / 16;
    var q2 := q1 / 16;
    [HexDigit(q2 / 16), HexDigit(q2 % 16), HexDigit(q1 % 16), HexDigit(c % 16)]
  }

  /** One code unit as JSON.stringify writes it when it is not half of a surrogate pair. */
  function EscapedUnit(c: Unit): Text {
    if c == QUOTE || c == BACKSLASH then [BACKSLASH, c]
    else if c == 8 then [BACKSLASH, LOWER_B]
    else if c == 9 then [BACKSLASH, LOWER_T]
    else if c == 10 then [BACKSLASH, LOWER_N]
    else if c == 12 then [BACKSLASH, LOWER_F]
    else if c == 13 then [BACKSLASH, LOWER_R]
    else if c < 0x20 || IsHighSurrogate(c) || IsLowSurrogate(c) then [BACKSLASH, LOWER_U] + Hex4(c)
    else [c]
  }

  function Escaped(s: Text): Text {
    if s == [] then []
    else if |s| >= 2 && IsHighSurrogate(s[0]) && IsLowSurrogate(s[1]) then [s[0], s[1]] + Escaped(s[2..])
    else EscapedUnit(s[0]) + Escaped(s[1..])
  }

  function Quoted(s: Text): Text { [QUOTE] + Escaped(s) + [QUOTE] }

  function HexValue(c: Unit): Option<nat> {
    if ZERO <= c <= 0x39 then Some(c - ZERO)
    else if LOWER_A <= c <= LOWER_F then Some(c - LOWER_A + 10)
    else if 0x41 <= c <= 0x46 then Some(c - 0x41 + 10)
    else None
  }

  /** The unit four hex digits at the front of t denote. */
  function FourHex(t: Text): Option<Unit> {
    if |t| < 4 then None
    else match (HexValue(t[0]), HexValue(t[1]), HexValue(t[2]), HexValue(t[3]))
      case (Some(a), Some(b), Some(c), Some(d)) =>
        var u := a * 4096 + b * 256 + c * 16 + d;
        if u < 0x10000 then Some(u) else None
      case _ => None
  }

  /** One character of a string literal and what follows it. */
  function ReadUnit(t: Text): (r: Option<(Unit, Text)>)
    ensures r.Some? ==> |r.value.1| < |t|
  {
    if t == [] || t[0] == QUOTE || t[0] < 0x20 then None
    else if t[0] != BACKSLASH then Some((t[0], t[1..]))
    else if |t| < 2 then None
    else if t[1] == QUOTE || t[1] == BACKSLASH || t[1] == SOLIDUS then Some((t[1], t[2..]))
    else if t[1] == LOWER_B then Some((8, t[2..]))
    else if t[1] == LOWER_T then Some((9, t[2..]))
    else if t[1] == LOWER_N then Some((10, t[2..]))
    else if t[1] == LOWER_F then Some((12, t[2..]))
    else if t[1] == LOWER_R then Some((13, t[2..]))
    else if t[1] == LOWER_U then
      match FourHex(t[2..])
      case Some(u) => Some((u, t[6..]))
      case None => None
    else None
  }

  /** The rest of a string literal after its opening quote. */
  function ReadString(t: Text): (r: Option<(Text, Text)>)
    ensures r.Some? ==> |r.value.1| < |t|
    decreases |t|
  {
    if t != [] && t[0] == QUOTE then Some(([], t[1..]))
    else match ReadUnit(t)
      case None => None
      case Some((u, rest)) =>
        match ReadString(rest)
        case None => None
        case Some((s, after)) => Some(([u] + s, after))
  }

  lemma HexRoundTrip(c: Unit)
    ensures FourHex(Hex4(c)) == Some(c)
  {
    var q1 := c / 16;
    var q2 := q1 / 16;
    HexDigitReads(q2 / 16);
    HexDigitReads(q2 % 16);
    HexDigitReads(q1 % 16);
    HexDigitReads(c % 16);
    hide HexValue, HexDigit;
    assert q2 / 16 * 4096 + q2 % 16 * 256 + q1 % 16 * 16 + c % 16 == c;
  }

  lemma HexDigitReads(d: nat)
    requires d < 16
    ensures HexValue(HexDigit(d)) == Some(d)
  {
  }

  lemma EscapedHexReads(c: Unit, rest: Text)
    ensures ReadUnit([BACKSLASH, LOWER_U] + Hex4(c) + rest) == Some((c, rest))
  {
    HexRoundTrip(c);
    var t := [BACKSLASH, LOWER_U] + Hex4(c) + rest;
    assert t[2..] == Hex4(c) + rest && t[6..] == rest;
    assert FourHex(Hex4(c) + rest) == FourHex(Hex4(c));
  }

  lemma EscapedUnitReads(c: Unit, rest: Text)
    ensures ReadUnit(EscapedUnit(c) + rest) == Some((c, rest))
    ensures EscapedUnit(c)[0] != QUOTE
  {
    hide FourHex, Hex4;
    EscapedHexReads(c, rest);
    var t := EscapedUnit(c) + rest;
    if EscapedUnit(c) == [c] {
      assert t[1..] == rest;
    } else if EscapedUnit(c) != [BACKSLASH, LOWER_U] + Hex4(c) {
      assert t[2..] == rest;
    }
  }

  /** Reading one unit and then the rest of the literal. */
  lemma ReadStringStep(t: Text, c: Unit, tail: Text, s: Text, rest: Text)
    requires t != [] && t[0] != QUOTE && ReadUnit(t) == Some((c, tail)) && ReadString(tail) == Some((s, rest))
    ensures ReadString(t) == Some(([c] + s, rest))
  {
    hide ReadUnit;
  }

  /** The text of an escaped string begins with the text of its first unit, or of its first surrogate pair. */
  lemma {:induction false} EscapedFirst(s: Text, end: Text)
    requires s != []
    ensures if |s| >= 2 && IsHighSurrogate(s[0]) && IsLowSurrogate(s[1])
            then Escaped(s) + end == [s[0]] + ([s[1]] + (Escaped(s[2..]) + end))
            else Escaped(s) + end == EscapedUnit(s[0]) + (Escaped(s[1..]) + end)
  {
    hide EscapedUnit;
    if |s| >= 2 && IsHighSurrogate(s[0]) && IsLowSurrogate(s[1]) {
      var others := Escaped(s[2..]);
      assert Escaped(s) == [s[0], s[1]] + others;
      hide Escaped;
      assert [s[0], s[1]] + others + end == [s[0]] + ([s[1]] + (others + end));
    } else {
      var first, others := EscapedUnit(s[0]), Escaped(s[1..]);
      assert Escaped(s) == first + others;
      hide Escaped;
      assert first + others + end == first + (others + end);
    }
  }

  lemma {:induction false} EscapedReads(s: Text, rest: Text)
    ensures ReadString(Escaped(s) + ([QUOTE] + rest)) == Some((s, rest))
    decreases |s|
  {
    hide EscapedUnit, ReadUnit;
    var end := [QUOTE] + rest;
    if s == [] {
      assert Escaped(s) + end == end && end[1..] == rest;
      return;
    }
    EscapedFirst(s, end);
    if |s| >= 2 && IsHighSurrogate(s[0]) && IsLowSurrogate(s[1]) {
      hide Escaped, ReadString;
      var tail := Escaped(s[2..]) + end;
      EscapedReads(s[2..], rest);
      LiteralReads(s[1], tail);
      ReadStringStep([s[1]] + tail, s[1], tail, s[2..], rest);
      LiteralReads(s[0], [s[1]] + tail);
      ReadStringStep([s[0]] + ([s[1]] + tail), s[0], [s[1]] + tail, [s[1]] + s[2..], rest);
      assert s == [s[0]] + ([s[1]] + s[2..]);
    } else {
      hide Escaped, ReadString;
      var tail := Escaped(s[1..]) + end;
      EscapedReads(s[1..], rest);
      EscapedUnitReads(s[0], tail);
      ReadStringStep(EscapedUnit(s[0]) + tail, s[0], tail, s[1..], rest);
      assert s == [s[0]] + s[1..];
    }
  }

  /** A string literal reads back as the string, lone surrogates and control characters included. */
  lemma StringReads(s: Text, rest: Text)
    ensures ReadString(Escaped(s) + [QUOTE] + rest) == Some((s, rest))
  {
    EscapedReads(s, rest);
    hide ReadString, Escaped;
    assert Escaped(s) + [QUOTE] + rest == Escaped(s) + ([QUOTE] + rest);
  }

  lemma LiteralReads(c: Unit, rest: Text)
    requires c >= 0x20 && c != QUOTE && c != BACKSLASH
    ensures ReadUnit([c] + rest) == Some((c, rest)) && ([c] + rest)[0] != QUOTE
  {
    assert ([c] + rest)[1..] == rest;
  }

  // ---------------------------------------------------------------- numbers

  /**
    A finite number by its shortest decimal digits: 0.d1 d2 ... times ten to the `point`,
    the digits neither starting nor ending with zero.  Zero has no sign: both zeros print as 0.
  */
  datatype Number = Zero | Finite(negative: bool, digits: seq<Digit>, point: int)

  predicate ValidNumber(n: Number) {
    n.Finite? ==> n.digits != [] && n.digits[0] != 0 && n.digits[|n.digits| - 1] != 0
  }

  function DigitUnits(ds: seq<Digit>): (t: Text)
    ensures |t| == |ds| && forall i :: 0 <= i < |t| ==> t[i] == ZERO + ds[i]
  {
    seq(|ds|, i requires 0 <= i < |ds| => ZERO + ds[i])
  }

  function Zeros(k: nat): (ds: seq<Digit>)
    ensures |ds| == k && forall i :: 0 <= i < k ==> ds[i] == 0
  {
    seq(k, _ => 0)
  }

  function DecimalDigits(n: nat): (ds: seq<Digit>)
    ensures ds != []
  {
    if n < 10 then [n] else DecimalDigits(n / 10) + [n % 10]
  }

  lemma {:induction false} DecimalDigitsValue(n: nat)
    ensures NatValue(DecimalDigits(n)) == n
  {
    if n < 10 {
      assert [n][..0] == [];
    } else {
      var front := DecimalDigits(n / 10);
      DecimalDigitsValue(n / 10);
      hide DecimalDigits;
      assert (front + [n % 10])[..|front|] == front;
    }
  }

  function NatValue(ds: seq<Digit>): nat {
    if ds == [] then 0 else 10 * NatValue(ds[..|ds| - 1]) + ds[|ds| - 1]
  }

  function ExponentText(e: int): Text {
    [LOWER_E] + if e < 0 then [MINUS] + DigitUnits(DecimalDigits(-e)) else [PLUS] + DigitUnits(DecimalDigits(e))
  }

  /** Number::toString for radix ten (ECMA-262, section 6.1.6.1.20) without its sign. */
  function MagnitudeText(ds: seq<Digit>, n: int): Text
    requires ds != []
  {
    var k := |ds|;
    if k <= n <= 21 then DigitUnits(ds + Zeros(n - k))
    else if 0 < n <= 21 then DigitUnits(ds[..n]) + [POINT] + DigitUnits(ds[n..])
    else if -6 < n <= 0 then [ZERO, POINT] + DigitUnits(Zeros(-n) + ds)
    else if k == 1 then DigitUnits(ds) + ExponentText(n - 1)
    else DigitUnits(ds[..1]) + [POINT] + DigitUnits(ds[1..]) + ExponentText(n - 1)
  }

  function NumberText(n: Number): Text
    requires ValidNumber(n)
  {
    match n
    case Zero => [ZERO]
    case Finite(negative, ds, point) => (if negative then [MINUS] else []) + MagnitudeText(ds, point)
  }

  predicate IsDigitUnit(c: Unit) { ZERO <= c <= 0x39 }

  /** The longest run of digits at the front of t, and the rest. */
  function ReadDigits(t: Text): (r: (seq<Digit>, Text))
    ensures |r.0| + |r.1| == |t|
  {
    if t == [] || !IsDigitUnit(t[0]) then ([], t)
    else var (ds, rest) := ReadDigits(t[1..]); ([t[0] - ZERO] + ds, rest)
  }

  /** The number 0.d1 d2 ... times ten to the point, with outer zeros dropped. */
  function Normal(negative: bool, ds: seq<Digit>, point: int): Number {
    if ds == [] then Zero
    else if ds[0] == 0 then Normal(negative, ds[1..], point - 1)
    else if ds[|ds| - 1] == 0 then Normal(negative, ds[..|ds| - 1], point)
    else Finite(negative, ds, point)
  }

  /** `int` of RFC 8259, section 6: 0 alone, or digits that do not start with 0. */
  function ReadInteger(t: Text): (r: Option<(seq<Digit>, Text)>)
    ensures r.Some? ==> |r.value.1| < |t|
  {
    if t != [] && t[0] == ZERO then Some(([0], t[1..]))
    else var (ds, rest) := ReadDigits(t); if ds == [] then None else Some((ds, rest))
  }

  /** `frac`: absent, or a point and at least one digit. */
  function ReadFraction(t: Text): (r: Option<(seq<Digit>, Text)>)
    ensures r.Some? ==> |r.value.1| <= |t|
  {
    if t == [] || t[0] != POINT then Some(([], t))
    else var (ds, rest) := ReadDigits(t[1..]); if ds == [] then None else Some((ds, rest))
  }

  /** `exp`: absent, or e or E, an optional sign and at least one digit. */
  function ReadExponent(t: Text): (r: Option<(int, Text)>)
    ensures r.Some? ==> |r.value.1| <= |t|
  {
    if t == [] || (t[0] != LOWER_E && t[0] != UPPER_E) then Some((0, t))
    else
      var signed := |t| >= 2 && (t[1] == MINUS || t[1] == PLUS);
      var (ds, rest) := ReadDigits(if signed then t[2..] else t[1..]);
      if ds == [] then None
      else Some((if signed && t[1] == MINUS then -(NatValue(ds) as int) else NatValue(ds), rest))
  }

  function ReadMagnitude(negative: bool, t: Text): (r: Option<(Number, Text)>)
    ensures r.Some? ==> |r.value.1| < |t|
  {
    match ReadInteger(t)
    case None => None
    case Some((whole, afterWhole)) =>
      match ReadFraction(afterWhole)
      case None => None
      case Some((fraction, afterFraction)) =>
        match ReadExponent(afterFraction)
        case None => None
        case Some((e, rest)) => Some((Normal(negative, whole + fraction, |whole| + e), rest))
  }

  function ReadNumber(t: Text): (r: Option<(Number, Text)>)
    ensures r.Some? ==> |r.value.1| < |t|
  {
    if t != [] && t[0] == MINUS then ReadMagnitude(true, t[1..]) else ReadMagnitude(false, t)
  }

  /** What may follow a number without extending it. */
  predicate EndsNumber(rest: Text) {
    rest == [] || (!IsDigitUnit(rest[0]) && rest[0] != POINT && rest[0] != LOWER_E && rest[0] != UPPER_E)
  }

  predicate NoDigitFirst(rest: Text) { rest == [] || !IsDigitUnit(rest[0]) }

  lemma {:induction false} DigitsRead(ds: seq<Digit>, rest: Text)
    requires NoDigitFirst(rest)
    ensures ReadDigits(DigitUnits(ds) + rest) == (ds, rest)
    decreases |ds|
  {
    var t := DigitUnits(ds) + rest;
    if ds == [] {
      assert t == rest;
    } else {
      DigitsRead(ds[1..], rest);
      assert t[1..] == DigitUnits(ds[1..]) + rest;
      assert ds == [ds[0]] + ds[1..];
    }
  }

  lemma {:induction false} NormalLeading(
      negative: bool, k: nat, ds: seq<Digit>, point: int)
    ensures Normal(negative, Zeros(k) + ds, point) == Normal(negative, ds, point - k)
    decreases k
  {
    if k == 0 {
      assert Zeros(0) + ds == ds;
    } else {
      assert (Zeros(k) + ds)[1..] == Zeros(k - 1) + ds;
      NormalLeading(negative, k - 1, ds, point - 1);
    }
  }

  lemma {:induction false} NormalTrailing(
      negative: bool, ds: seq<Digit>, k: nat, point: int)
    requires ds != [] && ds[0] != 0
    ensures Normal(negative, ds + Zeros(k), point) == Normal(negative, ds, point)
    decreases k
  {
    if k == 0 {
      assert ds + Zeros(0) == ds;
    } else {
      assert (ds + Zeros(k))[..|ds| + k - 1] == ds + Zeros(k - 1);
      NormalTrailing(negative, ds, k - 1, point);
    }
  }

  lemma IntegerReads(ds: seq<Digit>, rest: Text)
    requires ds != [] && NoDigitFirst(rest) && (ds[0] != 0 || ds == [0])
    ensures ReadInteger(DigitUnits(ds) + rest) == Some((ds, rest))
  {
    hide ReadDigits;
    DigitsRead(ds, rest);
    if ds == [0] { assert (DigitUnits(ds) + rest)[1..] == rest; }
  }

  lemma FractionReads(ds: seq<Digit>, rest: Text)
    requires ds != [] && NoDigitFirst(rest)
    ensures ReadFraction([POINT] + DigitUnits(ds) + rest) == Some((ds, rest))
  {
    hide ReadDigits;
    DigitsRead(ds, rest);
    assert ([POINT] + DigitUnits(ds) + rest)[1..] == DigitUnits(ds) + rest;
  }

  lemma ExponentReads(e: int, rest: Text)
    requires NoDigitFirst(rest)
    ensures ReadExponent(ExponentText(e) + rest) == Some((e, rest))
  {
    hide ReadDigits, DecimalDigits, NatValue;
    var ds := DecimalDigits(if e < 0 then -e else e);
    DecimalDigitsValue(if e < 0 then -e else e);
    DigitsRead(ds, rest);
    assert (ExponentText(e) + rest)[2..] == DigitUnits(ds) + rest;
  }

  /** A magnitude's parts one after the other. */
  function PartsText(whole: seq<Digit>, fraction: seq<Digit>, exponent: Option<int>, rest: Text): Text {
    var tail := (if exponent.Some? then ExponentText(exponent.value) else []) + rest;
    DigitUnits(whole) + ((if fraction == [] then [] else [POINT] + DigitUnits(fraction)) + tail)
  }

  lemma MagnitudeParts(
      negative: bool, whole: seq<Digit>, fraction: seq<Digit>, exponent: Option<int>, rest: Text)
    requires whole != [] && (whole[0] != 0 || whole == [0]) && EndsNumber(rest)
    ensures ReadMagnitude(negative, PartsText(whole, fraction, exponent, rest))
              == Some((Normal(negative, whole + fraction, |whole| + if exponent.Some? then exponent.value else 0), rest))
  {
    hide ReadInteger, DigitUnits, Normal;
    var tail := (if exponent.Some? then ExponentText(exponent.value) else []) + rest;
    var middle := (if fraction == [] then [] else [POINT] + DigitUnits(fraction)) + tail;
    IntegerReads(whole, middle);
    if fraction == [] {
      assert middle == tail;
    } else {
      FractionReads(fraction, tail);
    }
    if exponent.Some? {
      ExponentReads(exponent.value, rest);
    } else {
      assert tail == rest;
    }
  }

  ghost predicate MagnitudeOk(negative: bool, ds: seq<Digit>, n: int, rest: Text)
    requires ds != []
  {
    ReadMagnitude(negative, MagnitudeText(ds, n) + rest) == Some((Finite(negative, ds, n), rest))
  }

  lemma Regroup(a: Text, b: Text, c: Text, d: Text)
    ensures a + ((b + c) + d) == a + b + c + d
  {
  }

  lemma WholeReads(negative: bool, ds: seq<Digit>, n: int, rest: Text)
    requires ValidNumber(Finite(negative, ds, n)) && EndsNumber(rest) && |ds| <= n <= 21
    ensures MagnitudeOk(negative, ds, n, rest)
  {
    hide ReadMagnitude, ExponentText;
    var padded := ds + Zeros(n - |ds|);
    NormalAlready(negative, ds, n);
    NormalTrailing(negative, ds, n - |ds|, n);
    hide Normal;
    MagnitudeParts(negative, padded, [], None, rest);
    assert padded + [] == padded;
    assert [] + ([] + rest) == rest;
  }

  lemma FractionalReads(negative: bool, ds: seq<Digit>, n: int, rest: Text)
    requires ValidNumber(Finite(negative, ds, n)) && EndsNumber(rest) && 0 < n < |ds| && n <= 21
    ensures MagnitudeOk(negative, ds, n, rest)
  {
    hide ReadMagnitude, ExponentText;
    NormalAlready(negative, ds, n);
    hide Normal, DigitUnits;
    var whole, fraction := ds[..n], ds[n..];
    MagnitudeParts(negative, whole, fraction, None, rest);
    assert whole + fraction == ds;
    assert [] + rest == rest;
    Regroup(DigitUnits(whole), [POINT], DigitUnits(fraction), rest);
  }

  lemma SmallReads(negative: bool, ds: seq<Digit>, n: int, rest: Text)
    requires ValidNumber(Finite(negative, ds, n)) && EndsNumber(rest) && -6 < n <= 0
    ensures MagnitudeOk(negative, ds, n, rest)
  {
    hide ReadMagnitude, ExponentText;
    NormalAlready(negative, ds, n);
    NormalLeading(negative, 1 - n, ds, 1);
    var fraction := Zeros(-n) + ds;
    assert [0] + fraction == Zeros(1 - n) + ds;
    assert DigitUnits([0]) == [ZERO];
    hide Normal, DigitUnits;
    MagnitudeParts(negative, [0], fraction, None, rest);
    assert [] + rest == rest;
    Regroup([ZERO], [POINT], DigitUnits(fraction), rest);
    assert [ZERO] + [POINT] == [ZERO, POINT];
  }

  /** The scientific layout is whole digit, fraction and exponent one after the other. */
  lemma ScientificText(ds: seq<Digit>, n: int, rest: Text)
    requires ds != [] && (n > 21 || n <= -6)
    ensures MagnitudeText(ds, n) + rest == PartsText(ds[..1], ds[1..], Some(n - 1), rest)
  {
    hide ExponentText, DigitUnits;
    var tail := ExponentText(n - 1) + rest;
    if |ds| == 1 {
      assert ds[..1] == ds;
      assert [] + tail == tail;
      assert DigitUnits(ds) + tail == DigitUnits(ds) + ExponentText(n - 1) + rest;
    } else {
      Regroup(DigitUnits(ds[..1]), [POINT], DigitUnits(ds[1..]), tail);
      var front := DigitUnits(ds[..1]) + [POINT] + DigitUnits(ds[1..]);
      assert front + tail == front + ExponentText(n - 1) + rest;
    }
  }

  lemma ScientificReads(negative: bool, ds: seq<Digit>, n: int, rest: Text)
    requires ValidNumber(Finite(negative, ds, n)) && EndsNumber(rest) && (n > 21 || n <= -6)
    ensures MagnitudeOk(negative, ds, n, rest)
  {
    hide *;
    FirstDigit(negative, ds, n);
    var whole, fraction := ds[..1], ds[1..];
    assert whole + fraction == ds;
    NormalAlready(negative, ds, n);
    ScientificText(ds, n, rest);
    MagnitudeParts(negative, whole, fraction, Some(n - 1), rest);
    assert Normal(negative, whole + fraction, |whole| + (n - 1)) == Finite(negative, ds, n);
    ReadsAs(negative, ds, n, rest, PartsText(whole, fraction, Some(n - 1), rest));
  }

  lemma FirstDigit(negative: bool, ds: seq<Digit>, n: int)
    requires ValidNumber(Finite(negative, ds, n))
    ensures ds != [] && ds[0] != 0
  {
  }

  lemma ReadsAs(negative: bool, ds: seq<Digit>, n: int, rest: Text, t: Text)
    requires ds != [] && MagnitudeText(ds, n) + rest == t && ReadMagnitude(negative, t) == Some((Finite(negative, ds, n), rest))
    ensures MagnitudeOk(negative, ds, n, rest)
  {
  }

  /** A printed magnitude reads back as the number. */
  lemma MagnitudeReads(negative: bool, ds: seq<Digit>, n: int, rest: Text)
    requires ValidNumber(Finite(negative, ds, n)) && EndsNumber(rest)
    ensures ReadMagnitude(negative, MagnitudeText(ds, n) + rest) == Some((Finite(negative, ds, n), rest))
  {
    hide ReadMagnitude, MagnitudeText;
    if |ds| <= n <= 21 {
      WholeReads(negative, ds, n, rest);
    } else if 0 < n <= 21 {
      FractionalReads(negative, ds, n, rest);
    } else if -6 < n <= 0 {
      SmallReads(negative, ds, n, rest);
    } else {
      ScientificReads(negative, ds, n, rest);
    }
  }

  lemma NormalAlready(negative: bool, ds: seq<Digit>, n: int)
    requires ValidNumber(Finite(negative, ds, n))
    ensures Normal(negative, ds, n) == Finite(negative, ds, n)
  {
  }

  lemma MagnitudeStart(ds: seq<Digit>, n: int)
    requires ds != []
    ensures MagnitudeText(ds, n) != [] && IsDigitUnit(MagnitudeText(ds, n)[0])
  {
    hide ExponentText;
  }

  /** A printed number reads back as the number. */
  lemma NumberReads(n: Number, rest: Text)
    requires ValidNumber(n) && EndsNumber(rest)
    ensures ReadNumber(NumberText(n) + rest) == Some((n, rest))
    ensures NumberText(n) != [] && (NumberText(n)[0] == MINUS || IsDigitUnit(NumberText(n)[0]))
  {
    hide ReadMagnitude, MagnitudeText;
    match n {
      case Zero =>
        MagnitudeParts(false, [0], [], None, rest);
        assert DigitUnits([0]) + ([] + ([] + rest)) == [ZERO] + rest;
        assert [0] + [] == [0];
        assert Normal(false, [0], 1) == Zero;
      case Finite(negative, ds, point) =>
        MagnitudeReads(negative, ds, point, rest);
        MagnitudeStart(ds, point);
        if negative {
          assert (NumberText(n) + rest)[1..] == MagnitudeText(ds, point) + rest;
        } else {
          assert NumberText(n) == MagnitudeText(ds, point);
        }
    }
  }
}
