/**
  The canonical text, letter by letter: what packages/crm-modules/ai-gateway/src/validation.ts prints for every
  value, said without printing it.
*/
module CanonicalSpelling {
  import opened Basics
  import opened JsonText
  import opened CanonicalJson
  import opened JsonReader
  import opened CanonicalIdentity

  function Ascii(s: string): (t: Text)
    requires forall i :: 0 <= i < |s| ==> s[i] < 128 as char
    ensures |t| == |s| && forall i :: 0 <= i < |t| ==> t[i] == s[i] as nat
  {
    seq(|s|, i requires 0 <= i < |s| => s[i] as nat)
  }

  // ---------------------------------------------------------------- numbers

  predicate Shows(c: Unit, d: int) { 0 <= d < 10 && c as int == 48 + d }

  /** Number::toString for radix ten (ECMA-262, section 6.1.6.1.20): k digits, the first worth ten to the n - 1. */
  predicate SpellsMagnitude(t: Text, ds: seq<Digit>, n: int) {
    if |ds| <= n <= 21 then SpellsWhole(t, ds, n)
    else if 0 < n <= 21 then SpellsPoint(t, ds, n)
    else if -6 < n <= 0 then SpellsSmall(t, ds, n)
    else SpellsExponent(t, ds, n)
  }

  /** The digits, then zeros. */
  predicate SpellsWhole(t: Text, ds: seq<Digit>, n: int) {
    |t| == n && forall i :: 0 <= i < n ==> Shows(t[i], if i < |ds| then ds[i] else 0)
  }

  /** The digits with a point after n of them. */
  predicate SpellsPoint(t: Text, ds: seq<Digit>, n: int) {
    && 0 < n < |ds| && |t| == |ds| + 1 && t[n] == 46
    && (forall i :: 0 <= i < n ==> Shows(t[i], ds[i])) && forall i :: n <= i < |ds| ==> Shows(t[i + 1], ds[i])
  }

  /** 0, a point, zeros, the digits. */
  predicate SpellsSmall(t: Text, ds: seq<Digit>, n: int) {
    && n <= 0 && |t| == 2 - n + |ds| && t[0] == 48 && t[1] == 46
    && (forall i :: 2 <= i < 2 - n ==> t[i] == 48) && forall i :: 0 <= i < |ds| ==> Shows(t[2 - n + i], ds[i])
  }

  /** One digit, a point before the others if there are any, e, a sign, the exponent. */
  predicate SpellsExponent(t: Text, ds: seq<Digit>, n: int) {
    var e := if |ds| == 1 then 1 else |ds| + 1;
    && ds != [] && |t| > e + 2 && Shows(t[0], ds[0])
    && (|ds| > 1 ==> t[1] == 46 && forall i :: 1 <= i < |ds| ==> Shows(t[i + 1], ds[i]))
    && t[e] == 101 && t[e + 1] == (if n < 1 then 45 else 43)
    && SpellsNat(t[e + 2..], if n < 1 then 1 - n else n - 1)
  }

  /** Decimal digits without leading zeros. */
  predicate SpellsNat(t: Text, n: nat) {
    t != [] && 48 <= t[|t| - 1] <= 57 &&
    if |t| == 1 then n == t[0] - 48
    else t[0] != 48 && n >= 10 && n % 10 == t[|t| - 1] - 48 && SpellsNat(t[..|t| - 1], n / 10)
  }

  predicate SpellsNumber(t: Text, n: Number) {
    match n
    case Zero => t == Ascii("0")
    case Finite(negative, ds, point) => if negative then t != [] && t[0] == 45 && SpellsMagnitude(t[1..], ds, point) else SpellsMagnitude(t, ds, point)
  }

  // ---------------------------------------------------------------- strings

  /** Unit i and its neighbour are the halves of one character. */
  predicate IsPaired(s: Text, i: nat)
    requires i < |s|
  {
    || (i + 1 < |s| && 0xD800 <= s[i] < 0xDC00 && 0xDC00 <= s[i + 1] < 0xE000)
    || (i > 0 && 0xD800 <= s[i - 1] < 0xDC00 && 0xDC00 <= s[i] < 0xE000)
  }

  predicate IsHex(t: Unit, d: int) { (0 <= d < 10 && t == 48 + d) || (10 <= d < 16 && t == 97 + d - 10) }

  /** One unit between the quotation marks. */
  predicate SpellsUnit(t: Text, s: Text, i: nat)
    requires i < |s|
  {
    var c := s[i];
    if c == 34 || c == 92 then t == [92, c]
    else if c == 8 then t == Ascii("\\b")
    else if c == 9 then t == Ascii("\\t")
    else if c == 10 then t == Ascii("\\n")
    else if c == 12 then t == Ascii("\\f")
    else if c == 13 then t == Ascii("\\r")
    else if c < 32 || (0xD800 <= c < 0xE000 && !IsPaired(s, i)) then
      |t| == 6 && t[0] == 92 && t[1] == 117 && IsHex(t[2], c / 4096) && IsHex(t[3], c / 256 % 16) && IsHex(t[4], c / 16 % 16) && IsHex(t[5], c % 16)
    else t == [c]
  }

  function Concatenated(parts: seq<Text>): Text { if parts == [] then [] else parts[0] + Concatenated(parts[1..]) }

  ghost predicate SpellsString(t: Text, s: Text) { exists parts :: SpellsParts(t, s, parts) }

  ghost predicate SpellsParts(t: Text, s: Text, parts: seq<Text>) {
    |parts| == |s| && (forall i :: 0 <= i < |s| ==> SpellsUnit(parts[i], s, i)) && t == Ascii("\"") + Concatenated(parts) + Ascii("\"")
  }

  // ---------------------------------------------------------------- values

  /** Texts with commas between them. */
  function Listed(texts: seq<Text>): Text {
    if texts == [] then [] else texts[0] + Concatenated(Commaed(texts))
  }

  /** At the first unit where they differ a has the smaller one, or a ends there and b goes on. */
  predicate Precedes(a: Text, b: Text) {
    exists n :: 0 <= n <= |a| && n < |b| && a[..n] == b[..n] && (n == |a| || a[n] < b[n])
  }

  ghost predicate Spells(t: Text, v: Value)
    decreases v, 0
  {
    match v
    case Null => t == Ascii("null")
    case Bool(b) => t == if b then Ascii("true") else Ascii("false")
    case Numeric(n) => SpellsNumber(t, n)
    case String(s) => SpellsString(t, s)
    case Array(items) => exists texts :: SpellsItems(t, items, texts)
    case Object(ms) => exists names, texts :: SpellsMembers(t, ms, names, texts)
    case Unsupported => false
  }

  ghost predicate SpellsItems(t: Text, items: seq<Value>, texts: seq<Text>)
    decreases items, 1
  {
    && |texts| == |items| && (forall i :: 0 <= i < |items| ==> Spells(texts[i], items[i]))
    && t == Ascii("[") + Listed(texts) + Ascii("]")
  }

  /** The members one after another, their keys ascending. */
  ghost predicate SpellsMembers(t: Text, ms: seq<Member<Value>>, names: seq<Text>, texts: seq<Text>)
    decreases ms, 1
  {
    && |texts| == |names| == |ms|
    && (forall i :: 0 <= i < |ms| ==> SpellsString(names[i], ms[i].key) && Spells(texts[i], ms[i].value))
    && (forall i, j :: 0 <= i < j < |ms| ==> Precedes(ms[i].key, ms[j].key))
    && t == Ascii("{") + Listed(seq(|ms|, i requires 0 <= i < |ms| => names[i] + Ascii(":") + texts[i])) + Ascii("}")
  }

  // ---------------------------------------------------------------- what is printed is so spelled

  lemma {:induction false} NatSpelled(n: nat)
    ensures SpellsNat(DigitUnits(DecimalDigits(n)), n)
    ensures n > 0 ==> DecimalDigits(n)[0] != 0
  {
    if n >= 10 {
      NatSpelled(n / 10);
      var t := DigitUnits(DecimalDigits(n));
      assert t[..|t| - 1] == DigitUnits(DecimalDigits(n / 10));
    }
  }

  lemma WholeSpelled(ds: seq<Digit>, n: int)
    requires ds != [] && |ds| <= n <= 21
    ensures SpellsWhole(MagnitudeText(ds, n), ds, n)
  {
    hide ExponentText;
    var t := MagnitudeText(ds, n);
    assert t == DigitUnits(ds + Zeros(n - |ds|));
    hide MagnitudeText;
  }

  lemma PointSpelled(ds: seq<Digit>, n: int)
    requires 0 < n < |ds| && n <= 21
    ensures SpellsPoint(MagnitudeText(ds, n), ds, n)
  {
    hide ExponentText;
    var t := MagnitudeText(ds, n);
    assert t == DigitUnits(ds[..n]) + [POINT] + DigitUnits(ds[n..]);
    hide MagnitudeText;
    forall i | n <= i < |ds| ensures Shows(t[i + 1], ds[i]) { assert t[i + 1] == DigitUnits(ds[n..])[i - n]; }
  }

  lemma SmallSpelled(ds: seq<Digit>, n: int)
    requires ds != [] && -6 < n <= 0
    ensures SpellsSmall(MagnitudeText(ds, n), ds, n)
  {
    hide ExponentText;
    var t, zeros := MagnitudeText(ds, n), Zeros(-n);
    assert t == [ZERO, POINT] + DigitUnits(zeros + ds);
    hide MagnitudeText;
    forall i | 0 <= i < |ds| ensures Shows(t[2 - n + i], ds[i]) { assert t[2 - n + i] == DigitUnits(zeros + ds)[i - n]; }
    forall i | 2 <= i < 2 - n ensures t[i] == 48 { assert t[i] == DigitUnits(zeros + ds)[i - 2]; }
  }

  /** The digits before the exponent. */
  function Mantissa(ds: seq<Digit>): Text
    requires ds != []
  {
    if |ds| == 1 then DigitUnits(ds) else DigitUnits(ds[..1]) + [POINT] + DigitUnits(ds[1..])
  }

  lemma MantissaShows(ds: seq<Digit>)
    requires ds != []
    ensures var h := Mantissa(ds);
            && |h| == (if |ds| == 1 then 1 else |ds| + 1) && Shows(h[0], ds[0])
            && (|ds| > 1 ==> h[1] == 46 && forall i :: 1 <= i < |ds| ==> Shows(h[i + 1], ds[i]))
  {
  }

  lemma ExponentShows(m: int)
    ensures var x := ExponentText(m);
            && |x| > 2 && x[0] == 101 && x[1] == (if m < 0 then 45 else 43) && SpellsNat(x[2..], if m < 0 then -m else m)
  {
    var n := if m < 0 then -m else m;
    NatSpelled(n);
    hide SpellsNat, DecimalDigits;
    assert ExponentText(m)[2..] == DigitUnits(DecimalDigits(n));
  }

  lemma ExponentParts(ds: seq<Digit>, n: int)
    requires ds != [] && !(-6 < n <= 21)
    ensures MagnitudeText(ds, n) == Mantissa(ds) + ExponentText(n - 1)
  {
    hide ExponentText;
  }

  lemma ExponentSpelled(ds: seq<Digit>, n: int)
    requires ds != [] && !(-6 < n <= 21)
    ensures SpellsExponent(MagnitudeText(ds, n), ds, n)
  {
    hide MagnitudeText, Mantissa, ExponentText, SpellsNat, Shows;
    ExponentParts(ds, n);
    MantissaShows(ds);
    ExponentShows(n - 1);
    var h, x := Mantissa(ds), ExponentText(n - 1);
    var t := h + x;
    assert t[|h| + 2..] == x[2..];
    assert t[0] == h[0] && t[|h|] == x[0] && t[|h| + 1] == x[1];
    if |ds| > 1 {
      assert t[1] == h[1];
      forall i | 1 <= i < |ds| ensures Shows(t[i + 1], ds[i]) { assert t[i + 1] == h[i + 1]; }
    }
  }

  lemma MagnitudeSpelled(ds: seq<Digit>, n: int)
    requires ds != []
    ensures SpellsMagnitude(MagnitudeText(ds, n), ds, n)
  {
    hide MagnitudeText, SpellsWhole, SpellsPoint, SpellsSmall, SpellsExponent;
    if |ds| <= n <= 21 { WholeSpelled(ds, n); }
    else if 0 < n <= 21 { PointSpelled(ds, n); }
    else if -6 < n <= 0 { SmallSpelled(ds, n); }
    else { ExponentSpelled(ds, n); }
  }

  lemma NumberSpelled(n: Number)
    requires ValidNumber(n)
    ensures SpellsNumber(NumberText(n), n)
  {
    hide SpellsMagnitude, MagnitudeText;
    if n.Finite? {
      MagnitudeSpelled(n.digits, n.point);
      var t := MagnitudeText(n.digits, n.point);
      assert ([MINUS] + t)[1..] == t && [] + t == t;
    }
  }

  lemma HexSpelled(c: Unit)
    ensures var h := Hex4(c); IsHex(h[0], c / 4096) && IsHex(h[1], c / 256 % 16) && IsHex(h[2], c / 16 % 16) && IsHex(h[3], c % 16)
  {
    assert c / 16 / 16 / 16 == c / 4096 && c / 16 / 16 == c / 256;
  }

  lemma UnitSpelled(s: Text, i: nat)
    requires i < |s|
    ensures IsPaired(s, i) ==> SpellsUnit([s[i]], s, i)
    ensures !IsPaired(s, i) ==> SpellsUnit(EscapedUnit(s[i]), s, i)
  {
    HexSpelled(s[i]);
    hide Hex4;
  }

  /** The units of a text whose front is not cut out of a pair are spelled as they are in the text. */
  lemma TailSpelled(part: Text, s: Text, n: nat, i: nat)
    requires n <= i < |s| && SpellsUnit(part, s[n..], i - n)
    requires n > 0 && n < |s| ==> !(0xD800 <= s[n - 1] < 0xDC00 && 0xDC00 <= s[n] < 0xE000)
    ensures SpellsUnit(part, s, i)
  {
    assert IsPaired(s[n..], i - n) <==> IsPaired(s, i);
  }

  lemma {:induction false} EscapedSpelled(s: Text) returns (parts: seq<Text>)
    ensures |parts| == |s| && (forall i :: 0 <= i < |s| ==> SpellsUnit(parts[i], s, i)) && Concatenated(parts) == Escaped(s)
    decreases |s|
  {
    hide SpellsUnit, EscapedUnit;
    if s == [] {
      return [];
    }
    var n := if |s| >= 2 && IsHighSurrogate(s[0]) && IsLowSurrogate(s[1]) then 2 else 1;
    var rest := EscapedSpelled(s[n..]);
    UnitSpelled(s, 0);
    if n == 2 {
      UnitSpelled(s, 1);
      parts := [[s[0]], [s[1]]] + rest;
      assert parts[1..] == [[s[1]]] + rest && parts[1..][1..] == rest;
      assert [s[0]] + ([s[1]] + Concatenated(rest)) == [s[0], s[1]] + Concatenated(rest);
    } else {
      parts := [EscapedUnit(s[0])] + rest;
      assert parts[1..] == rest;
    }
    forall i | n <= i < |s| ensures SpellsUnit(parts[i], s, i) {
      assert parts[i] == rest[i - n];
      TailSpelled(parts[i], s, n, i);
    }
  }

  lemma StringSpelled(s: Text)
    ensures SpellsString(Quoted(s), s)
  {
    var parts := EscapedSpelled(s);
    hide SpellsUnit, Escaped, Concatenated;
    assert Ascii("\"") == [QUOTE];
    assert SpellsParts(Quoted(s), s, parts);
  }

  lemma {:induction false} LessPrecedes(a: Text, b: Text)
    requires Less(a, b)
    ensures Precedes(a, b)
    decreases |a|
  {
    if a == [] || a[0] != b[0] {
      assert a[..0] == b[..0];
    } else {
      LessPrecedes(a[1..], b[1..]);
      var n :| 0 <= n <= |a[1..]| && n < |b[1..]| && a[1..][..n] == b[1..][..n] && (n == |a[1..]| || a[1..][n] < b[1..][n]);
      assert a[..n + 1] == [a[0]] + a[1..][..n] && b[..n + 1] == [b[0]] + b[1..][..n];
    }
  }

  /** All but the first, each with a comma before it. */
  function Commaed(texts: seq<Text>): (r: seq<Text>)
    requires texts != []
    ensures |r| == |texts| - 1 && forall i :: 0 <= i < |r| ==> r[i] == Ascii(",") + texts[i + 1]
  {
    seq(|texts| - 1, i requires 0 <= i < |texts| - 1 => Ascii(",") + texts[i + 1])
  }

  lemma {:induction false} JoinedListed(texts: seq<Text>)
    ensures Joined(texts) == Listed(texts)
    decreases |texts|
  {
    assert Ascii(",") == [COMMA];
    if |texts| >= 2 {
      JoinedListed(texts[1..]);
      var after, later := Commaed(texts), Commaed(texts[1..]);
      assert after[1..] == later && after[0] == [COMMA] + texts[1];
      var rest := Concatenated(later);
      assert Concatenated(after) == ([COMMA] + texts[1]) + rest;
      assert Joined(texts) == texts[0] + [COMMA] + (texts[1] + rest);
      hide Joined, Listed, Concatenated;
      assert texts[0] + [COMMA] + (texts[1] + rest) == texts[0] + (([COMMA] + texts[1]) + rest);
    }
  }

  lemma ItemsSpelled(items: seq<Value>)
    requires WellFormed(Array(items)) && forall i :: 0 <= i < |items| ==> Spells(PlainText(items[i]), items[i])
    ensures Spells(PlainText(Array(items)), Array(items))
  {
    var texts := PlainItems(items);
    JoinedListed(texts);
    assert Ascii("[") == [OPEN_BRACKET] && Ascii("]") == [CLOSE_BRACKET];
    hide Joined, Listed, Spells, PlainItems;
    assert SpellsItems(PlainText(Array(items)), items, texts);
    SpellsArray(PlainText(Array(items)), items, texts);
  }

  lemma SpellsArray(t: Text, items: seq<Value>, texts: seq<Text>)
    requires SpellsItems(t, items, texts)
    ensures Spells(t, Array(items))
  {
  }

  lemma MembersSpelled(ms: seq<Member<Value>>)
    requires WellFormed(Object(ms)) && forall i :: 0 <= i < |ms| ==> Spells(PlainText(ms[i].value), ms[i].value)
    requires forall i, j :: 0 <= i < j < |ms| ==> Less(ms[i].key, ms[j].key)
    ensures Spells(PlainText(Object(ms)), Object(ms))
  {
    var plain := PlainMembers(ms);
    var names := seq(|ms|, i requires 0 <= i < |ms| => Quoted(ms[i].key));
    var texts := seq(|ms|, i requires 0 <= i < |ms| => PlainText(ms[i].value));
    var t := PlainText(Object(ms));
    assert t == ObjectText(plain);
    JoinedListed(MemberTexts(plain));
    assert Ascii("{") == [OPEN_BRACE] && Ascii("}") == [CLOSE_BRACE] && Ascii(":") == [COLON];
    hide Joined, Listed, Spells, PlainText, Less, Precedes, SpellsString, Quoted;
    assert MemberTexts(plain) == seq(|ms|, i requires 0 <= i < |ms| => names[i] + Ascii(":") + texts[i]);
    forall i | 0 <= i < |ms| ensures SpellsString(names[i], ms[i].key) && Spells(texts[i], ms[i].value) {
      StringSpelled(ms[i].key);
    }
    forall i, j | 0 <= i < j < |ms| ensures Precedes(ms[i].key, ms[j].key) {
      LessPrecedes(ms[i].key, ms[j].key);
    }
    assert SpellsMembers(t, ms, names, texts);
    SpellsObject(t, ms, names, texts);
  }

  lemma SpellsObject(t: Text, ms: seq<Member<Value>>, names: seq<Text>, texts: seq<Text>)
    requires SpellsMembers(t, ms, names, texts)
    ensures Spells(t, Object(ms))
  {
  }

  lemma {:induction false} NormalSpelled(v: Value)
    requires WellFormed(v) && Supported(v)
    ensures WellFormed(Normalized(v)) && Spells(PlainText(Normalized(v)), Normalized(v))
    decreases v
  {
    NormalizedWellFormed(v);
    match v {
      case Array(items) =>
        forall i | 0 <= i < |items| ensures WellFormed(Normalized(items[i])) && Spells(PlainText(Normalized(items[i])), Normalized(items[i])) {
          NormalSpelled(items[i]);
        }
        var ns := NormalizedItems(items);
        assert Normalized(v) == Array(ns);
        hide Normalized, PlainText, Spells;
        ItemsSpelled(ns);
      case Object(ms) =>
        ObjectSpelled(ms);
      case Numeric(n) => NumberSpelled(n);
      case String(s) => StringSpelled(s);
      case _ => LiteralsSpelled();
    }
  }

  lemma LiteralsSpelled()
    ensures Ascii("null") == NULL_TEXT && Ascii("true") == TRUE_TEXT && Ascii("false") == FALSE_TEXT
  {
  }

  lemma {:induction false} ObjectSpelled(ms: seq<Member<Value>>)
    requires WellFormed(Object(ms)) && Supported(Object(ms))
    ensures WellFormed(Normalized(Object(ms))) && Spells(PlainText(Normalized(Object(ms))), Normalized(Object(ms)))
    decreases Object(ms), 0
  {
    NormalizedWellFormed(Object(ms));
    var ns := NormalizedMembers(ms);
    var sorted := SortByKey(ns);
    assert Normalized(Object(ms)) == Object(sorted);
    forall i | 0 <= i < |ns| ensures WellFormed(ns[i].value) && Spells(PlainText(ns[i].value), ns[i].value) {
      NormalSpelled(ms[i].value);
    }
    hide Normalized, PlainText, Spells, SortByKey, Less;
    SortSorted(ns);
    forall i | 0 <= i < |sorted| ensures Spells(PlainText(sorted[i].value), sorted[i].value) {
      assert sorted[i] in ns;
    }
    MembersSpelled(sorted);
  }

  /** Every canonical text parses to the same JSON value, and spells it letter by letter, its keys ascending in every object. */
  lemma CanonicalSpelled(v: Value)
    requires WellFormed(v) && Canonical(v).Some?
    ensures exists w :: Same(v, w) && Parse(Canonical(v).value) == Some(w) && Spells(Canonical(v).value, w)
  {
    hide Canonical, Spells, PlainText, Same, Parse;
    CanonicalRoundTrip(v);
    CanonicalPrintsNormalized(v);
    NormalSpelled(v);
    NormalizedWellFormed(v);
    NormalizedTwice(v);
    NormalizedSame(v, Normalized(v));
  }
}
