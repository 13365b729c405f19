/**
  A reader for the JSON grammar of RFC 8259, sections 2 to 7, and the proof that it reads
  every printed value back as that value.
*/
module JsonReader {
  import opened Basics
  import opened JsonText
  import opened CanonicalJson

  predicate IsSpace(c: Unit) { c == 0x20 || c == 0x09 || c == 0x0A || c == 0x0D }

  function SkipSpace(t: Text): (r: Text)
    ensures |r| <= |t|
  {
    if t != [] && IsSpace(t[0]) then SkipSpace(t[1..]) else t
  }

  predicate StartsWith(t: Text, c: Unit) { t != [] && t[0] == c }

  function Literal(t: Text, word: Text, v: Value): Option<(Value, Text)> {
    if |word| <= |t| && t[..|word|] == word then Some((v, t[|word|..])) else None
  }

  function ReadScalar(s: Text): (r: Option<(Value, Text)>)
    ensures r.Some? ==> |r.value.1| < |s|
  {
    if s == [] then None
    else if s[0] == QUOTE then
      (match ReadString(s[1..]) case None => None case Some((text, rest)) => Some((String(text), rest)))
    else if s[0] == MINUS || IsDigitUnit(s[0]) then
      (match ReadNumber(s) case None => None case Some((n, rest)) => Some((Numeric(n), rest)))
    else if s[0] == LOWER_N then Literal(s, NULL_TEXT, Null)
    else if s[0] == LOWER_T then Literal(s, TRUE_TEXT, Bool(true))
    else if s[0] == LOWER_F then Literal(s, FALSE_TEXT, Bool(false))
    else None
  }

  function ReadValue(t: Text): (r: Option<(Value, Text)>)
    ensures r.Some? ==> |r.value.1| < |t|
    decreases |t|, 0
  {
    var s := SkipSpace(t);
    if StartsWith(s, OPEN_BRACKET) then
      var inner := SkipSpace(s[1..]);
      if StartsWith(inner, CLOSE_BRACKET) then Some((Array([]), inner[1..]))
      else (match ReadItems(inner) case None => None case Some((items, rest)) => Some((Array(items), rest)))
    else if StartsWith(s, OPEN_BRACE) then
      var inner := SkipSpace(s[1..]);
      if StartsWith(inner, CLOSE_BRACE) then Some((Object([]), inner[1..]))
      else (match ReadMembers(inner) case None => None case Some((ms, rest)) => Some((Object(ms), rest)))
    else ReadScalar(s)
  }

  /** One or more values separated by commas, up to the closing bracket. */
  function ReadItems(t: Text): (r: Option<(seq<Value>, Text)>)
    ensures r.Some? ==> |r.value.1| < |t|
    decreases |t|, 1
  {
    match ReadValue(t)
    case None => None
    case Some((v, rest)) =>
      var after := SkipSpace(rest);
      if StartsWith(after, CLOSE_BRACKET) then Some(([v], after[1..]))
      else if StartsWith(after, COMMA) then
        (match ReadItems(after[1..]) case None => None case Some((vs, end)) => Some(([v] + vs, end)))
      else None
  }

  function ReadKey(t: Text): (r: Option<(Text, Text)>)
    ensures r.Some? ==> |r.value.1| < |t|
  {
    var s := SkipSpace(t);
    if !StartsWith(s, QUOTE) then None
    else match ReadString(s[1..])
      case None => None
      case Some((key, rest)) =>
        var after := SkipSpace(rest);
        if StartsWith(after, COLON) then Some((key, after[1..])) else None
  }

  /** One or more members separated by commas, up to the closing brace. */
  function ReadMembers(t: Text): (r: Option<(seq<Member<Value>>, Text)>)
    ensures r.Some? ==> |r.value.1| < |t|
    decreases |t|, 1
  {
    match ReadKey(t)
    case None => None
    case Some((key, body)) =>
      match ReadValue(body)
      case None => None
      case Some((v, rest)) =>
        var after := SkipSpace(rest);
        if StartsWith(after, CLOSE_BRACE) then Some(([Member(key, v)], after[1..]))
        else if StartsWith(after, COMMA) then
          (match ReadMembers(after[1..]) case None => None case Some((ms, end)) => Some(([Member(key, v)] + ms, end)))
        else None
  }

  /** The value a whole text denotes. */
  function Parse(t: Text): Option<Value> {
    match ReadValue(t)
    case None => None
    case Some((v, rest)) => if SkipSpace(rest) == [] then Some(v) else None
  }

  // ---------------------------------------------------------------- printed text is read back

  /** What may follow a value inside a printed text. */
  predicate Closes(rest: Text) {
    rest == [] || rest[0] == COMMA || rest[0] == CLOSE_BRACKET || rest[0] == CLOSE_BRACE
  }

  /** No printed value starts with a space or a closing bracket. */
  predicate StartsValue(t: Text) {
    t != [] && !IsSpace(t[0]) && t[0] != CLOSE_BRACKET && t[0] != CLOSE_BRACE
  }

  lemma PlainStarts(v: Value, rest: Text)
    requires WellFormed(v) && Supported(v)
    ensures StartsValue(PlainText(v) + rest)
  {
    hide Joined, Escaped, MagnitudeText;
    if v.Numeric? { NumberReads(v.number, []); }
  }

  lemma ScalarReads(v: Value, rest: Text)
    requires WellFormed(v) && Supported(v) && Closes(rest) && !v.Array? && !v.Object?
    ensures ReadValue(PlainText(v) + rest) == Some((v, rest))
  {
    hide ReadString, ReadNumber, Escaped, NumberText;
    PlainStarts(v, rest);
    var t := PlainText(v) + rest;
    match v {
      case String(s) =>
        StringReads(s, rest);
        assert t[1..] == Escaped(s) + [QUOTE] + rest;
      case Numeric(n) =>
        NumberReads(n, rest);
      case Null =>
        assert t[..4] == NULL_TEXT && t[4..] == rest;
      case Bool(b) =>
        if b { assert t[..4] == TRUE_TEXT && t[4..] == rest; } else { assert t[..5] == FALSE_TEXT && t[5..] == rest; }
    }
  }

  lemma NoSpace(t: Text)
    requires t != [] && !IsSpace(t[0])
    ensures SkipSpace(t) == t
  {
  }

  lemma ArrayOpens(t: Text)
    requires StartsValue(t) || StartsWith(t, CLOSE_BRACKET)
    ensures ReadValue([OPEN_BRACKET] + t) ==
            if StartsWith(t, CLOSE_BRACKET) then Some((Array([]), t[1..]))
            else match ReadItems(t) case None => None case Some((items, rest)) => Some((Array(items), rest))
  {
    hide ReadItems, ReadMembers;
    NoSpace([OPEN_BRACKET] + t);
    assert ([OPEN_BRACKET] + t)[1..] == t;
    NoSpace(t);
  }

  lemma ObjectOpens(t: Text)
    requires StartsValue(t) || StartsWith(t, CLOSE_BRACE)
    ensures ReadValue([OPEN_BRACE] + t) ==
            if StartsWith(t, CLOSE_BRACE) then Some((Object([]), t[1..]))
            else match ReadMembers(t) case None => None case Some((ms, rest)) => Some((Object(ms), rest))
  {
    hide ReadItems, ReadMembers;
    NoSpace([OPEN_BRACE] + t);
    assert ([OPEN_BRACE] + t)[1..] == t;
    NoSpace(t);
  }

  lemma KeyReads(key: Text, rest: Text)
    ensures ReadKey(Quoted(key) + [COLON] + rest) == Some((key, rest))
    ensures StartsValue(Quoted(key) + [COLON] + rest)
  {
    hide ReadString, Escaped;
    var t := Quoted(key) + [COLON] + rest;
    NoSpace(t);
    assert t[1..] == Escaped(key) + [QUOTE] + ([COLON] + rest);
    StringReads(key, [COLON] + rest);
    NoSpace([COLON] + rest);
    assert ([COLON] + rest)[1..] == rest;
  }

  lemma BracketedReads(open: Unit, texts: seq<Text>, close: Unit, rest: Text)
    ensures [open] + Joined(texts) + [close] + rest == [open] + (Joined(texts) + [close] + rest)
    ensures texts == [] ==> Joined(texts) + [close] + rest == [close] + rest
    ensures ([close] + rest)[1..] == rest && StartsWith([close] + rest, close)
  {
    JoinedEmpty();
    hide Joined;
  }

  /** Every supported value is read back from its text, whatever closes it. */
  lemma {:induction false} ValueReads(v: Value, rest: Text)
    requires WellFormed(v) && Supported(v) && Closes(rest)
    ensures ReadValue(PlainText(v) + rest) == Some((v, rest))
    decreases v, 0
  {
    if v.Array? {
      if v.items != [] { ItemsRead(v.items, rest); }
      hide ReadValue, ReadItems, Joined, PlainItems;
      BracketedReads(OPEN_BRACKET, PlainItems(v.items), CLOSE_BRACKET, rest);
      ArrayOpens(Joined(PlainItems(v.items)) + [CLOSE_BRACKET] + rest);
    } else if v.Object? {
      if v.members != [] { MembersRead(v.members, rest); }
      hide ReadValue, ReadMembers, Joined, PlainMembers, MemberTexts;
      var texts := MemberTexts(PlainMembers(v.members));
      BracketedReads(OPEN_BRACE, texts, CLOSE_BRACE, rest);
      ObjectOpens(Joined(texts) + [CLOSE_BRACE] + rest);
    } else {
      hide ReadValue, PlainText;
      ScalarReads(v, rest);
    }
  }

  lemma JoinedEmpty()
    ensures Joined([]) == []
  {
  }

  lemma JoinedMore(text: Text, texts: seq<Text>)
    ensures Joined([text] + texts) == if texts == [] then text else text + [COMMA] + Joined(texts)
  {
    assert ([text] + texts)[1..] == texts;
  }

  lemma ItemsStep(t: Text, v: Value, tail: Text)
    requires ReadValue(t) == Some((v, tail)) && (StartsWith(tail, COMMA) || StartsWith(tail, CLOSE_BRACKET))
    ensures ReadItems(t) ==
            if tail[0] == CLOSE_BRACKET then Some(([v], tail[1..]))
            else match ReadItems(tail[1..]) case None => None case Some((vs, end)) => Some(([v] + vs, end))
  {
    hide ReadValue;
    NoSpace(tail);
  }

  lemma MembersStep(t: Text, key: Text, body: Text, v: Value, tail: Text)
    requires ReadKey(t) == Some((key, body)) && ReadValue(body) == Some((v, tail))
    requires StartsWith(tail, COMMA) || StartsWith(tail, CLOSE_BRACE)
    ensures ReadMembers(t) ==
            if tail[0] == CLOSE_BRACE then Some(([Member(key, v)], tail[1..]))
            else match ReadMembers(tail[1..]) case None => None case Some((ms, end)) => Some(([Member(key, v)] + ms, end))
  {
    hide ReadValue, ReadKey;
    NoSpace(tail);
  }

  /** What stands after the first text: the close, or a comma, the other texts and the close. */
  function Tail(texts: seq<Text>, close: Unit, rest: Text): Text {
    if texts == [] then [close] + rest else [COMMA] + (Joined(texts) + [close] + rest)
  }

  lemma JoinedTail(text: Text, texts: seq<Text>, close: Unit, rest: Text)
    ensures Joined([text] + texts) + [close] + rest == text + Tail(texts, close, rest)
    ensures StartsWith(Tail(texts, close, rest), if texts == [] then close else COMMA)
    ensures Tail(texts, close, rest)[1..] == if texts == [] then rest else Joined(texts) + [close] + rest
  {
    hide Joined;
    JoinedMore(text, texts);
    if texts != [] {
      assert text + [COMMA] + Joined(texts) + [close] + rest == text + ([COMMA] + (Joined(texts) + [close] + rest));
    }
  }

  lemma {:induction false} ItemsRead(items: seq<Value>, rest: Text)
    requires items != [] && forall i :: 0 <= i < |items| ==> WellFormed(items[i]) && Supported(items[i])
    ensures ReadItems(Joined(PlainItems(items)) + [CLOSE_BRACKET] + rest) == Some((items, rest))
    ensures StartsValue(Joined(PlainItems(items)) + [CLOSE_BRACKET] + rest)
    decreases items, 1
  {
    var first, more := items[0], items[1..];
    assert PlainItems(items) == [PlainText(first)] + PlainItems(more);
    hide ReadValue, ReadItems, Joined, PlainText, WellFormed, Supported, PlainItems, Tail;
    var tail := Tail(PlainItems(more), CLOSE_BRACKET, rest);
    JoinedTail(PlainText(first), PlainItems(more), CLOSE_BRACKET, rest);
    ValueReads(first, tail);
    PlainStarts(first, tail);
    ItemsStep(PlainText(first) + tail, first, tail);
    assert items == [first] + more;
    if more != [] {
      ItemsRead(more, rest);
    } else {
      assert items == [first];
    }
  }

  lemma MemberReads(key: Text, v: Value, tail: Text)
    requires WellFormed(v) && ReadValue(PlainText(v) + tail) == Some((v, tail))
    requires StartsWith(tail, COMMA) || StartsWith(tail, CLOSE_BRACE)
    ensures var t := MemberText(Member(key, PlainText(v))) + tail;
            && StartsValue(t)
            && ReadMembers(t) ==
               if tail[0] == CLOSE_BRACE then Some(([Member(key, v)], tail[1..]))
               else match ReadMembers(tail[1..]) case None => None case Some((ms, end)) => Some(([Member(key, v)] + ms, end))
  {
    hide ReadValue, ReadKey, ReadMembers, PlainText, Quoted;
    var body := PlainText(v) + tail;
    assert MemberText(Member(key, PlainText(v))) + tail == Quoted(key) + [COLON] + body;
    KeyReads(key, body);
    MembersStep(Quoted(key) + [COLON] + body, key, body, v, tail);
  }

  lemma {:induction false} MembersRead(ms: seq<Member<Value>>, rest: Text)
    requires ms != [] && forall i :: 0 <= i < |ms| ==> WellFormed(ms[i].value) && Supported(ms[i].value)
    ensures ReadMembers(Joined(MemberTexts(PlainMembers(ms))) + [CLOSE_BRACE] + rest) == Some((ms, rest))
    ensures StartsValue(Joined(MemberTexts(PlainMembers(ms))) + [CLOSE_BRACE] + rest)
    decreases ms, 1
  {
    var first, more := ms[0], ms[1..];
    var head := MemberText(Member(first.key, PlainText(first.value)));
    var texts := MemberTexts(PlainMembers(more));
    assert MemberTexts(PlainMembers(ms)) == [head] + texts;
    hide ReadValue, ReadMembers, Joined, PlainText, WellFormed, Supported, MemberText, MemberTexts, PlainMembers, Tail;
    var tail := Tail(texts, CLOSE_BRACE, rest);
    JoinedTail(head, texts, CLOSE_BRACE, rest);
    ValueReads(first.value, tail);
    MemberReads(first.key, first.value, tail);
    assert ms == [first] + more;
    if more != [] {
      MembersRead(more, rest);
    } else {
      assert ms == [first];
    }
  }

  /** Printing then parsing gives the value back. */
  lemma ParsePlain(v: Value)
    requires WellFormed(v) && Supported(v)
    ensures Parse(PlainText(v)) == Some(v)
  {
    hide ReadValue, PlainText;
    ValueReads(v, []);
    assert PlainText(v) + [] == PlainText(v);
  }
}
