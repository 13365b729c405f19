/**
  The placeholder scanner of packages/database/src/prisma-runtime.ts: it jumps over
  literals, quoted identifiers, comments and dollar-quoted bodies in one go.
  Every loop is proved to end where the one-character automaton is back in plain text.
*/
module SqlScanner {
  import opened Basics
  import opened SqlLexer

  datatype Error =
    | InvalidPlaceholder(digits: string)
    | NoBinding(index: nat)
    | WrongBindingCount(given: nat, required: nat)

  datatype Result<+T> = Ok(value: T) | Err(error: Error)

  const MAX_SAFE_INTEGER: nat := 9007199254740991

  predicate Safe(h: Placeholder) { h.index <= MAX_SAFE_INTEGER }

  function DigitsOf(s: string, h: Placeholder): string {
    if h.start + 1 <= h.end <= |s| then s[h.start + 1..h.end] else ""
  }

  /** What the scanner answers for the placeholders hs: the list, or the first unusable number. */
  function Usable(s: string, hs: seq<Placeholder>): Result<seq<Placeholder>> {
    if hs == [] then Ok([])
    else if !Safe(hs[0]) then Err(InvalidPlaceholder(DigitsOf(s, hs[0])))
    else match Usable(s, hs[1..])
      case Ok(rest) => Ok([hs[0]] + rest)
      case Err(e) => Err(e)
  }

  lemma {:induction false} UsableAppend(
      s: string, before: seq<Placeholder>, after: seq<Placeholder>)
    requires forall i :: 0 <= i < |before| ==> Safe(before[i])
    ensures Usable(s, before + after) == match Usable(s, after) case Ok(rest) => Ok(before + rest) case Err(e) => Err(e)
  {
    if before == [] {
      assert before + after == after;
      if Usable(s, after).Ok? { assert before + Usable(s, after).value == Usable(s, after).value; }
    } else {
      assert (before + after)[1..] == before[1..] + after;
      UsableAppend(s, before[1..], after);
      if Usable(s, after).Ok? {
        assert [before[0]] + (before[1..] + Usable(s, after).value) == before + Usable(s, after).value;
      }
    }
  }

  lemma {:induction false} UsableAll(s: string, hs: seq<Placeholder>)
    ensures Usable(s, hs).Ok? <==> forall i :: 0 <= i < |hs| ==> Safe(hs[i])
    ensures Usable(s, hs).Ok? ==> Usable(s, hs).value == hs
  {
    if hs != [] {
      UsableAll(s, hs[1..]);
      assert forall i :: 1 <= i < |hs| ==> hs[i] == hs[1..][i - 1];
      assert hs == [hs[0]] + hs[1..];
    }
  }

  predicate OccursAt(s: string, pattern: string, i: nat) {
    i + |pattern| <= |s| && s[i..i + |pattern|] == pattern
  }

  /** First occurrence of pattern at or after from. */
  function IndexOf(s: string, pattern: string, from: nat): (r: Option<nat>)
    ensures r.Some? ==> from <= r.value && OccursAt(s, pattern, r.value)
    ensures forall i :: from <= i && OccursAt(s, pattern, i) ==> r.Some? && r.value <= i
    decreases |s| - from
  {
    if OccursAt(s, pattern, from) then Some(from)
    else if from >= |s| then None
    else IndexOf(s, pattern, from + 1)
  }

  /** End of the longest run of tag characters that starts at p. */
  function TagRun(s: string, p: nat): (q: nat)
    requires p <= |s|
    ensures p <= q <= |s|
    ensures forall i :: p <= i < q ==> IsTagPart(s[i])
    ensures q < |s| ==> !IsTagPart(s[q])
    decreases |s| - p
  {
    if p < |s| && IsTagPart(s[p]) then TagRun(s, p + 1) else p
  }

  function DigitRun(s: string, p: nat): (q: nat)
    requires p <= |s|
    ensures p <= q <= |s|
    ensures forall i :: p <= i < q ==> IsDigit(s[i])
    ensures q < |s| ==> !IsDigit(s[q])
    decreases |s| - p
  {
    if p < |s| && IsDigit(s[p]) then DigitRun(s, p + 1) else p
  }

  /** The dollar quote that opens at p: `$$`, or `$name$` with an identifier as name. */
  function DollarQuote(s: string, p: nat): (r: Option<string>)
    requires p < |s| && s[p] == '$'
    ensures r.Some? ==> 2 <= |r.value| && p + |r.value| <= |s| && s[p..p + |r.value|] == r.value
  {
    if p + 1 == |s| then None
    else if s[p + 1] == '$' then Some(s[p..p + 2])
    else if !IsTagStart(s[p + 1]) then None
    else
      var q := TagRun(s, p + 2);
      if q < |s| && s[q] == '$' then Some(s[p..q + 1]) else None
  }

  /** One step of the automaton where no digit run is pending. */
  lemma Step(s: string, p: nat, m: Mode)
    requires p < |s| && !m.Number?
    ensures Lex(s, p, m) == Lex(s, p + 1, Next(m, s[p]))
  {
    hide Next, Value;
    assert Emitted(s, p, m) == [];
  }

  lemma AtEnd(s: string, m: Mode)
    requires !m.Number?
    ensures Lex(s, |s|, m) == []
  {
  }

  /** A mode that treats the character at p as plain text would is as good as plain there. */
  lemma AsPlain(s: string, p: nat, m: Mode)
    requires p <= |s| && !m.Number?
    requires p < |s| ==> Next(m, s[p]) == FromPlain(s[p])
    ensures Lex(s, p, m) == Lex(s, p, Plain)
  {
    hide Lex, Value;
    if p < |s| {
      Step(s, p, m);
      Step(s, p, Plain);
    } else {
      AtEnd(s, m);
      AtEnd(s, Plain);
    }
  }

  lemma {:induction false} LexLine(s: string, p: nat, q: nat)
    requires p <= q <= |s| && forall i :: p <= i < q ==> s[i] != '\n'
    ensures Lex(s, p, LineComment) == Lex(s, q, LineComment)
    decreases q - p
  {
    hide Lex;
    if p < q {
      Step(s, p, LineComment);
      LexLine(s, p + 1, q);
    }
  }

  lemma {:induction false} LexBody(s: string, tag: string, start: nat, p: nat, q: nat)
    requires start <= p <= q <= |s|
    requires forall e :: p < e <= q ==> !EndsWith(s[start..e], tag)
    ensures Lex(s, p, Body(tag, s[start..p])) == Lex(s, q, Body(tag, s[start..q]))
    decreases q - p
  {
    hide Lex, EndsWith;
    if p < q {
      assert s[start..p] + [s[p]] == s[start..p + 1];
      Step(s, p, Body(tag, s[start..p]));
      LexBody(s, tag, start, p + 1, q);
    }
  }

  lemma {:induction false} LexTag(s: string, name: string, p: nat, q: nat)
    requires p <= q <= |s| && forall i :: p <= i < q ==> IsTagPart(s[i])
    ensures Lex(s, p, Tag(name)) == Lex(s, q, Tag(name + s[p..q]))
    decreases q - p
  {
    hide Lex;
    if p < q {
      Step(s, p, Tag(name));
      LexTag(s, name + [s[p]], p + 1, q);
      assert name + s[p..q] == name + [s[p]] + s[p + 1..q];
    } else {
      assert name + s[p..q] == name;
    }
  }

  lemma {:induction false} LexName(s: string, p: nat, q: nat)
    requires p <= q <= |s| && forall i :: p <= i < q ==> IsTagPart(s[i])
    ensures Lex(s, p, Plain) == Lex(s, q, Plain)
    decreases q - p
  {
    hide Lex;
    if p < q {
      Step(s, p, Plain);
      LexName(s, p + 1, q);
    }
  }

  lemma {:induction false} LexDigits(s: string, digits: string, p: nat, q: nat)
    requires p <= q <= |s| && forall i :: p <= i < q ==> IsDigit(s[i])
    ensures Lex(s, p, Number(digits)) == Lex(s, q, Number(digits + s[p..q]))
    decreases q - p
  {
    hide Lex;
    if p < q {
      LexStep(s, p, Number(digits));
      assert Emitted(s, p, Number(digits)) == [];
      LexDigits(s, digits + [s[p]], p + 1, q);
      assert digits + s[p..q] == digits + [s[p]] + s[p + 1..q];
    } else {
      assert digits + s[p..q] == digits;
    }
  }

  /** Where the scanner stands after the dollar quote `quote` that opens at p. */
  function AfterDollarQuote(s: string, p: nat, quote: string): nat {
    match IndexOf(s, quote, p + |quote|)
    case None => |s|
    case Some(closing) => closing + |quote|
  }

  lemma DollarQuoteMode(s: string, p: nat)
    requires p < |s| && s[p] == '$' && DollarQuote(s, p).Some?
    ensures var quote := DollarQuote(s, p).value;
            Lex(s, p, Plain) == Lex(s, p + |quote|, Body(quote, []))
  {
    hide Lex;
    var quote := DollarQuote(s, p).value;
    Step(s, p, Plain);
    Step(s, p + 1, Dollar);
    if s[p + 1] == '$' {
      assert quote == "$$";
    } else {
      NamedQuoteMode(s, p, TagRun(s, p + 2));
    }
  }

  lemma NamedQuoteMode(s: string, p: nat, q: nat)
    requires p + 2 <= q < |s| && s[p] == '$' && s[q] == '$' && IsTagStart(s[p + 1])
    requires forall i :: p + 2 <= i < q ==> IsTagPart(s[i])
    ensures Lex(s, p + 2, Tag("$" + [s[p + 1]])) == Lex(s, q + 1, Body(s[p..q + 1], []))
  {
    hide Lex;
    var name := "$" + [s[p + 1]];
    LexTag(s, name, p + 2, q);
    assert s[p..q + 1] == name + s[p + 2..q] + "$";
    Step(s, q, Tag(name + s[p + 2..q]));
  }

  /** Nowhere before the closing tag is complete does the body read so far end with the tag. */
  lemma NoEarlierClosing(s: string, quote: string, start: nat, stop: nat)
    requires start <= stop <= |s| && |quote| >= 1
    requires var found := IndexOf(s, quote, start);
             if found.Some? then stop == found.value + |quote| - 1 else stop == |s|
    ensures forall e :: start < e <= stop ==> !EndsWith(s[start..e], quote)
  {
    forall e | start < e <= stop && EndsWith(s[start..e], quote) ensures false {
      assert s[start..e][e - start - |quote|..] == s[e - |quote|..e];
      assert OccursAt(s, quote, e - |quote|);
    }
  }

  /** The body of a dollar quote is read up to its closing tag, or to the end. */
  lemma BodySkips(s: string, quote: string, start: nat)
    requires start <= |s| && |quote| >= 1
    ensures match IndexOf(s, quote, start)
            case None => Lex(s, start, Body(quote, [])) == Lex(s, |s|, Plain)
            case Some(closing) => closing + |quote| <= |s| && Lex(s, start, Body(quote, [])) == Lex(s, closing + |quote|, Plain)
  {
    hide Lex, EndsWith;
    var found := IndexOf(s, quote, start);
    var stop := if found.Some? then found.value + |quote| - 1 else |s|;
    NoEarlierClosing(s, quote, start, stop);
    assert s[start..start] == [];
    hide IndexOf;
    LexBody(s, quote, start, start, stop);
    if found.Some? {
      BodyCloses(s, quote, start, found.value);
    } else {
      AtEnd(s, Body(quote, s[start..stop]));
      AtEnd(s, Plain);
    }
  }

  lemma DollarQuoteSkips(s: string, p: nat)
    requires p < |s| && s[p] == '$' && DollarQuote(s, p).Some?
    ensures var q := AfterDollarQuote(s, p, DollarQuote(s, p).value);
            p < q <= |s| && Lex(s, p, Plain) == Lex(s, q, Plain)
  {
    hide Lex, DollarQuote, IndexOf;
    DollarQuoteMode(s, p);
    BodySkips(s, DollarQuote(s, p).value, p + |DollarQuote(s, p).value|);
  }

  lemma BodyCloses(s: string, quote: string, start: nat, closing: nat)
    requires start <= closing && |quote| >= 1 && OccursAt(s, quote, closing)
    ensures var stop := closing + |quote| - 1;
            Lex(s, stop, Body(quote, s[start..stop])) == Lex(s, stop + 1, Plain)
  {
    hide Lex;
    var stop := closing + |quote| - 1;
    Step(s, stop, Body(quote, s[start..stop]));
    assert s[start..stop] + [s[stop]] == s[start..stop + 1];
    assert s[start..stop + 1][stop + 1 - start - |quote|..] == s[closing..closing + |quote|];
  }

  /** A `$` that opens neither a dollar quote nor a parameter is one plain character. */
  lemma PlainDollar(s: string, p: nat)
    requires p < |s| && s[p] == '$' && DollarQuote(s, p).None?
    requires p + 1 < |s| ==> !IsDigit(s[p + 1])
    ensures Lex(s, p, Plain) == Lex(s, p + 1, Plain)
  {
    hide Lex;
    Step(s, p, Plain);
    if p + 1 < |s| && IsTagStart(s[p + 1]) {
      var q := TagRun(s, p + 2);
      var name := "$" + [s[p + 1]];
      Step(s, p + 1, Dollar);
      LexTag(s, name, p + 2, q);
      AsPlain(s, q, Tag(name + s[p + 2..q]));
      LexName(s, p + 1, q);
    } else {
      AsPlain(s, p + 1, Dollar);
    }
  }

  lemma ParameterFound(s: string, p: nat, q: nat)
    requires p + 1 < q <= |s| && s[p] == '$' && q == DigitRun(s, p + 1)
    ensures Lex(s, p, Plain) == [Placeholder(p, q, Value(s[p + 1..q]))] + Lex(s, q, Plain)
  {
    hide Lex, Value, DigitRun;
    Step(s, p, Plain);
    Step(s, p + 1, Dollar);
    LexDigits(s, [s[p + 1]], p + 2, q);
    assert [s[p + 1]] + s[p + 2..q] == s[p + 1..q];
    NumberEnds(s, s[p + 1..q], q);
  }

  lemma NumberEnds(s: string, digits: string, q: nat)
    requires |digits| < q <= |s| && (q < |s| ==> !IsDigit(s[q]))
    ensures Lex(s, q, Number(digits)) == [Placeholder(q - |digits| - 1, q, Value(digits))] + Lex(s, q, Plain)
  {
    hide Lex, Value;
    if q < |s| {
      LexStep(s, q, Number(digits));
      Step(s, q, Plain);
    } else {
      LexEnd(s, Number(digits));
      AtEnd(s, Plain);
    }
  }

  lemma LineSkips(s: string, p: nat)
    requires p + 1 < |s| && s[p] == '-' && s[p + 1] == '-'
    ensures var newline := IndexOf(s, "\n", p + 2);
            Lex(s, p, Plain) == Lex(s, if newline.None? then |s| else newline.value + 1, Plain)
  {
    hide Lex;
    var newline := IndexOf(s, "\n", p + 2);
    Step(s, p, Plain);
    Step(s, p + 1, Dash);
    var stop := if newline.None? then |s| else newline.value;
    forall i | p + 2 <= i < stop ensures s[i] != '\n' {
      assert s[i..i + 1] == [s[i]];
      assert OccursAt(s, "\n", i) <==> s[i] == '\n';
    }
    LexLine(s, p + 2, stop);
    if newline.Some? {
      assert s[stop..stop + 1] == [s[stop]];
      Step(s, stop, LineComment);
    } else {
      AtEnd(s, LineComment);
      AtEnd(s, Plain);
    }
  }

  function Inside(quote: char): Mode { if quote == '\'' then Single else Double }

  lemma QuoteSteps(s: string, p: nat, quote: char)
    requires p < |s| && (quote == '\'' || quote == '"')
    ensures quote == '\'' && s[p] == '\\' ==>
              Lex(s, p, Single) == if p + 1 < |s| then Lex(s, p + 2, Single) else []
    ensures s[p] != quote && !(quote == '\'' && s[p] == '\\') ==>
              Lex(s, p, Inside(quote)) == Lex(s, p + 1, Inside(quote))
    ensures s[p] == quote ==>
              Lex(s, p, Inside(quote)) == if p + 1 < |s| && s[p + 1] == quote then Lex(s, p + 2, Inside(quote)) else Lex(s, p + 1, Plain)
  {
    hide Lex;
    Step(s, p, Inside(quote));
    var m := Next(Inside(quote), s[p]);
    if p + 1 < |s| {
      Step(s, p + 1, m);
      Step(s, p + 1, Plain);
    } else {
      AtEnd(s, m);
      AtEnd(s, Plain);
    }
  }

  /** Skips a literal or quoted identifier. */
  method SkipQuoted(sql: string, opening: nat, quote: char) returns (end: nat)
    requires opening < |sql| && (quote == '\'' || quote == '"')
    ensures opening < end <= |sql|
    ensures Lex(sql, opening + 1, Inside(quote)) == Lex(sql, end, Plain)
  {
    hide Lex;
    var position := opening + 1;
    while position < |sql|
      invariant opening < position
      invariant position <= |sql| ==> Lex(sql, opening + 1, Inside(quote)) == Lex(sql, position, Inside(quote))
      invariant position > |sql| ==> Lex(sql, opening + 1, Inside(quote)) == []
    {
      QuoteSteps(sql, position, quote);
      if quote == '\'' && sql[position] == '\\' {
        position := position + 2;
        continue;
      }
      if sql[position] != quote {
        position := position + 1;
        continue;
      }
      if position + 1 < |sql| && sql[position + 1] == quote {
        position := position + 2;
        continue;
      }
      return position + 1;
    }
    AtEnd(sql, Inside(quote));
    AtEnd(sql, Plain);
    return |sql|;
  }

  predicate PairAt(s: string, p: nat, first: char, second: char) {
    p + 1 < |s| && s[p] == first && s[p + 1] == second
  }

  lemma BlockSteps(s: string, p: nat, depth: nat)
    requires p < |s| && depth >= 1
    ensures PairAt(s, p, '/', '*') ==> Lex(s, p, Block(depth)) == Lex(s, p + 2, Block(depth + 1))
    ensures PairAt(s, p, '*', '/') ==> Lex(s, p, Block(depth)) == Lex(s, p + 2, if depth == 1 then Plain else Block(depth - 1))
    ensures !PairAt(s, p, '/', '*') && !PairAt(s, p, '*', '/') ==> Lex(s, p, Block(depth)) == Lex(s, p + 1, Block(depth))
  {
    hide Lex;
    Step(s, p, Block(depth));
    var m := FromBlock(depth, s[p]);
    if p + 1 < |s| {
      Step(s, p + 1, m);
      Step(s, p + 1, Block(depth));
    } else {
      AtEnd(s, m);
      AtEnd(s, Block(depth));
    }
  }

  /** Skips a block comment, which may nest. */
  method SkipBlockComment(sql: string, opening: nat) returns (end: nat)
    requires opening + 2 <= |sql|
    ensures opening < end <= |sql|
    ensures Lex(sql, opening + 2, Block(1)) == Lex(sql, end, Plain)
  {
    hide Lex;
    var depth: nat := 1;
    var position := opening + 2;
    while position < |sql|
      invariant opening + 2 <= position <= |sql| && 1 <= depth
      invariant Lex(sql, opening + 2, Block(1)) == Lex(sql, position, Block(depth))
    {
      BlockSteps(sql, position, depth);
      if PairAt(sql, position, '/', '*') {
        depth := depth + 1;
        position := position + 1;
      } else if PairAt(sql, position, '*', '/') {
        depth := depth - 1;
        position := position + 1;
        if depth == 0 {
          return position + 1;
        }
      }
      position := position + 1;
    }
    AtEnd(sql, Block(depth));
    AtEnd(sql, Plain);
    return |sql|;
  }

  /** A region opener in plain text puts the automaton inside that region. */
  lemma Openers(s: string, p: nat)
    requires p < |s|
    ensures s[p] == '\'' || s[p] == '"' ==> Lex(s, p, Plain) == Lex(s, p + 1, Inside(s[p]))
    ensures PairAt(s, p, '/', '*') ==> Lex(s, p, Plain) == Lex(s, p + 2, Block(1))
    ensures s[p] !in "'\"$" && !PairAt(s, p, '/', '*') && !PairAt(s, p, '-', '-') ==> Lex(s, p, Plain) == Lex(s, p + 1, Plain)
  {
    hide Lex;
    Step(s, p, Plain);
    if PairAt(s, p, '/', '*') {
      Step(s, p + 1, Slash);
    } else if !PairAt(s, p, '-', '-') && (s[p] == '-' || s[p] == '/') {
      AsPlain(s, p + 1, FromPlain(s[p]));
    }
  }

  /** The scanner finds exactly the placeholders of the reference automaton. */
  method ParameterPlaceholders(sql: string) returns (r: Result<seq<Placeholder>>)
    ensures r == Usable(sql, Lex(sql, 0, Plain))
  {
    hide Lex, Usable, Value, DigitRun, DollarQuote, IndexOf;
    var placeholders: seq<Placeholder> := [];
    var position := 0;
    while position < |sql|
      invariant position <= |sql|
      invariant Lex(sql, 0, Plain) == placeholders + Lex(sql, position, Plain)
      invariant forall i :: 0 <= i < |placeholders| ==> Safe(placeholders[i])
    {
      Openers(sql, position);
      var character := sql[position];
      if character == '\'' {
        position := SkipQuoted(sql, position, '\'');
      } else if character == '"' {
        position := SkipQuoted(sql, position, '"');
      } else if PairAt(sql, position, '-', '-') {
        LineSkips(sql, position);
        var newline := IndexOf(sql, "\n", position + 2);
        if newline.None? {
          position := |sql|;
          break;
        }
        position := newline.value + 1;
      } else if PairAt(sql, position, '/', '*') {
        position := SkipBlockComment(sql, position);
      } else if character == '$' {
        var dollarQuote := DollarQuote(sql, position);
        if dollarQuote.Some? {
          DollarQuoteSkips(sql, position);
          var closing := IndexOf(sql, dollarQuote.value, position + |dollarQuote.value|);
          position := if closing.None? then |sql| else closing.value + |dollarQuote.value|;
        } else {
          var end := DigitRun(sql, position + 1);
          if end > position + 1 {
            ParameterFound(sql, position, end);
            var found := Placeholder(position, end, Value(sql[position + 1..end]));
            if !Safe(found) {
              FirstUnusable(sql, placeholders, found, Lex(sql, end, Plain));
              return Err(InvalidPlaceholder(sql[position + 1..end]));
            }
            assert placeholders + ([found] + Lex(sql, end, Plain)) == placeholders + [found] + Lex(sql, end, Plain);
            placeholders := placeholders + [found];
            position := end;
          } else {
            PlainDollar(sql, position);
            position := position + 1;
          }
        }
      } else {
        position := position + 1;
      }
    }
    AtEnd(sql, Plain);
    assert Lex(sql, 0, Plain) == placeholders;
    UsableAll(sql, placeholders);
    return Ok(placeholders);
  }

  lemma FirstUnusable(
      s: string, before: seq<Placeholder>, bad: Placeholder, after: seq<Placeholder>)
    requires forall i :: 0 <= i < |before| ==> Safe(before[i])
    requires !Safe(bad)
    ensures Usable(s, before + ([bad] + after)) == Err(InvalidPlaceholder(DigitsOf(s, bad)))
  {
    UsableAppend(s, before, [bad] + after);
  }
}
