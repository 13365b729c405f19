/**
  What stands in a SQL text, without reading it: every text is a row of lexemes, and its parameters are the
  `$digits` among them.
*/
module SqlLexemes {
  import opened Basics
  import opened SqlLexer
  import opened SqlScanner
  import opened SqlCompiler

  // ---------------------------------------------------------------- lexemes

  /** What the inside of a quotation or comment is made of. */
  datatype Unit = One(c: char) | Two(c: char, d: char)

  function Written(u: Unit): string { if u.One? then [u.c] else [u.c, u.d] }

  function Text(us: seq<Unit>): string { if us == [] then "" else Written(us[0]) + Text(us[1..]) }

  predicate OccursIn(s: string, p: int, q: int, text: string) { 0 <= p <= q <= |s| && s[p..q] == text }

  /** `$` and decimal digits, as many as there are. */
  predicate IsParameter(s: string, p: nat, q: nat) {
    && p + 1 < q <= |s| && s[p] == '$'
    && (forall i :: p < i < q ==> '0' <= s[i] <= '9')
    && (q < |s| ==> !('0' <= s[q] <= '9'))
  }

  /** The tag of a dollar quotation ends at r: `$$`, or an identifier between two dollar signs. */
  predicate OpensAt(s: string, p: nat, r: nat) {
    && p + 1 < r <= |s| && s[p] == '$' && s[r - 1] == '$'
    && forall i :: p < i < r - 1 ==> 'A' <= s[i] <= 'Z' || 'a' <= s[i] <= 'z' || s[i] == '_' || ('0' <= s[i] <= '9' && p + 1 < i)
  }

  predicate TagAt(s: string, tag: string, i: nat) { OccursIn(s, i, i + |tag|, tag) }

  predicate NotWithin(s: string, tag: string, from: nat, to: nat) { forall i :: from <= i < to ==> !TagAt(s, tag, i) }

  /** After its tag, through the next occurrence of it, or to the end of the text if there is none. */
  predicate IsDollarQuoted(s: string, p: nat, r: nat, q: nat) {
    && OpensAt(s, p, r) && r <= q <= |s|
    && var tag := s[p..r];
       (|| (r + |tag| <= q && TagAt(s, tag, q - |tag|) && NotWithin(s, tag, r, q - |tag|))
        || (q == |s| && NotWithin(s, tag, r, |s|)))
  }

  predicate IsLineComment(s: string, p: nat, q: nat) {
    && p + 2 <= q <= |s| && s[p] == '-' && s[p + 1] == '-'
    && (forall i :: p + 2 <= i < q - 1 ==> s[i] != '\n')
    && (s[q - 1] != '\n' || q == p + 2 ==> q == |s|)
  }

  /** Inside quotation marks: a mark is doubled, and in a literal a backslash takes the next character with it. */
  predicate QuoteUnit(u: Unit, quote: char) {
    if u.One? then u.c != quote && !(quote == '\'' && u.c == '\\')
    else (u.c == quote && u.d == quote) || (quote == '\'' && u.c == '\\')
  }

  predicate QuoteUnits(us: seq<Unit>, quote: char) { forall i :: 0 <= i < |us| ==> QuoteUnit(us[i], quote) }

  /** Up to a mark that is not doubled, or to the end, where a backslash may have nothing to take. */
  ghost predicate IsQuoted(s: string, p: nat, q: nat, quote: char, us: seq<Unit>) {
    && QuoteUnits(us, quote)
    && (|| (OccursIn(s, p, q, [quote] + Text(us) + [quote]) && (q < |s| ==> s[q] != quote))
        || (q == |s| && OccursIn(s, p, q, [quote] + Text(us)))
        || (q == |s| && quote == '\'' && OccursIn(s, p, q, [quote] + Text(us) + "\\")))
  }

  /** Inside a comment, `/*` and `*/` are read as soon as they stand there. */
  predicate CommentUnits(us: seq<Unit>) { forall i :: 0 <= i < |us| ==> CommentUnit(us, i) }

  predicate CommentUnit(us: seq<Unit>, i: nat)
    requires i < |us|
  {
    if us[i].Two? then us[i] == Two('/', '*') || us[i] == Two('*', '/')
    else i + 1 < |us| ==> !(us[i].c == '/' && us[i + 1].c == '*') && !(us[i].c == '*' && us[i + 1].c == '/')
  }

  function Opens(u: Unit): int { if u == Two('/', '*') then 1 else if u == Two('*', '/') then -1 else 0 }

  /** How many comments are open after the opening one and these. */
  function Open(us: seq<Unit>): int {
    if us == [] then 1
    else Open(us[..|us| - 1]) + Opens(us[|us| - 1])
  }

  /** Comments nest: up to the first place where as many have been closed as opened, or to the end. */
  ghost predicate IsBlockComment(s: string, p: nat, q: nat, us: seq<Unit>) {
    && CommentUnits(us) && OccursIn(s, p, q, "/*" + Text(us))
    && (forall n :: 0 <= n < |us| ==> Open(us[..n]) >= 1)
    && (q < |s| ==> Open(us) == 0)
  }

  /** Any other character, where none of these begins. */
  ghost predicate IsPlain(s: string, p: nat) {
    && p < |s| && s[p] != '\'' && s[p] != '"'
    && (p + 1 < |s| ==> !(s[p] == '-' && s[p + 1] == '-') && !(s[p] == '/' && s[p + 1] == '*'))
    && (p + 1 < |s| && s[p] == '$' ==> !('0' <= s[p + 1] <= '9') && forall r :: !OpensAt(s, p, r))
  }

  ghost predicate IsSkipped(s: string, p: nat, q: nat) {
    || (q == p + 1 && IsPlain(s, p))
    || IsLineComment(s, p, q)
    || (exists r :: IsDollarQuoted(s, p, r, q))
    || (exists us :: IsQuoted(s, p, q, '\'', us))
    || (exists us :: IsQuoted(s, p, q, '"', us))
    || (exists us :: IsBlockComment(s, p, q, us))
  }

  /** The text cut into lexemes. */
  ghost predicate IsCut(s: string, cuts: seq<nat>) {
    && cuts != [] && cuts[0] == 0 && cuts[|cuts| - 1] == |s|
    && forall i :: 0 <= i < |cuts| - 1 ==> IsLexeme(s, cuts[i], cuts[i + 1])
  }

  ghost predicate IsLexeme(s: string, p: nat, q: nat) {
    p < q <= |s| && (IsParameter(s, p, q) || IsSkipped(s, p, q))
  }

  // ---------------------------------------------------------------- what reading makes of a lexeme

  lemma TextSplit(us: seq<Unit>)
    requires us != []
    ensures Text(us) == Written(us[0]) + Text(us[1..]) && |Text(us)| >= 1
  {
  }

  lemma OccursBounds(s: string, p: nat, q: nat, a: string)
    requires OccursIn(s, p, q, a)
    ensures p <= q <= |s|
  {
  }

  lemma OccursSplit(s: string, p: nat, q: nat, a: string, b: string)
    requires OccursIn(s, p, q, a + b)
    ensures OccursIn(s, p, p + |a|, a) && OccursIn(s, p + |a|, q, b)
  {
    assert s[p..p + |a|] == (a + b)[..|a|];
    assert s[p + |a|..q] == (a + b)[|a|..];
  }

  lemma {:induction false} QuoteReads(s: string, p: nat, q: nat, quote: char, us: seq<Unit>)
    requires (quote == '\'' || quote == '"') && QuoteUnits(us, quote) && OccursIn(s, p, q, Text(us))
    ensures Lex(s, p, Inside(quote)) == Lex(s, q, Inside(quote))
    decreases us
  {
    hide Lex;
    if us != [] {
      TextSplit(us);
      OccursSplit(s, p, q, Written(us[0]), Text(us[1..]));
      var u := us[0];
      assert QuoteUnit(u, quote);
      var w := Written(u);
      assert s[p] == s[p..p + |w|][0] == w[0];
      if u.Two? { assert s[p + 1] == s[p..p + |w|][1] == w[1]; }
      QuoteSteps(s, p, quote);
      QuoteReads(s, p + |w|, q, quote, us[1..]);
    }
  }

  /** Between its marks. */
  lemma QuoteBody(s: string, p: nat, q: nat, quote: char, us: seq<Unit>)
    requires (quote == '\'' || quote == '"') && QuoteUnits(us, quote) && OccursIn(s, p, q, [quote] + Text(us))
    ensures p < q && Lex(s, p, Plain) == Lex(s, q, Inside(quote))
  {
    hide Lex, QuoteUnits;
    assert s[p] == quote by { assert s[p..q][0] == quote; }
    Step(s, p, Plain);
    OccursSplit(s, p, q, [quote], Text(us));
    QuoteReads(s, p + 1, q, quote, us);
  }

  lemma QuotedReads(s: string, p: nat, q: nat, quote: char, us: seq<Unit>)
    requires (quote == '\'' || quote == '"') && IsQuoted(s, p, q, quote, us)
    ensures p < q && Lex(s, p, Plain) == Lex(s, q, Plain)
  {
    hide Lex, QuoteUnits, Text;
    if q == |s| && OccursIn(s, p, q, [quote] + Text(us)) {
      QuoteBody(s, p, q, quote, us);
      AtEnd(s, Inside(quote));
      AtEnd(s, Plain);
    } else {
      var last := if OccursIn(s, p, q, [quote] + Text(us) + [quote]) && (q < |s| ==> s[q] != quote) then [quote] else "\\";
      OccursSplit(s, p, q, [quote] + Text(us), last);
      QuoteBody(s, p, q - 1, quote, us);
      assert s[q - 1] == s[q - 1..q][0];
      QuoteSteps(s, q - 1, quote);
      if q == |s| { AtEnd(s, Plain); }
    }
  }

  lemma OpenStep(us: seq<Unit>, n: nat)
    requires n < |us|
    ensures us[..n + 1][..n] == us[..n]
    ensures Open(us[..n + 1]) == Open(us[..n]) + Opens(us[n])
  {
    assert us[..n + 1][..n] == us[..n];
  }

  function ModeOf(open: int): Mode { if open <= 0 then Plain else Block(open) }

  /** From unit n on, while comments are open. */
  lemma {:induction false} CommentReads(s: string, p: nat, q: nat, us: seq<Unit>, n: nat)
    requires n <= |us| && CommentUnits(us) && OccursIn(s, p, q, Text(us[n..]))
    requires (forall k :: 0 <= k < |us| ==> Open(us[..k]) >= 1) && (q < |s| ==> Open(us) == 0)
    ensures Lex(s, p, ModeOf(Open(us[..n]))) == Lex(s, q, Plain)
    decreases |us| - n
  {
    hide Lex;
    if n == |us| {
      assert us[n..] == [] && us[..n] == us;
      if Open(us) >= 1 {
        AtEnd(s, Block(Open(us)));
        AtEnd(s, Plain);
      }
    } else {
      var depth := Open(us[..n]);
      CommentStep(s, p, q, us, n);
      CommentReads(s, p + |Written(us[n])|, q, us, n + 1);
    }
  }

  /** What stands at p, if unit n does. */
  lemma UnitStands(s: string, p: nat, q: nat, us: seq<Unit>, n: nat)
    requires n < |us| && CommentUnits(us) && OccursIn(s, p, q, Text(us[n..])) && (us[n].One? && n + 1 == |us| ==> q == |s|)
    ensures OccursIn(s, p + |Written(us[n])|, q, Text(us[n + 1..])) && p < |s|
    ensures PairAt(s, p, '/', '*') <==> us[n] == Two('/', '*')
    ensures PairAt(s, p, '*', '/') <==> us[n] == Two('*', '/')
    ensures us[n].Two? ==> us[n] == Two('/', '*') || us[n] == Two('*', '/')
  {
    assert us[n..][1..] == us[n + 1..];
    TextSplit(us[n..]);
    var w := Written(us[n]);
    OccursSplit(s, p, q, w, Text(us[n + 1..]));
    assert CommentUnit(us, n);
    assert s[p] == s[p..p + |w|][0] == w[0];
    if us[n].Two? {
      assert s[p + 1] == s[p..p + |w|][1] == w[1];
    } else if n + 1 < |us| {
      TextSplit(us[n + 1..]);
      assert s[p + 1] == s[p + 1..q][0] == us[n + 1].c;
    }
  }

  lemma UnitReads(s: string, p: nat, u: Unit, depth: nat)
    requires p < |s| && depth >= 1 && (u.Two? ==> u == Two('/', '*') || u == Two('*', '/'))
    requires (PairAt(s, p, '/', '*') <==> u == Two('/', '*')) && (PairAt(s, p, '*', '/') <==> u == Two('*', '/'))
    ensures p + |Written(u)| <= |s|
    ensures Lex(s, p, Block(depth)) == Lex(s, p + |Written(u)|, ModeOf(depth + Opens(u)))
  {
    hide Lex;
    BlockSteps(s, p, depth);
  }

  lemma CommentStep(s: string, p: nat, q: nat, us: seq<Unit>, n: nat)
    requires n < |us| && CommentUnits(us) && OccursIn(s, p, q, Text(us[n..])) && Open(us[..n]) >= 1 && (q < |s| ==> Open(us) == 0)
    ensures var p' := p + |Written(us[n])|;
            && OccursIn(s, p', q, Text(us[n + 1..]))
            && Lex(s, p, Block(Open(us[..n]))) == Lex(s, p', ModeOf(Open(us[..n + 1])))
  {
    hide Lex, Text, CommentUnits, Open, OccursIn, PairAt, Written, ModeOf;
    OccursBounds(s, p, q, Text(us[n..]));
    OpenStep(us, n);
    if n + 1 == |us| { assert us[..n + 1] == us; }
    UnitStands(s, p, q, us, n);
    UnitReads(s, p, us[n], Open(us[..n]));
  }

  lemma BlockReads(s: string, p: nat, q: nat, us: seq<Unit>)
    requires IsBlockComment(s, p, q, us)
    ensures p < q && Lex(s, p, Plain) == Lex(s, q, Plain)
  {
    hide Lex;
    OccursSplit(s, p, q, "/*", Text(us));
    assert s[p] == s[p..p + 2][0] && s[p + 1] == s[p..p + 2][1];
    Step(s, p, Plain);
    Step(s, p + 1, Slash);
    assert us[0..] == us && us[..0] == [];
    CommentReads(s, p + 2, q, us, 0);
  }

  /** The search finds the first place. */
  lemma FoundFirst(s: string, tag: string, from: nat, i: nat)
    requires from <= i && TagAt(s, tag, i) && NotWithin(s, tag, from, i)
    ensures IndexOf(s, tag, from) == Some(i)
  {
    assert OccursAt(s, tag, i);
    var found := IndexOf(s, tag, from);
    assert TagAt(s, tag, found.value);
  }

  lemma FoundNowhere(s: string, tag: string, from: nat)
    requires NotWithin(s, tag, from, |s|) && tag != ""
    ensures IndexOf(s, tag, from) == None
  {
    var found := IndexOf(s, tag, from);
    assert found.Some? ==> TagAt(s, tag, found.value);
  }

  lemma LineEnds(s: string, p: nat, q: nat)
    requires IsLineComment(s, p, q)
    ensures IndexOf(s, "\n", p + 2) == if s[q - 1] == '\n' && q > p + 2 then Some(q - 1) else None
    ensures (s[q - 1] == '\n' && q > p + 2) || q == |s|
  {
    var closed := s[q - 1] == '\n' && q > p + 2;
    forall i | p + 2 <= i < if closed then q - 1 else |s| ensures !TagAt(s, "\n", i) {
      assert i + 1 <= |s| ==> s[i..i + 1] == [s[i]];
    }
    if closed {
      assert s[q - 1..q] == [s[q - 1]];
      FoundFirst(s, "\n", p + 2, q - 1);
    } else {
      FoundNowhere(s, "\n", p + 2);
    }
  }

  lemma LineBounds(s: string, p: nat, q: nat)
    requires IsLineComment(s, p, q)
    ensures p + 2 <= q <= |s| && s[p] == '-' && s[p + 1] == '-'
  {
  }

  lemma LineReads(s: string, p: nat, q: nat)
    requires IsLineComment(s, p, q)
    ensures p < q && Lex(s, p, Plain) == Lex(s, q, Plain)
  {
    hide *;
    LineBounds(s, p, q);
    LineEnds(s, p, q);
    LineSkips(s, p);
  }

  /** Wherever a dollar quotation may open, its tag is found, and nothing else opens one. */
  lemma OpensExactly(s: string, p: nat, r: nat)
    requires p < |s| && s[p] == '$'
    ensures OpensAt(s, p, r) <==> DollarQuote(s, p).Some? && r == p + |DollarQuote(s, p).value|
    ensures OpensAt(s, p, r) ==> DollarQuote(s, p) == Some(s[p..r])
  {
    if OpensAt(s, p, r) && p + 2 < r {
      assert IsTagStart(s[p + 1]);
      assert TagRun(s, p + 2) == r - 1;
    }
  }

  lemma DollarEnds(s: string, p: nat, r: nat, q: nat)
    requires IsDollarQuoted(s, p, r, q)
    ensures var found := IndexOf(s, s[p..r], r); q == if found.None? then |s| else found.value + (r - p)
  {
    assert p + 1 < r <= |s|;
    hide OpensAt;
    var tag := s[p..r];
    if r + |tag| <= q && TagAt(s, tag, q - |tag|) && NotWithin(s, tag, r, q - |tag|) {
      FoundFirst(s, tag, r, q - |tag|);
    } else {
      FoundNowhere(s, tag, r);
    }
  }

  lemma DollarOpens(s: string, p: nat, r: nat, q: nat)
    requires IsDollarQuoted(s, p, r, q)
    ensures p + 1 < r <= q <= |s| && s[p] == '$' && DollarQuote(s, p) == Some(s[p..r])
  {
    assert p + 1 < r <= |s| && s[p] == '$';
    OpensExactly(s, p, r);
    hide *;
  }

  lemma DollarReads(s: string, p: nat, r: nat, q: nat)
    requires IsDollarQuoted(s, p, r, q)
    ensures p < q && Lex(s, p, Plain) == Lex(s, q, Plain)
  {
    hide *;
    DollarOpens(s, p, r, q);
    DollarEnds(s, p, r, q);
    DollarQuoteMode(s, p);
    BodySkips(s, s[p..r], r);
  }

  lemma PlainReads(s: string, p: nat)
    requires IsPlain(s, p)
    ensures Lex(s, p, Plain) == Lex(s, p + 1, Plain)
  {
    if s[p] == '$' {
      if p + 1 < |s| && DollarQuote(s, p).Some? { OpensExactly(s, p, p + |DollarQuote(s, p).value|); }
      PlainDollar(s, p);
    } else {
      hide Lex;
      Step(s, p, Plain);
      AsPlain(s, p + 1, FromPlain(s[p]));
    }
  }

  lemma SkippedReads(s: string, p: nat, q: nat)
    requires p < q <= |s| && IsSkipped(s, p, q)
    ensures Lex(s, p, Plain) == Lex(s, q, Plain)
  {
    hide Lex;
    if q == p + 1 && IsPlain(s, p) { PlainReads(s, p); }
    else if IsLineComment(s, p, q) { LineReads(s, p, q); }
    else if r :| IsDollarQuoted(s, p, r, q) { DollarReads(s, p, r, q); }
    else if us :| IsQuoted(s, p, q, '\'', us) { QuotedReads(s, p, q, '\'', us); }
    else if us :| IsQuoted(s, p, q, '"', us) { QuotedReads(s, p, q, '"', us); }
    else {
      var us :| IsBlockComment(s, p, q, us);
      BlockReads(s, p, q, us);
    }
  }

  lemma ParameterReads(s: string, p: nat, q: nat)
    requires IsParameter(s, p, q)
    ensures Lex(s, p, Plain) == [Placeholder(p, q, Value(s[p + 1..q]))] + Lex(s, q, Plain)
  {
    assert DigitRun(s, p + 1) == q;
    ParameterFound(s, p, q);
  }

  // ---------------------------------------------------------------- the parameters of a cut text

  /** Lexeme j is a parameter, and this is it. */
  ghost predicate IsParameterOf(s: string, cuts: seq<nat>, j: int, h: Placeholder) {
    && 0 <= j < |cuts| - 1 && IsParameter(s, cuts[j], cuts[j + 1])
    && h == Placeholder(cuts[j], cuts[j + 1], Value(s[cuts[j] + 1..cuts[j + 1]]))
  }

  lemma {:induction false} ReadsFrom(s: string, cuts: seq<nat>, i: nat)
    requires IsCut(s, cuts) && i < |cuts|
    ensures cuts[i] <= |s|
    ensures forall h :: h in Lex(s, cuts[i], Plain) <==> exists j :: i <= j && IsParameterOf(s, cuts, j, h)
    decreases |cuts| - i
  {
    if i == |cuts| - 1 {
      AtEnd(s, Plain);
    } else {
      ReadsFrom(s, cuts, i + 1);
      var p, q := cuts[i], cuts[i + 1];
      assert IsLexeme(s, p, q);
      hide Lex, Value, IsParameter, IsSkipped, IsCut, IsParameterOf;
      forall h ensures h in Lex(s, p, Plain) <==> exists j :: i <= j && IsParameterOf(s, cuts, j, h) {
        LexemeReads(s, cuts, i, h);
        assert (exists j :: i <= j && IsParameterOf(s, cuts, j, h))
          <==> IsParameterOf(s, cuts, i, h) || exists j :: i + 1 <= j && IsParameterOf(s, cuts, j, h);
      }
    }
  }

  lemma LexemeAt(s: string, cuts: seq<nat>, i: nat)
    requires IsCut(s, cuts) && i < |cuts| - 1
    ensures cuts[i] < cuts[i + 1] <= |s| && (IsParameter(s, cuts[i], cuts[i + 1]) || IsSkipped(s, cuts[i], cuts[i + 1]))
  {
    assert IsLexeme(s, cuts[i], cuts[i + 1]);
    hide IsParameter, IsSkipped;
  }

  lemma OneReads(s: string, p: nat, q: nat, h: Placeholder)
    requires IsParameter(s, p, q)
    ensures q <= |s|
    ensures h in Lex(s, p, Plain) <==> h == Placeholder(p, q, Value(s[p + 1..q])) || h in Lex(s, q, Plain)
  {
    ParameterReads(s, p, q);
    hide *;
  }

  lemma LexemeReads(s: string, cuts: seq<nat>, i: nat, h: Placeholder)
    requires IsCut(s, cuts) && i < |cuts| - 1
    ensures cuts[i] <= |s| && cuts[i + 1] <= |s|
    ensures h in Lex(s, cuts[i], Plain) <==> IsParameterOf(s, cuts, i, h) || h in Lex(s, cuts[i + 1], Plain)
  {
    hide Lex, Value, IsCut, IsLexeme, IsSkipped, IsParameter;
    LexemeAt(s, cuts, i);
    if IsParameter(s, cuts[i], cuts[i + 1]) {
      OneReads(s, cuts[i], cuts[i + 1], h);
    } else {
      SkippedReads(s, cuts[i], cuts[i + 1]);
    }
  }

  /** However a text is cut into lexemes, its genuine placeholders are the parameters among them. */
  lemma LexemesDecide(s: string, cuts: seq<nat>)
    requires IsCut(s, cuts)
    ensures forall h :: Genuine(s, h) <==> exists j :: IsParameterOf(s, cuts, j, h)
  {
    ReadsFrom(s, cuts, 0);
    LexExact(s);
    hide Genuine, Lex;
  }

  // ---------------------------------------------------------------- every text can be cut

  lemma {:induction false} TextAppend(us: seq<Unit>, u: Unit)
    ensures Text(us + [u]) == Text(us) + Written(u)
  {
    if us == [] {
      assert us + [u] == [u] && Text([u][1..]) == "";
    } else {
      assert (us + [u])[1..] == us[1..] + [u];
      TextAppend(us[1..], u);
    }
  }

  lemma OccursAppend(s: string, p: nat, q: nat, r: nat, a: string, b: string)
    requires OccursIn(s, p, q, a) && OccursIn(s, q, r, b)
    ensures OccursIn(s, p, r, a + b)
  {
    assert s[p..r] == s[p..q] + s[q..r];
  }

  lemma OccursUnit(s: string, p: nat, q: nat, before: string, us: seq<Unit>, u: Unit)
    requires OccursIn(s, p, q, before + Text(us)) && OccursIn(s, q, q + |Written(u)|, Written(u))
    ensures OccursIn(s, p, q + |Written(u)|, before + Text(us + [u]))
  {
    OccursAppend(s, p, q, q + |Written(u)|, before + Text(us), Written(u));
    TextAppend(us, u);
    assert before + Text(us) + Written(u) == before + (Text(us) + Written(u));
  }

  /** The next unit of a quotation, if it does not end here. */
  function QuoteUnitAt(s: string, at: nat, quote: char): Unit
    requires at < |s|
  {
    if at + 1 < |s| && (s[at] == quote || (quote == '\'' && s[at] == '\\')) then Two(s[at], s[at + 1]) else One(s[at])
  }

  lemma QuoteUnitOccurs(s: string, at: nat, quote: char)
    requires at < |s|
    ensures var u := QuoteUnitAt(s, at, quote); 1 <= |Written(u)| <= |s| - at && OccursIn(s, at, at + |Written(u)|, Written(u))
  {
    assert s[at..at + 1] == [s[at]] && (at + 1 < |s| ==> s[at..at + 2] == [s[at], s[at + 1]]);
  }

  lemma QuoteUnitsAppend(us: seq<Unit>, u: Unit, quote: char)
    requires QuoteUnits(us, quote) && QuoteUnit(u, quote)
    ensures QuoteUnits(us + [u], quote)
  {
  }

  lemma QuoteEnds(s: string, p: nat, at: nat, quote: char, us: seq<Unit>)
    requires (quote == '\'' || quote == '"') && at <= |s| && QuoteUnits(us, quote) && OccursIn(s, p, at, [quote] + Text(us))
    requires at < |s| ==> !QuoteUnit(QuoteUnitAt(s, at, quote), quote)
    ensures IsQuoted(s, p, if at < |s| then at + 1 else at, quote, us)
  {
    if at < |s| {
      assert s[at..at + 1] == [s[at]];
      OccursAppend(s, p, at, at + 1, [quote] + Text(us), [s[at]]);
      hide Text, QuoteUnits;
    }
  }

  lemma {:induction false} FindQuoted(
      s: string, p: nat, at: nat, quote: char, us: seq<Unit>) returns (q: nat, all: seq<Unit>)
    requires (quote == '\'' || quote == '"') && p < at <= |s| && QuoteUnits(us, quote) && OccursIn(s, p, at, [quote] + Text(us))
    ensures p < q <= |s| && IsQuoted(s, p, q, quote, all)
    decreases |s| - at
  {
    hide *;
    if at < |s| && QuoteUnit(QuoteUnitAt(s, at, quote), quote) {
      var u := QuoteUnitAt(s, at, quote);
      QuoteUnitOccurs(s, at, quote);
      OccursUnit(s, p, at, [quote], us, u);
      QuoteUnitsAppend(us, u, quote);
      q, all := FindQuoted(s, p, at + |Written(u)|, quote, us + [u]);
    } else {
      QuoteEnds(s, p, at, quote, us);
      return if at < |s| then at + 1 else at, us;
    }
  }

  /** The next unit of a comment. */
  function UnitAt(s: string, at: nat): Unit
    requires at < |s|
  {
    if PairAt(s, at, '/', '*') || PairAt(s, at, '*', '/') then Two(s[at], s[at + 1]) else One(s[at])
  }

  lemma UnitOccurs(s: string, at: nat)
    requires at < |s|
    ensures var u := UnitAt(s, at); 1 <= |Written(u)| <= |s| - at && OccursIn(s, at, at + |Written(u)|, Written(u))
  {
    assert s[at..at + 1] == [s[at]] && (at + 1 < |s| ==> s[at..at + 2] == [s[at], s[at + 1]]);
  }

  /** A unit can follow the others, as far as the character after them goes. */
  predicate CanFollow(us: seq<Unit>, s: string, at: nat) {
    us != [] && us[|us| - 1].One? && at < |s| ==> !(us[|us| - 1].c == '/' && s[at] == '*') && !(us[|us| - 1].c == '*' && s[at] == '/')
  }

  ghost predicate StillOpen(us: seq<Unit>) { forall n :: 0 <= n <= |us| ==> Open(us[..n]) >= 1 }

  lemma Unclosed(s: string, p: nat, us: seq<Unit>)
    requires CommentUnits(us) && OccursIn(s, p, |s|, "/*" + Text(us)) && StillOpen(us)
    ensures IsBlockComment(s, p, |s|, us)
  {
  }

  /** The last unit closes the outermost comment. */
  lemma Closed(s: string, p: nat, q: nat, us: seq<Unit>, u: Unit)
    requires CommentUnits(us + [u]) && OccursIn(s, p, q, "/*" + Text(us + [u])) && StillOpen(us) && Open(us + [u]) == 0
    ensures IsBlockComment(s, p, q, us + [u])
  {
    forall n | 0 <= n < |us + [u]| ensures Open((us + [u])[..n]) >= 1 { assert (us + [u])[..n] == us[..n]; }
  }

  lemma {:induction false} FindComment(s: string, p: nat, at: nat, us: seq<Unit>) returns (q: nat, all: seq<Unit>)
    requires p < at <= |s| && CommentUnits(us) && OccursIn(s, p, at, "/*" + Text(us)) && CanFollow(us, s, at)
    requires StillOpen(us)
    ensures p < q <= |s| && IsBlockComment(s, p, q, all)
    decreases |s| - at
  {
    hide *;
    if at == |s| {
      Unclosed(s, p, us);
      return at, us;
    }
    var u := UnitAt(s, at);
    UnitOccurs(s, at);
    OccursUnit(s, p, at, "/*", us, u);
    UnitFollows(us, s, at, u);
    StaysOpen(us, u);
    if Open(us + [u]) >= 1 {
      q, all := FindComment(s, p, at + |Written(u)|, us + [u]);
    } else {
      Closed(s, p, at + |Written(u)|, us, u);
      return at + |Written(u)|, us + [u];
    }
  }

  lemma StaysOpen(us: seq<Unit>, u: Unit)
    requires StillOpen(us)
    ensures Open(us + [u]) >= 0 && (Open(us + [u]) >= 1 ==> StillOpen(us + [u]))
  {
    var more := us + [u];
    forall n | 0 <= n <= |us| ensures Open(more[..n]) >= 1 { assert more[..n] == us[..n]; }
    OpenStep(more, |us|);
    assert more[..|more|] == more && us[..|us|] == us;
  }

  lemma UnitFollows(us: seq<Unit>, s: string, at: nat, u: Unit)
    requires CommentUnits(us) && CanFollow(us, s, at) && at < |s|
    requires u == UnitAt(s, at)
    ensures CommentUnits(us + [u])
    ensures CanFollow(us + [u], s, at + |Written(u)|)
  {
    var more := us + [u];
    forall i | 0 <= i < |more| ensures CommentUnit(more, i) {
      if i < |us| { assert CommentUnit(us, i); }
    }
  }

  lemma FindLine(s: string, p: nat) returns (q: nat)
    requires PairAt(s, p, '-', '-')
    ensures p < q <= |s| && IsLineComment(s, p, q)
  {
    var newline := IndexOf(s, "\n", p + 2);
    forall i | p + 2 <= i < if newline.Some? then newline.value else |s| ensures s[i] != '\n' {
      assert s[i..i + 1] == [s[i]];
      assert OccursAt(s, "\n", i) <==> s[i] == '\n';
    }
    if newline.Some? {
      assert OccursAt(s, "\n", newline.value);
      assert s[newline.value] == s[newline.value..newline.value + 1][0] == '\n';
      return newline.value + 1;
    }
    return |s|;
  }

  lemma FindDollarQuoted(s: string, p: nat) returns (r: nat, q: nat)
    requires p < |s| && s[p] == '$' && DollarQuote(s, p).Some?
    ensures p < q <= |s| && IsDollarQuoted(s, p, r, q)
  {
    var tag := DollarQuote(s, p).value;
    r := p + |tag|;
    OpensExactly(s, p, r);
    var found := IndexOf(s, tag, r);
    forall i | r <= i < if found.Some? then found.value else |s| ensures !TagAt(s, tag, i) {
      assert TagAt(s, tag, i) <==> OccursAt(s, tag, i);
    }
    q := if found.Some? then found.value + |tag| else |s|;
    hide IndexOf, DollarQuote, OpensAt;
  }

  lemma NextLexeme(s: string, p: nat) returns (q: nat)
    requires p < |s|
    ensures IsLexeme(s, p, q)
  {
    hide IsQuoted, IsBlockComment, IsLineComment, IsDollarQuoted;
    if s[p] == '\'' || s[p] == '"' {
      assert OccursIn(s, p, p + 1, [s[p]] + Text([])) by { assert [s[p]] + "" == [s[p]] == s[p..p + 1]; }
      var us;
      q, us := FindQuoted(s, p, p + 1, s[p], []);
    } else if PairAt(s, p, '-', '-') {
      q := FindLine(s, p);
    } else if PairAt(s, p, '/', '*') {
      assert OccursIn(s, p, p + 2, "/*" + Text([])) by { assert "/*" + "" == "/*" == s[p..p + 2]; }
      var us;
      q, us := FindComment(s, p, p + 2, []);
    } else if s[p] == '$' && p + 1 < |s| && '0' <= s[p + 1] <= '9' {
      q := DigitRun(s, p + 1);
    } else if s[p] == '$' && DollarQuote(s, p).Some? {
      var r;
      r, q := FindDollarQuoted(s, p);
    } else {
      q := p + 1;
      if s[p] == '$' { forall r ensures !OpensAt(s, p, r) { if r >= 0 { OpensExactly(s, p, r); } } }
      hide OpensAt;
      assert IsPlain(s, p);
    }
  }

  lemma {:induction false} CutFrom(s: string, p: nat) returns (cuts: seq<nat>)
    requires p <= |s|
    ensures cuts != [] && cuts[0] == p && cuts[|cuts| - 1] == |s|
    ensures forall i :: 0 <= i < |cuts| - 1 ==> IsLexeme(s, cuts[i], cuts[i + 1])
    decreases |s| - p
  {
    if p == |s| {
      return [p];
    }
    hide IsSkipped, IsParameter;
    var q := NextLexeme(s, p);
    var rest := CutFrom(s, q);
    cuts := [p] + rest;
    forall i | 0 <= i < |cuts| - 1 ensures IsLexeme(s, cuts[i], cuts[i + 1]) {
      if i > 0 { assert IsLexeme(s, rest[i - 1], rest[i]); }
    }
  }

  /** Every text is a row of lexemes. */
  lemma EveryTextIsCut(s: string) returns (cuts: seq<nat>)
    ensures IsCut(s, cuts)
  {
    cuts := CutFrom(s, 0);
  }

  // ---------------------------------------------------------------- numbers

  function TenTo(n: nat): nat { if n == 0 then 1 else 10 * TenTo(n - 1) }

  /** The number of a digit run is decimal: every digit counts ten times what the one after it does. */
  lemma {:induction false} ValueIsDecimal(s: string, t: string, c: char)
    requires '0' <= c <= '9'
    ensures Value([c]) == (c - '0') as nat
    ensures Value(s + t) == Value(s) * TenTo(|t|) + Value(t)
    decreases |t|
  {
    if t == [] {
      assert s + t == s;
    } else {
      var front, d := t[..|t| - 1], t[|t| - 1];
      ValueStep(front, d);
      ValueStep(s + front, d);
      assert front + [d] == t && s + front + [d] == s + t;
      ValueIsDecimal(s, front, c);
      hide Value;
      Distributes(Value(s), TenTo(|front|), Value(front));
    }
  }

  lemma ValueStep(front: string, d: char)
    ensures Value(front + [d]) == 10 * Value(front) + Value([d])
  {
    assert (front + [d])[..|front|] == front && [d][..0] == [];
  }

  lemma Distributes(a: nat, b: nat, c: nat)
    ensures 10 * (a * b + c) == a * (10 * b) + 10 * c
  {
  }

  // ---------------------------------------------------------------- dollar quotations

  lemma {:induction false} ChainedAfter(hs: seq<Placeholder>, from: nat, limit: nat, i: nat)
    requires Chained(hs, from, limit) && i < |hs|
    ensures from <= hs[i].start
  {
    if i > 0 { ChainedAfter(hs[1..], hs[0].end, limit, i - 1); }
  }

  /** At a `$` read in plain text a quotation opens exactly where its tag stands. */
  lemma DollarOpensExactly(s: string, p: nat)
    requires p < |s| && ModeAt(s, p + 1) == Dollar
    ensures s[p] == '$'
    ensures (exists q :: p < q <= |s| && ModeAt(s, q) == Body(s[p..q], [])) <==> exists r :: OpensAt(s, p, r)
  {
    DollarBefore(s, p + 1);
    hide ModeAt, OpensAt, Next, DollarQuote;
    if r :| OpensAt(s, p, r) {
      TagMode(s, p, r);
    }
    if q :| p < q <= |s| && ModeAt(s, q) == Body(s[p..q], []) {
      BodyNeedsTag(s, p, q);
    }
  }

  lemma {:induction false} TagMode(s: string, p: nat, r: nat)
    requires p < |s| && ModeAt(s, p + 1) == Dollar && OpensAt(s, p, r)
    ensures p < r <= |s| && ModeAt(s, r) == Body(s[p..r], [])
  {
    if r == p + 2 {
      assert s[p..r] == "$$";
    } else {
      NameMode(s, p, r - 1);
      assert s[p..r] == s[p..r - 1] + "$";
    }
  }

  lemma {:induction false} NameMode(s: string, p: nat, q: nat)
    requires p + 1 < q <= |s| && s[p] == '$' && ModeAt(s, p + 1) == Dollar
    requires forall i :: p < i < q ==> 'A' <= s[i] <= 'Z' || 'a' <= s[i] <= 'z' || s[i] == '_' || ('0' <= s[i] <= '9' && p + 1 < i)
    ensures ModeAt(s, q) == Tag(s[p..q])
    decreases q
  {
    if q == p + 2 {
      assert s[p..q] == "$" + [s[p + 1]];
    } else {
      NameMode(s, p, q - 1);
      assert s[p..q] == s[p..q - 1] + [s[q - 1]];
    }
  }

  predicate IsNameChar(c: char, first: bool) { 'A' <= c <= 'Z' || 'a' <= c <= 'z' || c == '_' || ('0' <= c <= '9' && !first) }

  lemma TagGrows(s: string, q: nat, name: string)
    requires q <= |s| && ModeAt(s, q) == Tag(name)
    ensures q >= 1
    ensures || (ModeAt(s, q - 1) == Dollar && name == "$" + [s[q - 1]] && IsNameChar(s[q - 1], true))
            || (name != "" && ModeAt(s, q - 1) == Tag(name[..|name| - 1]) && name[|name| - 1] == s[q - 1] && IsNameChar(s[q - 1], false))
  {
  }

  lemma {:induction false} TagIsName(s: string, q: nat, name: string)
    requires q <= |s| && ModeAt(s, q) == Tag(name)
    ensures 2 <= |name| <= q && s[q - |name|..q] == name && name[0] == '$'
    ensures forall i :: 0 < i < |name| ==> IsNameChar(name[i], i == 1)
    decreases q
  {
    hide ModeAt;
    TagGrows(s, q, name);
    if ModeAt(s, q - 1) == Dollar {
      DollarBefore(s, q - 1);
      assert s[q - 2..q] == "$" + [s[q - 1]];
    } else {
      var front := name[..|name| - 1];
      TagIsName(s, q - 1, front);
      var p := q - |name|;
      assert name == front + [s[q - 1]];
      assert s[p..q] == s[p..q - 1] + [s[q - 1]];
    }
  }

  lemma BodyNeedsTag(s: string, p: nat, q: nat)
    requires p < q <= |s| && ModeAt(s, q) == Body(s[p..q], [])
    ensures OpensAt(s, p, q)
  {
    var before := ModeAt(s, q - 1);
    if before.Dollar? {
      assert s[p..q] == "$$";
      assert s[p] == s[p..q][0] && s[q - 1] == s[p..q][q - p - 1];
    } else {
      assert before.Tag? && s[p..q] == before.name + "$";
      assert |before.name| == q - 1 - p;
      TagIsName(s, q - 1, before.name);
      hide ModeAt;
      assert s[p] == before.name[0];
      forall i | p < i < q - 1 ensures s[i] == before.name[i - p] { assert s[i] == s[p..q - 1][i - p]; }
    }
  }

  lemma StartsAfter(s: string, q: nat, h: Placeholder)
    requires q <= |s| && h in Lex(s, q, Plain)
    ensures q <= h.start
  {
    hide Lex, Chained;
    LexChained(s, q, Plain);
    var i :| 0 <= i < |Lex(s, q, Plain)| && Lex(s, q, Plain)[i] == h;
    ChainedAfter(Lex(s, q, Plain), q, |s|, i);
  }

  lemma DollarStep(s: string, p: nat)
    requires p < |s| && s[p] == '$'
    ensures Lex(s, p, Plain) == Lex(s, p + 1, Dollar)
  {
    hide Lex;
    Step(s, p, Plain);
  }

  /** And from there through the closing tag, or to the end without one, nothing is a placeholder. */
  lemma DollarBodyHoldsNone(s: string, p: nat, r: nat, q: nat, h: Placeholder)
    requires p < |s| && ModeAt(s, p + 1) == Dollar && IsDollarQuoted(s, p, r, q) && Genuine(s, h)
    ensures h.end <= p || q <= h.start
  {
    hide *;
    if h.end > p {
      DollarReads(s, p, r, q);
      DollarBefore(s, p + 1);
      DollarStep(s, p);
      LexCompleteFrom(s, p + 1, h);
      DollarOpens(s, p, r, q);
      StartsAfter(s, q, h);
    }
  }
}
