/**
  The reference reading of a SQL text: an automaton that looks at one character at
  a time and never looks ahead.  It decides which `$digits` runs stand outside
  literals, quoted identifiers, comments and dollar-quoted bodies.
  The scanner in sql_compiler.dfy, which jumps over whole regions, is proved against it.
*/
module SqlLexer {

  /** What has been read so far, as far as it matters for the next character. */
  datatype Mode =
    | Plain
    | Single              // inside '...'
    | SingleEscape        // after a backslash inside '...'
    | SingleClose         // after a quote inside '...': doubled or closing
    | Double              // inside "..."
    | DoubleClose
    | Dash                // after one '-' in plain text
    | LineComment
    | Slash               // after one '/' in plain text
    | Block(depth: nat)
    | BlockSlash(depth: nat)
    | BlockStar(depth: nat)
    | Dollar              // after '$' in plain text
    | Tag(name: string)   // after '$name', not yet closed by '$'
    | Number(digits: string)
    | Body(tag: string, seen: string)

  datatype Placeholder = Placeholder(start: nat, end: nat, index: nat)

  predicate IsDigit(c: char) { '0' <= c <= '9' }

  predicate IsTagStart(c: char) { 'A' <= c <= 'Z' || 'a' <= c <= 'z' || c == '_' }

  predicate IsTagPart(c: char) { IsTagStart(c) || IsDigit(c) }

  predicate AllDigits(s: string) { forall i :: 0 <= i < |s| ==> IsDigit(s[i]) }

  /** The number a run of decimal digits denotes, leading zeros allowed. */
  function Value(s: string): nat {
    if s == [] then 0
    else 10 * Value(s[..|s| - 1]) + (if IsDigit(s[|s| - 1]) then (s[|s| - 1] - '0') as nat else 0)
  }

  predicate EndsWith(s: string, suffix: string) {
    |suffix| <= |s| && s[|s| - |suffix|..] == suffix
  }

  function FromPlain(c: char): Mode {
    if c == '\'' then Single
    else if c == '"' then Double
    else if c == '-' then Dash
    else if c == '/' then Slash
    else if c == '$' then Dollar
    else Plain
  }

  function FromBlock(depth: nat, c: char): Mode {
    if c == '/' then BlockSlash(depth) else if c == '*' then BlockStar(depth) else Block(depth)
  }

  function Next(m: Mode, c: char): Mode {
    match m
    case Plain => FromPlain(c)
    case Single => if c == '\\' then SingleEscape else if c == '\'' then SingleClose else Single
    case SingleEscape => Single
    case SingleClose => if c == '\'' then Single else FromPlain(c)
    case Double => if c == '"' then DoubleClose else Double
    case DoubleClose => if c == '"' then Double else FromPlain(c)
    case Dash => if c == '-' then LineComment else FromPlain(c)
    case LineComment => if c == '\n' then Plain else LineComment
    case Slash => if c == '*' then Block(1) else FromPlain(c)
    case Block(d) => FromBlock(d, c)
    case BlockSlash(d) => if c == '*' then Block(d + 1) else FromBlock(d, c)
    case BlockStar(d) => if c == '/' then (if d <= 1 then Plain else Block(d - 1)) else FromBlock(d, c)
    case Dollar =>
      if c == '$' then Body("$$", [])
      else if IsTagStart(c) then Tag("$" + [c])
      else if IsDigit(c) then Number([c])
      else FromPlain(c)
    case Tag(name) =>
      if c == '$' then Body(name + "$", [])
      else if IsTagPart(c) then Tag(name + [c])
      else FromPlain(c)
    case Number(digits) => if IsDigit(c) then Number(digits + [c]) else FromPlain(c)
    case Body(tag, seen) => if EndsWith(seen + [c], tag) then Plain else Body(tag, seen + [c])
  }

  /** The placeholder that is complete when the automaton, at position p, leaves mode m. */
  function Completed(p: nat, m: Mode): seq<Placeholder> {
    if m.Number? && |m.digits| < p then [Placeholder(p - |m.digits| - 1, p, Value(m.digits))] else []
  }

  /** What position p adds to the list: a digit run counts once it cannot be continued. */
  function Emitted(s: string, p: nat, m: Mode): seq<Placeholder>
    requires p <= |s|
  {
    if p < |s| && m.Number? && IsDigit(s[p]) then [] else Completed(p, m)
  }

  /** All placeholders the automaton completes from position p on, started in mode m. */
  function Lex(s: string, p: nat, m: Mode): seq<Placeholder>
    requires p <= |s|
    decreases |s| - p
  {
    Emitted(s, p, m) + if p == |s| then [] else Lex(s, p + 1, Next(m, s[p]))
  }

  lemma LexEnd(s: string, m: Mode)
    ensures Lex(s, |s|, m) == Emitted(s, |s|, m)
  {
  }

  lemma LexStep(s: string, p: nat, m: Mode)
    requires p < |s|
    ensures Lex(s, p, m) == Emitted(s, p, m) + Lex(s, p + 1, Next(m, s[p]))
  {
  }

  /** The mode after reading the first p characters. */
  function ModeAt(s: string, p: nat): Mode
    requires p <= |s|
  {
    if p == 0 then Plain else Next(ModeAt(s, p - 1), s[p - 1])
  }

  /** A placeholder is a maximal run of digits after a `$` read in plain text, with its number. */
  ghost predicate Genuine(s: string, h: Placeholder) {
    && h.start + 1 < h.end <= |s|
    && s[h.start] == '$'
    && ModeAt(s, h.start + 1) == Dollar
    && AllDigits(s[h.start + 1..h.end])
    && (h.end < |s| ==> !IsDigit(s[h.end]))
    && h.index == Value(s[h.start + 1..h.end])
  }

  ghost predicate InOrder(hs: seq<Placeholder>, from: nat) {
    && (forall i :: 0 <= i < |hs| ==> from <= hs[i].start)
    && (forall i, j :: 0 <= i < j < |hs| ==> hs[i].end <= hs[j].start)
  }

  /** Mode m at p is inside a digit run exactly when the text before p is that run. */
  ghost predicate Anchored(s: string, p: nat, m: Mode)
    requires p <= |s|
  {
    && m == ModeAt(s, p)
    && (m.Number? ==>
          && 1 <= |m.digits| < p
          && m.digits == s[p - |m.digits|..p]
          && AllDigits(m.digits)
          && s[p - |m.digits| - 1] == '$'
          && ModeAt(s, p - |m.digits|) == Dollar)
  }

  lemma AnchorStep(s: string, p: nat, m: Mode)
    requires p < |s| && Anchored(s, p, m)
    ensures Anchored(s, p + 1, Next(m, s[p]))
  {
    var n := Next(m, s[p]);
    assert n == ModeAt(s, p + 1);
    if n.Number? {
      hide ModeAt;
      if m.Number? {
        assert s[p + 1 - |n.digits|..p + 1] == m.digits + [s[p]];
      } else {
        assert m.Dollar? && n.digits == [s[p]];
        DollarBefore(s, p);
        assert s[p..p + 1] == [s[p]];
      }
    }
  }

  lemma DollarBefore(s: string, p: nat)
    requires p <= |s| && ModeAt(s, p) == Dollar
    ensures p >= 1 && s[p - 1] == '$'
  {
  }

  /** Where the placeholder being read at p, if any, began. */
  function RunStart(p: nat, m: Mode): nat {
    if m.Number? && |m.digits| < p then p - |m.digits| - 1
    else if m.Dollar? && 0 < p then p - 1
    else p
  }

  lemma RunStartStep(s: string, p: nat, m: Mode)
    requires p < |s| && Anchored(s, p, m)
    ensures RunStart(p + 1, Next(m, s[p])) >= if Emitted(s, p, m) == [] then RunStart(p, m) else p
  {
    hide ModeAt;
  }

  lemma EmittedShape(s: string, p: nat, m: Mode)
    requires p <= |s|
    ensures Emitted(s, p, m) != [] ==> m.Number? && |m.digits| < p && (p < |s| ==> !IsDigit(s[p]))
    ensures Emitted(s, p, m) != [] ==> Emitted(s, p, m) == [Placeholder(RunStart(p, m), p, Value(m.digits))]
    ensures RunStart(p, m) <= p
  {
  }

  lemma EmittedGenuine(s: string, p: nat, m: Mode)
    requires p <= |s| && Anchored(s, p, m)
    ensures forall h :: h in Emitted(s, p, m) ==> Genuine(s, h)
    ensures InOrder(Emitted(s, p, m), RunStart(p, m))
    ensures |Emitted(s, p, m)| <= 1 && forall h :: h in Emitted(s, p, m) ==> h.end == p
    ensures RunStart(p, m) <= p
  {
    EmittedShape(s, p, m);
    hide Next, Value, ModeAt, Emitted, Completed;
    if Emitted(s, p, m) != [] {
      var h := Placeholder(p - |m.digits| - 1, p, Value(m.digits));
      assert s[h.start + 1..h.end] == m.digits;
    }
  }

  /** Soundness: every placeholder is genuine, and they are in order and disjoint. */
  lemma {:induction false} LexGenuineFrom(s: string, p: nat, m: Mode)
    requires p <= |s| && Anchored(s, p, m)
    ensures forall h :: h in Lex(s, p, m) ==> Genuine(s, h)
    ensures InOrder(Lex(s, p, m), RunStart(p, m))
    decreases |s| - p
  {
    hide *;
    EmittedGenuine(s, p, m);
    if p == |s| {
      LexEnd(s, m);
    } else {
      AnchorStep(s, p, m);
      LexStep(s, p, m);
      RunStartStep(s, p, m);
      LexGenuineFrom(s, p + 1, Next(m, s[p]));
      OrderedAppend(Emitted(s, p, m), Lex(s, p + 1, Next(m, s[p])), RunStart(p, m), RunStart(p + 1, Next(m, s[p])));
    }
  }

  lemma OrderedAppend(
      first: seq<Placeholder>, rest: seq<Placeholder>, from: nat, next: nat)
    requires |first| <= 1 && InOrder(first, from) && InOrder(rest, next)
    requires from <= next && (first != [] ==> first[0].end <= next)
    ensures InOrder(first + rest, from)
  {
  }

  /** Completeness: a genuine run that ends at or after p is reported. */
  lemma {:induction false} LexCompleteFrom(s: string, p: nat, h: Placeholder)
    requires p <= |s| && Genuine(s, h) && p <= h.end
    ensures h in Lex(s, p, ModeAt(s, p))
    decreases |s| - p
  {
    if p == h.end {
      RunMode(s, h, p);
      CompletedRun(s, h);
    } else {
      LexCompleteFrom(s, p + 1, h);
      assert ModeAt(s, p + 1) == Next(ModeAt(s, p), s[p]);
    }
  }

  lemma CompletedRun(s: string, h: Placeholder)
    requires Genuine(s, h)
    ensures Completed(h.end, Number(s[h.start + 1..h.end])) == [h]
  {
  }

  lemma {:induction false} RunMode(s: string, h: Placeholder, p: nat)
    requires Genuine(s, h) && h.start + 1 < p <= h.end
    ensures ModeAt(s, p) == Number(s[h.start + 1..p])
    decreases p
  {
    assert IsDigit(s[p - 1]) by { assert s[p - 1] == s[h.start + 1..h.end][p - 1 - h.start - 1]; }
    if p == h.start + 2 {
      assert s[h.start + 1..p] == [s[p - 1]];
    } else {
      RunMode(s, h, p - 1);
      assert s[h.start + 1..p] == s[h.start + 1..p - 1] + [s[p - 1]];
    }
  }

  /** The automaton reports exactly the genuine placeholders, in order and disjoint. */
  lemma LexExact(s: string)
    ensures forall h :: h in Lex(s, 0, Plain) <==> Genuine(s, h)
    ensures InOrder(Lex(s, 0, Plain), 0)
  {
    LexGenuineFrom(s, 0, Plain);
    forall h | Genuine(s, h) ensures h in Lex(s, 0, Plain) {
      LexCompleteFrom(s, 0, h);
    }
  }
}
