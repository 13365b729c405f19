/**
  compileParameterizedSql of packages/database/src/prisma-runtime.ts: it cuts a SQL
  text at its placeholders and pairs the pieces with the bound values.
*/
module SqlCompiler {
  import opened SqlLexer
  import opened SqlScanner

  /** Pieces of SQL text with one parameter between each two neighbours. */
  datatype Template<V> = Template(strings: seq<string>, parameters: seq<V>)

  /** Placeholders that follow each other without overlap between from and limit. */
  predicate Chained(hs: seq<Placeholder>, from: nat, limit: nat) {
    if hs == [] then from <= limit
    else from <= hs[0].start < hs[0].end <= limit && Chained(hs[1..], hs[0].end, limit)
  }

  function MaxIndex(hs: seq<Placeholder>): (m: nat)
    ensures forall i :: 0 <= i < |hs| ==> hs[i].index <= m
    ensures m == 0 || exists i :: 0 <= i < |hs| && hs[i].index == m
  {
    if hs == [] then 0
    else
      var before := MaxIndex(hs[..|hs| - 1]);
      if before < hs[|hs| - 1].index then hs[|hs| - 1].index else before
  }

  predicate InRange(h: Placeholder, count: nat) { 1 <= h.index <= count }

  /** When a text accepts exactly `count` bindings. */
  predicate Compilable(sql: string, count: nat) {
    var hs := Lex(sql, 0, Plain);
    (forall i :: 0 <= i < |hs| ==> Safe(hs[i]) && InRange(hs[i], count)) && MaxIndex(hs) == count
  }

  function Interleave(strings: seq<string>, fills: seq<string>): string
    requires |strings| == |fills| + 1
  {
    if fills == [] then strings[0] else strings[0] + fills[0] + Interleave(strings[1..], fills[1..])
  }

  function Rendered<V>(values: seq<V>, render: V -> string): (r: seq<string>)
    ensures |r| == |values| && forall i :: 0 <= i < |r| ==> r[i] == render(values[i])
  {
    seq(|values|, i requires 0 <= i < |values| => render(values[i]))
  }

  /** The text between the placeholders, from position `from` on. */
  function Pieces(sql: string, from: nat, hs: seq<Placeholder>): (r: seq<string>)
    requires Chained(hs, from, |sql|)
    ensures |r| == |hs| + 1
    decreases |hs|
  {
    if hs == [] then [sql[from..]]
    else [sql[from..hs[0].start]] + Pieces(sql, hs[0].end, hs[1..])
  }

  function Texts(sql: string, hs: seq<Placeholder>): (r: seq<string>)
    requires forall i :: 0 <= i < |hs| ==> hs[i].start <= hs[i].end <= |sql|
    ensures |r| == |hs|
  {
    seq(|hs|, i requires 0 <= i < |hs| => sql[hs[i].start..hs[i].end])
  }

  function Arguments<V>(values: seq<V>, hs: seq<Placeholder>): (r: seq<V>)
    requires forall i :: 0 <= i < |hs| ==> InRange(hs[i], |values|)
    ensures |r| == |hs|
  {
    seq(|hs|, i requires 0 <= i < |hs| => assert InRange(hs[i], |values|); values[hs[i].index - 1])
  }

  /** The text copied character by character, each placeholder replaced by what `bound` has for its number. */
  function Substituted(sql: string, p: nat, hs: seq<Placeholder>, bound: nat -> string): string
    requires Chained(hs, p, |sql|)
    decreases |sql| - p
  {
    if hs != [] && p == hs[0].start then bound(hs[0].index) + Substituted(sql, hs[0].end, hs[1..], bound)
    else if p == |sql| then ""
    else Advances(hs, p, |sql|); [sql[p]] + Substituted(sql, p + 1, hs, bound)
  }

  lemma Advances(hs: seq<Placeholder>, from: nat, limit: nat)
    requires Chained(hs, from, limit) && from < limit && (hs != [] ==> hs[0].start != from)
    ensures Chained(hs, from + 1, limit)
  {
  }

  /** No digit run or half-read parameter is pending at p. */
  predicate Settled(s: string, p: nat, m: Mode) {
    !m.Number? && (m.Dollar? && p < |s| ==> !IsDigit(s[p]))
  }

  predicate ParameterAt(s: string, p: nat, m: Mode) {
    p + 1 < |s| && Next(m, s[p]) == Dollar && IsDigit(s[p + 1])
  }

  lemma ParameterStep(s: string, p: nat, m: Mode)
    requires !m.Number? && ParameterAt(s, p, m)
    ensures var q := DigitRun(s, p + 1);
            p + 1 < q && s[p] == '$'
            && Lex(s, p, m) == [Placeholder(p, q, Value(s[p + 1..q]))] + Lex(s, q, Plain)
  {
    hide Lex, Value;
    assert s[p] == '$';
    Step(s, p, m);
    Step(s, p, Plain);
    ParameterFound(s, p, DigitRun(s, p + 1));
  }

  lemma {:induction false} LexChained(s: string, p: nat, m: Mode)
    requires p <= |s| && Settled(s, p, m)
    ensures Chained(Lex(s, p, m), p, |s|)
    decreases |s| - p
  {
    hide Lex, Next, Value, DigitRun;
    if p == |s| {
      AtEnd(s, m);
    } else if ParameterAt(s, p, m) {
      ParameterStep(s, p, m);
      LexChained(s, DigitRun(s, p + 1), Plain);
    } else {
      SettledStep(s, p, m);
      Step(s, p, m);
      LexChained(s, p + 1, Next(m, s[p]));
      Loosen(Lex(s, p + 1, Next(m, s[p])), p + 1, p, |s|);
    }
  }

  lemma SettledStep(s: string, p: nat, m: Mode)
    requires p < |s| && Settled(s, p, m) && !ParameterAt(s, p, m)
    ensures Settled(s, p + 1, Next(m, s[p]))
  {
  }

  lemma Loosen(hs: seq<Placeholder>, from: nat, less: nat, limit: nat)
    requires Chained(hs, from, limit) && less <= from
    ensures Chained(hs, less, limit)
  {
  }

  lemma {:induction false} ChainedBounds(hs: seq<Placeholder>, from: nat, limit: nat)
    requires Chained(hs, from, limit)
    ensures forall i :: 0 <= i < |hs| ==> hs[i].start <= hs[i].end <= limit
  {
    if hs != [] {
      ChainedBounds(hs[1..], hs[0].end, limit);
      assert forall i :: 1 <= i < |hs| ==> hs[i] == hs[1..][i - 1];
    }
  }

  /** Putting the original placeholder texts back rebuilds the SQL exactly. */
  lemma {:induction false} PiecesRebuild(sql: string, from: nat, hs: seq<Placeholder>)
    requires Chained(hs, from, |sql|)
    ensures forall i :: 0 <= i < |hs| ==> hs[i].start <= hs[i].end <= |sql|
    ensures Interleave(Pieces(sql, from, hs), Texts(sql, hs)) == sql[from..]
    decreases |hs|
  {
    ChainedBounds(hs, from, |sql|);
    hide *;
    if hs == [] {
      LastPiece(sql, from);
      Untouched(sql[from..], Texts(sql, hs));
    } else {
      PiecesStep(sql, from, hs);
      PiecesRebuild(sql, hs[0].end, hs[1..]);
      TextsStep(sql, hs);
      InterleaveStep(sql[from..hs[0].start], Pieces(sql, hs[0].end, hs[1..]), sql[hs[0].start..hs[0].end], Texts(sql, hs[1..]));
      assert sql[from..] == sql[from..hs[0].start] + sql[hs[0].start..hs[0].end] + sql[hs[0].end..];
    }
  }

  lemma Untouched(piece: string, fills: seq<string>)
    requires fills == []
    ensures Interleave([piece], fills) == piece
  {
  }

  lemma TextsStep(sql: string, hs: seq<Placeholder>)
    requires hs != [] && forall i :: 0 <= i < |hs| ==> hs[i].start <= hs[i].end <= |sql|
    ensures Texts(sql, hs) == [sql[hs[0].start..hs[0].end]] + Texts(sql, hs[1..])
  {
  }

  lemma InterleaveStep(piece: string, pieces: seq<string>, fill: string, fills: seq<string>)
    requires |pieces| == |fills| + 1
    ensures Interleave([piece] + pieces, [fill] + fills) == piece + fill + Interleave(pieces, fills)
  {
  }

  lemma {:induction false} SubstitutedSkip(
      sql: string, p: nat, q: nat, hs: seq<Placeholder>, bound: nat -> string)
    requires Chained(hs, p, |sql|) && p <= q && q <= (if hs == [] then |sql| else hs[0].start)
    ensures Chained(hs, q, |sql|)
    ensures Substituted(sql, p, hs, bound) == sql[p..q] + Substituted(sql, q, hs, bound)
    decreases q - p
  {
    if p < q {
      Advances(hs, p, |sql|);
      SubstitutedSkip(sql, p + 1, q, hs, bound);
      assert sql[p..q] == [sql[p]] + sql[p + 1..q];
    } else {
      assert sql[p..q] == "";
    }
  }

  /** Filling the pieces with the parameters in order is filling the original by number. */
  lemma {:induction false} PiecesMean<V>(
      sql: string, from: nat, hs: seq<Placeholder>, values: seq<V>, render: V -> string, bound: nat -> string)
    requires Chained(hs, from, |sql|)
    requires forall i :: 0 <= i < |hs| ==> InRange(hs[i], |values|)
    requires forall i :: 1 <= i <= |values| ==> bound(i) == render(values[i - 1])
    ensures Interleave(Pieces(sql, from, hs), Rendered(Arguments(values, hs), render)) == Substituted(sql, from, hs, bound)
    decreases |hs|
  {
    if hs == [] {
      SubstitutedSkip(sql, from, |sql|, hs, bound);
    } else {
      SubstitutedSkip(sql, from, hs[0].start, hs, bound);
      PiecesMean(sql, hs[0].end, hs[1..], values, render, bound);
      var arguments := Arguments(values, hs);
      assert Rendered(arguments, render)[1..] == Rendered(Arguments(values, hs[1..]), render);
      assert Pieces(sql, from, hs)[1..] == Pieces(sql, hs[0].end, hs[1..]);
    }
  }

  lemma PiecesStep(sql: string, from: nat, hs: seq<Placeholder>)
    requires hs != [] && Chained(hs, from, |sql|)
    ensures from <= hs[0].start < hs[0].end <= |sql| && Chained(hs[1..], hs[0].end, |sql|)
    ensures Pieces(sql, from, hs) == [sql[from..hs[0].start]] + Pieces(sql, hs[0].end, hs[1..])
  {
  }

  lemma LastPiece(sql: string, from: nat)
    requires from <= |sql|
    ensures Chained([], from, |sql|) && Pieces(sql, from, []) == [sql[from..]]
  {
  }

  lemma MaxIndexStep(hs: seq<Placeholder>, i: nat)
    requires i < |hs|
    ensures MaxIndex(hs[..i + 1]) == if MaxIndex(hs[..i]) < hs[i].index then hs[i].index else MaxIndex(hs[..i])
  {
    assert hs[..i + 1][..i] == hs[..i];
  }

  lemma Unusable(sql: string, count: nat, e: Error)
    requires var hs := Lex(sql, 0, Plain);
             exists i :: 0 <= i < |hs| && !Safe(hs[i]) && e == InvalidPlaceholder(DigitsOf(sql, hs[i])) && AllSafe(hs[..i])
    ensures !Compilable(sql, count) && Refused(Lex(sql, 0, Plain), sql, count, e)
  {
    hide Lex;
  }

  lemma OutOfRange(sql: string, count: nat, i: nat)
    requires var hs := Lex(sql, 0, Plain);
             i < |hs| && !InRange(hs[i], count)
             && (forall j :: 0 <= j < |hs| ==> Safe(hs[j]))
             && forall j :: 0 <= j < i ==> InRange(hs[j], count)
    ensures var hs := Lex(sql, 0, Plain);
            !Compilable(sql, count) && Refused(hs, sql, count, NoBinding(hs[i].index))
  {
    hide Lex;
  }

  lemma AllInRange(sql: string, count: nat)
    requires var hs := Lex(sql, 0, Plain);
             forall j :: 0 <= j < |hs| ==> Safe(hs[j]) && InRange(hs[j], count)
    ensures var hs := Lex(sql, 0, Plain);
            && (Compilable(sql, count) <==> count == MaxIndex(hs))
            && (count != MaxIndex(hs) ==> Refused(hs, sql, count, WrongBindingCount(count, MaxIndex(hs))))
  {
    hide Lex;
  }

  /** compileParameterizedSql. */
  method CompileParameterizedSql<V>(sql: string, values: seq<V>) returns (r: Result<Template<V>>)
    ensures r.Ok? <==> Compilable(sql, |values|)
    ensures r.Ok? ==> Chained(Lex(sql, 0, Plain), 0, |sql|)
                      && r.value == Template(Pieces(sql, 0, Lex(sql, 0, Plain)), Arguments(values, Lex(sql, 0, Plain)))
    ensures r.Err? ==> Refused(Lex(sql, 0, Plain), sql, |values|, r.error)
  {
    hide Lex, Value, Safe, Usable, Pieces, Chained, MaxIndex, Refused, Compilable;
    var found := ParameterPlaceholders(sql);
    ghost var hs := Lex(sql, 0, Plain);
    UsableAll(sql, hs);
    LexChained(sql, 0, Plain);
    if found.Err? {
      UsableError(sql, hs);
      Unusable(sql, |values|, found.error);
      return Err(found.error);
    }
    var placeholders := found.value;
    var strings: seq<string> := [];
    var parameters: seq<V> := [];
    var offset: nat := 0;
    var maximumIndex := 0;
    assert placeholders[0..] == placeholders;
    for i := 0 to |placeholders|
      invariant placeholders == hs
      invariant offset <= |sql| && Chained(placeholders[i..], offset, |sql|)
      invariant Pieces(sql, 0, placeholders) == strings + Pieces(sql, offset, placeholders[i..])
      invariant |parameters| == i
      invariant forall k :: 0 <= k < i ==> InRange(placeholders[k], |values|)
      invariant forall k :: 0 <= k < i ==> parameters[k] == values[placeholders[k].index - 1]
      invariant maximumIndex == MaxIndex(placeholders[..i])
    {
      var placeholder := placeholders[i];
      var index := placeholder.index;
      if index < 1 || index > |values| {
        OutOfRange(sql, |values|, i);
        return Err(NoBinding(index));
      }
      assert placeholders[i..][1..] == placeholders[i + 1..];
      PiecesStep(sql, offset, placeholders[i..]);
      MaxIndexStep(placeholders, i);
      strings := strings + [sql[offset..placeholder.start]];
      parameters := parameters + [values[index - 1]];
      offset := placeholder.end;
      maximumIndex := if maximumIndex < index then index else maximumIndex;
    }
    assert placeholders[..|placeholders|] == placeholders;
    LastPiece(sql, offset);
    AllInRange(sql, |values|);
    if |values| != maximumIndex {
      return Err(WrongBindingCount(|values|, maximumIndex));
    }
    strings := strings + [sql[offset..]];
    assert parameters == Arguments(values, hs);
    return Ok(Template(strings, parameters));
  }

  predicate AllSafe(hs: seq<Placeholder>) { forall i :: 0 <= i < |hs| ==> Safe(hs[i]) }

  /** Why compiling was refused: the first unusable number first, then a number out of range, then a wrong count. */
  ghost predicate Refused(hs: seq<Placeholder>, sql: string, count: nat, e: Error) {
    match e
    case InvalidPlaceholder(digits) => exists i :: 0 <= i < |hs| && !Safe(hs[i]) && digits == DigitsOf(sql, hs[i]) && AllSafe(hs[..i])
    case NoBinding(index) =>
      && (forall i :: 0 <= i < |hs| ==> Safe(hs[i]))
      && (exists i :: 0 <= i < |hs| && hs[i].index == index && !InRange(hs[i], count)
                      && forall j :: 0 <= j < i ==> InRange(hs[j], count))
    case WrongBindingCount(given, required) =>
      && (forall i :: 0 <= i < |hs| ==> Safe(hs[i]) && InRange(hs[i], count))
      && given == count && required == MaxIndex(hs) && required != count
  }

  lemma {:induction false} UsableError(sql: string, hs: seq<Placeholder>)
    ensures Usable(sql, hs).Err? ==>
              exists i :: 0 <= i < |hs| && !Safe(hs[i]) && Usable(sql, hs).error == InvalidPlaceholder(DigitsOf(sql, hs[i])) && AllSafe(hs[..i])
  {
    if hs != [] && !Safe(hs[0]) {
      assert AllSafe(hs[..0]);
    } else if hs != [] {
      UsableError(sql, hs[1..]);
      if Usable(sql, hs).Err? {
        var i :| 0 <= i < |hs[1..]| && !Safe(hs[1..][i]) && Usable(sql, hs[1..]).error == InvalidPlaceholder(DigitsOf(sql, hs[1..][i])) && AllSafe(hs[1..][..i]);
        assert hs[i + 1] == hs[1..][i];
        var before := hs[..i + 1];
        forall k | 0 <= k < |before| ensures Safe(before[k]) { assert k > 0 ==> before[k] == hs[1..][..i][k - 1]; }
      }
    }
  }

  /** Compilability read off the text: every genuine number is usable and in range, and the highest is the count. */
  lemma CompilableExactly(sql: string, count: nat)
    ensures Compilable(sql, count) <==>
              (forall h :: Genuine(sql, h) ==> 1 <= h.index <= count && h.index <= 9007199254740991)
              && (count == 0 || exists h :: Genuine(sql, h) && h.index == count)
  {
    hide Lex, Genuine, InOrder;
    LexExact(sql);
    var hs := Lex(sql, 0, Plain);
    if Compilable(sql, count) {
      forall h | Genuine(sql, h) ensures Safe(h) && InRange(h, count) {
        var i :| 0 <= i < |hs| && hs[i] == h;
      }
      if count != 0 {
        var i :| 0 <= i < |hs| && hs[i].index == count;
        assert hs[i] in hs;
      }
    }
    if (forall h :: Genuine(sql, h) ==> Safe(h) && InRange(h, count)) && (count == 0 || exists h :: Genuine(sql, h) && h.index == count) {
      forall i | 0 <= i < |hs| ensures Safe(hs[i]) && InRange(hs[i], count) {
        assert hs[i] in hs;
      }
      if count != 0 {
        var h :| Genuine(sql, h) && h.index == count;
        var i :| 0 <= i < |hs| && hs[i] == h;
      }
    }
  }

  /** Compiling preserves meaning: the template rebuilds the text, and filling it is filling the text by number. */
  lemma CompilePreservesMeaning<V>(
      sql: string, values: seq<V>, render: V -> string, bound: nat -> string)
    requires Compilable(sql, |values|)
    requires forall i :: 1 <= i <= |values| ==> bound(i) == render(values[i - 1])
    ensures Chained(Lex(sql, 0, Plain), 0, |sql|)
    ensures forall i :: 0 <= i < |Lex(sql, 0, Plain)| ==> Lex(sql, 0, Plain)[i].start <= Lex(sql, 0, Plain)[i].end <= |sql|
    ensures var hs := Lex(sql, 0, Plain);
            Interleave(Pieces(sql, 0, hs), Texts(sql, hs)) == sql
    ensures var hs := Lex(sql, 0, Plain);
            Interleave(Pieces(sql, 0, hs), Rendered(Arguments(values, hs), render)) == Substituted(sql, 0, hs, bound)
  {
    hide Lex;
    var hs := Lex(sql, 0, Plain);
    LexChained(sql, 0, Plain);
    PiecesRebuild(sql, 0, hs);
    assert sql[0..] == sql;
    PiecesMean(sql, 0, hs, values, render, bound);
  }
}
