/**
  A driver sends a compiled template as one text again, with the parameters numbered
  `$1`, `$2`, ... in order.  That text reads back as the same template: the same pieces,
  cut at placeholders numbered 1, 2, ..., whatever quotes and comments the pieces hold.
*/
module SqlResequencing {
  import opened SqlLexer
  import opened SqlScanner
  import opened SqlCompiler

  function Decimal(n: nat): (d: string)
    ensures d != [] && AllDigits(d) && Value(d) == n
  {
    var last := [('0' as int + n % 10) as char];
    if n < 10 then
      assert last[..0] == [];
      last
    else
      var front := Decimal(n / 10);
      assert (front + last)[..|front + last| - 1] == front;
      front + last
  }

  /** `$k`, `$k+1`, ... */
  function Labels(k: nat, count: nat): (r: seq<string>)
    ensures |r| == count
    decreases count
  {
    if count == 0 then [] else ["$" + Decimal(k)] + Labels(k + 1, count - 1)
  }

  ghost function Resequenced(sql: string, from: nat, hs: seq<Placeholder>, k: nat): string
    requires Chained(hs, from, |sql|)
  {
    Interleave(Pieces(sql, from, hs), Labels(k, |hs|))
  }

  ghost predicate Numbered(hs: seq<Placeholder>, k: nat) {
    forall i :: 0 <= i < |hs| ==> hs[i].index == k + i
  }

  /** Reading t from q on gives the pieces that hs cuts out of s from p on, numbered from k. */
  ghost predicate ReadsBack(t: string, q: nat, m: Mode, s: string, p: nat, hs: seq<Placeholder>, k: nat)
    requires q <= |t| && Chained(hs, p, |s|)
  {
    var gs := Lex(t, q, m);
    Numbered(gs, k) && Chained(gs, q, |t|) && Pieces(t, q, gs) == Pieces(s, p, hs)
  }

  lemma PiecesCopy(s: string, p: nat, hs: seq<Placeholder>)
    requires p < |s| && Chained(hs, p + 1, |s|)
    ensures Chained(hs, p, |s|)
    ensures Pieces(s, p, hs) == [[s[p]] + Pieces(s, p + 1, hs)[0]] + Pieces(s, p + 1, hs)[1..]
  {
    if hs == [] {
      assert s[p..] == [s[p]] + s[p + 1..];
    } else {
      assert s[p..hs[0].start] == [s[p]] + s[p + 1..hs[0].start];
    }
  }

  lemma PiecesJump(s: string, p: nat, h: Placeholder, hs: seq<Placeholder>)
    requires h.start == p < h.end && Chained(hs, h.end, |s|)
    ensures Chained([h] + hs, p, |s|)
    ensures Pieces(s, p, [h] + hs) == [""] + Pieces(s, h.end, hs)
  {
    assert ([h] + hs)[1..] == hs;
    ChainedFits(hs, h.end, |s|);
    assert s[p..p] == "";
  }

  /** What follows the first string does not depend on it. */
  ghost function Following(strings: seq<string>, fills: seq<string>): string
    requires |strings| == |fills|
  {
    if fills == [] then "" else fills[0] + Interleave(strings, fills[1..])
  }

  lemma {:induction false} InterleaveSplit(all: seq<string>, fills: seq<string>)
    requires |all| == |fills| + 1
    ensures Interleave(all, fills) == all[0] + Following(all[1..], fills)
  {
    if fills != [] {
      var rest := Interleave(all[1..], fills[1..]);
      assert Interleave(all, fills) == all[0] + fills[0] + rest;
      hide Interleave;
      assert (all[0] + fills[0]) + rest == all[0] + (fills[0] + rest);
    }
  }

  lemma {:induction false} InterleaveCopy(
      first: string, head: string, strings: seq<string>, fills: seq<string>)
    requires |strings| == |fills|
    ensures Interleave([first + head] + strings, fills) == first + Interleave([head] + strings, fills)
  {
    hide Interleave, Following;
    InterleaveSplit([first + head] + strings, fills);
    InterleaveSplit([head] + strings, fills);
    assert ([first + head] + strings)[1..] == strings && ([head] + strings)[1..] == strings;
    assert (first + head) + Following(strings, fills) == first + (head + Following(strings, fills));
  }

  lemma ResequencedCopy(s: string, p: nat, hs: seq<Placeholder>, k: nat)
    requires p < |s| && Chained(hs, p + 1, |s|)
    ensures Chained(hs, p, |s|)
    ensures Resequenced(s, p, hs, k) == [s[p]] + Resequenced(s, p + 1, hs, k)
  {
    hide Labels, Pieces, Interleave;
    PiecesCopy(s, p, hs);
    var pieces := Pieces(s, p + 1, hs);
    InterleaveCopy([s[p]], pieces[0], pieces[1..], Labels(k, |hs|));
    assert [pieces[0]] + pieces[1..] == pieces;
  }

  lemma ResequencedJump(s: string, p: nat, h: Placeholder, hs: seq<Placeholder>, k: nat)
    requires h.start == p < h.end && Chained(hs, h.end, |s|)
    ensures Chained([h] + hs, p, |s|)
    ensures Resequenced(s, p, [h] + hs, k) == "$" + Decimal(k) + Resequenced(s, h.end, hs, k + 1)
  {
    hide Decimal, Pieces;
    PiecesJump(s, p, h, hs);
    assert Labels(k, 1 + |hs|)[1..] == Labels(k + 1, |hs|);
    assert ([""] + Pieces(s, h.end, hs))[1..] == Pieces(s, h.end, hs);
    assert "" + ("$" + Decimal(k)) == "$" + Decimal(k);
  }

  lemma ChainedFits(hs: seq<Placeholder>, from: nat, limit: nat)
    requires Chained(hs, from, limit)
    ensures from <= limit
  {
  }

  /** The text after a placeholder starts as the original does: never with a digit. */
  lemma ResequencedHead(s: string, p: nat, hs: seq<Placeholder>, k: nat)
    requires Chained(hs, p, |s|) && (p < |s| ==> !IsDigit(s[p]))
    ensures Resequenced(s, p, hs, k) == "" || !IsDigit(Resequenced(s, p, hs, k)[0])
  {
    hide Decimal, IsDigit;
    if hs != [] && hs[0].start == p {
      ResequencedJump(s, p, hs[0], hs[1..], k);
      assert [hs[0]] + hs[1..] == hs;
      DollarIsNoDigit();
    } else if p < |s| {
      Advances(hs, p, |s|);
      ResequencedCopy(s, p, hs, k);
    }
  }

  lemma DollarIsNoDigit()
    ensures !IsDigit('$')
  {
  }

  lemma ReadBackEnd(s: string, m: Mode, k: nat, t: string, q: nat)
    requires q <= |t| && Settled(s, |s|, m)
    requires Chained(Lex(s, |s|, m), |s|, |s|) && t[q..] == Resequenced(s, |s|, Lex(s, |s|, m), k)
    ensures ReadsBack(t, q, m, s, |s|, Lex(s, |s|, m), k)
  {
    hide Lex;
    AtEnd(s, m);
    assert s[|s|..] == "";
    assert q == |t|;
    AtEnd(t, m);
  }

  lemma DigitRunIs(s: string, p: nat, q: nat)
    requires p <= q <= |s| && AllDigits(s[p..q]) && (q < |s| ==> !IsDigit(s[q]))
    ensures DigitRun(s, p) == q
    decreases q - p
  {
    if p < q {
      assert IsDigit(s[p..q][0]);
      assert s[p + 1..q] == s[p..q][1..];
      DigitRunIs(s, p + 1, q);
    }
  }

  lemma SplitAt(t: string, q: nat, a: string, b: string)
    requires q <= |t| && t[q..] == a + b
    ensures q + |a| <= |t| && t[q..q + |a|] == a && t[q + |a|..] == b
  {
    assert |t[q..]| == |a| + |b|;
    assert t[q..][..|a|] == a;
    assert t[q..][|a|..] == b;
    assert t[q..q + |a|] == t[q..][..|a|];
    assert t[q + |a|..] == t[q..][|a|..];
  }

  ghost predicate LabelAt(t: string, q: nat, k: nat) {
    var end := q + 1 + |Decimal(k)|;
    end <= |t| && t[q] == '$' && t[q + 1..end] == Decimal(k) && DigitRun(t, q + 1) == end
  }

  lemma ReadBackJump(
      s: string, p: nat, h: Placeholder, rest: seq<Placeholder>, k: nat, t: string, q: nat)
    requires h.start == p < h.end <= |s| && (h.end < |s| ==> !IsDigit(s[h.end]))
    requires Chained(rest, h.end, |s|) && Chained([h] + rest, p, |s|)
    requires q <= |t| && t[q..] == Resequenced(s, p, [h] + rest, k)
    ensures LabelAt(t, q, k)
    ensures t[q + 1 + |Decimal(k)|..] == Resequenced(s, h.end, rest, k + 1)
  {
    hide Decimal, Resequenced, IsDigit, DigitRun;
    var mark := "$" + Decimal(k);
    var after := Resequenced(s, h.end, rest, k + 1);
    ResequencedJump(s, p, h, rest, k);
    SplitAt(t, q, mark, after);
    var end := q + |mark|;
    assert t[q] == t[q..end][0] == '$';
    assert t[q + 1..end] == t[q..end][1..] == Decimal(k);
    ResequencedHead(s, h.end, rest, k + 1);
    if end < |t| { assert t[end] == t[end..][0]; }
    DigitRunIs(t, q + 1, end);
  }

  lemma LabelIsParameter(t: string, q: nat, m: Mode, k: nat)
    requires LabelAt(t, q, k) && Next(m, '$') == Dollar && !m.Number?
    ensures Lex(t, q, m) == [Placeholder(q, q + 1 + |Decimal(k)|, k)] + Lex(t, q + 1 + |Decimal(k)|, Plain)
  {
    hide Lex, Decimal, Next, Value, IsDigit;
    assert IsDigit(t[q + 1..q + 1 + |Decimal(k)|][0]);
    ParameterStep(t, q, m);
  }

  lemma ReadBackJumpDone(
      s: string, p: nat, h: Placeholder, rest: seq<Placeholder>, m: Mode, k: nat, t: string, q: nat)
    requires h.start == p < h.end && Chained(rest, h.end, |s|) && Chained([h] + rest, p, |s|)
    requires LabelAt(t, q, k) && Next(m, '$') == Dollar && !m.Number?
    requires ReadsBack(t, q + 1 + |Decimal(k)|, Plain, s, h.end, rest, k + 1)
    ensures ReadsBack(t, q, m, s, p, [h] + rest, k)
  {
    hide Lex, Decimal, Next, DigitRun, Pieces;
    var end := q + 1 + |Decimal(k)|;
    LabelIsParameter(t, q, m, k);
    PiecesJump(s, p, h, rest);
    PiecesJump(t, q, Placeholder(q, end, k), Lex(t, end, Plain));
  }

  lemma ReadBackCopy(s: string, p: nat, hs: seq<Placeholder>, k: nat, t: string, q: nat)
    requires p < |s| && Chained(hs, p + 1, |s|) && Chained(hs, p, |s|)
    requires q <= |t| && t[q..] == Resequenced(s, p, hs, k)
    ensures q < |t| && t[q] == s[p] && t[q + 1..] == Resequenced(s, p + 1, hs, k)
  {
    hide Resequenced;
    ResequencedCopy(s, p, hs, k);
    SplitAt(t, q, [s[p]], Resequenced(s, p + 1, hs, k));
    assert t[q] == t[q..q + 1][0];
  }

  lemma ReadBackCopyDone(
      s: string, p: nat, hs: seq<Placeholder>, m: Mode, k: nat, t: string, q: nat)
    requires p < |s| && Chained(hs, p + 1, |s|) && Chained(hs, p, |s|) && !m.Number?
    requires q < |t| && t[q] == s[p]
    requires ReadsBack(t, q + 1, Next(m, s[p]), s, p + 1, hs, k)
    ensures ReadsBack(t, q, m, s, p, hs, k)
  {
    hide Lex, Next, Pieces;
    Step(t, q, m);
    PiecesCopy(s, p, hs);
    PiecesCopy(t, q, Lex(t, q, m));
  }

  lemma {:induction false} ReadBackFrom(
      s: string, p: nat, m: Mode, k: nat, t: string, q: nat)
    requires p <= |s| && q <= |t| && Settled(s, p, m)
    requires Chained(Lex(s, p, m), p, |s|)
    requires t[q..] == Resequenced(s, p, Lex(s, p, m), k)
    ensures ReadsBack(t, q, m, s, p, Lex(s, p, m), k)
    decreases |s| - p
  {
    hide Lex, Resequenced, ReadsBack, Decimal, Next, Chained, Value;
    if p == |s| {
      ReadBackEnd(s, m, k, t, q);
    } else if ParameterAt(s, p, m) {
      ParameterStep(s, p, m);
      var end := DigitRun(s, p + 1);
      var h, rest := Placeholder(p, end, Value(s[p + 1..end])), Lex(s, end, Plain);
      LexChained(s, end, Plain);
      ReadBackJump(s, p, h, rest, k, t, q);
      ReadBackFrom(s, end, Plain, k + 1, t, q + 1 + |Decimal(k)|);
      ReadBackJumpDone(s, p, h, rest, m, k, t, q);
    } else {
      SettledStep(s, p, m);
      Step(s, p, m);
      LexChained(s, p + 1, Next(m, s[p]));
      ReadBackCopy(s, p, Lex(s, p, m), k, t, q);
      ReadBackFrom(s, p + 1, Next(m, s[p]), k, t, q + 1);
      ReadBackCopyDone(s, p, Lex(s, p, m), m, k, t, q);
    }
  }

  /**
    The text a driver sends for a compiled template, pieces joined by `$1`, `$2`, ...,
    is read by the same automaton as exactly those pieces with exactly those numbers.
  */
  lemma SentTextReadsBack(sql: string)
    ensures Chained(Lex(sql, 0, Plain), 0, |sql|)
    ensures var hs := Lex(sql, 0, Plain);
            var sent := Interleave(Pieces(sql, 0, hs), Labels(1, |hs|));
            var gs := Lex(sent, 0, Plain);
            && Numbered(gs, 1)
            && Chained(gs, 0, |sent|)
            && Pieces(sent, 0, gs) == Pieces(sql, 0, hs)
  {
    hide Lex, Pieces, Interleave;
    LexChained(sql, 0, Plain);
    var sent := Resequenced(sql, 0, Lex(sql, 0, Plain), 1);
    assert sent[0..] == sent;
    ReadBackFrom(sql, 0, Plain, 1, sent, 0);
  }
}
