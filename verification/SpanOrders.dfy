/**
 Exactly which spans merge to one answer whatever order the sort leaves among
 equal starts, and so which unions are the same either way round.
 */
module SpanOrders {
  import opened Text
  import opened Spans

  /* ---- folds that commute ---- */

  /** Two different spans start alike and one of them ends at the largest int. */
  predicate Tied(a: LineSpan, t: LineSpan) { a.start == t.start && a != t && t.end == MAX_INT }

  ghost predicate Untied(spans: seq<LineSpan>) { forall a, t :: a in spans && t in spans ==> !Tied(a, t) }

  ghost predicate NoTie(spans: seq<LineSpan>) { Untied(ValidOnes(spans)) }

  lemma {:induction false} FoldNone(s: LineSpan)
    ensures Fold([], s) == [s] == [] + [s]
  {
  }

  lemma {:induction false} FoldsSwapOnto(front: seq<LineSpan>, last: LineSpan, a: LineSpan, b: LineSpan)
    requires ValidSpan(a) && ValidSpan(b) && a.start == b.start && a.end != MAX_INT && b.end != MAX_INT
    ensures Fold(Fold(front + [last], a), b) == Fold(Fold(front + [last], b), a)
  {
    hide Fold;
    var out := front + [last];
    FoldIs(front, last, a);
    FoldIs(front, last, b);
    if last.end != MAX_INT && a.start <= last.end + 1 {
      FoldIs(front, last.(end := a.end), b);
      FoldIs(front, last.(end := b.end), a);
    } else {
      FoldIs(out, a, b);
      FoldIs(out, b, a);
    }
  }

  lemma {:induction false} FoldsSwap(out: seq<LineSpan>, a: LineSpan, b: LineSpan)
    requires ValidSpan(a) && ValidSpan(b) && a.start == b.start && !Tied(a, b) && !Tied(b, a)
    ensures Fold(Fold(out, a), b) == Fold(Fold(out, b), a)
  {
    hide Fold;
    if a != b {
      if out == [] {
        FoldNone(a);
        FoldNone(b);
        FoldIs([], a, b);
        FoldIs([], b, a);
      } else {
        assert out[..|out| - 1] + [out[|out| - 1]] == out;
        FoldsSwapOnto(out[..|out| - 1], out[|out| - 1], a, b);
      }
    }
  }

  /** A span moves to the back past spans that start with it. */
  lemma {:induction false} CompactMovesBack(p: seq<LineSpan>, s: LineSpan, q: seq<LineSpan>)
    requires ValidSpan(s)
    requires forall b :: b in q ==> ValidSpan(b) && b.start == s.start && !Tied(s, b) && !Tied(b, s)
    ensures Compact(p + [s] + q) == Compact(p + q + [s])
  {
    hide Compact, Fold;
    if q == [] {
      assert p + [s] + q == p + q + [s];
    } else {
      var front, b := q[..|q| - 1], q[|q| - 1];
      CompactMovesBack(p, s, front);
      assert p + [s] + q == p + [s] + front + [b] && p + q == p + front + [b];
      CompactSnoc(p + [s] + front, b);
      CompactSnoc(p + front, s);
      CompactSnoc(p + front, b);
      CompactSnoc(p + q, s);
      FoldsSwap(Compact(p + front), s, b);
    }
  }

  lemma {:induction false} CutStaysSorted(spans: seq<LineSpan>, k: nat)
    requires ByStart(spans) && k < |spans|
    ensures ByStart(spans[..k] + spans[k + 1..])
    ensures forall b :: b in spans[k + 1..] ==> b.start >= spans[k].start
  {
  }

  lemma {:induction false} InOther(a: seq<LineSpan>, b: seq<LineSpan>)
    requires multiset(a) == multiset(b)
    ensures |a| == |b| && forall s :: s in a <==> s in b
  {
    assert |multiset(a)| == |a| && |multiset(b)| == |b|;
    assert forall s :: s in a <==> s in multiset(a);
    assert forall s :: s in b <==> s in multiset(b);
  }

  lemma {:induction false} Cancels(x: multiset<LineSpan>, y: multiset<LineSpan>, s: LineSpan)
    requires x + multiset{s} == y + multiset{s}
    ensures x == y
  {
    forall t ensures x[t] == y[t] {
      assert (x + multiset{s})[t] == (y + multiset{s})[t];
    }
  }

  /** Where a sorted order holds the last span of another, and that only spans
      that start with it stand behind it. */
  lemma {:induction false} LastStands(front: seq<LineSpan>, s: LineSpan, b: seq<LineSpan>)
    returns (p: seq<LineSpan>, q: seq<LineSpan>)
    requires ByStart(front + [s]) && ByStart(b) && multiset(front + [s]) == multiset(b)
    ensures b == p + [s] + q && ByStart(p + q) && ByStart(front) && multiset(p + q) == multiset(front)
    ensures forall t :: t in q ==> t in front + [s] && t.start == s.start
  {
    var a := front + [s];
    InOther(a, b);
    assert a[|front|] == s && s in a && s in b;
    var k :| 0 <= k < |b| && b[k] == s;
    p, q := b[..k], b[k + 1..];
    assert b == p + [s] + q;
    CutStaysSorted(b, k);
    CutStaysSorted(a, |front|);
    assert a[..|front|] + a[|front| + 1..] == front;
    hide ByStart;
    WithoutOne(b, k);
    Cancels(multiset(p + q), multiset(front), s);
    forall t | t in q ensures t in a && t.start == s.start {
      assert t in b;
      LastIsGreatest(a, t);
    }
  }

  lemma {:induction false} UntiedPart(part: seq<LineSpan>, all: seq<LineSpan>)
    requires (forall s :: s in all ==> ValidSpan(s)) && Untied(all) && forall s :: s in part ==> s in all
    ensures (forall s :: s in part ==> ValidSpan(s)) && Untied(part)
    ensures forall s, t :: s in all && t in part ==> !Tied(s, t) && !Tied(t, s)
  {
    hide Tied, ValidSpan;
  }

  /** Every sorted order of spans without a tie folds to the same list. */
  lemma {:induction false} OrdersAgree(a: seq<LineSpan>, b: seq<LineSpan>)
    requires ByStart(a) && ByStart(b) && multiset(a) == multiset(b)
    requires (forall s :: s in a ==> ValidSpan(s)) && Untied(a)
    ensures Compact(a) == Compact(b)
  {
    InOther(a, b);
    if a == [] {
      assert b == [];
    } else {
      hide *;
      var front, s := a[..|a| - 1], a[|a| - 1];
      assert front + [s] == a;
      var p, q := LastStands(front, s, b);
      UntiedPart(front, a);
      UntiedPart(q, a);
      OrdersAgree(front, p + q);
      CompactMovesBack(p, s, q);
      CompactSnoc(front, s);
      CompactSnoc(p + q, s);
    }
  }

  lemma {:induction false} LastIsGreatest(a: seq<LineSpan>, t: LineSpan)
    requires ByStart(a) && t in a
    ensures t.start <= a[|a| - 1].start
  {
  }

  /* ---- ties decide ---- */

  /** How many of the spans start at `line`. */
  function StartsAt(spans: seq<LineSpan>, line: int): nat {
    if spans == [] then 0
    else StartsAt(spans[..|spans| - 1], line) + if spans[|spans| - 1].start == line then 1 else 0
  }

  lemma {:induction false} StartsSnoc(spans: seq<LineSpan>, s: LineSpan, line: int)
    ensures StartsAt(spans + [s], line) == StartsAt(spans, line) + if s.start == line then 1 else 0
  {
    assert (spans + [s])[..|spans|] == spans;
  }

  lemma {:induction false} FoldStarts(out: seq<LineSpan>, s: LineSpan, line: int)
    requires ValidSpan(s) && s.start != line
    ensures StartsAt(Fold(out, s), line) == StartsAt(out, line)
  {
    hide Fold, StartsAt;
    if out == [] {
      FoldNone(s);
      StartsSnoc([], s, line);
    } else {
      var front, last := out[..|out| - 1], out[|out| - 1];
      assert front + [last] == out;
      FoldIs(front, last, s);
      StartsSnoc(front, last, line);
      StartsSnoc(front, last.(end := s.end), line);
      StartsSnoc(out, s, line);
    }
  }

  lemma {:induction false} CompactStarts(p: seq<LineSpan>, q: seq<LineSpan>, line: int)
    requires forall s :: s in q ==> ValidSpan(s) && s.start != line
    ensures StartsAt(Compact(p + q), line) == StartsAt(Compact(p), line)
  {
    hide Compact, Fold, StartsAt;
    if q == [] {
      assert p + q == p;
    } else {
      var front, s := q[..|q| - 1], q[|q| - 1];
      assert p + q == p + front + [s];
      CompactStarts(p, front, line);
      CompactSnoc(p + front, s);
      FoldStarts(Compact(p + front), s, line);
    }
  }

  lemma {:induction false} TieSplitsOnto(front: seq<LineSpan>, last: LineSpan, a: LineSpan, t: LineSpan)
    requires ValidSpan(a) && ValidSpan(t) && Tied(a, t)
    ensures var out := front + [last];
            StartsAt(Fold(Fold(out, t), a), a.start) == StartsAt(Fold(Fold(out, a), t), a.start) + 1
  {
    hide Fold, StartsAt;
    var out := front + [last];
    FoldIs(front, last, a);
    FoldIs(front, last, t);
    if last.end != MAX_INT && a.start <= last.end + 1 {
      var grown := if a.end > last.end then last.(end := a.end) else last;
      FoldIs(front, last.(end := MAX_INT), a);
      FoldIs(front, grown, t);
      StartsSnoc(front + [last.(end := MAX_INT)], a, a.start);
    } else {
      FoldIs(out, t, a);
      FoldIs(out, a, t);
      StartsSnoc(out + [t], a, a.start);
    }
  }

  /** Which of two tied spans comes first decides how many spans start there. */
  lemma {:induction false} TieSplits(out: seq<LineSpan>, a: LineSpan, t: LineSpan)
    requires ValidSpan(a) && ValidSpan(t) && Tied(a, t)
    ensures StartsAt(Fold(Fold(out, t), a), a.start) == StartsAt(Fold(Fold(out, a), t), a.start) + 1
  {
    hide Fold, StartsAt;
    if out == [] {
      FoldNone(a);
      FoldNone(t);
      FoldIs([], a, t);
      FoldIs([], t, a);
      assert a.(end := t.end) == t;
      StartsSnoc([t], a, a.start);
    } else {
      assert out[..|out| - 1] + [out[|out| - 1]] == out;
      TieSplitsOnto(out[..|out| - 1], out[|out| - 1], a, t);
    }
  }

  /** The spans up to `line` and those that start after it. */
  lemma {:induction false} StartsPast(sorted: seq<LineSpan>, line: int) returns (low: seq<LineSpan>, high: seq<LineSpan>)
    requires ByStart(sorted)
    ensures sorted == low + high
    ensures (forall s :: s in low ==> s.start <= line) && (forall s :: s in high ==> s.start > line)
  {
    if sorted == [] {
      low, high := [], [];
    } else {
      var front, s := sorted[..|sorted| - 1], sorted[|sorted| - 1];
      if s.start > line {
        low, high := StartsPast(front, line);
        high := high + [s];
      } else {
        low, high := sorted, [];
      }
    }
  }

  lemma {:induction false} SortedBetween(low: seq<LineSpan>, a: LineSpan, b: LineSpan, high: seq<LineSpan>)
    requires ByStart(low + high) && a.start == b.start
    requires (forall s :: s in low ==> s.start <= a.start) && (forall s :: s in high ==> s.start > a.start)
    ensures ByStart(low + [a, b] + high)
  {
    var all := low + [a, b] + high;
    forall i, j | 0 <= i < j < |all| ensures all[i].start <= all[j].start {
      if j < |low| {
        assert (low + high)[i].start <= (low + high)[j].start;
      } else if i < |low| {
        assert all[i] in low;
        assert j < |low| + 2 || all[j] in high;
      } else if i < |low| + 2 {
        assert j < |low| + 2 || all[j] in high;
      } else {
        assert (low + high)[i - 2].start <= (low + high)[j - 2].start;
      }
    }
  }

  lemma {:induction false} WithoutTwo(valid: seq<LineSpan>, a: LineSpan, t: LineSpan) returns (rest: seq<LineSpan>)
    requires a in valid && t in valid && a != t
    ensures multiset(valid) == multiset(rest) + multiset{a} + multiset{t}
  {
    var j :| 0 <= j < |valid| && valid[j] == t;
    WithoutOne(valid, j);
    var one := valid[..j] + valid[j + 1..];
    assert a in multiset(one) by {
      assert a in multiset(valid);
    }
    var i :| 0 <= i < |one| && one[i] == a;
    WithoutOne(one, i);
    rest := one[..i] + one[i + 1..];
  }

  /** Two orders of the spans that differ only in which of two tied ones comes
      first, right before every span that starts later. */
  lemma {:induction false} TiedOrders(valid: seq<LineSpan>, a: LineSpan, t: LineSpan)
    returns (low: seq<LineSpan>, high: seq<LineSpan>)
    requires a in valid && t in valid && Tied(a, t)
    ensures SortOf(valid, low + [t, a] + high) && SortOf(valid, low + [a, t] + high)
    ensures forall s :: s in high ==> s in valid && s.start > a.start
  {
    var rest := WithoutTwo(valid, a, t);
    ArrangedSorts(rest);
    var sorted := Arranged(rest);
    hide Arranged, ByStart;
    low, high := StartsPast(sorted, a.start);
    SortedBetween(low, t, a, high);
    SortedBetween(low, a, t, high);
    TwoMore(low, t, a, high);
    TwoMore(low, a, t, high);
    HighHeld(valid, low, high, a, t);
  }

  lemma {:induction false} HighHeld(valid: seq<LineSpan>, low: seq<LineSpan>, high: seq<LineSpan>, a: LineSpan, t: LineSpan)
    requires multiset(valid) == multiset(low + high) + multiset{a} + multiset{t}
    ensures forall s :: s in high ==> s in valid
  {
    forall s | s in high ensures s in valid {
      assert s in low + high;
      assert s in multiset(low + high);
      assert s in multiset(valid);
    }
  }

  lemma {:induction false} TwoMore(low: seq<LineSpan>, a: LineSpan, b: LineSpan, high: seq<LineSpan>)
    ensures multiset(low + [a, b] + high) == multiset(low + high) + multiset{a} + multiset{b}
  {
    assert multiset([a, b]) == multiset{a} + multiset{b};
  }

  /** The spans folded in two orders with a tie between them give two lists. */
  lemma {:induction false} TieTellsApart(low: seq<LineSpan>, a: LineSpan, t: LineSpan, high: seq<LineSpan>)
    requires ValidSpan(a) && ValidSpan(t) && Tied(a, t)
    requires forall s :: s in high ==> ValidSpan(s) && s.start != a.start
    ensures Compact(low + [t, a] + high) != Compact(low + [a, t] + high)
  {
    hide Compact, Fold, StartsAt;
    assert low + [t, a] == low + [t] + [a] && low + [a, t] == low + [a] + [t];
    CompactSnoc(low, t);
    CompactSnoc(low + [t], a);
    CompactSnoc(low, a);
    CompactSnoc(low + [a], t);
    TieSplits(Compact(low), a, t);
    CompactStarts(low + [t, a], high, a.start);
    CompactStarts(low + [a, t], high, a.start);
  }

  /** The merge has one answer, whatever order the sort leaves among equal
      starts, exactly when no two different valid spans start alike with one of
      them ending at the largest int. */
  lemma {:induction false} MergeDeterminedExactlyWhen(spans: seq<LineSpan>)
    ensures (forall out, out' :: Merges(spans, out) && Merges(spans, out') ==> out == out') <==> NoTie(spans)
  {
    hide Compact, ByStart, ValidOnes, Tied;
    if NoTie(spans) {
      forall out, out' | Merges(spans, out) && Merges(spans, out') ensures out == out' {
        UntiedMerges(spans, out, out');
      }
    } else {
      var a, t :| a in ValidOnes(spans) && t in ValidOnes(spans) && Tied(a, t);
      var out, out' := TiedMerges(spans, a, t);
    }
  }

  lemma {:induction false} UntiedMerges(spans: seq<LineSpan>, out: seq<LineSpan>, out': seq<LineSpan>)
    requires NoTie(spans) && Merges(spans, out) && Merges(spans, out')
    ensures out == out'
  {
    hide Compact, ByStart, ValidOnes, Tied;
    var valid := ValidOnes(spans);
    var a: seq<LineSpan> :| SortOf(valid, a) && out == Compact(a);
    var b: seq<LineSpan> :| SortOf(valid, b) && out' == Compact(b);
    ValidOnesAre(spans);
    InOther(a, valid);
    OrdersAgree(a, b);
  }

  lemma {:induction false} TiedMerges(spans: seq<LineSpan>, a: LineSpan, t: LineSpan)
    returns (out: seq<LineSpan>, out': seq<LineSpan>)
    requires a in ValidOnes(spans) && t in ValidOnes(spans) && Tied(a, t)
    ensures Merges(spans, out) && Merges(spans, out') && out != out'
  {
    hide Compact, ByStart, ValidOnes, SortOf;
    ValidOnesAre(spans);
    var low, high := TiedOrders(ValidOnes(spans), a, t);
    TieTellsApart(low, a, t, high);
    out, out' := Compact(low + [t, a] + high), Compact(low + [a, t] + high);
  }

  /* ---- commuting ---- */

  lemma {:induction false} MergesTurned(x: seq<LineSpan>, y: seq<LineSpan>, out: seq<LineSpan>)
    ensures Merges(x + y, out) <==> Merges(y + x, out)
  {
    hide Compact, ByStart;
    ValidOnesAppend(x, y);
    ValidOnesAppend(y, x);
    assert multiset(ValidOnes(x) + ValidOnes(y)) == multiset(ValidOnes(y) + ValidOnes(x));
    hide ValidOnes;
  }

  /** A union is the same either way round exactly when no two different valid
      spans of the two operands start alike with one of them ending at the largest
      int. */
  lemma {:induction false} UnionCommutesExactlyWhen(x: seq<LineSpan>, y: seq<LineSpan>)
    ensures (forall out, out' :: Merges(x + y, out) && Merges(y + x, out') ==> out == out') <==> NoTie(x + y)
  {
    hide Merges, NoTie;
    forall out ensures Merges(x + y, out) <==> Merges(y + x, out) {
      MergesTurned(x, y, out);
    }
    MergeDeterminedExactlyWhen(x + y);
  }

  lemma {:induction false} TiedPair(a: LineSpan, t: LineSpan)
    requires ValidSpan(a) && ValidSpan(t) && Tied(a, t)
    ensures Merges([t] + [a], [t, a]) && Merges([a] + [t], [t])
  {
    hide Merges, Fold;
    PairMerges(t, a);
    PairMerges(a, t);
    FoldIs([], t, a);
    FoldIs([], a, t);
    assert [] + [t] == [t] && [] + [a] == [a] && [t] + [a] == [t, a] && [a] + [t] == [a, t];
    assert a.(end := t.end) == t;
  }

  /** Two canonical operands whose union differs with their order. */
  lemma {:induction false} UnionNeedNotCommute()
    ensures var x, y := [LineSpan(5, MAX_INT)], [LineSpan(5, 7)];
            && Canonical(x) && Canonical(y)
            && Merges(x + y, [LineSpan(5, MAX_INT), LineSpan(5, 7)]) && Merges(y + x, [LineSpan(5, MAX_INT)])
  {
    var a, t := LineSpan(5, 7), LineSpan(5, MAX_INT);
    assert ValidSpan(a) && ValidSpan(t) && Tied(a, t);
    hide *;
    TiedPair(a, t);
    OneIsCanonical(t);
    OneIsCanonical(a);
  }

  lemma {:induction false} OneIsCanonical(s: LineSpan)
    requires ValidSpan(s)
    ensures Canonical([s])
  {
  }

  /** Two valid spans merge in the order they stand in where that order is sorted. */
  lemma {:induction false} PairMerges(a: LineSpan, b: LineSpan)
    requires ValidSpan(a) && ValidSpan(b) && a.start <= b.start
    ensures Merges([a, b], Fold([a], b))
  {
    hide Compact, Fold;
    assert [] + [a] == [a] && [a] + [b] == [a, b];
    CompactSnoc([], a);
    CompactSnoc([a], b);
    FoldNone(a);
    AllValidKept([a, b]);
    assert SortOf([a, b], [a, b]);
  }

  /** And two that commute though one of them reaches over the other to the
      largest int. */
  lemma {:induction false} OverlapCanCommute(out: seq<LineSpan>, out': seq<LineSpan>)
    requires var x, y := [LineSpan(5, MAX_INT)], [LineSpan(6, 7)]; Merges(x + y, out) && Merges(y + x, out')
    ensures out == out'
  {
    var x, y := [LineSpan(5, MAX_INT)], [LineSpan(6, 7)];
    ValidOnesAre(x + y);
    hide Merges, ValidOnes;
    assert NoTie(x + y);
    UnionCommutesExactlyWhen(x, y);
  }
}
