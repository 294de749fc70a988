/**
 Line spans: the in-place merge, and the set of lines it stands for.
 */
module Spans {
  import opened Text

  datatype LineSpan = LineSpan(start: Int, end: Int)

  predicate ValidSpan(s: LineSpan) { s.start >= 1 && s.end >= s.start }

  function ValidOnes(spans: seq<LineSpan>): seq<LineSpan> {
    if spans == [] then []
    else
      var front := ValidOnes(spans[..|spans| - 1]);
      if ValidSpan(spans[|spans| - 1]) then front + [spans[|spans| - 1]] else front
  }

  ghost predicate AllValid(spans: seq<LineSpan>) { forall k :: 0 <= k < |spans| ==> ValidSpan(spans[k]) }

  /** Line `n` is in one of the spans. */
  ghost predicate Covers(spans: seq<LineSpan>, n: int) {
    exists k :: 0 <= k < |spans| && spans[k].start <= n <= spans[k].end
  }

  ghost predicate ByStart(spans: seq<LineSpan>) {
    forall i, j :: 0 <= i < j < |spans| ==> spans[i].start <= spans[j].start
  }

  /** Valid, sorted, and no two overlapping or touching. */
  ghost predicate Canonical(spans: seq<LineSpan>) {
    && AllValid(spans)
    && forall i, j :: 0 <= i < j < |spans| ==> spans[i].end + 1 < spans[j].start
  }

  /* ---- the fold over sorted spans ---- */

  /** Folds one more span into the merged ones: the test for touching adds one
      to an int, which wraps round at the largest. */
  function Fold(out: seq<LineSpan>, s: LineSpan): seq<LineSpan> {
    if out == [] then [s]
    else
      var last := out[|out| - 1];
      if s.start <= Wrap(last.end + 1) then
        if s.end > last.end then out[|out| - 1 := last.(end := s.end)] else out
      else out + [s]
  }

  function Compact(spans: seq<LineSpan>): seq<LineSpan> {
    if spans == [] then [] else Fold(Compact(spans[..|spans| - 1]), spans[|spans| - 1])
  }

  /** What holds of every result, wrapped or not: sorted, valid, and a span can
      reach the next only by ending at the largest int. */
  ghost predicate Stepped(spans: seq<LineSpan>) {
    && AllValid(spans) && ByStart(spans)
    && forall i, j :: 0 <= i < j < |spans| ==> spans[i].end == MAX_INT || spans[i].end + 1 < spans[j].start
  }

  /** The invariant of the fold. */
  ghost predicate Folded(spans: seq<LineSpan>, out: seq<LineSpan>) {
    && Stepped(out) && |out| <= |spans| && (spans != [] ==> out != [])
    && (forall n :: Covers(out, n) <==> Covers(spans, n))
    && (spans != [] ==> out[|out| - 1].start <= spans[|spans| - 1].start)
  }

  lemma {:induction false} CoversSnoc(spans: seq<LineSpan>, s: LineSpan, n: int)
    ensures Covers(spans + [s], n) <==> Covers(spans, n) || s.start <= n <= s.end
  {
    var longer := spans + [s];
    if Covers(spans, n) {
      var k :| 0 <= k < |spans| && spans[k].start <= n <= spans[k].end;
      assert longer[k] == spans[k];
    }
    if s.start <= n <= s.end {
      assert longer[|spans|] == s;
    }
  }

  lemma {:induction false} SteppedSnoc(out: seq<LineSpan>, s: LineSpan)
    requires Stepped(out) && ValidSpan(s)
    requires out != [] ==> out[|out| - 1].start <= s.start && (out[|out| - 1].end == MAX_INT || out[|out| - 1].end + 1 < s.start)
    ensures Stepped(out + [s])
  {
    var longer := out + [s];
    forall i | 0 <= i < |out|
      ensures out[i].start <= s.start && (out[i].end == MAX_INT || out[i].end + 1 < s.start)
    {
    }
  }

  lemma {:induction false} SteppedGrow(front: seq<LineSpan>, last: LineSpan, end: Int)
    requires Stepped(front + [last]) && end > last.end
    ensures Stepped(front + [last.(end := end)])
  {
    var a, b := front + [last], front + [last.(end := end)];
    forall i, j | 0 <= i < j < |b|
      ensures b[i].start <= b[j].start && (b[i].end == MAX_INT || b[i].end + 1 < b[j].start)
    {
      assert b[i] == a[i] && b[j].start == a[j].start;
    }
    assert forall i :: 0 <= i < |front| ==> b[i] == a[i];
    assert a[|front|] == last;
  }

  lemma {:induction false} CoversGrow(front: seq<LineSpan>, last: LineSpan, s: LineSpan, n: int)
    requires last.start <= s.start <= last.end + 1 && s.end > last.end
    ensures Covers(front + [last.(end := s.end)], n) <==> Covers(front + [last], n) || s.start <= n <= s.end
  {
    hide Covers;
    CoversSnoc(front, last, n);
    CoversSnoc(front, last.(end := s.end), n);
  }

  lemma {:induction false} CoversInside(front: seq<LineSpan>, last: LineSpan, s: LineSpan, n: int)
    requires last.start <= s.start && s.end <= last.end
    ensures Covers(front + [last], n) <==> Covers(front + [last], n) || s.start <= n <= s.end
  {
    hide Covers;
    CoversSnoc(front, last, n);
  }

  /** The three things one fold can do. */
  lemma {:induction false} FoldIs(front: seq<LineSpan>, last: LineSpan, s: LineSpan)
    requires ValidSpan(s)
    ensures var touching := last.end != MAX_INT && s.start <= last.end + 1;
            Fold(front + [last], s) ==
            if touching && s.end > last.end then front + [last.(end := s.end)]
            else if touching then front + [last]
            else front + [last] + [s]
  {
    var out := front + [last];
    assert out[|out| - 1 := last.(end := s.end)] == front + [last.(end := s.end)];
  }

  lemma {:induction false} FoldedStep(spans: seq<LineSpan>, front: seq<LineSpan>, last: LineSpan, s: LineSpan)
    requires spans != [] && Folded(spans, front + [last])
    requires ValidSpan(s) && spans[|spans| - 1].start <= s.start
    ensures Folded(spans + [s], Fold(front + [last], s))
  {
    var out := front + [last];
    assert out[|out| - 1] == last;
    FoldIs(front, last, s);
    var next := Fold(out, s);
    hide Fold;
    forall n
      ensures Covers(next, n) <==> Covers(spans + [s], n)
    {
      FoldedCovers(spans, front, last, s, n);
    }
    if last.end != MAX_INT && s.start <= last.end + 1 {
      if s.end > last.end {
        SteppedGrow(front, last, s.end);
      }
    } else {
      SteppedSnoc(out, s);
    }
    hide Covers, Stepped;
  }

  lemma {:induction false} FoldedCovers(spans: seq<LineSpan>, front: seq<LineSpan>, last: LineSpan, s: LineSpan, n: int)
    requires Covers(front + [last], n) <==> Covers(spans, n)
    requires ValidSpan(last) && ValidSpan(s) && last.start <= s.start
    ensures Covers(Fold(front + [last], s), n) <==> Covers(spans + [s], n)
  {
    FoldIs(front, last, s);
    hide Fold, Covers;
    CoversSnoc(spans, s, n);
    if last.end != MAX_INT && s.start <= last.end + 1 {
      if s.end > last.end {
        CoversGrow(front, last, s, n);
      } else {
        CoversInside(front, last, s, n);
      }
    } else {
      CoversSnoc(front + [last], s, n);
    }
  }

  lemma {:induction false} FoldedNext(spans: seq<LineSpan>, out: seq<LineSpan>, s: LineSpan)
    requires spans != [] && Folded(spans, out)
    requires ValidSpan(s) && spans[|spans| - 1].start <= s.start
    ensures Folded(spans + [s], Fold(out, s))
  {
    assert out != [];
    hide Folded, Fold;
    assert out[..|out| - 1] + [out[|out| - 1]] == out;
    FoldedStep(spans, out[..|out| - 1], out[|out| - 1], s);
  }

  lemma {:induction false} CompactSnoc(spans: seq<LineSpan>, s: LineSpan)
    ensures Compact(spans + [s]) == Fold(Compact(spans), s)
    ensures Compact([]) == []
  {
    hide Fold;
    assert (spans + [s])[..|spans|] == spans;
  }

  lemma {:induction false} FoldedOne(s: LineSpan)
    requires ValidSpan(s)
    ensures Folded([s], Fold([], s)) && TopsIff([s], Fold([], s))
  {
  }

  lemma {:induction false} CompactFolds(spans: seq<LineSpan>)
    requires AllValid(spans) && ByStart(spans)
    ensures Folded(spans, Compact(spans))
  {
    if spans != [] {
      hide Folded, Fold, Compact;
      var rest, s := spans[..|spans| - 1], spans[|spans| - 1];
      assert rest + [s] == spans;
      CompactSnoc(rest, s);
      if rest == [] {
        assert [] + [s] == [s];
        FoldedOne(s);
      } else {
        CompactFolds(rest);
        FoldedNext(rest, Compact(rest), s);
      }
    }
  }

  /** Whether some span other than the last ends at the largest int. */
  ghost predicate Tops(spans: seq<LineSpan>) {
    exists k :: 0 <= k < |spans| - 1 && spans[k].end == MAX_INT
  }

  lemma {:induction false} TopsSnoc(spans: seq<LineSpan>, s: LineSpan)
    requires spans != []
    ensures Tops(spans + [s]) <==> Tops(spans) || spans[|spans| - 1].end == MAX_INT
  {
    var longer := spans + [s];
    if Tops(spans) {
      var k :| 0 <= k < |spans| - 1 && spans[k].end == MAX_INT;
      assert longer[k] == spans[k];
    }
    assert longer[|spans| - 1] == spans[|spans| - 1];
  }

  /** What the fold's last span says about the spans folded. */
  ghost predicate TopsIff(spans: seq<LineSpan>, out: seq<LineSpan>) {
    && out != [] && spans != []
    && (Canonical(out) <==> !Tops(spans))
    && (!Tops(spans) ==> (out[|out| - 1].end == MAX_INT <==> spans[|spans| - 1].end == MAX_INT))
  }

  lemma {:induction false} CanonicalFront(out: seq<LineSpan>, s: LineSpan)
    ensures Canonical(out + [s]) ==> Canonical(out)
    ensures Canonical(out + [s]) && out != [] ==> out[|out| - 1].end + 1 < s.start
  {
    var longer := out + [s];
    assert forall i :: 0 <= i < |out| ==> longer[i] == out[i];
    assert longer[|out|] == s;
  }

  lemma {:induction false} CanonicalSnoc(out: seq<LineSpan>, s: LineSpan)
    requires Canonical(out) && ValidSpan(s) && (out != [] ==> out[|out| - 1].end + 1 < s.start)
    ensures Canonical(out + [s])
  {
    assert forall i :: 0 <= i < |out| ==> ValidSpan(out[i]);
  }

  lemma {:induction false} CanonicalGrow(front: seq<LineSpan>, last: LineSpan, end: Int)
    requires ValidSpan(last) && end > last.end
    ensures Canonical(front + [last.(end := end)]) <==> Canonical(front + [last])
  {
    CanonicalFront(front, last);
    CanonicalFront(front, last.(end := end));
    if Canonical(front) && (front != [] ==> front[|front| - 1].end + 1 < last.start) {
      CanonicalSnoc(front, last);
      CanonicalSnoc(front, last.(end := end));
    }
  }

  lemma {:induction false} CanonicalMore(out: seq<LineSpan>, s: LineSpan)
    requires out != [] && ValidSpan(s)
    ensures Canonical(out + [s]) <==> Canonical(out) && out[|out| - 1].end + 1 < s.start
  {
    CanonicalFront(out, s);
    if Canonical(out) && out[|out| - 1].end + 1 < s.start {
      CanonicalSnoc(out, s);
    }
  }

  lemma {:induction false} TopsStep(spans: seq<LineSpan>, front: seq<LineSpan>, last: LineSpan, s: LineSpan)
    requires TopsIff(spans, front + [last])
    requires ValidSpan(last) && ValidSpan(s) && last.start <= s.start
    ensures TopsIff(spans + [s], Fold(front + [last], s))
  {
    var out := front + [last];
    FoldIs(front, last, s);
    TopsSnoc(spans, s);
    hide Fold, Canonical, Tops;
    if last.end != MAX_INT && s.start <= last.end + 1 {
      if s.end > last.end {
        CanonicalGrow(front, last, s.end);
      }
    } else {
      CanonicalMore(out, s);
    }
  }

  lemma {:induction false} TopsNext(spans: seq<LineSpan>, out: seq<LineSpan>, s: LineSpan)
    requires Folded(spans, out) && TopsIff(spans, out)
    requires ValidSpan(s) && spans[|spans| - 1].start <= s.start
    ensures TopsIff(spans + [s], Fold(out, s))
  {
    assert ValidSpan(out[|out| - 1]) && out[|out| - 1].start <= s.start;
    hide Folded, TopsIff, Fold;
    assert out[..|out| - 1] + [out[|out| - 1]] == out;
    TopsStep(spans, out[..|out| - 1], out[|out| - 1], s);
  }

  lemma {:induction false} CompactTops(spans: seq<LineSpan>)
    requires AllValid(spans) && ByStart(spans) && spans != []
    ensures TopsIff(spans, Compact(spans))
  {
    hide TopsIff, Folded, Fold, Compact;
    var rest, s := spans[..|spans| - 1], spans[|spans| - 1];
    assert rest + [s] == spans;
    CompactSnoc(rest, s);
    if rest == [] {
      assert [] + [s] == [s];
      FoldedOne(s);
    } else {
      CompactTops(rest);
      CompactFolds(rest);
      TopsNext(rest, Compact(rest), s);
    }
  }

  /** The fold yields the canonical form exactly when no span but the last in
      the sorted order ends at the largest int: past such a span the test for
      touching wraps round, and what follows is appended inside it. */
  lemma {:induction false} CompactCanonicalExactlyWhen(spans: seq<LineSpan>)
    requires AllValid(spans) && ByStart(spans) && spans != []
    ensures Canonical(Compact(spans)) <==> !Tops(spans)
  {
    CompactTops(spans);
    hide Compact, Canonical, Tops;
  }

  /** A merge can overlap: nothing is folded into a span that ends at the
      largest int, not even a span inside it. */
  lemma {:induction false} MergeCanOverlap()
    ensures var spans := [LineSpan(5, MAX_INT), LineSpan(6, 7)];
            Compact(spans) == spans && !Canonical(spans)
  {
    var a, b := LineSpan(5, MAX_INT), LineSpan(6, 7);
    CompactSnoc([], a);
    CompactSnoc([a], b);
    assert [] + [a] == [a] && [a] + [b] == [a, b];
    assert [a, b][0].end + 1 >= [a, b][1].start;
  }

  /* ---- what a merge can answer ---- */

  /** `out` is the fold of the valid inputs in some order sorted by start. Go's
      sort.Slice leaves the order among equal starts open, so there can be
      several. */
  ghost predicate Merges(spans: seq<LineSpan>, out: seq<LineSpan>) {
    exists sorted :: SortOf(ValidOnes(spans), sorted) && out == Compact(sorted)
  }

  ghost predicate SortOf(spans: seq<LineSpan>, sorted: seq<LineSpan>) {
    ByStart(sorted) && multiset(sorted) == multiset(spans)
  }

  lemma {:induction false} ValidOnesAre(spans: seq<LineSpan>)
    ensures AllValid(ValidOnes(spans))
    ensures forall s :: s in ValidOnes(spans) <==> s in spans && ValidSpan(s)
  {
    if spans != [] {
      var front, last := spans[..|spans| - 1], spans[|spans| - 1];
      assert front + [last] == spans;
      ValidOnesAre(front);
    }
  }

  lemma {:induction false} SortOfValid(spans: seq<LineSpan>, sorted: seq<LineSpan>)
    requires SortOf(spans, sorted) && AllValid(spans)
    ensures AllValid(sorted) && (forall n :: Covers(sorted, n) <==> Covers(spans, n))
  {
    assert forall s :: s in sorted <==> s in multiset(sorted);
    assert forall s :: s in spans <==> s in multiset(spans);
    forall n ensures Covers(sorted, n) <==> Covers(spans, n) {
      CoversByMember(sorted, n);
      CoversByMember(spans, n);
      hide Covers;
    }
    forall k | 0 <= k < |sorted| ensures ValidSpan(sorted[k]) {
      assert sorted[k] in multiset(sorted);
      assert sorted[k] in spans;
    }
  }

  lemma {:induction false} CoversByMember(spans: seq<LineSpan>, n: int)
    ensures Covers(spans, n) <==> exists s :: s in spans && s.start <= n <= s.end
  {
  }

  /** Line `n` is in one of the valid spans. */
  ghost predicate Shows(spans: seq<LineSpan>, n: int) { Covers(ValidOnes(spans), n) }

  /** No valid span ends at the largest int. */
  ghost predicate BelowTop(spans: seq<LineSpan>) {
    forall k :: 0 <= k < |spans| && ValidSpan(spans[k]) ==> spans[k].end != MAX_INT
  }

  lemma {:induction false} MergesShows(spans: seq<LineSpan>, out: seq<LineSpan>)
    requires Merges(spans, out)
    ensures Stepped(out) && forall n :: Covers(out, n) <==> Shows(spans, n)
  {
    hide Stepped, ByStart, Covers, ValidOnes, Compact, AllValid;
    var sorted: seq<LineSpan> :| SortOf(ValidOnes(spans), sorted) && out == Compact(sorted);
    ValidOnesAre(spans);
    SortOfValid(ValidOnes(spans), sorted);
    CompactFolds(sorted);
  }

  /** The merged spans show exactly the lines that lie, from 1 up, between the ends
      of an input. */
  lemma {:induction false} MergesShowLines(spans: seq<LineSpan>, out: seq<LineSpan>, n: int)
    requires Merges(spans, out)
    ensures Covers(out, n) <==> exists k :: 0 <= k < |spans| && 1 <= spans[k].start <= n <= spans[k].end
  {
    MergesShows(spans, out);
    ValidOnesAre(spans);
    CoversByMember(ValidOnes(spans), n);
    hide Merges, Stepped, Covers, ValidOnes;
    if exists s :: s in ValidOnes(spans) && s.start <= n <= s.end {
      var s :| s in ValidOnes(spans) && s.start <= n <= s.end;
      var k :| 0 <= k < |spans| && spans[k] == s;
    }
    if k :| 0 <= k < |spans| && 1 <= spans[k].start <= n <= spans[k].end {
      assert spans[k] in spans && ValidSpan(spans[k]);
    }
  }

  /* ---- insertion ---- */

  function Inserted(spans: seq<LineSpan>, s: LineSpan): seq<LineSpan> {
    if spans == [] || s.start <= spans[0].start then [s] + spans
    else [spans[0]] + Inserted(spans[1..], s)
  }

  lemma {:induction false} InsertedAll(spans: seq<LineSpan>, s: LineSpan)
    ensures multiset(Inserted(spans, s)) == multiset(spans) + multiset{s}
  {
    if spans != [] && s.start > spans[0].start {
      InsertedAll(spans[1..], s);
      assert spans == [spans[0]] + spans[1..];
    }
  }

  lemma {:induction false} InsertedSorts(spans: seq<LineSpan>, s: LineSpan)
    requires ByStart(spans)
    ensures ByStart(Inserted(spans, s))
  {
    if spans != [] && s.start > spans[0].start {
      InsertedSorts(spans[1..], s);
      InsertedAll(spans[1..], s);
      var rest := Inserted(spans[1..], s);
      hide Inserted;
      forall k | 0 <= k < |rest| ensures spans[0].start <= rest[k].start {
        assert rest[k] in multiset(rest);
        assert rest[k] in spans[1..] || rest[k] == s;
      }
    }
  }

  lemma {:induction false} InsertedSortOf(was: seq<LineSpan>, s: LineSpan, sorted: seq<LineSpan>)
    requires SortOf(was, sorted)
    ensures SortOf(was + [s], Inserted(sorted, s))
  {
    hide Inserted;
    InsertedSorts(sorted, s);
    InsertedAll(sorted, s);
  }

  /* ---- which inputs merge to a canonical list ---- */

  /** A valid span that ends at the largest int starts above every other one. */
  ghost predicate TopStandsAlone(spans: seq<LineSpan>) { TopAlone(ValidOnes(spans)) }

  ghost predicate TopAlone(spans: seq<LineSpan>) {
    forall i, j :: 0 <= i < |spans| && 0 <= j < |spans| && i != j && spans[j].end == MAX_INT
      ==> spans[i].start < spans[j].start
  }

  /** The same of the spans without their order. */
  ghost predicate AloneIn(m: multiset<LineSpan>) {
    forall a, t :: multiset{a} + multiset{t} <= m && t.end == MAX_INT ==> a.start < t.start
  }

  lemma {:induction false} WithoutOne(spans: seq<LineSpan>, k: nat)
    requires k < |spans|
    ensures multiset(spans) == multiset(spans[..k] + spans[k + 1..]) + multiset{spans[k]}
  {
    assert spans == spans[..k] + [spans[k]] + spans[k + 1..];
  }

  /** Two positions hold two of the spans. */
  lemma {:induction false} PairHeld(spans: seq<LineSpan>, i: nat, j: nat)
    requires i < |spans| && j < |spans| && i != j
    ensures multiset{spans[i]} + multiset{spans[j]} <= multiset(spans)
  {
    WithoutOne(spans, j);
    var rest := spans[..j] + spans[j + 1..];
    assert spans[i] == rest[if i < j then i else i - 1];
    assert spans[i] in multiset(rest);
  }

  /** Two of the spans stand at two positions. */
  lemma {:induction false} PairStands(spans: seq<LineSpan>, a: LineSpan, t: LineSpan) returns (i: nat, j: nat)
    requires multiset{a} + multiset{t} <= multiset(spans)
    ensures i < |spans| && j < |spans| && i != j && spans[i] == a && spans[j] == t
  {
    assert t in multiset{a} + multiset{t};
    assert t in multiset(spans);
    j :| 0 <= j < |spans| && spans[j] == t;
    WithoutOne(spans, j);
    var rest := spans[..j] + spans[j + 1..];
    assert (multiset{a} + multiset{t})[a] <= multiset(spans)[a] == multiset(rest)[a] + multiset{t}[a];
    assert a in multiset(rest);
    i :| 0 <= i < |rest| && rest[i] == a;
    if i >= j {
      i := i + 1;
    }
  }

  lemma {:induction false} AloneWhateverOrder(spans: seq<LineSpan>)
    ensures TopAlone(spans) <==> AloneIn(multiset(spans))
  {
    if TopAlone(spans) {
      forall a, t | multiset{a} + multiset{t} <= multiset(spans) && t.end == MAX_INT
        ensures a.start < t.start
      {
        var i, j := PairStands(spans, a, t);
      }
    }
    if AloneIn(multiset(spans)) {
      forall i, j | 0 <= i < |spans| && 0 <= j < |spans| && i != j && spans[j].end == MAX_INT
        ensures spans[i].start < spans[j].start
      {
        PairHeld(spans, i, j);
      }
    }
  }

  lemma {:induction false} AloneHasNoTop(sorted: seq<LineSpan>)
    requires ByStart(sorted) && TopAlone(sorted)
    ensures !Tops(sorted)
  {
    if k :| 0 <= k < |sorted| - 1 && sorted[k].end == MAX_INT {
      assert sorted[k + 1].start < sorted[k].start;
    }
  }

  lemma {:induction false} MergesCanonical(spans: seq<LineSpan>, out: seq<LineSpan>)
    requires Merges(spans, out) && TopStandsAlone(spans)
    ensures Canonical(out)
  {
    var valid := ValidOnes(spans);
    var sorted: seq<LineSpan> :| SortOf(valid, sorted) && out == Compact(sorted);
    ValidOnesAre(spans);
    SortOfValid(valid, sorted);
    AloneWhateverOrder(valid);
    AloneWhateverOrder(sorted);
    hide TopAlone, AloneIn, Compact, Canonical, Covers, ValidOnes, Tops, AllValid;
    if sorted != [] {
      AloneHasNoTop(sorted);
      CompactCanonicalExactlyWhen(sorted);
    } else {
      NothingMerges();
    }
  }

  ghost function Arranged(spans: seq<LineSpan>): seq<LineSpan> {
    if spans == [] then [] else Inserted(Arranged(spans[..|spans| - 1]), spans[|spans| - 1])
  }

  lemma {:induction false} ArrangedSorts(spans: seq<LineSpan>)
    ensures SortOf(spans, Arranged(spans))
  {
    if spans != [] {
      var front, s := spans[..|spans| - 1], spans[|spans| - 1];
      ArrangedSorts(front);
      hide SortOf, Inserted;
      InsertedSortOf(front, s, Arranged(front));
      assert front + [s] == spans;
    }
  }

  /** An insertion stands in front of what starts where it does. */
  lemma {:induction false} InsertedTops(sorted: seq<LineSpan>, t: LineSpan, k: nat)
    requires k < |sorted| && sorted[k].start >= t.start && t.end == MAX_INT
    ensures Tops(Inserted(sorted, t))
  {
    var longer := Inserted(sorted, t);
    if t.start <= sorted[0].start {
      assert longer[0] == t && |longer| == |sorted| + 1;
    } else {
      InsertedTops(sorted[1..], t, k - 1);
      var rest := Inserted(sorted[1..], t);
      hide Inserted;
      var i :| 0 <= i < |rest| - 1 && rest[i].end == MAX_INT;
      assert longer == [sorted[0]] + rest;
      assert longer[i + 1] == rest[i];
    }
  }

  /** An order that puts a span ending at the largest int in front of another. */
  lemma {:induction false} TopInFront(valid: seq<LineSpan>, i: nat, j: nat) returns (sorted: seq<LineSpan>)
    requires i < |valid| && j < |valid| && i != j
    requires valid[j].end == MAX_INT && valid[i].start >= valid[j].start
    ensures SortOf(valid, sorted) && Tops(sorted)
  {
    var t, rest := valid[j], valid[..j] + valid[j + 1..];
    WithoutOne(valid, j);
    assert valid[i] == rest[if i < j then i else i - 1];
    ArrangedSorts(rest);
    hide Arranged, Inserted, Tops;
    var placed := Arranged(rest);
    assert valid[i] in multiset(placed);
    var k :| 0 <= k < |placed| && placed[k] == valid[i];
    sorted := Inserted(placed, t);
    InsertedTops(placed, t, k);
    InsertedSortOf(rest, t, placed);
  }

  /** Every order of the inputs a sort may leave merges to the canonical list
      exactly when a span that ends at the largest int starts above the others. */
  lemma {:induction false} MergesCanonicalExactlyWhen(spans: seq<LineSpan>)
    ensures (forall out :: Merges(spans, out) ==> Canonical(out)) <==> TopStandsAlone(spans)
  {
    var valid := ValidOnes(spans);
    ValidOnesAre(spans);
    hide Canonical, Compact, ValidOnes, Covers, AllValid;
    if TopStandsAlone(spans) {
      forall out | Merges(spans, out) ensures Canonical(out) {
        MergesCanonical(spans, out);
      }
    } else {
      var i, j :| 0 <= i < |valid| && 0 <= j < |valid| && i != j && valid[j].end == MAX_INT
                  && valid[i].start >= valid[j].start;
      var sorted := TopInFront(valid, i, j);
      SortOfValid(valid, sorted);
      assert sorted != [];
      CompactCanonicalExactlyWhen(sorted);
      assert Merges(spans, Compact(sorted));
    }
  }

  lemma {:induction false} BelowTopIsAlone(spans: seq<LineSpan>)
    requires BelowTop(spans)
    ensures TopStandsAlone(spans)
  {
    ValidOnesAre(spans);
    hide ValidOnes;
    forall k | 0 <= k < |ValidOnes(spans)| ensures ValidOnes(spans)[k].end != MAX_INT {
      assert ValidOnes(spans)[k] in ValidOnes(spans);
    }
  }

  /* ---- canonical forms are unique ---- */

  lemma {:induction false} CanonicalTail(a: seq<LineSpan>)
    requires Canonical(a) && a != []
    ensures Canonical(a[1..])
    ensures forall n :: Covers(a[1..], n) <==> Covers(a, n) && n > a[0].end
    ensures Covers(a, a[0].start) && (forall n :: Covers(a, n) ==> n >= a[0].start)
    ensures forall n :: a[0].start <= n <= a[0].end ==> Covers(a, n)
    ensures !Covers(a, a[0].end + 1)
  {
    forall n ensures Covers(a[1..], n) <==> Covers(a, n) && n > a[0].end {
      if Covers(a[1..], n) {
        var k :| 0 <= k < |a[1..]| && a[1..][k].start <= n <= a[1..][k].end;
        assert a[k + 1] == a[1..][k];
      }
      if Covers(a, n) && n > a[0].end {
        var k :| 0 <= k < |a| && a[k].start <= n <= a[k].end;
        assert a[1..][k - 1] == a[k];
      }
    }
    assert a[0].start <= a[0].start <= a[0].end;
  }

  /** Two canonical lists of spans showing the same lines are the same list. */
  lemma {:induction false} CanonicalUnique(a: seq<LineSpan>, b: seq<LineSpan>)
    requires Canonical(a) && Canonical(b)
    requires forall n :: Covers(a, n) <==> Covers(b, n)
    ensures a == b
  {
    if a == [] && b == [] {
    } else if a == [] {
      CanonicalTail(b);
      assert false;
    } else if b == [] {
      CanonicalTail(a);
      assert false;
    } else {
      CanonicalTail(a);
      CanonicalTail(b);
      SameFirst(a, b);
      hide Canonical, Covers;
      CanonicalUnique(a[1..], b[1..]);
      assert a == [a[0]] + a[1..] && b == [b[0]] + b[1..];
    }
  }

  lemma {:induction false} SameFirst(a: seq<LineSpan>, b: seq<LineSpan>)
    requires Canonical(a) && Canonical(b) && a != [] && b != []
    requires forall n :: Covers(a, n) <==> Covers(b, n)
    ensures a[0] == b[0]
  {
    CanonicalTail(a);
    CanonicalTail(b);
    assert ValidSpan(a[0]) && ValidSpan(b[0]);
    hide Canonical, Covers;
    assert Covers(b, a[0].start) && Covers(a, b[0].start);
    assert a[0].start == b[0].start;
    var x, y := a[0].end + 1, b[0].end + 1;
    assert !Covers(b, x) && !Covers(a, y);
  }

  /** Where every order merges to a canonical list a merge has one answer: it
      depends only on the lines its inputs show. */
  lemma {:induction false} MergeDependsOnLines(x: seq<LineSpan>, out: seq<LineSpan>, y: seq<LineSpan>,
      out': seq<LineSpan>)
    requires Merges(x, out) && Merges(y, out') && TopStandsAlone(x) && TopStandsAlone(y)
    requires forall n :: Shows(x, n) <==> Shows(y, n)
    ensures out == out'
  {
    hide Merges, Canonical, Covers, Stepped, Shows, TopStandsAlone;
    MergesShows(x, out);
    MergesShows(y, out');
    MergesCanonical(x, out);
    MergesCanonical(y, out');
    CanonicalUnique(out, out');
  }

  lemma {:induction false} CanonicalShows(spans: seq<LineSpan>)
    requires AllValid(spans)
    ensures forall n :: Shows(spans, n) <==> Covers(spans, n)
  {
    ValidOnesAre(spans);
    forall n ensures Shows(spans, n) <==> Covers(spans, n) {
      CoversByMember(ValidOnes(spans), n);
      CoversByMember(spans, n);
      hide Covers;
    }
  }

  lemma {:induction false} AllValidKept(spans: seq<LineSpan>)
    requires AllValid(spans)
    ensures ValidOnes(spans) == spans
  {
    if spans != [] {
      var front, last := spans[..|spans| - 1], spans[|spans| - 1];
      AllValidKept(front);
      assert front + [last] == spans;
    }
  }

  lemma {:induction false} CanonicalIsAlone(spans: seq<LineSpan>)
    requires Canonical(spans)
    ensures TopStandsAlone(spans)
  {
    AllValidKept(spans);
    hide ValidOnes;
    forall i, j | 0 <= i < |spans| && 0 <= j < |spans| && i != j && spans[j].end == MAX_INT
      ensures spans[i].start < spans[j].start
    {
      assert ValidSpan(spans[i]);
    }
  }

  /** Merging a canonical list leaves it as it is. */
  lemma {:induction false} MergeIdempotent(spans: seq<LineSpan>, out: seq<LineSpan>)
    requires Canonical(spans) && Merges(spans, out)
    ensures out == spans
  {
    hide Merges, Covers, Stepped, Shows, TopStandsAlone;
    CanonicalIsAlone(spans);
    MergesShows(spans, out);
    MergesCanonical(spans, out);
    CanonicalShows(spans);
    hide Canonical;
    CanonicalUnique(out, spans);
  }

  lemma {:induction false} ShowsAppend(x: seq<LineSpan>, y: seq<LineSpan>, n: int)
    ensures Shows(x + y, n) <==> Shows(x, n) || Shows(y, n)
    ensures BelowTop(x + y) <==> BelowTop(x) && BelowTop(y)
  {
    ValidOnesAre(x);
    ValidOnesAre(y);
    ValidOnesAre(x + y);
    CoversByMember(ValidOnes(x + y), n);
    CoversByMember(ValidOnes(x), n);
    CoversByMember(ValidOnes(y), n);
    hide Covers, ValidOnes;
    assert forall k :: 0 <= k < |x| ==> (x + y)[k] == x[k];
    assert forall k :: 0 <= k < |y| ==> (x + y)[|x| + k] == y[k];
  }

  /* ---- coverage questions ---- */

  ghost predicate CoversSpan(spans: seq<LineSpan>, start: int, end: int) {
    1 <= start <= end && exists k :: 0 <= k < |spans| && spans[k].start <= start && end <= spans[k].end
  }

  /** The first span, by position, that holds line `n`. */
  lemma {:induction false} FirstCovering(spans: seq<LineSpan>, n: int, i: nat) returns (k: nat)
    requires i <= |spans| && Covers(spans, n)
    requires forall j :: 0 <= j < i ==> !(spans[j].start <= n <= spans[j].end)
    ensures k < |spans| && spans[k].start <= n <= spans[k].end
    ensures forall j :: 0 <= j < k ==> !(spans[j].start <= n <= spans[j].end)
    decreases |spans| - i
  {
    if i < |spans| && spans[i].start <= n <= spans[i].end {
      k := i;
    } else {
      k := FirstCovering(spans, n, i + 1);
    }
  }

  lemma {:induction false} GapAfter(spans: seq<LineSpan>, start: int, k: nat)
    requires Stepped(spans) && k < |spans| && spans[k].start <= start <= spans[k].end < MAX_INT
    requires forall j :: 0 <= j < k ==> !(spans[j].start <= start <= spans[j].end)
    ensures !Covers(spans, spans[k].end + 1)
  {
    forall j | 0 <= j < |spans|
      ensures !(spans[j].start <= spans[k].end + 1 <= spans[j].end)
    {
      if j < k {
        assert spans[j].start <= spans[k].start;
      }
    }
  }

  /** A span is covered exactly when every line of it is, even where the merge
      is not canonical. */
  lemma {:induction false} CoversSpanIsEveryLine(spans: seq<LineSpan>, start: int, end: Int)
    requires Stepped(spans)
    ensures CoversSpan(spans, start, end) <==> 1 <= start <= end && forall n :: start <= n <= end ==> Covers(spans, n)
  {
    if 1 <= start <= end && forall n :: start <= n <= end ==> Covers(spans, n) {
      var k := FirstCovering(spans, start, 0);
      var e := spans[k].end;
      if e < MAX_INT {
        GapAfter(spans, start, k);
        assert !Covers(spans, e + 1);
      }
      assert end <= e;
    }
  }

  /** After a union, a span is covered exactly when each of its lines is shown
      by one of the two ranges united. */
  lemma {:induction false} UnionCoversEveryLine(x: seq<LineSpan>, y: seq<LineSpan>, out: seq<LineSpan>, start: int,
      end: Int)
    requires Merges(x + y, out)
    ensures CoversSpan(out, start, end) <==>
            1 <= start <= end && forall n :: start <= n <= end ==> Shows(x, n) || Shows(y, n)
  {
    hide Merges, Covers, Stepped, Shows, CoversSpan;
    MergesShows(x + y, out);
    CoversSpanIsEveryLine(out, start, end);
    forall n ensures Shows(x + y, n) <==> Shows(x, n) || Shows(y, n) {
      ShowsAppend(x, y, n);
    }
  }

  lemma {:induction false} ValidOnesAppend(x: seq<LineSpan>, y: seq<LineSpan>)
    ensures ValidOnes(x + y) == ValidOnes(x) + ValidOnes(y)
  {
    if y == [] {
      assert x + y == x;
    } else {
      var front := y[..|y| - 1];
      assert (x + y)[..|x + y| - 1] == x + front;
      ValidOnesAppend(x, front);
    }
  }

  /** A canonical list that reaches the largest int is not left alone by a union
      with itself: its last span is kept twice. */
  lemma {:induction false} DoubledIsAlone(x: seq<LineSpan>)
    requires AllValid(x)
    ensures TopStandsAlone(x + x) <==> BelowTop(x)
  {
    AllValidKept(x);
    ValidOnesAppend(x, x);
    hide ValidOnes;
    var xx := x + x;
    if TopStandsAlone(xx) {
      forall k | 0 <= k < |x| ensures x[k].end != MAX_INT {
        assert xx[k] == x[k] && xx[|x| + k] == x[k];
      }
    } else {
      var i, j :| 0 <= i < |xx| && 0 <= j < |xx| && i != j && xx[j].end == MAX_INT && xx[i].start >= xx[j].start;
      var k := if j < |x| then j else j - |x|;
      assert xx[j] == x[k] && ValidSpan(x[k]);
    }
  }

  /** Uniting a canonical list with itself leaves it as it is exactly when it
      stays below the largest int. */
  lemma {:induction false} UnionIdempotent(x: seq<LineSpan>)
    requires Canonical(x)
    ensures (forall out :: Merges(x + x, out) ==> out == x) <==> BelowTop(x)
  {
    DoubledIsAlone(x);
    MergesCanonicalExactlyWhen(x + x);
    hide Merges, Shows, BelowTop, Covers, Stepped, TopStandsAlone;
    forall out | Merges(x + x, out) && Canonical(out) ensures out == x {
      UnitedWithItself(x, out);
    }
    hide Canonical;
  }

  lemma {:induction false} UnitedWithItself(x: seq<LineSpan>, out: seq<LineSpan>)
    requires Canonical(x) && Merges(x + x, out) && Canonical(out)
    ensures out == x
  {
    CanonicalShows(x);
    hide Merges, Shows, Covers, Stepped, Canonical;
    MergesShows(x + x, out);
    forall n ensures Covers(out, n) <==> Covers(x, n) {
      ShowsAppend(x, x, n);
    }
    CanonicalUnique(out, x);
  }

  /* ---- the loops ---- */

  method Sorted(spans: seq<LineSpan>) returns (sorted: seq<LineSpan>)
    ensures SortOf(spans, sorted)
  {
    sorted := [];
    for i := 0 to |spans|
      invariant SortOf(spans[..i], sorted)
    {
      hide ByStart, SortOf, Inserted;
      assert spans[..i + 1] == spans[..i] + [spans[i]];
      InsertedSortOf(spans[..i], spans[i], sorted);
      sorted := Inserted(sorted, spans[i]);
    }
    assert spans[..|spans|] == spans;
  }

  /** Stands for sort.Slice on start: any sorted rearrangement would do. */
  method SortByStart(a: array<LineSpan>)
    modifies a
    ensures SortOf(old(a[..]), a[..])
  {
    var sorted := Sorted(a[..]);
    SameLength(a[..], sorted);
    hide SortOf;
    for i := 0 to a.Length
      invariant forall k :: 0 <= k < i ==> a[k] == sorted[k]
    {
      a[i] := sorted[i];
    }
    assert a[..] == sorted;
  }

  lemma {:induction false} SameLength(was: seq<LineSpan>, sorted: seq<LineSpan>)
    requires SortOf(was, sorted)
    ensures |sorted| == |was|
  {
    assert |multiset(sorted)| == |sorted| && |multiset(was)| == |was|;
  }

  /** Folds one span into the first `w` elements of the array. */
  method FoldInto(kept: array<LineSpan>, w: nat, s: LineSpan, ghost out: seq<LineSpan>) returns (w': nat)
    requires 1 <= w < kept.Length && |out| == w
    requires forall k :: 0 <= k < w ==> kept[k] == out[k]
    modifies kept
    ensures w' == |Fold(out, s)| && w <= w' <= w + 1
    ensures forall k :: 0 <= k < w' ==> kept[k] == Fold(out, s)[k]
    ensures forall k :: w < k < kept.Length ==> kept[k] == old(kept[k])
  {
    w' := w;
    var last := kept[w - 1];
    if s.start <= Wrap(last.end + 1) {
      if s.end > last.end {
        kept[w - 1] := last.(end := s.end);
      }
    } else {
      kept[w] := s;
      w' := w + 1;
    }
  }

  /** Folds the sorted spans in place, writing the merged ones over the front of
      the array while the rest of it is still being read. */
  method CompactInPlace(kept: array<LineSpan>) returns (w: nat)
    requires kept.Length > 0
    modifies kept
    ensures w <= kept.Length && kept[..w] == Compact(old(kept[..]))
  {
    ghost var was := kept[..];
    w := 1;
    CompactSnoc([], was[0]);
    assert [] + [was[0]] == [was[0]] == was[..1];
    ghost var out := [was[0]];
    for i := 1 to kept.Length
      invariant 1 <= w <= i && |out| == w && out == Compact(was[..i])
      invariant forall k :: 0 <= k < w ==> kept[k] == out[k]
      invariant forall k :: i <= k < kept.Length ==> kept[k] == was[k]
    {
      hide Compact, Fold;
      var s := kept[i];
      assert was[..i + 1] == was[..i] + [s];
      CompactSnoc(was[..i], s);
      w := FoldInto(kept, w, s, out);
      out := Fold(out, s);
    }
    assert was[..kept.Length] == was;
    assert kept[..w] == out;
  }

  method MergeLineSpans(spans: seq<LineSpan>) returns (out: seq<LineSpan>)
    ensures Merges(spans, out)
  {
    var valid := [];
    for i := 0 to |spans|
      invariant valid == ValidOnes(spans[..i])
    {
      assert spans[..i + 1][..i] == spans[..i];
      if spans[i].start >= 1 && spans[i].end >= spans[i].start {
        valid := valid + [spans[i]];
      }
    }
    assert spans[..|spans|] == spans;
    ValidOnesAre(spans);
    hide ValidOnes, Compact, ByStart, AllValid;
    if |valid| == 0 {
      NothingMerges();
      return [];
    }
    var kept := new LineSpan[|valid|](i requires 0 <= i < |valid| => valid[i]);
    assert kept[..] == valid;
    SortByStart(kept);
    ghost var sorted := kept[..];
    SortOfValid(valid, sorted);
    var w := CompactInPlace(kept);
    out := kept[..w];
  }

  lemma {:induction false} NothingMerges()
    ensures SortOf([], []) && Compact([]) == []
  {
  }

  method CoversSpanLoop(spans: seq<LineSpan>, start: Int, end: Int) returns (r: bool)
    ensures r == CoversSpan(spans, start, end)
  {
    if start < 1 || end < start {
      return false;
    }
    for i := 0 to |spans|
      invariant forall k :: 0 <= k < i ==> !(spans[k].start <= start && end <= spans[k].end)
    {
      if spans[i].start <= start && end <= spans[i].end {
        return true;
      }
    }
    return false;
  }

  /** The spans a reviewer was shown, by side. */
  datatype SuppliedRanges = SuppliedRanges(base: seq<LineSpan>, head: seq<LineSpan>)

  method Union(r: SuppliedRanges, o: SuppliedRanges) returns (u: SuppliedRanges)
    ensures Merges(r.base + o.base, u.base) && Merges(r.head + o.head, u.head)
  {
    var base := MergeLineSpans(r.base + o.base);
    var head := MergeLineSpans(r.head + o.head);
    u := SuppliedRanges(base, head);
  }
}
