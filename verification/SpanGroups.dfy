/**
 Which lines let unions of spans be regrouped, and what every grouping begins
 with.
 */
module SpanGroups {
  import opened Text
  import opened Spans
  import opened SpanOrders

  /* ---- what every merge begins with ---- */

  /** The first `k` spans are the canonical list of every line shown. */
  ghost predicate Begins(out: seq<LineSpan>, spans: seq<LineSpan>, k: nat) {
    && k <= |out| && Canonical(out[..k]) && (forall n :: Covers(out[..k], n) <==> Covers(spans, n))
    && (k < |out| ==> k > 0 && out[k - 1].end == MAX_INT)
  }

  lemma {:induction false} BeginsOne(s: LineSpan)
    requires ValidSpan(s)
    ensures Begins([s], [s], 1)
  {
    assert [s][..1] == [s];
  }

  lemma {:induction false} AppendedBegins(out: seq<LineSpan>, spans: seq<LineSpan>, s: LineSpan, k: nat)
    requires Begins(out, spans, k) && 0 < k && out[k - 1].end == MAX_INT && out[k - 1].start <= s.start
    ensures Begins(out + [s], spans + [s], k)
  {
    assert (out + [s])[..k] == out[..k] && out[..k][k - 1] == out[k - 1];
    forall n ensures Covers(spans + [s], n) <==> Covers(out[..k], n) {
      CoversSnoc(spans, s, n);
    }
    hide Covers, Canonical;
  }

  /** Past a span that ends at the largest int the canonical part stays as it is. */
  lemma {:induction false} LaterFoldBegins(out: seq<LineSpan>, spans: seq<LineSpan>, s: LineSpan, k: nat)
    requires Begins(out, spans, k) && k < |out| && out[k - 1].start <= s.start && ValidSpan(s)
    ensures Begins(Fold(out, s), spans + [s], k)
  {
    var front, last := out[..|out| - 1], out[|out| - 1];
    assert front + [last] == out;
    FoldIs(front, last, s);
    AppendedBegins(out, spans, s, k);
    var next := Fold(out, s);
    hide Fold, Covers, Canonical;
    assert next[..k] == out[..k] == (out + [s])[..k];
    assert next[k - 1] == out[k - 1];
  }

  lemma {:induction false} FoldBegins(out: seq<LineSpan>, spans: seq<LineSpan>, s: LineSpan)
    requires Begins(out, spans, |out|) && out != [] && ValidSpan(s) && out[|out| - 1].start <= s.start
    ensures Begins(Fold(out, s), spans + [s], if out[|out| - 1].end == MAX_INT then |out| else |Fold(out, s)|)
  {
    var front, last := out[..|out| - 1], out[|out| - 1];
    assert front + [last] == out && out[..|out|] == out;
    FoldIs(front, last, s);
    hide Fold, Canonical;
    if last.end == MAX_INT {
      AppendedBegins(out, spans, s, |out|);
    } else {
      forall n ensures Covers(Fold(out, s), n) <==> Covers(spans + [s], n) {
        FoldedCovers(spans, front, last, s, n);
      }
      GrownCanonical(front, last, s);
      assert Fold(out, s)[..|Fold(out, s)|] == Fold(out, s);
    }
  }

  lemma {:induction false} GrownCanonical(front: seq<LineSpan>, last: LineSpan, s: LineSpan)
    requires Canonical(front + [last]) && ValidSpan(s) && last.end != MAX_INT && last.start <= s.start
    ensures ValidSpan(last) && Canonical(Fold(front + [last], s))
  {
    assert (front + [last])[|front|] == last;
    FoldIs(front, last, s);
    hide Fold, Canonical;
    if s.start <= last.end + 1 {
      if s.end > last.end {
        CanonicalGrow(front, last, s.end);
      }
    } else {
      CanonicalMore(front + [last], s);
    }
  }

  lemma {:induction false} NothingBegins()
    ensures Begins(Compact([]), [], 0)
  {
    assert Compact([])[..0] == [];
  }

  lemma {:induction false} SortedFront(front: seq<LineSpan>, s: LineSpan)
    requires AllValid(front + [s]) && ByStart(front + [s])
    ensures AllValid(front) && ByStart(front) && ValidSpan(s)
  {
    var all := front + [s];
    assert all[|front|] == s && forall j :: 0 <= j < |front| ==> all[j] == front[j];
  }

  lemma {:induction false} CompactBegins(sorted: seq<LineSpan>) returns (k: nat)
    requires AllValid(sorted) && ByStart(sorted)
    ensures Begins(Compact(sorted), sorted, k)
  {
    hide *;
    if sorted == [] {
      NothingBegins();
      k := 0;
    } else {
      var front, s := sorted[..|sorted| - 1], sorted[|sorted| - 1];
      assert front + [s] == sorted;
      SortedFront(front, s);
      CompactSnoc(front, s);
      if front == [] {
        assert [] + [s] == [s];
        CompactSnoc([], s);
        FoldNone(s);
        BeginsOne(s);
        k := 1;
      } else {
        CompactFolds(front);
        StepsAbove(front, Compact(front), s);
        k := CompactBegins(front);
        k := BeginsOnto(front, Compact(front), s, k);
      }
    }
  }

  lemma {:induction false} StepsAbove(front: seq<LineSpan>, out: seq<LineSpan>, s: LineSpan)
    requires front != [] && ByStart(front + [s]) && Folded(front, out)
    ensures out != [] && forall j :: 0 <= j < |out| ==> out[j].start <= s.start
  {
    assert (front + [s])[|front| - 1] == front[|front| - 1] && (front + [s])[|front|] == s;
    hide Covers;
  }

  lemma {:induction false} BeginsOnto(front: seq<LineSpan>, out: seq<LineSpan>, s: LineSpan, k: nat) returns (k': nat)
    requires Begins(out, front, k) && out != [] && ValidSpan(s) && forall j :: 0 <= j < |out| ==> out[j].start <= s.start
    ensures Begins(Fold(out, s), front + [s], k')
  {
    if k < |out| {
      LaterFoldBegins(out, front, s, k);
      k' := k;
    } else {
      FoldBegins(out, front, s);
      k' := if out[|out| - 1].end == MAX_INT then |out| else |Fold(out, s)|;
    }
  }

  /** Wrapped or not, a merge begins with the canonical list of every line shown;
      what follows it, if anything, lies in its last span, which then ends at the
      largest int. */
  lemma {:induction false} MergeBeginsCanonical(spans: seq<LineSpan>, out: seq<LineSpan>) returns (k: nat)
    requires Merges(spans, out)
    ensures k <= |out| && Canonical(out[..k]) && forall n :: Covers(out[..k], n) <==> Shows(spans, n)
    ensures forall j :: k <= j < |out| ==> k > 0 && out[k - 1].start <= out[j].start <= out[j].end <= out[k - 1].end == MAX_INT
  {
    hide Compact, ByStart, Covers, ValidOnes, Canonical;
    var valid := ValidOnes(spans);
    var sorted: seq<LineSpan> :| SortOf(valid, sorted) && out == Compact(sorted);
    ValidOnesAre(spans);
    SortOfValid(valid, sorted);
    CompactFolds(sorted);
    k := CompactBegins(sorted);
    InOrder(out, k);
  }

  lemma {:induction false} InOrder(out: seq<LineSpan>, k: nat)
    requires Stepped(out)
    ensures forall j :: 0 < k <= j < |out| ==> out[k - 1].start <= out[j].start <= out[j].end
  {
  }

  /* ---- regrouping ---- */

  /** Both ways of uniting three operands give the same answer, whatever the sorts
      leave open. */
  ghost predicate Associates(x: seq<LineSpan>, y: seq<LineSpan>, z: seq<LineSpan>) {
    forall xy, yz, left, right ::
      Merges(x + y, xy) && Merges(xy + z, left) && Merges(y + z, yz) && Merges(x + yz, right) ==> left == right
  }

  /** The two largest lines are both shown. */
  ghost predicate ShowsTop(spans: seq<LineSpan>) { Shows(spans, MAX_INT - 1) && Shows(spans, MAX_INT) }

  /** A merge shows the lines of its inputs and stays below the top with them. */
  lemma {:induction false} MergeKeepsLines(x: seq<LineSpan>, out: seq<LineSpan>)
    requires Merges(x, out) && BelowTop(x)
    ensures BelowTop(out) && forall n :: Shows(out, n) <==> Shows(x, n)
  {
    hide Merges, Shows;
    MergesShows(x, out);
    CanonicalShows(out);
    forall k | 0 <= k < |out| && ValidSpan(out[k]) ensures out[k].end != MAX_INT {
      assert Covers(out, out[k].end);
      hide Covers, Stepped, BelowTop;
      if out[k].end == MAX_INT {
        TopShown(x);
      }
    }
  }

  lemma {:induction false} TopShown(x: seq<LineSpan>)
    requires BelowTop(x)
    ensures !Shows(x, MAX_INT)
  {
    ValidOnesAre(x);
    CoversByMember(ValidOnes(x), MAX_INT);
    hide Covers, ValidOnes;
  }

  lemma {:induction false} NotShownIsBelow(x: seq<LineSpan>)
    requires !Shows(x, MAX_INT)
    ensures BelowTop(x)
  {
    ValidOnesAre(x);
    CoversByMember(ValidOnes(x), MAX_INT);
    hide Covers, ValidOnes;
    forall k | 0 <= k < |x| && ValidSpan(x[k]) ensures x[k].end != MAX_INT {
      assert x[k] in x;
    }
  }

  lemma {:induction false} AssociatesBelow(x: seq<LineSpan>, y: seq<LineSpan>, z: seq<LineSpan>,
                                           xy: seq<LineSpan>, yz: seq<LineSpan>, left: seq<LineSpan>, right: seq<LineSpan>)
    requires Merges(x + y, xy) && Merges(xy + z, left)
    requires Merges(y + z, yz) && Merges(x + yz, right)
    requires BelowTop(x) && BelowTop(y) && BelowTop(z)
    ensures left == right
  {
    hide Merges, Shows, BelowTop, TopStandsAlone;
    ShowsAppend(x, y, 0);
    ShowsAppend(y, z, 0);
    MergeKeepsLines(x + y, xy);
    MergeKeepsLines(y + z, yz);
    ShowsAppend(xy, z, 0);
    ShowsAppend(x, yz, 0);
    BelowTopIsAlone(xy + z);
    BelowTopIsAlone(x + yz);
    forall n ensures Shows(xy + z, n) <==> Shows(x + yz, n) {
      ShowsAppend(x, y, n);
      ShowsAppend(y, z, n);
      ShowsAppend(xy, z, n);
      ShowsAppend(x, yz, n);
    }
    MergeDependsOnLines(xy + z, left, x + yz, right);
  }


  /* ---- regrouping where only the largest line is shown apart ---- */

  const TOP := LineSpan(MAX_INT, MAX_INT)

  function Copies(n: nat): seq<LineSpan> { seq(n, _ => TOP) }

  lemma {:induction false} CopiesSnoc(n: nat)
    ensures Copies(n + 1) == Copies(n) + [TOP] && Copies(0) == []
    ensures multiset(Copies(n))[TOP] == n
  {
    if n > 0 {
      CopiesSnoc(n - 1);
    }
  }

  ghost predicate Low(spans: seq<LineSpan>) { forall s :: s in spans ==> s.end < MAX_INT - 1 }

  lemma {:induction false} LowHasNoTop(low: seq<LineSpan>)
    requires Low(low)
    ensures TOP !in low && !Tops(low)
  {
  }

  lemma {:induction false} GapIsLow(sorted: seq<LineSpan>)
    requires AllValid(sorted) && ByStart(sorted) && !Covers(sorted, MAX_INT - 1)
    requires sorted != [] ==> sorted[|sorted| - 1] != TOP
    ensures Low(sorted)
  {
    forall s | s in sorted ensures s.end < MAX_INT - 1 {
      var i :| 0 <= i < |sorted| && sorted[i] == s;
      var last := sorted[|sorted| - 1];
      assert ValidSpan(s) && ValidSpan(last) && s.start <= last.start;
      assert !(s.start <= MAX_INT - 1 <= s.end);
    }
  }

  lemma {:induction false} LowCompact(sorted: seq<LineSpan>)
    requires AllValid(sorted) && ByStart(sorted) && Low(sorted)
    ensures Canonical(Compact(sorted)) && Low(Compact(sorted))
  {
    CompactFolds(sorted);
    LowHasNoTop(sorted);
    if sorted == [] {
      NothingMerges();
    } else {
      CompactCanonicalExactlyWhen(sorted);
      var out := Compact(sorted);
      hide Compact, Tops, ByStart, Canonical;
      forall s | s in out ensures s.end < MAX_INT - 1 {
        var i :| 0 <= i < |out| && out[i] == s;
        assert ValidSpan(s);
        assert Covers(out, s.end);
        var j :| 0 <= j < |sorted| && sorted[j].start <= s.end <= sorted[j].end;
      }
    }
  }

  lemma {:induction false} TopOnto(low: seq<LineSpan>, k: nat)
    requires Low(low)
    ensures Fold(low + Copies(k), TOP) == low + Copies(k + 1)
  {
    hide Fold, Copies, Low;
    CopiesSnoc(k);
    if k > 0 {
      CopiesSnoc(k - 1);
      FoldIs(low + Copies(k - 1), TOP, TOP);
      assert low + Copies(k - 1) + [TOP] == low + Copies(k);
      assert low + Copies(k) + [TOP] == low + Copies(k + 1);
    } else {
      assert low + Copies(0) == low;
      assert [] + [TOP] == [TOP];
      if low == [] {
        FoldNone(TOP);
      } else {
        LowLast(low);
        assert low[..|low| - 1] + [low[|low| - 1]] == low;
        FoldIs(low[..|low| - 1], low[|low| - 1], TOP);
      }
    }
  }

  lemma {:induction false} LowLast(low: seq<LineSpan>)
    requires Low(low) && low != []
    ensures low[|low| - 1].end < MAX_INT - 1
  {
  }

  /** With the line below the largest not shown, a merge is a canonical list below
      it and every span of the largest line alone, each kept. */
  lemma {:induction false} CompactCopies(sorted: seq<LineSpan>) returns (low: seq<LineSpan>, k: nat)
    requires AllValid(sorted) && ByStart(sorted) && !Covers(sorted, MAX_INT - 1)
    ensures Compact(sorted) == low + Copies(k) && Canonical(low) && Low(low) && k == multiset(sorted)[TOP]
  {
    if sorted != [] && sorted[|sorted| - 1] == TOP {
      var front := sorted[..|sorted| - 1];
      assert front + [TOP] == sorted;
      assert !Covers(front, MAX_INT - 1) by { CoversSnoc(front, TOP, MAX_INT - 1); }
      assert AllValid(front) && ByStart(front);
      hide *;
      low, k := CompactCopies(front);
      CompactSnoc(front, TOP);
      TopOnto(low, k);
      assert multiset(front + [TOP])[TOP] == multiset(front)[TOP] + 1;
      k := k + 1;
    } else {
      hide Compact, Covers, Canonical;
      GapIsLow(sorted);
      LowCompact(sorted);
      LowHasNoTop(sorted);
      CopiesSnoc(0);
      low, k := Compact(sorted), 0;
      assert low + [] == low;
    }
  }

  lemma {:induction false} MergesCopies(spans: seq<LineSpan>, out: seq<LineSpan>) returns (low: seq<LineSpan>, k: nat)
    requires Merges(spans, out) && !Shows(spans, MAX_INT - 1)
    ensures out == low + Copies(k) && Canonical(low) && Low(low) && k == multiset(ValidOnes(spans))[TOP]
  {
    hide Compact, ByStart, Covers, ValidOnes, Canonical, Copies, Low;
    var sorted: seq<LineSpan> :| SortOf(ValidOnes(spans), sorted) && out == Compact(sorted);
    ValidOnesAre(spans);
    SortOfValid(ValidOnes(spans), sorted);
    low, k := CompactCopies(sorted);
  }

  lemma {:induction false} LowShows(low: seq<LineSpan>, k: nat, n: int)
    requires Low(low)
    ensures Covers(low, n) <==> Covers(low + Copies(k), n) && n < MAX_INT - 1
  {
    var out := low + Copies(k);
    if Covers(low, n) {
      var i :| 0 <= i < |low| && low[i].start <= n <= low[i].end;
      assert out[i] == low[i];
    }
    if Covers(out, n) && n < MAX_INT - 1 {
      var i :| 0 <= i < |out| && out[i].start <= n <= out[i].end;
      assert out[i] == low[i];
    }
  }

  /** There a merge depends only on the lines shown and on how often the largest
      line stands alone. */
  lemma {:induction false} SameNearTop(x: seq<LineSpan>, out: seq<LineSpan>, y: seq<LineSpan>, out': seq<LineSpan>)
    requires Merges(x, out) && Merges(y, out') && !Shows(x, MAX_INT - 1)
    requires forall n :: Shows(x, n) <==> Shows(y, n)
    requires multiset(ValidOnes(x))[TOP] == multiset(ValidOnes(y))[TOP]
    ensures out == out'
  {
    hide Merges, Shows, Covers, Canonical, Low, Copies, ValidOnes, Stepped;
    var low, k := MergesCopies(x, out);
    var low', k' := MergesCopies(y, out');
    MergesShows(x, out);
    MergesShows(y, out');
    forall n ensures Covers(low, n) <==> Covers(low', n) {
      LowShows(low, k, n);
      LowShows(low', k', n);
    }
    CanonicalUnique(low, low');
  }

  /** And keeps both. */
  lemma {:induction false} MergeKeepsTop(x: seq<LineSpan>, out: seq<LineSpan>)
    requires Merges(x, out) && !Shows(x, MAX_INT - 1)
    ensures multiset(ValidOnes(out))[TOP] == multiset(ValidOnes(x))[TOP]
  {
    hide Merges, Shows, Covers, Canonical, ValidOnes, ByStart;
    var low, k := MergesCopies(x, out);
    MergesShows(x, out);
    AllValidKept(out);
    LowHasNoTop(low);
    CopiesSnoc(k);
    hide Copies, Low, Tops;
    assert multiset(out)[TOP] == multiset(low)[TOP] + multiset(Copies(k))[TOP];
  }

  lemma {:induction false} MergeShowsSame(x: seq<LineSpan>, out: seq<LineSpan>)
    requires Merges(x, out)
    ensures forall n :: Shows(out, n) <==> Shows(x, n)
  {
    hide Merges, Shows;
    MergesShows(x, out);
    CanonicalShows(out);
  }

  lemma {:induction false} TopsAppend(x: seq<LineSpan>, y: seq<LineSpan>)
    ensures multiset(ValidOnes(x + y))[TOP] == multiset(ValidOnes(x))[TOP] + multiset(ValidOnes(y))[TOP]
  {
    ValidOnesAppend(x, y);
    hide ValidOnes;
  }

  lemma {:induction false} GroupedShows(x: seq<LineSpan>, y: seq<LineSpan>, z: seq<LineSpan>, xy: seq<LineSpan>, yz: seq<LineSpan>)
    requires Merges(x + y, xy) && Merges(y + z, yz)
    ensures forall n :: (Shows(xy + z, n) <==> Shows(x + y + z, n)) && (Shows(x + yz, n) <==> Shows(x + y + z, n))
  {
    hide Merges, Shows, BelowTop;
    MergeShowsSame(x + y, xy);
    MergeShowsSame(y + z, yz);
    forall n ensures (Shows(xy + z, n) <==> Shows(x + y + z, n)) && (Shows(x + yz, n) <==> Shows(x + y + z, n)) {
      ShowsAppend(xy, z, n);
      ShowsAppend(x, yz, n);
      ShowsAppend(x, y, n);
      ShowsAppend(y, z, n);
      ShowsAppend(x + y, z, n);
    }
  }

  lemma {:induction false} AssociatesNearTop(x: seq<LineSpan>, y: seq<LineSpan>, z: seq<LineSpan>,
                                             xy: seq<LineSpan>, yz: seq<LineSpan>, left: seq<LineSpan>, right: seq<LineSpan>)
    requires Merges(x + y, xy) && Merges(xy + z, left)
    requires Merges(y + z, yz) && Merges(x + yz, right)
    requires !Shows(x + y + z, MAX_INT - 1)
    ensures left == right
  {
    hide Merges, Shows, ValidOnes, BelowTop;
    GroupedShows(x, y, z, xy, yz);
    ShowsAppend(x + y, z, MAX_INT - 1);
    ShowsAppend(x, y, MAX_INT - 1);
    ShowsAppend(y, z, MAX_INT - 1);
    MergeKeepsTop(x + y, xy);
    MergeKeepsTop(y + z, yz);
    TopsAppend(xy, z);
    TopsAppend(x, yz);
    TopsAppend(x, y);
    TopsAppend(y, z);
    SameNearTop(xy + z, left, x + yz, right);
  }

  /** Unions regroup freely unless both of the two largest lines are shown. */
  lemma {:induction false} UnionAssociates(x: seq<LineSpan>, y: seq<LineSpan>, z: seq<LineSpan>)
    requires !ShowsTop(x + y + z)
    ensures Associates(x, y, z)
  {
    hide Merges, Shows, BelowTop;
    forall xy, yz, left, right | Merges(x + y, xy) && Merges(xy + z, left) && Merges(y + z, yz) && Merges(x + yz, right)
      ensures left == right
    {
      if Shows(x + y + z, MAX_INT) {
        AssociatesNearTop(x, y, z, xy, yz, left, right);
      } else {
        NotShownIsBelow(x + y + z);
        ShowsAppend(x + y, z, 0);
        ShowsAppend(x, y, 0);
        AssociatesBelow(x, y, z, xy, yz, left, right);
      }
    }
  }

  /* ---- and only then ---- */

  lemma {:induction false} SomeMerge(spans: seq<LineSpan>) returns (out: seq<LineSpan>)
    ensures Merges(spans, out)
  {
    hide Compact, ValidOnes, Arranged;
    ArrangedSorts(ValidOnes(spans));
    out := Compact(Arranged(ValidOnes(spans)));
  }

  /** A merge that shows the two largest lines holds both in one span. */
  lemma {:induction false} TopSpan(spans: seq<LineSpan>, out: seq<LineSpan>) returns (k: nat)
    requires Merges(spans, out) && ShowsTop(spans)
    ensures k < |out| && ValidSpan(out[k]) && out[k].start < MAX_INT && out[k].end == MAX_INT
  {
    hide Merges, Shows;
    MergesShows(spans, out);
    CoversSpanIsEveryLine(out, MAX_INT - 1, MAX_INT);
    forall n | MAX_INT - 1 <= n <= MAX_INT ensures Covers(out, n) {
    }
    k :| 0 <= k < |out| && out[k].start <= MAX_INT - 1 && MAX_INT <= out[k].end;
  }

  /** Lines among which the two largest are can be given by three operands that do
      not regroup: the third starts where the union of the first two reaches up. */
  lemma {:induction false} SomeDoNotRegroup(w: seq<LineSpan>) returns (z: seq<LineSpan>)
    requires ShowsTop(w)
    ensures !Associates(w, [], z) && forall n :: Shows(w + [] + z, n) <==> Shows(w, n)
  {
    assert w + [] == w;
    var xy := SomeMerge(w);
    var k := TopSpan(w, xy);
    var t, a := xy[k], LineSpan(xy[k].start, xy[k].start);
    z := [a];
    TouchesNothing(w, xy, k);
    var yz := SomeMerge([] + z);
    var right := SomeMerge(w + yz);
    assert Tied(a, t) && t in xy + z && a in xy + z;
    ValidOnesAre(xy + z);
    hide Merges, ValidOnes, Shows;
    assert !NoTie(xy + z);
    MergeDeterminedExactlyWhen(xy + z);
    var out, out' :| Merges(xy + z, out) && Merges(xy + z, out') && out != out';
    assert out != right || out' != right;
  }

  lemma {:induction false} TouchesNothing(w: seq<LineSpan>, xy: seq<LineSpan>, k: nat)
    requires Merges(w, xy) && k < |xy| && ValidSpan(xy[k])
    ensures var z := [LineSpan(xy[k].start, xy[k].start)]; forall n :: Shows(w + [] + z, n) <==> Shows(w, n)
  {
    hide Merges, Shows, BelowTop, Stepped;
    var line := xy[k].start;
    var z := [LineSpan(line, line)];
    MergesShows(w, xy);
    assert Covers(xy, line);
    CanonicalShows(z);
    assert w + [] == w;
    forall n ensures Shows(w + [] + z, n) <==> Shows(w, n) {
      ShowsAppend(w, z, n);
    }
  }

  /** Of the lines three operands show together: every way to give them regroups
      exactly when they do not hold both of the two largest lines. */
  lemma {:induction false} UnionAssociatesExactlyWhen(w: seq<LineSpan>)
    ensures (forall x, y, z :: (forall n :: Shows(x + y + z, n) <==> Shows(w, n)) ==> Associates(x, y, z)) <==> !ShowsTop(w)
  {
    hide Shows, Associates;
    if ShowsTop(w) {
      var z := SomeDoNotRegroup(w);
      assert !Associates(w, [], z);
    } else {
      forall x, y, z | forall n :: Shows(x + y + z, n) <==> Shows(w, n) ensures Associates(x, y, z) {
        UnionAssociates(x, y, z);
      }
    }
  }

  /** What grouping does to a span, one inside it and one that lifts it to the
      largest int. */
  lemma {:induction false} Lifted(t: LineSpan, b: LineSpan, c: LineSpan)
    requires ValidSpan(t) && ValidSpan(b) && ValidSpan(c) && t.end == MAX_INT && b.end != MAX_INT
    requires b.start < c.start && c.end <= b.end && b.start < t.start <= b.end + 1
    ensures var whole := b.(end := MAX_INT);
            && Merges([t] + [b], [whole]) && Merges([b] + [c], [b]) && Merges([whole] + [c], [whole, c])
            && !Associates([t], [b], [c])
  {
    var whole := b.(end := MAX_INT);
    hide Merges, Fold;
    assert [t] + [b] == [t, b] && [b] + [t] == [b, t] && [whole] + [c] == [whole, c] && [b] + [c] == [b, c];
    assert [] + [b] == [b] && [] + [whole] == [whole];
    PairMerges(b, t);
    PairMerges(whole, c);
    PairMerges(b, c);
    MergesTurned([b], [t], [whole]);
    FoldIs([], b, t);
    FoldIs([], whole, c);
    FoldIs([], b, c);
    assert [whole, c] != [whole];
  }

  /** Three canonical operands whose union differs with their grouping: the first
      two reach down past the third, which the last two had taken in. */
  lemma {:induction false} UnionNeedNotAssociate()
    ensures var x, y, z := [LineSpan(5, MAX_INT)], [LineSpan(3, 6)], [LineSpan(4, 4)];
            && Canonical(x) && Canonical(y) && Canonical(z) && !Associates(x, y, z)
            && Merges(x + y, [LineSpan(3, MAX_INT)]) && Merges(y + z, y)
            && Merges([LineSpan(3, MAX_INT)] + z, [LineSpan(3, MAX_INT), LineSpan(4, 4)])
  {
    var t, b, c := LineSpan(5, MAX_INT), LineSpan(3, 6), LineSpan(4, 4);
    assert ValidSpan(t) && ValidSpan(b) && ValidSpan(c) && b.(end := MAX_INT) == LineSpan(3, MAX_INT);
    hide *;
    Lifted(t, b, c);
    OneIsCanonical(t);
    OneIsCanonical(b);
    OneIsCanonical(c);
  }

  /** However three operands are grouped, both answers begin with the same list:
      the canonical one of every line they show. */
  lemma {:induction false} GroupingsBeginAlike(x: seq<LineSpan>, y: seq<LineSpan>, z: seq<LineSpan>,
                                               xy: seq<LineSpan>, yz: seq<LineSpan>, left: seq<LineSpan>, right: seq<LineSpan>)
    returns (k: nat)
    requires Merges(x + y, xy) && Merges(xy + z, left)
    requires Merges(y + z, yz) && Merges(x + yz, right)
    ensures k <= |left| && k <= |right| && left[..k] == right[..k] && Canonical(left[..k])
    ensures forall n :: Covers(left[..k], n) <==> Shows(x + y + z, n)
  {
    hide Merges, Shows, Covers, Canonical;
    GroupedShows(x, y, z, xy, yz);
    k := MergeBeginsCanonical(xy + z, left);
    var k' := MergeBeginsCanonical(x + yz, right);
    CanonicalUnique(left[..k], right[..k']);
  }
}
