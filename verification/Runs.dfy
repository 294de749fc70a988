/**
 The window kept around the changed lines of one hunk, and its maximal runs.
 */
module Runs {
  import opened Text
  import opened Header
  import opened Parser

  /* ---- facts about numbered rows ---- */

  predicate Changed(r: Row) { r.hasOld != r.hasNew }

  lemma {:induction false} CountOldAppend(a: seq<string>, b: seq<string>)
    ensures CountOld(a + b) == CountOld(a) + CountOld(b)
  {
    if b == [] {
      assert a + b == a;
    } else {
      assert (a + b)[..|a + b| - 1] == a + b[..|b| - 1];
      CountOldAppend(a, b[..|b| - 1]);
    }
  }

  lemma {:induction false} CountNewAppend(a: seq<string>, b: seq<string>)
    ensures CountNew(a + b) == CountNew(a) + CountNew(b)
  {
    if b == [] {
      assert a + b == a;
    } else {
      assert (a + b)[..|a + b| - 1] == a + b[..|b| - 1];
      CountNewAppend(a, b[..|b| - 1]);
    }
  }

  lemma {:induction false} RowAt(body: seq<string>, o: LineNo, n: LineNo, k: nat)
    requires k < |body|
    ensures BodyRows(body, o, n)[k] == BodyRow(body[k], Plus(o, CountOld(body[..k])), Plus(n, CountNew(body[..k])))
  {
  }

  lemma {:induction false} NumbersRise(body: seq<string>, o: LineNo, n: LineNo, a: nat, b: nat)
    requires a <= b < |body|
    ensures var rows := BodyRows(body, o, n);
            && (rows[a].hasOld && rows[b].hasOld ==> rows[a].oldNo <= rows[b].oldNo)
            && (rows[a].hasNew && rows[b].hasNew ==> rows[a].newNo <= rows[b].newNo)
  {
    assert body[..b] == body[..a] + body[a..b];
    CountOldAppend(body[..a], body[a..b]);
    CountNewAppend(body[..a], body[a..b]);
    RowAt(body, o, n, a);
    RowAt(body, o, n, b);
    hide BodyRows, CountOld, CountNew;
  }

  lemma {:induction false} CountsFrom(body: seq<string>, lo: nat, hi: nat, k: nat)
    requires lo <= hi <= |body| && k < hi - lo
    ensures CountOld(body[..lo + k]) == CountOld(body[..lo]) + CountOld(body[lo..hi][..k])
    ensures CountNew(body[..lo + k]) == CountNew(body[..lo]) + CountNew(body[lo..hi][..k])
  {
    hide CountOld, CountNew;
    assert body[..lo + k] == body[..lo] + body[lo..hi][..k];
    CountOldAppend(body[..lo], body[lo..hi][..k]);
    CountNewAppend(body[..lo], body[lo..hi][..k]);
  }

  lemma {:induction false} RowOfStretch(body: seq<string>, o: LineNo, n: LineNo, lo: nat, hi: nat, k: nat)
    requires lo <= hi <= |body| && k < hi - lo
    ensures BodyRows(body[lo..hi], Plus(o, CountOld(body[..lo])), Plus(n, CountNew(body[..lo])))[k]
         == BodyRows(body, o, n)[lo + k]
  {
    hide CountOld, CountNew, BodyRow, BodyRows;
    CountsFrom(body, lo, hi, k);
    RowAt(body[lo..hi], Plus(o, CountOld(body[..lo])), Plus(n, CountNew(body[..lo])), k);
    RowAt(body, o, n, lo + k);
  }

  /** A stretch of rows is numbered from where its first line stands. */
  lemma {:induction false} RowsOfStretch(body: seq<string>, o: LineNo, n: LineNo, lo: nat, hi: nat)
    requires lo <= hi <= |body|
    ensures BodyRows(body[lo..hi], Plus(o, CountOld(body[..lo])), Plus(n, CountNew(body[..lo])))
         == BodyRows(body, o, n)[lo..hi]
  {
    var part := body[lo..hi];
    var o', n' := Plus(o, CountOld(body[..lo])), Plus(n, CountNew(body[..lo]));
    hide BodyRows;
    LengthOfRows(part, o', n');
    LengthOfRows(body, o, n);
    var a, b := BodyRows(part, o', n'), BodyRows(body, o, n);
    forall k | 0 <= k < hi - lo ensures a[k] == b[lo + k] {
      RowOfStretch(body, o, n, lo, hi, k);
    }
    hide *;
    assert a == b[lo..hi];
  }

  lemma {:induction false} LengthOfRows(body: seq<string>, o: LineNo, n: LineNo)
    ensures |BodyRows(body, o, n)| == |body|
  {
  }

  /** With no line on a side, that side's start does not matter. */
  lemma {:induction false} StartsIrrelevant(body: seq<string>, o: LineNo, n: LineNo, o': LineNo, n': LineNo)
    requires o == o' || forall k :: 0 <= k < |body| ==> !OnOld(body[k])
    requires n == n' || forall k :: 0 <= k < |body| ==> !OnNew(body[k])
    ensures BodyRows(body, o, n) == BodyRows(body, o', n')
  {
    hide CountOld, CountNew;
  }

  /* ---- the window ---- */

  /** A changed line within `radius` of a context line, on either side. */
  predicate Near(l: Row, m: Row, radius: Int) {
    && Changed(m)
    && ((m.hasOld && Distance(l.oldNo, m.oldNo) <= radius) || (m.hasNew && Distance(l.newNo, m.newNo) <= radius))
  }

  predicate Justified(rows: seq<Row>, l: Row, radius: Int) {
    exists j :: 0 <= j < |rows| && Near(l, rows[j], radius)
  }

  /** Whether row `i` stays: a changed line always, a context line near one, an
      annotation with the line it annotates. */
  predicate KeepAt(rows: seq<Row>, i: nat, radius: Int)
    requires i < |rows|
  {
    if rows[i].header then i > 0 && KeepAt(rows, i - 1, radius)
    else Changed(rows[i]) || (rows[i].hasOld && Justified(rows, rows[i], radius))
  }

  function KeepSeq(rows: seq<Row>, radius: Int): seq<bool> {
    seq(|rows|, i requires 0 <= i < |rows| => KeepAt(rows, i, radius))
  }

  /* ---- maximal runs ---- */

  datatype Span = Span(lo: nat, hi: nat)

  function Runs(keep: seq<bool>): seq<Span> {
    if keep == [] then []
    else
      var n := |keep| - 1;
      var prev := Runs(keep[..n]);
      if !keep[n] then prev
      else if prev != [] && prev[|prev| - 1].hi == n then prev[..|prev| - 1] + [Span(prev[|prev| - 1].lo, n + 1)]
      else prev + [Span(n, n + 1)]
  }

  ghost predicate KeptWithin(keep: seq<bool>, s: Span) {
    s.lo < s.hi <= |keep| && forall k :: s.lo <= k < s.hi ==> keep[k]
  }

  /** A run is kept throughout and cannot be made longer on either end. */
  ghost predicate Maximal(keep: seq<bool>, s: Span) {
    && KeptWithin(keep, s)
    && (s.lo > 0 ==> !keep[s.lo - 1])
    && (s.hi < |keep| ==> !keep[s.hi])
  }

  /** Every run of `keep` but perhaps the last ends before its end, and all are maximal. */
  ghost predicate AllMaximal(keep: seq<bool>, runs: seq<Span>) {
    && (forall k :: 0 <= k < |runs| ==> Maximal(keep, runs[k]))
    && (forall k :: 0 <= k < |runs| - 1 ==> runs[k].hi < |keep|)
  }

  lemma {:induction false} RunsMaximalStep(front: seq<bool>, last: bool)
    requires AllMaximal(front, Runs(front))
    ensures AllMaximal(front + [last], Runs(front + [last]))
  {
    var prev := Runs(front);
    var keep := front + [last];
    assert keep[..|front|] == front;
    hide Maximal;
    forall k | 0 <= k < |prev|
      ensures prev[k].hi < |front| || !last ==> Maximal(keep, prev[k])
      ensures prev[k].hi == |front| && last ==> Maximal(keep, Span(prev[k].lo, |front| + 1))
    {
      MaximalGrows(front, last, prev[k]);
    }
    if last && (prev == [] || prev[|prev| - 1].hi != |front|) {
      NewRunMaximal(front, prev);
    }
  }

  lemma {:induction false} NewRunMaximal(front: seq<bool>, prev: seq<Span>)
    requires prev == Runs(front) && AllMaximal(front, prev)
    requires prev == [] || prev[|prev| - 1].hi != |front|
    ensures Maximal(front + [true], Span(|front|, |front| + 1))
  {
  }

  lemma {:induction false} RunsMaximal(keep: seq<bool>)
    ensures AllMaximal(keep, Runs(keep))
  {
    if keep != [] {
      hide Maximal, Runs;
      RunsMaximal(keep[..|keep| - 1]);
      RunsMaximalStep(keep[..|keep| - 1], keep[|keep| - 1]);
      assert keep[..|keep| - 1] + [keep[|keep| - 1]] == keep;
    }
  }

  lemma {:induction false} MaximalGrows(front: seq<bool>, last: bool, s: Span)
    requires Maximal(front, s)
    ensures s.hi < |front| || !last ==> Maximal(front + [last], s)
    ensures s.hi == |front| && last ==> Maximal(front + [last], Span(s.lo, |front| + 1))
  {
  }

  /** Neighbouring kept rows are in one run. */
  lemma {:induction false} MaximalHolds(keep: seq<bool>, s: Span, a: nat, b: nat)
    requires Maximal(keep, s) && a <= b < |keep|
    requires forall k :: a <= k <= b ==> keep[k]
    ensures s.lo <= a < s.hi ==> b < s.hi
    ensures s.lo <= b < s.hi ==> s.lo <= a
  {
  }

  lemma {:induction false} RunsOfAllKept(keep: seq<bool>)
    requires keep != [] && forall k :: 0 <= k < |keep| ==> keep[k]
    ensures Runs(keep) == [Span(0, |keep|)]
  {
    if |keep| > 1 {
      RunsOfAllKept(keep[..|keep| - 1]);
    } else {
      assert Runs(keep[..0]) == [];
    }
  }

  /* ---- the run a context line shares with the change that justifies it ---- */

  lemma {:induction false} KeptToTheRight(body: seq<string>, o: LineNo, n: LineNo, radius: Int, i: nat, j: nat, k: nat)
    requires i <= k <= j < |body|
    requires var rows := BodyRows(body, o, n);
             KeepAt(rows, i, radius) && !rows[i].header && Near(rows[i], rows[j], radius) && !Changed(rows[i])
    ensures KeepAt(BodyRows(body, o, n), k, radius)
    decreases k
  {
    var rows := BodyRows(body, o, n);
    if k > i {
      if rows[k].header {
        KeptToTheRight(body, o, n, radius, i, j, k - 1);
      } else if !Changed(rows[k]) {
        NearBetween(body, o, n, radius, i, k, j);
        hide BodyRows, Near;
        BothSides(body, o, n, k);
        assert Justified(rows, rows[k], radius);
      }
    }
  }

  lemma {:induction false} KeptToTheLeft(body: seq<string>, o: LineNo, n: LineNo, radius: Int, j: nat, i: nat, k: nat)
    requires j <= k <= i < |body|
    requires var rows := BodyRows(body, o, n);
             KeepAt(rows, i, radius) && !rows[i].header && Near(rows[i], rows[j], radius) && !Changed(rows[i])
    ensures KeepAt(BodyRows(body, o, n), k, radius)
    decreases k
  {
    var rows := BodyRows(body, o, n);
    if k > j && k < i {
      if rows[k].header {
        KeptToTheLeft(body, o, n, radius, j, i, k - 1);
      } else if !Changed(rows[k]) {
        NearBetween(body, o, n, radius, i, k, j);
        hide BodyRows, Near;
        BothSides(body, o, n, k);
        assert Justified(rows, rows[k], radius);
      }
    } else if k == j {
      hide BodyRows;
      BothSides(body, o, n, j);
    }
  }

  lemma {:induction false} BothSides(body: seq<string>, o: LineNo, n: LineNo, k: nat)
    requires k < |body|
    ensures var r := BodyRows(body, o, n)[k];
            && (!r.header && !Changed(r) ==> r.hasOld && r.hasNew)
            && (r.header ==> !r.hasOld && !r.hasNew)
            && r.raw == body[k] && r.hasOld == OnOld(body[k]) && r.hasNew == OnNew(body[k])
  {
    hide CountOld, CountNew;
  }

  /** A context line between another and the change near that one is near it too. */
  lemma {:induction false} NearBetween(body: seq<string>, o: LineNo, n: LineNo, radius: Int, i: nat, k: nat, j: nat)
    requires i < |body| && k < |body| && j < |body| && (i <= k <= j || j <= k <= i)
    requires var rows := BodyRows(body, o, n);
             && Near(rows[i], rows[j], radius)
             && !rows[i].header && !Changed(rows[i]) && !rows[k].header && !Changed(rows[k])
    ensures var rows := BodyRows(body, o, n); Near(rows[k], rows[j], radius)
  {
    var rows := BodyRows(body, o, n);
    BothSides(body, o, n, i);
    BothSides(body, o, n, k);
    if i <= k && k <= j {
      NumbersRise(body, o, n, i, k);
      NumbersRise(body, o, n, k, j);
    } else {
      NumbersRise(body, o, n, j, k);
      NumbersRise(body, o, n, k, i);
    }
    hide BodyRows, Distance;
    DistanceSaturates(rows[i].oldNo, rows[j].oldNo);
    DistanceSaturates(rows[k].oldNo, rows[j].oldNo);
    DistanceSaturates(rows[i].newNo, rows[j].newNo);
    DistanceSaturates(rows[k].newNo, rows[j].newNo);
  }

  /** A kept context line and a change near it fall in the same run. */
  lemma {:induction false} SameRun(body: seq<string>, o: LineNo, n: LineNo, radius: Int, s: Span, i: nat, j: nat)
    requires i < |body| && j < |body| && s.lo <= i < s.hi
    requires var rows := BodyRows(body, o, n);
             && Maximal(KeepSeq(rows, radius), s)
             && !rows[i].header && !Changed(rows[i]) && Near(rows[i], rows[j], radius)
    ensures s.lo <= j < s.hi
  {
    var rows := BodyRows(body, o, n);
    var keep := KeepSeq(rows, radius);
    assert KeepAt(rows, i, radius) by { assert keep[i]; }
    if i <= j {
      forall k | i <= k <= j ensures keep[k] {
        KeptToTheRight(body, o, n, radius, i, j, k);
      }
      MaximalHolds(keep, s, i, j);
    } else {
      forall k | j <= k <= i ensures keep[k] {
        KeptToTheLeft(body, o, n, radius, j, i, k);
      }
      MaximalHolds(keep, s, j, i);
    }
  }

  /** No run opens on an annotation. */
  lemma {:induction false} NoRunOpensOnNote(rows: seq<Row>, radius: Int, s: Span)
    requires Maximal(KeepSeq(rows, radius), s)
    ensures !rows[s.lo].header
  {
    assert KeepSeq(rows, radius)[s.lo];
    if s.lo > 0 {
      assert KeepSeq(rows, radius)[s.lo - 1] == KeepAt(rows, s.lo - 1, radius);
    }
  }

  lemma {:induction false} NearWider(l: Row, m: Row, small: Int, large: Int)
    requires small <= large && Near(l, m, small)
    ensures Near(l, m, large)
  {
    hide Distance;
  }

  lemma {:induction false} KeepOfNote(rows: seq<Row>, i: nat, radius: Int)
    requires i < |rows| && rows[i].header
    ensures KeepAt(rows, i, radius) == (i > 0 && KeepAt(rows, i - 1, radius))
  {
    hide Justified, Changed;
  }

  lemma {:induction false} KeepOfLine(rows: seq<Row>, i: nat, radius: Int)
    requires i < |rows| && !rows[i].header
    ensures KeepAt(rows, i, radius) == (Changed(rows[i]) || (rows[i].hasOld && Justified(rows, rows[i], radius)))
  {
    hide Justified, Changed;
  }

  lemma {:induction false} RunInside(body: seq<string>, o: LineNo, n: LineNo, large: Int, s: Span)
    requires s.hi <= |body| && Maximal(KeepSeq(BodyRows(body, o, n), large), s)
    ensures s.lo < s.hi <= |body| == |BodyRows(body, o, n)|
    ensures !BodyRows(body, o, n)[s.lo].header
  {
    LengthOfRows(body, o, n);
    NoRunOpensOnNote(BodyRows(body, o, n), large, s);
    hide BodyRows, KeepAt;
  }

  /** Inside a run at one radius, a smaller radius keeps the same rows whether
      it looks at the run alone or at the whole hunk. */
  lemma {:induction false} RunDecidesAlone(body: seq<string>, o: LineNo, n: LineNo, small: Int, large: Int,
      s: Span, k: nat)
    requires small <= large && s.hi <= |body| && k < s.hi - s.lo
    requires Maximal(KeepSeq(BodyRows(body, o, n), large), s)
    ensures var rows := BodyRows(body, o, n);
            KeepAt(rows[s.lo..s.hi], k, small) == KeepAt(rows, s.lo + k, small)
    decreases k
  {
    hide *;
    var rows := BodyRows(body, o, n);
    RunInside(body, o, n, large, s);
    var run := rows[s.lo..s.hi];
    assert run[k] == rows[s.lo + k];
    if run[k].header {
      KeepOfNote(run, k, small);
      KeepOfNote(rows, s.lo + k, small);
      if k > 0 {
        RunDecidesAlone(body, o, n, small, large, s, k - 1);
      }
    } else {
      KeepOfLine(run, k, small);
      KeepOfLine(rows, s.lo + k, small);
      if !Changed(run[k]) {
        JustifiedAlone(body, o, n, small, large, s, k);
      }
    }
  }

  lemma {:induction false} JustifiedInRun(rows: seq<Row>, s: Span, l: Row, radius: Int)
    requires s.lo <= s.hi <= |rows| && Justified(rows[s.lo..s.hi], l, radius)
    ensures Justified(rows, l, radius)
  {
    hide Near;
    var run := rows[s.lo..s.hi];
    var j :| 0 <= j < |run| && Near(l, run[j], radius);
    assert run[j] == rows[s.lo + j];
  }

  lemma {:induction false} JustifiedBySlice(rows: seq<Row>, s: Span, l: Row, radius: Int, j: nat)
    requires s.lo <= j < s.hi <= |rows| && Near(l, rows[j], radius)
    ensures Justified(rows[s.lo..s.hi], l, radius)
  {
    hide Near;
    assert rows[s.lo..s.hi][j - s.lo] == rows[j];
  }

  lemma {:induction false} JustifiedAlone(body: seq<string>, o: LineNo, n: LineNo, small: Int, large: Int, s: Span,
      k: nat)
    requires small <= large && s.hi <= |body| && k < s.hi - s.lo
    requires var rows := BodyRows(body, o, n);
             && Maximal(KeepSeq(rows, large), s)
             && !rows[s.lo + k].header && !Changed(rows[s.lo + k])
    ensures var rows := BodyRows(body, o, n);
            Justified(rows[s.lo..s.hi], rows[s.lo + k], small) == Justified(rows, rows[s.lo + k], small)
  {
    var rows := BodyRows(body, o, n);
    var l := rows[s.lo + k];
    LengthOfRows(body, o, n);
    hide BodyRows, Near, Changed, Maximal, KeepSeq;
    if Justified(rows[s.lo..s.hi], l, small) {
      JustifiedInRun(rows, s, l, small);
    }
    if Justified(rows, l, small) {
      var j :| 0 <= j < |rows| && Near(l, rows[j], small);
      hide Justified;
      NearWider(l, rows[j], small, large);
      SameRun(body, o, n, large, s, s.lo + k, j);
      JustifiedBySlice(rows, s, l, small, j);
    }
  }

  lemma {:induction false} RunKeeps(body: seq<string>, o: LineNo, n: LineNo, small: Int, large: Int, s: Span)
    requires small <= large && s.hi <= |body|
    requires Maximal(KeepSeq(BodyRows(body, o, n), large), s)
    ensures var rows := BodyRows(body, o, n);
            KeepSeq(rows[s.lo..s.hi], small) == KeepSeq(rows, small)[s.lo..s.hi]
  {
    hide BodyRows, KeepAt;
    forall k | 0 <= k < s.hi - s.lo
      ensures KeepAt(BodyRows(body, o, n)[s.lo..s.hi], k, small) == KeepAt(BodyRows(body, o, n), s.lo + k, small)
    {
      RunDecidesAlone(body, o, n, small, large, s, k);
    }
  }

  lemma {:induction false} KeepWider(rows: seq<Row>, k: nat, small: Int, large: Int)
    requires small <= large && k < |rows| && KeepAt(rows, k, small)
    ensures KeepAt(rows, k, large)
    decreases k
  {
    hide Near;
    if rows[k].header {
      KeepWider(rows, k - 1, small, large);
    } else if !Changed(rows[k]) {
      var j :| 0 <= j < |rows| && Near(rows[k], rows[j], small);
      NearWider(rows[k], rows[j], small, large);
    }
  }
}
