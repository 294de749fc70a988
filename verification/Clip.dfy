/**
 Clipping a diff to the window around its changes: what is emitted for each
 hunk, and why the emitted diff reads back with the numbers it was cut from.
 */
module Clip {
  import opened Text
  import opened Header
  import opened Quoting
  import opened Parser
  import opened Structure
  import opened Runs

  /* ---- one hunk ---- */

  function FirstOld(run: seq<Row>): Option<LineNo> {
    if run == [] then None else if run[0].hasOld then Some(run[0].oldNo) else FirstOld(run[1..])
  }

  function FirstNew(run: seq<Row>): Option<LineNo> {
    if run == [] then None else if run[0].hasNew then Some(run[0].newNo) else FirstNew(run[1..])
  }

  /** Where a run's range starts on one side: on its first line there, or else
      on the last line consumed before it, or else where the hunk starts. */
  function RunStart(first: Option<LineNo>, at: LineNo, start: LineNo): LineNo
    requires start <= at
  {
    match first
    case Some(x) => x
    case None => if at != start then at - 1 else start
  }

  /** The header of one kept run of a readable hunk, as it will be read back. */
  function RunHeader(body: seq<string>, h: HunkHeader, s: Span): HunkHeader
    requires s.lo <= s.hi <= |body|
  {
    var run := BodyRows(body, h.oldStart, h.newStart)[s.lo..s.hi];
    HunkHeader(RunStart(FirstOld(run), Plus(h.oldStart, CountOld(body[..s.lo])), h.oldStart),
               Min(MAX_INT, CountOld(body[s.lo..s.hi])),
               RunStart(FirstNew(run), Plus(h.newStart, CountNew(body[..s.lo])), h.newStart),
               Min(MAX_INT, CountNew(body[s.lo..s.hi])),
               h.suffix)
  }

  /** The hunk emitted for one kept run. */
  function RunHunk(body: seq<string>, h: HunkHeader, s: Span): RawHunk
    requires s.lo <= s.hi <= |body|
  {
    var g, part := RunHeader(body, h, s), body[s.lo..s.hi];
    RawHunk(HeaderText(g.oldStart, CountOld(part), g.newStart, CountNew(part), h.suffix), part)
  }

  ghost predicate Within(spans: seq<Span>, n: nat) {
    forall k :: 0 <= k < |spans| ==> spans[k].lo < spans[k].hi <= n
  }

  function RunHunks(body: seq<string>, h: HunkHeader, spans: seq<Span>): seq<RawHunk>
    requires Within(spans, |body|)
  {
    seq(|spans|, k requires 0 <= k < |spans| => RunHunk(body, h, spans[k]))
  }

  function KeptRuns(body: seq<string>, h: HunkHeader, radius: Int): (spans: seq<Span>)
    ensures Within(spans, |body|)
  {
    var keep := KeepSeq(BodyRows(body, h.oldStart, h.newStart), radius);
    RunsMaximal(keep);
    hide Runs.Runs, KeepSeq, BodyRows;
    Runs.Runs(keep)
  }

  /** What clipping leaves of one hunk: itself when its header cannot be read,
      and otherwise a hunk of its own for each kept run. */
  function ClipHunk(hunk: RawHunk, radius: Int): seq<RawHunk> {
    match SplitHunkHeader(hunk.header)
    case None => [hunk]
    case Some(h) => RunHunks(hunk.body, h, KeptRuns(hunk.body, h, radius))
  }

  /* ---- a run reads back as the rows it was cut from ---- */

  lemma {:induction false} FirstOldFrom(body: seq<string>, o: LineNo, n: LineNo)
    ensures var first := FirstOld(BodyRows(body, o, n));
            && (first.Some? ==> first.value == o)
            && (first.None? <==> forall k :: 0 <= k < |body| ==> !OnOld(body[k]))
  {
    if body != [] {
      var rows := BodyRows(body, o, n);
      RowAt(body, o, n, 0);
      BothSides(body, o, n, 0);
      assert body[..0] == [];
      if !rows[0].hasOld {
        RowsOfStretch(body, o, n, 1, |body|);
        assert body[1..|body|] == body[1..] && rows[1..|body|] == rows[1..];
        assert CountOld(body[..1]) == 0 by { assert body[..1][..0] == []; }
        FirstOldFrom(body[1..], o, Plus(n, CountNew(body[..1])));
        hide BodyRows;
        assert forall k :: 1 <= k < |body| ==> body[k] == body[1..][k - 1];
      }
    }
  }

  lemma {:induction false} FirstNewFrom(body: seq<string>, o: LineNo, n: LineNo)
    ensures var first := FirstNew(BodyRows(body, o, n));
            && (first.Some? ==> first.value == n)
            && (first.None? <==> forall k :: 0 <= k < |body| ==> !OnNew(body[k]))
  {
    if body != [] {
      var rows := BodyRows(body, o, n);
      RowAt(body, o, n, 0);
      BothSides(body, o, n, 0);
      assert body[..0] == [];
      if !rows[0].hasNew {
        RowsOfStretch(body, o, n, 1, |body|);
        assert body[1..|body|] == body[1..] && rows[1..|body|] == rows[1..];
        assert CountNew(body[..1]) == 0 by { assert body[..1][..0] == []; }
        FirstNewFrom(body[1..], Plus(o, CountOld(body[..1])), n);
        hide BodyRows;
        assert forall k :: 1 <= k < |body| ==> body[k] == body[1..][k - 1];
      }
    }
  }

  lemma {:induction false} RunHunkReads(body: seq<string>, h: HunkHeader, s: Span)
    requires s.lo <= s.hi <= |body|
    ensures var g := RunHunk(body, h, s);
            && SplitHunkHeader(g.header) == Some(RunHeader(body, h, s))
            && ParsedOld(g.header) == RunHeader(body, h, s).oldStart
            && ParsedNew(g.header) == RunHeader(body, h, s).newStart
            && g.body == body[s.lo..s.hi]
  {
    var g, part := RunHeader(body, h, s), body[s.lo..s.hi];
    assert g == HunkHeader(g.oldStart, Min(MAX_INT, CountOld(part)), g.newStart, Min(MAX_INT, CountNew(part)), h.suffix);
    hide RunHeader, CountOld, CountNew, HeaderText, SplitHunkHeader, ParsedOld, ParsedNew;
    WrittenHeaderReads(g.oldStart, CountOld(part), g.newStart, CountNew(part), h.suffix);
  }

  /** The rows of a run are numbered, under its own header, as in the hunk it
      was cut from. */
  lemma {:induction false} RunRowsKeepNumbers(body: seq<string>, h: HunkHeader, s: Span)
    requires s.lo <= s.hi <= |body|
    ensures |BodyRows(body, h.oldStart, h.newStart)| == |body|
    ensures BodyRows(body[s.lo..s.hi], RunHeader(body, h, s).oldStart, RunHeader(body, h, s).newStart)
         == BodyRows(body, h.oldStart, h.newStart)[s.lo..s.hi]
  {
    var part := body[s.lo..s.hi];
    var o, n := Plus(h.oldStart, CountOld(body[..s.lo])), Plus(h.newStart, CountNew(body[..s.lo]));
    RowsOfStretch(body, h.oldStart, h.newStart, s.lo, s.hi);
    FirstOldFrom(part, o, n);
    FirstNewFrom(part, o, n);
    hide BodyRows, FirstOld, FirstNew, CountOld, CountNew, Plus;
    var g := RunHeader(body, h, s);
    StartsIrrelevant(part, o, n, g.oldStart, g.newStart);
  }

  /* ---- clipping a run again ---- */

  lemma {:induction false} MaximalRun(body: seq<string>, h: HunkHeader, radius: Int, k: nat)
    requires k < |KeptRuns(body, h, radius)|
    ensures Maximal(KeepSeq(BodyRows(body, h.oldStart, h.newStart), radius), KeptRuns(body, h, radius)[k])
  {
    hide KeepSeq, BodyRows, Runs.Runs, Maximal;
    RunsMaximal(KeepSeq(BodyRows(body, h.oldStart, h.newStart), radius));
  }

  /** The rows a run keeps at a radius no larger than its own are those the
      whole hunk keeps there. */
  lemma {:induction false} RunKeepsAgain(body: seq<string>, h: HunkHeader, s: Span, small: Int, large: Int)
    requires small <= large && s.hi <= |body|
    requires Maximal(KeepSeq(BodyRows(body, h.oldStart, h.newStart), large), s)
    ensures KeepSeq(BodyRows(body[s.lo..s.hi], RunHeader(body, h, s).oldStart, RunHeader(body, h, s).newStart), small)
         == KeepSeq(BodyRows(body, h.oldStart, h.newStart), small)[s.lo..s.hi]
  {
    hide BodyRows, KeepSeq, Maximal, RunHeader;
    assert s.lo <= s.hi by { MaximalIsRange(KeepSeq(BodyRows(body, h.oldStart, h.newStart), large), s); }
    RunRowsKeepNumbers(body, h, s);
    RunKeeps(body, h.oldStart, h.newStart, small, large, s);
  }

  lemma {:induction false} MaximalIsRange(keep: seq<bool>, s: Span)
    requires Maximal(keep, s)
    ensures s.lo < s.hi <= |keep| && forall k :: s.lo <= k < s.hi ==> keep[k]
  {
  }

  /** The header of a run is the header of the run of that run. */
  lemma {:induction false} RunHeaderSettles(body: seq<string>, h: HunkHeader, s: Span)
    requires s.lo <= s.hi <= |body|
    ensures var part := body[s.lo..s.hi];
            RunHunk(part, RunHeader(body, h, s), Span(0, |part|)) == RunHunk(body, h, s)
  {
    var part := body[s.lo..s.hi];
    var g := RunHeader(body, h, s);
    RunRowsKeepNumbers(body, h, s);
    assert part[..0] == [] && part[0..|part|] == part;
    var rows := BodyRows(part, g.oldStart, g.newStart);
    LengthOfRows(part, g.oldStart, g.newStart);
    assert rows[0..|part|] == rows;
    assert CountOld([]) == 0 && CountNew([]) == 0;
    hide BodyRows, FirstOld, FirstNew, CountOld, CountNew, HeaderText;
  }

  lemma {:induction false} KeptAgain(body: seq<string>, h: HunkHeader, radius: Int, s: Span)
    requires s.hi <= |body|
    requires Maximal(KeepSeq(BodyRows(body, h.oldStart, h.newStart), radius), s)
    ensures s.lo < s.hi
    ensures KeptRuns(body[s.lo..s.hi], RunHeader(body, h, s), radius) == [Span(0, s.hi - s.lo)]
  {
    hide BodyRows, KeepSeq, RunHeader, Maximal, Runs.Runs;
    var keep := KeepSeq(BodyRows(body, h.oldStart, h.newStart), radius);
    MaximalIsRange(keep, s);
    RunKeepsAgain(body, h, s, radius, radius);
    RunsOfAllKept(keep[s.lo..s.hi]);
  }

  /** Clipping an emitted hunk again at the same radius leaves it as it is. */
  lemma {:induction false} ClipRunAgain(body: seq<string>, h: HunkHeader, radius: Int, s: Span)
    requires s.lo <= s.hi <= |body|
    requires Maximal(KeepSeq(BodyRows(body, h.oldStart, h.newStart), radius), s)
    ensures ClipHunk(RunHunk(body, h, s), radius) == [RunHunk(body, h, s)]
  {
    hide BodyRows, KeepSeq, Maximal, RunHeader, RunHunk, SplitHunkHeader, KeptRuns;
    RunHunkReads(body, h, s);
    KeptAgain(body, h, radius, s);
    RunHeaderSettles(body, h, s);
  }

  /* ---- the rows a clip keeps ---- */

  function KeptRows(rows: seq<Row>, keep: seq<bool>): seq<Row>
    requires |rows| == |keep|
  {
    if rows == [] then []
    else
      var front := KeptRows(rows[..|rows| - 1], keep[..|rows| - 1]);
      if keep[|rows| - 1] then front + [rows[|rows| - 1]] else front
  }

  function HunkBody(h: RawHunk): seq<Row> { BodyRows(h.body, ParsedOld(h.header), ParsedNew(h.header)) }

  function Bodies(hs: seq<RawHunk>): seq<Row> {
    if hs == [] then [] else Bodies(hs[..|hs| - 1]) + HunkBody(hs[|hs| - 1])
  }

  /** The body rows clipping keeps of one hunk, numbered from the starts the
      clipper read. */
  function ClippedBody(hunk: RawHunk, radius: Int): seq<Row> {
    match SplitHunkHeader(hunk.header)
    case None => HunkBody(hunk)
    case Some(h) =>
      var rows := BodyRows(hunk.body, h.oldStart, h.newStart);
      KeptRows(rows, KeepSeq(rows, radius))
  }

  lemma {:induction false} BodiesSnoc(hs: seq<RawHunk>, h: RawHunk)
    ensures Bodies(hs + [h]) == Bodies(hs) + HunkBody(h)
    ensures Bodies([]) == []
  {
    assert (hs + [h])[..|hs|] == hs;
  }

  lemma {:induction false} BodiesAppendStep(a: seq<RawHunk>, b: seq<RawHunk>, h: RawHunk)
    requires Bodies(a + b) == Bodies(a) + Bodies(b)
    ensures Bodies(a + (b + [h])) == Bodies(a) + Bodies(b + [h])
  {
    hide *;
    assert a + (b + [h]) == (a + b) + [h];
    BodiesSnoc(a + b, h);
    BodiesSnoc(b, h);
  }

  lemma {:induction false} BodiesAppend(a: seq<RawHunk>, b: seq<RawHunk>)
    ensures Bodies(a + b) == Bodies(a) + Bodies(b)
  {
    hide *;
    if b == [] {
      assert a + b == a;
      BodiesSnoc([], RawHunk("", []));
    } else {
      BodiesAppend(a, b[..|b| - 1]);
      BodiesAppendStep(a, b[..|b| - 1], b[|b| - 1]);
      assert b[..|b| - 1] + [b[|b| - 1]] == b;
    }
  }

  /** The rows inside a list of spans, one span after another. */
  function RowsIn(rows: seq<Row>, spans: seq<Span>): seq<Row>
    requires Within(spans, |rows|)
  {
    if spans == [] then []
    else
      var s := spans[|spans| - 1];
      RowsIn(rows, spans[..|spans| - 1]) + rows[s.lo..s.hi]
  }

  lemma {:induction false} RowsInFront(rows: seq<Row>, last: Row, spans: seq<Span>)
    requires Within(spans, |rows|)
    ensures RowsIn(rows + [last], spans) == RowsIn(rows, spans)
  {
    if spans != [] {
      RowsInFront(rows, last, spans[..|spans| - 1]);
      var s := spans[|spans| - 1];
      assert (rows + [last])[s.lo..s.hi] == rows[s.lo..s.hi];
    }
  }

  /** The kept rows are those inside the runs. */
  lemma {:induction false} KeptRowsAreRuns(rows: seq<Row>, keep: seq<bool>)
    requires |rows| == |keep|
    ensures Within(Runs.Runs(keep), |rows|)
    ensures RowsIn(rows, Runs.Runs(keep)) == KeptRows(rows, keep)
  {
    if rows != [] {
      var n := |rows| - 1;
      KeptRowsAreRuns(rows[..n], keep[..n]);
      KeptRowsStep(rows[..n], keep[..n], rows[n], keep[n]);
      hide KeptRows, RowsIn, Runs.Runs;
      assert rows[..n] + [rows[n]] == rows && keep[..n] + [keep[n]] == keep;
    }
  }

  lemma {:induction false} RunsSnoc(keep: seq<bool>, kept: bool)
    ensures var prev, n := Runs.Runs(keep), |keep|;
            Runs.Runs(keep + [kept]) ==
            if !kept then prev
            else if prev != [] && prev[|prev| - 1].hi == n then prev[..|prev| - 1] + [Span(prev[|prev| - 1].lo, n + 1)]
            else prev + [Span(n, n + 1)]
  {
    assert (keep + [kept])[..|keep|] == keep;
  }

  lemma {:induction false} RunGrows(rows: seq<Row>, row: Row, front: seq<Span>, lo: nat)
    requires Within(front, |rows|) && lo < |rows|
    ensures RowsIn(rows + [row], front + [Span(lo, |rows| + 1)]) == RowsIn(rows, front + [Span(lo, |rows|)]) + [row]
  {
    hide RowsIn;
    var longer, n := rows + [row], |rows|;
    RowsInLast(longer, front, Span(lo, n + 1));
    RowsInLast(rows, front, Span(lo, n));
    RowsInFront(rows, row, front);
    assert longer[lo..n + 1] == rows[lo..n] + [row];
  }

  lemma {:induction false} RunOpens(rows: seq<Row>, row: Row, spans: seq<Span>)
    requires Within(spans, |rows|)
    ensures RowsIn(rows + [row], spans + [Span(|rows|, |rows| + 1)]) == RowsIn(rows, spans) + [row]
  {
    hide RowsIn;
    var longer, n := rows + [row], |rows|;
    RowsInLast(longer, spans, Span(n, n + 1));
    RowsInFront(rows, row, spans);
    assert longer[n..n + 1] == [row];
  }

  lemma {:induction false} KeptRowsStep(rows: seq<Row>, keep: seq<bool>, row: Row, kept: bool)
    requires |rows| == |keep| && Within(Runs.Runs(keep), |rows|)
    requires RowsIn(rows, Runs.Runs(keep)) == KeptRows(rows, keep)
    ensures Within(Runs.Runs(keep + [kept]), |rows| + 1)
    ensures RowsIn(rows + [row], Runs.Runs(keep + [kept])) == KeptRows(rows + [row], keep + [kept])
  {
    hide Runs.Runs, RowsIn, KeptRows;
    var prev, n := Runs.Runs(keep), |rows|;
    RunsSnoc(keep, kept);
    KeptRowsSnoc(rows, keep, row, kept);
    if !kept {
      RowsInFront(rows, row, prev);
    } else if prev != [] && prev[|prev| - 1].hi == n {
      var front, s := prev[..|prev| - 1], prev[|prev| - 1];
      assert front + [Span(s.lo, n)] == prev;
      RunGrows(rows, row, front, s.lo);
    } else {
      RunOpens(rows, row, prev);
    }
  }

  lemma {:induction false} KeptRowsSnoc(rows: seq<Row>, keep: seq<bool>, row: Row, kept: bool)
    requires |rows| == |keep|
    ensures KeptRows(rows + [row], keep + [kept]) == KeptRows(rows, keep) + (if kept then [row] else [])
  {
    assert (rows + [row])[..|rows|] == rows && (keep + [kept])[..|rows|] == keep;
  }

  lemma {:induction false} RowsInLast(rows: seq<Row>, spans: seq<Span>, s: Span)
    requires Within(spans, |rows|) && s.lo < s.hi <= |rows|
    ensures RowsIn(rows, spans + [s]) == RowsIn(rows, spans) + rows[s.lo..s.hi]
  {
    assert (spans + [s])[..|spans|] == spans;
  }

  lemma {:induction false} RunBody(body: seq<string>, h: HunkHeader, s: Span)
    requires s.lo <= s.hi <= |body|
    ensures |BodyRows(body, h.oldStart, h.newStart)| == |body|
    ensures HunkBody(RunHunk(body, h, s)) == BodyRows(body, h.oldStart, h.newStart)[s.lo..s.hi]
  {
    hide BodyRows, RunHunk, RunHeader, ParsedOld, ParsedNew, SplitHunkHeader;
    RunHunkReads(body, h, s);
    RunRowsKeepNumbers(body, h, s);
  }

  lemma {:induction false} BodiesOfRuns(body: seq<string>, h: HunkHeader, spans: seq<Span>)
    requires Within(spans, |body|)
    ensures |BodyRows(body, h.oldStart, h.newStart)| == |body|
    ensures Bodies(RunHunks(body, h, spans)) == RowsIn(BodyRows(body, h.oldStart, h.newStart), spans)
  {
    LengthOfRows(body, h.oldStart, h.newStart);
    hide BodyRows, RunHunk, RunHeader, Bodies, HunkBody;
    if spans != [] {
      var front, s := spans[..|spans| - 1], spans[|spans| - 1];
      BodiesOfRuns(body, h, front);
      assert RunHunks(body, h, spans) == RunHunks(body, h, front) + [RunHunk(body, h, s)];
      hide RunHunks;
      BodiesSnoc(RunHunks(body, h, front), RunHunk(body, h, s));
      RunBody(body, h, s);
    } else {
      BodiesSnoc([], RawHunk("", []));
    }
  }

  /** Parsing what a clip emits of a hunk gives the kept rows, in order, with
      the same text, sides and numbers. */
  lemma {:induction false} ClipHunkReads(hunk: RawHunk, radius: Int)
    ensures Bodies(ClipHunk(hunk, radius)) == ClippedBody(hunk, radius)
  {
    match SplitHunkHeader(hunk.header)
    case None =>
      hide HunkBody;
      assert [hunk] == [] + [hunk];
      BodiesSnoc([], hunk);
    case Some(h) =>
      hide BodyRows, KeepSeq, Runs.Runs, RunHunks, Bodies, RowsIn, KeptRows, SplitHunkHeader;
      var rows := BodyRows(hunk.body, h.oldStart, h.newStart);
      LengthOfRows(hunk.body, h.oldStart, h.newStart);
      assert |KeepSeq(rows, radius)| == |rows| by { LengthOfKeep(rows, radius); }
      BodiesOfRuns(hunk.body, h, KeptRuns(hunk.body, h, radius));
      KeptRowsAreRuns(rows, KeepSeq(rows, radius));
  }

  lemma {:induction false} LengthOfKeep(rows: seq<Row>, radius: Int)
    ensures |KeepSeq(rows, radius)| == |rows|
  {
  }
}
