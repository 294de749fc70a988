/**
 Clipping whole diffs: faithfulness, idempotence and composition over bytes.
 */
module ClipFiles {
  import opened Text
  import opened Header
  import opened Quoting
  import opened Parser
  import opened Structure
  import opened Runs
  import opened Clip
  import opened Selection

  /* ---- a list of hunks ---- */

  function ClipHunks(hs: seq<RawHunk>, radius: Int): seq<RawHunk> {
    if hs == [] then [] else ClipHunks(hs[..|hs| - 1], radius) + ClipHunk(hs[|hs| - 1], radius)
  }

  /** The body rows a clip of the hunks keeps, as the clipper numbers them. */
  function ClippedBodies(hs: seq<RawHunk>, radius: Int): seq<Row> {
    if hs == [] then [] else ClippedBodies(hs[..|hs| - 1], radius) + ClippedBody(hs[|hs| - 1], radius)
  }

  predicate Readable(h: RawHunk) { SplitHunkHeader(h.header).Some? }

  predicate AllReadable(hs: seq<RawHunk>) { forall k :: 0 <= k < |hs| ==> Readable(hs[k]) }

  lemma {:induction false} ClipHunksSnoc(hs: seq<RawHunk>, h: RawHunk, radius: Int)
    ensures ClipHunks(hs + [h], radius) == ClipHunks(hs, radius) + ClipHunk(h, radius)
    ensures ClipHunks([], radius) == []
  {
    assert (hs + [h])[..|hs|] == hs;
  }

  lemma {:induction false} ClippedBodiesSnoc(hs: seq<RawHunk>, h: RawHunk, radius: Int)
    ensures ClippedBodies(hs + [h], radius) == ClippedBodies(hs, radius) + ClippedBody(h, radius)
    ensures ClippedBodies([], radius) == []
  {
    assert (hs + [h])[..|hs|] == hs;
  }

  lemma {:induction false} ClipHunksAppend(a: seq<RawHunk>, b: seq<RawHunk>, radius: Int)
    ensures ClipHunks(a + b, radius) == ClipHunks(a, radius) + ClipHunks(b, radius)
    ensures ClippedBodies(a + b, radius) == ClippedBodies(a, radius) + ClippedBodies(b, radius)
  {
    hide *;
    if b == [] {
      assert a + b == a;
      ClipHunksSnoc([], RawHunk("", []), radius);
      ClippedBodiesSnoc([], RawHunk("", []), radius);
    } else {
      var front, h := b[..|b| - 1], b[|b| - 1];
      ClipHunksAppend(a, front, radius);
      assert front + [h] == b && a + b == (a + front) + [h];
      ClipHunksSnoc(a + front, h, radius);
      ClipHunksSnoc(front, h, radius);
      ClippedBodiesSnoc(a + front, h, radius);
      ClippedBodiesSnoc(front, h, radius);
    }
  }

  lemma {:induction false} BodiesOfClip(hs: seq<RawHunk>, radius: Int)
    ensures Bodies(ClipHunks(hs, radius)) == ClippedBodies(hs, radius)
  {
    if hs != [] {
      hide ClipHunk, ClippedBody, Bodies;
      BodiesOfClip(hs[..|hs| - 1], radius);
      BodiesAppend(ClipHunks(hs[..|hs| - 1], radius), ClipHunk(hs[|hs| - 1], radius));
      ClipHunkReads(hs[|hs| - 1], radius);
    } else {
      BodiesSnoc([], RawHunk("", []));
    }
  }

  /* ---- clipping again at the same radius ---- */

  /** Every hunk of the list is left alone by a clip. */
  ghost predicate Settled(hs: seq<RawHunk>, radius: Int) {
    forall k :: 0 <= k < |hs| ==> ClipHunk(hs[k], radius) == [hs[k]]
  }

  lemma {:induction false} ClipHunkSettles(hunk: RawHunk, radius: Int)
    ensures Settled(ClipHunk(hunk, radius), radius)
  {
    if Readable(hunk) {
      var h := SplitHunkHeader(hunk.header).value;
      var spans := KeptRuns(hunk.body, h, radius);
      assert ClipHunk(hunk, radius) == RunHunks(hunk.body, h, spans);
      hide ClipHunk, SplitHunkHeader, KeptRuns, RunHunk, BodyRows, KeepSeq, Maximal;
      forall k | 0 <= k < |spans|
        ensures ClipHunk(RunHunk(hunk.body, h, spans[k]), radius) == [RunHunk(hunk.body, h, spans[k])]
      {
        MaximalRun(hunk.body, h, radius, k);
        ClipRunAgain(hunk.body, h, radius, spans[k]);
      }
    }
  }

  lemma {:induction false} ClipHunksSettle(hs: seq<RawHunk>, radius: Int)
    ensures Settled(ClipHunks(hs, radius), radius)
  {
    if hs != [] {
      hide ClipHunk;
      ClipHunksSettle(hs[..|hs| - 1], radius);
      ClipHunkSettles(hs[|hs| - 1], radius);
    }
  }

  lemma {:induction false} SettledStays(hs: seq<RawHunk>, radius: Int)
    requires Settled(hs, radius)
    ensures ClipHunks(hs, radius) == hs
  {
    if hs == [] {
      ClipHunksSnoc([], RawHunk("", []), radius);
    } else {
      hide ClipHunk, ClipHunks;
      var front, h := hs[..|hs| - 1], hs[|hs| - 1];
      SettledStays(front, radius);
      ClipHunksSnoc(front, h, radius);
      assert front + [h] == hs;
    }
  }

  /* ---- clipping again at a smaller radius ---- */

  /** The rows kept inside a list of spans. */
  function KeptIn(rows: seq<Row>, keep: seq<bool>, spans: seq<Span>): seq<Row>
    requires |rows| == |keep| && Within(spans, |rows|)
  {
    if spans == [] then []
    else
      var s := spans[|spans| - 1];
      KeptIn(rows, keep, spans[..|spans| - 1]) + KeptRows(rows[s.lo..s.hi], keep[s.lo..s.hi])
  }

  lemma {:induction false} KeptInLast(rows: seq<Row>, keep: seq<bool>, spans: seq<Span>, s: Span)
    requires |rows| == |keep| && Within(spans, |rows|) && s.lo < s.hi <= |rows|
    ensures KeptIn(rows, keep, spans + [s]) == KeptIn(rows, keep, spans) + KeptRows(rows[s.lo..s.hi], keep[s.lo..s.hi])
  {
    hide KeptRows;
    assert (spans + [s])[..|spans|] == spans;
  }

  lemma {:induction false} KeptInFront(rows: seq<Row>, keep: seq<bool>, row: Row, kept: bool, spans: seq<Span>)
    requires |rows| == |keep| && Within(spans, |rows|)
    ensures KeptIn(rows + [row], keep + [kept], spans) == KeptIn(rows, keep, spans)
  {
    if spans != [] {
      hide KeptRows;
      KeptInFront(rows, keep, row, kept, spans[..|spans| - 1]);
      var s := spans[|spans| - 1];
      assert (rows + [row])[s.lo..s.hi] == rows[s.lo..s.hi];
      assert (keep + [kept])[s.lo..s.hi] == keep[s.lo..s.hi];
    }
  }

  lemma {:induction false} KeptInGrows(rows: seq<Row>, keep: seq<bool>, row: Row, kept: bool, front: seq<Span>, lo: nat)
    requires |rows| == |keep| && Within(front, |rows|) && lo <= |rows|
    ensures KeptIn(rows + [row], keep + [kept], front + [Span(lo, |rows| + 1)])
         == KeptIn(rows, keep, front) + KeptRows(rows[lo..], keep[lo..]) + (if kept then [row] else [])
  {
    hide KeptIn, KeptRows;
    var n := |rows|;
    KeptInLast(rows + [row], keep + [kept], front, Span(lo, n + 1));
    KeptInFront(rows, keep, row, kept, front);
    assert (rows + [row])[lo..n + 1] == rows[lo..] + [row];
    assert (keep + [kept])[lo..n + 1] == keep[lo..] + [kept];
    KeptRowsSnoc(rows[lo..], keep[lo..], row, kept);
  }

  ghost predicate Narrower(narrow: seq<bool>, wide: seq<bool>) {
    |narrow| == |wide| && forall k :: 0 <= k < |narrow| && narrow[k] ==> wide[k]
  }

  lemma {:induction false} KeptInRunsBase()
    ensures Within(Runs.Runs([]), 0) && KeptIn([], [], Runs.Runs([])) == KeptRows([], [])
  {
  }

  lemma {:induction false} NarrowerFront(narrow: seq<bool>, wide: seq<bool>)
    requires Narrower(narrow, wide) && wide != []
    ensures Narrower(narrow[..|wide| - 1], wide[..|wide| - 1])
    ensures narrow[|wide| - 1] ==> wide[|wide| - 1]
  {
  }

  /** Rows kept by a narrower window all lie inside the runs of a wider one. */
  lemma {:induction false} KeptInRuns(rows: seq<Row>, wide: seq<bool>, narrow: seq<bool>)
    requires |rows| == |wide| == |narrow| && Narrower(narrow, wide)
    ensures Within(Runs.Runs(wide), |rows|)
    ensures KeptIn(rows, narrow, Runs.Runs(wide)) == KeptRows(rows, narrow)
  {
    hide *;
    if rows == [] {
      KeptInRunsBase();
      assert wide == [] && narrow == [];
    } else {
      var n := |rows| - 1;
      NarrowerFront(narrow, wide);
      KeptInRuns(rows[..n], wide[..n], narrow[..n]);
      KeptInRunsStep(rows[..n], wide[..n], narrow[..n], rows[n], wide[n], narrow[n]);
      assert rows[..n] + [rows[n]] == rows && wide[..n] + [wide[n]] == wide && narrow[..n] + [narrow[n]] == narrow;
    }
  }

  lemma {:induction false} KeptInRunsStep(rows: seq<Row>, wide: seq<bool>, narrow: seq<bool>, row: Row, w: bool,
      kept: bool)
    requires |rows| == |wide| == |narrow| && (kept ==> w) && Within(Runs.Runs(wide), |rows|)
    requires KeptIn(rows, narrow, Runs.Runs(wide)) == KeptRows(rows, narrow)
    ensures Within(Runs.Runs(wide + [w]), |rows| + 1)
    ensures KeptIn(rows + [row], narrow + [kept], Runs.Runs(wide + [w])) == KeptRows(rows + [row], narrow + [kept])
  {
    hide Runs.Runs, KeptIn, KeptRows;
    var prev, n := Runs.Runs(wide), |rows|;
    RunsSnoc(wide, w);
    KeptRowsSnoc(rows, narrow, row, kept);
    if !w {
      KeptInFront(rows, narrow, row, kept, prev);
    } else if prev != [] && prev[|prev| - 1].hi == n {
      var front, s := prev[..|prev| - 1], prev[|prev| - 1];
      assert front + [s] == prev;
      KeptInLast(rows, narrow, front, s);
      KeptInGrows(rows, narrow, row, kept, front, s.lo);
      assert rows[s.lo..n] == rows[s.lo..] && narrow[s.lo..n] == narrow[s.lo..];
    } else {
      KeptInGrows(rows, narrow, row, kept, prev, n);
      NothingKept(rows[n..], narrow[n..]);
    }
  }

  lemma {:induction false} NothingKept(rows: seq<Row>, keep: seq<bool>)
    requires rows == [] && keep == []
    ensures KeptRows(rows, keep) == []
  {
  }

  lemma {:induction false} RunClippedAgain(body: seq<string>, h: HunkHeader, s: Span, small: Int, large: Int)
    requires small <= large && s.lo <= s.hi <= |body|
    requires Maximal(KeepSeq(BodyRows(body, h.oldStart, h.newStart), large), s)
    ensures |BodyRows(body, h.oldStart, h.newStart)| == |body| == |KeepSeq(BodyRows(body, h.oldStart, h.newStart), small)|
    ensures ClippedBody(RunHunk(body, h, s), small)
         == KeptRows(BodyRows(body, h.oldStart, h.newStart)[s.lo..s.hi], KeepSeq(BodyRows(body, h.oldStart, h.newStart), small)[s.lo..s.hi])
  {
    LengthOfRows(body, h.oldStart, h.newStart);
    hide BodyRows, RunHunk, RunHeader, SplitHunkHeader, KeptRows, Maximal, KeepSeq;
    LengthOfKeep(BodyRows(body, h.oldStart, h.newStart), small);
    RunHunkReads(body, h, s);
    RunRowsKeepNumbers(body, h, s);
    RunKeepsAgain(body, h, s, small, large);
  }

  lemma {:induction false} RunsClippedAgain(body: seq<string>, h: HunkHeader, spans: seq<Span>, small: Int, large: Int)
    requires small <= large && Within(spans, |body|)
    requires forall k :: 0 <= k < |spans| ==> Maximal(KeepSeq(BodyRows(body, h.oldStart, h.newStart), large), spans[k])
    ensures |BodyRows(body, h.oldStart, h.newStart)| == |body| == |KeepSeq(BodyRows(body, h.oldStart, h.newStart), small)|
    ensures ClippedBodies(RunHunks(body, h, spans), small)
         == KeptIn(BodyRows(body, h.oldStart, h.newStart), KeepSeq(BodyRows(body, h.oldStart, h.newStart), small), spans)
  {
    LengthOfRows(body, h.oldStart, h.newStart);
    hide BodyRows, RunHunk, KeptRows, Maximal, KeepSeq, ClippedBodies, ClippedBody;
    LengthOfKeep(BodyRows(body, h.oldStart, h.newStart), small);
    if spans == [] {
      ClippedBodiesSnoc([], RawHunk("", []), small);
    } else {
      var front, s := spans[..|spans| - 1], spans[|spans| - 1];
      RunsClippedAgain(body, h, front, small, large);
      assert RunHunks(body, h, spans) == RunHunks(body, h, front) + [RunHunk(body, h, s)];
      hide RunHunks;
      ClippedBodiesSnoc(RunHunks(body, h, front), RunHunk(body, h, s), small);
      RunClippedAgain(body, h, s, small, large);
    }
  }

  lemma {:induction false} ClipOfReadable(hunk: RawHunk, h: HunkHeader, radius: Int)
    requires SplitHunkHeader(hunk.header) == Some(h)
    ensures ClipHunk(hunk, radius) == RunHunks(hunk.body, h, KeptRuns(hunk.body, h, radius))
    ensures var rows := BodyRows(hunk.body, h.oldStart, h.newStart);
            && |KeepSeq(rows, radius)| == |rows| == |hunk.body|
            && KeptRuns(hunk.body, h, radius) == Runs.Runs(KeepSeq(rows, radius))
            && ClippedBody(hunk, radius) == KeptRows(rows, KeepSeq(rows, radius))
  {
    hide SplitHunkHeader, KeptRows, RunHunks;
    LengthOfRows(hunk.body, h.oldStart, h.newStart);
    LengthOfKeep(BodyRows(hunk.body, h.oldStart, h.newStart), radius);
  }

  lemma {:induction false} ClipOfUnreadable(hunk: RawHunk, radius: Int)
    requires !Readable(hunk)
    ensures ClipHunk(hunk, radius) == [hunk]
    ensures ClippedBodies([hunk], radius) == ClippedBody(hunk, radius) == HunkBody(hunk)
  {
    hide HunkBody;
    assert [hunk] == [] + [hunk];
    ClippedBodiesSnoc([], hunk, radius);
  }

  /** A narrower clip keeps of a wider one what it keeps of the hunk itself. */
  lemma {:induction false} ClipHunkNarrower(hunk: RawHunk, small: Int, large: Int)
    requires small <= large
    ensures ClippedBodies(ClipHunk(hunk, large), small) == ClippedBody(hunk, small)
  {
    if Readable(hunk) {
      var h := SplitHunkHeader(hunk.header).value;
      hide *;
      var rows := BodyRows(hunk.body, h.oldStart, h.newStart);
      ClipOfReadable(hunk, h, small);
      ClipOfReadable(hunk, h, large);
      var wide := KeepSeq(rows, large);
      assert AllMaximal(wide, Runs.Runs(wide)) by { RunsMaximal(wide); }
      KeepNarrower(rows, small, large);
      KeptInRuns(rows, wide, KeepSeq(rows, small));
      AllMaximalOnly(wide, Runs.Runs(wide));
      RunsClippedAgain(hunk.body, h, Runs.Runs(wide), small, large);
    } else {
      hide *;
      ClipOfUnreadable(hunk, small);
      ClipOfUnreadable(hunk, large);
    }
  }

  lemma {:induction false} AllMaximalOnly(keep: seq<bool>, spans: seq<Span>)
    requires AllMaximal(keep, spans)
    ensures forall k :: 0 <= k < |spans| ==> Maximal(keep, spans[k])
  {
  }

  lemma {:induction false} KeepNarrower(rows: seq<Row>, small: Int, large: Int)
    requires small <= large
    ensures Narrower(KeepSeq(rows, small), KeepSeq(rows, large))
  {
    hide KeepAt;
    forall k | 0 <= k < |rows| && KeepAt(rows, k, small) ensures KeepAt(rows, k, large) {
      KeepWider(rows, k, small, large);
    }
  }

  lemma {:induction false} ClipHunksNarrower(hs: seq<RawHunk>, small: Int, large: Int)
    requires small <= large
    ensures ClippedBodies(ClipHunks(hs, large), small) == ClippedBodies(hs, small)
  {
    if hs != [] {
      hide ClipHunk, ClippedBody;
      ClipHunksNarrower(hs[..|hs| - 1], small, large);
      ClipHunksAppend(ClipHunks(hs[..|hs| - 1], large), ClipHunk(hs[|hs| - 1], large), small);
      ClipHunkNarrower(hs[|hs| - 1], small, large);
    }
  }

  /* ---- when nothing is left ---- */

  lemma {:induction false} RowsInEmpty(rows: seq<Row>, spans: seq<Span>)
    requires Within(spans, |rows|)
    ensures RowsIn(rows, spans) == [] <==> spans == []
  {
  }

  lemma {:induction false} RunsReadable(body: seq<string>, h: HunkHeader, spans: seq<Span>)
    requires Within(spans, |body|)
    ensures AllReadable(RunHunks(body, h, spans))
  {
    hide SplitHunkHeader, RunHunk;
    forall k | 0 <= k < |spans| ensures Readable(RunHunk(body, h, spans[k])) {
      RunHunkReads(body, h, spans[k]);
    }
  }

  lemma {:induction false} RunHunksEmpty(body: seq<string>, h: HunkHeader, spans: seq<Span>)
    requires Within(spans, |body|)
    ensures RunHunks(body, h, spans) == [] <==> Bodies(RunHunks(body, h, spans)) == []
  {
    BodiesOfRuns(body, h, spans);
    RowsInEmpty(BodyRows(body, h.oldStart, h.newStart), spans);
    hide RunHunk, Bodies, BodyRows, RowsIn;
    assert |RunHunks(body, h, spans)| == |spans|;
  }

  lemma {:induction false} ClipHunkEmpty(hunk: RawHunk, radius: Int)
    ensures ClipHunk(hunk, radius) == [] <==> Readable(hunk) && ClippedBody(hunk, radius) == []
    ensures AllReadable(ClipHunk(hunk, radius)) <==> Readable(hunk)
  {
    if Readable(hunk) {
      var h := SplitHunkHeader(hunk.header).value;
      hide *;
      ClipOfReadable(hunk, h, radius);
      ClipHunkReads(hunk, radius);
      RunHunksEmpty(hunk.body, h, KeptRuns(hunk.body, h, radius));
      RunsReadable(hunk.body, h, KeptRuns(hunk.body, h, radius));
    } else {
      hide ClippedBody, Readable;
      ClipOfUnreadable(hunk, radius);
      assert [hunk][0] == hunk;
    }
  }

  lemma {:induction false} ClipHunksEmpty(hs: seq<RawHunk>, radius: Int)
    ensures ClipHunks(hs, radius) == [] <==> AllReadable(hs) && ClippedBodies(hs, radius) == []
    ensures AllReadable(ClipHunks(hs, radius)) <==> AllReadable(hs)
  {
    hide *;
    if hs == [] {
      NothingClipped(radius);
    } else {
      var front, h := hs[..|hs| - 1], hs[|hs| - 1];
      assert front + [h] == hs;
      ClipHunksEmpty(front, radius);
      ClipHunkEmpty(h, radius);
      ClipHunksSnoc(front, h, radius);
      ClippedBodiesSnoc(front, h, radius);
      AllReadableAppend(front, [h]);
      AllReadableAppend(ClipHunks(front, radius), ClipHunk(h, radius));
    }
  }

  lemma {:induction false} NothingClipped(radius: Int)
    ensures ClipHunks([], radius) == [] && ClippedBodies([], radius) == [] && AllReadable([])
  {
  }

  lemma {:induction false} AllReadableAppend(a: seq<RawHunk>, b: seq<RawHunk>)
    ensures AllReadable(a + b) <==> AllReadable(a) && AllReadable(b)
    ensures |b| == 1 ==> (AllReadable(b) <==> Readable(b[0]))
  {
    hide Readable;
    if AllReadable(a + b) {
      forall k | 0 <= k < |a| ensures Readable(a[k]) { assert (a + b)[k] == a[k]; }
      forall k | 0 <= k < |b| ensures Readable(b[k]) { assert (a + b)[|a| + k] == b[k]; }
    }
  }

  /** The hunks one clip leaves are none exactly when the next would leave none. */
  lemma {:induction false} ClipHunksEmptyAgain(hs: seq<RawHunk>, small: Int, large: Int)
    requires small <= large
    ensures ClipHunks(ClipHunks(hs, large), small) == [] <==> ClipHunks(hs, small) == []
  {
    hide *;
    ClipHunksEmpty(hs, small);
    ClipHunksEmpty(hs, large);
    ClipHunksEmpty(ClipHunks(hs, large), small);
    ClipHunksNarrower(hs, small, large);
  }
}
