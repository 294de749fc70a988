/**
 The clipping loops, proved against `ClipBytes`.
 */
module Clipper {
  import opened Text
  import opened Header
  import opened Quoting
  import opened Parser
  import opened Structure
  import opened Selection
  import opened Runs
  import opened Clip
  import opened ClipFiles
  import opened ClipDiff

  /* ---- one section's records, taken apart ---- */

  /** Records gathered into one section. */
  function Gathered(recs: seq<string>): Chunk {
    if recs == [] then EMPTY else AddTo(Gathered(recs[..|recs| - 1]), recs[|recs| - 1])
  }

  lemma {:induction false} GatheredSnoc(recs: seq<string>, rec: string)
    ensures Gathered(recs + [rec]) == AddTo(Gathered(recs), rec)
  {
    assert (recs + [rec])[..|recs|] == recs;
  }

  ghost predicate AllGathered(cs: seq<Chunk>) {
    forall k :: 0 <= k < |cs| ==> Gathered(Flat(cs[k])) == cs[k]
  }

  lemma {:induction false} GatheredAdd(cs: seq<Chunk>, rec: string)
    requires cs != [] && AllGathered(cs)
    ensures AllGathered(AddRecord(cs, rec))
  {
    hide AddTo, Flat, Gathered, IsGit;
    var c := cs[|cs| - 1];
    FlatAddTo(c, rec);
    GatheredSnoc(Flat(c), rec);
    if IsGit(rec) {
      FlatOne(rec);
      GatheredOne(rec);
    }
  }

  lemma {:induction false} GatheredOne(rec: string)
    requires IsGit(rec)
    ensures Gathered([rec]) == Chunk([rec], [])
  {
    GitIsNotHunk(rec);
    hide IsGit, IsHunk;
    GatheredSnoc([], rec);
    assert [] + [rec] == [rec];
  }

  /** Each section is its own records gathered. */
  lemma {:induction false} SectionsGathered(recs: seq<string>)
    ensures AllGathered(Chunks(recs))
  {
    if recs == [] {
      assert Flat(EMPTY) == [];
    } else {
      hide AllGathered, AddRecord;
      SectionsGathered(recs[..|recs| - 1]);
      GatheredAdd(Chunks(recs[..|recs| - 1]), recs[|recs| - 1]);
    }
  }

  function JustOne(n: nat, si: nat): seq<bool> { seq(n, k => k == si) }

  /** The lines of one section hold that section's records. */
  lemma {:induction false} SectionLines(cs: seq<Chunk>, n: nat, si: nat)
    requires |cs| <= n && si < n
    requires forall k :: 0 <= k < |LinesOf(cs)| ==> LinesOf(cs)[k].section < n
    ensures KeptRaws(LinesOf(cs), JustOne(n, si)) == if si < |cs| then Flat(cs[si]) else []
  {
    if cs != [] {
      var front, last := cs[..|cs| - 1], cs[|cs| - 1];
      hide Rows, Flat, KeptRaws;
      SectionsInRange(front);
      SectionLines(front, n, si);
      KeptRawsAppend(LinesOf(front), Tag(|front|, Rows(last)), JustOne(n, si));
      KeptRawsTag(|front|, Rows(last), JustOne(n, si));
      RawsOfRows(last);
      hide JustOne;
      assert Flat(last) + [] == Flat(last);
    }
  }

  method SplitSection(lines: seq<Line>, si: nat, ghost cs: seq<Chunk>) returns (pro: seq<string>, hunks: seq<RawHunk>)
    requires lines == LinesOf(cs) && si < |cs| && AllGathered(cs)
    requires forall k :: 0 <= k < |cs| ==> GoodHunks(cs[k].hunks)
    ensures Chunk(pro, hunks) == cs[si]
  {
    hide LinesOf, Gathered, AddTo, Flat, KeptRaws, IsHunk, GoodHunks;
    LinesMarked(cs);
    ghost var keep := JustOne(|cs|, si);
    SectionsInRange(cs);
    pro, hunks := [], [];
    assert KeptRaws([], keep) == [] && Gathered([]) == EMPTY by { GatherNothing(keep); }
    for i := 0 to |lines|
      invariant Chunk(pro, hunks) == Gathered(KeptRaws(lines[..i], keep))
    {
      var l := lines[i];
      assert lines[..i + 1] == lines[..i] + [l];
      KeptRawsSnoc(lines[..i], l, keep);
      if l.section != si {
        assert KeptRaws(lines[..i], keep) + [] == KeptRaws(lines[..i], keep);
        continue;
      }
      GatheredSnoc(KeptRaws(lines[..i], keep), l.row.raw);
      AddToIs(Chunk(pro, hunks), l.row.raw);
      if l.row.header && IsHunk(l.row.raw) {
        hunks := hunks + [RawHunk(l.row.raw, [])];
      } else if hunks == [] {
        pro := pro + [l.row.raw];
      } else {
        var last := |hunks| - 1;
        hunks := hunks[..last] + [hunks[last].(body := hunks[last].body + [l.row.raw])];
      }
    }
    assert lines[..|lines|] == lines;
    SectionLines(cs, |cs|, si);
  }

  lemma {:induction false} GatherNothing(keep: seq<bool>)
    ensures KeptRaws([], keep) == [] && Gathered([]) == EMPTY
  {
  }

  lemma {:induction false} AddToIs(c: Chunk, rec: string)
    ensures AddTo(c, rec) ==
            if IsHunk(rec) then Chunk(c.prologue, c.hunks + [RawHunk(rec, [])])
            else if c.hunks == [] then Chunk(c.prologue + [rec], c.hunks)
            else Chunk(c.prologue, c.hunks[..|c.hunks| - 1]
                       + [c.hunks[|c.hunks| - 1].(body := c.hunks[|c.hunks| - 1].body + [rec])])
  {
  }

  lemma {:induction false} KeptRawsSnoc(lines: seq<Line>, l: Line, keep: seq<bool>)
    requires l.section < |keep| && forall k :: 0 <= k < |lines| ==> lines[k].section < |keep|
    ensures KeptRaws(lines + [l], keep) == KeptRaws(lines, keep) + (if keep[l.section] then [l.row.raw] else [])
  {
    assert (lines + [l])[..|lines|] == lines;
  }

  /** No body line can be taken for a hunk header. */
  ghost predicate MarkedHeaders(rows: seq<Row>) {
    forall k :: 0 <= k < |rows| ==> (IsHunk(rows[k].raw) ==> rows[k].header)
  }

  lemma {:induction false} HunkMarked(h: RawHunk)
    requires Plain(h.body)
    ensures MarkedHeaders(HunkRows(h))
  {
    hide IsHunk, IsGit, ParsedOld, ParsedNew, CountOld, CountNew;
  }

  lemma {:induction false} HunksMarked(hs: seq<RawHunk>)
    requires GoodHunks(hs)
    ensures MarkedHeaders(HunksRows(hs))
  {
    if hs != [] {
      hide IsHunk, HunkRows, Plain;
      HunksMarked(hs[..|hs| - 1]);
      HunkMarked(hs[|hs| - 1]);
    }
  }

  lemma {:induction false} RowsMarked(c: Chunk)
    requires GoodHunks(c.hunks)
    ensures MarkedHeaders(Rows(c))
  {
    HunksMarked(c.hunks);
    hide HunksRows, IsHunk, GoodHunks;
  }

  lemma {:induction false} LinesMarked(cs: seq<Chunk>)
    requires forall k :: 0 <= k < |cs| ==> GoodHunks(cs[k].hunks)
    ensures forall k :: 0 <= k < |LinesOf(cs)| ==> (IsHunk(LinesOf(cs)[k].row.raw) ==> LinesOf(cs)[k].row.header)
  {
    if cs != [] {
      LinesMarked(cs[..|cs| - 1]);
      RowsMarked(cs[|cs| - 1]);
      hide Rows, IsHunk, GoodHunks;
    }
  }

  /* ---- one hunk ---- */

  /** Reads the numbers of a hunk's body records. */
  method ReadRows(body: seq<string>, oldStart: LineNo, newStart: LineNo) returns (lines: seq<Row>)
    ensures lines == BodyRows(body, oldStart, newStart)
  {
    lines := [];
    var o, n := oldStart, newStart;
    assert BodyRows(body[..0], oldStart, newStart) == [];
    for i := 0 to |body|
      invariant lines == BodyRows(body[..i], oldStart, newStart)
      invariant o == Plus(oldStart, CountOld(body[..i])) && n == Plus(newStart, CountNew(body[..i]))
    {
      hide BodyRows;
      var rec := body[i];
      assert body[..i + 1] == body[..i] + [rec];
      BodyRowsSnoc(body[..i], rec, oldStart, newStart);
      CountSnoc(body[..i], rec);
      hide CountOld, CountNew;
      if IsNote(rec) {
        lines := lines + [HeaderRow(rec)];
      } else if "+" <= rec {
        lines := lines + [Row(false, rec, 0, false, n, true)];
        n := Incr(n);
      } else if "-" <= rec {
        lines := lines + [Row(false, rec, o, true, 0, false)];
        o := Incr(o);
      } else {
        lines := lines + [Row(false, rec, o, true, n, true)];
        o := Incr(o);
        n := Incr(n);
      }
    }
    assert body[..|body|] == body;
  }

  lemma {:induction false} CountSnoc(body: seq<string>, rec: string)
    ensures CountOld(body + [rec]) == CountOld(body) + (if OnOld(rec) then 1 else 0)
    ensures CountNew(body + [rec]) == CountNew(body) + (if OnNew(rec) then 1 else 0)
  {
    assert (body + [rec])[..|body|] == body;
  }

  /** Marks the rows inside the window. */
  method MarkKept(lines: seq<Row>, radius: Int) returns (kept: seq<bool>)
    ensures kept == KeepSeq(lines, radius)
  {
    var keep := new bool[|lines|];
    for i := 0 to |lines|
      invariant forall k :: 0 <= k < i ==> keep[k] == KeepAt(lines, k, radius)
    {
      hide Near, Changed;
      var l := lines[i];
      keep[i] := false;
      if l.header {
        keep[i] := i > 0 && keep[i - 1];
        continue;
      }
      if Changed(l) {
        keep[i] := true;
        continue;
      }
      if !l.hasOld {
        continue;
      }
      var near := false;
      for j := 0 to |lines|
        invariant !near ==> forall m :: 0 <= m < j ==> !Near(l, lines[m], radius)
        invariant near ==> Justified(lines, l, radius)
      {
        if Near(l, lines[j], radius) {
          near := true;
          break;
        }
      }
      keep[i] := near;
    }
    kept := keep[..];
  }

  /** Moves the file counters past one body record. */
  method Advance(o: LineNo, n: LineNo, l: Row) returns (o': LineNo, n': LineNo)
    ensures o' == (if !l.header && l.hasOld then Incr(o) else o)
    ensures n' == (if !l.header && l.hasNew then Incr(n) else n)
  {
    o', n' := o, n;
    if l.header {
      return;
    }
    if l.hasOld {
      o' := Incr(o');
    }
    if l.hasNew {
      n' := Incr(n');
    }
  }

  lemma {:induction false} AdvanceIs(body: seq<string>, h: HunkHeader, i: nat, o: LineNo, n: LineNo)
    requires i < |body| && o == Plus(h.oldStart, CountOld(body[..i])) && n == Plus(h.newStart, CountNew(body[..i]))
    ensures var l := BodyRows(body, h.oldStart, h.newStart)[i];
            && (if !l.header && l.hasOld then Incr(o) else o) == Plus(h.oldStart, CountOld(body[..i + 1]))
            && (if !l.header && l.hasNew then Incr(n) else n) == Plus(h.newStart, CountNew(body[..i + 1]))
  {
    BothSides(body, h.oldStart, h.newStart, i);
    hide BodyRows;
    assert body[..i + 1] == body[..i] + [body[i]];
    CountSnoc(body[..i], body[i]);
    hide CountOld, CountNew;
  }

  /** The rows and the counters of the run `s`. */
  ghost predicate RunReady(body: seq<string>, h: HunkHeader, s: Span, run: seq<Row>, runO: LineNo, runN: LineNo,
                           consumedOld: bool, consumedNew: bool)
  {
    && s.lo <= s.hi <= |body| == |BodyRows(body, h.oldStart, h.newStart)|
    && run == BodyRows(body, h.oldStart, h.newStart)[s.lo..s.hi]
    && runO == Plus(h.oldStart, CountOld(body[..s.lo])) && runN == Plus(h.newStart, CountNew(body[..s.lo]))
    && consumedOld == (runO != h.oldStart) && consumedNew == (runN != h.newStart)
  }

  /** One kept run's `@@` line. */
  method RunHeaderLine(run: seq<Row>, runO: LineNo, runN: LineNo, oldStart: LineNo, newStart: LineNo,
                       consumedOld: bool, consumedNew: bool, suffix: string,
                       ghost body: seq<string>, ghost h: HunkHeader, ghost s: Span) returns (text: string)
    requires RunReady(body, h, s, run, runO, runN, consumedOld, consumedNew)
    requires oldStart == h.oldStart && newStart == h.newStart && suffix == h.suffix
    ensures s.lo <= s.hi <= |body| && text == RunHunk(body, h, s).header
  {
    hide BodyRows, FirstOld, FirstNew;
    var oldS: LineNo := oldStart;
    if FirstOld(run).Some? {
      oldS := FirstOld(run).value;
    } else if consumedOld {
      oldS := runO - 1;
    }
    var newS: LineNo := newStart;
    if FirstNew(run).Some? {
      newS := FirstNew(run).value;
    } else if consumedNew {
      newS := runN - 1;
    }
    assert oldS == RunHeader(body, h, s).oldStart && newS == RunHeader(body, h, s).newStart;
    hide RunHeader;
    ghost var part := body[s.lo..s.hi];
    var oldLen, newLen := 0, 0;
    assert part[..0] == [] && CountOld([]) == 0 == CountNew([]);
    for k := 0 to |run|
      invariant oldLen == CountOld(part[..k]) && newLen == CountNew(part[..k])
    {
      hide CountOld, CountNew, RunHunk;
      assert part[..k + 1] == part[..k] + [part[k]];
      CountSnoc(part[..k], part[k]);
      BothSides(body, h.oldStart, h.newStart, s.lo + k);
      if run[k].hasOld {
        oldLen := oldLen + 1;
      }
      if run[k].hasNew {
        newLen := newLen + 1;
      }
    }
    assert part[..|run|] == part;
    text := HeaderText(oldS, oldLen, newS, newLen, suffix);
  }

  method EmitRun(run: seq<Row>, runO: LineNo, runN: LineNo, oldStart: LineNo, newStart: LineNo,
                 consumedOld: bool, consumedNew: bool, suffix: string,
                 ghost body: seq<string>, ghost h: HunkHeader, ghost s: Span) returns (out: seq<string>)
    requires RunReady(body, h, s, run, runO, runN, consumedOld, consumedNew)
    requires oldStart == h.oldStart && newStart == h.newStart && suffix == h.suffix
    ensures s.lo <= s.hi <= |body| && out == FlatHunk(RunHunk(body, h, s))
  {
    hide RunHunk, RunHeader, CountOld, CountNew, BodyRows;
    var text := RunHeaderLine(run, runO, runN, oldStart, newStart, consumedOld, consumedNew, suffix, body, h, s);
    RunHunkReads(body, h, s);
    StretchRaws(body, h, s);
    var raws := WriteRaws(run);
    out := [text] + raws;
  }

  method WriteRaws(run: seq<Row>) returns (out: seq<string>)
    ensures out == Raws(run)
  {
    out := [];
    for k := 0 to |run|
      invariant out == Raws(run[..k])
    {
      assert run[..k + 1] == run[..k] + [run[k]];
      out := out + [run[k].raw];
    }
    assert run[..|run|] == run;
  }

  lemma {:induction false} RawsOfBody(body: seq<string>, o: LineNo, n: LineNo)
    ensures Raws(BodyRows(body, o, n)) == body
  {
    hide CountOld, CountNew;
  }

  lemma {:induction false} StretchRaws(body: seq<string>, h: HunkHeader, s: Span)
    requires s.lo <= s.hi <= |body| && |BodyRows(body, h.oldStart, h.newStart)| == |body|
    ensures Raws(BodyRows(body, h.oldStart, h.newStart)[s.lo..s.hi]) == body[s.lo..s.hi]
  {
    RawsOfBody(body, h.oldStart, h.newStart);
    hide BodyRows;
    var rows := BodyRows(body, h.oldStart, h.newStart);
    assert Raws(rows[s.lo..s.hi]) == Raws(rows)[s.lo..s.hi];
  }

  /** What the emission loop knows of the run it has open after `i` rows. */
  ghost predicate OpenRun(body: seq<string>, h: HunkHeader, spans: seq<Span>, i: nat,
                          run: seq<Row>, runO: LineNo, runN: LineNo, consumedOld: bool, consumedNew: bool)
  {
    && i <= |body| == |BodyRows(body, h.oldStart, h.newStart)|
    && Within(spans, i)
    && if run == [] then spans == [] || spans[|spans| - 1].hi < i
       else
         && spans != [] && spans[|spans| - 1].hi == i
         && RunReady(body, h, spans[|spans| - 1], run, runO, runN, consumedOld, consumedNew)
  }

  /** The spans already written out. */
  ghost function Closed(spans: seq<Span>, run: seq<Row>): seq<Span> {
    if run == [] || spans == [] then spans else spans[..|spans| - 1]
  }

  ghost predicate Written(body: seq<string>, h: HunkHeader, spans: seq<Span>, out: seq<string>) {
    Within(spans, |body|) && out == FlatHunks(RunHunks(body, h, spans))
  }

  lemma {:induction false} WrittenMore(body: seq<string>, h: HunkHeader, spans: seq<Span>, s: Span, out: seq<string>)
    requires Written(body, h, spans, out) && s.lo < s.hi <= |body|
    ensures Written(body, h, spans + [s], out + FlatHunk(RunHunk(body, h, s)))
  {
    hide RunHunk, FlatHunks, FlatHunk;
    assert RunHunks(body, h, spans + [s]) == RunHunks(body, h, spans) + [RunHunk(body, h, s)];
    FlatHunksSnoc(RunHunks(body, h, spans), RunHunk(body, h, s));
  }

  /** Writes out the open run, if there is one. */
  method Flush(before: seq<string>, run: seq<Row>, runO: LineNo, runN: LineNo, h: HunkHeader,
               consumedOld: bool, consumedNew: bool, ghost body: seq<string>, ghost spans: seq<Span>, ghost i: nat)
    returns (out: seq<string>)
    requires OpenRun(body, h, spans, i, run, runO, runN, consumedOld, consumedNew)
    requires Written(body, h, Closed(spans, run), before)
    ensures Written(body, h, spans, out)
  {
    out := before;
    if |run| == 0 {
      return;
    }
    hide *;
    var recs := FlushRun(run, runO, runN, h, consumedOld, consumedNew, body, spans, i);
    WrittenLast(body, h, spans, run, before, i, runO, runN, consumedOld, consumedNew);
    out := out + recs;
  }

  lemma {:induction false} WrittenLast(body: seq<string>, h: HunkHeader, spans: seq<Span>, run: seq<Row>,
      before: seq<string>,
                                       i: nat, runO: LineNo, runN: LineNo, consumedOld: bool, consumedNew: bool)
    requires OpenRun(body, h, spans, i, run, runO, runN, consumedOld, consumedNew) && run != []
    requires Written(body, h, Closed(spans, run), before)
    ensures spans != [] && spans[|spans| - 1].lo <= spans[|spans| - 1].hi <= |body|
    ensures Written(body, h, spans, before + FlatHunk(RunHunk(body, h, spans[|spans| - 1])))
  {
    hide BodyRows, RunReady, RunHunk, FlatHunk, Written;
    var front, s := spans[..|spans| - 1], spans[|spans| - 1];
    assert front + [s] == spans;
    WrittenMore(body, h, front, s, before);
  }

  method FlushRun(run: seq<Row>, runO: LineNo, runN: LineNo, h: HunkHeader,
                  consumedOld: bool, consumedNew: bool, ghost body: seq<string>, ghost spans: seq<Span>, ghost i: nat)
    returns (recs: seq<string>)
    requires OpenRun(body, h, spans, i, run, runO, runN, consumedOld, consumedNew) && run != []
    ensures spans != [] && spans[|spans| - 1].lo <= spans[|spans| - 1].hi <= |body|
    ensures recs == FlatHunk(RunHunk(body, h, spans[|spans| - 1]))
  {
    hide BodyRows, RunReady, RunHunk, FlatHunk;
    recs := EmitRun(run, runO, runN, h.oldStart, h.newStart, consumedOld, consumedNew, h.suffix, body, h, spans[|spans| - 1]);
  }

  /** The open run grows by the next kept row, or a new one opens on it. */
  lemma {:induction false} RunGrowsBy(body: seq<string>, h: HunkHeader, keep: seq<bool>, i: nat,
                                      run: seq<Row>, runO: LineNo, runN: LineNo, consumedOld: bool, consumedNew: bool)
    requires i < |body| == |keep| && keep[i] && run != []
    requires OpenRun(body, h, Runs.Runs(keep[..i]), i, run, runO, runN, consumedOld, consumedNew)
    ensures |BodyRows(body, h.oldStart, h.newStart)| == |body|
    ensures var run' := run + [BodyRows(body, h.oldStart, h.newStart)[i]];
            && OpenRun(body, h, Runs.Runs(keep[..i + 1]), i + 1, run', runO, runN, consumedOld, consumedNew)
            && Closed(Runs.Runs(keep[..i + 1]), run') == Closed(Runs.Runs(keep[..i]), run)
  {
    hide BodyRows, CountOld, CountNew, Runs.Runs;
    var rows := BodyRows(body, h.oldStart, h.newStart);
    assert keep[..i + 1] == keep[..i] + [keep[i]];
    RunsSnoc(keep[..i], keep[i]);
    var spans := Runs.Runs(keep[..i]);
    var lo := spans[|spans| - 1].lo;
    assert rows[lo..i + 1] == rows[lo..i] + [rows[i]];
  }

  lemma {:induction false} RunOpensAt(body: seq<string>, h: HunkHeader, keep: seq<bool>, i: nat, o: LineNo, n: LineNo)
    requires i < |body| == |keep| == |BodyRows(body, h.oldStart, h.newStart)| && keep[i]
    requires Within(Runs.Runs(keep[..i]), i)
    requires Runs.Runs(keep[..i]) == [] || Runs.Runs(keep[..i])[|Runs.Runs(keep[..i])| - 1].hi < i
    requires o == Plus(h.oldStart, CountOld(body[..i])) && n == Plus(h.newStart, CountNew(body[..i]))
    ensures var run' := [BodyRows(body, h.oldStart, h.newStart)[i]];
            && OpenRun(body, h, Runs.Runs(keep[..i + 1]), i + 1, run', o, n, o != h.oldStart, n != h.newStart)
            && Closed(Runs.Runs(keep[..i + 1]), run') == Runs.Runs(keep[..i])
  {
    hide BodyRows, CountOld, CountNew, Runs.Runs;
    var rows := BodyRows(body, h.oldStart, h.newStart);
    assert keep[..i + 1] == keep[..i] + [keep[i]];
    RunsSnoc(keep[..i], keep[i]);
    assert rows[i..i + 1] == [rows[i]];
  }

  lemma {:induction false} RunCloses(body: seq<string>, h: HunkHeader, keep: seq<bool>, i: nat,
                                     run: seq<Row>, runO: LineNo, runN: LineNo, consumedOld: bool, consumedNew: bool)
    requires i < |body| == |keep| && !keep[i]
    requires OpenRun(body, h, Runs.Runs(keep[..i]), i, run, runO, runN, consumedOld, consumedNew)
    ensures OpenRun(body, h, Runs.Runs(keep[..i + 1]), i + 1, [], runO, runN, consumedOld, consumedNew)
    ensures Closed(Runs.Runs(keep[..i + 1]), []) == Runs.Runs(keep[..i])
  {
    hide BodyRows, CountOld, CountNew, Runs.Runs;
    assert keep[..i + 1] == keep[..i] + [keep[i]];
    RunsSnoc(keep[..i], keep[i]);
  }

  method EmitRuns(lines: seq<Row>, keep: seq<bool>, h: HunkHeader, ghost body: seq<string>) returns (out: seq<string>)
    requires lines == BodyRows(body, h.oldStart, h.newStart) && |keep| == |lines| == |body|
    ensures Written(body, h, Runs.Runs(keep), out)
  {
    hide BodyRows, Runs.Runs, CountOld, CountNew, Written;
    out := [];
    var o, n := h.oldStart, h.newStart;
    var run: seq<Row> := [];
    var runO, runN := o, n;
    var consumedOld, consumedNew := false, false;
    NothingEmitted(body, h);
    assert keep[..0] == [] && body[..0] == [];
    for i := 0 to |lines|
      invariant o == Plus(h.oldStart, CountOld(body[..i])) && n == Plus(h.newStart, CountNew(body[..i]))
      invariant OpenRun(body, h, Runs.Runs(keep[..i]), i, run, runO, runN, consumedOld, consumedNew)
      invariant Written(body, h, Closed(Runs.Runs(keep[..i]), run), out)
    {
      AdvanceIs(body, h, i, o, n);
      if !keep[i] {
        RunCloses(body, h, keep, i, run, runO, runN, consumedOld, consumedNew);
        out := Flush(out, run, runO, runN, h, consumedOld, consumedNew, body, Runs.Runs(keep[..i]), i);
        run := [];
        o, n := Advance(o, n, lines[i]);
        continue;
      }
      if |run| == 0 {
        RunOpensAt(body, h, keep, i, o, n);
        runO, runN := o, n;
        consumedOld := o != h.oldStart;
        consumedNew := n != h.newStart;
        assert [] + [lines[i]] == [lines[i]];
      } else {
        RunGrowsBy(body, h, keep, i, run, runO, runN, consumedOld, consumedNew);
      }
      run := run + [lines[i]];
      o, n := Advance(o, n, lines[i]);
    }
    assert keep[..|lines|] == keep;
    out := Flush(out, run, runO, runN, h, consumedOld, consumedNew, body, Runs.Runs(keep), |lines|);
  }

  lemma {:induction false} NothingEmitted(body: seq<string>, h: HunkHeader)
    ensures Runs.Runs([]) == [] && CountOld([]) == 0 == CountNew([])
    ensures Written(body, h, [], [])
    ensures Plus(h.oldStart, 0) == h.oldStart && Plus(h.newStart, 0) == h.newStart
  {
  }

  /** The hunk's kept records: each kept run under its own header, or the hunk
      verbatim when its header does not parse. */
  method ClipOne(hunk: RawHunk, radius: Int) returns (out: seq<string>)
    ensures out == FlatHunks(ClipHunk(hunk, radius))
  {
    hide SplitHunkHeader, BodyRows, KeepSeq, Runs.Runs, RunHunks;
    var header := SplitHunkHeader(hunk.header);
    if header.None? {
      assert [hunk] == [] + [hunk];
      FlatHunksSnoc([], hunk);
      return [hunk.header] + hunk.body;
    }
    hide FlatHunks;
    var h := header.value;
    ClipOfReadable(hunk, h, radius);
    var lines := ReadRows(hunk.body, h.oldStart, h.newStart);
    var keep := MarkKept(lines, radius);
    out := EmitRuns(lines, keep, h, hunk.body);
  }

  /* ---- the whole diff ---- */

  lemma {:induction false} FlatHunksAppend(a: seq<RawHunk>, b: seq<RawHunk>)
    ensures FlatHunks(a + b) == FlatHunks(a) + FlatHunks(b)
  {
    hide *;
    if b == [] {
      assert a + b == a;
      FlatHunksSnoc([], RawHunk("", []));
    } else {
      var front, h := b[..|b| - 1], b[|b| - 1];
      FlatHunksAppend(a, front);
      assert front + [h] == b && a + b == (a + front) + [h];
      FlatHunksSnoc(a + front, h);
      FlatHunksSnoc(front, h);
    }
  }

  lemma {:induction false} FlatHunksEmpty(hs: seq<RawHunk>)
    ensures FlatHunks(hs) == [] <==> hs == []
  {
  }

  lemma {:induction false} ClipFileIs(c: Chunk, radius: Int)
    ensures Named(c) && ClipHunks(c.hunks, radius) != [] ==>
              FlatAll(ClipFile(c, radius)) == c.prologue + FlatHunks(ClipHunks(c.hunks, radius))
    ensures !Named(c) || ClipHunks(c.hunks, radius) == [] ==> FlatAll(ClipFile(c, radius)) == []
  {
    hide ClipHunks, FlatHunks, SectionOf, FlatAll;
    var d := Chunk(c.prologue, ClipHunks(c.hunks, radius));
    FlatAllSnoc([], d);
    assert [] + [d] == [d] && [] + Flat(d) == Flat(d);
  }

  lemma {:induction false} EmitClipNext(cs: seq<Chunk>, c: Chunk, radius: Int)
    ensures Emit(FlatAll(ClippedFiles(cs + [c], radius))) == Emit(FlatAll(ClippedFiles(cs, radius))) + Emit(FlatAll(ClipFile(c, radius)))
  {
    hide *;
    ClippedFilesSnoc(cs, c, radius);
    FlatAllAppend(ClippedFiles(cs, radius), ClipFile(c, radius));
    EmitAppend(FlatAll(ClippedFiles(cs, radius)), FlatAll(ClipFile(c, radius)));
  }

  lemma {:induction false} ClippedOfFiles(recs: seq<string>, radius: Int)
    ensures ClippedFiles(Chunks(recs), radius) == ClippedFiles(Files(recs), radius)
  {
    var cs := Chunks(recs);
    if cs[0] == EMPTY {
      hide Chunks, ClippedFiles, ClipHunks;
      assert cs == [EMPTY] + cs[1..] && [EMPTY] == [] + [EMPTY];
      ClippedFilesAppend([EMPTY], cs[1..], radius);
      ClippedFilesSnoc([], EMPTY, radius);
      assert ClipFile(EMPTY, radius) == [];
      assert [] + ClippedFiles(cs[1..], radius) == ClippedFiles(cs[1..], radius);
    }
  }

  method WriteRecords(recs: seq<string>) returns (out: string)
    ensures out == Emit(recs)
  {
    out := "";
    for i := 0 to |recs|
      invariant out == Emit(recs[..i])
    {
      assert recs[..i + 1][..i] == recs[..i];
      out := out + recs[i] + "\n";
    }
    assert recs[..|recs|] == recs;
  }

  method ClipSection(pro: seq<string>, hunks: seq<RawHunk>, radius: Int) returns (kept: seq<string>)
    ensures kept == pro + FlatHunks(ClipHunks(hunks, radius))
  {
    hide FlatHunks, ClipHunks, ClipHunk;
    kept := pro;
    ClipHunksSnoc([], RawHunk("", []), radius);
    FlatHunksEmpty([]);
    for i := 0 to |hunks|
      invariant kept == pro + FlatHunks(ClipHunks(hunks[..i], radius))
    {
      assert hunks[..i + 1] == hunks[..i] + [hunks[i]];
      ClipHunksSnoc(hunks[..i], hunks[i], radius);
      FlatHunksAppend(ClipHunks(hunks[..i], radius), ClipHunk(hunks[i], radius));
      var recs := ClipOne(hunks[i], radius);
      kept := kept + recs;
    }
    assert hunks[..|hunks|] == hunks;
  }

  /** The diff with context farther than `radius` from any change dropped. */
  method ClipDiffHunks(d: Diff, radius: Int) returns (out: string)
    requires d.Valid()
    ensures out == ClipBytes(d.raw, radius)
  {
    hide Chunks, Records, Files, Emit, FlatAll, ClippedFiles, ClipFile, ClipHunks, FlatHunks, LinesOf, WidestOf, SectionOf, AllGathered, GitChunk, Preamble;
    ghost var recs := Records(d.raw);
    ghost var cs := Chunks(recs);
    SectionsGathered(recs);
    assert forall k :: 0 <= k < |cs| ==> GoodHunks(cs[k].hunks) by { SectionsGood(recs); }
    hide GoodHunks;
    out := "";
    NothingClipped(radius);
    for si := 0 to |d.sections|
      invariant out == Emit(FlatAll(ClippedFiles(cs[..si], radius)))
    {
      assert cs[..si + 1] == cs[..si] + [cs[si]];
      EmitClipNext(cs[..si], cs[si], radius);
      ClipFileIs(cs[si], radius);
      NothingClipped(radius);
      var s := d.sections[si];
      if s.pathA == "" && s.pathB == "" {
        continue;
      }
      var pro, hunks := SplitSection(d.lines, si, cs);
      var kept := ClipSection(pro, hunks, radius);
      FlatHunksEmpty(ClipHunks(hunks, radius));
      if |kept| == |pro| {
        continue;
      }
      var text := WriteRecords(kept);
      out := out + text;
    }
    assert cs[..|d.sections|] == cs;
    ClippedOfFiles(recs, radius);
    ClipBytesIs(d.raw, radius);
  }

  lemma {:induction false} NothingClipped(radius: Int)
    ensures Emit([]) == "" && FlatAll([]) == [] && ClippedFiles([], radius) == []
  {
  }

  lemma {:induction false} SectionsGood(recs: seq<string>)
    ensures forall k :: 0 <= k < |Chunks(recs)| ==> GoodHunks(Chunks(recs)[k].hunks)
  {
    ChunksGood(recs);
    hide Chunks, GoodHunks, Plain, IsGit;
  }
}
