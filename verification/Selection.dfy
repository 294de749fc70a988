/**
 Whole files taken out of a diff (`Excluded`) or kept in it (`Only`).
 */
module Selection {
  import opened Text
  import opened Header
  import opened Quoting
  import opened Parser
  import opened Structure

  /* ---- which files stay ---- */

  /** A path names one of the patterns, or sits under one as a directory. */
  predicate Hits(path: string, ex: seq<string>) {
    path != "" && exists k :: 0 <= k < |ex| && HitsOne(path, ex[k])
  }

  predicate HitsOne(path: string, e: string) {
    e != "" && (path == e || e + "/" <= path)
  }

  /** What a view asks of a section. */
  datatype Criterion = Outside(ex: seq<string>) | Among(paths: set<string>)

  predicate Keeps(c: Criterion, s: Section) {
    match c
    case Outside(ex) => !Hits(s.pathA, ex) && !Hits(s.pathB, ex)
    case Among(paths) => s.pathA in paths || s.pathB in paths
  }

  function Selected(fs: seq<Chunk>, c: Criterion): seq<Chunk> {
    if fs == [] then []
    else
      var front := Selected(fs[..|fs| - 1], c);
      if Keeps(c, SectionOf(fs[|fs| - 1])) then front + [fs[|fs| - 1]] else front
  }

  lemma {:induction false} SelectedSnoc(fs: seq<Chunk>, f: Chunk, c: Criterion)
    ensures Selected(fs + [f], c) == Selected(fs, c) + (if Keeps(c, SectionOf(f)) then [f] else [])
    ensures Selected([], c) == []
  {
    assert (fs + [f])[..|fs|] == fs;
  }

  lemma {:induction false} SelectedListed(fs: seq<Chunk>, c: Criterion)
    requires Listed(fs)
    ensures Listed(Selected(fs, c))
  {
    if fs != [] {
      hide GitChunk, Preamble, Keeps;
      SelectedListed(fs[..|fs| - 1], c);
      GitChunkIsNotEmpty(fs[|fs| - 1]);
    }
  }

  lemma {:induction false} SelectionsCommuteStep(front: seq<Chunk>, f: Chunk, c: Criterion, d: Criterion)
    requires Selected(Selected(front, c), d) == Selected(Selected(front, d), c)
    ensures Selected(Selected(front + [f], c), d) == Selected(Selected(front + [f], d), c)
  {
    hide *;
    SelectedSnoc(front, f, c);
    SelectedSnoc(front, f, d);
    SelectedSnoc(Selected(front, c), f, d);
    SelectedSnoc(Selected(front, d), f, c);
    assert Selected(front, c) + [] == Selected(front, c) && Selected(front, d) + [] == Selected(front, d);
  }

  lemma {:induction false} SelectionsCommute(fs: seq<Chunk>, c: Criterion, d: Criterion)
    ensures Selected(Selected(fs, c), d) == Selected(Selected(fs, d), c)
  {
    hide *;
    if fs == [] {
      SelectedSnoc([], EMPTY, c);
      SelectedSnoc([], EMPTY, d);
    } else {
      SelectionsCommute(fs[..|fs| - 1], c, d);
      SelectionsCommuteStep(fs[..|fs| - 1], fs[|fs| - 1], c, d);
      assert fs[..|fs| - 1] + [fs[|fs| - 1]] == fs;
    }
  }

  lemma {:induction false} SelectedTwiceStep(front: seq<Chunk>, f: Chunk, p: seq<string>, q: seq<string>)
    requires Selected(Selected(front, Outside(p)), Outside(q)) == Selected(front, Outside(p + q))
    ensures Selected(Selected(front + [f], Outside(p)), Outside(q)) == Selected(front + [f], Outside(p + q))
  {
    hide *;
    SelectedSnoc(front, f, Outside(p));
    SelectedSnoc(front, f, Outside(p + q));
    SelectedSnoc(Selected(front, Outside(p)), f, Outside(q));
    KeepsBoth(SectionOf(f), p, q);
    assert Selected(front, Outside(p)) + [] == Selected(front, Outside(p));
  }

  lemma {:induction false} SelectedTwice(fs: seq<Chunk>, p: seq<string>, q: seq<string>)
    ensures Selected(Selected(fs, Outside(p)), Outside(q)) == Selected(fs, Outside(p + q))
  {
    hide *;
    if fs == [] {
      SelectedSnoc([], EMPTY, Outside(p));
      SelectedSnoc([], EMPTY, Outside(q));
      SelectedSnoc([], EMPTY, Outside(p + q));
    } else {
      SelectedTwice(fs[..|fs| - 1], p, q);
      SelectedTwiceStep(fs[..|fs| - 1], fs[|fs| - 1], p, q);
      assert fs[..|fs| - 1] + [fs[|fs| - 1]] == fs;
    }
  }

  lemma {:induction false} HitsEither(path: string, p: seq<string>, q: seq<string>)
    ensures Hits(path, p + q) <==> Hits(path, p) || Hits(path, q)
  {
    hide HitsOne;
    if k :| 0 <= k < |p| && HitsOne(path, p[k]) {
      assert (p + q)[k] == p[k];
    }
    if k :| 0 <= k < |q| && HitsOne(path, q[k]) {
      assert (p + q)[|p| + k] == q[k];
    }
  }

  lemma {:induction false} KeepsBoth(s: Section, p: seq<string>, q: seq<string>)
    ensures Keeps(Outside(p + q), s) <==> Keeps(Outside(p), s) && Keeps(Outside(q), s)
  {
    hide Hits;
    HitsEither(s.pathA, p, q);
    HitsEither(s.pathB, p, q);
  }

  /* ---- the patterns of an exclusion ---- */

  function NonEmptyPaths(paths: seq<string>): seq<string> {
    if paths == [] then []
    else
      var front := NonEmptyPaths(paths[..|paths| - 1]);
      if paths[|paths| - 1] != "" then front + [paths[|paths| - 1]] else front
  }

  function TrimSlashes(s: string): string {
    if s != "" && s[|s| - 1] == '/' then TrimSlashes(s[..|s| - 1]) else s
  }

  function TrimAll(parts: seq<string>): seq<string> {
    seq(|parts|, k requires 0 <= k < |parts| => TrimSlashes(parts[k]))
  }

  function Patterns(paths: seq<string>): seq<string> {
    TrimAll(Split(Join(NonEmptyPaths(paths), '\n'), '\n'))
  }

  lemma {:induction false} NonEmptyPathsAppend(a: seq<string>, b: seq<string>)
    ensures NonEmptyPaths(a + b) == NonEmptyPaths(a) + NonEmptyPaths(b)
  {
    if b == [] {
      assert a + b == a;
    } else {
      assert (a + b)[..|a + b| - 1] == a + b[..|b| - 1];
      NonEmptyPathsAppend(a, b[..|b| - 1]);
    }
  }

  lemma {:induction false} PatternsAppend(p: seq<string>, q: seq<string>)
    requires NonEmptyPaths(p) != [] && NonEmptyPaths(q) != []
    ensures Patterns(p + q) == Patterns(p) + Patterns(q)
  {
    hide Split, Join, NonEmptyPaths;
    NonEmptyPathsAppend(p, q);
    var a, b := Join(NonEmptyPaths(p), '\n'), Join(NonEmptyPaths(q), '\n');
    JoinAppend(NonEmptyPaths(p), '\n', NonEmptyPaths(q));
    SplitAppend(a, '\n', b);
    assert TrimAll(Split(a, '\n') + Split(b, '\n')) == TrimAll(Split(a, '\n')) + TrimAll(Split(b, '\n'));
  }

  /* ---- the two views, as functions of the bytes ---- */

  /** The bytes of the files a criterion keeps. */
  function SelectedBytes(raw: string, c: Criterion): string {
    Emit(FlatAll(Selected(Files(Records(raw)), c)))
  }

  function ExcludedBytes(raw: string, paths: seq<string>): string {
    if NonEmptyPaths(paths) == [] then raw else SelectedBytes(raw, Outside(Patterns(paths)))
  }

  function PathSet(paths: seq<string>): set<string> {
    set p | p in paths && p != ""
  }

  function OnlyBytes(raw: string, paths: seq<string>): string {
    SelectedBytes(raw, Among(PathSet(paths)))
  }

  ghost predicate ChunkFree(c: Chunk) {
    && Free(c.prologue, '\n')
    && (forall k :: 0 <= k < |c.hunks| ==> '\n' !in c.hunks[k].header && Free(c.hunks[k].body, '\n'))
  }

  lemma {:induction false} FlatFreeIff(c: Chunk)
    ensures Free(Flat(c), '\n') <==> ChunkFree(c)
  {
    FlatHunksFree(c.hunks);
    hide FlatHunks;
    var a, b := c.prologue, FlatHunks(c.hunks);
    FreeAppend(a, b, '\n');
  }

  lemma {:induction false} FreeAppend(a: seq<string>, b: seq<string>, sep: char)
    ensures Free(a + b, sep) <==> Free(a, sep) && Free(b, sep)
  {
    if Free(a + b, sep) {
      forall k | 0 <= k < |a| ensures sep !in a[k] { assert (a + b)[k] == a[k]; }
      forall k | 0 <= k < |b| ensures sep !in b[k] { assert (a + b)[|a| + k] == b[k]; }
    }
  }

  lemma {:induction false} FlatHunksFree(hs: seq<RawHunk>)
    ensures Free(FlatHunks(hs), '\n') <==> forall k :: 0 <= k < |hs| ==> '\n' !in hs[k].header && Free(hs[k].body, '\n')
  {
    if hs != [] {
      var front, h := hs[..|hs| - 1], hs[|hs| - 1];
      FlatHunksFree(front);
      FreeAppend(FlatHunks(front), FlatHunk(h), '\n');
      FreeAppend([h.header], h.body, '\n');
      assert Free([h.header], '\n') <==> '\n' !in [h.header][0];
      assert FlatHunks(hs) == FlatHunks(front) + FlatHunk(h);
      hide FlatHunks, Free;
      assert forall k :: 0 <= k < |front| ==> front[k] == hs[k];
    }
  }

  lemma {:induction false} SelectedFree(fs: seq<Chunk>, c: Criterion)
    requires Free(FlatAll(fs), '\n')
    ensures Free(FlatAll(Selected(fs, c)), '\n')
  {
    if fs != [] {
      var front, f := fs[..|fs| - 1], fs[|fs| - 1];
      FreeAppend(FlatAll(front), Flat(f), '\n');
      SelectedFree(front, c);
      hide Free, Flat;
      if Keeps(c, SectionOf(f)) {
        FlatAllSnoc(Selected(front, c), f);
        FreeAppend(FlatAll(Selected(front, c)), Flat(f), '\n');
      }
    }
  }

  lemma {:induction false} SelectedRecords(raw: string, c: Criterion)
    ensures Records(SelectedBytes(raw, c)) == FlatAll(Selected(Files(Records(raw)), c))
  {
    hide Records, Emit, Selected, Files, FlatAll, Free;
    RecordsFree(raw);
    FilesLoseNothing(Records(raw));
    SelectedFree(Files(Records(raw)), c);
    RecordsInvertEmit(FlatAll(Selected(Files(Records(raw)), c)));
  }

  /** Parsing a selection yields exactly the surviving files, each with the
      records, and so the paths and numbers, it had. */
  lemma {:induction false} SelectionParses(raw: string, c: Criterion)
    ensures Files(Records(SelectedBytes(raw, c))) == Selected(Files(Records(raw)), c)
  {
    hide Records, Selected, Files, FlatAll, SelectedBytes;
    SelectedRecords(raw, c);
    FilesListed(Records(raw));
    SelectedListed(Files(Records(raw)), c);
    FilesInvertFlat(Selected(Files(Records(raw)), c));
  }

  /** Excluding twice is excluding once with both lists, whatever the lists. */
  lemma {:induction false} ExcludedTwice(raw: string, p: seq<string>, q: seq<string>)
    ensures ExcludedBytes(ExcludedBytes(raw, p), q) == ExcludedBytes(raw, p + q)
  {
    hide Records, Selected, Files, FlatAll, NonEmptyPaths, Patterns, Emit;
    NonEmptyPathsAppend(p, q);
    if NonEmptyPaths(p) == [] {
      PatternsOf(p + q, q);
    } else if NonEmptyPaths(q) == [] {
      PatternsOf(p + q, p);
    } else {
      PatternsAppend(p, q);
      SelectionParses(raw, Outside(Patterns(p)));
      SelectedTwice(Files(Records(raw)), Patterns(p), Patterns(q));
    }
  }

  lemma {:induction false} PatternsOf(a: seq<string>, b: seq<string>)
    requires NonEmptyPaths(a) == NonEmptyPaths(b)
    ensures Patterns(a) == Patterns(b)
  {
  }

  /** Excluding and keeping commute. */
  lemma {:induction false} ExcludedOnlyCommute(raw: string, out: seq<string>, keep: seq<string>)
    ensures ExcludedBytes(OnlyBytes(raw, keep), out) == OnlyBytes(ExcludedBytes(raw, out), keep)
  {
    hide Records, Selected, Files, FlatAll, NonEmptyPaths, Patterns, Emit, PathSet;
    var c, d := Among(PathSet(keep)), Outside(Patterns(out));
    SelectionParses(raw, c);
    SelectionParses(raw, d);
    SelectionsCommute(Files(Records(raw)), c, d);
  }

  /* ---- the loops ---- */

  method HitsLoop(path: string, ex: seq<string>) returns (hit: bool)
    ensures hit == Hits(path, ex)
  {
    if path == "" {
      return false;
    }
    for i := 0 to |ex|
      invariant forall k :: 0 <= k < i ==> !HitsOne(path, ex[k])
    {
      var e := ex[i];
      if e == "" {
        continue;
      }
      if path == e || e + "/" <= path {
        assert HitsOne(path, ex[i]);
        return true;
      }
    }
    return false;
  }

  /** The texts of the lines whose section is kept. */
  function KeptRaws(lines: seq<Line>, keep: seq<bool>): seq<string>
    requires forall k :: 0 <= k < |lines| ==> lines[k].section < |keep|
  {
    if lines == [] then []
    else
      var front := KeptRaws(lines[..|lines| - 1], keep);
      var l := lines[|lines| - 1];
      if keep[l.section] then front + [l.row.raw] else front
  }

  lemma {:induction false} KeptRawsAppend(a: seq<Line>, b: seq<Line>, keep: seq<bool>)
    requires forall k :: 0 <= k < |a| ==> a[k].section < |keep|
    requires forall k :: 0 <= k < |b| ==> b[k].section < |keep|
    ensures KeptRaws(a + b, keep) == KeptRaws(a, keep) + KeptRaws(b, keep)
  {
    if b == [] {
      assert a + b == a;
    } else {
      assert (a + b)[..|a + b| - 1] == a + b[..|b| - 1];
      KeptRawsAppend(a, b[..|b| - 1], keep);
    }
  }

  function Raws(rows: seq<Row>): seq<string> {
    seq(|rows|, k requires 0 <= k < |rows| => rows[k].raw)
  }

  lemma {:induction false} KeptRawsTag(section: nat, rows: seq<Row>, keep: seq<bool>)
    requires section < |keep|
    ensures KeptRaws(Tag(section, rows), keep) == if keep[section] then Raws(rows) else []
  {
    if rows != [] {
      var front, r := rows[..|rows| - 1], rows[|rows| - 1];
      KeptRawsTag(section, front, keep);
      assert Tag(section, rows)[..|rows| - 1] == Tag(section, front);
      assert Raws(rows) == Raws(front) + [r.raw];
    }
  }

  lemma {:induction false} RawsAppend(a: seq<Row>, b: seq<Row>)
    ensures Raws(a + b) == Raws(a) + Raws(b)
  {
  }

  lemma {:induction false} RawsOfHunks(hs: seq<RawHunk>)
    ensures Raws(HunksRows(hs)) == FlatHunks(hs)
  {
    if hs != [] {
      hide Raws, HunkRows, FlatHunk;
      RawsOfHunks(hs[..|hs| - 1]);
      RawsOfHunk(hs[|hs| - 1]);
      RawsAppend(HunksRows(hs[..|hs| - 1]), HunkRows(hs[|hs| - 1]));
    }
  }

  lemma {:induction false} RawsOfHunk(h: RawHunk)
    ensures Raws(HunkRows(h)) == FlatHunk(h)
  {
    hide ParsedOld, ParsedNew, CountOld, CountNew;
    var body := BodyRows(h.body, ParsedOld(h.header), ParsedNew(h.header));
    assert Raws(body) == h.body;
    assert Raws([HeaderRow(h.header)] + body) == [h.header] + Raws(body);
  }

  lemma {:induction false} RawsOfRows(c: Chunk)
    ensures Raws(Rows(c)) == Flat(c)
  {
    RawsOfHunks(c.hunks);
    hide FlatHunks, HunksRows;
    assert Raws(HeaderRows(c.prologue) + HunksRows(c.hunks)) == c.prologue + Raws(HunksRows(c.hunks));
  }

  lemma {:induction false} SectionsInRange(cs: seq<Chunk>)
    ensures forall k :: 0 <= k < |LinesOf(cs)| ==> LinesOf(cs)[k].section < |cs|
  {
    if cs != [] {
      hide Rows;
      SectionsInRange(cs[..|cs| - 1]);
    }
  }

  ghost predicate Marks(keep: seq<bool>, cs: seq<Chunk>, c: Criterion) {
    |keep| >= |cs| && forall k :: 0 <= k < |cs| ==> keep[k] == Keeps(c, SectionOf(cs[k]))
  }

  lemma {:induction false} KeptRawsAreSelected(cs: seq<Chunk>, keep: seq<bool>, c: Criterion)
    requires Marks(keep, cs, c)
    requires forall k :: 0 <= k < |LinesOf(cs)| ==> LinesOf(cs)[k].section < |keep|
    ensures KeptRaws(LinesOf(cs), keep) == FlatAll(Selected(cs, c))
  {
    if cs != [] {
      var front, last := cs[..|cs| - 1], cs[|cs| - 1];
      hide Rows, Keeps, Flat, SectionOf;
      SectionsInRange(front);
      KeptRawsAreSelected(front, keep, c);
      KeptRawsAppend(LinesOf(front), Tag(|front|, Rows(last)), keep);
      KeptRawsTag(|front|, Rows(last), keep);
      RawsOfRows(last);
      FlatAllSnoc(Selected(front, c), last);
      hide KeptRaws, FlatAll;
    }
  }

  lemma {:induction false} SelectedOfFiles(recs: seq<string>, c: Criterion)
    ensures FlatAll(Selected(Chunks(recs), c)) == FlatAll(Selected(Files(recs), c))
  {
    var cs := Chunks(recs);
    if cs[0] == EMPTY {
      hide Chunks;
      SelectedTail(cs, c);
    }
  }

  lemma {:induction false} SelectedAppend(a: seq<Chunk>, b: seq<Chunk>, c: Criterion)
    ensures Selected(a + b, c) == Selected(a, c) + Selected(b, c)
  {
    if b == [] {
      assert a + b == a;
    } else {
      hide Keeps;
      assert (a + b)[..|a + b| - 1] == a + b[..|b| - 1];
      SelectedAppend(a, b[..|b| - 1], c);
    }
  }

  lemma {:induction false} SelectedTail(cs: seq<Chunk>, c: Criterion)
    requires cs != [] && cs[0] == EMPTY
    ensures FlatAll(Selected(cs, c)) == FlatAll(Selected(cs[1..], c))
  {
    hide *;
    assert cs == [EMPTY] + cs[1..] && [EMPTY] == [] + [EMPTY];
    SelectedAppend([EMPTY], cs[1..], c);
    SelectedSnoc([], EMPTY, c);
    FlatAllAppend(Selected([EMPTY], c), Selected(cs[1..], c));
    FlatEmpty();
    FlatAllSnoc([], EMPTY);
  }

  /** Writes the lines whose section is kept. */
  method WriteKept(lines: seq<Line>, keep: seq<bool>) returns (out: string)
    requires forall k :: 0 <= k < |lines| ==> lines[k].section < |keep|
    ensures out == Emit(KeptRaws(lines, keep))
  {
    out := "";
    for i := 0 to |lines|
      invariant out == Emit(KeptRaws(lines[..i], keep))
    {
      assert lines[..i + 1][..i] == lines[..i];
      var l := lines[i];
      if !keep[l.section] {
        continue;
      }
      ghost var before := KeptRaws(lines[..i], keep);
      assert (before + [l.row.raw])[..|before|] == before;
      out := out + l.row.raw + "\n";
    }
    assert lines[..|lines|] == lines;
  }

  method Excluded(d: Diff, paths: seq<string>) returns (out: string)
    requires d.Valid()
    ensures out == ExcludedBytes(d.raw, paths)
  {
    hide Chunks, Records, LinesOf, Selected, FlatAll, Files, Emit, Split, Join, KeptRaws, WidestOf, Hits, TrimSlashes;
    var list := [];
    for i := 0 to |paths|
      invariant list == NonEmptyPaths(paths[..i])
    {
      assert paths[..i + 1][..i] == paths[..i];
      if paths[i] != "" {
        list := list + [paths[i]];
      }
    }
    assert paths[..|paths|] == paths;
    hide NonEmptyPaths;
    if |list| == 0 {
      return d.raw;
    }
    var parts := Split(Join(list, '\n'), '\n');
    var ex := new string[|parts|](k requires 0 <= k < |parts| => parts[k]);
    for i := 0 to ex.Length
      invariant forall k :: 0 <= k < i ==> ex[k] == TrimSlashes(parts[k])
      invariant forall k :: i <= k < ex.Length ==> ex[k] == parts[k]
    {
      ex[i] := TrimSlashes(ex[i]);
    }
    var trimmed := ex[..];
    assert trimmed == Patterns(paths);
    var drop := new bool[|d.sections|];
    for i := 0 to |d.sections|
      invariant forall k :: 0 <= k < i ==> drop[k] == !Keeps(Outside(trimmed), d.sections[k])
    {
      var a := HitsLoop(d.sections[i].pathA, trimmed);
      var b := HitsLoop(d.sections[i].pathB, trimmed);
      drop[i] := a || b;
    }
    var keep := seq(|d.sections|, k requires 0 <= k < drop.Length reads drop => !drop[k]);
    ghost var cs := Chunks(Records(d.raw));
    SectionsInRange(cs);
    out := WriteKept(d.lines, keep);
    KeptRawsAreSelected(cs, keep, Outside(trimmed));
    SelectedOfFiles(Records(d.raw), Outside(trimmed));
  }

  method Only(d: Diff, paths: seq<string>) returns (out: string)
    requires d.Valid()
    ensures out == OnlyBytes(d.raw, paths)
  {
    hide Chunks, Records, LinesOf, Selected, FlatAll, Files, Emit, KeptRaws, WidestOf;
    var names: set<string> := {};
    for i := 0 to |paths|
      invariant names == PathSet(paths[..i])
    {
      if paths[i] != "" {
        names := names + {paths[i]};
      }
    }
    assert paths[..|paths|] == paths;
    var keep := seq(|d.sections|, k requires 0 <= k < |d.sections| reads d =>
      d.sections[k].pathA in names || d.sections[k].pathB in names);
    ghost var cs := Chunks(Records(d.raw));
    SectionsInRange(cs);
    out := WriteKept(d.lines, keep);
    KeptRawsAreSelected(cs, keep, Among(names));
    SelectedOfFiles(Records(d.raw), Among(names));
  }
}
