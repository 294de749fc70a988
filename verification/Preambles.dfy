/**
 What a clip does with the records before the first `diff --git` line.
 */
module Preambles {
  import opened Text
  import opened Header
  import opened Quoting
  import opened Parser
  import opened Structure
  import opened Runs
  import opened Clip
  import opened ClipFiles
  import opened ClipDiff
  import opened ClipText

  /** Some record comes before the first `diff --git` line. */
  predicate OpensEarly(raw: string) { Records(raw) != [] && !IsGit(Records(raw)[0]) }

  /** A file with no `diff --git` line of its own. */
  ghost predicate Early(fs: seq<Chunk>) { fs != [] && !GitChunk(fs[0]) }

  /** The first file, whose records open the diff. */
  function First(fs: seq<Chunk>): Chunk { if fs == [] then EMPTY else fs[0] }

  lemma {:induction false} FlatFirst(fs: seq<Chunk>)
    requires fs != [] && Flat(fs[0]) != []
    ensures FlatAll(fs) != [] && FlatAll(fs)[0] == Flat(fs[0])[0]
  {
    hide Flat;
    if |fs| == 1 {
      assert fs[..0] == [];
    } else {
      FlatFirst(fs[..|fs| - 1]);
    }
  }

  lemma {:induction false} FlatHunksFirst(hs: seq<RawHunk>)
    requires hs != []
    ensures FlatHunks(hs) != [] && FlatHunks(hs)[0] == hs[0].header
  {
    if |hs| == 1 {
      assert hs[..0] == [];
    } else {
      FlatHunksFirst(hs[..|hs| - 1]);
    }
  }

  /** The first record of a file tells whether it has a `diff --git` line. */
  lemma {:induction false} FirstRecordTells(c: Chunk)
    requires c != EMPTY && (Preamble(c) || GitChunk(c))
    ensures Flat(c) != [] && (GitChunk(c) <==> IsGit(Flat(c)[0]))
  {
    if c.prologue == [] {
      assert c.hunks != [];
      FlatHunksFirst(c.hunks);
      GitIsNotHunk(c.hunks[0].header);
    } else {
      assert Flat(c)[0] == c.prologue[0];
    }
    hide IsGit, IsHunk, FlatHunks;
  }

  lemma {:induction false} OpensEarlyIs(raw: string)
    ensures OpensEarly(raw) <==> Early(Files(Records(raw)))
  {
    var recs := Records(raw);
    var fs := Files(recs);
    FilesListed(recs);
    FilesLoseNothing(recs);
    hide Files, Records, GitChunk, Preamble, IsGit, Flat, FlatAll;
    if fs == [] {
      FlatNone();
    } else {
      FirstRecordTells(fs[0]);
      FlatFirst(fs);
    }
  }

  lemma {:induction false} FlatNone()
    ensures FlatAll([]) == []
  {
  }

  lemma {:induction false} ClippedPrologues(fs: seq<Chunk>, radius: Int)
    requires forall k :: 0 <= k < |fs| ==> GitChunk(fs[k])
    ensures forall d :: d in ClippedFiles(fs, radius) ==> d.prologue != [] && IsGit(d.prologue[0])
  {
    hide IsGit, Plain, GoodHunks, ClipHunks, Named;
    if fs != [] {
      ClippedPrologues(fs[..|fs| - 1], radius);
      assert GitChunk(fs[|fs| - 1]);
    }
  }

  lemma {:induction false} ClippedFirst(fs: seq<Chunk>, radius: Int)
    requires fs != []
    ensures ClippedFiles(fs, radius) == ClipFile(fs[0], radius) + ClippedFiles(fs[1..], radius)
  {
    assert [fs[0]] + fs[1..] == fs;
    ClippedFilesAppend([fs[0]], fs[1..], radius);
    ClippedFilesSnoc([], fs[0], radius);
    hide ClippedFiles, ClipFile;
    assert [] + [fs[0]] == [fs[0]] && [] + ClipFile(fs[0], radius) == ClipFile(fs[0], radius);
  }

  /** The hunk cannot be read, or adds or removes a line. */
  predicate Left(h: RawHunk) { !Readable(h) || HasChange(h.body) }

  predicate AnyLeft(hs: seq<RawHunk>) { exists k :: 0 <= k < |hs| && Left(hs[k]) }

  lemma {:induction false} AnyLeftSnoc(hs: seq<RawHunk>, h: RawHunk)
    ensures AnyLeft(hs + [h]) <==> AnyLeft(hs) || Left(h)
    ensures !AnyLeft([])
  {
    hide Left;
    var all := hs + [h];
    assert all[|hs|] == h && forall k :: 0 <= k < |hs| ==> all[k] == hs[k];
    if AnyLeft(hs) {
      var k :| 0 <= k < |hs| && Left(hs[k]);
      assert Left(all[k]);
    }
  }

  /** A clip leaves something of a list of hunks exactly when one of them cannot be
      read or adds or removes a line. */
  lemma {:induction false} ClipHunksLeft(hs: seq<RawHunk>, radius: Int)
    ensures ClipHunks(hs, radius) != [] <==> AnyLeft(hs)
  {
    hide *;
    if hs == [] {
      ClipHunksSnoc([], RawHunk("", []), radius);
      AnyLeftSnoc([], RawHunk("", []));
    } else {
      var front, h := hs[..|hs| - 1], hs[|hs| - 1];
      assert front + [h] == hs;
      ClipHunksLeft(front, radius);
      ClipHunksSnoc(front, h, radius);
      AnyLeftSnoc(front, h);
      ClipHunkLeft(h, radius);
    }
  }

  lemma {:induction false} ClipHunkLeft(h: RawHunk, radius: Int)
    ensures ClipHunk(h, radius) != [] <==> Left(h)
  {
    ClipHunkEmpty(h, radius);
    hide ClipHunk, HasChange, BodyRows, KeptRows, KeepSeq;
    if Readable(h) {
      hide Readable;
      var header := SplitHunkHeader(h.header).value;
      KeptExactlyWhenChanged(h.body, header.oldStart, header.newStart, radius);
    }
  }

  /** The records before the first `diff --git` line survive a clip exactly when a
      side line among them names a path and one of their hunks cannot be read or
      adds or removes a line; then they are the clipped file they would be with a
      `diff --git` line of their own. */
  lemma {:induction false} PreambleSurvivesExactlyWhen(raw: string, radius: Int)
    requires OpensEarly(raw)
    ensures var c := First(Files(Records(raw)));
            && (OpensEarly(ClipBytes(raw, radius)) <==> Named(c) && AnyLeft(c.hunks))
            && (OpensEarly(ClipBytes(raw, radius)) ==>
                  First(Files(Records(ClipBytes(raw, radius)))) == Chunk(c.prologue, ClipHunks(c.hunks, radius)))
  {
    hide *;
    var fs, gs := Files(Records(raw)), Files(Records(ClipBytes(raw, radius)));
    OpensEarlyIs(raw);
    FirstIs(fs);
    OpensEarlyIs(ClipBytes(raw, radius));
    FilesListed(Records(raw));
    FilesListed(Records(ClipBytes(raw, radius)));
    ClipParses(raw, radius);
    ClippedFirst(fs, radius);
    LaterFilesOpen(fs);
    ClippedPrologues(fs[1..], radius);
    EarlyOutput(fs, gs, radius);
    ClipHunksLeft(fs[0].hunks, radius);
    ClipFileIs(fs[0], radius);
    FirstIs(gs);
  }

  lemma {:induction false} FirstIs(fs: seq<Chunk>)
    ensures fs != [] ==> First(fs) == fs[0] && fs[..1] == [fs[0]]
    ensures Early(fs) ==> fs != []
  {
  }

  lemma {:induction false} LaterFilesOpen(fs: seq<Chunk>)
    requires Listed(fs) && fs != []
    ensures forall k :: 0 <= k < |fs[1..]| ==> GitChunk(fs[1..][k])
  {
    hide GitChunk;
  }

  lemma {:induction false} ClipFileIs(c: Chunk, radius: Int)
    ensures ClipFile(c, radius) == if Named(c) && ClipHunks(c.hunks, radius) != [] then [Chunk(c.prologue, ClipHunks(c.hunks, radius))] else []
  {
    hide Named, ClipHunks;
  }

  lemma {:induction false} EarlyOutput(fs: seq<Chunk>, gs: seq<Chunk>, radius: Int)
    requires Early(fs) && Listed(fs) && Listed(gs) && gs == ClipFile(fs[0], radius) + ClippedFiles(fs[1..], radius)
    requires forall d :: d in ClippedFiles(fs[1..], radius) ==> d.prologue != [] && IsGit(d.prologue[0])
    ensures Early(gs) <==> ClipFile(fs[0], radius) != []
    ensures Early(gs) ==> gs[..1] == ClipFile(fs[0], radius)
  {
    hide ClipHunks, Named, ClippedFiles, GoodHunks, IsGit, IsHunk;
    if ClipFile(fs[0], radius) == [] && gs != [] {
      assert gs[0] in ClippedFiles(fs[1..], radius);
    }
  }

  const SIDE_LINE := "+++ b/x"
  const HUNK_LINE := "@@ -0,0 +1 @@"
  const ADDED_LINE := "+y"

  /** A diff whose only records come before any `diff --git` line and survive every
      clip: a side line that names a path, and a hunk that adds a line. */
  lemma {:induction false} PreambleCanSurvive(radius: Int)
    ensures var raw := Emit([SIDE_LINE, HUNK_LINE, ADDED_LINE]);
            OpensEarly(raw) && OpensEarly(ClipBytes(raw, radius))
  {
    var recs := [SIDE_LINE, HUNK_LINE, ADDED_LINE];
    var c := Chunk([SIDE_LINE], [RawHunk(HUNK_LINE, [ADDED_LINE])]);
    RecordsOpen();
    XIsNamed(c);
    YIsChange(c.hunks[0]);
    hide *;
    RecordsInvertEmit(recs);
    ThreeRecords(SIDE_LINE, HUNK_LINE, ADDED_LINE);
    OneFile(recs, c);
    EarlyRecords(Emit(recs), recs);
    OneLeft(c.hunks[0]);
    PreambleSurvivesExactlyWhen(Emit(recs), radius);
  }

  lemma {:induction false} RecordsOpen()
    ensures !IsGit(SIDE_LINE) && !IsHunk(SIDE_LINE) && !IsGit(HUNK_LINE) && IsHunk(HUNK_LINE)
    ensures !IsGit(ADDED_LINE) && !IsHunk(ADDED_LINE)
    ensures Free([SIDE_LINE, HUNK_LINE, ADDED_LINE], '\n')
  {
    assert SIDE_LINE[0] == '+' && ADDED_LINE[0] == '+' && HUNK_LINE[0] == '@' && HUNK_LINE[1] == '@';
  }

  lemma {:induction false} EarlyRecords(raw: string, recs: seq<string>)
    requires Records(raw) == recs && recs != [] && !IsGit(recs[0])
    ensures OpensEarly(raw)
  {
  }

  lemma {:induction false} OneFile(recs: seq<string>, c: Chunk)
    requires Chunks(recs) == [c] && c.prologue != []
    ensures Files(recs) == [c]
  {
  }

  lemma {:induction false} OneLeft(h: RawHunk)
    requires Left(h)
    ensures AnyLeft([h])
  {
    hide Left;
    assert [h][0] == h;
  }

  lemma {:induction false} ChunksSnoc(recs: seq<string>, rec: string)
    ensures Chunks(recs + [rec]) == AddRecord(Chunks(recs), rec)
    ensures Chunks([]) == [EMPTY]
  {
    hide AddRecord;
    assert (recs + [rec])[..|recs|] == recs;
  }

  lemma {:induction false} ThreeRecords(a: string, b: string, c: string)
    requires !IsGit(a) && !IsHunk(a) && !IsGit(b) && IsHunk(b) && !IsGit(c) && !IsHunk(c)
    ensures Chunks([a, b, c]) == [Chunk([a], [RawHunk(b, [c])])]
  {
    hide Chunks, IsGit, IsHunk;
    assert [] + [a] == [a] && [a] + [b] == [a, b] && [a, b] + [c] == [a, b, c];
    ChunksSnoc([], a);
    AddsOne(EMPTY, a);
    ChunksSnoc([a], b);
    AddsOne(Chunk([a], []), b);
    ChunksSnoc([a, b], c);
    AddsOne(Chunk([a], [RawHunk(b, [])]), c);
    hide AddRecord;
    assert AddTo(EMPTY, a) == Chunk([a], []) by { assert [] + [a] == [a]; }
    assert AddTo(Chunk([a], []), b) == Chunk([a], [RawHunk(b, [])]);
    assert AddTo(Chunk([a], [RawHunk(b, [])]), c) == Chunk([a], [RawHunk(b, [c])]) by { assert [] + [c] == [c]; }
  }

  lemma {:induction false} AddsOne(c: Chunk, rec: string)
    requires !IsGit(rec)
    ensures AddRecord([c], rec) == [AddTo(c, rec)]
  {
    hide AddTo;
  }

  lemma {:induction false} XIsNamed(c: Chunk)
    requires c.prologue == [SIDE_LINE]
    ensures Named(c)
  {
    var rec := SIDE_LINE;
    assert "+++ " <= rec && rec[|"+++ "|..] == "b/x";
    assert BeforeTab("b/x") == "b/x" && UnquotedOf("b/x") == "b/x" && "b/x" != "/dev/null";
    assert "b/x"[|"b/"|..] == "x" && "b/" <= "b/x";
    assert HeaderPath("b/x", "b/") == "x";
    assert PathOn("+++ ", "b/", c.prologue) == "x";
  }

  lemma {:induction false} YIsChange(h: RawHunk)
    requires h.body == [ADDED_LINE]
    ensures Left(h)
  {
    hide Readable;
    assert ADDED_LINE[0] == '+' && IsChange(h.body[0]);
  }
}
