/**
 Clipping as a map from bytes to bytes, and the main results about it.
 */
module ClipDiff {
  import opened Text
  import opened Header
  import opened Quoting
  import opened Parser
  import opened Structure
  import opened Runs
  import opened Clip
  import opened ClipFiles
  import opened Selection

  /** A file whose side lines named it on at least one side. */
  predicate Named(c: Chunk) { SectionOf(c) != Section("", "") }

  /** What clipping leaves of one file: nothing when no path names it or no hunk
      of it is left. */
  function ClipFile(c: Chunk, radius: Int): seq<Chunk> {
    var hs := ClipHunks(c.hunks, radius);
    if !Named(c) || hs == [] then [] else [Chunk(c.prologue, hs)]
  }

  function ClippedFiles(fs: seq<Chunk>, radius: Int): seq<Chunk> {
    if fs == [] then [] else ClippedFiles(fs[..|fs| - 1], radius) + ClipFile(fs[|fs| - 1], radius)
  }

  function ClipBytes(raw: string, radius: Int): string {
    Emit(FlatAll(ClippedFiles(Files(Records(raw)), radius)))
  }

  lemma {:induction false} ClippedFilesSnoc(fs: seq<Chunk>, c: Chunk, radius: Int)
    ensures ClippedFiles(fs + [c], radius) == ClippedFiles(fs, radius) + ClipFile(c, radius)
    ensures ClippedFiles([], radius) == []
  {
    assert (fs + [c])[..|fs|] == fs;
  }

  lemma {:induction false} ClippedFilesAppend(a: seq<Chunk>, b: seq<Chunk>, radius: Int)
    ensures ClippedFiles(a + b, radius) == ClippedFiles(a, radius) + ClippedFiles(b, radius)
  {
    hide *;
    if b == [] {
      assert a + b == a;
      ClippedFilesSnoc([], EMPTY, radius);
    } else {
      var front, c := b[..|b| - 1], b[|b| - 1];
      ClippedFilesAppend(a, front, radius);
      assert front + [c] == b && a + b == (a + front) + [c];
      ClippedFilesSnoc(a + front, c, radius);
      ClippedFilesSnoc(front, c, radius);
    }
  }

  /* ---- the clipped diff is written as files and read as files ---- */

  lemma {:induction false} HeaderTextGood(o: int, ol: int, n: int, nl: int, suffix: string)
    ensures IsHunk(HeaderText(o, ol, n, nl, suffix))
    ensures '\n' !in suffix ==> '\n' !in HeaderText(o, ol, n, nl, suffix)
  {
    HunkCountShape(o, ol);
    HunkCountShape(n, nl);
    hide HunkCount;
    MarkedGood("-" + HunkCount(o, ol), "+" + HunkCount(n, nl), suffix);
  }

  lemma {:induction false} MarkedGood(minus: string, plus: string, suffix: string)
    ensures IsHunk(Marked(minus, plus, suffix))
    ensures '\n' !in minus && '\n' !in plus && '\n' !in suffix ==> '\n' !in Marked(minus, plus, suffix)
  {
  }

  lemma {:induction false} StretchGood(body: seq<string>, lo: nat, hi: nat)
    requires lo <= hi <= |body|
    ensures Plain(body) ==> Plain(body[lo..hi])
    ensures Free(body, '\n') ==> Free(body[lo..hi], '\n')
  {
    hide IsGit, IsHunk;
    assert forall k :: 0 <= k < hi - lo ==> body[lo..hi][k] == body[lo + k];
  }

  lemma {:induction false} RunHunkGood(body: seq<string>, h: HunkHeader, s: Span)
    requires s.lo <= s.hi <= |body|
    ensures IsHunk(RunHunk(body, h, s).header)
    ensures Plain(body) ==> Plain(RunHunk(body, h, s).body)
    ensures Free(body, '\n') ==> Free(RunHunk(body, h, s).body, '\n')
    ensures '\n' !in h.suffix ==> '\n' !in RunHunk(body, h, s).header
  {
    var g, part := RunHeader(body, h, s), body[s.lo..s.hi];
    hide RunHeader, HeaderText, IsHunk, Plain, Free, CountOld, CountNew;
    StretchGood(body, s.lo, s.hi);
    HeaderTextGood(g.oldStart, CountOld(part), g.newStart, CountNew(part), h.suffix);
  }

  ghost predicate FreeHunk(h: RawHunk) { '\n' !in h.header && Free(h.body, '\n') }

  ghost predicate FreeHunks(hs: seq<RawHunk>) { forall k :: 0 <= k < |hs| ==> FreeHunk(hs[k]) }

  lemma {:induction false} SuffixFree(rec: string)
    requires SplitHunkHeader(rec).Some? && '\n' !in rec
    ensures '\n' !in SplitHunkHeader(rec).value.suffix
  {
    hide Fields, HunkRange;
  }

  lemma {:induction false} RunHunksGood(body: seq<string>, h: HunkHeader, spans: seq<Span>)
    requires Within(spans, |body|) && Plain(body)
    ensures GoodHunks(RunHunks(body, h, spans))
    ensures Free(body, '\n') && '\n' !in h.suffix ==> FreeHunks(RunHunks(body, h, spans))
  {
    hide IsHunk, Plain, Free, RunHunk;
    forall k | 0 <= k < |spans|
      ensures IsHunk(RunHunk(body, h, spans[k]).header) && Plain(RunHunk(body, h, spans[k]).body)
      ensures Free(body, '\n') && '\n' !in h.suffix ==> FreeHunk(RunHunk(body, h, spans[k]))
    {
      RunHunkGood(body, h, spans[k]);
    }
  }

  lemma {:induction false} ClipHunkGood(hunk: RawHunk, radius: Int)
    requires IsHunk(hunk.header) && Plain(hunk.body)
    ensures GoodHunks(ClipHunk(hunk, radius))
    ensures FreeHunk(hunk) ==> FreeHunks(ClipHunk(hunk, radius))
  {
    if Readable(hunk) {
      var h := SplitHunkHeader(hunk.header).value;
      if FreeHunk(hunk) { SuffixFree(hunk.header); }
      assert FreeHunk(hunk) ==> Free(hunk.body, '\n');
      hide *;
      ClipOfReadable(hunk, h, radius);
      RunHunksGood(hunk.body, h, KeptRuns(hunk.body, h, radius));
    } else {
      ClipOfUnreadable(hunk, radius);
      hide SplitHunkHeader, IsHunk, Plain, FreeHunk, ClipHunk;
    }
  }

  lemma {:induction false} GoodTogether(a: seq<RawHunk>, b: seq<RawHunk>)
    ensures GoodHunks(a) && GoodHunks(b) ==> GoodHunks(a + b)
    ensures FreeHunks(a) && FreeHunks(b) ==> FreeHunks(a + b)
  {
    hide IsHunk, Plain, FreeHunk;
  }

  lemma {:induction false} ClipHunksGood(hs: seq<RawHunk>, radius: Int)
    requires GoodHunks(hs)
    ensures GoodHunks(ClipHunks(hs, radius))
    ensures FreeHunks(hs) ==> FreeHunks(ClipHunks(hs, radius))
  {
    if hs == [] {
      ClipHunksSnoc([], RawHunk("", []), radius);
    } else {
      hide ClipHunk, ClipHunks, IsHunk, Plain, FreeHunk;
      var front, h := hs[..|hs| - 1], hs[|hs| - 1];
      assert front + [h] == hs;
      ClipHunksGood(front, radius);
      ClipHunkGood(h, radius);
      ClipHunksSnoc(front, h, radius);
      GoodTogether(ClipHunks(front, radius), ClipHunk(h, radius));
    }
  }

  lemma {:induction false} ClippedListed(fs: seq<Chunk>, radius: Int)
    requires Listed(fs)
    ensures Listed(ClippedFiles(fs, radius))
  {
    if fs != [] {
      hide ClipHunks, IsGit, IsHunk, Plain, GoodHunks, SectionOf;
      ClippedListed(fs[..|fs| - 1], radius);
      ClipHunksGood(fs[|fs| - 1].hunks, radius);
    }
  }

  lemma {:induction false} ClippedFree(fs: seq<Chunk>, radius: Int)
    requires Listed(fs) && Free(FlatAll(fs), '\n')
    ensures Free(FlatAll(ClippedFiles(fs, radius)), '\n')
  {
    if fs != [] {
      hide Free, Flat, Named, ClipHunks, Preamble, GitChunk;
      var front, f := fs[..|fs| - 1], fs[|fs| - 1];
      FreeAppend(FlatAll(front), Flat(f), '\n');
      ClippedFree(front, radius);
      FlatAllAppend(ClippedFiles(front, radius), ClipFile(f, radius));
      FreeAppend(FlatAll(ClippedFiles(front, radius)), FlatAll(ClipFile(f, radius)), '\n');
      assert GoodHunks(f.hunks) by { ListedGood(fs, |fs| - 1); }
      ClipFileFree(f, radius);
    }
  }

  lemma {:induction false} ListedGood(fs: seq<Chunk>, k: nat)
    requires Listed(fs) && k < |fs|
    ensures GoodHunks(fs[k].hunks)
  {
    hide GoodHunks, Plain, IsGit;
  }

  lemma {:induction false} ClipFileFree(c: Chunk, radius: Int)
    requires GoodHunks(c.hunks) && Free(Flat(c), '\n')
    ensures Free(FlatAll(ClipFile(c, radius)), '\n')
  {
    hide ClipHunks, Free, Flat, Named, GoodHunks;
    var hs := ClipHunks(c.hunks, radius);
    FlatFreeIff(c);
    ClipHunksGood(c.hunks, radius);
    FlatFreeIff(Chunk(c.prologue, hs));
    FlatAllSnoc([], Chunk(c.prologue, hs));
    assert [] + [Chunk(c.prologue, hs)] == [Chunk(c.prologue, hs)];
    assert [] + Flat(Chunk(c.prologue, hs)) == Flat(Chunk(c.prologue, hs));
    NoRecordsFree();
  }

  lemma {:induction false} NoRecordsFree()
    ensures Free(FlatAll([]), '\n')
  {
  }

  /** Parsing a clipped diff yields the clipped files. */
  lemma {:induction false} ClipParses(raw: string, radius: Int)
    ensures Files(Records(ClipBytes(raw, radius))) == ClippedFiles(Files(Records(raw)), radius)
  {
    var recs := Records(raw);
    hide *;
    RecordsFree(raw);
    FilesListed(recs);
    FilesLoseNothing(recs);
    ClippedFree(Files(recs), radius);
    ClippedListed(Files(recs), radius);
    RecordsInvertEmit(FlatAll(ClippedFiles(Files(recs), radius)));
    FilesInvertFlat(ClippedFiles(Files(recs), radius));
    ClipBytesIs(raw, radius);
  }

  lemma {:induction false} ClipBytesIs(raw: string, radius: Int)
    ensures ClipBytes(raw, radius) == Emit(FlatAll(ClippedFiles(Files(Records(raw)), radius)))
  {
  }

  /* ---- idempotence ---- */

  lemma {:induction false} ClipFileAgain(c: Chunk, radius: Int)
    ensures ClippedFiles(ClipFile(c, radius), radius) == ClipFile(c, radius)
  {
    hide ClipHunks, SectionOf;
    var hs := ClipHunks(c.hunks, radius);
    var d := Chunk(c.prologue, hs);
    ClippedFilesSnoc([], d, radius);
    assert [] + [d] == [d];
    SameSection(c, d);
    ClipHunksSettle(c.hunks, radius);
    SettledStays(hs, radius);
    assert [] + ClipFile(d, radius) == ClipFile(d, radius);
  }

  lemma {:induction false} SameSection(c: Chunk, d: Chunk)
    requires c.prologue == d.prologue
    ensures SectionOf(c) == SectionOf(d)
  {
  }

  lemma {:induction false} ClippedFilesAgain(fs: seq<Chunk>, radius: Int)
    ensures ClippedFiles(ClippedFiles(fs, radius), radius) == ClippedFiles(fs, radius)
  {
    if fs != [] {
      hide ClipFile;
      ClippedFilesAgain(fs[..|fs| - 1], radius);
      ClippedFilesAppend(ClippedFiles(fs[..|fs| - 1], radius), ClipFile(fs[|fs| - 1], radius), radius);
      ClipFileAgain(fs[|fs| - 1], radius);
    }
  }

  /** Clipping twice at one radius is clipping once, byte for byte. */
  lemma {:induction false} ClipTwice(raw: string, radius: Int)
    ensures ClipBytes(ClipBytes(raw, radius), radius) == ClipBytes(raw, radius)
  {
    var once := ClipBytes(raw, radius);
    hide *;
    ClipParses(raw, radius);
    ClippedFilesAgain(Files(Records(raw)), radius);
    ClipBytesIs(raw, radius);
    ClipBytesIs(once, radius);
  }

  /* ---- what a reader of the diff sees ---- */

  /** A file as its reader quotes it: its paths, its prologue, and its numbered
      body rows. The `@@` headers are left out. */
  datatype View = View(section: Section, prologue: seq<string>, rows: seq<Row>)

  function ViewOf(c: Chunk): View { View(SectionOf(c), c.prologue, Bodies(c.hunks)) }

  function Views(fs: seq<Chunk>): seq<View> {
    seq(|fs|, k requires 0 <= k < |fs| => ViewOf(fs[k]))
  }

  /** What is shown of a diff's bytes once they are parsed. */
  function Shown(raw: string): seq<View> { Views(Files(Records(raw))) }

  lemma {:induction false} ViewsAppend(a: seq<Chunk>, b: seq<Chunk>)
    ensures Views(a + b) == Views(a) + Views(b)
  {
    hide ViewOf;
  }

  lemma {:induction false} ClipFileNarrower(c: Chunk, small: Int, large: Int)
    requires small <= large
    ensures Views(ClippedFiles(ClipFile(c, large), small)) == Views(ClipFile(c, small))
  {
    hide ClipHunks, SectionOf, Bodies, ClippedBodies;
    var hs := ClipHunks(c.hunks, large);
    var d := Chunk(c.prologue, hs);
    ClippedFilesSnoc([], d, small);
    assert [] + [d] == [d] && [] + ClipFile(d, small) == ClipFile(d, small);
    SameSection(c, d);
    SameSection(c, Chunk(c.prologue, ClipHunks(hs, small)));
    SameSection(c, Chunk(c.prologue, ClipHunks(c.hunks, small)));
    ClipHunksEmptyAgain(c.hunks, small, large);
    ClipHunksNarrower(c.hunks, small, large);
    BodiesOfClip(hs, small);
    BodiesOfClip(c.hunks, small);
    ClipHunksSnoc([], RawHunk("", []), small);
  }

  lemma {:induction false} ClippedFilesNarrower(fs: seq<Chunk>, small: Int, large: Int)
    requires small <= large
    ensures Views(ClippedFiles(ClippedFiles(fs, large), small)) == Views(ClippedFiles(fs, small))
  {
    if fs != [] {
      var front, c := fs[..|fs| - 1], fs[|fs| - 1];
      hide ClipFile, Views;
      ClippedFilesNarrower(front, small, large);
      ClippedFilesAppend(ClippedFiles(front, large), ClipFile(c, large), small);
      ViewsAppend(ClippedFiles(ClippedFiles(front, large), small), ClippedFiles(ClipFile(c, large), small));
      ViewsAppend(ClippedFiles(front, small), ClipFile(c, small));
      ClipFileNarrower(c, small, large);
    }
  }

  /** Clipping wide and then narrow shows what clipping narrow shows: the same
      files with the same numbered lines. */
  lemma {:induction false} ClipComposes(raw: string, small: Int, large: Int)
    requires small <= large
    ensures Shown(ClipBytes(ClipBytes(raw, large), small)) == Shown(ClipBytes(raw, small))
  {
    var wide := ClipBytes(raw, large);
    hide ClipBytes, Files, Records, ClippedFiles, Views;
    ClipParses(raw, large);
    ClipParses(wide, small);
    ClipParses(raw, small);
    ClippedFilesNarrower(Files(Records(raw)), small, large);
  }

  /* ---- faithfulness ---- */

  /** The rows of one hunk inside its window, as the parser numbers them. A hunk
      whose header the clipper cannot read is shown whole. */
  function Window(h: RawHunk, radius: Int): seq<Row> {
    var rows := HunkBody(h);
    if Readable(h) then KeptRows(rows, KeepSeq(rows, radius)) else rows
  }

  function Windows(hs: seq<RawHunk>, radius: Int): seq<Row> {
    if hs == [] then [] else Windows(hs[..|hs| - 1], radius) + Window(hs[|hs| - 1], radius)
  }

  /** What a clip promises to show of one file. */
  function WindowView(c: Chunk, radius: Int): seq<View> {
    var rows := Windows(c.hunks, radius);
    if !Named(c) || (rows == [] && AllReadable(c.hunks)) then [] else [View(SectionOf(c), c.prologue, rows)]
  }

  function WindowViews(fs: seq<Chunk>, radius: Int): seq<View> {
    if fs == [] then [] else WindowViews(fs[..|fs| - 1], radius) + WindowView(fs[|fs| - 1], radius)
  }

  /** An added or removed line. */
  predicate IsChange(rec: string) { OnOld(rec) != OnNew(rec) }

  predicate HasChange(body: seq<string>) { exists k :: 0 <= k < |body| && IsChange(body[k]) }

  lemma {:induction false} KeptRowsEmpty(rows: seq<Row>, keep: seq<bool>)
    requires |rows| == |keep|
    ensures KeptRows(rows, keep) == [] <==> forall k :: 0 <= k < |keep| ==> !keep[k]
  {
    if rows != [] {
      KeptRowsEmpty(rows[..|rows| - 1], keep[..|keep| - 1]);
    }
  }

  lemma {:induction false} ChangedIs(body: seq<string>, o: LineNo, n: LineNo, k: nat)
    requires k < |body|
    ensures |BodyRows(body, o, n)| == |body|
    ensures var r := BodyRows(body, o, n)[k]; Changed(r) <==> IsChange(body[k])
  {
    LengthOfRows(body, o, n);
    RowAt(body, o, n, k);
    hide BodyRows, CountOld, CountNew;
  }

  lemma {:induction false} NothingKept(body: seq<string>, o: LineNo, n: LineNo, radius: Int, k: nat)
    requires !HasChange(body) && k < |body| == |BodyRows(body, o, n)|
    ensures !KeepAt(BodyRows(body, o, n), k, radius)
    decreases k
  {
    var rows := BodyRows(body, o, n);
    hide BodyRows, IsChange, Changed;
    forall j | 0 <= j < |rows| ensures !Changed(rows[j]) {
      ChangedIs(body, o, n, j);
    }
    if rows[k].header {
      KeepOfNote(rows, k, radius);
      if k > 0 {
        NothingKept(body, o, n, radius, k - 1);
      }
    } else {
      KeepOfLine(rows, k, radius);
    }
    hide KeepAt;
  }

  lemma {:induction false} ChangeKept(body: seq<string>, o: LineNo, n: LineNo, radius: Int, k: nat)
    requires k < |body| == |BodyRows(body, o, n)| && IsChange(body[k])
    ensures KeepAt(BodyRows(body, o, n), k, radius)
  {
    var rows := BodyRows(body, o, n);
    ChangedIs(body, o, n, k);
    RowAt(body, o, n, k);
    assert !rows[k].header;
    hide BodyRows, IsChange;
    KeepOfLine(rows, k, radius);
  }

  /** Something of a hunk is kept exactly when a line of it is added or removed,
      whatever the radius and the starts. */
  lemma {:induction false} KeptExactlyWhenChanged(body: seq<string>, o: LineNo, n: LineNo, radius: Int)
    ensures |BodyRows(body, o, n)| == |body|
    ensures KeptRows(BodyRows(body, o, n), KeepSeq(BodyRows(body, o, n), radius)) != [] <==> HasChange(body)
  {
    var rows := BodyRows(body, o, n);
    LengthOfRows(body, o, n);
    hide BodyRows, IsChange, KeptRows, KeepAt;
    KeptRowsEmpty(rows, KeepSeq(rows, radius));
    if HasChange(body) {
      var k :| 0 <= k < |body| && IsChange(body[k]);
      ChangeKept(body, o, n, radius, k);
      assert KeepSeq(rows, radius)[k];
    } else {
      forall k | 0 <= k < |rows| ensures !KeepSeq(rows, radius)[k] {
        NothingKept(body, o, n, radius, k);
      }
    }
  }

  /** The parser and the clipper take the same starts off the header of every hunk
      of a file of which something is kept. */
  ghost predicate HunksAgree(hs: seq<RawHunk>) {
    forall k :: 0 <= k < |hs| && HasChange(hs[k].body) ==> ReadersAgree(hs[k].header)
  }

  /** And of every file a path names. */
  ghost predicate Agree(fs: seq<Chunk>) {
    forall k :: 0 <= k < |fs| && Named(fs[k]) ==> HunksAgree(fs[k].hunks)
  }

  lemma {:induction false} WindowIsClipped(h: RawHunk, radius: Int)
    requires HasChange(h.body) ==> ReadersAgree(h.header)
    ensures Window(h, radius) == ClippedBody(h, radius)
  {
    hide SplitHunkHeader, ParsedOld, ParsedNew, KeptRows, KeepSeq, HasChange, BodyRows;
    KeptExactlyWhenChanged(h.body, ParsedOld(h.header), ParsedNew(h.header), radius);
    if SplitHunkHeader(h.header).Some? {
      var header := SplitHunkHeader(h.header).value;
      KeptExactlyWhenChanged(h.body, header.oldStart, header.newStart, radius);
    }
  }

  lemma {:induction false} WindowsAreClipped(hs: seq<RawHunk>, radius: Int)
    requires HunksAgree(hs)
    ensures Windows(hs, radius) == ClippedBodies(hs, radius)
  {
    if hs != [] {
      hide Window, ClippedBody, ReadersAgree, HasChange;
      WindowsAreClipped(hs[..|hs| - 1], radius);
      WindowIsClipped(hs[|hs| - 1], radius);
    }
  }

  lemma {:induction false} ClipFileFaithful(c: Chunk, radius: Int)
    requires Named(c) ==> HunksAgree(c.hunks)
    ensures Views(ClipFile(c, radius)) == WindowView(c, radius)
  {
    hide ClipHunks, ClippedBodies, Windows, Bodies, SectionOf, AllReadable, ReadersAgree, HunksAgree;
    if Named(c) {
      WindowsAreClipped(c.hunks, radius);
    }
    BodiesOfClip(c.hunks, radius);
    ClipHunksEmpty(c.hunks, radius);
    SameSection(c, Chunk(c.prologue, ClipHunks(c.hunks, radius)));
  }

  lemma {:induction false} ClippedFilesFaithful(fs: seq<Chunk>, radius: Int)
    requires Agree(fs)
    ensures Views(ClippedFiles(fs, radius)) == WindowViews(fs, radius)
  {
    if fs != [] {
      var front, c := fs[..|fs| - 1], fs[|fs| - 1];
      hide ClipFile, WindowView, Views, HunksAgree, Named;
      ClippedFilesFaithful(front, radius);
      ViewsAppend(ClippedFiles(front, radius), ClipFile(c, radius));
      ClipFileFaithful(c, radius);
    } else {
      assert Views([]) == [];
    }
  }

  /** Parsing the clipped diff shows exactly the windows of the named files,
      with the text, the sides and the numbers the whole diff gave them. */
  lemma {:induction false} ClipFaithful(raw: string, radius: Int)
    requires Agree(Files(Records(raw)))
    ensures Shown(ClipBytes(raw, radius)) == WindowViews(Files(Records(raw)), radius)
  {
    hide ClipBytes, Files, Records, ClippedFiles, Views, WindowViews, Agree;
    ClipParses(raw, radius);
    ClippedFilesFaithful(Files(Records(raw)), radius);
  }

  /** The added and removed lines among some rows. */
  function Changes(rows: seq<Row>): seq<Row> {
    if rows == [] then []
    else
      var front, r := Changes(rows[..|rows| - 1]), rows[|rows| - 1];
      if Changed(r) && !r.header then front + [r] else front
  }

  lemma {:induction false} ChangesAppend(a: seq<Row>, b: seq<Row>)
    ensures Changes(a + b) == Changes(a) + Changes(b)
  {
    if b == [] {
      assert a + b == a;
    } else {
      hide Changed;
      assert (a + b)[..|a + b| - 1] == a + b[..|b| - 1];
      ChangesAppend(a, b[..|b| - 1]);
    }
  }

  lemma {:induction false} KeptRowsKeepChanges(rows: seq<Row>, keep: seq<bool>)
    requires |rows| == |keep|
    requires forall k :: 0 <= k < |rows| && Changed(rows[k]) && !rows[k].header ==> keep[k]
    ensures Changes(KeptRows(rows, keep)) == Changes(rows)
  {
    if rows != [] {
      hide Changed;
      var n := |rows| - 1;
      KeptRowsKeepChanges(rows[..n], keep[..n]);
      var front := KeptRows(rows[..n], keep[..n]);
      assert (front + [rows[n]])[..|front|] == front;
    }
  }

  lemma {:induction false} WindowKeepsChanges(h: RawHunk, radius: Int)
    ensures Changes(Window(h, radius)) == Changes(HunkBody(h))
  {
    var rows := HunkBody(h);
    hide SplitHunkHeader, HunkBody, Changed, Justified, KeptRows, Changes;
    KeptRowsKeepChanges(rows, KeepSeq(rows, radius));
  }

  lemma {:induction false} WindowsKeepChanges(hs: seq<RawHunk>, radius: Int)
    ensures Changes(Windows(hs, radius)) == Changes(Bodies(hs))
  {
    if hs != [] {
      hide Window, HunkBody, Changes;
      var front, h := hs[..|hs| - 1], hs[|hs| - 1];
      WindowsKeepChanges(front, radius);
      ChangesAppend(Windows(front, radius), Window(h, radius));
      ChangesAppend(Bodies(front), HunkBody(h));
      WindowKeepsChanges(h, radius);
    }
  }

  /** The added and removed lines one file shows, if it shows any. */
  function FileChanges(v: View): seq<View> {
    if v.section == Section("", "") || Changes(v.rows) == [] then [] else [v.(rows := Changes(v.rows))]
  }

  function ChangesShown(vs: seq<View>): seq<View> {
    if vs == [] then [] else ChangesShown(vs[..|vs| - 1]) + FileChanges(vs[|vs| - 1])
  }

  lemma {:induction false} ChangesShownSnoc(vs: seq<View>, v: View)
    ensures ChangesShown(vs + [v]) == ChangesShown(vs) + FileChanges(v)
    ensures ChangesShown([]) == []
  {
    hide Changes;
    assert (vs + [v])[..|vs|] == vs;
  }

  lemma {:induction false} WindowLosesNoChange(vs: seq<View>, c: Chunk, radius: Int)
    ensures ChangesShown(vs + WindowView(c, radius)) == ChangesShown(vs) + FileChanges(ViewOf(c))
  {
    hide Changes, Bodies, Windows, SectionOf, ChangesShown, AllReadable;
    WindowsKeepChanges(c.hunks, radius);
    ChangesShownSnoc(vs, View(SectionOf(c), c.prologue, Windows(c.hunks, radius)));
    NoChanges();
    assert vs + [] == vs;
  }

  lemma {:induction false} WindowsLoseNoChange(fs: seq<Chunk>, radius: Int)
    ensures ChangesShown(WindowViews(fs, radius)) == ChangesShown(Views(fs))
  {
    hide Changes, Bodies, SectionOf, ChangesShown, WindowView, ViewOf;
    if fs != [] {
      var front, c := fs[..|fs| - 1], fs[|fs| - 1];
      WindowsLoseNoChange(front, radius);
      assert Views(fs) == Views(front) + [ViewOf(c)];
      hide Views;
      ChangesShownSnoc(Views(front), ViewOf(c));
      WindowLosesNoChange(WindowViews(front, radius), c, radius);
    } else {
      assert Views([]) == [];
    }
  }

  lemma {:induction false} NoChanges()
    ensures Changes([]) == []
  {
  }

  /** No added or removed line of a named file is ever lost, moved or renumbered. */
  lemma {:induction false} ClipLosesNoChange(raw: string, radius: Int)
    requires Agree(Files(Records(raw)))
    ensures ChangesShown(Shown(ClipBytes(raw, radius))) == ChangesShown(Shown(raw))
  {
    hide ClipBytes, Files, Records, ChangesShown, Views, WindowViews, Agree;
    ClipFaithful(raw, radius);
    WindowsLoseNoChange(Files(Records(raw)), radius);
  }
}
