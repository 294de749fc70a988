/**
 What a clip keeps whatever its readers make of a header: every added and
 removed line of a named file, with its text, in order.
 */
module ClipText {
  import opened Text
  import opened Header
  import opened Parser
  import opened Structure
  import opened Runs
  import opened Clip
  import opened ClipFiles
  import opened ClipDiff

  /** The texts of the added and removed lines among some rows. */
  function ChangeTexts(rows: seq<Row>): seq<string> {
    if rows == [] then []
    else
      var front, r := ChangeTexts(rows[..|rows| - 1]), rows[|rows| - 1];
      if Changed(r) && !r.header then front + [r.raw] else front
  }

  datatype FileTexts = FileTexts(section: Section, prologue: seq<string>, changes: seq<string>)

  function TextsOf(v: View): seq<FileTexts> {
    if v.section == Section("", "") || ChangeTexts(v.rows) == [] then []
    else [FileTexts(v.section, v.prologue, ChangeTexts(v.rows))]
  }

  /** The changed lines a reader sees, file by file. */
  function TextsShown(vs: seq<View>): seq<FileTexts> {
    if vs == [] then [] else TextsShown(vs[..|vs| - 1]) + TextsOf(vs[|vs| - 1])
  }

  lemma {:induction false} ChangeTextsAppend(a: seq<Row>, b: seq<Row>)
    ensures ChangeTexts(a + b) == ChangeTexts(a) + ChangeTexts(b)
  {
    if b == [] {
      assert a + b == a;
    } else {
      hide Changed;
      assert (a + b)[..|a + b| - 1] == a + b[..|b| - 1];
      ChangeTextsAppend(a, b[..|b| - 1]);
    }
  }

  lemma {:induction false} TextsOfChanges(rows: seq<Row>)
    ensures ChangeTexts(rows) == ChangeTexts(Changes(rows))
  {
    if rows != [] {
      var front, r := rows[..|rows| - 1], rows[|rows| - 1];
      TextsOfChanges(front);
      assert (Changes(front) + [r])[..|Changes(front)|] == Changes(front);
      hide Changed;
    }
  }

  lemma {:induction false} StartsDoNotMatter(body: seq<string>, o: LineNo, n: LineNo, o': LineNo, n': LineNo)
    ensures ChangeTexts(BodyRows(body, o, n)) == ChangeTexts(BodyRows(body, o', n'))
  {
    if body != [] {
      var front := body[..|body| - 1];
      StartsDoNotMatter(front, o, n, o', n');
      BodyRowsSnoc(front, body[|body| - 1], o, n);
      BodyRowsSnoc(front, body[|body| - 1], o', n');
      assert front + [body[|body| - 1]] == body;
      hide BodyRows, CountOld, CountNew, IsNote;
    } else {
      assert BodyRows([], o, n) == [] == BodyRows([], o', n');
    }
  }

  lemma {:induction false} ClippedBodyTexts(hunk: RawHunk, radius: Int)
    ensures ChangeTexts(ClippedBody(hunk, radius)) == ChangeTexts(HunkBody(hunk))
  {
    var split := SplitHunkHeader(hunk.header);
    hide SplitHunkHeader, BodyRows, Changed, KeptRows, Changes, ChangeTexts, Justified, ParsedOld, ParsedNew;
    if split.Some? {
      var h := split.value;
      var rows := BodyRows(hunk.body, h.oldStart, h.newStart);
      KeptRowsKeepChanges(rows, KeepSeq(rows, radius));
      TextsOfChanges(rows);
      TextsOfChanges(KeptRows(rows, KeepSeq(rows, radius)));
      StartsDoNotMatter(hunk.body, h.oldStart, h.newStart, ParsedOld(hunk.header), ParsedNew(hunk.header));
    }
  }

  lemma {:induction false} ClippedBodiesTexts(hs: seq<RawHunk>, radius: Int)
    ensures ChangeTexts(ClippedBodies(hs, radius)) == ChangeTexts(Bodies(hs))
  {
    if hs != [] {
      hide ClippedBody, HunkBody, ChangeTexts;
      var front, h := hs[..|hs| - 1], hs[|hs| - 1];
      ClippedBodiesTexts(front, radius);
      ChangeTextsAppend(ClippedBodies(front, radius), ClippedBody(h, radius));
      ChangeTextsAppend(Bodies(front), HunkBody(h));
      ClippedBodyTexts(h, radius);
    }
  }

  lemma {:induction false} TextsShownSnoc(vs: seq<View>, v: View)
    ensures TextsShown(vs + [v]) == TextsShown(vs) + TextsOf(v)
    ensures TextsShown([]) == []
  {
    hide ChangeTexts;
    assert (vs + [v])[..|vs|] == vs;
  }

  lemma {:induction false} NoTexts()
    ensures ChangeTexts([]) == []
  {
  }

  lemma {:induction false} ClipFileTexts(vs: seq<View>, c: Chunk, radius: Int)
    ensures TextsShown(vs + Views(ClipFile(c, radius))) == TextsShown(vs) + TextsOf(ViewOf(c))
  {
    hide ChangeTexts, Bodies, ClippedBodies, ClipHunks, SectionOf, TextsShown, AllReadable;
    var d := Chunk(c.prologue, ClipHunks(c.hunks, radius));
    ClippedBodiesTexts(c.hunks, radius);
    BodiesOfClip(c.hunks, radius);
    ClipHunksEmpty(c.hunks, radius);
    SameSection(c, d);
    NoTexts();
    TextsShownSnoc(vs, ViewOf(d));
    assert vs + [] == vs && Views([d]) == [ViewOf(d)] && Views([]) == [];
    hide Views;
  }

  lemma {:induction false} ViewsSnoc(fs: seq<Chunk>, c: Chunk)
    ensures Views(fs + [c]) == Views(fs) + [ViewOf(c)]
  {
    hide ViewOf;
  }

  lemma {:induction false} ClippedFilesUnroll(fs: seq<Chunk>, radius: Int)
    ensures fs == [] ==> ClippedFiles(fs, radius) == fs
    ensures fs != [] ==>
              ClippedFiles(fs, radius) == ClippedFiles(fs[..|fs| - 1], radius) + ClipFile(fs[|fs| - 1], radius)
  {
    hide ClipFile;
  }

  lemma {:induction false} ClippedFilesTexts(fs: seq<Chunk>, radius: Int)
    ensures TextsShown(Views(ClippedFiles(fs, radius))) == TextsShown(Views(fs))
  {
    hide *;
    ClippedFilesUnroll(fs, radius);
    if fs != [] {
      var front, c := fs[..|fs| - 1], fs[|fs| - 1];
      ClippedFilesTexts(front, radius);
      assert front + [c] == fs;
      ViewsSnoc(front, c);
      ViewsAppend(ClippedFiles(front, radius), ClipFile(c, radius));
      ClipFileTexts(Views(ClippedFiles(front, radius)), c, radius);
      TextsShownSnoc(Views(front), ViewOf(c));
    }
  }

  /** On every diff, whatever its headers, a clip loses no added or removed line
      of a named file, and keeps their texts and their order. */
  lemma {:induction false} ClipLosesNoText(raw: string, radius: Int)
    ensures TextsShown(Shown(ClipBytes(raw, radius))) == TextsShown(Shown(raw))
  {
    hide ClipBytes, Files, Records, ClippedFiles, Views, TextsShown;
    ClipParses(raw, radius);
    ClippedFilesTexts(Files(Records(raw)), radius);
  }

  lemma {:induction false} UnreadableKept(hs: seq<RawHunk>, h: RawHunk, radius: Int)
    requires h in hs && !Readable(h)
    ensures h in ClipHunks(hs, radius)
  {
    var front, last := hs[..|hs| - 1], hs[|hs| - 1];
    assert hs == front + [last];
    ClipHunksSnoc(front, last, radius);
    hide ClipHunks;
    if h in front {
      hide ClipHunk, Readable;
      UnreadableKept(front, h, radius);
    }
  }

  lemma {:induction false} ClippedFileListed(fs: seq<Chunk>, c: Chunk, radius: Int)
    requires c in fs && Named(c) && ClipHunks(c.hunks, radius) != []
    ensures Chunk(c.prologue, ClipHunks(c.hunks, radius)) in ClippedFiles(fs, radius)
  {
    hide Named, ClipHunks;
    var front, last := fs[..|fs| - 1], fs[|fs| - 1];
    assert fs == front + [last];
    if c in front {
      ClippedFileListed(front, c, radius);
    }
    hide ClipFile;
  }

  /** A hunk whose header the clipper cannot read is still there, verbatim, in
      the file it was in. */
  lemma {:induction false} UnreadableHunkSurvives(raw: string, c: Chunk, h: RawHunk, radius: Int)
    requires c in Files(Records(raw)) && Named(c) && h in c.hunks && !Readable(h)
    ensures exists d :: d in Files(Records(ClipBytes(raw, radius))) && d.prologue == c.prologue && h in d.hunks
  {
    hide Files, Records, ClipBytes, ClippedFiles, ClipHunks, Named, Readable;
    ClipParses(raw, radius);
    UnreadableKept(c.hunks, h, radius);
    ClippedFileListed(Files(Records(raw)), c, radius);
  }
}
