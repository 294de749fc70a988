/**
 When the two header readers disagree: exactly when a clipped hunk still reads
 back with the parser's numbers.
 */
module ClipExact {
  import opened Text
  import opened Header
  import opened Parser
  import opened Runs
  import opened Clip
  import opened ClipFiles
  import opened ClipDiff
  import opened Structure

  /** How many old-side lines precede the first kept one. */
  function OldBefore(body: seq<string>, keep: seq<bool>): Option<nat>
    requires |body| == |keep|
  {
    if body == [] then None
    else
      var n := |body| - 1;
      match OldBefore(body[..n], keep[..n])
      case Some(c) => Some(c)
      case None => if keep[n] && OnOld(body[n]) then Some(CountOld(body[..n])) else None
  }

  function NewBefore(body: seq<string>, keep: seq<bool>): Option<nat>
    requires |body| == |keep|
  {
    if body == [] then None
    else
      var n := |body| - 1;
      match NewBefore(body[..n], keep[..n])
      case Some(c) => Some(c)
      case None => if keep[n] && OnNew(body[n]) then Some(CountNew(body[..n])) else None
  }

  function At(start: LineNo, count: Option<nat>): Option<LineNo> {
    match count
    case None => None
    case Some(c) => Some(Plus(start, c))
  }

  lemma {:induction false} FirstSnoc(rows: seq<Row>, r: Row)
    ensures FirstOld(rows + [r]) == if FirstOld(rows).Some? then FirstOld(rows) else if r.hasOld then Some(r.oldNo) else None
    ensures FirstNew(rows + [r]) == if FirstNew(rows).Some? then FirstNew(rows) else if r.hasNew then Some(r.newNo) else None
  {
    if rows == [] {
      assert (rows + [r])[1..] == [];
    } else {
      assert (rows + [r])[1..] == rows[1..] + [r];
      FirstSnoc(rows[1..], r);
    }
  }

  ghost predicate Firsts(body: seq<string>, keep: seq<bool>, o: LineNo, n: LineNo)
    requires |body| == |keep|
  {
    && |BodyRows(body, o, n)| == |keep|
    && FirstOld(KeptRows(BodyRows(body, o, n), keep)) == At(o, OldBefore(body, keep))
    && FirstNew(KeptRows(BodyRows(body, o, n), keep)) == At(n, NewBefore(body, keep))
    && (OldBefore(body, keep).Some? ==> OldBefore(body, keep).value <= CountOld(body))
    && (NewBefore(body, keep).Some? ==> NewBefore(body, keep).value <= CountNew(body))
  }

  lemma {:induction false} BeforeSnoc(body: seq<string>, keep: seq<bool>, rec: string, kept: bool)
    requires |body| == |keep|
    ensures OldBefore(body + [rec], keep + [kept]) ==
            if OldBefore(body, keep).Some? then OldBefore(body, keep)
            else if kept && OnOld(rec) then Some(CountOld(body)) else None
    ensures NewBefore(body + [rec], keep + [kept]) ==
            if NewBefore(body, keep).Some? then NewBefore(body, keep)
            else if kept && OnNew(rec) then Some(CountNew(body)) else None
    ensures CountOld(body + [rec]) == CountOld(body) + (if OnOld(rec) then 1 else 0)
    ensures CountNew(body + [rec]) == CountNew(body) + (if OnNew(rec) then 1 else 0)
  {
    assert (body + [rec])[..|body|] == body && (keep + [kept])[..|body|] == keep;
  }

  lemma {:induction false} FirstsStep(body: seq<string>, keep: seq<bool>, rec: string, kept: bool, o: LineNo, n: LineNo)
    requires |body| == |keep| && Firsts(body, keep, o, n)
    ensures Firsts(body + [rec], keep + [kept], o, n)
  {
    hide OldBefore, NewBefore, CountOld, CountNew, BodyRows, KeptRows, FirstOld, FirstNew;
    BodyRowsSnoc(body, rec, o, n);
    KeptRowsSnoc(BodyRows(body, o, n), keep, BodyRow(rec, Plus(o, CountOld(body)), Plus(n, CountNew(body))), kept);
    FirstSnoc(KeptRows(BodyRows(body, o, n), keep), BodyRow(rec, Plus(o, CountOld(body)), Plus(n, CountNew(body))));
    assert KeptRows(BodyRows(body, o, n), keep) + [] == KeptRows(BodyRows(body, o, n), keep);
    BeforeSnoc(body, keep, rec, kept);
  }

  lemma {:induction false} FirstsHold(body: seq<string>, keep: seq<bool>, o: LineNo, n: LineNo)
    requires |body| == |keep|
    ensures Firsts(body, keep, o, n)
  {
    if body == [] {
      assert BodyRows(body, o, n) == [];
    } else {
      hide Firsts;
      var m := |body| - 1;
      FirstsHold(body[..m], keep[..m], o, n);
      FirstsStep(body[..m], keep[..m], body[m], keep[m], o, n);
      assert body[..m] + [body[m]] == body && keep[..m] + [keep[m]] == keep;
    }
  }

  lemma {:induction false} PlusAgreesOnward(o: LineNo, o': LineNo, c: nat, d: nat)
    requires c <= d && Plus(o, c) == Plus(o', c)
    ensures Plus(o, d) == Plus(o', d)
  {
  }

  /** Two numberings of one body give the kept rows the same numbers. */
  ghost predicate SameKept(body: seq<string>, keep: seq<bool>, o: LineNo, n: LineNo, o': LineNo, n': LineNo)
    requires |body| == |keep|
  {
    && |BodyRows(body, o, n)| == |BodyRows(body, o', n')| == |keep|
    && KeptRows(BodyRows(body, o, n), keep) == KeptRows(BodyRows(body, o', n'), keep)
  }

  lemma {:induction false} SameKeptStep(body: seq<string>, keep: seq<bool>, rec: string, kept: bool,
                                        o: LineNo, n: LineNo, o': LineNo, n': LineNo)
    requires |body| == |keep| && SameKept(body, keep, o, n, o', n')
    requires At(o, OldBefore(body + [rec], keep + [kept])) == At(o', OldBefore(body + [rec], keep + [kept]))
    requires At(n, NewBefore(body + [rec], keep + [kept])) == At(n', NewBefore(body + [rec], keep + [kept]))
    ensures SameKept(body + [rec], keep + [kept], o, n, o', n')
  {
    FirstsHold(body, keep, o, n);
    BeforeSnoc(body, keep, rec, kept);
    hide OldBefore, NewBefore, CountOld, CountNew, BodyRows, KeptRows, FirstOld, FirstNew;
    var c, d := CountOld(body), CountNew(body);
    if OldBefore(body, keep).Some? {
      PlusAgreesOnward(o, o', OldBefore(body, keep).value, c);
    }
    if NewBefore(body, keep).Some? {
      PlusAgreesOnward(n, n', NewBefore(body, keep).value, d);
    }
    hide OnOld, OnNew;
    BodyRowsSnoc(body, rec, o, n);
    BodyRowsSnoc(body, rec, o', n');
    KeptRowsSnoc(BodyRows(body, o, n), keep, BodyRow(rec, Plus(o, c), Plus(n, d)), kept);
    KeptRowsSnoc(BodyRows(body, o', n'), keep, BodyRow(rec, Plus(o', c), Plus(n', d)), kept);
  }

  lemma {:induction false} SameKeptWhen(body: seq<string>, keep: seq<bool>, o: LineNo, n: LineNo, o': LineNo,
      n': LineNo)
    requires |body| == |keep|
    requires At(o, OldBefore(body, keep)) == At(o', OldBefore(body, keep))
    requires At(n, NewBefore(body, keep)) == At(n', NewBefore(body, keep))
    ensures SameKept(body, keep, o, n, o', n')
  {
    if body == [] {
      assert BodyRows(body, o, n) == [] == BodyRows(body, o', n');
    } else {
      hide SameKept, At;
      var m := |body| - 1;
      var front, rec := body[..m], body[m];
      assert front + [rec] == body && keep[..m] + [keep[m]] == keep;
      BeforeSnoc(front, keep[..m], rec, keep[m]);
      hide OldBefore, NewBefore;
      AtNone(o, o');
      AtNone(n, n');
      SameKeptWhen(front, keep[..m], o, n, o', n');
      SameKeptStep(front, keep[..m], rec, keep[m], o, n, o', n');
    }
  }

  lemma {:induction false} AtNone(o: LineNo, o': LineNo)
    ensures At(o, None) == At(o', None)
  {
  }

  /** What a clip emits of a readable hunk reads back with the parser's numbers
      exactly when, on each side, the first kept line has the same number by
      both readings of the header. */
  lemma {:induction false} HunkFaithfulExactlyWhen(hunk: RawHunk, h: HunkHeader, radius: Int)
    requires SplitHunkHeader(hunk.header) == Some(h)
    ensures var keep := KeepSeq(BodyRows(hunk.body, h.oldStart, h.newStart), radius);
            && |keep| == |hunk.body| == |HunkBody(hunk)|
            && (Bodies(ClipHunk(hunk, radius)) == KeptRows(HunkBody(hunk), keep) <==>
                && At(h.oldStart, OldBefore(hunk.body, keep)) == At(ParsedOld(hunk.header), OldBefore(hunk.body, keep))
                && At(h.newStart, NewBefore(hunk.body, keep)) == At(ParsedNew(hunk.header), NewBefore(hunk.body, keep)))
  {
    hide SplitHunkHeader, ParsedOld, ParsedNew, BodyRows, KeepSeq, OldBefore, NewBefore, KeptRows, FirstOld, FirstNew, At, ClipHunk, Bodies;
    var o, n := ParsedOld(hunk.header), ParsedNew(hunk.header);
    var keep := KeepSeq(BodyRows(hunk.body, h.oldStart, h.newStart), radius);
    LengthOfRows(hunk.body, o, n);
    ClipHunkReads(hunk, radius);
    ClipOfReadable(hunk, h, radius);
    FirstsHold(hunk.body, keep, h.oldStart, h.newStart);
    FirstsHold(hunk.body, keep, o, n);
    if At(h.oldStart, OldBefore(hunk.body, keep)) == At(o, OldBefore(hunk.body, keep))
      && At(h.newStart, NewBefore(hunk.body, keep)) == At(n, NewBefore(hunk.body, keep)) {
      SameKeptWhen(hunk.body, keep, h.oldStart, h.newStart, o, n);
    }
  }

  /* ---- a whole diff ---- */

  /** The first kept line on each side has one number by both readings of the
      header, or the clipper cannot read it at all. */
  predicate Faithful(hunk: RawHunk, radius: Int) {
    match SplitHunkHeader(hunk.header)
    case None => true
    case Some(h) =>
      var keep := KeepSeq(BodyRows(hunk.body, h.oldStart, h.newStart), radius);
      LengthOfRows(hunk.body, h.oldStart, h.newStart);
      && At(h.oldStart, OldBefore(hunk.body, keep)) == At(ParsedOld(hunk.header), OldBefore(hunk.body, keep))
      && At(h.newStart, NewBefore(hunk.body, keep)) == At(ParsedNew(hunk.header), NewBefore(hunk.body, keep))
  }

  /** The lines a clip keeps of a hunk, as the parser numbers them. */
  function ChosenBody(hunk: RawHunk, radius: Int): seq<Row> {
    match SplitHunkHeader(hunk.header)
    case None => HunkBody(hunk)
    case Some(h) =>
      LengthOfRows(hunk.body, h.oldStart, h.newStart);
      LengthOfRows(hunk.body, ParsedOld(hunk.header), ParsedNew(hunk.header));
      KeptRows(HunkBody(hunk), KeepSeq(BodyRows(hunk.body, h.oldStart, h.newStart), radius))
  }

  function ChosenBodies(hs: seq<RawHunk>, radius: Int): seq<Row> {
    if hs == [] then [] else ChosenBodies(hs[..|hs| - 1], radius) + ChosenBody(hs[|hs| - 1], radius)
  }

  function ChosenView(c: Chunk, radius: Int): seq<View> {
    var rows := ChosenBodies(c.hunks, radius);
    if !Named(c) || (rows == [] && AllReadable(c.hunks)) then [] else [View(SectionOf(c), c.prologue, rows)]
  }

  /** What a clip keeps of a diff, with the numbers the whole diff gives it. */
  function ChosenViews(fs: seq<Chunk>, radius: Int): seq<View> {
    if fs == [] then [] else ChosenViews(fs[..|fs| - 1], radius) + ChosenView(fs[|fs| - 1], radius)
  }

  ghost predicate AllFaithful(hs: seq<RawHunk>, radius: Int) {
    forall k :: 0 <= k < |hs| ==> Faithful(hs[k], radius)
  }

  ghost predicate DiffFaithful(fs: seq<Chunk>, radius: Int) {
    forall k :: 0 <= k < |fs| && Named(fs[k]) ==> AllFaithful(fs[k].hunks, radius)
  }

  lemma {:induction false} KeptRowsLength(a: seq<Row>, b: seq<Row>, keep: seq<bool>)
    requires |a| == |b| == |keep|
    ensures |KeptRows(a, keep)| == |KeptRows(b, keep)|
  {
    if a != [] {
      var n := |a| - 1;
      KeptRowsLength(a[..n], b[..n], keep[..n]);
    }
  }

  lemma {:induction false} ChosenBodyIs(hunk: RawHunk, radius: Int)
    ensures ClippedBody(hunk, radius) == ChosenBody(hunk, radius) <==> Faithful(hunk, radius)
    ensures |ClippedBody(hunk, radius)| == |ChosenBody(hunk, radius)|
  {
    hide SplitHunkHeader, ParsedOld, ParsedNew, BodyRows, KeepSeq, OldBefore, NewBefore, KeptRows, At, ClipHunk, Bodies;
    var split := SplitHunkHeader(hunk.header);
    if split.Some? {
      var h := split.value;
      HunkFaithfulExactlyWhen(hunk, h, radius);
      ClipHunkReads(hunk, radius);
      LengthOfRows(hunk.body, h.oldStart, h.newStart);
      var rows := BodyRows(hunk.body, h.oldStart, h.newStart);
      KeptRowsLength(rows, HunkBody(hunk), KeepSeq(rows, radius));
    }
  }

  lemma {:induction false} SameParts<T>(a: seq<T>, b: seq<T>, c: seq<T>, d: seq<T>)
    requires |a| == |c|
    ensures a + b == c + d <==> a == c && b == d
  {
    if a + b == c + d {
      assert a == (a + b)[..|a|] == (c + d)[..|a|] == c;
      assert b == (a + b)[|a|..] == (c + d)[|a|..] == d;
    }
  }

  lemma {:induction false} ChosenBodiesSnoc(hs: seq<RawHunk>, h: RawHunk, radius: Int)
    ensures ChosenBodies(hs + [h], radius) == ChosenBodies(hs, radius) + ChosenBody(h, radius)
    ensures ChosenBodies([], radius) == [] && AllFaithful([], radius)
  {
    hide ChosenBody;
    assert (hs + [h])[..|hs|] == hs;
  }

  lemma {:induction false} ChosenBodiesAre(hs: seq<RawHunk>, radius: Int)
    ensures ClippedBodies(hs, radius) == ChosenBodies(hs, radius) <==> AllFaithful(hs, radius)
    ensures |ClippedBodies(hs, radius)| == |ChosenBodies(hs, radius)|
  {
    hide *;
    if hs == [] {
      ClippedBodiesSnoc([], RawHunk("", []), radius);
      ChosenBodiesSnoc([], RawHunk("", []), radius);
    } else {
      var front, h := hs[..|hs| - 1], hs[|hs| - 1];
      assert front + [h] == hs;
      ChosenBodiesAre(front, radius);
      ChosenBodyIs(h, radius);
      ClippedBodiesSnoc(front, h, radius);
      ChosenBodiesSnoc(front, h, radius);
      AllFaithfulSnoc(front, h, radius);
      SameParts(ClippedBodies(front, radius), ClippedBody(h, radius), ChosenBodies(front, radius), ChosenBody(h, radius));
    }
  }

  lemma {:induction false} AllFaithfulSnoc(front: seq<RawHunk>, h: RawHunk, radius: Int)
    ensures AllFaithful(front + [h], radius) <==> AllFaithful(front, radius) && Faithful(h, radius)
  {
    hide Faithful;
    var hs := front + [h];
    assert hs[|front|] == h && forall k :: 0 <= k < |front| ==> hs[k] == front[k];
  }

  lemma {:induction false} OneView(c: Chunk)
    ensures Views([c]) == [ViewOf(c)] && Views([]) == []
  {
  }

  lemma {:induction false} ChosenViewIs(c: Chunk, radius: Int)
    ensures Views(ClipFile(c, radius)) == ChosenView(c, radius) <==> (Named(c) ==> AllFaithful(c.hunks, radius))
    ensures |Views(ClipFile(c, radius))| == |ChosenView(c, radius)|
  {
    hide ClipHunks, ClippedBodies, ChosenBodies, Bodies, SectionOf, AllReadable, AllFaithful, Views;
    ChosenBodiesAre(c.hunks, radius);
    BodiesOfClip(c.hunks, radius);
    ClipHunksEmpty(c.hunks, radius);
    SameSection(c, Chunk(c.prologue, ClipHunks(c.hunks, radius)));
    OneView(Chunk(c.prologue, ClipHunks(c.hunks, radius)));
  }

  lemma {:induction false} ChosenViewsUnroll(fs: seq<Chunk>, radius: Int)
    ensures fs == [] ==> ChosenViews(fs, radius) == [] && Views(ClippedFiles(fs, radius)) == [] && DiffFaithful(fs, radius)
    ensures fs != [] ==>
              && ChosenViews(fs, radius) == ChosenViews(fs[..|fs| - 1], radius) + ChosenView(fs[|fs| - 1], radius)
              && ClippedFiles(fs, radius) == ClippedFiles(fs[..|fs| - 1], radius) + ClipFile(fs[|fs| - 1], radius)
  {
    hide ChosenView, ClipFile;
  }

  lemma {:induction false} ChosenViewsAre(fs: seq<Chunk>, radius: Int)
    ensures Views(ClippedFiles(fs, radius)) == ChosenViews(fs, radius) <==> DiffFaithful(fs, radius)
    ensures |Views(ClippedFiles(fs, radius))| == |ChosenViews(fs, radius)|
  {
    hide *;
    ChosenViewsUnroll(fs, radius);
    if fs != [] {
      var front, c := fs[..|fs| - 1], fs[|fs| - 1];
      assert front + [c] == fs;
      ChosenViewsAre(front, radius);
      ChosenViewIs(c, radius);
      ViewsAppend(ClippedFiles(front, radius), ClipFile(c, radius));
      SameParts(Views(ClippedFiles(front, radius)), Views(ClipFile(c, radius)), ChosenViews(front, radius), ChosenView(c, radius));
      DiffFaithfulSnoc(front, c, radius);
    }
  }

  lemma {:induction false} DiffFaithfulSnoc(front: seq<Chunk>, c: Chunk, radius: Int)
    ensures DiffFaithful(front + [c], radius) <==> DiffFaithful(front, radius) && (Named(c) ==> AllFaithful(c.hunks, radius))
  {
    hide AllFaithful, Named;
    var fs := front + [c];
    assert fs[|front|] == c && forall k :: 0 <= k < |front| ==> fs[k] == front[k];
  }

  /** Parsing a clipped diff gives the kept lines of every file with the numbers
      the whole diff gave them, exactly when in every hunk of a named file the first
      kept line on each side has one number by both readings of the header. */
  lemma {:induction false} DiffFaithfulExactlyWhen(raw: string, radius: Int)
    ensures Shown(ClipBytes(raw, radius)) == ChosenViews(Files(Records(raw)), radius) <==>
            DiffFaithful(Files(Records(raw)), radius)
  {
    hide ClipBytes, Files, Records, ClippedFiles, Views, ChosenViews, DiffFaithful;
    ClipParses(raw, radius);
    ChosenViewsAre(Files(Records(raw)), radius);
  }

  /** And it does go wrong: under a header with no blank after its opening mark,
      a removed line the parser puts at 2 reads back at 1. */
  lemma {:induction false} ClipCanRenumber(text: string)
    ensures var hunk := RawHunk(Unspaced("-" + Itoa(1), "+" + Itoa(2)), ["-" + text]);
            HunkBody(hunk)[0].oldNo == 2 &&
            Bodies(ClipHunk(hunk, 0)) == [HunkBody(hunk)[0].(oldNo := 1)]
  {
    var hunk := RawHunk(Unspaced("-" + Itoa(1), "+" + Itoa(2)), ["-" + text]);
    hide Itoa, Unspaced, SplitHunkHeader, ParsedOld, ParsedNew, ClipHunk, Bodies, HunkCount;
    assert HunkCount(1, 1) == Itoa(1) && HunkCount(2, 1) == Itoa(2) by { UnitCounts(); }
    RangeReads(1, 1, '-');
    RangeReads(2, 1, '+');
    UnspacedClips("-" + Itoa(1), "+" + Itoa(2), Range(1, 1), Range(2, 1));
    UnspacedParses("-" + Itoa(1), "+" + Itoa(2), Range(2, 1));
    ClipHunkReads(hunk, 0);
    OneRemovedLine(hunk, SplitHunkHeader(hunk.header).value, text);
  }

  lemma {:induction false} UnitCounts()
    ensures HunkCount(1, 1) == Itoa(1) && HunkCount(2, 1) == Itoa(2)
  {
  }

  lemma {:induction false} OneRemovedLine(hunk: RawHunk, h: HunkHeader, text: string)
    requires SplitHunkHeader(hunk.header) == Some(h) && hunk.body == ["-" + text]
    ensures HunkBody(hunk) == [Row(false, "-" + text, ParsedOld(hunk.header), true, 0, false)]
    ensures ClippedBody(hunk, 0) == [Row(false, "-" + text, h.oldStart, true, 0, false)]
  {
    hide SplitHunkHeader, ParsedOld, ParsedNew;
    var rec := "-" + text;
    assert rec[0] == '-' && hunk.body[..0] == [];
    var rows := BodyRows(hunk.body, h.oldStart, h.newStart);
    assert rows == [Row(false, rec, h.oldStart, true, 0, false)];
    assert KeepSeq(rows, 0) == [true];
    assert KeptRows(rows, [true]) == rows by { KeptRowsSnoc([], [], rows[0], true); assert [] + [rows[0]] == rows; assert [] + [true] == [true]; }
  }
}
