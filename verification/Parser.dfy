/**
 The unified-diff parser: a one-pass state machine, proved against a structural
 reading of the same records as sections, hunks and numbered rows.
 */
module Parser {
  import opened Text
  import opened Header
  import opened Quoting

  /* ---- the structural reading ---- */

  /** One record of the diff: a header passes bare, a body line carries the
      number it has on each side it exists on. */
  datatype Row = Row(header: bool, raw: string, oldNo: LineNo, hasOld: bool, newNo: LineNo, hasNew: bool)

  datatype RawHunk = RawHunk(header: string, body: seq<string>)

  /** One section's records: the prologue above the first `@@`, and the hunks. */
  datatype Chunk = Chunk(prologue: seq<string>, hunks: seq<RawHunk>)

  datatype Section = Section(pathA: string, pathB: string)

  datatype Line = Line(section: nat, row: Row)

  const EMPTY: Chunk := Chunk([], [])

  predicate IsGit(rec: string) { "diff --git " <= rec }

  predicate IsHunk(rec: string) { "@@" <= rec }

  predicate IsNote(rec: string) { "\\" <= rec }

  /** The body line exists on the old side. */
  predicate OnOld(rec: string) { !IsNote(rec) && !("+" <= rec) }

  /** The body line exists on the new side. */
  predicate OnNew(rec: string) { !IsNote(rec) && !("-" <= rec) }

  function Records(raw: string): seq<string> {
    if raw == "" then []
    else Split(if raw[|raw| - 1] == '\n' then raw[..|raw| - 1] else raw, '\n')
  }

  function AddTo(c: Chunk, rec: string): Chunk {
    if IsHunk(rec) then c.(hunks := c.hunks + [RawHunk(rec, [])])
    else if c.hunks == [] then c.(prologue := c.prologue + [rec])
    else
      var last := |c.hunks| - 1;
      c.(hunks := c.hunks[..last] + [c.hunks[last].(body := c.hunks[last].body + [rec])])
  }

  function AddRecord(cs: seq<Chunk>, rec: string): (r: seq<Chunk>)
    requires cs != []
    ensures r != []
  {
    if IsGit(rec) then cs + [Chunk([rec], [])]
    else cs[..|cs| - 1] + [AddTo(cs[|cs| - 1], rec)]
  }

  function Chunks(recs: seq<string>): (cs: seq<Chunk>)
    ensures cs != []
  {
    if recs == [] then [EMPTY]
    else AddRecord(Chunks(recs[..|recs| - 1]), recs[|recs| - 1])
  }

  function HeaderRow(raw: string): Row { Row(true, raw, 0, false, 0, false) }

  /** The number `n` lines past `start`, held at the largest int. */
  function Plus(start: LineNo, n: nat): LineNo { Min(MAX_INT, start + n) }

  function CountOld(body: seq<string>): nat {
    if body == [] then 0
    else CountOld(body[..|body| - 1]) + (if OnOld(body[|body| - 1]) then 1 else 0)
  }

  function CountNew(body: seq<string>): nat {
    if body == [] then 0
    else CountNew(body[..|body| - 1]) + (if OnNew(body[|body| - 1]) then 1 else 0)
  }

  function BodyRow(rec: string, o: LineNo, n: LineNo): Row {
    if IsNote(rec) then HeaderRow(rec)
    else Row(false, rec, if OnOld(rec) then o else 0, OnOld(rec), if OnNew(rec) then n else 0, OnNew(rec))
  }

  /** Each body line is numbered from the hunk's starts by how many lines before
      it exist on each side. */
  function BodyRows(body: seq<string>, o: LineNo, n: LineNo): seq<Row> {
    seq(|body|, k requires 0 <= k < |body| =>
      BodyRow(body[k], Plus(o, CountOld(body[..k])), Plus(n, CountNew(body[..k]))))
  }

  function HunkRows(h: RawHunk): seq<Row> {
    [HeaderRow(h.header)] + BodyRows(h.body, ParsedOld(h.header), ParsedNew(h.header))
  }

  function HunksRows(hs: seq<RawHunk>): seq<Row> {
    if hs == [] then [] else HunksRows(hs[..|hs| - 1]) + HunkRows(hs[|hs| - 1])
  }

  function HeaderRows(recs: seq<string>): seq<Row> {
    seq(|recs|, k requires 0 <= k < |recs| => HeaderRow(recs[k]))
  }

  function Rows(c: Chunk): seq<Row> { HeaderRows(c.prologue) + HunksRows(c.hunks) }

  function Tag(section: nat, rows: seq<Row>): seq<Line> {
    seq(|rows|, k requires 0 <= k < |rows| => Line(section, rows[k]))
  }

  function LinesOf(cs: seq<Chunk>): seq<Line> {
    if cs == [] then [] else LinesOf(cs[..|cs| - 1]) + Tag(|cs| - 1, Rows(cs[|cs| - 1]))
  }

  /** The path on the last side line of the prologue that opens with `mark`. */
  function PathOn(mark: string, prefix: string, prologue: seq<string>): string {
    if prologue == [] then ""
    else
      var rec := prologue[|prologue| - 1];
      if mark <= rec then HeaderPath(rec[|mark|..], prefix)
      else PathOn(mark, prefix, prologue[..|prologue| - 1])
  }

  function SectionOf(c: Chunk): Section {
    Section(PathOn("--- ", "a/", c.prologue), PathOn("+++ ", "b/", c.prologue))
  }

  function SectionsOf(cs: seq<Chunk>): seq<Section> {
    seq(|cs|, k requires 0 <= k < |cs| => SectionOf(cs[k]))
  }

  function Max(a: int, b: int): int { if a >= b then a else b }

  function WidestOf(lines: seq<Line>): int {
    if lines == [] then 0
    else
      var r := lines[|lines| - 1].row;
      var w := WidestOf(lines[..|lines| - 1]);
      Max(Max(w, if r.hasOld then r.oldNo else w), if r.hasNew then r.newNo else w)
  }

  /* ---- one more record ---- */

  /** The row the next record adds, given the sections so far. */
  function NextRow(cs: seq<Chunk>, rec: string): Row
    requires cs != []
  {
    var c := cs[|cs| - 1];
    if IsGit(rec) || IsHunk(rec) || c.hunks == [] then HeaderRow(rec)
    else
      var h := c.hunks[|c.hunks| - 1];
      BodyRow(rec, Plus(ParsedOld(h.header), CountOld(h.body)), Plus(ParsedNew(h.header), CountNew(h.body)))
  }

  lemma {:induction false} HunkRowsOne(rec: string)
    ensures HunkRows(RawHunk(rec, [])) == [HeaderRow(rec)]
  {
    assert BodyRows([], ParsedOld(rec), ParsedNew(rec)) == [];
  }

  lemma {:induction false} BodyRowsSnoc(body: seq<string>, rec: string, o: LineNo, n: LineNo)
    ensures BodyRows(body + [rec], o, n)
         == BodyRows(body, o, n) + [BodyRow(rec, Plus(o, CountOld(body)), Plus(n, CountNew(body)))]
  {
    var longer := body + [rec];
    assert longer[..|body|] == body;
    assert forall k :: 0 <= k < |body| ==> longer[..k] == body[..k];
  }

  lemma {:induction false} HunkRowsSnoc(h: RawHunk, rec: string)
    ensures HunkRows(h.(body := h.body + [rec]))
         == HunkRows(h) + [BodyRow(rec, Plus(ParsedOld(h.header), CountOld(h.body)), Plus(ParsedNew(h.header), CountNew(h.body)))]
  {
    BodyRowsSnoc(h.body, rec, ParsedOld(h.header), ParsedNew(h.header));
  }

  lemma {:induction false} HunksRowsSnoc(hs: seq<RawHunk>, h: RawHunk)
    ensures HunksRows(hs + [h]) == HunksRows(hs) + HunkRows(h)
    ensures HunksRows([]) == []
  {
    assert (hs + [h])[..|hs|] == hs;
  }

  lemma {:induction false} RowsAddTo(c: Chunk, rec: string)
    requires !IsGit(rec)
    ensures Rows(AddTo(c, rec)) == Rows(c) + [NextRow([c], rec)]
  {
    hide HunkRows, HunksRows, BodyRows, ParsedOld, ParsedNew, CountOld, CountNew, BodyRow;
    if IsHunk(rec) {
      HunksRowsSnoc(c.hunks, RawHunk(rec, []));
      HunkRowsOne(rec);
    } else if c.hunks == [] {
      HunksRowsSnoc([], RawHunk(rec, []));
      assert HeaderRows(c.prologue + [rec]) == HeaderRows(c.prologue) + [HeaderRow(rec)];
    } else {
      var front, h := c.hunks[..|c.hunks| - 1], c.hunks[|c.hunks| - 1];
      assert front + [h] == c.hunks;
      HunksRowsSnoc(front, h);
      HunksRowsSnoc(front, h.(body := h.body + [rec]));
      HunkRowsSnoc(h, rec);
    }
  }

  lemma {:induction false} LinesSnoc(cs: seq<Chunk>, c: Chunk)
    ensures LinesOf(cs + [c]) == LinesOf(cs) + Tag(|cs|, Rows(c))
  {
    assert (cs + [c])[..|cs|] == cs;
  }

  lemma {:induction false} RowsOne(rec: string)
    ensures Rows(Chunk([rec], [])) == [HeaderRow(rec)]
  {
  }

  lemma {:induction false} LinesAdd(cs: seq<Chunk>, rec: string)
    requires cs != []
    ensures LinesOf(AddRecord(cs, rec)) == LinesOf(cs) + [Line(|AddRecord(cs, rec)| - 1, NextRow(cs, rec))]
  {
    hide LinesOf, Rows, AddTo, Chunks;
    if IsGit(rec) {
      LinesSnoc(cs, Chunk([rec], []));
      assert Rows(Chunk([rec], [])) == [HeaderRow(rec)] by { RowsOne(rec); }
    } else {
      hide IsGit, IsHunk;
      var front, c := cs[..|cs| - 1], cs[|cs| - 1];
      assert front + [c] == cs;
      LinesSnoc(front, c);
      LinesSnoc(front, AddTo(c, rec));
      RowsAddTo(c, rec);
      assert NextRow([c], rec) == NextRow(cs, rec);
      hide NextRow;
      assert Tag(|front|, Rows(c) + [NextRow(cs, rec)]) == Tag(|front|, Rows(c)) + [Line(|front|, NextRow(cs, rec))];
    }
  }

  lemma {:induction false} PathSnoc(mark: string, prefix: string, prologue: seq<string>, rec: string)
    ensures PathOn(mark, prefix, prologue + [rec])
         == if mark <= rec then HeaderPath(rec[|mark|..], prefix) else PathOn(mark, prefix, prologue)
  {
    assert (prologue + [rec])[..|prologue|] == prologue;
  }

  /** The section the next record leaves current. */
  lemma {:induction false} SectionsAdd(cs: seq<Chunk>, rec: string)
    requires cs != []
    ensures IsGit(rec) ==> SectionsOf(AddRecord(cs, rec)) == SectionsOf(cs) + [Section("", "")]
    ensures !IsGit(rec) ==> SectionsOf(AddRecord(cs, rec)) == SectionsOf(cs)[|cs| - 1 := SectionOf(AddTo(cs[|cs| - 1], rec))]
  {
    if IsGit(rec) {
      PathSnoc("--- ", "a/", [], rec);
      PathSnoc("+++ ", "b/", [], rec);
      assert [] + [rec] == [rec];
      assert rec[0] == 'd';
    }
  }

  /** A section after a prologue record, which may name one of its paths. */
  function Sided(s: Section, rec: string): Section {
    if "--- " <= rec then s.(pathA := HeaderPath(rec[4..], "a/"))
    else if "+++ " <= rec then s.(pathB := HeaderPath(rec[4..], "b/"))
    else s
  }

  lemma {:induction false} SectionAddTo(c: Chunk, rec: string)
    ensures SectionOf(AddTo(c, rec)) == if IsHunk(rec) || c.hunks != [] then SectionOf(c) else Sided(SectionOf(c), rec)
  {
    PathSnoc("--- ", "a/", c.prologue, rec);
    PathSnoc("+++ ", "b/", c.prologue, rec);
    assert "--- " <= rec ==> rec[0] == '-';
    assert "+++ " <= rec ==> rec[0] == '+';
  }

  function Incr(n: LineNo): LineNo { if n == MAX_INT then n else n + 1 }

  /** Where the parser's counters must stand after a section's records so far. */
  ghost predicate Counters(c: Chunk, inHunk: bool, oldNo: LineNo, newNo: LineNo) {
    && (inHunk <==> c.hunks != [])
    && (inHunk ==> HunkCounters(c.hunks[|c.hunks| - 1], oldNo, newNo))
  }

  ghost predicate HunkCounters(h: RawHunk, oldNo: LineNo, newNo: LineNo) {
    && oldNo == Plus(ParsedOld(h.header), CountOld(h.body))
    && newNo == Plus(ParsedNew(h.header), CountNew(h.body))
  }

  lemma {:induction false} HunkCountersAdd(h: RawHunk, rec: string, oldNo: LineNo, newNo: LineNo)
    requires HunkCounters(h, oldNo, newNo)
    ensures HunkCounters(h.(body := h.body + [rec]), if OnOld(rec) then Incr(oldNo) else oldNo, if OnNew(rec) then Incr(newNo) else newNo)
  {
    assert (h.body + [rec])[..|h.body|] == h.body;
  }

  lemma {:induction false} NextRowHeader(cs: seq<Chunk>, rec: string)
    requires cs != [] && (IsGit(rec) || IsHunk(rec) || cs[|cs| - 1].hunks == [])
    ensures NextRow(cs, rec) == HeaderRow(rec)
  {
  }

  lemma {:induction false} NextRowBody(cs: seq<Chunk>, rec: string, oldNo: LineNo, newNo: LineNo)
    requires cs != [] && !IsGit(rec) && !IsHunk(rec) && Counters(cs[|cs| - 1], true, oldNo, newNo)
    ensures NextRow(cs, rec) == BodyRow(rec, oldNo, newNo)
  {
  }

  /** Where the counters stand after a record that opens a section or a hunk, or
      belongs to a prologue. */
  lemma {:induction false} HeaderCounters(cs: seq<Chunk>, rec: string, oldNo: LineNo, newNo: LineNo)
    requires cs != [] && (IsGit(rec) || IsHunk(rec) || cs[|cs| - 1].hunks == [])
    requires !IsGit(rec) && IsHunk(rec) ==> oldNo == ParsedOld(rec) && newNo == ParsedNew(rec)
    ensures var next := AddRecord(cs, rec);
            && |next| == (if IsGit(rec) then |cs| + 1 else |cs|)
            && Counters(next[|next| - 1], !IsGit(rec) && IsHunk(rec), oldNo, newNo)
  {
    hide IsGit, IsHunk, ParsedOld, ParsedNew;
  }

  lemma {:induction false} ChunksNext(recs: seq<string>, i: nat)
    requires i < |recs|
    ensures Chunks(recs[..i + 1]) == AddRecord(Chunks(recs[..i]), recs[i])
  {
    assert recs[..i + 1][..i] == recs[..i];
  }

  lemma {:induction false} StartsEmpty()
    ensures LinesOf([EMPTY]) == [] && WidestOf([]) == 0 && SectionsOf([EMPTY]) == [Section("", "")]
    ensures Chunks([]) == [EMPTY]
    ensures Counters(EMPTY, false, 0, 0)
  {
  }

  /* ---- the state machine ---- */

  /** One parsed diff. */
  class Diff {
    var raw: string
    var sections: seq<Section>
    var lines: seq<Line>
    var widest: int

    ghost predicate Holds(cs: seq<Chunk>)
      reads this
    {
      sections == SectionsOf(cs) && lines == LinesOf(cs) && widest == WidestOf(lines)
    }

    ghost predicate Valid()
      reads this
    {
      Holds(Chunks(Records(raw)))
    }

    method TakeSide(cur: nat, rec: string)
      requires cur < |sections|
      modifies this`sections
      ensures sections == old(sections)[cur := Sided(old(sections)[cur], rec)]
    {
      if "--- " <= rec {
        sections := sections[cur := sections[cur].(pathA := HeaderPath(rec[4..], "a/"))];
      } else if "+++ " <= rec {
        sections := sections[cur := sections[cur].(pathB := HeaderPath(rec[4..], "b/"))];
      }
    }

    method KeepHeader(sec: nat, rec: string)
      modifies this`lines
      ensures lines == old(lines) + [Line(sec, HeaderRow(rec))]
      ensures WidestOf(lines) == WidestOf(old(lines))
    {
      lines := lines + [Line(sec, HeaderRow(rec))];
      assert lines[..|lines| - 1] == old(lines);
    }

    method Widen(n: LineNo, has: bool)
      modifies this`widest
      ensures widest == Max(old(widest), if has then n else old(widest))
    {
      if has && n > widest {
        widest := n;
      }
    }

    method KeepBody(sec: nat, row: Row)
      modifies this`lines, this`widest
      ensures lines == old(lines) + [Line(sec, row)]
      ensures old(widest) == WidestOf(old(lines)) ==> widest == WidestOf(lines)
    {
      lines := lines + [Line(sec, row)];
      assert lines[..|lines| - 1] == old(lines);
      Widen(row.oldNo, row.hasOld);
      Widen(row.newNo, row.hasNew);
    }

    /** A record outside a hunk, or one that opens a section or a hunk. */
    method TakeHeader(rec: string, cur0: nat, inHunk0: bool, oldNo0: LineNo, newNo0: LineNo, ghost cs: seq<Chunk>)
      returns (cur: nat, inHunk: bool, oldNo: LineNo, newNo: LineNo)
      requires cs != [] && Holds(cs) && cur0 == |cs| - 1 && inHunk0 == (cs[cur0].hunks != [])
      requires IsGit(rec) || IsHunk(rec) || !inHunk0
      modifies this`sections, this`lines
      ensures Holds(AddRecord(cs, rec)) && cur == |AddRecord(cs, rec)| - 1
      ensures Counters(AddRecord(cs, rec)[cur], inHunk, oldNo, newNo)
      ensures inHunk <==> AddRecord(cs, rec)[cur].hunks != []
    {
      hide LinesOf, WidestOf, NextRow, SectionOf, Rows, Chunks, PathOn, HeaderPath, Sided, HunkStart, Field, Fields, IsGit, IsHunk;
      cur, inHunk, oldNo, newNo := cur0, inHunk0, oldNo0, newNo0;
      assert NextRow(cs, rec) == HeaderRow(rec) by { NextRowHeader(cs, rec); }
      LinesAdd(cs, rec);
      SectionsAdd(cs, rec);
      SectionAddTo(cs[|cs| - 1], rec);
      hide AddTo, AddRecord, Counters;
      if IsGit(rec) {
        sections := sections + [Section("", "")];
        cur := |sections| - 1;
        inHunk := false;
      } else if IsHunk(rec) {
        var f := Fields(rec, false);
        oldNo := HunkStart(Field(f, 1));
        newNo := HunkStart(Field(f, 2));
        inHunk := true;
      } else {
        TakeSide(cur, rec);
      }
      HeaderCounters(cs, rec, oldNo, newNo);
      KeepHeader(cur, rec);
    }

    /** A body record of the hunk that is open. */
    method TakeBody(rec: string, cur: nat, oldNo0: LineNo, newNo0: LineNo, ghost cs: seq<Chunk>)
      returns (oldNo: LineNo, newNo: LineNo)
      requires cs != [] && Holds(cs) && cur == |cs| - 1 && Counters(cs[cur], true, oldNo0, newNo0)
      requires !IsGit(rec) && !IsHunk(rec)
      modifies this`lines, this`widest
      ensures Holds(AddRecord(cs, rec))
      ensures Counters(AddRecord(cs, rec)[cur], true, oldNo, newNo)
      ensures |AddRecord(cs, rec)| == |cs| && AddRecord(cs, rec)[cur].hunks != []
    {
      hide LinesOf, WidestOf, NextRow, SectionOf, Rows, Chunks, PathOn, HeaderPath, Sided;
      oldNo, newNo := oldNo0, newNo0;
      NextRowBody(cs, rec, oldNo, newNo);
      LinesAdd(cs, rec);
      SectionsAdd(cs, rec);
      SectionAddTo(cs[cur], rec);
      HunkCountersAdd(cs[cur].hunks[|cs[cur].hunks| - 1], rec, oldNo, newNo);
      if IsNote(rec) {
        KeepHeader(cur, rec);
      } else if "+" <= rec {
        KeepBody(cur, Row(false, rec, 0, false, newNo, true));
        newNo := Incr(newNo);
      } else if "-" <= rec {
        KeepBody(cur, Row(false, rec, oldNo, true, 0, false));
        oldNo := Incr(oldNo);
      } else {
        KeepBody(cur, Row(false, rec, oldNo, true, newNo, true));
        oldNo := Incr(oldNo);
        newNo := Incr(newNo);
      }
    }

    /** Reads the diff once, record by record. */
    constructor Parse(raw: string)
      ensures Valid() && this.raw == raw
    {
      hide LinesOf, WidestOf, SectionOf, SectionsOf, Rows, AddRecord, AddTo, Counters, IsGit, IsHunk, Records, Chunks;
      this.raw := raw;
      sections := [Section("", "")];
      lines := [];
      widest := 0;
      new;
      var cur := 0;
      var inHunk := false;
      var oldNo: LineNo, newNo: LineNo := 0, 0;
      var recs := Records(raw);
      ghost var cs := [EMPTY];
      StartsEmpty();
      for i := 0 to |recs|
        invariant cs == Chunks(recs[..i])
        invariant Holds(cs) && cur == |cs| - 1 && this.raw == raw
        invariant Counters(cs[cur], inHunk, oldNo, newNo) && (inHunk <==> cs[cur].hunks != [])
      {
        var rec := recs[i];
        ChunksNext(recs, i);
        if IsGit(rec) || IsHunk(rec) || !inHunk {
          cur, inHunk, oldNo, newNo := TakeHeader(rec, cur, inHunk, oldNo, newNo, cs);
        } else {
          oldNo, newNo := TakeBody(rec, cur, oldNo, newNo, cs);
        }
        cs := AddRecord(cs, rec);
      }
      assert recs[..|recs|] == recs;
    }
  }
}
