/**
 The numbers a parsed diff's lines carry, told from the lines alone.
 */
module Numbering {
  import opened Text
  import opened Header
  import opened Parser
  import opened Structure
  import opened Runs

  predicate OpensHunk(r: Row) { r.header && IsHunk(r.raw) }

  function OldIn(rows: seq<Row>): nat {
    if rows == [] then 0 else OldIn(rows[..|rows| - 1]) + if rows[|rows| - 1].hasOld then 1 else 0
  }

  function NewIn(rows: seq<Row>): nat {
    if rows == [] then 0 else NewIn(rows[..|rows| - 1]) + if rows[|rows| - 1].hasNew then 1 else 0
  }

  /** Row `h` opens the hunk row `k` is in, and `k` carries, on each side it exists
      on, that hunk's start plus how many rows between the two exist on it. */
  ghost predicate NumberedFrom(rows: seq<Row>, h: int, k: int) {
    && 0 <= h < k < |rows| && OpensHunk(rows[h])
    && (forall j :: h < j <= k ==> !OpensHunk(rows[j]))
    && (rows[k].hasOld ==> rows[k].oldNo == Plus(ParsedOld(rows[h].raw), OldIn(rows[h + 1..k])))
    && (rows[k].hasNew ==> rows[k].newNo == Plus(ParsedNew(rows[h].raw), NewIn(rows[h + 1..k])))
  }

  lemma {:induction false} NumberedInFront(a: seq<Row>, b: seq<Row>, h: int, k: int)
    requires NumberedFrom(a, h, k)
    ensures NumberedFrom(a + b, h, k)
  {
    hide OldIn, NewIn, OpensHunk;
    var rows := a + b;
    assert rows[h + 1..k] == a[h + 1..k];
    assert forall j :: 0 <= j < |a| ==> rows[j] == a[j];
  }

  lemma {:induction false} NumberedBehind(a: seq<Row>, b: seq<Row>, h: int, k: int)
    requires NumberedFrom(b, h, k)
    ensures NumberedFrom(a + b, |a| + h, |a| + k)
  {
    hide OldIn, NewIn, OpensHunk;
    var rows := a + b;
    assert rows[|a| + h + 1..|a| + k] == b[h + 1..k];
    assert forall j :: 0 <= j < |b| ==> rows[|a| + j] == b[j];
    forall j | |a| + h < j <= |a| + k ensures !OpensHunk(rows[j]) {
      assert rows[j] == b[j - |a|];
    }
  }

  lemma {:induction false} BodyCounts(body: seq<string>, o: LineNo, n: LineNo, m: nat)
    requires m <= |body|
    ensures |BodyRows(body, o, n)| == |body|
    ensures OldIn(BodyRows(body, o, n)[..m]) == CountOld(body[..m])
    ensures NewIn(BodyRows(body, o, n)[..m]) == CountNew(body[..m])
  {
    LengthOfRows(body, o, n);
    var rows := BodyRows(body, o, n);
    hide BodyRows;
    if m > 0 {
      BodyCounts(body, o, n, m - 1);
      RowAt(body, o, n, m - 1);
      assert rows[..m][..m - 1] == rows[..m - 1] && body[..m][..m - 1] == body[..m - 1];
    }
  }

  lemma {:induction false} BodyOpensNone(body: seq<string>, o: LineNo, n: LineNo, k: nat)
    requires Plain(body) && k < |body|
    ensures |BodyRows(body, o, n)| == |body| && !OpensHunk(BodyRows(body, o, n)[k])
  {
    RowAt(body, o, n, k);
    LengthOfRows(body, o, n);
    hide BodyRows, CountOld, CountNew, IsHunk, IsGit;
  }

  lemma {:induction false} BodyNumbers(body: seq<string>, o: LineNo, n: LineNo, k: nat)
    requires k < |body|
    ensures |BodyRows(body, o, n)| == |body|
    ensures var rows := BodyRows(body, o, n);
            && (rows[k].hasOld ==> rows[k].oldNo == Plus(o, OldIn(rows[..k])))
            && (rows[k].hasNew ==> rows[k].newNo == Plus(n, NewIn(rows[..k])))
  {
    RowAt(body, o, n, k);
    BodyCounts(body, o, n, k);
    hide BodyRows, CountOld, CountNew, OldIn, NewIn, Plus;
  }

  lemma {:induction false} HunkNumbers(hunk: RawHunk, k: nat)
    requires IsHunk(hunk.header) && Plain(hunk.body) && 0 < k < |HunkRows(hunk)|
    ensures NumberedFrom(HunkRows(hunk), 0, k)
  {
    var o, n := ParsedOld(hunk.header), ParsedNew(hunk.header);
    var rows, body := HunkRows(hunk), BodyRows(hunk.body, o, n);
    hide BodyRows, OldIn, NewIn, ParsedOld, ParsedNew, IsHunk, Plain, Plus;
    LengthOfRows(hunk.body, o, n);
    BodyNumbers(hunk.body, o, n, k - 1);
    assert rows[1..k] == body[..k - 1] && rows[k] == body[k - 1];
    forall j | 0 < j <= k ensures !OpensHunk(rows[j]) {
      BodyOpensNone(hunk.body, o, n, j - 1);
      assert rows[j] == body[j - 1];
    }
  }

  lemma {:induction false} GoodFront(hs: seq<RawHunk>)
    requires GoodHunks(hs) && hs != []
    ensures GoodHunks(hs[..|hs| - 1])
    ensures IsHunk(hs[|hs| - 1].header) && Plain(hs[|hs| - 1].body)
  {
    hide Plain, IsHunk;
  }

  lemma {:induction false} HunksNumber(hs: seq<RawHunk>, k: nat) returns (h: int)
    requires GoodHunks(hs) && k < |HunksRows(hs)| && !HunksRows(hs)[k].header
    ensures NumberedFrom(HunksRows(hs), h, k)
  {
    var front, last := hs[..|hs| - 1], hs[|hs| - 1];
    assert HunksRows(hs) == HunksRows(front) + HunkRows(last);
    hide *;
    GoodFront(hs);
    if k < |HunksRows(front)| {
      assert (HunksRows(front) + HunkRows(last))[k] == HunksRows(front)[k];
      var j := HunksNumber(front, k);
      NumberedInFront(HunksRows(front), HunkRows(last), j, k);
      return j;
    } else {
      LastNumbers(HunksRows(front), last, k);
      return |HunksRows(front)|;
    }
  }

  lemma {:induction false} LastNumbers(a: seq<Row>, last: RawHunk, k: nat)
    requires IsHunk(last.header) && Plain(last.body)
    requires |a| <= k < |a + HunkRows(last)| && !(a + HunkRows(last))[k].header
    ensures NumberedFrom(a + HunkRows(last), |a|, k)
  {
    hide *;
    var i := k - |a|;
    assert (a + HunkRows(last))[k] == HunkRows(last)[i];
    HeaderFirst(last);
    HunkNumbers(last, i);
    NumberedBehind(a, HunkRows(last), 0, i);
  }

  lemma {:induction false} HeaderFirst(hunk: RawHunk)
    ensures HunkRows(hunk) != [] && HunkRows(hunk)[0].header
  {
  }

  lemma {:induction false} AllHeaders(recs: seq<string>)
    ensures forall k :: 0 <= k < |HeaderRows(recs)| ==> HeaderRows(recs)[k].header
  {
  }

  lemma {:induction false} PastHeaders(a: seq<Row>, b: seq<Row>, k: nat)
    requires forall j :: 0 <= j < |a| ==> a[j].header
    requires k < |a + b| && !(a + b)[k].header
    ensures k >= |a| && !b[k - |a|].header
  {
  }

  lemma {:induction false} RowsAre(c: Chunk, k: nat)
    requires k < |Rows(c)| && !Rows(c)[k].header
    ensures var i := k - |HeaderRows(c.prologue)|;
            0 <= i < |HunksRows(c.hunks)| && !HunksRows(c.hunks)[i].header
  {
    AllHeaders(c.prologue);
    hide HunksRows, HeaderRows;
    PastHeaders(HeaderRows(c.prologue), HunksRows(c.hunks), k);
  }

  lemma {:induction false} FileNumbers(c: Chunk, k: nat) returns (h: int)
    requires GoodHunks(c.hunks) && k < |Rows(c)| && !Rows(c)[k].header
    ensures NumberedFrom(Rows(c), h, k)
  {
    hide GoodHunks, HunksRows, HeaderRows, NumberedFrom;
    RowsAre(c, k);
    var a := HeaderRows(c.prologue);
    var j := HunksNumber(c.hunks, k - |a|);
    NumberedBehind(a, HunksRows(c.hunks), j, k - |a|);
    return |a| + j;
  }

  /* ---- the lines of a diff ---- */

  function RowsOf(lines: seq<Line>): (rows: seq<Row>)
    ensures |rows| == |lines|
  {
    seq(|lines|, k requires 0 <= k < |lines| => lines[k].row)
  }

  /** Everything from line `h` to line `k` is in one section. */
  predicate OneSection(lines: seq<Line>, h: int, k: int) {
    forall j :: 0 <= h <= j <= k < |lines| ==> lines[j].section == lines[k].section
  }

  lemma {:induction false} RowsOfJoined(a: seq<Line>, b: seq<Line>)
    ensures RowsOf(a + b) == RowsOf(a) + RowsOf(b)
  {
  }

  lemma {:induction false} RowsOfTag(section: nat, rows: seq<Row>)
    ensures RowsOf(Tag(section, rows)) == rows
  {
  }

  lemma {:induction false} LinesNumber(cs: seq<Chunk>, k: nat) returns (h: int)
    requires forall j :: 0 <= j < |cs| ==> GoodHunks(cs[j].hunks)
    requires k < |LinesOf(cs)| && !LinesOf(cs)[k].row.header
    ensures NumberedFrom(RowsOf(LinesOf(cs)), h, k) && OneSection(LinesOf(cs), h, k)
  {
    var front, c := cs[..|cs| - 1], cs[|cs| - 1];
    var a, b := LinesOf(front), Tag(|front|, Rows(c));
    assert LinesOf(cs) == a + b;
    hide *;
    if k < |a| {
      assert (a + b)[k] == a[k];
      var j := LinesNumber(front, k);
      RowsOfJoined(a, b);
      NumberedInFront(RowsOf(a), RowsOf(b), j, k);
      SectionInFront(a, b, j, k);
      return j;
    } else {
      h := LastFileNumbers(a, |front|, c, k);
    }
  }

  lemma {:induction false} LastFileNumbers(a: seq<Line>, section: nat, c: Chunk, k: nat) returns (h: int)
    requires GoodHunks(c.hunks)
    requires |a| <= k < |a + Tag(section, Rows(c))| && !(a + Tag(section, Rows(c)))[k].row.header
    ensures NumberedFrom(RowsOf(a + Tag(section, Rows(c))), h, k) && OneSection(a + Tag(section, Rows(c)), h, k)
  {
    hide *;
    var b, i := Tag(section, Rows(c)), k - |a|;
    assert (a + b)[k] == b[i];
    TagAt(section, Rows(c), i);
    var j := FileNumbers(c, i);
    BeforeIt(Rows(c), j, i);
    RowsOfJoined(a, b);
    RowsOfTag(section, Rows(c));
    LengthsOf(a);
    NumberedBehind(RowsOf(a), RowsOf(b), j, i);
    SectionBehind(a, section, Rows(c), j, i);
    return |a| + j;
  }

  lemma {:induction false} LengthsOf(a: seq<Line>)
    ensures |RowsOf(a)| == |a|
  {
  }

  lemma {:induction false} TagAt(section: nat, rows: seq<Row>, k: nat)
    ensures |Tag(section, rows)| == |rows|
    ensures k < |rows| ==> Tag(section, rows)[k] == Line(section, rows[k])
  {
  }

  lemma {:induction false} SectionInFront(a: seq<Line>, b: seq<Line>, h: int, k: nat)
    requires OneSection(a, h, k) && k < |a|
    ensures OneSection(a + b, h, k)
  {
    assert forall j :: 0 <= j < |a| ==> (a + b)[j] == a[j];
  }

  lemma {:induction false} SectionBehind(a: seq<Line>, section: nat, rows: seq<Row>, h: int, k: nat)
    requires 0 <= h <= k < |rows|
    ensures OneSection(a + Tag(section, rows), |a| + h, |a| + k)
  {
    var b := Tag(section, rows);
    forall j | |a| <= j < |a| + |b| ensures (a + b)[j].section == section {
      assert (a + b)[j] == b[j - |a|];
    }
  }

  lemma {:induction false} BeforeIt(rows: seq<Row>, h: int, k: int)
    requires NumberedFrom(rows, h, k)
    ensures 0 <= h < k
  {
  }

  lemma {:induction false} AllHunksGood(cs: seq<Chunk>)
    requires GoodChunks(cs)
    ensures forall j :: 0 <= j < |cs| ==> GoodHunks(cs[j].hunks)
  {
    hide GoodHunks, Plain;
  }

  /** Every body line of a parsed diff carries, on each side it exists on, the start
      its own hunk's header gives that side plus how many earlier body lines of the
      hunk exist on it. */
  lemma {:induction false} LinesAreNumbered(d: Diff, k: nat)
    requires d.Valid() && k < |d.lines| && !d.lines[k].row.header
    ensures exists h :: 0 <= h < k && NumberedFrom(RowsOf(d.lines), h, k) && OneSection(d.lines, h, k)
  {
    ChunksGood(Records(d.raw));
    var cs := Chunks(Records(d.raw));
    AllHunksGood(cs);
    assert d.lines == LinesOf(cs);
    hide Chunks, LinesOf, Records, NumberedFrom, RowsOf, OneSection, GoodHunks;
    var h := LinesNumber(cs, k);
    BeforeIt(RowsOf(d.lines), h, k);
  }
}
