/**
 Three views over one parse: the numbered diff, the nearest anchor, and the line
 ranges a reviewer was shown.
 */
module Views {
  import opened Text
  import opened Header
  import opened Parser
  import opened Structure
  import opened Spans

  /* ---- the gutter ---- */

  const GUTTER_FLOOR: nat := 4

  function Gutter(n: LineNo, has: bool): string { if has then Itoa(n) else "-" }

  function Blanks(n: nat): string { seq(n, _ => ' ') }

  /** `%*s`: padded with blanks on the left, never cut. */
  function Pad(w: nat, s: string): string { if |s| < w then Blanks(w - |s|) + s else s }

  function GutterWidth(widest: int): nat {
    var n := |Itoa(widest)|;
    if n > GUTTER_FLOOR then n else GUTTER_FLOOR
  }

  function NumberedLine(w: nat, r: Row): string {
    if r.header then r.raw
    else Pad(w, Gutter(r.oldNo, r.hasOld)) + " " + Pad(w, Gutter(r.newNo, r.hasNew)) + " |" + r.raw
  }

  function NumberedLines(w: nat, lines: seq<Line>): seq<string> {
    seq(|lines|, k requires 0 <= k < |lines| => NumberedLine(w, lines[k].row))
  }

  method Numbered(d: Diff) returns (out: string)
    ensures out == Emit(NumberedLines(GutterWidth(d.widest), d.lines))
  {
    if |d.lines| == 0 {
      assert NumberedLines(GutterWidth(d.widest), d.lines) == [];
      return "";
    }
    var w := GUTTER_FLOOR;
    var n := |Itoa(d.widest)|;
    if n > w {
      w := n;
    }
    out := "";
    ghost var texts := NumberedLines(w, d.lines);
    for i := 0 to |d.lines|
      invariant out == Emit(texts[..i])
    {
      hide NumberedLine, Emit;
      EmitNext(texts, i);
      out := out + NumberedLine(w, d.lines[i].row) + "\n";
    }
    assert texts[..|d.lines|] == texts;
  }

  lemma {:induction false} EmitNext(texts: seq<string>, i: nat)
    requires i < |texts|
    ensures Emit(texts[..i + 1]) == Emit(texts[..i]) + texts[i] + "\n"
  {
    assert texts[..i + 1][..i] == texts[..i];
  }

  /* ---- reading the gutter back ---- */

  datatype Column = Missing | At(n: LineNo)

  function ReadColumn(s: string): Column {
    var t := SkipBlanks(s);
    if t == "-" then Missing else At(NumberOf(t))
  }

  datatype Quoted = Quoted(left: Column, right: Column, raw: string)

  /** Takes a numbered line apart by position alone. */
  function ReadLine(w: nat, text: string): Quoted
    requires |text| >= 2 * w + 3
  {
    Quoted(ReadColumn(text[..w]), ReadColumn(text[w + 1..2 * w + 1]), text[2 * w + 3..])
  }

  function ColumnOf(n: LineNo, has: bool): Column { if has then At(n) else Missing }

  /** A row's numbers fit the gutter. */
  predicate FitsGutter(w: nat, r: Row) {
    |Gutter(r.oldNo, r.hasOld)| <= w && |Gutter(r.newNo, r.hasNew)| <= w
  }

  lemma {:induction false} ColumnReads(w: nat, n: LineNo, has: bool)
    requires |Gutter(n, has)| <= w
    ensures |Pad(w, Gutter(n, has))| == w
    ensures ReadColumn(Pad(w, Gutter(n, has))) == ColumnOf(n, has)
  {
    var g := Gutter(n, has);
    var s := Pad(w, g);
    var k := w - |g|;
    ItoaShape(n);
    GutterIsNotDash(n);
    assert s[k..] == g && forall j :: 0 <= j < k ==> s[j] == ' ';
    hide Itoa, NumberOf, SkipBlanks, Pad;
    assert g != "" && !IsBlank(g[0]) && s[k] == g[0];
    SkipBlanksIs(s, k);
    NumberOfItoa(n);
  }

  lemma {:induction false} GutterIsNotDash(n: LineNo)
    ensures Itoa(n) != "-"
  {
  }

  /** A body line whose numbers fit has a gutter of exactly 2w+3 bytes, and both
      numbers, the missing side and the text are read back from it. */
  lemma {:induction false} NumberedLineReads(w: nat, r: Row)
    requires !r.header && FitsGutter(w, r)
    ensures var text := NumberedLine(w, r);
            && |text| == 2 * w + 3 + |r.raw|
            && ReadLine(w, text) == Quoted(ColumnOf(r.oldNo, r.hasOld), ColumnOf(r.newNo, r.hasNew), r.raw)
  {
    ColumnReads(w, r.oldNo, r.hasOld);
    ColumnReads(w, r.newNo, r.hasNew);
    hide Pad, ReadColumn, Gutter;
    var a, b := Pad(w, Gutter(r.oldNo, r.hasOld)), Pad(w, Gutter(r.newNo, r.hasNew));
    GutterParts(a, b, r.raw, w);
  }

  /** A header record passes bare, and no body line does. */
  lemma {:induction false} BareExactlyWhen(w: nat, r: Row)
    ensures NumberedLine(w, r) == r.raw <==> r.header
    ensures var text := NumberedLine(w, r); |r.raw| <= |text| && text[|text| - |r.raw|..] == r.raw
  {
    hide Pad, Gutter;
    if !r.header {
      var front := Pad(w, Gutter(r.oldNo, r.hasOld)) + " " + Pad(w, Gutter(r.newNo, r.hasNew)) + " |";
      assert NumberedLine(w, r) == front + r.raw && |front| > 0;
    }
  }

  lemma {:induction false} GutterParts(a: string, b: string, raw: string, w: nat)
    requires |a| == w == |b|
    ensures var text := a + " " + b + " |" + raw;
            && |text| == 2 * w + 3 + |raw|
            && text[..w] == a && text[w + 1..2 * w + 1] == b && text[2 * w + 3..] == raw
  {
  }

  lemma {:induction false} PadLength(w: nat, s: string)
    ensures |Pad(w, s)| == Max(w, |s|)
  {
  }

  /** The gutter is 2w+3 bytes wide exactly on the lines whose numbers fit it. */
  lemma {:induction false} GutterWidthExactlyWhen(w: nat, r: Row)
    requires !r.header
    ensures |NumberedLine(w, r)| == 2 * w + 3 + |r.raw| <==> FitsGutter(w, r)
  {
    PadLength(w, Gutter(r.oldNo, r.hasOld));
    PadLength(w, Gutter(r.newNo, r.hasNew));
    hide Pad, Gutter;
  }

  lemma {:induction false} WidestHolds(lines: seq<Line>, k: nat)
    requires k < |lines|
    ensures 0 <= WidestOf(lines)
    ensures lines[k].row.hasOld ==> lines[k].row.oldNo <= WidestOf(lines)
    ensures lines[k].row.hasNew ==> lines[k].row.newNo <= WidestOf(lines)
  {
    WidestPositive(lines[..|lines| - 1]);
    if k < |lines| - 1 {
      WidestHolds(lines[..|lines| - 1], k);
    }
  }

  lemma {:induction false} WidestPositive(lines: seq<Line>)
    ensures 0 <= WidestOf(lines)
  {
    if lines != [] {
      WidestPositive(lines[..|lines| - 1]);
    }
  }

  /** No number of the row is negative. */
  predicate Unsigned(r: Row) { (r.hasOld ==> r.oldNo >= 0) && (r.hasNew ==> r.newNo >= 0) }

  lemma {:induction false} UnsignedFits(n: LineNo, has: bool, widest: int)
    requires has ==> 0 <= n <= widest
    ensures |Gutter(n, has)| <= GutterWidth(widest)
  {
    if has {
      DigitsLonger(n, widest);
      hide Digits;
    }
  }

  /** In a parsed diff every body line whose numbers are not negative fits the
      gutter its widest line number sets, so its numbers can be read off it. */
  lemma {:induction false} NumberedDiffReads(lines: seq<Line>, k: nat)
    requires k < |lines| && !lines[k].row.header && Unsigned(lines[k].row)
    ensures var w, r := GutterWidth(WidestOf(lines)), lines[k].row;
            && |NumberedLine(w, r)| == 2 * w + 3 + |r.raw|
            && ReadLine(w, NumberedLine(w, r)) == Quoted(ColumnOf(r.oldNo, r.hasOld), ColumnOf(r.newNo, r.hasNew), r.raw)
  {
    hide NumberedLine, ReadLine, WidestOf, Gutter, GutterWidth;
    var w, r := GutterWidth(WidestOf(lines)), lines[k].row;
    WidestHolds(lines, k);
    UnsignedFits(r.oldNo, r.hasOld, WidestOf(lines));
    UnsignedFits(r.newNo, r.hasNew, WidestOf(lines));
    NumberedLineReads(w, r);
  }

  /* ---- anchors ---- */

  datatype Side = Left | Right

  predicate Names(s: Section, path: string) { s.pathA == path || s.pathB == path }

  predicate OnSide(r: Row, side: Side) { !r.header && (if side == Left then r.hasOld else r.hasNew) }

  function NumberOn(r: Row, side: Side): LineNo { if side == Left then r.oldNo else r.newNo }

  /** The diff shows line `v` of the file on that side. */
  ghost predicate ShownOn(lines: seq<Line>, sections: seq<Section>, path: string, side: Side, v: int) {
    exists k :: 0 <= k < |lines| && lines[k].section < |sections| && Names(sections[lines[k].section], path)
                && OnSide(lines[k].row, side) && NumberOn(lines[k].row, side) == v
  }

  /** `v` is nearer to `want` than `u` is, the lower winning a tie. */
  predicate NearerTo(want: Int, v: LineNo, u: LineNo) {
    Distance(v, want) < Distance(u, want) || (Distance(v, want) == Distance(u, want) && v <= u)
  }

  ghost predicate InRange(lines: seq<Line>, sections: seq<Section>) {
    forall k :: 0 <= k < |lines| ==> lines[k].section < |sections|
  }

  lemma {:induction false} DistanceZero(v: LineNo, want: Int)
    ensures Distance(v, want) >= 0
    ensures Distance(v, want) <= 0 <==> v == want
  {
    DistanceSaturates(v, want);
  }

  method Anchor(d: Diff, path: string, side: Side, want: Int, bound: Int) returns (at: LineNo, ok: bool)
    requires InRange(d.lines, d.sections)
    ensures ok ==> ShownOn(d.lines, d.sections, path, side, at) && Distance(at, want) <= bound
    ensures ok ==> forall u: LineNo :: ShownOn(d.lines, d.sections, path, side, u) ==> NearerTo(want, at, u)
    ensures ok <==> exists u: LineNo :: ShownOn(d.lines, d.sections, path, side, u) && Distance(u, want) <= bound
    ensures !ok ==> at == 0
    ensures bound == 0 && -MAX_INT <= want ==> (ok <==> ShownOn(d.lines, d.sections, path, side, want))
  {
    hide Distance;
    var best: LineNo, bestDist: Int := 0, 0;
    var found := false;
    for i := 0 to |d.lines|
      invariant found ==> ShownOn(d.lines, d.sections, path, side, best) && bestDist == Distance(best, want)
      invariant forall k :: 0 <= k < i && Names(d.sections[d.lines[k].section], path) && OnSide(d.lines[k].row, side)
                  ==> found && NearerTo(want, best, NumberOn(d.lines[k].row, side))
    {
      var l := d.lines[i];
      if l.row.header {
        continue;
      }
      var s := d.sections[l.section];
      if s.pathA != path && s.pathB != path {
        continue;
      }
      var v: LineNo;
      if side == Left {
        if !l.row.hasOld {
          continue;
        }
        v := l.row.oldNo;
      } else {
        if !l.row.hasNew {
          continue;
        }
        v := l.row.newNo;
      }
      var dist := Distance(v, want);
      if !found || dist < bestDist || (dist == bestDist && v < best) {
        best, bestDist, found := v, dist, true;
      }
    }
    if found {
      DistanceZero(best, want);
    }
    if -MAX_INT <= want {
      DistanceZero(want, want);
    }
    if found && bestDist <= bound {
      return best, true;
    }
    return 0, false;
  }

  /** The diff shows `want` as an added or removed line. */
  ghost predicate ChangedOn(lines: seq<Line>, sections: seq<Section>, path: string, side: Side, want: int) {
    exists k :: 0 <= k < |lines| && lines[k].section < |sections| && Names(sections[lines[k].section], path)
                && OnSide(lines[k].row, side) && lines[k].row.hasOld != lines[k].row.hasNew
                && NumberOn(lines[k].row, side) == want
  }

  method ChangedLine(d: Diff, path: string, side: Side, want: Int) returns (yes: bool)
    requires InRange(d.lines, d.sections)
    ensures yes <==> ChangedOn(d.lines, d.sections, path, side, want)
  {
    for i := 0 to |d.lines|
      invariant forall k :: 0 <= k < i ==>
                  !(Names(d.sections[d.lines[k].section], path) && OnSide(d.lines[k].row, side)
                    && d.lines[k].row.hasOld != d.lines[k].row.hasNew && NumberOn(d.lines[k].row, side) == want)
    {
      var l := d.lines[i];
      if l.row.header {
        continue;
      }
      var s := d.sections[l.section];
      if s.pathA != path && s.pathB != path {
        continue;
      }
      if l.row.hasOld == l.row.hasNew {
        continue;
      }
      if side == Left {
        if !l.row.hasOld || l.row.oldNo != want {
          continue;
        }
      } else {
        if !l.row.hasNew || l.row.newNo != want {
          continue;
        }
      }
      return true;
    }
    return false;
  }

  /* ---- line ranges ---- */

  /** One span for each line shown on a side, in the order of the diff. */
  function SideSpans(lines: seq<Line>, side: Side): seq<LineSpan> {
    if lines == [] then []
    else
      var front, r := SideSpans(lines[..|lines| - 1], side), lines[|lines| - 1].row;
      if OnSide(r, side) then front + [LineSpan(NumberOn(r, side), NumberOn(r, side))] else front
  }

  method LineRanges(d: Diff) returns (base: seq<LineSpan>, head: seq<LineSpan>)
    ensures Merges(SideSpans(d.lines, Left), base) && Merges(SideSpans(d.lines, Right), head)
  {
    hide Merges;
    var oldNums, newNums := [], [];
    for i := 0 to |d.lines|
      invariant oldNums == SideSpans(d.lines[..i], Left) && newNums == SideSpans(d.lines[..i], Right)
    {
      assert d.lines[..i + 1][..i] == d.lines[..i];
      var l := d.lines[i].row;
      if l.header {
        continue;
      }
      if l.hasOld {
        oldNums := oldNums + [LineSpan(l.oldNo, l.oldNo)];
      }
      if l.hasNew {
        newNums := newNums + [LineSpan(l.newNo, l.newNo)];
      }
    }
    assert d.lines[..|d.lines|] == d.lines;
    base := MergeLineSpans(oldNums);
    head := MergeLineSpans(newNums);
  }

  lemma {:induction false} SideSpansAre(lines: seq<Line>, side: Side)
    ensures forall s :: s in SideSpans(lines, side) ==> s.start == s.end
    ensures forall v: LineNo :: LineSpan(v, v) in SideSpans(lines, side) <==>
              exists k :: 0 <= k < |lines| && OnSide(lines[k].row, side) && NumberOn(lines[k].row, side) == v
  {
    if lines != [] {
      hide OnSide, NumberOn;
      var front, last := lines[..|lines| - 1], lines[|lines| - 1];
      SideSpansAre(front, side);
      forall v: LineNo
        ensures LineSpan(v, v) in SideSpans(lines, side) <==>
              exists k :: 0 <= k < |lines| && OnSide(lines[k].row, side) && NumberOn(lines[k].row, side) == v
      {
        SideSpansStep(front, last, side, v);
        assert front + [last] == lines;
      }
    }
  }

  lemma {:induction false} SideSpansStep(front: seq<Line>, last: Line, side: Side, v: LineNo)
    requires LineSpan(v, v) in SideSpans(front, side) <==>
              exists k :: 0 <= k < |front| && OnSide(front[k].row, side) && NumberOn(front[k].row, side) == v
    ensures LineSpan(v, v) in SideSpans(front + [last], side) <==>
              exists k :: 0 <= k < |front + [last]| && OnSide((front + [last])[k].row, side) && NumberOn((front + [last])[k].row, side) == v
  {
    var lines := front + [last];
    assert lines[..|front|] == front;
    hide OnSide, NumberOn;
    if k :| 0 <= k < |front| && OnSide(front[k].row, side) && NumberOn(front[k].row, side) == v {
      assert lines[k] == front[k];
    }
    assert lines[|front|] == last;
  }

  /** The diff shows line `v` on a side, in some file. */
  ghost predicate ShownAnywhere(lines: seq<Line>, side: Side, v: int) {
    exists k :: 0 <= k < |lines| && OnSide(lines[k].row, side) && NumberOn(lines[k].row, side) == v
  }

  /** The ranges hold exactly the lines, from 1 up, that the gutter shows. */
  lemma {:induction false} RangesHoldShownLines(lines: seq<Line>, side: Side, spans: seq<LineSpan>, n: LineNo)
    requires Merges(SideSpans(lines, side), spans) && n >= 1
    ensures Covers(spans, n) <==> ShownAnywhere(lines, side, n)
  {
    hide Merges, Stepped, OnSide, NumberOn;
    var given := SideSpans(lines, side);
    MergesShows(given, spans);
    SideSpansAre(lines, side);
    hide SideSpans;
    ValidOnesAre(given);
    CoversByMember(ValidOnes(given), n);
    hide Covers, ValidOnes;
    if s :| s in ValidOnes(given) && s.start <= n <= s.end {
      assert s == LineSpan(n, n);
    }
    if ShownAnywhere(lines, side, n) {
      assert ValidSpan(LineSpan(n, n));
      assert LineSpan(n, n) in ValidOnes(given);
    }
  }

  /** Every body line of the diff belongs to the one file. */
  ghost predicate OneFile(lines: seq<Line>, sections: seq<Section>, path: string) {
    forall k :: 0 <= k < |lines| && !lines[k].row.header ==>
      lines[k].section < |sections| && Names(sections[lines[k].section], path)
  }

  /** On a diff of one file the ranges and the anchors agree about every line. */
  lemma {:induction false} RangesAgreeWithAnchors(lines: seq<Line>, sections: seq<Section>, path: string,
      side: Side, spans: seq<LineSpan>, n: LineNo)
    requires OneFile(lines, sections, path)
    requires Merges(SideSpans(lines, side), spans) && n >= 1
    ensures CoversSpan(spans, n, n) <==> ShownOn(lines, sections, path, side, n)
  {
    RangesHoldShownLines(lines, side, spans, n);
    hide Merges, SideSpans, NumberOn, Names;
    MergesShows(SideSpans(lines, side), spans);
    hide Stepped;
    CoversSpanIsEveryLine(spans, n, n);
    hide Covers, CoversSpan;
    if k :| 0 <= k < |lines| && OnSide(lines[k].row, side) && NumberOn(lines[k].row, side) == n {
      assert Names(sections[lines[k].section], path);
    }
    assert CoversSpan(spans, n, n) <==> Covers(spans, n);
  }
}
