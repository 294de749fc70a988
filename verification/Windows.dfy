/**
 The window a clip cuts, told from a hunk's records alone: which of them are
 emitted, in which stretches, and what the header of each stretch says.
 */
module Windows {
  import opened Text
  import opened Header
  import opened Parser
  import opened Runs
  import opened Clip
  import opened ClipDiff

  /* ---- the window on records ---- */

  /** Record `i` stands within `radius` lines of the added or removed record `j`,
      counted on the side that `j` is on. */
  predicate Reaches(body: seq<string>, i: nat, j: nat, radius: Int)
    requires i < |body| && j < |body|
  {
    if "-" <= body[j] then Abs(CountOld(body[..i]) - CountOld(body[..j])) <= radius
    else "+" <= body[j] && Abs(CountNew(body[..i]) - CountNew(body[..j])) <= radius
  }

  /** An added or removed record always stays, a context record near one. */
  predicate LineStays(body: seq<string>, i: nat, radius: Int)
    requires i < |body|
  {
    "+" <= body[i] || "-" <= body[i] || exists j :: 0 <= j < |body| && Reaches(body, i, j, radius)
  }

  /** Record `k` is the line that record `i` belongs to: itself, or the one that
      the annotations up to `i` annotate. */
  predicate Belongs(body: seq<string>, i: int, k: int) {
    0 <= k <= i < |body| && !("\\" <= body[k]) && forall m :: k < m <= i ==> "\\" <= body[m]
  }

  ghost predicate Stays(body: seq<string>, i: nat, radius: Int)
    requires i < |body|
  {
    exists k :: 0 <= k <= i && Belongs(body, i, k) && LineStays(body, k, radius)
  }

  /** No number of the hunk runs into the largest int. */
  predicate Unsaturated(body: seq<string>, h: HunkHeader) {
    |body| <= MAX_INT && h.oldStart + CountOld(body) <= MAX_INT && h.newStart + CountNew(body) <= MAX_INT
  }

  lemma {:induction false} Marks(rec: string)
    ensures IsNote(rec) ==> !("+" <= rec) && !("-" <= rec)
    ensures !("+" <= rec && "-" <= rec)
    ensures IsChange(rec) <==> "+" <= rec || "-" <= rec
    ensures "-" <= rec ==> OnOld(rec) && !OnNew(rec)
    ensures "+" <= rec ==> OnNew(rec) && !OnOld(rec)
  {
    if "\\" <= rec { assert rec[0] == '\\'; }
    if "+" <= rec { assert rec[0] == '+'; }
    if "-" <= rec { assert rec[0] == '-'; }
  }

  lemma {:induction false} CountsRise(body: seq<string>, i: nat, j: nat)
    requires i <= j <= |body|
    ensures CountOld(body[..i]) <= CountOld(body[..j]) <= CountOld(body[..i]) + (j - i)
    ensures CountNew(body[..i]) <= CountNew(body[..j]) <= CountNew(body[..i]) + (j - i)
  {
    if i < j {
      CountsRise(body, i, j - 1);
      assert body[..j][..j - 1] == body[..j - 1];
    }
  }

  lemma {:induction false} PlusNear(start: LineNo, a: nat, b: nat)
    ensures Abs(Plus(start, a) - Plus(start, b)) <= Abs(a - b)
    ensures start + a <= MAX_INT && start + b <= MAX_INT ==> Plus(start, a) - Plus(start, b) == a - b
  {
  }

  /** Where no number saturates, and always in one direction, two numbers on one
      side are as far apart as the lines between them. */
  lemma {:induction false} DistanceCounts(start: LineNo, a: nat, b: nat, radius: Int)
    ensures Abs(a - b) <= radius ==> Distance(Plus(start, a), Plus(start, b)) <= radius
    ensures start + a <= MAX_INT && start + b <= MAX_INT && a <= MAX_INT && b <= MAX_INT ==>
              (Distance(Plus(start, a), Plus(start, b)) <= radius <==> Abs(a - b) <= radius)
  {
    PlusNear(start, a, b);
    DistanceSaturates(Plus(start, a), Plus(start, b));
    hide Distance, Plus;
  }

  lemma {:induction false} NearIs(body: seq<string>, h: HunkHeader, i: nat, j: nat, radius: Int)
    requires i < |body| && j < |body| && OnOld(body[i]) && OnNew(body[i])
    requires |BodyRows(body, h.oldStart, h.newStart)| == |body|
    ensures var rows := BodyRows(body, h.oldStart, h.newStart);
            && (Reaches(body, i, j, radius) ==> Near(rows[i], rows[j], radius))
            && (Unsaturated(body, h) ==> (Near(rows[i], rows[j], radius) <==> Reaches(body, i, j, radius)))
  {
    RowAt(body, h.oldStart, h.newStart, i);
    RowAt(body, h.oldStart, h.newStart, j);
    Marks(body[j]);
    CountsRise(body, i, |body|);
    CountsRise(body, j, |body|);
    CountsRise(body, 0, |body|);
    assert body[..|body|] == body && body[..0] == [];
    hide BodyRows, CountOld, CountNew, OnOld, OnNew, Distance, Plus;
    DistanceCounts(h.oldStart, CountOld(body[..i]), CountOld(body[..j]), radius);
    DistanceCounts(h.newStart, CountNew(body[..i]), CountNew(body[..j]), radius);
  }

  lemma {:induction false} LineKept(body: seq<string>, h: HunkHeader, i: nat, radius: Int)
    requires i < |body| && !IsNote(body[i])
    requires |BodyRows(body, h.oldStart, h.newStart)| == |body|
    ensures var rows := BodyRows(body, h.oldStart, h.newStart);
            && (LineStays(body, i, radius) ==> KeepAt(rows, i, radius))
            && (Unsaturated(body, h) ==> (KeepAt(rows, i, radius) <==> LineStays(body, i, radius)))
  {
    var rows := BodyRows(body, h.oldStart, h.newStart);
    BothSides(body, h.oldStart, h.newStart, i);
    RowAt(body, h.oldStart, h.newStart, i);
    Marks(body[i]);
    assert !rows[i].header;
    KeepOfLine(rows, i, radius);
    hide BodyRows, Reaches, Near, Unsaturated, KeepAt;
    if !IsChange(body[i]) {
      assert OnOld(body[i]) && OnNew(body[i]);
      forall j | 0 <= j < |body|
        ensures Reaches(body, i, j, radius) ==> Near(rows[i], rows[j], radius)
        ensures Unsaturated(body, h) ==> (Near(rows[i], rows[j], radius) <==> Reaches(body, i, j, radius))
      {
        NearIs(body, h, i, j, radius);
      }
    }
  }

  lemma {:induction false} BelongsOnto(body: seq<string>, i: nat, radius: Int)
    requires 0 < i < |body| && "\\" <= body[i]
    ensures Stays(body, i, radius) <==> Stays(body, i - 1, radius)
  {
    hide LineStays;
    if k :| 0 <= k <= i - 1 && Belongs(body, i - 1, k) && LineStays(body, k, radius) {
      assert Belongs(body, i, k);
    }
    if k :| 0 <= k <= i && Belongs(body, i, k) && LineStays(body, k, radius) {
      assert Belongs(body, i - 1, k);
    }
  }

  lemma {:induction false} BelongsItself(body: seq<string>, i: nat, radius: Int)
    requires i < |body|
    ensures !("\\" <= body[i]) ==> (Stays(body, i, radius) <==> LineStays(body, i, radius))
    ensures "\\" <= body[i] && i == 0 ==> !Stays(body, i, radius)
  {
    hide LineStays;
    if !("\\" <= body[i]) {
      assert Belongs(body, i, i);
    }
  }

  lemma {:induction false} RecordKept(body: seq<string>, h: HunkHeader, i: nat, radius: Int)
    requires i < |body| == |BodyRows(body, h.oldStart, h.newStart)|
    ensures var rows := BodyRows(body, h.oldStart, h.newStart);
            && (Stays(body, i, radius) ==> KeepAt(rows, i, radius))
            && (Unsaturated(body, h) ==> (KeepAt(rows, i, radius) <==> Stays(body, i, radius)))
    decreases i
  {
    var rows := BodyRows(body, h.oldStart, h.newStart);
    RowAt(body, h.oldStart, h.newStart, i);
    BelongsItself(body, i, radius);
    assert rows[i].header <==> "\\" <= body[i];
    hide BodyRows, Stays, LineStays, Unsaturated;
    if "\\" <= body[i] {
      KeepOfNote(rows, i, radius);
      hide KeepAt;
      if i > 0 {
        BelongsOnto(body, i, radius);
        RecordKept(body, h, i - 1, radius);
      }
    } else {
      hide KeepAt;
      LineKept(body, h, i, radius);
    }
  }

  /* ---- the stretches emitted ---- */

  ghost predicate InSpans(spans: seq<Span>, i: int) { exists k :: 0 <= k < |spans| && spans[k].lo <= i < spans[k].hi }

  /** Stretches that are not empty, in order, with a record between any two. */
  ghost predicate Apart(spans: seq<Span>, n: nat) {
    && (forall k :: 0 <= k < |spans| ==> spans[k].lo < spans[k].hi <= n)
    && (forall k :: 0 < k < |spans| ==> spans[k - 1].hi < spans[k].lo)
  }

  lemma {:induction false} InSpansSnoc(spans: seq<Span>, s: Span, i: int)
    ensures InSpans(spans + [s], i) <==> InSpans(spans, i) || s.lo <= i < s.hi
  {
    var all := spans + [s];
    if InSpans(spans, i) {
      var k :| 0 <= k < |spans| && spans[k].lo <= i < spans[k].hi;
      assert all[k] == spans[k];
    }
    assert all[|spans|] == s;
  }

  lemma {:induction false} ApartSnoc(spans: seq<Span>, s: Span, n: nat)
    requires Apart(spans, n) && s.lo < s.hi <= n + 1 && (spans != [] ==> spans[|spans| - 1].hi < s.lo)
    ensures Apart(spans + [s], n + 1)
  {
  }

  lemma {:induction false} ApartFront(spans: seq<Span>, n: nat)
    requires Apart(spans, n) && spans != []
    ensures Apart(spans[..|spans| - 1], n) && Apart(spans, n + 1)
    ensures var last := spans[|spans| - 1];
            && last.lo < last.hi <= n && (|spans| > 1 ==> spans[..|spans| - 1][|spans| - 2].hi < last.lo)
  {
  }

  /** The stretches hold exactly the kept places. */
  ghost predicate Holds(keep: seq<bool>, spans: seq<Span>) {
    Apart(spans, |keep|) && forall i :: InSpans(spans, i) <==> 0 <= i < |keep| && keep[i]
  }

  lemma {:induction false} HoldsDropped(keep: seq<bool>, spans: seq<Span>)
    requires Holds(keep, spans)
    ensures Holds(keep + [false], spans)
  {
    hide InSpans;
  }

  lemma {:induction false} HoldsNew(keep: seq<bool>, spans: seq<Span>)
    requires Holds(keep, spans) && (spans == [] || spans[|spans| - 1].hi != |keep|)
    ensures Holds(keep + [true], spans + [Span(|keep|, |keep| + 1)])
  {
    var n := |keep|;
    assert spans != [] ==> spans[|spans| - 1].hi < n;
    ApartSnoc(spans, Span(n, n + 1), n);
    hide InSpans, Apart;
    var all, next := spans + [Span(n, n + 1)], keep + [true];
    assert |next| == n + 1 && Apart(all, n + 1);
    forall i ensures InSpans(all, i) <==> 0 <= i < n + 1 && next[i] {
      InSpansSnoc(spans, Span(n, n + 1), i);
    }
  }

  lemma {:induction false} ApartGrown(most: seq<Span>, lo: nat, n: nat)
    requires Apart(most + [Span(lo, n)], n)
    ensures lo < n && Apart(most + [Span(lo, n + 1)], n + 1)
  {
    var was := most + [Span(lo, n)];
    assert was[|most|] == Span(lo, n) && forall k :: 0 <= k < |most| ==> was[k] == most[k];
    assert Apart(most, n);
    assert most != [] ==> most[|most| - 1].hi < lo;
    ApartSnoc(most, Span(lo, n + 1), n);
  }

  lemma {:induction false} HoldsGrown(keep: seq<bool>, most: seq<Span>, lo: nat)
    requires Holds(keep, most + [Span(lo, |keep|)])
    ensures Holds(keep + [true], most + [Span(lo, |keep| + 1)])
  {
    hide InSpans, Apart;
    var n := |keep|;
    ApartGrown(most, lo, n);
    var all, next := most + [Span(lo, n + 1)], keep + [true];
    assert |next| == n + 1 && Apart(all, |next|);
    forall i ensures InSpans(all, i) <==> 0 <= i < |next| && next[i] {
      InSpansSnoc(most, Span(lo, n), i);
      InSpansSnoc(most, Span(lo, n + 1), i);
    }
  }

  lemma {:induction false} RunsHold(keep: seq<bool>)
    ensures Holds(keep, Runs.Runs(keep))
  {
    if keep == [] {
      NoRuns();
    } else {
      hide *;
      var n := |keep| - 1;
      var front, kept := keep[..n], keep[n];
      var prev := Runs.Runs(front);
      assert front + [kept] == keep;
      RunsHold(front);
      RunsSnoc(front, kept);
      if !kept {
        HoldsDropped(front, prev);
      } else if prev != [] && prev[|prev| - 1].hi == n {
        var last := prev[|prev| - 1];
        assert prev[..|prev| - 1] + [Span(last.lo, n)] == prev;
        HoldsGrown(front, prev[..|prev| - 1], last.lo);
      } else {
        HoldsNew(front, prev);
      }
    }
  }

  lemma {:induction false} NoRuns()
    ensures Runs.Runs([]) == [] && Holds([], [])
  {
  }

  /** Where one side of a stretch starts: on its first line there; with none, on the
      last line before it, or where the hunk starts when that is unmoved. */
  function SideStart(start: LineNo, before: nat, inside: nat): LineNo {
    var at := Plus(start, before);
    if inside == 0 && at != start then at - 1 else at
  }

  /** The hunk is the stretch of the body, under a header that reads back as the
      stretch's own starts and line counts, with the hunk's function text. */
  ghost predicate Cut(body: seq<string>, h: HunkHeader, s: Span, g: RawHunk) {
    && s.lo < s.hi <= |body|
    && var part, before := body[s.lo..s.hi], body[..s.lo];
       && g.body == part
       && SplitHunkHeader(g.header) ==
          Some(HunkHeader(SideStart(h.oldStart, CountOld(before), CountOld(part)), Min(MAX_INT, CountOld(part)),
                          SideStart(h.newStart, CountNew(before), CountNew(part)), Min(MAX_INT, CountNew(part)), h.suffix))
  }

  lemma {:induction false} NoneOnSide(body: seq<string>)
    ensures CountOld(body) == 0 <==> forall k :: 0 <= k < |body| ==> !OnOld(body[k])
    ensures CountNew(body) == 0 <==> forall k :: 0 <= k < |body| ==> !OnNew(body[k])
  {
    if body != [] {
      hide OnOld, OnNew;
      var front, last := body[..|body| - 1], body[|body| - 1];
      NoneOnSide(front);
      assert body == front + [last];
      assert forall k :: 0 <= k < |front| ==> front[k] == body[k];
    }
  }

  lemma {:induction false} RunSides(body: seq<string>, h: HunkHeader, s: Span)
    requires s.lo < s.hi <= |body|
    ensures |BodyRows(body, h.oldStart, h.newStart)| == |body|
    ensures var part, before := body[s.lo..s.hi], body[..s.lo];
            var run := BodyRows(body, h.oldStart, h.newStart)[s.lo..s.hi];
            && FirstOld(run) == (if CountOld(part) == 0 then None else Some(Plus(h.oldStart, CountOld(before))))
            && FirstNew(run) == (if CountNew(part) == 0 then None else Some(Plus(h.newStart, CountNew(before))))
  {
    var part, before := body[s.lo..s.hi], body[..s.lo];
    var o, n := Plus(h.oldStart, CountOld(before)), Plus(h.newStart, CountNew(before));
    LengthOfRows(body, h.oldStart, h.newStart);
    RowsOfStretch(body, h.oldStart, h.newStart, s.lo, s.hi);
    FirstOldFrom(part, o, n);
    FirstNewFrom(part, o, n);
    NoneOnSide(part);
    hide BodyRows, FirstOld, FirstNew, CountOld, CountNew, Plus, OnOld, OnNew;
  }

  lemma {:induction false} SideStartIs(start: LineNo, before: nat, inside: nat)
    ensures RunStart(if inside == 0 then None else Some(Plus(start, before)), Plus(start, before), start)
         == SideStart(start, before, inside)
  {
  }

  lemma {:induction false} RunHeaderIs(body: seq<string>, h: HunkHeader, s: Span)
    requires s.lo < s.hi <= |body|
    ensures var part, before := body[s.lo..s.hi], body[..s.lo];
            RunHeader(body, h, s) ==
            HunkHeader(SideStart(h.oldStart, CountOld(before), CountOld(part)), Min(MAX_INT, CountOld(part)),
                       SideStart(h.newStart, CountNew(before), CountNew(part)), Min(MAX_INT, CountNew(part)), h.suffix)
  {
    RunSides(body, h, s);
    var part, before := body[s.lo..s.hi], body[..s.lo];
    SideStartIs(h.oldStart, CountOld(before), CountOld(part));
    SideStartIs(h.newStart, CountNew(before), CountNew(part));
    hide BodyRows, FirstOld, FirstNew, CountOld, CountNew, Plus, SideStart, RunStart;
  }

  lemma {:induction false} RunIsCut(body: seq<string>, h: HunkHeader, s: Span)
    requires s.lo < s.hi <= |body|
    ensures Cut(body, h, s, RunHunk(body, h, s))
  {
    hide RunHeader, CountOld, CountNew, SideStart, SplitHunkHeader, RunHunk;
    RunHunkReads(body, h, s);
    RunHeaderIs(body, h, s);
  }

  /** What a clip emits of a hunk whose header it reads: one hunk for each of some
      separate stretches of the body. Every record that stays at the radius is in
      one of them and, where no number saturates, no other record is. */
  lemma {:induction false} WindowEmitted(hunk: RawHunk, radius: Int) returns (spans: seq<Span>)
    requires SplitHunkHeader(hunk.header).Some?
    ensures var h, hs := SplitHunkHeader(hunk.header).value, ClipHunk(hunk, radius);
            && |spans| == |hs| && Apart(spans, |hunk.body|)
            && (forall k :: 0 <= k < |spans| ==> Cut(hunk.body, h, spans[k], hs[k]))
            && (forall i :: 0 <= i < |hunk.body| && Stays(hunk.body, i, radius) ==> InSpans(spans, i))
            && (Unsaturated(hunk.body, h) ==>
                  forall i :: 0 <= i < |hunk.body| && InSpans(spans, i) ==> Stays(hunk.body, i, radius))
  {
    var h, body := SplitHunkHeader(hunk.header).value, hunk.body;
    var rows := BodyRows(body, h.oldStart, h.newStart);
    var keep := KeepSeq(rows, radius);
    LengthOfRows(body, h.oldStart, h.newStart);
    spans := KeptRuns(body, h, radius);
    assert spans == Runs.Runs(keep);
    RunsHold(keep);
    assert Apart(spans, |keep|) && forall i :: InSpans(spans, i) <==> 0 <= i < |keep| && keep[i];
    hide Runs.Runs, SplitHunkHeader, BodyRows, KeptRuns, Stays, Unsaturated, InSpans, KeepAt, Cut, RunHunk;
    forall i | 0 <= i < |body|
      ensures Stays(body, i, radius) ==> keep[i]
      ensures Unsaturated(body, h) ==> (keep[i] <==> Stays(body, i, radius))
    {
      RecordKept(body, h, i, radius);
    }
    hide KeepSeq;
    forall k | 0 <= k < |spans| ensures Cut(body, h, spans[k], ClipHunk(hunk, radius)[k]) {
      RunIsCut(body, h, spans[k]);
    }
  }

  /* ---- counted in records ---- */

  predicate IsContext(rec: string) { !("\\" <= rec) && !("+" <= rec) && !("-" <= rec) }

  lemma {:induction false} ContextCounts(body: seq<string>, i: nat, j: nat)
    requires i <= j <= |body| && forall k :: i <= k < j ==> IsContext(body[k])
    ensures CountOld(body[..j]) == CountOld(body[..i]) + (j - i)
    ensures CountNew(body[..j]) == CountNew(body[..i]) + (j - i)
  {
    if i < j {
      ContextCounts(body, i, j - 1);
      assert body[..j][..j - 1] == body[..j - 1];
      hide CountOld, CountNew;
      assert IsContext(body[j - 1]);
      OneMore(body, j - 1);
    }
  }

  lemma {:induction false} OneMore(body: seq<string>, k: nat)
    requires k < |body|
    ensures CountOld(body[..k + 1]) == CountOld(body[..k]) + if OnOld(body[k]) then 1 else 0
    ensures CountNew(body[..k + 1]) == CountNew(body[..k]) + if OnNew(body[k]) then 1 else 0
  {
    assert body[..k + 1][..k] == body[..k];
  }

  /** A context record at most `radius` records from an added or removed one, with
      only context between, stays. */
  lemma {:induction false} CloseContextStays(body: seq<string>, i: nat, j: nat, radius: Int)
    requires i < |body| && j < |body| && IsContext(body[i]) && ("+" <= body[j] || "-" <= body[j])
    requires Abs(i - j) <= radius
    requires forall k :: i < k < j || j < k < i ==> IsContext(body[k])
    ensures Stays(body, i, radius)
  {
    Marks(body[j]);
    if i < j {
      ContextCounts(body, i, j);
    } else {
      ContextCounts(body, j + 1, i);
      OneMore(body, j);
    }
    hide CountOld, CountNew, OnOld, OnNew;
    assert Reaches(body, i, j, radius);
    BelongsItself(body, i, radius);
  }
}
