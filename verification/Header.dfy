/**
 Reading and writing `@@` hunk headers. Two readers coexist in the program and
 do not agree on every header: the parser's (`fields` with `hunkStart`) and the
 clipper's (`splitHunkHeader` with `hunkRange`).
 */
module Header {
  import opened Text

  /** A line number as the parser holds one: saturated at Go's largest int. */
  type LineNo = x: int | -MAX_INT <= x <= MAX_INT

  /** The gap between two line numbers, saturating where the subtraction wraps. */
  function Distance(v: LineNo, want: Int): Int {
    var d := if v >= want then Wrap(v - want) else Wrap(want - v);
    if d >= 0 then d else MAX_INT
  }

  lemma {:induction false} DistanceSaturates(v: LineNo, want: Int)
    ensures Distance(v, want) == Min(MAX_INT, Abs(v - want))
  {
  }

  /* ---- number: the longest numeric prefix, saturating ---- */

  predicate IsBlank(c: char) { c == ' ' || c == '\t' || c == '\n' }

  function SkipBlanks(s: string): string {
    if s != "" && IsBlank(s[0]) then SkipBlanks(s[1..]) else s
  }

  function DigitRun(s: string): (d: string)
    ensures |d| <= |s| && d == s[..|d|] && AllDigits(d)
    ensures |d| < |s| ==> !IsDigit(s[|d|])
  {
    if s != "" && IsDigit(s[0]) then [s[0]] + DigitRun(s[1..]) else ""
  }

  function NumberOf(s: string): LineNo {
    var t := SkipBlanks(s);
    var neg := t != "" && t[0] == '-';
    var u := if t != "" && (t[0] == '+' || t[0] == '-') then t[1..] else t;
    var n := Min(MAX_INT, Value(DigitRun(u)));
    if neg then -n else n
  }

  lemma {:induction false} DigitRunIs(s: string, k: nat)
    requires k <= |s| && AllDigits(s[..k]) && (k < |s| ==> !IsDigit(s[k]))
    ensures DigitRun(s) == s[..k]
  {
    var d := DigitRun(s);
    assert forall j :: 0 <= j < |d| ==> s[j] == d[j];
    assert forall j :: 0 <= j < k ==> s[j] == s[..k][j];
    assert |d| == k;
  }

  lemma {:induction false} SkipBlanksIs(s: string, k: nat)
    requires k <= |s| && (forall j :: 0 <= j < k ==> IsBlank(s[j]))
    requires k < |s| ==> !IsBlank(s[k])
    ensures SkipBlanks(s) == s[k..]
  {
    if k > 0 {
      SkipBlanksIs(s[1..], k - 1);
    }
  }

  lemma {:induction false} SaturatingStep(n: int, v: nat, d: nat)
    requires n == Min(MAX_INT, v) && d <= 9
    ensures (if n > (MAX_INT - d) / 10 then MAX_INT else n * 10 + d) == Min(MAX_INT, 10 * v + d)
  {
  }

  lemma {:induction false} DigitStep(s: string, from: nat, i: nat, n: int)
    requires from <= i < |s| && AllDigits(s[from..i]) && IsDigit(s[i]) && n == Min(MAX_INT, Value(s[from..i]))
    ensures var d := (s[i] - '0') as nat;
            && d <= 9 && AllDigits(s[from..i + 1])
            && (if n > (MAX_INT - d) / 10 then MAX_INT else n * 10 + d) == Min(MAX_INT, Value(s[from..i + 1]))
  {
    SliceSnoc(s, from, i);
    ValueSnoc(s[from..i], s[i]);
    hide Value;
    SaturatingStep(n, Value(s[from..i]), (s[i] - '0') as nat);
  }

  predicate Signed(s: string, start: nat) { start < |s| && (s[start] == '+' || s[start] == '-') }

  lemma {:induction false} NumberOfParts(s: string, start: nat, from: nat, i: nat)
    requires start <= |s| && SkipBlanks(s) == s[start..]
    requires from == (if Signed(s, start) then start + 1 else start) <= i <= |s|
    requires AllDigits(s[from..i]) && (i < |s| ==> !IsDigit(s[i]))
    ensures var n := Min(MAX_INT, Value(s[from..i]));
            NumberOf(s) == if start < |s| && s[start] == '-' then -n else n
  {
    var u := s[from..];
    assert u[..i - from] == s[from..i];
    DigitRunIs(u, i - from);
    assert Signed(s, start) ==> s[start..][1..] == u;
  }

  method Number(s: string) returns (r: LineNo)
    ensures r == NumberOf(s)
  {
    var i := 0;
    while i < |s| && IsBlank(s[i])
      invariant 0 <= i <= |s|
      invariant forall j :: 0 <= j < i ==> IsBlank(s[j])
    {
      i := i + 1;
    }
    SkipBlanksIs(s, i);
    ghost var start := i;
    var neg := false;
    if i < |s| && (s[i] == '+' || s[i] == '-') {
      neg := s[i] == '-';
      i := i + 1;
    }
    ghost var from := i;
    var n, digits := 0, 0;
    assert s[from..i] == "" && Value("") == 0;
    hide Value, NumberOf, SkipBlanks;
    while i < |s| && IsDigit(s[i])
      invariant from <= i <= |s| && digits == i - from
      invariant AllDigits(s[from..i])
      invariant n == Min(MAX_INT, Value(s[from..i]))
    {
      var d := (s[i] - '0') as nat;
      DigitStep(s, from, i, n);
      if n > (MAX_INT - d) / 10 {
        n := MAX_INT;
      } else {
        n := n * 10 + d;
      }
      i := i + 1;
      digits := digits + 1;
    }
    NumberOfParts(s, start, from, i);
    if digits == 0 {
      return 0;
    }
    if neg {
      return -n;
    }
    return n;
  }

  lemma {:induction false} NumberOfItoa(n: LineNo)
    ensures NumberOf(Itoa(n)) == n
  {
    hide SkipBlanks, Value, DigitRun;
    var s := Itoa(n);
    ItoaShape(n);
    SkipBlanksIs(s, 0);
    var u := if n < 0 then s[1..] else s;
    assert u == Digits(Abs(n));
    DigitRunIs(u, |u|);
    assert u[..|u|] == u;
  }

  /* ---- fields ---- */

  /** The length of the white space `s` opens with, 0 when it opens with none.
      With `unicode` set this is strings.Fields, which also splits on the UTF-8
      encodings of the non-ASCII white space; without it, awk's blanks. */
  function SpaceLen(s: string, unicode: bool): (n: nat)
    ensures n <= |s|
  {
    if s == "" then 0
    else if IsBlank(s[0]) then 1
    else if !unicode then 0
    else if 11 <= s[0] as int <= 13 then 1
    else if |s| >= 2 && s[0] as int == 0xC2 && (s[1] as int == 0x85 || s[1] as int == 0xA0) then 2
    else if |s| >= 3 && WideSpace(s[0] as int, s[1] as int, s[2] as int) then 3
    else 0
  }

  predicate WideSpace(a: int, b: int, c: int) {
    || (a == 0xE1 && b == 0x9A && c == 0x80)
    || (a == 0xE2 && b == 0x80 && (0x80 <= c <= 0x8A || c == 0xA8 || c == 0xA9 || c == 0xAF))
    || (a == 0xE2 && b == 0x81 && c == 0x9F)
    || (a == 0xE3 && b == 0x80 && c == 0x80)
  }

  function WordLen(s: string, unicode: bool): (n: nat)
    ensures n <= |s|
    ensures s != "" && SpaceLen(s, unicode) == 0 ==> n > 0
  {
    if s == "" || SpaceLen(s, unicode) > 0 then 0 else 1 + WordLen(s[1..], unicode)
  }

  function Fields(s: string, unicode: bool): seq<string>
    decreases |s|
  {
    if s == "" then []
    else
      var k := SpaceLen(s, unicode);
      if k > 0 then Fields(s[k..], unicode)
      else
        var w := WordLen(s, unicode);
        [s[..w]] + Fields(s[w..], unicode)
  }

  ghost predicate Printable(w: string) {
    forall k :: 0 <= k < |w| ==> 0x20 < w[k] as int < 0x7F
  }

  lemma {:induction false} WordLenIs(w: string, rest: string, unicode: bool)
    requires Printable(w) && (rest == "" || SpaceLen(rest, unicode) > 0)
    ensures WordLen(w + rest, unicode) == |w|
  {
    if w == "" {
      assert w + rest == rest;
    } else {
      assert (w + rest)[1..] == w[1..] + rest;
      WordLenIs(w[1..], rest, unicode);
    }
  }

  lemma {:induction false} FieldsWord(w: string, rest: string, unicode: bool)
    requires w != "" && Printable(w) && (rest == "" || SpaceLen(rest, unicode) > 0)
    ensures Fields(w + rest, unicode) == [w] + Fields(rest, unicode)
  {
    WordLenIs(w, rest, unicode);
    var s := w + rest;
    assert s[..|w|] == w && s[|w|..] == rest;
  }

  lemma {:induction false} FieldsEmpty(unicode: bool)
    ensures Fields("", unicode) == []
  {
  }

  lemma {:induction false} FieldsSpace(rest: string, unicode: bool)
    ensures Fields(" " + rest, unicode) == Fields(rest, unicode)
  {
    assert (" " + rest)[1..] == rest;
  }

  function Field(f: seq<string>, i: nat): string {
    if i < |f| then f[i] else ""
  }

  /* ---- the parser's reading ---- */

  function AwkSubstr(s: string, start: nat, length: int): string
    requires start >= 1
  {
    if length <= 0 || start > |s| then ""
    else s[start - 1..Min(start - 1 + length, |s|)]
  }

  /** The text before the first comma. */
  function BeforeComma(s: string): string {
    var i := IndexOf(s, ',');
    if i >= 0 then s[..i] else s
  }

  function HunkStart(f: string): LineNo {
    NumberOf(BeforeComma(AwkSubstr(f, 2, |f|)))
  }

  function ParsedOld(rec: string): LineNo { HunkStart(Field(Fields(rec, false), 1)) }

  function ParsedNew(rec: string): LineNo { HunkStart(Field(Fields(rec, false), 2)) }

  /* ---- the clipper's reading ---- */

  datatype HunkHeader = HunkHeader(oldStart: LineNo, oldLen: LineNo, newStart: LineNo, newLen: LineNo, suffix: string)

  /** The index of the first `@@`, or -1. */
  function IndexOfMark(s: string): (i: int)
    ensures -1 <= i && i + 2 <= |s| + 1
    ensures i >= 0 ==> i + 2 <= |s| && s[i] == '@' && s[i + 1] == '@'
  {
    if |s| < 2 then -1
    else if s[0] == '@' && s[1] == '@' then 0
    else
      var k := IndexOfMark(s[1..]);
      if k < 0 then -1 else k + 1
  }

  lemma {:induction false} IndexOfMarkIs(before: string, rest: string)
    requires '@' !in before
    ensures IndexOfMark(before + "@@" + rest) == |before|
  {
    var s := before + "@@" + rest;
    if before != "" {
      assert s[0] == before[0];
      assert s[1..] == before[1..] + "@@" + rest;
      IndexOfMarkIs(before[1..], rest);
    }
  }

  datatype Range = Range(start: LineNo, length: LineNo)

  function HunkRange(field: string, sign: char): Option<Range> {
    if |field| < 1 || field[0] != sign then None
    else
      var s := field[1..];
      var i := IndexOf(s, ',');
      Some(Range(NumberOf(BeforeComma(s)), if i >= 0 then NumberOf(s[i + 1..]) else 1))
  }

  function SplitHunkHeader(rec: string): Option<HunkHeader> {
    if !("@@" <= rec) then None
    else
      var rest := rec[2..];
      var end := IndexOfMark(rest);
      if end < 0 then None
      else
        var fields := Fields(rest[..end], true);
        if |fields| < 2 then None
        else
          match (HunkRange(fields[0], '-'), HunkRange(fields[1], '+'))
          case (Some(o), Some(n)) => Some(HunkHeader(o.start, o.length, n.start, n.length, rest[end + 2..]))
          case _ => None
  }

  /** The clipper reads a header exactly when a second `@@` closes it and between the
      two stand at least two fields, the first after a minus and the second after a
      plus. */
  lemma {:induction false} ReadableExactlyWhen(rec: string)
    ensures SplitHunkHeader(rec).Some? <==>
            && "@@" <= rec && IndexOfMark(rec[2..]) >= 0
            && var fields := Fields(rec[2..][..IndexOfMark(rec[2..])], true);
               |fields| >= 2 && fields[0] != "" && fields[0][0] == '-' && fields[1] != "" && fields[1][0] == '+'
  {
    hide Fields, IndexOfMark, NumberOf, BeforeComma, IndexOf;
  }

  /** The two readers take the same starts off a header the clipper can read. */
  predicate ReadersAgree(rec: string) {
    match SplitHunkHeader(rec)
    case None => true
    case Some(h) => h.oldStart == ParsedOld(rec) && h.newStart == ParsedNew(rec)
  }

  /* ---- writing ---- */

  function HunkCount(start: int, length: int): string {
    if length == 1 then Itoa(start) else Itoa(start) + "," + Itoa(length)
  }

  function Marked(minus: string, plus: string, suffix: string): string {
    "@@ " + minus + " " + plus + " @@" + suffix
  }

  function HeaderText(oldStart: int, oldLen: int, newStart: int, newLen: int, suffix: string): string {
    Marked("-" + HunkCount(oldStart, oldLen), "+" + HunkCount(newStart, newLen), suffix)
  }

  lemma {:induction false} HunkCountShape(start: int, length: int)
    ensures HunkCount(start, length) != "" && Numeral(HunkCount(start, length))
  {
    ItoaShape(start);
    ItoaShape(length);
  }

  lemma {:induction false} BeforeCommaIs(a: string, rest: string)
    requires ',' !in a
    ensures BeforeComma(a) == a
    ensures BeforeComma(a + "," + rest) == a
    ensures var i := IndexOf(a + "," + rest, ','); i >= 0 && (a + "," + rest)[i + 1..] == rest
  {
    var s := a + "," + rest;
    assert s[|a|] == ',';
    assert forall j :: 0 <= j < |a| ==> s[j] == a[j];
    assert IndexOf(s, ',') == |a|;
  }

  lemma {:induction false} HunkCountReads(start: LineNo, length: nat, sign: char)
    ensures NumberOf(BeforeComma(HunkCount(start, length))) == start
    ensures HunkRange([sign] + HunkCount(start, length), sign) == Some(Range(start, Min(MAX_INT, length)))
  {
    var s := HunkCount(start, length);
    ItoaShape(start);
    NumberOfItoa(start);
    BeforeCommaIs(Itoa(start), Itoa(length));
    assert ([sign] + s)[1..] == s;
    if length != 1 {
      NumberOfDigits(length);
    }
  }

  lemma {:induction false} NumberOfDigits(n: nat)
    ensures NumberOf(Itoa(n)) == Min(MAX_INT, n)
  {
    var s := Itoa(n);
    assert s == Digits(n) && IsDigit(s[0]);
    hide SkipBlanks, DigitRun, Value, Itoa;
    SkipBlanksIs(s, 0);
    DigitRunIs(s, |s|);
    assert s[..|s|] == s;
  }

  /** A written range, as both readers take it. */
  ghost predicate ReadsAs(field: string, sign: char, r: Range) {
    && field != "" && Printable(field) && '@' !in field
    && HunkRange(field, sign) == Some(r)
    && HunkStart(field) == r.start
  }

  lemma {:induction false} RangeReads(start: LineNo, length: nat, sign: char)
    requires sign == '-' || sign == '+'
    ensures ReadsAs([sign] + HunkCount(start, length), sign, Range(start, Min(MAX_INT, length)))
  {
    hide NumberOf, BeforeComma, HunkRange, HunkStart, HunkCount;
    HunkCountShape(start, length);
    HunkCountReads(start, length, sign);
    StartOfField(sign, HunkCount(start, length));
  }

  /** A written header reads back, through both readers, as what was written. */
  lemma {:induction false} WrittenHeaderReads(oldStart: LineNo, oldLen: nat, newStart: LineNo, newLen: nat,
      suffix: string)
    ensures var rec := HeaderText(oldStart, oldLen, newStart, newLen, suffix);
            && SplitHunkHeader(rec) == Some(HunkHeader(oldStart, Min(MAX_INT, oldLen), newStart, Min(MAX_INT, newLen), suffix))
            && ParsedOld(rec) == oldStart && ParsedNew(rec) == newStart
  {
    RangeReads(oldStart, oldLen, '-');
    RangeReads(newStart, newLen, '+');
    MarkedReads("-" + HunkCount(oldStart, oldLen), "+" + HunkCount(newStart, newLen), suffix,
                Range(oldStart, Min(MAX_INT, oldLen)), Range(newStart, Min(MAX_INT, newLen)));
  }

  lemma {:induction false} MarkedReads(minus: string, plus: string, suffix: string, o: Range, n: Range)
    requires ReadsAs(minus, '-', o) && ReadsAs(plus, '+', n)
    ensures var rec := Marked(minus, plus, suffix);
            && SplitHunkHeader(rec) == Some(HunkHeader(o.start, o.length, n.start, n.length, suffix))
            && ParsedOld(rec) == o.start && ParsedNew(rec) == n.start
  {
    var rec := Marked(minus, plus, suffix);
    hide Fields, IndexOfMark, HunkStart, HunkRange, Marked;
    assert "@@" <= rec by { MarkedOpens(minus, plus, suffix); }
    WrittenSplits(rec, minus, plus, suffix);
    WrittenFields(rec, minus, plus, suffix);
  }

  lemma {:induction false} MarkedOpens(minus: string, plus: string, suffix: string)
    ensures "@@" <= Marked(minus, plus, suffix)
  {
  }

  lemma {:induction false} StartOfField(sign: char, s: string)
    ensures HunkStart([sign] + s) == NumberOf(BeforeComma(s))
  {
    var f := [sign] + s;
    if s != "" {
      assert AwkSubstr(f, 2, |f|) == s;
    }
  }

  lemma {:induction false} RangeFields(minus: string, plus: string)
    requires minus != "" && plus != "" && Printable(minus) && Printable(plus)
    ensures Fields(minus + (" " + (plus + " ")), true) == [minus, plus]
  {
    hide Fields;
    FieldsWord(minus, " " + (plus + " "), true);
    FieldsSpace(plus + " ", true);
    FieldsWord(plus, " ", true);
    assert " " == " " + "";
    FieldsSpace("", true);
    FieldsEmpty(true);
  }

  lemma {:induction false} WrittenSplits(rec: string, minus: string, plus: string, suffix: string)
    requires minus != "" && plus != "" && Printable(minus) && Printable(plus)
    requires '@' !in minus && '@' !in plus
    requires rec == Marked(minus, plus, suffix)
    ensures var rest := rec[2..]; var end := IndexOfMark(rest);
            end >= 0 && rest[end + 2..] == suffix && Fields(rest[..end], true) == [minus, plus]
  {
    hide Fields, IndexOfMark;
    var middle := " " + minus + " " + plus + " ";
    var rest := rec[2..];
    assert rest == middle + "@@" + suffix;
    IndexOfMarkIs(middle, suffix);
    assert rest[..|middle|] == middle && rest[|middle| + 2..] == suffix;
    assert middle == " " + (minus + (" " + (plus + " ")));
    FieldsSpace(minus + (" " + (plus + " ")), true);
    RangeFields(minus, plus);
  }

  lemma {:induction false} WrittenFields(rec: string, minus: string, plus: string, suffix: string)
    requires minus != "" && plus != "" && Printable(minus) && Printable(plus)
    requires rec == Marked(minus, plus, suffix)
    ensures var f := Fields(rec, false); Field(f, 1) == minus && Field(f, 2) == plus
  {
    hide Fields;
    var tail := " @@" + suffix;
    var inner := plus + tail;
    var outer := minus + (" " + inner);
    assert rec == "@@" + (" " + outer);
    FieldsWord("@@", " " + outer, false);
    FieldsSpace(outer, false);
    FieldsWord(minus, " " + inner, false);
    FieldsSpace(inner, false);
    FieldsWord(plus, tail, false);
  }

  /** A header with no blank after its opening mark. */
  function Unspaced(minus: string, plus: string): string {
    "@@" + minus + " " + plus + " @@"
  }

  /** The readers do part ways: with no blank after the opening mark, the parser
      takes the new side's range for the old side's, and the closing mark for
      the new side's. */
  lemma {:induction false} ReadersDisagreeUnspaced(oldStart: LineNo, newStart: LineNo)
    ensures ReadersAgree(Unspaced("-" + Itoa(oldStart), "+" + Itoa(newStart))) <==> oldStart == newStart == 0
  {
    RangeReads(oldStart, 1, '-');
    RangeReads(newStart, 1, '+');
    var minus, plus := "-" + HunkCount(oldStart, 1), "+" + HunkCount(newStart, 1);
    UnspacedClips(minus, plus, Range(oldStart, 1), Range(newStart, 1));
    UnspacedParses(minus, plus, Range(newStart, 1));
  }

  lemma {:induction false} UnspacedClips(minus: string, plus: string, o: Range, n: Range)
    requires ReadsAs(minus, '-', o) && ReadsAs(plus, '+', n)
    ensures var h := SplitHunkHeader(Unspaced(minus, plus));
            h.Some? && h.value.oldStart == o.start && h.value.newStart == n.start
  {
    UnspacedSplits(Unspaced(minus, plus), minus, plus);
  }

  lemma {:induction false} UnspacedParses(minus: string, plus: string, n: Range)
    requires minus != "" && Printable(minus) && ReadsAs(plus, '+', n)
    ensures ParsedOld(Unspaced(minus, plus)) == n.start && ParsedNew(Unspaced(minus, plus)) == 0
  {
    UnspacedFields(Unspaced(minus, plus), minus, plus);
    MarkStart();
  }

  lemma {:induction false} MarkStart()
    ensures HunkStart("@@") == 0
  {
    StartOfField('@', "@");
    assert ['@'] + "@" == "@@";
    assert BeforeComma("@") == "@";
  }

  lemma {:induction false} UnspacedSplits(rec: string, minus: string, plus: string)
    requires minus != "" && plus != "" && Printable(minus) && Printable(plus)
    requires '@' !in minus && '@' !in plus
    requires rec == Unspaced(minus, plus)
    ensures var rest := rec[2..]; var end := IndexOfMark(rest);
            end >= 0 && Fields(rest[..end], true) == [minus, plus]
  {
    hide Fields, IndexOfMark;
    var middle := minus + " " + plus + " ";
    var rest := rec[2..];
    assert rest == middle + "@@" + "";
    IndexOfMarkIs(middle, "");
    assert rest[..|middle|] == middle;
    assert middle == minus + (" " + (plus + " "));
    RangeFields(minus, plus);
  }

  lemma {:induction false} UnspacedFields(rec: string, minus: string, plus: string)
    requires minus != "" && plus != "" && Printable(minus) && Printable(plus)
    requires rec == Unspaced(minus, plus)
    ensures var f := Fields(rec, false); Field(f, 1) == plus && Field(f, 2) == "@@"
  {
    hide Fields;
    var tail := plus + " @@";
    assert rec == ("@@" + minus) + (" " + tail);
    FieldsWord("@@" + minus, " " + tail, false);
    FieldsSpace(tail, false);
    ClosingFields(plus);
  }

  lemma {:induction false} ClosingFields(plus: string)
    requires plus != "" && Printable(plus)
    ensures Fields(plus + " @@", false) == [plus, "@@"]
  {
    hide Fields;
    FieldsWord(plus, " @@", false);
    assert Fields("", false) == [] by { FieldsEmpty(false); }
    assert " @@" == " " + "@@";
    FieldsSpace("@@", false);
    FieldsWord("@@", "", false);
    assert "@@" + "" == "@@";
  }
}
