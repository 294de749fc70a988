/**
 The two paths of a file, off the side lines above its hunks.
 */
module SidePaths {
  import opened Text
  import opened Quoting
  import opened Parser

  /** Record `i` is the last of the records to open with the mark. */
  predicate LastWith(recs: seq<string>, mark: string, i: int) {
    0 <= i < |recs| && mark <= recs[i] && forall m :: i < m < |recs| ==> !(mark <= recs[m])
  }

  lemma {:induction false} PathOnIs(mark: string, prefix: string, recs: seq<string>, i: nat)
    requires LastWith(recs, mark, i)
    ensures PathOn(mark, prefix, recs) == HeaderPath(recs[i][|mark|..], prefix)
  {
    hide HeaderPath;
    if i < |recs| - 1 {
      PathOnIs(mark, prefix, recs[..|recs| - 1], i);
    }
  }

  lemma {:induction false} NoPathOn(mark: string, prefix: string, recs: seq<string>)
    requires forall m :: 0 <= m < |recs| ==> !(mark <= recs[m])
    ensures PathOn(mark, prefix, recs) == ""
  {
    hide HeaderPath;
    if recs != [] {
      NoPathOn(mark, prefix, recs[..|recs| - 1]);
    }
  }

  /** The records above the hunks of section `k`. */
  function Above(d: Diff, k: nat): seq<string>
    reads d
    requires k < |Chunks(Records(d.raw))|
  {
    Chunks(Records(d.raw))[k].prologue
  }

  lemma {:induction false} SectionIs(d: Diff, k: nat)
    requires d.Valid() && k < |Chunks(Records(d.raw))|
    ensures k < |d.sections|
    ensures d.sections[k] == Section(PathOn("--- ", "a/", Above(d, k)), PathOn("+++ ", "b/", Above(d, k)))
  {
    hide Chunks, Records, LinesOf, WidestOf, PathOn;
  }

  lemma {:induction false} MarkedReads(mark: string, prefix: string, path: string, high: bool, tab: bool)
    requires (prefix == "a/" || prefix == "b/") && Bytes(path)
    ensures var rec := mark + SideText(prefix, path, high, tab);
            mark <= rec && HeaderPath(rec[|mark|..], prefix) == path
  {
    HeaderPathInvertsGit(prefix, path, high, tab);
    hide HeaderPath, SideText;
    var rec := mark + SideText(prefix, path, high, tab);
    assert rec[|mark|..] == SideText(prefix, path, high, tab);
  }

  /** A file's old path is what git wrote, under `a/`, on the last `--- ` line above
      its hunks. */
  lemma {:induction false} OldPathIs(d: Diff, k: nat, i: nat, path: string, high: bool, tab: bool)
    requires d.Valid() && k < |Chunks(Records(d.raw))| && Bytes(path)
    requires LastWith(Above(d, k), "--- ", i) && Above(d, k)[i] == "--- " + SideText("a/", path, high, tab)
    ensures k < |d.sections| && d.sections[k].pathA == path
  {
    SectionIs(d, k);
    MarkedReads("--- ", "a/", path, high, tab);
    PathOnIs("--- ", "a/", Above(d, k), i);
    hide PathOn, HeaderPath, SideText, Above;
  }

  /** And its new path, under `b/`, on the last `+++ ` line. */
  lemma {:induction false} NewPathIs(d: Diff, k: nat, i: nat, path: string, high: bool, tab: bool)
    requires d.Valid() && k < |Chunks(Records(d.raw))| && Bytes(path)
    requires LastWith(Above(d, k), "+++ ", i) && Above(d, k)[i] == "+++ " + SideText("b/", path, high, tab)
    ensures k < |d.sections| && d.sections[k].pathB == path
  {
    SectionIs(d, k);
    MarkedReads("+++ ", "b/", path, high, tab);
    PathOnIs("+++ ", "b/", Above(d, k), i);
    hide PathOn, HeaderPath, SideText, Above;
  }

  lemma {:induction false} NullReads(prefix: string)
    ensures HeaderPath("/dev/null", prefix) == "" && HeaderPath("/dev/null" + "\t", prefix) == ""
  {
    assert BeforeTab("/dev/null") == "/dev/null" && BeforeTab("/dev/null" + "\t") == "/dev/null" by {
      BeforeTabIs("/dev/null", false);
      BeforeTabIs("/dev/null", true);
      assert "/dev/null" + "" == "/dev/null";
    }
    assert UnquotedOf("/dev/null") == "/dev/null";
  }

  /** A side whose line names `/dev/null`, and a side without a line, has no path. */
  lemma {:induction false} AbsentSides(d: Diff, k: nat)
    requires d.Valid() && k < |Chunks(Records(d.raw))|
    ensures k < |d.sections|
    ensures forall i :: LastWith(Above(d, k), "--- ", i) && Above(d, k)[i] == "--- " + "/dev/null" ==> d.sections[k].pathA == ""
    ensures forall i :: LastWith(Above(d, k), "+++ ", i) && Above(d, k)[i] == "+++ " + "/dev/null" ==> d.sections[k].pathB == ""
    ensures (forall m :: 0 <= m < |Above(d, k)| ==> !("--- " <= Above(d, k)[m])) ==> d.sections[k].pathA == ""
    ensures (forall m :: 0 <= m < |Above(d, k)| ==> !("+++ " <= Above(d, k)[m])) ==> d.sections[k].pathB == ""
  {
    var recs := Above(d, k);
    SectionIs(d, k);
    NullReads("a/");
    NullReads("b/");
    hide PathOn, HeaderPath, Above, LastWith;
    forall i | LastWith(recs, "--- ", i) && recs[i] == "--- " + "/dev/null" ensures PathOn("--- ", "a/", recs) == "" {
      OneMarked("--- ", "a/", recs, i);
    }
    forall i | LastWith(recs, "+++ ", i) && recs[i] == "+++ " + "/dev/null" ensures PathOn("+++ ", "b/", recs) == "" {
      OneMarked("+++ ", "b/", recs, i);
    }
    if forall m :: 0 <= m < |recs| ==> !("--- " <= recs[m]) {
      NoPathOn("--- ", "a/", recs);
    }
    if forall m :: 0 <= m < |recs| ==> !("+++ " <= recs[m]) {
      NoPathOn("+++ ", "b/", recs);
    }
  }

  lemma {:induction false} OneMarked(mark: string, prefix: string, recs: seq<string>, i: int)
    requires LastWith(recs, mark, i) && recs[i] == mark + "/dev/null" && HeaderPath("/dev/null", prefix) == ""
    ensures PathOn(mark, prefix, recs) == ""
  {
    PathOnIs(mark, prefix, recs, i);
    hide PathOn, HeaderPath;
    assert recs[i][|mark|..] == "/dev/null";
  }
}
