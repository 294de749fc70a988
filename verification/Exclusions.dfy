/**
 What a pattern excludes: the file or directory it names, whole components at a
 time, with or without slashes at its end.
 */
module Exclusions {
  import opened Text
  import opened Parser
  import opened Structure
  import opened Selection

  lemma {:induction false} PrefixJoined(e: string, path: string)
    requires Split(e, '/') <= Split(path, '/')
    ensures path == e || e + "/" <= path
  {
    var a, b := Split(e, '/'), Split(path, '/');
    JoinSplit(e, '/');
    JoinSplit(path, '/');
    hide Split, Join;
    if |a| == |b| {
      assert a == b;
    } else {
      assert a + b[|a|..] == b;
      JoinAppend(a, '/', b[|a|..]);
      assert path == e + ['/'] + Join(b[|a|..], '/');
    }
  }

  /** A pattern hits a path exactly when its components begin the path's. */
  lemma {:induction false} HitsIsComponents(path: string, e: string)
    ensures HitsOne(path, e) <==> e != "" && Split(e, '/') <= Split(path, '/')
  {
    hide Split;
    if e != "" && e + "/" <= path {
      var rest := path[|e| + 1..];
      assert path == e + ['/'] + rest;
      SplitAppend(e, '/', rest);
    }
    if Split(e, '/') <= Split(path, '/') {
      PrefixJoined(e, path);
    }
  }

  /** So a pattern leaves in a file whose name only begins with its own. */
  lemma {:induction false} SiblingStays(e: string, more: string)
    requires more != "" && '/' !in more
    ensures !HitsOne(e + more, e)
  {
    assert (e + more)[|e|] == more[0] && (e + "/")[|e|] == '/';
  }

  lemma {:induction false} JoinLonger(parts: seq<string>, more: string)
    requires parts != []
    ensures Join(parts[..|parts| - 1] + [parts[|parts| - 1] + more], '\n') == Join(parts, '\n') + more
  {
    var front, last := parts[..|parts| - 1], parts[|parts| - 1];
    assert front + [last] == parts;
    if front == [] {
      assert [] + [last + more] == [last + more] && parts == [last];
    } else {
      JoinAppend(front, '\n', [last]);
      JoinAppend(front, '\n', [last + more]);
      assert Join([last], '\n') == last && Join([last + more], '\n') == last + more;
      hide Join;
      var a := Join(front, '\n') + ['\n'];
      assert a + (last + more) == (a + last) + more;
    }
  }

  lemma {:induction false} SplitLonger(s: string, more: string)
    requires '\n' !in more
    ensures var parts := Split(s, '\n');
            Split(s + more, '\n') == parts[..|parts| - 1] + [parts[|parts| - 1] + more]
  {
    var parts := Split(s, '\n');
    var longer := parts[..|parts| - 1] + [parts[|parts| - 1] + more];
    SplitFree(s, '\n');
    JoinSplit(s, '\n');
    JoinLonger(parts, more);
    hide Split, Join;
    forall k | 0 <= k < |longer| ensures '\n' !in longer[k] {
      if k < |parts| - 1 {
        assert longer[k] == parts[k];
      }
    }
    SplitJoin(longer, '\n');
  }

  lemma {:induction false} TrimLonger(s: string)
    ensures TrimSlashes(s + "/") == TrimSlashes(s)
  {
    assert (s + "/")[..|s + "/"| - 1] == s;
  }

  lemma {:induction false} OnePath(p: string)
    requires p != ""
    ensures NonEmptyPaths([p]) == [p] && Join([p], '\n') == p
  {
    assert [p][..0] == [] && NonEmptyPaths([]) == [] && [] + [p] == [p];
  }

  lemma {:induction false} TrimAllLonger(parts: seq<string>)
    requires parts != []
    ensures TrimAll(parts[..|parts| - 1] + [parts[|parts| - 1] + "/"]) == TrimAll(parts)
  {
    var longer := parts[..|parts| - 1] + [parts[|parts| - 1] + "/"];
    TrimLonger(parts[|parts| - 1]);
    hide TrimSlashes;
    assert forall k :: 0 <= k < |parts| - 1 ==> longer[k] == parts[k];
  }

  lemma {:induction false} PatternsLonger(p: string)
    requires p != ""
    ensures Patterns([p + "/"]) == Patterns([p])
    ensures NonEmptyPaths([p]) == [p] && NonEmptyPaths([p + "/"]) == [p + "/"]
  {
    hide Split, Join, TrimAll, NonEmptyPaths;
    OnePath(p);
    OnePath(p + "/");
    SplitLonger(p, "/");
    TrimAllLonger(Split(p, '\n'));
  }

  /** A slash at the end of a path excludes nothing more and nothing less, wherever
      the path stands in the list. */
  lemma {:induction false} SlashMakesNoDifference(raw: string, before: seq<string>, p: string, after: seq<string>)
    requires p != ""
    ensures ExcludedBytes(raw, before + [p + "/"] + after) == ExcludedBytes(raw, before + [p] + after)
  {
    PatternsLonger(p);
    hide Patterns, NonEmptyPaths, SelectedBytes;
    ExcludedTwice(raw, before, [p]);
    ExcludedTwice(raw, before, [p + "/"]);
    ExcludedTwice(raw, before + [p], after);
    ExcludedTwice(raw, before + [p + "/"], after);
  }

  /* ---- which files survive ---- */

  lemma {:induction false} SelectedHolds(fs: seq<Chunk>, c: Criterion, f: Chunk)
    ensures f in Selected(fs, c) <==> f in fs && Keeps(c, SectionOf(f))
  {
    hide Keeps, SectionOf;
    if fs != [] {
      var front, last := fs[..|fs| - 1], fs[|fs| - 1];
      SelectedHolds(front, c, f);
      assert front + [last] == fs;
    }
  }

  /** A pattern names the path or a directory it lies under. */
  predicate Under(path: string, e: string) { e != "" && Split(e, '/') <= Split(path, '/') }

  lemma {:induction false} HitsIs(path: string, ex: seq<string>)
    ensures Hits(path, ex) <==> path != "" && exists e :: e in ex && Under(path, e)
  {
    hide Split, HitsOne;
    forall e ensures HitsOne(path, e) <==> Under(path, e) {
      HitsIsComponents(path, e);
    }
    hide Under;
    if path != "" && exists e :: e in ex && Under(path, e) {
      var e :| e in ex && Under(path, e);
      var k :| 0 <= k < |ex| && ex[k] == e;
      assert HitsOne(path, ex[k]);
    }
  }

  /** An exclusion leaves in a file exactly when no pattern names either of its
      paths or a directory they lie under, and with no pattern at all leaves the
      diff as it is. */
  lemma {:induction false} ExcludedHolds(raw: string, paths: seq<string>, f: Chunk)
    ensures (forall p :: p in paths ==> p == "") ==> ExcludedBytes(raw, paths) == raw
    ensures (exists p :: p in paths && p != "") ==>
              (f in Files(Records(ExcludedBytes(raw, paths))) <==>
                 && f in Files(Records(raw))
                 && var s := SectionOf(f);
                    forall e :: e in Patterns(paths) ==>
                      (s.pathA == "" || !Under(s.pathA, e)) && (s.pathB == "" || !Under(s.pathB, e)))
  {
    SomePattern(paths);
    if exists p :: p in paths && p != "" {
      var ex, s := Patterns(paths), SectionOf(f);
      hide Records, Files, Patterns, SectionOf, Under, NonEmptyPaths, SelectedBytes, Selected;
      SelectionParses(raw, Outside(ex));
      SelectedHolds(Files(Records(raw)), Outside(ex), f);
      HitsIs(s.pathA, ex);
      HitsIs(s.pathB, ex);
      hide Hits;
    }
  }

  lemma {:induction false} SomePattern(paths: seq<string>)
    ensures NonEmptyPaths(paths) != [] <==> exists p :: p in paths && p != ""
  {
    if paths != [] {
      var front, last := paths[..|paths| - 1], paths[|paths| - 1];
      SomePattern(front);
      assert NonEmptyPaths(paths) == if last != "" then NonEmptyPaths(front) + [last] else NonEmptyPaths(front);
      assert front + [last] == paths;
      assert last in paths && forall p :: p in front ==> p in paths;
      hide NonEmptyPaths;
      if p :| p in paths && p != "" {
        assert p in front || p == last;
      }
    }
  }

  /** A selection by path keeps exactly the files with a side on the list. */
  lemma {:induction false} OnlyHolds(raw: string, paths: seq<string>, f: Chunk)
    ensures f in Files(Records(OnlyBytes(raw, paths))) <==>
            && f in Files(Records(raw))
            && var s := SectionOf(f);
               (s.pathA != "" && s.pathA in paths) || (s.pathB != "" && s.pathB in paths)
  {
    hide Records, Files, SectionOf, SelectedBytes, Selected;
    SelectionParses(raw, Among(PathSet(paths)));
    SelectedHolds(Files(Records(raw)), Among(PathSet(paths)), f);
  }
}
