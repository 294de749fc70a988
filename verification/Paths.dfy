/**
 Paths as components: lexical normalisation, containment, and resolving a path
 to where a write to it would land on an abstract file system.
 */
module Paths {
  import opened Text
  import Staging

  /* ---- components ---- */

  predicate Component(c: string) { c != "" && c != "." && c != ".." && '/' !in c }

  predicate Components(cs: seq<string>) { forall k :: 0 <= k < |cs| ==> Component(cs[k]) }

  /** The absolute path of some components. */
  function PathText(cs: seq<string>): string { if cs == [] then "/" else Join([""] + cs, '/') }

  /** What walking the segments of an absolute path leaves, or None when it
      climbs above the root. */
  function Walk(parts: seq<string>): Option<seq<string>> {
    if parts == [] then Some([])
    else
      var front, last := Walk(parts[..|parts| - 1]), parts[|parts| - 1];
      if front.None? || last == "" || last == "." then front
      else if last != ".." then Some(front.value + [last])
      else if front.value == [] then None
      else Some(front.value[..|front.value| - 1])
  }

  /** The path normalised on its text alone; empty when it escapes or names the
      root. */
  function Lexical(candidate: string): string {
    var stack := Walk(Split(candidate, '/'));
    if stack.None? || stack.value == [] then "" else "/" + Join(stack.value, '/')
  }

  method LexicalResolve(candidate: string) returns (r: string)
    ensures r == Lexical(candidate)
  {
    var parts, stack, escaped := Split(candidate, '/'), [], false;
    assert parts[..0] == [];
    for i := 0 to |parts|
      invariant Walk(parts[..i]) == if escaped then None else Some(stack)
    {
      WalkNext(parts, i);
      if escaped {
        WalkFails(parts, i);
        break;
      }
      var part := parts[i];
      if part == "" || part == "." {
        continue;
      }
      if part == ".." {
        if |stack| > 0 {
          stack := stack[..|stack| - 1];
        } else {
          escaped := true;
        }
        continue;
      }
      stack := stack + [part];
    }
    assert parts[..|parts|] == parts;
    if escaped {
      WalkFailsAnywhere(parts);
    }
    return if escaped || |stack| == 0 then "" else "/" + Join(stack, '/');
  }

  lemma {:induction false} WalkNext(parts: seq<string>, i: nat)
    requires i < |parts|
    ensures parts[..i + 1] == parts[..i] + [parts[i]] && parts[..i + 1][..i] == parts[..i]
  {
  }

  lemma {:induction false} WalkFails(parts: seq<string>, i: nat)
    requires i <= |parts| && Walk(parts[..i]).None?
    ensures Walk(parts).None?
    decreases |parts|
  {
    if i == |parts| {
      assert parts[..i] == parts;
    } else {
      assert parts[..|parts| - 1][..i] == parts[..i];
      WalkFails(parts[..|parts| - 1], i);
    }
  }

  lemma {:induction false} WalkFailsAnywhere(parts: seq<string>)
    ensures forall i :: 0 <= i <= |parts| && Walk(parts[..i]).None? ==> Walk(parts).None?
  {
    forall i | 0 <= i <= |parts| && Walk(parts[..i]).None? ensures Walk(parts).None? {
      WalkFails(parts, i);
    }
  }

  /* ---- normal forms ---- */

  lemma {:induction false} WalkIsClean(parts: seq<string>)
    requires Free(parts, '/')
    ensures Walk(parts).Some? ==> Components(Walk(parts).value)
  {
    if parts != [] {
      WalkIsClean(parts[..|parts| - 1]);
    }
  }

  lemma {:induction false} WalkOnto(parts: seq<string>, cs: seq<string>)
    requires Components(cs) && Walk(parts).Some?
    ensures Walk(parts + cs) == Some(Walk(parts).value + cs)
  {
    if cs == [] {
      assert parts + cs == parts && Walk(parts).value + cs == Walk(parts).value;
    } else {
      var front, last := cs[..|cs| - 1], cs[|cs| - 1];
      WalkOnto(parts, front);
      assert (parts + cs)[..|parts + cs| - 1] == parts + front;
      assert Walk(parts).value + front + [last] == Walk(parts).value + cs;
      assert Component(last);
    }
  }

  lemma {:induction false} WalkOfComponents(cs: seq<string>)
    requires Components(cs)
    ensures Walk(cs) == Some(cs) && Walk([""] + cs) == Some(cs)
  {
    assert Walk([]) == Some([]) && Walk([""]) == Some([]) by { WalkOfNothing(); }
    WalkOnto([], cs);
    WalkOnto([""], cs);
    assert [] + cs == cs;
  }

  lemma {:induction false} WalkOfNothing()
    ensures Walk([]) == Some([]) && Walk([""]) == Some([])
  {
    assert [""][..0] == [];
  }

  lemma {:induction false} ComponentsAreFree(cs: seq<string>)
    requires Components(cs)
    ensures Free([""] + cs, '/')
  {
    assert forall k :: 0 <= k < |cs| ==> ([""] + cs)[k + 1] == cs[k] && Component(cs[k]);
  }

  lemma {:induction false} RootSplits()
    ensures Walk(Split("/", '/')) == Some([])
  {
    SlashSplits();
    assert ["", ""][..1] == [""];
    WalkOfNothing();
  }

  lemma {:induction false} JoinedPath(cs: seq<string>)
    requires cs != []
    ensures PathText(cs) == "/" + Join(cs, '/')
  {
    assert ([""] + cs)[1..] == cs;
  }

  lemma {:induction false} SplitPathText(cs: seq<string>)
    requires Components(cs)
    ensures cs != [] ==> Split(PathText(cs), '/') == [""] + cs
    ensures Walk(Split(PathText(cs), '/')) == Some(cs)
    ensures cs != [] ==> PathText(cs) == "/" + Join(cs, '/')
  {
    hide Split, Walk, Join, Components, Free;
    if cs == [] {
      RootSplits();
    } else {
      ComponentsAreFree(cs);
      SplitJoin([""] + cs, '/');
      WalkOfComponents(cs);
      JoinedPath(cs);
    }
  }

  lemma {:induction false} SlashSplits()
    ensures Split("/", '/') == ["", ""]
  {
    SplitHead("", '/', "");
    assert "" + "/" + "" == "/";
  }

  lemma {:induction false} LexicalIs(candidate: string)
    ensures var stack := Walk(Split(candidate, '/'));
            && (stack.Some? ==> Components(stack.value))
            && Lexical(candidate) == if stack.None? || stack.value == [] then "" else PathText(stack.value)
  {
    SplitFree(candidate, '/');
    WalkIsClean(Split(candidate, '/'));
    var stack := Walk(Split(candidate, '/'));
    if stack.Some? {
      SplitPathText(stack.value);
    }
    hide Walk, Split, PathText;
  }

  /** A non-empty result is absolute and carries no empty, `.` or `..` segment. */
  lemma {:induction false} LexicalIsClean(candidate: string)
    requires Lexical(candidate) != ""
    ensures var cs := Split(Lexical(candidate), '/');
            |cs| > 1 && cs[0] == "" && Components(cs[1..])
  {
    LexicalIs(candidate);
    var stack := Walk(Split(candidate, '/')).value;
    SplitPathText(stack);
    hide Walk, Split, PathText, Lexical;
    assert ([""] + stack)[1..] == stack;
  }

  /** Normalising is idempotent. */
  lemma {:induction false} LexicalTwice(candidate: string)
    ensures Lexical(Lexical(candidate)) == Lexical(candidate)
  {
    LexicalIs(candidate);
    LexicalIs(Lexical(candidate));
    if Lexical(candidate) == "" {
      SplitOne("", '/');
      WalkOfNothing();
      hide Walk, Split, PathText, Lexical, Component;
    } else {
      SplitPathText(Walk(Split(candidate, '/')).value);
      hide Walk, Split, PathText, Lexical, Component;
    }
  }

  /* ---- containment ---- */

  predicate HasPrefix(s: string, prefix: string) { |prefix| <= |s| && s[..|prefix|] == prefix }

  function Directory(root: string): string { if root != "" && root[|root| - 1] == '/' then root else root + "/" }

  /** The root itself or anything under it, by text. */
  predicate Inside(root: string, candidate: string) { candidate == root || HasPrefix(candidate, Directory(root)) }

  lemma {:induction false} LastNotSlash(cs: seq<string>)
    requires Components(cs) && cs != []
    ensures Directory(PathText(cs)) == PathText(cs) + "/"
  {
    var last := cs[|cs| - 1];
    assert Component(last);
    var front := [""] + cs[..|cs| - 1];
    JoinAppend(front, '/', [last]);
    assert [""] + cs == front + [last];
    assert PathText(cs)[|PathText(cs)| - 1] == last[|last| - 1];
    hide Join;
  }

  lemma {:induction false} PathTextAppend(a: seq<string>, b: seq<string>)
    requires a != [] && b != []
    ensures PathText(a + b) == PathText(a) + "/" + Join(b, '/')
  {
    assert [""] + (a + b) == ([""] + a) + b;
    JoinAppend([""] + a, '/', b);
    hide Join;
  }

  lemma {:induction false} PrefixIsInside(root: seq<string>, cs: seq<string>)
    requires Components(root) && root != [] && Components(cs) && root <= cs
    ensures Inside(PathText(root), PathText(cs))
  {
    hide Join, PathText;
    if root == cs {
    } else {
      var rest := cs[|root|..];
      assert cs == root + rest;
      PathTextAppend(root, rest);
      LastNotSlash(root);
    }
  }

  lemma {:induction false} InsideIsPrefix(root: seq<string>, cs: seq<string>)
    requires Components(root) && root != [] && Components(cs) && HasPrefix(PathText(cs), PathText(root) + "/")
    ensures root <= cs
  {
    hide Join, Split, Walk, PathText;
    SplitPathText(root);
    SplitPathText(cs);
    PathTextLong(root);
    var r, c := PathText(root), PathText(cs);
    var rest := c[|r| + 1..];
    TailAfter(c, r);
    SplitAppend(r, '/', rest);
    hide HasPrefix, Component;
    if cs == [] {
      RootIsShort(r);
    } else {
      assert [""] + cs == [""] + root + Split(rest, '/') == [""] + (root + Split(rest, '/'));
      SameTail(cs, root + Split(rest, '/'));
    }
  }

  lemma {:induction false} TailAfter(c: string, r: string)
    requires HasPrefix(c, r + "/")
    ensures |r| + 1 <= |c| && c == r + "/" + c[|r| + 1..]
  {
  }

  lemma {:induction false} RootIsShort(r: string)
    requires r != ""
    ensures !HasPrefix(PathText([]), r + "/")
  {
  }

  lemma {:induction false} SameTail(a: seq<string>, b: seq<string>)
    requires [""] + a == [""] + b
    ensures a == b
  {
    assert ([""] + a)[1..] == a && ([""] + b)[1..] == b;
  }

  /** On normal forms of at least one component, the text test is the component
      test. */
  lemma {:induction false} InsideIsComponents(root: seq<string>, cs: seq<string>)
    requires Components(root) && root != [] && Components(cs)
    ensures Inside(PathText(root), PathText(cs)) <==> root <= cs
  {
    hide PathText, HasPrefix;
    LastNotSlash(root);
    PathTextInjective(root, cs);
    if root <= cs {
      PrefixIsInside(root, cs);
    }
    if HasPrefix(PathText(cs), PathText(root) + "/") {
      InsideIsPrefix(root, cs);
    }
  }

  lemma {:induction false} PathTextInjective(a: seq<string>, b: seq<string>)
    requires Components(a) && Components(b)
    ensures PathText(a) == PathText(b) ==> a == b
  {
    SplitPathText(a);
    SplitPathText(b);
    hide PathText, Split, Walk;
  }

  /** A repository-relative path resolves inside a cleaned root exactly when the
      root's components begin what walking the joined path leaves. */
  lemma {:induction false} ContainmentIsAboutComponents(root: seq<string>, path: string)
    requires Components(root) && root != []
    ensures var joined := PathText(root) + "/" + path;
            var stack := Walk([""] + root + Split(path, '/'));
            && Walk(Split(joined, '/')) == stack
            && (Inside(PathText(root), Lexical(joined)) <==> stack.Some? && root <= stack.value)
  {
    var joined := PathText(root) + "/" + path;
    SplitPathText(root);
    SplitAppend(PathText(root), '/', path);
    LexicalIs(joined);
    var stack := Walk(Split(joined, '/'));
    if stack.Some? {
      InsideIsComponents(root, stack.value);
    }
    PathTextLong(root);
    hide Walk, Split, PathText, Lexical;
  }

  lemma {:induction false} PathTextLong(cs: seq<string>)
    requires Components(cs)
    ensures PathText(cs) != "" && PathText(cs)[0] == '/'
  {
    SplitPathText(cs);
    hide Split, Walk;
  }

  /** A staged credential's path is already normal: without a `..` segment the
      file the scratch home is joined with stays under it. */
  lemma {:induction false} StagingPathIsNormal(dir: seq<string>, path: string)
    requires Components(dir) && dir != [] && Staging.RelativePath(path)
    ensures var cs := dir + Staging.Segments(Split(path, '/'));
            && Lexical(PathText(dir) + "/" + path) == PathText(cs)
            && Staging.StagingFile(PathText(dir), path) == PathText(cs)
            && Inside(PathText(dir), PathText(cs))
  {
    var parts := Split(path, '/');
    SplitFree(path, '/');
    SegmentsAreComponents(parts);
    WalkOfComponents(dir);
    WalkSegments([""] + dir, parts, dir);
    ContainmentIsAboutComponents(dir, path);
    LexicalIs(PathText(dir) + "/" + path);
    DescendIsPath(dir, Staging.Segments(parts));
    hide Walk, Split, PathText, Lexical, Staging.Segments, Inside, Staging.Descend;
  }

  lemma {:induction false} SegmentsAreComponents(parts: seq<string>)
    requires Free(parts, '/') && ".." !in parts
    ensures Components(Staging.Segments(parts))
  {
    if parts != [] {
      SegmentsAreComponents(parts[..|parts| - 1]);
    }
  }

  lemma {:induction false} WalkSegments(before: seq<string>, parts: seq<string>, cs: seq<string>)
    requires ".." !in parts && Walk(before) == Some(cs)
    ensures Walk(before + parts) == Some(cs + Staging.Segments(parts))
  {
    if parts == [] {
      assert before + parts == before && cs + Staging.Segments(parts) == cs;
    } else {
      var front, last := parts[..|parts| - 1], parts[|parts| - 1];
      WalkSegments(before, front, cs);
      assert (before + parts)[..|before + parts| - 1] == before + front;
      assert last != "..";
      var segments := Staging.Segments(front);
      assert cs + segments + [last] == cs + (segments + [last]);
    }
  }

  lemma {:induction false} DescendIsPath(dir: seq<string>, segments: seq<string>)
    requires dir != []
    ensures Staging.Descend(PathText(dir), segments) == PathText(dir + segments)
  {
    if segments == [] {
      assert dir + segments == dir && Staging.Descend(PathText(dir), segments) == PathText(dir);
    } else {
      var front, last := segments[..|segments| - 1], segments[|segments| - 1];
      DescendIsPath(dir, front);
      PathTextAppend(dir + front, [last]);
      assert dir + segments == dir + front + [last];
      hide PathText;
    }
  }
}
