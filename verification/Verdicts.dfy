/**
 What the path check answers, told from components: when a walk climbs above
 the root, each verdict exactly, and the ends of a climb no ancestor settles.
 */
module Verdicts {
  import opened Text
  import opened Paths
  import opened Landing

  /* ---- climbing ---- */

  /** How far below its start a walk of the segments has come, `..` going up. */
  function Depth(parts: seq<string>): int {
    if parts == [] then 0
    else
      var last := parts[|parts| - 1];
      Depth(parts[..|parts| - 1]) + if last == "" || last == "." then 0 else if last == ".." then -1 else 1
  }

  /** Some stretch of the walk from its start goes up more than down. */
  ghost predicate Dips(parts: seq<string>) { exists i :: 0 <= i <= |parts| && Depth(parts[..i]) < 0 }

  lemma {:induction false} DipsOnto(parts: seq<string>)
    requires parts != []
    ensures Dips(parts) <==> Dips(parts[..|parts| - 1]) || Depth(parts) < 0
  {
    hide Depth;
    var front := parts[..|parts| - 1];
    assert parts[..|parts|] == parts;
    assert forall i :: 0 <= i <= |front| ==> front[..i] == parts[..i];
    if Dips(front) {
      var i :| 0 <= i <= |front| && Depth(front[..i]) < 0;
      assert Depth(parts[..i]) < 0;
    }
    if Dips(parts) && Depth(parts) >= 0 {
      var i :| 0 <= i <= |parts| && Depth(parts[..i]) < 0;
      assert Depth(front[..i]) < 0;
    }
  }

  /** A walk fails exactly when some stretch of it from the start goes up more than
      down; otherwise it stands as deep as it went down. */
  lemma {:induction false} WalkFailsExactlyWhen(parts: seq<string>)
    ensures Walk(parts).None? <==> Dips(parts)
    ensures Walk(parts).Some? ==> |Walk(parts).value| == Depth(parts)
  {
    if parts == [] {
      assert Depth(parts[..0]) == 0;
    } else {
      WalkFailsExactlyWhen(parts[..|parts| - 1]);
      DipsOnto(parts);
      hide Dips;
    }
  }

  /** A walk that does not fail goes where one that stays at the root does. */
  lemma {:induction false} ClampedIsWalk(parts: seq<string>)
    ensures Walk(parts).Some? ==> Clamped(parts) == Walk(parts).value
  {
    if parts != [] {
      ClampedIsWalk(parts[..|parts| - 1]);
    }
  }

  /** Going up at the root stays there. */
  lemma {:induction false} UpAtTheRoot(parts: seq<string>)
    ensures Clamped([".."] + parts) == Clamped(parts)
  {
    if parts == [] {
      assert [".."] + parts == [".."] && [".."][..0] == [];
    } else {
      UpAtTheRoot(parts[..|parts| - 1]);
      hide Turn;
      assert ([".."] + parts)[..|parts|] == [".."] + parts[..|parts| - 1];
    }
  }

  lemma {:induction false} WalkOneMore(cs: seq<string>, name: string)
    requires Components(cs) && cs != []
    ensures Walk([""] + cs + [name]) ==
            if name == "" || name == "." then Some(cs) else if name != ".." then Some(cs + [name]) else Some(cs[..|cs| - 1])
  {
    WalkOfComponents(cs);
    assert ([""] + cs + [name])[..|cs| + 1] == [""] + cs;
    hide Component;
  }

  /** One more segment below a clean path: a name goes down, `.` stays and `..` goes
      up, and nothing is left of what reaches the root. */
  lemma {:induction false} LexicalGoes(cs: seq<string>, name: string)
    requires Components(cs) && cs != []
    ensures Component(name) ==> Lexical(PathText(cs) + "/" + name) == PathText(cs + [name])
    ensures name == "." || name == "" ==> Lexical(PathText(cs) + "/" + name) == PathText(cs)
    ensures name == ".." ==> Lexical(PathText(cs) + "/" + name) == if |cs| == 1 then "" else PathText(cs[..|cs| - 1])
  {
    var parts := [""] + cs + [name];
    hide Split, PathText, Lexical, Walk, Components;
    SplitPathText(cs);
    SplitAppend(PathText(cs), '/', name);
    LexicalIs(PathText(cs) + "/" + name);
    WalkOneMore(cs, name);
    if '/' !in name {
      SplitOne(name, '/');
      assert Split(PathText(cs) + "/" + name, '/') == parts;
    }
  }

  /* ---- the verdict ---- */

  /** Where the root is. */
  function RootAt(root: AbsPath): seq<string> { Clamped(Split(root, '/')) }

  /** Where a configured path leads below it, on its text. */
  function Leads(root: AbsPath, path: string): Option<seq<string>> { Walk([""] + RootAt(root) + Split(path, '/')) }

  predicate NamesTheRoot(path: string) { path == "" || path == "." }

  /** Both ends of the check resolve. */
  predicate Lands(fs: FileSystem, root: AbsPath, at: seq<string>) {
    Physical(fs, Absolute(RootAt(root)), MAX_HOPS).Some? && Physical(fs, Absolute(at), MAX_HOPS).Some?
  }

  predicate LandsInside(fs: FileSystem, root: AbsPath, at: seq<string>)
    requires Lands(fs, root, at)
  {
    Inside(Physical(fs, Absolute(RootAt(root)), MAX_HOPS).value, Physical(fs, Absolute(at), MAX_HOPS).value)
  }

  lemma {:induction false} RootIsClean(root: AbsPath)
    ensures Components(RootAt(root)) && Clean(root) == Absolute(RootAt(root))
  {
    SplitFree(root, '/');
    ClampedIsClean(Split(root, '/'));
    hide Split, Clamped, Absolute;
  }

  lemma {:induction false} InsideRootExactly(rc: seq<string>, cs: seq<string>)
    requires Components(rc) && Components(cs)
    ensures Inside(Absolute(rc), Absolute(cs)) <==> rc <= cs
  {
    AbsoluteIsPath(rc);
    AbsoluteIsPath(cs);
    if rc == [] {
      PathTextLong(cs);
      assert Absolute([]) == "/";
      hide PathText, Absolute;
    } else {
      hide PathText, Absolute, Inside;
      InsideIsComponents(rc, cs);
    }
  }

  lemma {:induction false} LexicalLeads(root: AbsPath, path: string)
    ensures var rc, stack := RootAt(root), Leads(root, path);
            && Components(rc)
            && (stack.Some? ==> Components(stack.value))
            && (NamesTheRoot(path) ==> stack == Some(rc))
            && Lexical(Absolute(rc) + "/" + path) == if stack.None? || stack.value == [] then "" else Absolute(stack.value)
  {
    var rc, stack := RootAt(root), Leads(root, path);
    RootIsClean(root);
    ResolvedIs(rc, path);
    WalkJoined(rc, path);
    LexicalIs(Absolute(rc) + "/" + path);
    if stack.Some? {
      AbsoluteIsPath(stack.value);
    }
    hide Split, Absolute, PathText, Lexical, Walk, Clamped, Component;
  }

  /** Every verdict, on components: no repository, a root or a path of the wrong
      kind, a walk that climbs above the root or ends on it without naming it, one
      that leaves the checkout, one that lands nowhere or outside, and the rest
      allowed. */
  lemma {:induction false} VerdictIs(fs: FileSystem, root: string, path: string)
    ensures root == "" <==> Assert(fs, root, path) == NoRepository
    ensures root != "" && root[0] != '/' <==> Assert(fs, root, path) == RootNotAbsolute
    ensures root != "" && root[0] == '/' && path != "" && path[0] == '/' <==> Assert(fs, root, path) == PathAbsolute
    ensures root != "" && root[0] == '/' && (path == "" || path[0] != '/') ==>
              var at := Leads(root, path);
              var lost := at.None? || (at.value == [] && !NamesTheRoot(path));
              && (Assert(fs, root, path) == Escapes <==> lost)
              && (Assert(fs, root, path) == Unresolvable <==> !lost && RootAt(root) <= at.value && !Lands(fs, root, at.value))
              && (Assert(fs, root, path) == Allowed <==>
                    !lost && RootAt(root) <= at.value && Lands(fs, root, at.value) && LandsInside(fs, root, at.value))
  {
    if root != "" && root[0] == '/' && (path == "" || path[0] != '/') {
      var rc, at := RootAt(root), Leads(root, path);
      RootIsClean(root);
      LexicalLeads(root, path);
      if at.Some? {
        InsideRootExactly(rc, at.value);
      }
      AbsoluteLong(rc);
      hide RootAt, Leads, Absolute, Inside, Lexical, Clean, Component, Physical;
    }
  }

  lemma {:induction false} AbsoluteLong(cs: seq<string>)
    ensures Absolute(cs) != ""
  {
  }

  /* ---- the ends of a climb ---- */

  /** Where nothing on the way up resolves or is a link the path stands as it is. */
  lemma {:induction false} NothingResolves(fs: FileSystem, cs: seq<string>, rest: seq<string>, hops: nat)
    requires Components(cs) && Components(rest)
    requires forall j :: 0 <= j <= |cs| ==> fs.resolves(Absolute(cs[..j])).None? && !fs.isLink(Absolute(cs[..j]))
    ensures Climb(fs, Absolute(cs), rest, hops) == Some(Absolute(cs + rest))
  {
    hide Absolute, Climb;
    assert cs[..|cs|] == cs;
    if cs == [] {
      assert cs + rest == rest;
      TopOfClimb(fs, rest, hops);
    } else {
      var front, last := cs[..|cs| - 1], cs[|cs| - 1];
      ClimbsOne(fs, cs, rest, hops);
      assert forall j :: 0 <= j <= |front| ==> front[..j] == cs[..j];
      assert Component(last);
      hide Component;
      NothingResolves(fs, front, [last] + rest, hops);
      assert front + ([last] + rest) == cs + rest;
    }
  }

  lemma {:induction false} TopOfClimb(fs: FileSystem, rest: seq<string>, hops: nat)
    requires Components(rest) && fs.resolves(Absolute([])).None? && !fs.isLink(Absolute([]))
    ensures Climb(fs, Absolute([]), rest, hops) == Some(Absolute(rest))
  {
    ClampedSplit([]);
    RootIsItsDir();
    if rest != [] {
      JoinUnderIs([], rest);
      assert [] + rest == rest;
    }
    hide Absolute, JoinUnder, Dir, Component, Follow, Split, Clamped;
  }

  lemma {:induction false} RootIsItsDir()
    ensures Dir(Absolute([])) == Absolute([])
  {
    SlashSplits();
    assert ["", ""][..1] == [""] && [""][..0] == [];
    assert Clamped([""]) == [];
    hide Split;
  }

  /** A dangling link with an absolute target lands where its target does, one hop
      fewer to spend; with no hop left, or a target that cannot be read, nowhere. */
  lemma {:induction false} AbsoluteLinkLands(fs: FileSystem, link: AbsPath, rest: seq<string>, hops: nat)
    requires Dangles(fs, link)
    ensures hops == 0 || fs.target(link).None? ==> Climb(fs, link, rest, hops) == None
    ensures hops > 0 && fs.target(link).Some? && fs.target(link).value != "" && fs.target(link).value[0] == '/' ==>
              var at := Physical(fs, fs.target(link).value, hops - 1);
              Climb(fs, link, rest, hops) == if at.None? then None else Some(Rejoin(at.value, rest))
  {
    hide Rejoin, JoinUnder, Dir, Base;
  }
}
