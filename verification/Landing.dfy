/**
 Where a write to a path would land: the deepest ancestor an abstract file
 system resolves, dangling links followed a bounded number of times, and the
 check that keeps a configured path inside the checkout.
 */
module Landing {
  import opened Text
  import opened Paths

  type AbsPath = p: string | p != "" && p[0] == '/' witness "/"

  /** One file system: what resolving a path answers, which paths are links, and
      what a link holds. */
  datatype FileSystem = FileSystem(resolves: AbsPath -> Option<AbsPath>, isLink: AbsPath -> bool, target: AbsPath -> Option<string>)

  /* ---- filepath on absolute paths ---- */

  /** Walking with `..` at the root staying there. */
  function Clamped(parts: seq<string>): seq<string> {
    if parts == [] then [] else Turn(Clamped(parts[..|parts| - 1]), parts[|parts| - 1])
  }

  /** Where one more segment leads. */
  function Turn(at: seq<string>, segment: string): seq<string> {
    if segment == "" || segment == "." then at
    else if segment != ".." then at + [segment]
    else if at == [] then []
    else at[..|at| - 1]
  }

  function Absolute(cs: seq<string>): (p: AbsPath) {
    if cs == [] then "/" else "/" + Join(cs, '/')
  }

  function Clean(p: AbsPath): AbsPath { Absolute(Clamped(Split(p, '/'))) }

  /** Everything before the last slash, cleaned. */
  function Dir(p: AbsPath): AbsPath {
    var parts := Split(p, '/');
    Absolute(Clamped(parts[..|parts| - 1]))
  }

  /** The last segment that is not empty. */
  function Base(p: AbsPath): string { LastOf(Split(p, '/')) }

  function LastOf(parts: seq<string>): string {
    if parts == [] then "/"
    else if parts[|parts| - 1] != "" then parts[|parts| - 1]
    else LastOf(parts[..|parts| - 1])
  }

  function JoinUnder(dir: AbsPath, rest: string): AbsPath { Clean(dir + "/" + rest) }

  function Rejoin(resolved: AbsPath, remainder: seq<string>): AbsPath {
    if remainder == [] then resolved else JoinUnder(resolved, Join(remainder, '/'))
  }

  /* ---- lengths ---- */

  function Size(parts: seq<string>): nat {
    if parts == [] then 0 else Size(parts[..|parts| - 1]) + 1 + |parts[|parts| - 1]|
  }

  lemma {:induction false} SizeSnoc(parts: seq<string>, x: string)
    ensures Size(parts + [x]) == Size(parts) + 1 + |x|
  {
    assert (parts + [x])[..|parts|] == parts;
  }

  lemma {:induction false} TurnSize(at: seq<string>, x: string)
    ensures Size(Turn(at, x)) <= Size(at) + 1 + |x|
    ensures Size(Turn(at, x)) == Size(at) + 1 + |x| ==> Turn(at, x) == at + [x]
  {
    SizeSnoc(at, x);
    if x == ".." && at != [] {
      SizeSnoc(at[..|at| - 1], at[|at| - 1]);
      assert at[..|at| - 1] + [at[|at| - 1]] == at;
    }
    hide Size;
  }

  lemma {:induction false} ClampedSize(parts: seq<string>)
    ensures Size(Clamped(parts)) <= Size(parts)
    ensures Size(Clamped(parts)) == Size(parts) ==> Clamped(parts) == parts
  {
    hide Size, Turn;
    if parts != [] {
      var front, last := parts[..|parts| - 1], parts[|parts| - 1];
      ClampedSize(front);
      TurnSize(Clamped(front), last);
      SizeSnoc(front, last);
      assert front + [last] == parts;
    }
  }

  lemma {:induction false} SizeFirst(parts: seq<string>)
    requires parts != []
    ensures Size(parts) == 1 + |parts[0]| + Size(parts[1..])
  {
    if |parts| > 1 {
      SizeFirst(parts[..|parts| - 1]);
      assert parts[1..][..|parts| - 2] == parts[..|parts| - 1][1..];
    } else {
      assert parts[..0] == [] && parts[1..] == [];
    }
  }

  lemma {:induction false} JoinSize(parts: seq<string>)
    requires parts != []
    ensures |Join(parts, '/')| + 1 == Size(parts)
  {
    SizeFirst(parts);
    if |parts| > 1 {
      JoinSize(parts[1..]);
    } else {
      assert parts[1..] == [];
    }
  }

  lemma {:induction false} AbsoluteSize(cs: seq<string>)
    ensures |Absolute(cs)| == if cs == [] then 1 else Size(cs)
  {
    if cs != [] {
      JoinSize(cs);
    }
    hide Size, Join;
  }

  lemma {:induction false} PathSize(p: AbsPath)
    ensures var parts := Split(p, '/'); |parts| > 1 && parts[0] == "" && Size(parts) == |p| + 1
  {
    var parts := Split(p, '/');
    JoinSplit(p, '/');
    JoinSize(parts);
    assert "" + "/" + p[1..] == p;
    SplitHead("", '/', p[1..]);
    hide Split, Join, Size;
  }

  /** Going up shortens a path until it is the root. */
  lemma {:induction false} DirIsShorter(p: AbsPath)
    ensures Dir(p) == p || |Dir(p)| < |p|
  {
    var parts := Split(p, '/');
    PathSize(p);
    var front, last := parts[..|parts| - 1], parts[|parts| - 1];
    assert Size(parts) == Size(front) + 1 + |last|;
    ClampedSize(front);
    AbsoluteSize(Clamped(front));
    FirstIsEmpty(front);
    hide Split, Size, Absolute;
    if Clamped(front) == [] && |p| == 1 {
      assert Dir(p) == Absolute([]);
      OneSlash(p);
    }
  }

  lemma {:induction false} OneSlash(p: AbsPath)
    requires |p| == 1
    ensures p == Absolute([])
  {
  }

  lemma {:induction false} FirstIsEmpty(parts: seq<string>)
    requires parts != [] && parts[0] == ""
    ensures Size(Clamped(parts)) < Size(parts)
  {
    ClampedSize(parts);
    ClampedClean(parts);
    hide Size;
  }

  lemma {:induction false} ClampedClean(parts: seq<string>)
    ensures "" !in Clamped(parts)
  {
    if parts != [] {
      ClampedClean(parts[..|parts| - 1]);
    }
  }

  /* ---- resolving ---- */

  const MAX_HOPS: nat := 32

  /** What climbing from `current` answers, the segments below it kept aside. */
  function Climb(fs: FileSystem, current: AbsPath, remainder: seq<string>, hops: nat): Option<AbsPath>
    decreases hops, |current|, 1
  {
    if fs.resolves(current).Some? then Some(Rejoin(fs.resolves(current).value, remainder))
    else if fs.isLink(current) then
      var resolved := Follow(fs, current, hops);
      if resolved.Some? then Some(Rejoin(resolved.value, remainder)) else None
    else if Dir(current) == current then Some(Rejoin(current, remainder))
    else
      DirIsShorter(current);
      Climb(fs, Dir(current), [Base(current)] + remainder, hops)
  }

  /** Where a dangling link's target lands. */
  function Follow(fs: FileSystem, link: AbsPath, hops: nat): Option<AbsPath>
    decreases hops, |link|, 0
  {
    if hops == 0 || fs.target(link).None? then None
    else Climb(fs, Pointed(fs, link), [], hops - 1)
  }

  /** A link's target, read against the link's own resolved directory. */
  function Pointed(fs: FileSystem, link: AbsPath): AbsPath
    requires fs.target(link).Some?
  {
    var target := fs.target(link).value;
    if target != "" && target[0] == '/' then target
    else JoinUnder(if fs.resolves(Dir(link)).Some? then fs.resolves(Dir(link)).value else Dir(link), target)
  }

  function Physical(fs: FileSystem, candidate: AbsPath, hops: nat): Option<AbsPath> { Climb(fs, candidate, [], hops) }

  method PhysicalResolve(fs: FileSystem, candidate: AbsPath, hops: nat) returns (r: Option<AbsPath>)
    ensures r == Physical(fs, candidate, hops)
    decreases hops, 1
  {
    var remainder, current := [], candidate;
    while true
      invariant Climb(fs, current, remainder, hops) == Physical(fs, candidate, hops)
      decreases |current|
    {
      var resolved := fs.resolves(current);
      if resolved.Some? {
        return Some(Rejoin(resolved.value, remainder));
      }
      if fs.isLink(current) {
        resolved := FollowDanglingLink(fs, current, hops);
        return if resolved.Some? then Some(Rejoin(resolved.value, remainder)) else None;
      }
      var parent := Dir(current);
      if parent == current {
        return Some(Rejoin(current, remainder));
      }
      DirIsShorter(current);
      remainder, current := [Base(current)] + remainder, parent;
    }
  }

  method FollowDanglingLink(fs: FileSystem, link: AbsPath, hops: nat) returns (r: Option<AbsPath>)
    ensures r == Follow(fs, link, hops)
    decreases hops, 0
  {
    if hops == 0 {
      return None;
    }
    var target := fs.target(link);
    if target.None? {
      return None;
    }
    r := PhysicalResolve(fs, Pointed(fs, link), hops - 1);
  }

  /** A path that does not resolve and is a link. */
  predicate Dangles(fs: FileSystem, p: AbsPath) { fs.resolves(p).None? && fs.isLink(p) }

  /** A set of dangling links that lead only to each other resolves to nothing,
      however many hops are allowed. */
  lemma {:induction false} LinkLoopsAreRefused(fs: FileSystem, loop: set<AbsPath>, p: AbsPath, hops: nat)
    requires forall q :: q in loop ==> Dangles(fs, q) && (fs.target(q).Some? ==> Pointed(fs, q) in loop)
    requires p in loop
    ensures Physical(fs, p, hops) == None
    decreases hops
  {
    assert Dangles(fs, p);
    hide Pointed, Dir, Rejoin, Base;
    assert Physical(fs, p, hops).None? <==> Follow(fs, p, hops).None?;
    if hops > 0 && fs.target(p).Some? {
      LinkLoopsAreRefused(fs, loop, Pointed(fs, p), hops - 1);
    }
  }

  /* ---- a path whose tail does not exist ---- */

  lemma {:induction false} AbsoluteIsPath(cs: seq<string>)
    requires Components(cs)
    ensures Absolute(cs) == PathText(cs)
  {
    SplitPathText(cs);
    hide Split, Walk;
  }

  lemma {:induction false} ClampedOnto(parts: seq<string>, cs: seq<string>)
    requires Components(cs)
    ensures Clamped(parts + cs) == Clamped(parts) + cs
  {
    if cs == [] {
      assert parts + cs == parts && Clamped(parts) + cs == Clamped(parts);
    } else {
      var front, last := cs[..|cs| - 1], cs[|cs| - 1];
      assert Component(last);
      ClampedOnto(parts, front);
      assert Turn(Clamped(parts) + front, last) == Clamped(parts) + front + [last];
      hide Turn, Component;
      assert (parts + cs)[..|parts + cs| - 1] == parts + front;
      assert Clamped(parts) + front + [last] == Clamped(parts) + cs;
    }
  }

  lemma {:induction false} ClampedSplit(cs: seq<string>)
    requires Components(cs)
    ensures Clamped(Split(Absolute(cs), '/')) == cs
    ensures cs != [] ==> Split(Absolute(cs), '/') == [""] + cs
  {
    AbsoluteIsPath(cs);
    SplitPathText(cs);
    if cs == [] {
      SlashSplits();
      assert ["", ""][..1] == [""] && [""][..0] == [];
    } else {
      ClampedOnto([""], cs);
      assert [""][..0] == [] && Clamped([""]) == [];
      assert [] + cs == cs;
    }
    hide Split, Absolute, PathText, Walk;
  }

  lemma {:induction false} LastSegment(cs: seq<string>)
    requires Components(cs) && cs != []
    ensures LastOf([""] + cs) == cs[|cs| - 1]
  {
    assert Component(cs[|cs| - 1]);
    assert ([""] + cs)[|cs|] == cs[|cs| - 1];
  }

  lemma {:induction false} ClampedFront(cs: seq<string>)
    requires Components(cs) && cs != []
    ensures Clamped(([""] + cs)[..|cs|]) == cs[..|cs| - 1]
  {
    var front := cs[..|cs| - 1];
    assert ([""] + cs)[..|cs|] == [""] + front;
    ClampedOnto([""], front);
    assert [""][..0] == [] && Clamped([""]) == [];
    assert [] + front == front;
  }

  lemma {:induction false} AbsoluteInjective(a: seq<string>, b: seq<string>)
    requires Components(a) && Components(b) && Absolute(a) == Absolute(b)
    ensures a == b
  {
    ClampedSplit(a);
    ClampedSplit(b);
    hide Split, Absolute, Clamped;
  }

  lemma {:induction false} UpAndLast(cs: seq<string>)
    requires Components(cs) && cs != []
    ensures Dir(Absolute(cs)) == Absolute(cs[..|cs| - 1]) && Base(Absolute(cs)) == cs[|cs| - 1]
    ensures Dir(Absolute(cs)) != Absolute(cs)
  {
    hide Split, Absolute, Clamped, LastOf, Component;
    ClampedSplit(cs);
    ClampedFront(cs);
    LastSegment(cs);
    if Absolute(cs[..|cs| - 1]) == Absolute(cs) {
      AbsoluteInjective(cs[..|cs| - 1], cs);
    }
  }

  lemma {:induction false} JoinUnderIs(a: seq<string>, b: seq<string>)
    requires Components(a) && Components(b) && b != []
    ensures JoinUnder(Absolute(a), Join(b, '/')) == Absolute(a + b)
  {
    var joined := Absolute(a) + "/" + Join(b, '/');
    SplitAppend(Absolute(a), '/', Join(b, '/'));
    SplitJoin(b, '/');
    ClampedSplit(a);
    ClampedOnto(Split(Absolute(a), '/'), b);
    hide Split, Absolute, Clamped, Join;
  }

  lemma {:induction false} ClimbsOne(fs: FileSystem, cs: seq<string>, rest: seq<string>, hops: nat)
    requires Components(cs) && cs != [] && fs.resolves(Absolute(cs)).None? && !fs.isLink(Absolute(cs))
    ensures Climb(fs, Absolute(cs), rest, hops) == Climb(fs, Absolute(cs[..|cs| - 1]), [cs[|cs| - 1]] + rest, hops)
  {
    UpAndLast(cs);
    hide Absolute, Dir, Base, Component, Follow, Rejoin;
  }

  lemma {:induction false} LandsHere(fs: FileSystem, cs: seq<string>, found: seq<string>, rest: seq<string>, hops: nat)
    requires Components(found) && Components(rest) && fs.resolves(Absolute(cs)) == Some(Absolute(found))
    ensures Climb(fs, Absolute(cs), rest, hops) == Some(Absolute(found + rest))
  {
    if rest == [] {
      assert found + rest == found;
    } else {
      JoinUnderIs(found, rest);
    }
    hide Absolute, JoinUnder, Component, Follow;
  }

  /** A normal path lands at its deepest ancestor that resolves, followed by the
      segments that do not exist yet. */
  lemma {:induction false} LandsBelowDeepestAncestor(fs: FileSystem, cs: seq<string>, k: nat, found: seq<string>,
      rest: seq<string>, hops: nat)
    requires k <= |cs| && Components(cs) && Components(found) && Components(rest)
    requires fs.resolves(Absolute(cs[..k])) == Some(Absolute(found))
    requires forall j :: k < j <= |cs| ==> fs.resolves(Absolute(cs[..j])).None? && !fs.isLink(Absolute(cs[..j]))
    ensures Climb(fs, Absolute(cs), rest, hops) == Some(Absolute(found + cs[k..] + rest))
    decreases |cs| - k
  {
    hide Absolute, Climb;
    assert cs[..|cs|] == cs;
    if k == |cs| {
      assert found + cs[k..] + rest == found + rest;
      LandsHere(fs, cs, found, rest, hops);
    } else {
      var front, last := cs[..|cs| - 1], cs[|cs| - 1];
      ClimbsOne(fs, cs, rest, hops);
      assert forall j :: 0 <= j <= |front| ==> front[..j] == cs[..j];
      assert Component(last);
      hide Component;
      LandsBelowDeepestAncestor(fs, front, k, found, [last] + rest, hops);
      assert found + front[k..] + ([last] + rest) == found + cs[k..] + rest;
    }
  }

  lemma {:induction false} TargetIsRelative(ts: seq<string>)
    requires Components(ts) && ts != []
    ensures Join(ts, '/') != "" && Join(ts, '/')[0] != '/'
  {
    assert Component(ts[0]);
  }

  /** A dangling link with a relative target lands under the directory the link's
      own directory resolves to, where the kernel would read it. */
  lemma {:induction false} DanglingLinkLands(fs: FileSystem, cs: seq<string>, ts: seq<string>, found: seq<string>,
      rest: seq<string>, hops: nat)
    requires Components(cs) && cs != [] && Components(ts) && ts != [] && Components(found) && Components(rest) && hops > 0
    requires Dangles(fs, Absolute(cs)) && fs.target(Absolute(cs)) == Some(Join(ts, '/'))
    requires fs.resolves(Absolute(cs[..|cs| - 1])) == Some(Absolute(found))
    requires fs.resolves(Absolute(found)) == Some(Absolute(found))
    requires forall j :: 0 < j <= |ts| ==> fs.resolves(Absolute(found + ts[..j])).None? && !fs.isLink(Absolute(found + ts[..j]))
    ensures Climb(fs, Absolute(cs), rest, hops) == Some(Absolute(found + ts + rest))
  {
    var link, at := Absolute(cs), found + ts;
    hide Absolute, Join, Component, JoinUnder, Dir;
    UpAndLast(cs);
    TargetIsRelative(ts);
    JoinUnderIs(found, ts);
    assert Pointed(fs, link) == Absolute(at);
    assert at[..|found|] == found && at[|found|..] == ts;
    assert forall j :: |found| < j <= |at| ==> at[..j] == found + ts[..j - |found|];
    LandsBelowDeepestAncestor(fs, at, |found|, found, [], hops - 1);
    assert found + at[|found|..] + [] == at;
    hide Pointed;
    if rest != [] {
      JoinUnderIs(at, rest);
    } else {
      assert at + rest == at;
    }
    LinkLands(fs, link, Absolute(at), rest, hops);
  }

  lemma {:induction false} LinkLands(fs: FileSystem, link: AbsPath, at: AbsPath, rest: seq<string>, hops: nat)
    requires hops > 0 && Dangles(fs, link) && fs.target(link).Some? && Climb(fs, Pointed(fs, link), [], hops - 1) == Some(at)
    ensures Climb(fs, link, rest, hops) == Some(Rejoin(at, rest))
  {
    assert Follow(fs, link, hops) == Some(at);
    hide Pointed, Dir, Rejoin, Base, Follow;
  }

  /* ---- the check ---- */

  datatype Verdict = Allowed | NoRepository | RootNotAbsolute | PathAbsolute | Escapes | Outside | Unresolvable

  /** Whether a configured path stays inside the checkout, by text first and then
      by where a write to it would land. */
  function Assert(fs: FileSystem, root: string, path: string): Verdict {
    if root == "" then NoRepository
    else if root[0] != '/' then RootNotAbsolute
    else if path != "" && path[0] == '/' then PathAbsolute
    else
      var cleaned := Clean(root);
      var resolved := if path == "" || path == "." then cleaned else Lexical(cleaned + "/" + path);
      if resolved == "" then Escapes
      else if !Inside(cleaned, resolved) then Outside
      else
        var physicalRoot, physical := Physical(fs, cleaned, MAX_HOPS), Physical(fs, resolved, MAX_HOPS);
        if physicalRoot.None? || physical.None? then Unresolvable
        else if !Inside(physicalRoot.value, physical.value) then Outside
        else Allowed
  }

  method AssertPathInsideRepo(fs: FileSystem, root: string, path: string) returns (verdict: Verdict)
    ensures verdict == Assert(fs, root, path)
  {
    if root == "" {
      return NoRepository;
    }
    if root[0] != '/' {
      return RootNotAbsolute;
    }
    var cleaned := Clean(root);
    if path != "" && path[0] == '/' {
      return PathAbsolute;
    }
    var resolved: string := cleaned;
    if path != "" && path != "." {
      resolved := LexicalResolve(cleaned + "/" + path);
    }
    if resolved == "" {
      return Escapes;
    }
    if !Inside(cleaned, resolved) {
      return Outside;
    }
    var physicalRoot := PhysicalResolve(fs, cleaned, MAX_HOPS);
    if physicalRoot.None? {
      return Unresolvable;
    }
    var physical := PhysicalResolve(fs, resolved, MAX_HOPS);
    if physical.None? {
      return Unresolvable;
    }
    return if Inside(physicalRoot.value, physical.value) then Allowed else Outside;
  }

  lemma {:induction false} ClampedIsClean(parts: seq<string>)
    requires Free(parts, '/')
    ensures Components(Clamped(parts))
  {
    if parts != [] {
      ClampedIsClean(parts[..|parts| - 1]);
    }
  }

  lemma {:induction false} WalkJoined(rc: seq<string>, path: string)
    requires Components(rc)
    ensures Walk(Split(Absolute(rc) + "/" + path, '/')) == Walk([""] + rc + Split(path, '/'))
  {
    hide Split, Absolute, PathText, Walk, Component;
    AbsoluteIsPath(rc);
    SplitAppend(PathText(rc), '/', path);
    SplitPathText(rc);
    if rc == [] {
      RootText();
      SlashSplits();
      var parts := Split(path, '/');
      assert ["", ""] + parts == [""] + ([""] + parts) && [""] + rc + parts == [""] + parts;
      LeadingEmpty([""] + parts);
    }
  }

  lemma {:induction false} RootText()
    ensures PathText([]) == "/"
  {
  }

  lemma {:induction false} NamesRoot(rc: seq<string>, path: string)
    requires Components(rc) && (path == "" || path == ".")
    ensures Walk([""] + rc + Split(path, '/')) == Some(rc)
  {
    SplitOne(path, '/');
    WalkOfComponents(rc);
    assert ([""] + rc + [path])[..|rc| + 1] == [""] + rc;
    hide Split, Component;
  }

  /** The path the check looks at, as components: walking the cleaned root and
      then the configured path, the empty path and `.` naming the root itself. */
  lemma {:induction false} ResolvedIs(rc: seq<string>, path: string)
    requires Components(rc)
    ensures var stack := Walk([""] + rc + Split(path, '/'));
            && (stack.Some? ==> Components(stack.value))
            && (path == "" || path == "." ==> stack == Some(rc))
            && (Lexical(Absolute(rc) + "/" + path) != "" ==>
                  stack.Some? && Lexical(Absolute(rc) + "/" + path) == Absolute(stack.value))
  {
    hide Split, Absolute, PathText, Lexical, Walk, Component;
    WalkJoined(rc, path);
    LexicalIs(Absolute(rc) + "/" + path);
    var stack := Walk([""] + rc + Split(path, '/'));
    if stack.Some? {
      AbsoluteIsPath(stack.value);
    }
    if path == "" || path == "." {
      NamesRoot(rc, path);
    }
  }

  lemma {:induction false} LeadingEmpty(parts: seq<string>)
    ensures Walk([""] + parts) == Walk(parts)
  {
    if parts == [] {
      WalkOfNothing();
      assert [""] + parts == [""];
    } else {
      LeadingEmpty(parts[..|parts| - 1]);
      assert ([""] + parts)[..|parts|] == [""] + parts[..|parts| - 1];
    }
  }

  lemma {:induction false} InsideRoot(root: seq<string>, cs: seq<string>)
    requires Components(root) && Components(cs) && Inside(Absolute(root), Absolute(cs))
    ensures root <= cs
  {
    AbsoluteIsPath(root);
    AbsoluteIsPath(cs);
    if root != [] {
      InsideIsComponents(root, cs);
    }
    hide Absolute, PathText, Inside;
  }

  /** An allowed path is relative, its normalised components begin with the
      root's, and it lands inside where the root lands. */
  lemma {:induction false} AllowedStaysInside(fs: FileSystem, root: AbsPath, path: string)
    requires Assert(fs, root, path) == Allowed
    ensures path != "" ==> path[0] != '/'
    ensures var rc := Clamped(Split(root, '/'));
            var stack := Walk([""] + rc + Split(path, '/'));
            && stack.Some? && rc <= stack.value
            && Physical(fs, Absolute(rc), MAX_HOPS).Some? && Physical(fs, Absolute(stack.value), MAX_HOPS).Some?
            && Inside(Physical(fs, Absolute(rc), MAX_HOPS).value, Physical(fs, Absolute(stack.value), MAX_HOPS).value)
  {
    var rc := Clamped(Split(root, '/'));
    SplitFree(root, '/');
    ClampedIsClean(Split(root, '/'));
    ResolvedIs(rc, path);
    var stack := Walk([""] + rc + Split(path, '/'));
    hide Split, Clamped, Absolute, Walk, Inside, Climb, Lexical;
    assert stack.Some?;
    InsideRoot(rc, stack.value);
  }
}
