/**
 Exactly which node graphs decode. A graph decodes when it unfolds to a finite
 tree within the step budget, an alias cycle is reported only when a container
 is reachable from itself, and a graph with such a cycle never decodes.
 */
module Anchors {
  import opened Text
  import opened Trees
  import opened Decode

  /* ---- the edges the walk follows ---- */

  ghost predicate Follows(g: Graph, x: nat, y: nat) {
    x < |g| &&
    match g[x].kind
    case Document => g[x].content != [] && y == g[x].content[0]
    case Alias => y == g[x].alias
    case Sequence => y in g[x].content
    case Mapping => exists i :: 0 <= i < PairCount(g, x) && FollowsPair(g, x, i, y)
    case _ => false
  }

  ghost predicate FollowsPair(g: Graph, x: nat, i: nat, y: nat)
    requires i < PairCount(g, x)
  {
    if KeyOf(g, x, i) == MERGE_KEY then
      Sources(g, ValueOf(g, x, i)).Some? && y in Sources(g, ValueOf(g, x, i)).value
    else y == ValueOf(g, x, i)
  }

  /** `n` followed edges lead from `x` to `y`. */
  ghost predicate Reaches(g: Graph, x: nat, y: nat, n: nat)
    decreases n
  {
    if n == 0 then x == y else exists z :: Reaches(g, x, z, n - 1) && Follows(g, z, y)
  }

  /** At least one followed edge leads from `x` to `y`. */
  ghost predicate ReachesOn(g: Graph, x: nat, y: nat) {
    exists n: nat :: n > 0 && Reaches(g, x, y, n)
  }

  /** A container below `x` is reachable from itself. */
  ghost predicate CycleBelow(g: Graph, x: nat) {
    exists c, m: nat :: Container(g, c) && Reaches(g, x, c, m) && ReachesOn(g, c, c)
  }

  lemma {:induction false} ReachesStep(g: Graph, x: nat, y: nat, z: nat, n: nat)
    requires Reaches(g, x, y, n) && Follows(g, y, z)
    ensures Reaches(g, x, z, n + 1)
  {
    hide Follows;
  }

  lemma {:induction false} LastEdge(g: Graph, x: nat, y: nat, n: nat) returns (w: nat)
    requires n > 0 && Reaches(g, x, y, n)
    ensures Reaches(g, x, w, n - 1) && Follows(g, w, y)
  {
    hide Follows;
    w :| Reaches(g, x, w, n - 1) && Follows(g, w, y);
  }

  lemma {:induction false} ReachesSelf(g: Graph, x: nat, y: nat)
    requires Reaches(g, x, y, 0)
    ensures x == y
  {
  }

  lemma {:induction false} ReachesThrough(g: Graph, x: nat, y: nat, z: nat, m: nat, n: nat)
    requires Reaches(g, x, y, m) && Reaches(g, y, z, n)
    ensures Reaches(g, x, z, m + n)
    decreases n
  {
    if n > 0 {
      hide Follows, Reaches;
      var w := LastEdge(g, y, z, n);
      ReachesThrough(g, x, y, w, m, n - 1);
      ReachesStep(g, x, w, z, m + n - 1);
    } else {
      ReachesSelf(g, y, z);
    }
  }

  lemma {:induction false} ReachesOne(g: Graph, x: nat, y: nat)
    requires Follows(g, x, y)
    ensures Reaches(g, x, y, 1)
  {
    hide Follows;
    assert Reaches(g, x, x, 0);
  }

  lemma {:induction false} CycleAbove(g: Graph, x: nat, y: nat)
    requires Follows(g, x, y) && CycleBelow(g, y)
    ensures CycleBelow(g, x)
  {
    hide Follows, Reaches, ReachesOn, Container;
    var c, m: nat :| Container(g, c) && Reaches(g, y, c, m) && ReachesOn(g, c, c);
    ReachesOne(g, x, y);
    ReachesThrough(g, x, y, c, 1, m);
  }

  /* ---- a larger budget ---- */

  lemma {:induction false} FitsMore(g: Graph, id: nat, f: nat)
    requires Fits(g, id, f)
    ensures Fits(g, id, f + 1)
    decreases f, 0
  {
    hide FitsMapping, AllFit;
    if !Nothing(g, id) {
      match g[id].kind {
        case Document => if g[id].content != [] { FitsMore(g, g[id].content[0], f - 1); }
        case Alias => FitsMore(g, g[id].alias, f - 1);
        case Mapping => FitsMappingMore(g, id, f - 1);
        case Sequence => AllFitMore(g, g[id].content, f - 1);
        case Scalar =>
      }
    }
  }

  lemma {:induction false} AllFitMore(g: Graph, items: seq<nat>, f: nat)
    requires AllFit(g, items, f)
    ensures AllFit(g, items, f + 1)
    decreases f, 1
  {
    hide Fits;
    forall i | 0 <= i < |items| ensures Fits(g, items[i], f + 1) {
      FitsMore(g, items[i], f);
    }
  }

  lemma {:induction false} FitsMappingMore(g: Graph, id: nat, f: nat)
    requires FitsMapping(g, id, f)
    ensures FitsMapping(g, id, f + 1)
    decreases f, 0
  {
    hide FitsPair;
    forall i | 0 <= i < PairCount(g, id) ensures FitsPair(g, id, i, f) {
      FitsPairMore(g, id, i, f - 1);
    }
    assert PairsFit(g, id, PairCount(g, id), f + 1 - 1);
  }

  lemma {:induction false} FitsPairMore(g: Graph, id: nat, i: nat, f: nat)
    requires i < PairCount(g, id) && FitsPair(g, id, i, f)
    ensures FitsPair(g, id, i, f + 1)
    decreases f, 2
  {
    hide Fits, AllFitMapping, Sources, KeyOf;
    if KeyOf(g, id, i) == MERGE_KEY {
      AllFitMappingMore(g, Sources(g, ValueOf(g, id, i)).value, f);
    } else {
      FitsMore(g, ValueOf(g, id, i), f);
    }
  }

  lemma {:induction false} AllFitMappingMore(g: Graph, sources: seq<nat>, f: nat)
    requires AllFitMapping(g, sources, f)
    ensures AllFitMapping(g, sources, f + 1)
    decreases f, 1
  {
    hide FitsMapping;
    forall i | 0 <= i < |sources| ensures FitsMapping(g, sources[i], f + 1) {
      FitsMappingMore(g, sources[i], f);
    }
  }

  /* ---- and the same tree ---- */

  /** The tree does not depend on the budget it fits in. */
  lemma {:induction false} UnfoldSame(g: Graph, id: nat, f: nat)
    requires Fits(g, id, f)
    ensures Fits(g, id, f + 1) && Unfold(g, id, f + 1) == Unfold(g, id, f)
    decreases f, 0
  {
    FitsMore(g, id, f);
    hide FitsMapping, AllFit, Writes, UnfoldAll;
    if id < |g| {
      match g[id].kind {
        case Document => if g[id].content != [] { UnfoldSame(g, g[id].content[0], f - 1); }
        case Alias => UnfoldSame(g, g[id].alias, f - 1);
        case Mapping => WritesSame(g, id, f - 1);
        case Sequence => UnfoldAllSame(g, g[id].content, f - 1);
        case _ =>
      }
    }
  }

  lemma {:induction false} UnfoldAllSame(g: Graph, items: seq<nat>, f: nat)
    requires AllFit(g, items, f)
    ensures AllFit(g, items, f + 1) && UnfoldAll(g, items, f + 1) == UnfoldAll(g, items, f)
    decreases f, 1
  {
    AllFitMore(g, items, f);
    hide Fits, Unfold;
    forall i | 0 <= i < |items| ensures Unfold(g, items[i], f + 1) == Unfold(g, items[i], f) {
      UnfoldSame(g, items[i], f);
    }
  }

  lemma {:induction false} WritesSame(g: Graph, id: nat, f: nat)
    requires FitsMapping(g, id, f)
    ensures FitsMapping(g, id, f + 1) && Writes(g, id, f + 1) == Writes(g, id, f)
    decreases f, 0
  {
    hide PairsFit, WritesTo;
    FitsMappingMore(g, id, f);
    WritesToSame(g, id, PairCount(g, id), f - 1);
    assert f - 1 + 1 == f;
  }

  lemma {:induction false} WritesToSame(g: Graph, id: nat, n: nat, f: nat)
    requires n <= PairCount(g, id) && PairsFit(g, id, n, f)
    ensures PairsFit(g, id, n, f + 1) && WritesTo(g, id, n, f + 1) == WritesTo(g, id, n, f)
    decreases f, 4, n
  {
    hide FitsPair, PairWrites;
    if n > 0 {
      WritesToSame(g, id, n - 1, f);
      PairWritesSame(g, id, n - 1, f);
    }
  }

  lemma {:induction false} PairWritesSame(g: Graph, id: nat, i: nat, f: nat)
    requires i < PairCount(g, id) && FitsPair(g, id, i, f)
    ensures FitsPair(g, id, i, f + 1) && PairWrites(g, id, i, f + 1) == PairWrites(g, id, i, f)
    decreases f, 2
  {
    FitsPairMore(g, id, i, f);
    hide KeyOf, AllFitMapping, Fits, Unfold, SourceWrites, Sources, HoldsMergeKey;
    if KeyOf(g, id, i) == MERGE_KEY {
      SourceWritesSame(g, Sources(g, ValueOf(g, id, i)).value, f);
    } else {
      UnfoldSame(g, ValueOf(g, id, i), f);
    }
  }

  lemma {:induction false} SourceWritesSame(g: Graph, sources: seq<nat>, f: nat)
    requires AllFitMapping(g, sources, f)
    ensures AllFitMapping(g, sources, f + 1) && SourceWrites(g, sources, f + 1) == SourceWrites(g, sources, f)
    decreases f, 1, |sources|
  {
    AllFitMappingMore(g, sources, f);
    hide FitsMapping, Writes;
    if sources != [] {
      SourceWritesSame(g, sources[..|sources| - 1], f);
      WritesSame(g, sources[|sources| - 1], f);
    }
  }

  /* ---- a cycle never fits ---- */

  ghost predicate FitsAs(g: Graph, x: nat, f: nat) {
    if Is(g, x, Mapping) then FitsMapping(g, x, f) else Fits(g, x, f)
  }

  lemma {:induction false} FitsAsNode(g: Graph, x: nat, f: nat)
    requires Fits(g, x, f)
    ensures FitsAs(g, x, f)
  {
    hide FitsMapping, AllFit;
    if Is(g, x, Mapping) {
      FitsMappingMore(g, x, f - 1);
    }
  }

  lemma {:induction false} StepFits(g: Graph, x: nat, y: nat, f: nat)
    requires FitsAs(g, x, f) && Follows(g, x, y)
    ensures f > 0 && FitsAs(g, y, f - 1)
  {
    if Is(g, x, Mapping) {
      var i :| 0 <= i < PairCount(g, x) && FollowsPair(g, x, i, y);
      hide Follows, FitsAs, FollowsPair, FitsPair;
      MappingStepFits(g, x, i, y, f);
    } else {
      hide FitsMapping;
      StepFitsNode(g, x, y, f);
      hide FitsAs, Fits;
      FitsAsNode(g, y, f - 1);
    }
  }

  lemma {:induction false} StepFitsNode(g: Graph, x: nat, y: nat, f: nat)
    requires !Is(g, x, Mapping) && Fits(g, x, f) && Follows(g, x, y)
    ensures f > 0 && Fits(g, y, f - 1)
  {
    hide FitsMapping;
    if Is(g, x, Sequence) {
      assert AllFit(g, g[x].content, f - 1);
      var i :| 0 <= i < |g[x].content| && g[x].content[i] == y;
      assert Fits(g, g[x].content[i], f - 1);
    }
  }

  lemma {:induction false} MappingStepFits(g: Graph, x: nat, i: nat, y: nat, f: nat)
    requires Is(g, x, Mapping) && i < PairCount(g, x) && FollowsPair(g, x, i, y) && FitsAs(g, x, f)
    ensures f > 0 && FitsAs(g, y, f - 1)
  {
    assert FitsMapping(g, x, f) && PairsFit(g, x, PairCount(g, x), f - 1);
    assert FitsPair(g, x, i, f - 1);
    hide FitsMapping, PairsFit;
    if KeyOf(g, x, i) == MERGE_KEY {
      var value := ValueOf(g, x, i);
      TargetsAreMappings(g, Named(g, value));
      var j :| 0 <= j < |Sources(g, value).value| && Sources(g, value).value[j] == y;
      assert AllFitMapping(g, Sources(g, value).value, f - 1);
      assert FitsMapping(g, Sources(g, value).value[j], f - 1);
    } else {
      FitsAsNode(g, y, f - 1);
    }
  }

  lemma {:induction false} PathFits(g: Graph, x: nat, y: nat, f: nat, n: nat)
    requires FitsAs(g, x, f) && Reaches(g, x, y, n)
    ensures n <= f && FitsAs(g, y, f - n)
    decreases n
  {
    hide FitsAs, Follows;
    if n > 0 {
      var z :| Reaches(g, x, z, n - 1) && Follows(g, z, y);
      PathFits(g, x, z, f, n - 1);
      StepFits(g, z, y, f - (n - 1));
    }
  }

  lemma {:induction false} CycleNeverFits(g: Graph, c: nat, n: nat, f: nat)
    requires n > 0 && Reaches(g, c, c, n)
    ensures !FitsAs(g, c, f)
    decreases f
  {
    hide FitsAs, Reaches;
    if FitsAs(g, c, f) {
      PathFits(g, c, c, f, n);
      CycleNeverFits(g, c, n, f - n);
    }
  }

  lemma {:induction false} NoFitBelowCycle(g: Graph, x: nat, f: nat)
    requires CycleBelow(g, x)
    ensures !Fits(g, x, f)
  {
    hide Fits, Reaches, FitsAs, Container;
    if Fits(g, x, f) {
      var c, m: nat :| Container(g, c) && Reaches(g, x, c, m) && ReachesOn(g, c, c);
      var n: nat :| n > 0 && Reaches(g, c, c, n);
      FitsAsNode(g, x, f);
      PathFits(g, x, c, f, m);
      CycleNeverFits(g, c, n, f - m);
    }
  }

  /* ---- the active set ---- */

  /** Everything being decoded leads here. */
  ghost predicate Above(g: Graph, active: set<nat>, x: nat) {
    forall a :: a in active ==> ReachesOn(g, a, x)
  }

  lemma {:induction false} AboveNext(g: Graph, active: set<nat>, x: nat, y: nat)
    requires Above(g, active, x) && Follows(g, x, y)
    ensures Above(g, active, y)
  {
    hide Follows, Reaches;
    ReachesOne(g, x, y);
    forall a | a in active ensures ReachesOn(g, a, y) {
      var n: nat :| n > 0 && Reaches(g, a, x, n);
      ReachesThrough(g, a, x, y, n, 1);
    }
  }

  lemma {:induction false} AboveInside(g: Graph, active: set<nat>, x: nat, y: nat)
    requires Above(g, active - {x}, x) && Follows(g, x, y)
    ensures Above(g, active, y)
  {
    hide Follows, ReachesOn;
    AboveNext(g, active - {x}, x, y);
    ReachesOne(g, x, y);
    assert ReachesOn(g, x, y) by { OneReachesOn(g, x, y); }
  }

  lemma {:induction false} OneReachesOn(g: Graph, x: nat, y: nat)
    requires Reaches(g, x, y, 1)
    ensures ReachesOn(g, x, y)
  {
  }

  lemma {:induction false} AboveEntering(g: Graph, active: set<nat>, x: nat)
    requires Above(g, active, x)
    ensures Above(g, active + {x} - {x}, x)
  {
    hide ReachesOn;
  }

  /** Arriving again at a container being decoded means a cycle through it. */
  lemma {:induction false} ArrivedAgain(g: Graph, active: set<nat>, x: nat, f: nat)
    requires Above(g, active, x) && x in active && Container(g, x)
    ensures CycleBelow(g, x) && !FitsAs(g, x, f)
  {
    hide Follows, FitsAs, Container;
    assert ReachesOn(g, x, x);
    var n: nat :| n > 0 && Reaches(g, x, x, n);
    CycleNeverFits(g, x, n, f);
    assert Reaches(g, x, x, 0);
    hide Reaches;
  }

  /* ---- what the walk answers ---- */

  /** A result the graph below `x` accounts for: a finite tree within the budget
      is decoded, and an alias cycle is reported only over a real one. */
  ghost predicate Justified<T>(g: Graph, x: nat, fits: bool, r: Result<T>) {
    (fits ==> r.Ok?) && (r == Err(AliasCycle) ==> CycleBelow(g, x))
  }

  lemma {:induction false} NodeJustified(g: Graph, id: nat, depth: nat, active: set<nat>)
    requires depth <= MAX_DEPTH && Above(g, active, id)
    ensures Justified(g, id, Fits(g, id, MAX_DEPTH - depth), DecodeNode(g, id, depth, active))
    decreases MAX_DEPTH - depth, 0, 0
  {
    hide Above, CycleBelow, Reaches, FitsMapping, AllFit, DecodeMapping, DecodeItems;
    if !Nothing(g, id) && depth < MAX_DEPTH {
      match g[id].kind {
        case Document =>
          if g[id].content != [] {
            BelowJustified(g, id, g[id].content[0], depth + 1, active);
          }
        case Alias => BelowJustified(g, id, g[id].alias, depth + 1, active);
        case Mapping =>
          if id in active {
            ArrivedAgain(g, active, id, MAX_DEPTH - depth - 1);
          } else {
            AboveEntering(g, active, id);
            MappingJustified(g, id, [], depth + 1, active + {id});
          }
        case Sequence =>
          if id in active {
            ArrivedAgain(g, active, id, MAX_DEPTH - depth);
          } else {
            AboveEntering(g, active, id);
            ItemsJustified(g, id, g[id].content, depth + 1, active + {id});
          }
        case Scalar =>
      }
    }
  }

  lemma {:induction false} BelowJustified(g: Graph, x: nat, y: nat, depth: nat, active: set<nat>)
    requires depth <= MAX_DEPTH && Above(g, active, x) && Follows(g, x, y)
    ensures Justified(g, x, Fits(g, y, MAX_DEPTH - depth), DecodeNode(g, y, depth, active))
    decreases MAX_DEPTH - depth, 0, 1
  {
    hide Above, CycleBelow, Fits, DecodeNode, Follows;
    AboveNext(g, active, x, y);
    NodeJustified(g, y, depth, active);
    if CycleBelow(g, y) { CycleAbove(g, x, y); }
  }

  /** The same for a child of a container that is itself being decoded. */
  lemma {:induction false} InsideJustified(g: Graph, x: nat, y: nat, depth: nat, active: set<nat>)
    requires depth <= MAX_DEPTH && Above(g, active - {x}, x) && Follows(g, x, y)
    ensures Justified(g, x, Fits(g, y, MAX_DEPTH - depth), DecodeNode(g, y, depth, active))
    decreases MAX_DEPTH - depth, 0, 1
  {
    hide Above, CycleBelow, Fits, DecodeNode, Follows;
    AboveInside(g, active, x, y);
    NodeJustified(g, y, depth, active);
    if CycleBelow(g, y) { CycleAbove(g, x, y); }
  }

  lemma {:induction false} ItemsJustified(g: Graph, x: nat, items: seq<nat>, depth: nat, active: set<nat>)
    requires depth <= MAX_DEPTH && Above(g, active - {x}, x)
    requires Is(g, x, Sequence) && forall y :: y in items ==> y in g[x].content
    ensures Justified(g, x, AllFit(g, items, MAX_DEPTH - depth), DecodeItems(g, items, depth, active))
    decreases MAX_DEPTH - depth, 1, |items|
  {
    hide Above, CycleBelow, Fits, DecodeNode;
    if items != [] {
      var front := items[..|items| - 1];
      assert forall i :: 0 <= i < |front| ==> items[i] == front[i];
      ItemsJustified(g, x, front, depth, active);
      InsideJustified(g, x, items[|items| - 1], depth, active);
    }
  }

  lemma {:induction false} MappingJustified(g: Graph, id: nat, out: seq<Entry>, depth: nat, active: set<nat>)
    requires depth <= MAX_DEPTH && Above(g, active - {id}, id) && Is(g, id, Mapping)
    ensures Justified(g, id, FitsMapping(g, id, MAX_DEPTH - depth), DecodeMapping(g, id, out, depth, active))
    decreases MAX_DEPTH - depth, 0, 0
  {
    hide Above, CycleBelow, PairsFit, DecodePairs;
    if depth < MAX_DEPTH {
      PairsJustified(g, id, out, PairCount(g, id), depth + 1, active);
    }
  }

  lemma {:induction false} PairsJustified(g: Graph, id: nat, out: seq<Entry>, n: nat, depth: nat, active: set<nat>)
    requires n <= PairCount(g, id)
    requires depth <= MAX_DEPTH && Above(g, active - {id}, id) && Is(g, id, Mapping)
    ensures Justified(g, id, PairsFit(g, id, n, MAX_DEPTH - depth), DecodePairs(g, id, out, n, depth, active))
    decreases MAX_DEPTH - depth, 3, n
  {
    hide Above, CycleBelow, FitsPair, DecodePair;
    if n > 0 {
      PairsJustified(g, id, out, n - 1, depth, active);
      if DecodePairs(g, id, out, n - 1, depth, active).Ok? {
        PairJustified(g, id, DecodePairs(g, id, out, n - 1, depth, active).value, n - 1, depth, active);
      }
    }
  }

  lemma {:induction false} PairJustified(g: Graph, id: nat, out: seq<Entry>, i: nat, depth: nat, active: set<nat>)
    requires i < PairCount(g, id)
    requires depth <= MAX_DEPTH && Above(g, active - {id}, id) && Is(g, id, Mapping)
    ensures Justified(g, id, FitsPair(g, id, i, MAX_DEPTH - depth), DecodePair(g, id, out, i, depth, active))
    decreases MAX_DEPTH - depth, 2
  {
    hide Above, CycleBelow, Fits, AllFitMapping, DecodeNode, DecodeSources, Applied, Sources, KeyOf;
    if KeyOf(g, id, i) == MERGE_KEY {
      var sources := Sources(g, ValueOf(g, id, i));
      if sources.Some? {
        SourcesFollow(g, id, i);
        hide Follows;
        SourcesJustified(g, id, sources.value, out, depth, active);
      }
    } else {
      assert FollowsPair(g, id, i, ValueOf(g, id, i));
      InsideJustified(g, id, ValueOf(g, id, i), depth, active);
    }
  }

  lemma {:induction false} SourcesFollow(g: Graph, id: nat, i: nat)
    requires Is(g, id, Mapping) && i < PairCount(g, id)
    requires KeyOf(g, id, i) == MERGE_KEY && Sources(g, ValueOf(g, id, i)).Some?
    ensures forall s :: s in Sources(g, ValueOf(g, id, i)).value ==> Follows(g, id, s) && Is(g, s, Mapping)
  {
    TargetsAreMappings(g, Named(g, ValueOf(g, id, i)));
    hide Targets, KeyName, Named;
    forall s | s in Sources(g, ValueOf(g, id, i)).value ensures Follows(g, id, s) {
      assert FollowsPair(g, id, i, s);
    }
  }

  lemma {:induction false} SourcesJustified(g: Graph, id: nat, sources: seq<nat>, out: seq<Entry>, depth: nat,
      active: set<nat>)
    requires depth <= MAX_DEPTH && Above(g, active - {id}, id)
    requires forall s :: s in sources ==> Follows(g, id, s) && Is(g, s, Mapping)
    ensures Justified(g, id, AllFitMapping(g, sources, MAX_DEPTH - depth), DecodeSources(g, sources, out, depth, active))
    decreases MAX_DEPTH - depth, 1, |sources|
  {
    hide Above, CycleBelow, FitsMapping, DecodeMapping, Follows;
    if sources != [] {
      var front, s := sources[..|sources| - 1], sources[|sources| - 1];
      assert forall i :: 0 <= i < |front| ==> sources[i] == front[i];
      SourcesJustified(g, id, front, out, depth, active);
      var before := DecodeSources(g, front, out, depth, active);
      if before.Ok? {
        SourceJustified(g, id, s, before.value, depth, active);
      }
    }
  }

  lemma {:induction false} SourceJustified(g: Graph, id: nat, s: nat, out: seq<Entry>, depth: nat, active: set<nat>)
    requires depth <= MAX_DEPTH && Above(g, active - {id}, id)
    requires Follows(g, id, s) && Is(g, s, Mapping)
    ensures Justified(g, id, FitsMapping(g, s, MAX_DEPTH - depth),
                      if s in active then Err(AliasCycle) else DecodeMapping(g, s, out, depth, active + {s}))
    decreases MAX_DEPTH - depth, 0, 1
  {
    hide Above, CycleBelow, FitsMapping, DecodeMapping, Follows;
    AboveInside(g, active, id, s);
    if s in active {
      ArrivedAgain(g, active, s, MAX_DEPTH - depth);
    } else {
      AboveEntering(g, active, s);
      MappingJustified(g, s, out, depth, active + {s});
    }
    if CycleBelow(g, s) { CycleAbove(g, id, s); }
  }

  /* ---- the theorems ---- */

  /** A document decodes exactly when it unfolds to a finite tree within the
      budget, and the value is that tree. */
  lemma {:induction false} DecodesExactlyWhenFinite(g: Graph, root: nat)
    ensures DecodeNode(g, root, 0, {}).Ok? <==> Fits(g, root, MAX_DEPTH)
    ensures Fits(g, root, MAX_DEPTH) ==> DecodeNode(g, root, 0, {}) == Ok(Unfold(g, root, MAX_DEPTH))
  {
    hide Fits, Unfold, DecodeNode, Reaches;
    NodeJustified(g, root, 0, {});
    if DecodeNode(g, root, 0, {}).Ok? {
      NodeUnfolds(g, root, 0, {});
    }
  }

  /** An alias cycle is reported only when a container below the root is
      reachable from itself, and a document holding one never decodes. */
  lemma {:induction false} CyclesAreRefused(g: Graph, root: nat)
    ensures DecodeNode(g, root, 0, {}) == Err(AliasCycle) ==> CycleBelow(g, root)
    ensures CycleBelow(g, root) ==> DecodeNode(g, root, 0, {}).Err?
  {
    hide Fits, Unfold, DecodeNode, CycleBelow;
    NodeJustified(g, root, 0, {});
    if CycleBelow(g, root) {
      NoFitBelowCycle(g, root, MAX_DEPTH);
      DecodesExactlyWhenFinite(g, root);
    }
  }
}
