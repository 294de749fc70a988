/**
 Which error a cyclic document gets: where every scalar and merge can be read
 and the graph is small against the step budget, the walk answers the alias
 cycle error exactly when there is a cycle to report.
 */
module CycleErrors {
  import opened Text
  import opened Trees
  import opened Decode
  import opened Anchors

  /** Every scalar can be read and every `<<` names mappings. */
  ghost predicate Legible(g: Graph) {
    && (forall x :: 0 <= x < |g| && g[x].kind.Scalar? ==> g[x].scalar.Some?)
    && (forall x, i :: 0 <= x < |g| && g[x].kind.Mapping? && 0 <= i < PairCount(g, x) && KeyOf(g, x, i) == MERGE_KEY ==>
          Sources(g, ValueOf(g, x, i)).Some?)
  }

  /** An alias names an anchored node, which is itself neither an alias nor a
      document, and a document holds no document. */
  ghost predicate Anchored(g: Graph) {
    forall x :: 0 <= x < |g| ==>
      && (g[x].kind.Alias? ==> !Is(g, g[x].alias, Alias) && !Is(g, g[x].alias, Document))
      && (g[x].kind.Document? && g[x].content != [] ==> !Is(g, g[x].content[0], Document))
  }

  /** The containers that are not being decoded. */
  ghost function Closed(g: Graph, active: set<nat>): set<nat> {
    set x: nat | x < |g| && Container(g, x) && x !in active
  }

  lemma {:induction false} ClosedShrinks(g: Graph, active: set<nat>, x: nat)
    requires Container(g, x) && x !in active
    ensures |Closed(g, active + {x})| == |Closed(g, active)| - 1
  {
    assert Closed(g, active) == Closed(g, active + {x}) + {x};
  }

  /** How many steps lead from a node into the container or scalar it stands for. */
  function Lead(g: Graph, id: nat): nat { if Is(g, id, Document) then 3 else if Is(g, id, Alias) then 2 else 1 }

  /** The steps still to spare at a node: four for each container not yet open, and
      those that lead into one. */
  ghost predicate Spare(g: Graph, depth: nat, active: set<nat>, more: nat) {
    depth + 4 * |Closed(g, active)| + more <= MAX_DEPTH
  }

  ghost predicate Fine(g: Graph) { Legible(g) && Anchored(g) }

  /** A value, or the cycle error. */
  predicate CycleOnly<T>(r: Result<T>) { r.Ok? || r.error == AliasCycle }

  lemma {:induction false} NodeErrs(g: Graph, id: nat, depth: nat, active: set<nat>)
    requires Fine(g) && depth <= MAX_DEPTH && Spare(g, depth, active, Lead(g, id))
    ensures CycleOnly(DecodeNode(g, id, depth, active))
    decreases MAX_DEPTH - depth, 0, 0
  {
    hide DecodeMapping, DecodeItems, Closed, Legible;
    if !Nothing(g, id) {
      match g[id].kind {
        case Document => if g[id].content != [] { NodeErrs(g, g[id].content[0], depth + 1, active); }
        case Alias => NodeErrs(g, g[id].alias, depth + 1, active);
        case Mapping =>
          if id !in active {
            ClosedShrinks(g, active, id);
            MappingErrs(g, id, [], depth + 1, active + {id});
          }
        case Sequence =>
          if id !in active {
            ClosedShrinks(g, active, id);
            ItemsErr(g, g[id].content, depth + 1, active + {id});
          }
        case Scalar => ScalarReads(g, id);
      }
    }
  }

  lemma {:induction false} ScalarReads(g: Graph, id: nat)
    requires Legible(g) && Is(g, id, Scalar)
    ensures g[id].scalar.Some?
  {
  }

  lemma {:induction false} ItemsErr(g: Graph, items: seq<nat>, depth: nat, active: set<nat>)
    requires Fine(g) && depth <= MAX_DEPTH && Spare(g, depth, active, 3)
    ensures CycleOnly(DecodeItems(g, items, depth, active))
    decreases MAX_DEPTH - depth, 1, |items|
  {
    hide DecodeNode, Closed, Fine;
    if items != [] {
      ItemsErr(g, items[..|items| - 1], depth, active);
      NodeErrs(g, items[|items| - 1], depth, active);
    }
  }

  lemma {:induction false} MappingErrs(g: Graph, id: nat, out: seq<Entry>, depth: nat, active: set<nat>)
    requires Fine(g) && Is(g, id, Mapping) && depth <= MAX_DEPTH && Spare(g, depth, active, 4)
    ensures CycleOnly(DecodeMapping(g, id, out, depth, active))
    decreases MAX_DEPTH - depth, 0, 0
  {
    hide DecodePairs, Closed, Fine;
    PairsErr(g, id, out, PairCount(g, id), depth + 1, active);
  }

  lemma {:induction false} PairsErr(g: Graph, id: nat, out: seq<Entry>, n: nat, depth: nat, active: set<nat>)
    requires n <= PairCount(g, id)
    requires Fine(g) && Is(g, id, Mapping) && depth <= MAX_DEPTH && Spare(g, depth, active, 3)
    ensures CycleOnly(DecodePairs(g, id, out, n, depth, active))
    decreases MAX_DEPTH - depth, 3, n
  {
    hide DecodePair, Closed, Fine, Spare;
    if n > 0 {
      PairsErr(g, id, out, n - 1, depth, active);
      if DecodePairs(g, id, out, n - 1, depth, active).Ok? {
        PairErrs(g, id, DecodePairs(g, id, out, n - 1, depth, active).value, n - 1, depth, active);
      }
    }
  }

  lemma {:induction false} PairErrs(g: Graph, id: nat, out: seq<Entry>, i: nat, depth: nat, active: set<nat>)
    requires i < PairCount(g, id)
    requires Fine(g) && Is(g, id, Mapping) && depth <= MAX_DEPTH && Spare(g, depth, active, 3)
    ensures CycleOnly(DecodePair(g, id, out, i, depth, active))
    decreases MAX_DEPTH - depth, 2
  {
    hide DecodeNode, DecodeSources, Closed, Applied, Sources, KeyOf, Anchored;
    if KeyOf(g, id, i) == MERGE_KEY {
      var sources := Sources(g, ValueOf(g, id, i));
      SourcesRead(g, id, i);
      SourcesErr(g, sources.value, out, depth, active);
    } else {
      NodeErrs(g, ValueOf(g, id, i), depth, active);
    }
  }

  lemma {:induction false} SourcesRead(g: Graph, id: nat, i: nat)
    requires Fine(g) && Is(g, id, Mapping) && i < PairCount(g, id) && KeyOf(g, id, i) == MERGE_KEY
    ensures Sources(g, ValueOf(g, id, i)).Some?
    ensures forall s :: s in Sources(g, ValueOf(g, id, i)).value ==> Is(g, s, Mapping)
  {
    TargetsAreMappings(g, Named(g, ValueOf(g, id, i)));
    hide Targets, KeyName, Named, Anchored;
  }

  lemma {:induction false} SourcesErr(g: Graph, sources: seq<nat>, out: seq<Entry>, depth: nat, active: set<nat>)
    requires Fine(g) && (forall s :: s in sources ==> Is(g, s, Mapping))
    requires depth <= MAX_DEPTH && Spare(g, depth, active, 3)
    ensures CycleOnly(DecodeSources(g, sources, out, depth, active))
    decreases MAX_DEPTH - depth, 1, |sources|
  {
    hide DecodeMapping, Closed, Fine;
    if sources != [] {
      var front, s := sources[..|sources| - 1], sources[|sources| - 1];
      SourcesErr(g, front, out, depth, active);
      var before := DecodeSources(g, front, out, depth, active);
      if before.Ok? && s !in active {
        ClosedShrinks(g, active, s);
        MappingErrs(g, s, before.value, depth, active + {s});
      }
    }
  }

  /** In a graph whose scalars and merges can be read, whose aliases name anchored
      nodes and whose containers are few against the step budget, a document is refused with
      the alias cycle error exactly when a container below its root is reachable
      from itself, and otherwise decodes. */
  lemma {:induction false} CycleErrorExactlyWhen(g: Graph, root: nat)
    requires Legible(g) && Anchored(g) && 4 * |Closed(g, {})| + 3 <= MAX_DEPTH
    ensures DecodeNode(g, root, 0, {}) == Err(AliasCycle) <==> CycleBelow(g, root)
    ensures DecodeNode(g, root, 0, {}).Ok? <==> !CycleBelow(g, root)
  {
    hide DecodeNode, Closed, CycleBelow, Legible, Anchored;
    NodeErrs(g, root, 0, {});
    CyclesAreRefused(g, root);
  }
}
