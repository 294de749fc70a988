/**
 Decoding a YAML node graph: what the walk answers at every step, and the tree
 a finite graph unfolds to. A pointer is an index into the graph, and an index
 past its end is the nil pointer.
 */
module Decode {
  import opened Text
  import opened Trees

  const MAX_DEPTH: nat := 1000

  type Leaf = v: Value | !v.List? && !v.Map? witness Null

  datatype Kind = Zero | Document | Mapping | Sequence | Scalar | Alias

  /** `scalar` is what reading the node as a scalar gives, or None when the
      literal is refused. */
  datatype Node = Node(kind: Kind, content: seq<nat>, alias: nat, text: string, scalar: Option<Leaf>)

  type Graph = seq<Node>

  datatype Refusal = AliasCycle | TooDeep | BadMerge | BadScalar

  datatype Result<T> = Ok(value: T) | Err(error: Refusal)

  predicate Is(g: Graph, id: nat, kind: Kind) { id < |g| && g[id].kind == kind }

  predicate Nothing(g: Graph, id: nat) { id >= |g| || g[id].kind.Zero? }

  predicate Container(g: Graph, id: nat) { Is(g, id, Mapping) || Is(g, id, Sequence) }

  /* ---- keys and merge sources ---- */

  /** The text of one mapping key, aliases followed. */
  function KeyName(g: Graph, id: nat, hops: nat): string
    decreases MAX_DEPTH + 1 - hops
  {
    if id >= |g| then ""
    else if g[id].kind.Alias? then
      if hops > MAX_DEPTH then "" else KeyName(g, g[id].alias, hops + 1)
    else g[id].text
  }

  function PairCount(g: Graph, id: nat): nat { if id < |g| then |g[id].content| / 2 else 0 }

  function KeyOf(g: Graph, id: nat, i: nat): string
    requires i < PairCount(g, id)
  {
    KeyName(g, g[id].content[2 * i], 0)
  }

  function ValueOf(g: Graph, id: nat, i: nat): nat
    requires i < PairCount(g, id)
  {
    g[id].content[2 * i + 1]
  }

  const MERGE_KEY := "<<"

  predicate HoldsMergeKey(g: Graph, id: nat) {
    exists i :: 0 <= i < PairCount(g, id) && KeyOf(g, id, i) == MERGE_KEY
  }

  /** The nodes one `<<` names: the alias itself, or a sequence's items from
      last to first. */
  function Named(g: Graph, id: nat): seq<nat> {
    if Is(g, id, Alias) then [id]
    else if Is(g, id, Sequence) then Backwards(g[id].content)
    else []
  }

  function Backwards(ids: seq<nat>): seq<nat> {
    seq(|ids|, k requires 0 <= k < |ids| => ids[|ids| - 1 - k])
  }

  /** The alias targets among the first `n` named nodes, all of which have to be
      mappings. */
  function Targets(g: Graph, named: seq<nat>): Option<seq<nat>> {
    if named == [] then Some([])
    else
      var front, last := Targets(g, named[..|named| - 1]), named[|named| - 1];
      if front.None? || !Is(g, last, Alias) then front
      else if Is(g, g[last].alias, Mapping) then Some(front.value + [g[last].alias])
      else None
  }

  function Sources(g: Graph, id: nat): Option<seq<nat>> { Targets(g, Named(g, id)) }

  lemma {:induction false} TargetsAreMappings(g: Graph, named: seq<nat>)
    requires Targets(g, named).Some?
    ensures forall s :: s in Targets(g, named).value ==> Is(g, s, Mapping)
  {
    if named != [] {
      TargetsAreMappings(g, named[..|named| - 1]);
    }
  }

  /* ---- the walk ---- */

  /** The value of a node reached `depth` steps down, inside the containers of
      `active`. */
  function DecodeNode(g: Graph, id: nat, depth: nat, active: set<nat>): Result<Value>
    decreases MAX_DEPTH - depth, 0
  {
    if Nothing(g, id) then Ok(Null)
    else if depth >= MAX_DEPTH then Err(TooDeep)
    else
      match g[id].kind
      case Document => if g[id].content == [] then Ok(Null) else DecodeNode(g, g[id].content[0], depth + 1, active)
      case Alias => DecodeNode(g, g[id].alias, depth + 1, active)
      case Mapping =>
        if id in active then Err(AliasCycle)
        else
          match DecodeMapping(g, id, [], depth + 1, active + {id}) {
            case Ok(es) => Ok(Map(es))
            case Err(e) => Err(e)
          }
      case Sequence =>
        if id in active then Err(AliasCycle)
        else
          match DecodeItems(g, g[id].content, depth + 1, active + {id}) {
            case Ok(vs) => Ok(List(vs))
            case Err(e) => Err(e)
          }
      case _ => if g[id].scalar.Some? then Ok(g[id].scalar.value) else Err(BadScalar)
  }

  function DecodeItems(g: Graph, items: seq<nat>, depth: nat, active: set<nat>): Result<seq<Value>>
    decreases MAX_DEPTH - depth, 1, |items|
  {
    if items == [] then Ok([])
    else
      match DecodeItems(g, items[..|items| - 1], depth, active)
      case Err(e) => Err(e)
      case Ok(vs) =>
        match DecodeNode(g, items[|items| - 1], depth, active) {
          case Err(e) => Err(e)
          case Ok(v) => Ok(vs + [v])
        }
  }

  /** What writing a mapping's pairs after `out` gives. */
  function DecodeMapping(g: Graph, id: nat, out: seq<Entry>, depth: nat, active: set<nat>): Result<seq<Entry>>
    decreases MAX_DEPTH - depth, 0
  {
    if depth >= MAX_DEPTH then Err(TooDeep)
    else DecodePairs(g, id, out, PairCount(g, id), depth + 1, active)
  }

  function DecodePairs(g: Graph, id: nat, out: seq<Entry>, n: nat, depth: nat, active: set<nat>): Result<seq<Entry>>
    requires n <= PairCount(g, id)
    decreases MAX_DEPTH - depth, 3, n
  {
    if n == 0 then Ok(out)
    else
      match DecodePairs(g, id, out, n - 1, depth, active)
      case Err(e) => Err(e)
      case Ok(es) => DecodePair(g, id, es, n - 1, depth, active)
  }

  function DecodePair(g: Graph, id: nat, out: seq<Entry>, i: nat, depth: nat, active: set<nat>): Result<seq<Entry>>
    requires i < PairCount(g, id)
    decreases MAX_DEPTH - depth, 2
  {
    if KeyOf(g, id, i) == MERGE_KEY then
      match Sources(g, ValueOf(g, id, i))
      case None => Err(BadMerge)
      case Some(sources) => DecodeSources(g, sources, out, depth, active)
    else
      match DecodeNode(g, ValueOf(g, id, i), depth, active)
      case Err(e) => Err(e)
      case Ok(v) => Ok(Applied(out, Write(KeyOf(g, id, i), v, HoldsMergeKey(g, id))))
  }

  function DecodeSources(g: Graph, sources: seq<nat>, out: seq<Entry>, depth: nat, active: set<nat>): Result<seq<Entry>>
    decreases MAX_DEPTH - depth, 1, |sources|
  {
    if sources == [] then Ok(out)
    else
      match DecodeSources(g, sources[..|sources| - 1], out, depth, active)
      case Err(e) => Err(e)
      case Ok(es) =>
        var s := sources[|sources| - 1];
        if s in active then Err(AliasCycle) else DecodeMapping(g, s, es, depth, active + {s})
  }

  /* ---- writes ---- */

  /** One key written, keeping a repeated key's position or moving it last. */
  datatype Write = Write(key: string, val: Value, last: bool)

  function Applied(es: seq<Entry>, w: Write): seq<Entry> {
    if w.last then PutLast(es, w.key, w.val) else Put(es, w.key, w.val)
  }

  function AllApplied(es: seq<Entry>, ws: seq<Write>): seq<Entry> {
    if ws == [] then es else Applied(AllApplied(es, ws[..|ws| - 1]), ws[|ws| - 1])
  }

  lemma {:induction false} AppliedSnoc(es: seq<Entry>, ws: seq<Write>, w: Write)
    ensures AllApplied(es, ws + [w]) == Applied(AllApplied(es, ws), w)
    ensures AllApplied(es, []) == es
  {
    hide Applied;
    assert (ws + [w])[..|ws|] == ws;
  }

  lemma {:induction false} AppliedTwice(es: seq<Entry>, a: seq<Write>, b: seq<Write>)
    ensures AllApplied(es, a + b) == AllApplied(AllApplied(es, a), b)
  {
    hide Applied, AllApplied;
    if b == [] {
      assert a + b == a;
      NoWrites(AllApplied(es, a));
    } else {
      var front, w := b[..|b| - 1], b[|b| - 1];
      AppliedTwice(es, a, front);
      assert front + [w] == b && a + front + [w] == a + b;
      AppliedSnoc(es, a + front, w);
      AppliedSnoc(AllApplied(es, a), front, w);
    }
  }

  /* ---- the unfolding ---- */

  /** The node unfolds to a finite tree in at most `f` steps, every alias, item,
      value and merge source being one step below what names it. */
  ghost predicate Fits(g: Graph, id: nat, f: nat)
    decreases f, 0
  {
    Nothing(g, id) ||
    (f > 0 &&
     match g[id].kind
     case Document => g[id].content == [] || Fits(g, g[id].content[0], f - 1)
     case Alias => Fits(g, g[id].alias, f - 1)
     case Mapping => FitsMapping(g, id, f - 1)
     case Sequence => AllFit(g, g[id].content, f - 1)
     case _ => g[id].scalar.Some?)
  }

  ghost predicate AllFit(g: Graph, items: seq<nat>, f: nat)
    decreases f, 1
  {
    forall i :: 0 <= i < |items| ==> Fits(g, items[i], f)
  }

  ghost predicate FitsMapping(g: Graph, id: nat, f: nat)
    decreases f, 0
  {
    f > 0 && PairsFit(g, id, PairCount(g, id), f - 1)
  }

  ghost predicate PairsFit(g: Graph, id: nat, n: nat, f: nat)
    requires n <= PairCount(g, id)
    decreases f, 3
  {
    forall i :: 0 <= i < n ==> FitsPair(g, id, i, f)
  }

  ghost predicate FitsPair(g: Graph, id: nat, i: nat, f: nat)
    requires i < PairCount(g, id)
    decreases f, 2
  {
    if KeyOf(g, id, i) == MERGE_KEY then
      Sources(g, ValueOf(g, id, i)).Some? && AllFitMapping(g, Sources(g, ValueOf(g, id, i)).value, f)
    else
      Fits(g, ValueOf(g, id, i), f)
  }

  ghost predicate AllFitMapping(g: Graph, sources: seq<nat>, f: nat)
    decreases f, 1
  {
    forall i :: 0 <= i < |sources| ==> FitsMapping(g, sources[i], f)
  }

  /** The tree a node unfolds to. */
  ghost function Unfold(g: Graph, id: nat, f: nat): Value
    requires Fits(g, id, f)
    decreases f, 0
  {
    if id >= |g| then Null
    else
      match g[id].kind
      case Zero => Null
      case Document => if g[id].content == [] then Null else Unfold(g, g[id].content[0], f - 1)
      case Alias => Unfold(g, g[id].alias, f - 1)
      case Mapping => Map(AllApplied([], Writes(g, id, f - 1)))
      case Sequence => List(UnfoldAll(g, g[id].content, f - 1))
      case Scalar => g[id].scalar.value
  }

  ghost function UnfoldAll(g: Graph, items: seq<nat>, f: nat): seq<Value>
    requires AllFit(g, items, f)
    decreases f, 1
  {
    seq(|items|, k requires 0 <= k < |items| => Unfold(g, items[k], f))
  }

  /** The writes a mapping stands for, in order: a plain pair is one write, and
      a merge key is the writes of each of its sources. */
  ghost function Writes(g: Graph, id: nat, f: nat): seq<Write>
    requires FitsMapping(g, id, f)
    decreases f, 0
  {
    WritesTo(g, id, PairCount(g, id), f - 1)
  }

  ghost function WritesTo(g: Graph, id: nat, n: nat, f: nat): seq<Write>
    requires n <= PairCount(g, id) && PairsFit(g, id, n, f)
    decreases f, 4, n
  {
    if n == 0 then [] else WritesTo(g, id, n - 1, f) + PairWrites(g, id, n - 1, f)
  }

  ghost function PairWrites(g: Graph, id: nat, i: nat, f: nat): seq<Write>
    requires i < PairCount(g, id) && FitsPair(g, id, i, f)
    decreases f, 2
  {
    if KeyOf(g, id, i) == MERGE_KEY then SourceWrites(g, Sources(g, ValueOf(g, id, i)).value, f)
    else [Write(KeyOf(g, id, i), Unfold(g, ValueOf(g, id, i), f), HoldsMergeKey(g, id))]
  }

  ghost function SourceWrites(g: Graph, sources: seq<nat>, f: nat): seq<Write>
    requires AllFitMapping(g, sources, f)
    decreases f, 1, |sources|
  {
    if sources == [] then []
    else SourceWrites(g, sources[..|sources| - 1], f) + Writes(g, sources[|sources| - 1], f)
  }

  /* ---- success is the unfolding ---- */

  lemma {:induction false} NodeUnfolds(g: Graph, id: nat, depth: nat, active: set<nat>)
    requires depth <= MAX_DEPTH && DecodeNode(g, id, depth, active).Ok?
    ensures Fits(g, id, MAX_DEPTH - depth)
    ensures DecodeNode(g, id, depth, active) == Ok(Unfold(g, id, MAX_DEPTH - depth))
    decreases MAX_DEPTH - depth, 0
  {
    hide Writes, AllFit, FitsMapping, DecodeMapping, DecodeItems, UnfoldAll;
    if !Nothing(g, id) {
      match g[id].kind {
        case Document => if g[id].content != [] { NodeUnfolds(g, g[id].content[0], depth + 1, active); }
        case Alias => NodeUnfolds(g, g[id].alias, depth + 1, active);
        case Mapping => MappingUnfolds(g, id, [], depth + 1, active + {id});
        case Sequence => ItemsUnfold(g, g[id].content, depth + 1, active + {id});
        case Scalar =>
      }
    }
  }

  lemma {:induction false} ItemsUnfold(g: Graph, items: seq<nat>, depth: nat, active: set<nat>)
    requires depth <= MAX_DEPTH && DecodeItems(g, items, depth, active).Ok?
    ensures AllFit(g, items, MAX_DEPTH - depth)
    ensures DecodeItems(g, items, depth, active) == Ok(UnfoldAll(g, items, MAX_DEPTH - depth))
    decreases MAX_DEPTH - depth, 1, |items|
  {
    hide Fits, Unfold, DecodeNode;
    var f := MAX_DEPTH - depth;
    if items == [] {
      assert UnfoldAll(g, items, f) == [];
    } else {
      var front, last := items[..|items| - 1], items[|items| - 1];
      ItemsUnfold(g, front, depth, active);
      NodeUnfolds(g, last, depth, active);
      assert forall i :: 0 <= i < |front| ==> items[i] == front[i];
      assert UnfoldAll(g, items, f) == UnfoldAll(g, front, f) + [Unfold(g, last, f)];
    }
  }

  lemma {:induction false} MappingUnfolds(g: Graph, id: nat, out: seq<Entry>, depth: nat, active: set<nat>)
    requires depth <= MAX_DEPTH && DecodeMapping(g, id, out, depth, active).Ok?
    ensures FitsMapping(g, id, MAX_DEPTH - depth)
    ensures DecodeMapping(g, id, out, depth, active) == Ok(AllApplied(out, Writes(g, id, MAX_DEPTH - depth)))
    decreases MAX_DEPTH - depth, 0
  {
    hide PairsFit, DecodePairs, WritesTo, AllApplied;
    PairsUnfold(g, id, out, PairCount(g, id), depth + 1, active);
  }

  lemma {:induction false} PairsUnfold(g: Graph, id: nat, out: seq<Entry>, n: nat, depth: nat, active: set<nat>)
    requires n <= PairCount(g, id)
    requires depth <= MAX_DEPTH && DecodePairs(g, id, out, n, depth, active).Ok?
    ensures PairsFit(g, id, n, MAX_DEPTH - depth)
    ensures DecodePairs(g, id, out, n, depth, active) == Ok(AllApplied(out, WritesTo(g, id, n, MAX_DEPTH - depth)))
    decreases MAX_DEPTH - depth, 3, n
  {
    hide FitsPair, DecodePair, PairWrites, AllApplied;
    if n == 0 {
      NoWrites(out);
    } else {
      var f := MAX_DEPTH - depth;
      PairsUnfold(g, id, out, n - 1, depth, active);
      var es := AllApplied(out, WritesTo(g, id, n - 1, f));
      PairUnfolds(g, id, es, n - 1, depth, active);
      AppliedTwice(out, WritesTo(g, id, n - 1, f), PairWrites(g, id, n - 1, f));
    }
  }

  lemma {:induction false} NoWrites(es: seq<Entry>)
    ensures AllApplied(es, []) == es
  {
  }

  lemma {:induction false} PairUnfolds(g: Graph, id: nat, out: seq<Entry>, i: nat, depth: nat, active: set<nat>)
    requires i < PairCount(g, id)
    requires depth <= MAX_DEPTH && DecodePair(g, id, out, i, depth, active).Ok?
    ensures FitsPair(g, id, i, MAX_DEPTH - depth)
    ensures DecodePair(g, id, out, i, depth, active) == Ok(AllApplied(out, PairWrites(g, id, i, MAX_DEPTH - depth)))
    decreases MAX_DEPTH - depth, 2
  {
    hide DecodeSources, DecodeNode, AllFitMapping, SourceWrites, KeyOf, Sources, HoldsMergeKey, Applied;
    if KeyOf(g, id, i) == MERGE_KEY {
      SourcesUnfold(g, Sources(g, ValueOf(g, id, i)).value, out, depth, active);
    } else {
      NodeUnfolds(g, ValueOf(g, id, i), depth, active);
      OneWrite(out, Write(KeyOf(g, id, i), Unfold(g, ValueOf(g, id, i), MAX_DEPTH - depth), HoldsMergeKey(g, id)));
      hide Unfold, Fits;
    }
  }

  lemma {:induction false} OneWrite(es: seq<Entry>, w: Write)
    ensures AllApplied(es, [w]) == Applied(es, w)
  {
    hide Applied;
    assert [w][..0] == [];
  }

  lemma {:induction false} SourcesUnfold(g: Graph, sources: seq<nat>, out: seq<Entry>, depth: nat, active: set<nat>)
    requires depth <= MAX_DEPTH && DecodeSources(g, sources, out, depth, active).Ok?
    ensures AllFitMapping(g, sources, MAX_DEPTH - depth)
    ensures DecodeSources(g, sources, out, depth, active) == Ok(AllApplied(out, SourceWrites(g, sources, MAX_DEPTH - depth)))
    decreases MAX_DEPTH - depth, 1, |sources|
  {
    hide DecodeMapping, FitsMapping, Writes, AllApplied;
    if sources == [] {
      NoWrites(out);
    } else {
      var front, s, f := sources[..|sources| - 1], sources[|sources| - 1], MAX_DEPTH - depth;
      SourcesUnfold(g, front, out, depth, active);
      var es := AllApplied(out, SourceWrites(g, front, f));
      MappingUnfolds(g, s, es, depth, active + {s});
      AppliedTwice(out, SourceWrites(g, front, f), Writes(g, s, f));
      assert forall i :: 0 <= i < |front| ==> sources[i] == front[i];
    }
  }
}
