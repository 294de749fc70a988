/**
 The decoder itself: one depth budget and one active set carried through every
 recursive path and given back on every return, writing into objects in place.
 */
module Decoder {
  import opened Text
  import opened Trees
  import opened Objects
  import opened Decode
  import Merger

  class DecodeState {
    var depth: nat
    var active: set<nat>

    constructor ()
      ensures depth == 0 && active == {}
    {
      depth, active := 0, {};
    }

    method Enter() returns (ok: bool)
      modifies this`depth
      ensures ok <==> old(depth) < MAX_DEPTH
      ensures depth == if ok then old(depth) + 1 else old(depth)
    {
      ok := depth < MAX_DEPTH;
      if ok { depth := depth + 1; }
    }

    method Leave()
      requires depth > 0
      modifies this`depth
      ensures depth == old(depth) - 1
    {
      depth := depth - 1;
    }

    method Open(id: nat) returns (ok: bool)
      modifies this`active
      ensures ok <==> id !in old(active)
      ensures active == old(active) + {id}
    {
      ok := id !in active;
      active := active + {id};
    }

    method Close(id: nat)
      modifies this`active
      ensures active == old(active) - {id}
    {
      active := active - {id};
    }
  }

  /* ---- keys and sources ---- */

  method ReadKeyName(g: Graph, key: nat) returns (name: string)
    ensures name == KeyName(g, key, 0)
  {
    var id: nat, hops: nat := key, 0;
    while Is(g, id, Alias)
      invariant hops <= MAX_DEPTH + 1 && KeyName(g, id, hops) == KeyName(g, key, 0)
      decreases MAX_DEPTH + 1 - hops
    {
      if hops > MAX_DEPTH {
        return "";
      }
      id, hops := g[id].alias, hops + 1;
    }
    return if id >= |g| then "" else g[id].text;
  }

  method WritesMergeKey(g: Graph, id: nat) returns (holds: bool)
    ensures holds == HoldsMergeKey(g, id)
  {
    for i := 0 to PairCount(g, id)
      invariant forall j :: 0 <= j < i ==> KeyOf(g, id, j) != MERGE_KEY
    {
      var name := ReadKeyName(g, g[id].content[2 * i]);
      assert name == KeyOf(g, id, i);
      if name == MERGE_KEY {
        return true;
      }
    }
    return false;
  }

  method MergeSources(g: Graph, id: nat) returns (sources: Option<seq<nat>>)
    ensures sources == Sources(g, id)
  {
    var named := [];
    if Is(g, id, Alias) {
      named := [id];
    } else if Is(g, id, Sequence) {
      var items := g[id].content;
      for i := |items| downto 0
        invariant named == Backwards(items)[..|items| - i]
      {
        named := named + [items[i]];
      }
    } else {
      return Some([]);
    }
    assert named == Named(g, id);
    var found := [];
    assert named[..0] == [];
    for i := 0 to |named|
      invariant Targets(g, named[..i]) == Some(found)
    {
      var candidate := named[i];
      assert named[..i + 1][..i] == named[..i];
      if Is(g, candidate, Alias) {
        var target := g[candidate].alias;
        if !Is(g, target, Mapping) {
          TargetsFail(g, named, i + 1);
          return None;
        }
        found := found + [target];
      }
    }
    assert named[..|named|] == named;
    return Some(found);
  }

  lemma {:induction false} TargetsFail(g: Graph, named: seq<nat>, i: nat)
    requires i <= |named| && Targets(g, named[..i]).None?
    ensures Targets(g, named).None?
  {
    if i == |named| {
      assert named[..i] == named;
    } else {
      assert named[..|named| - 1][..i] == named[..i];
      TargetsFail(g, named[..|named| - 1], i);
    }
  }

  /* ---- values ---- */

  function ReadScalar(v: Leaf): (a: Any)
    ensures Refs(a) == {} && Tree(map[], a) == v
  {
    match v
    case Null => Nil
    case Bool(b) => Flag(b)
    case Number(literal) => Num(literal)
    case Text(text) => Str(text)
  }

  /** The result is what the walk answers, held in a set of its own. */
  ghost predicate Answers(r: Result<Any>, T: set<Object>, spec: Result<Value>)
    reads T
  {
    match spec
    case Err(e) => r == Err(e)
    case Ok(v) => r.Ok? && Merger.Closed(T) && Refs(r.value) <= T && Tree(Snap(T), r.value) == v
  }

  ghost predicate ItemsAnswer(r: Result<seq<Any>>, T: set<Object>, spec: Result<seq<Value>>)
    reads T
  {
    match spec
    case Err(e) => r == Err(e)
    case Ok(vs) => r.Ok? && Merger.Closed(T) && AllRefs(r.value) <= T && AllTrees(Snap(T), r.value) == vs
  }

  /** The object being written holds what the walk answers. */
  ghost predicate Wrote(r: Option<Refusal>, T: set<Object>, out: Object, spec: Result<seq<Entry>>)
    reads T
  {
    match spec
    case Err(e) => r == Some(e)
    case Ok(es) => r.None? && Merger.Holds(T, out, es)
  }

  lemma {:induction false} ItemsAnswered(r: Result<seq<Any>>, T: set<Object>, spec: Result<seq<Value>>)
    requires ItemsAnswer(r, T, spec)
    ensures Answers(if r.Ok? then Ok(Items(r.value)) else Err(r.error), T, if spec.Ok? then Ok(List(spec.value)) else Err(spec.error))
  {
    hide ClosedIn;
  }

  lemma {:induction false} MappingAnswered(r: Option<Refusal>, T: set<Object>, out: Object, spec: Result<seq<Entry>>)
    requires Wrote(r, T, out, spec)
    ensures Answers(if r.None? then Ok(Ref(out)) else Err(r.value), T, if spec.Ok? then Ok(Map(spec.value)) else Err(spec.error))
  {
    hide ClosedIn, RootIn;
  }

  lemma {:induction false} LeafAnswered(v: Leaf)
    ensures Answers(Ok(ReadScalar(v)), {}, Ok(v))
  {
    Merger.NothingClosed();
  }

  /* ---- the walk ---- */

  method ReadNode(g: Graph, id: nat, s: DecodeState) returns (r: Result<Any>, ghost T: set<Object>)
    requires s.depth <= MAX_DEPTH
    modifies s
    ensures s.depth == old(s.depth) && s.active == old(s.active)
    ensures fresh(T) && Answers(r, T, DecodeNode(g, id, old(s.depth), old(s.active)))
    decreases MAX_DEPTH - s.depth, 0, 0
  {
    hide Answers, ItemsAnswer, Wrote, DecodeItems, DecodeMapping;
    T := {};
    if Nothing(g, id) {
      r := Ok(ReadScalar(Null));
      LeafAnswered(Null);
      return;
    }
    var entered := s.Enter();
    if !entered {
      r := Err(TooDeep);
      Refused(TooDeep);
      return;
    }
    match g[id].kind {
      case Document =>
        if g[id].content == [] {
          r := Ok(ReadScalar(Null));
          LeafAnswered(Null);
        } else {
          r, T := ReadNode(g, g[id].content[0], s);
        }
      case Alias =>
        r, T := ReadNode(g, g[id].alias, s);
      case Mapping =>
        r, T := ReadMapping(g, id, s);
      case Sequence =>
        var unseen := s.Open(id);
        if unseen {
          var items, U := ReadItems(g, g[id].content, s);
          s.Close(id);
          ItemsAnswered(items, U, DecodeItems(g, g[id].content, old(s.depth) + 1, old(s.active) + {id}));
          r, T := if items.Ok? then Ok(Items(items.value)) else Err(items.error), U;
        } else {
          r := Err(AliasCycle);
          Refused(AliasCycle);
        }
      case Scalar =>
        if g[id].scalar.Some? {
          r := Ok(ReadScalar(g[id].scalar.value));
          LeafAnswered(g[id].scalar.value);
        } else {
          r := Err(BadScalar);
          Refused(BadScalar);
        }
    }
    s.Leave();
  }

  lemma {:induction false} Refused(e: Refusal)
    ensures Answers(Err(e), {}, Err(e))
  {
  }

  method ReadMapping(g: Graph, id: nat, s: DecodeState) returns (r: Result<Any>, ghost T: set<Object>)
    requires Is(g, id, Mapping) && 0 < s.depth <= MAX_DEPTH
    modifies s
    ensures s.depth == old(s.depth) && s.active == old(s.active)
    ensures fresh(T) && Answers(r, T, DecodeNode(g, id, old(s.depth) - 1, old(s.active)))
    decreases MAX_DEPTH - s.depth, 0, 1
  {
    hide Answers, Wrote, DecodeMapping;
    T := {};
    var unseen := s.Open(id);
    if !unseen {
      r := Err(AliasCycle);
      Refused(AliasCycle);
      return;
    }
    var out := new Object();
    Merger.NewHolds(out);
    var refusal, U := WriteMapping(g, id, out, s, {out}, []);
    s.Close(id);
    MappingAnswered(refusal, U, out, DecodeMapping(g, id, [], old(s.depth), old(s.active) + {id}));
    r, T := if refusal.None? then Ok(Ref(out)) else Err(refusal.value), U;
  }

  method ReadItems(g: Graph, items: seq<nat>, s: DecodeState) returns (r: Result<seq<Any>>, ghost T: set<Object>)
    requires s.depth <= MAX_DEPTH
    modifies s
    ensures s.depth == old(s.depth) && s.active == old(s.active)
    ensures fresh(T) && ItemsAnswer(r, T, DecodeItems(g, items, old(s.depth), old(s.active)))
    decreases MAX_DEPTH - s.depth, 1
  {
    hide Answers, ItemsAnswer, DecodeNode, DecodeItems;
    ghost var depth, active := s.depth, s.active;
    var out: seq<Any> := [];
    T := {};
    NoItemsAnswered(g, depth, active);
    assert items[..0] == [];
    for i := 0 to |items|
      invariant s.depth == depth && s.active == active && fresh(T)
      invariant ItemsAnswer(Ok(out), T, DecodeItems(g, items[..i], depth, active))
    {
      var v, V := ReadNode(g, items[i], s);
      ItemAnswered(g, items, i, out, T, v, V, depth, active);
      if v.Err? {
        r := Err(v.error);
        return;
      }
      out, T := out + [v.value], T + V;
    }
    assert items[..|items|] == items;
    r := Ok(out);
  }

  lemma {:induction false} NoItemsAnswered(g: Graph, depth: nat, active: set<nat>)
    ensures ItemsAnswer(Ok([]), {}, DecodeItems(g, [], depth, active))
  {
    Merger.NothingClosed();
    Merger.NoItems(Snap({}));
  }

  lemma {:induction false} ItemAnswered(g: Graph, items: seq<nat>, i: nat, out: seq<Any>, T: set<Object>,
      v: Result<Any>, V: set<Object>, depth: nat, active: set<nat>)
    requires i < |items| && T !! V
    requires ItemsAnswer(Ok(out), T, DecodeItems(g, items[..i], depth, active))
    requires Answers(v, V, DecodeNode(g, items[i], depth, active))
    ensures v.Ok? ==> ItemsAnswer(Ok(out + [v.value]), T + V, DecodeItems(g, items[..i + 1], depth, active))
    ensures v.Err? ==> ItemsAnswer(Err(v.error), T, DecodeItems(g, items, depth, active))
  {
    hide DecodeNode, Tree, Refs, ClosedIn, AllTrees, AllRefs;
    assert items[..i + 1][..i] == items[..i];
    if v.Ok? {
      SnapJoin(T, V);
      Merger.ClosedJoin(Snap(T), Snap(V));
      Merger.ItemsJoin(Snap(T), Snap(V), out, v.value);
    } else {
      ItemsFail(g, items, i + 1, depth, active);
    }
  }

  lemma {:induction false} ItemsFail(g: Graph, items: seq<nat>, i: nat, depth: nat, active: set<nat>)
    requires i <= |items| && DecodeItems(g, items[..i], depth, active).Err?
    ensures DecodeItems(g, items, depth, active) == DecodeItems(g, items[..i], depth, active)
    decreases |items|
  {
    hide DecodeNode;
    if i == |items| {
      assert items[..i] == items;
    } else {
      assert items[..|items| - 1][..i] == items[..i];
      ItemsFail(g, items[..|items| - 1], i, depth, active);
    }
  }

  /** Writes a mapping's pairs into `out`. */
  method WriteMapping(g: Graph, id: nat, out: Object, s: DecodeState, ghost T: set<Object>, ghost es: seq<Entry>)
    returns (refusal: Option<Refusal>, ghost U: set<Object>)
    requires s.depth <= MAX_DEPTH && Merger.Holds(T, out, es)
    modifies s, out
    ensures s.depth == old(s.depth) && s.active == old(s.active)
    ensures T <= U && fresh(U - T) && Wrote(refusal, U, out, DecodeMapping(g, id, es, old(s.depth), old(s.active)))
    decreases MAX_DEPTH - s.depth, 0, 0
  {
    hide Wrote, DecodePairs, DecodePair;
    U := T;
    var entered := s.Enter();
    if !entered {
      refusal := Some(TooDeep);
      WriteRefused(TooDeep, U, out);
      return;
    }
    ghost var depth, active := s.depth, s.active;
    var last := WritesMergeKey(g, id);
    NothingWritten(g, id, T, out, es, depth, active);
    for i := 0 to PairCount(g, id)
      invariant s.depth == depth && s.active == active
      invariant T <= U && fresh(U - T) && Wrote(None, U, out, DecodePairs(g, id, es, i, depth, active))
    {
      ghost var before := DecodePairs(g, id, es, i, depth, active);
      WroteHolds(U, out, before);
      refusal, U := WritePair(g, id, i, last, out, s, U, before.value);
      PairWritten(g, id, es, i, refusal, U, out, depth, active);
      if refusal.Some? {
        s.Leave();
        return;
      }
    }
    refusal := None;
    s.Leave();
  }

  lemma {:induction false} WriteRefused(e: Refusal, T: set<Object>, out: Object)
    ensures Wrote(Some(e), T, out, Err(e))
  {
  }

  lemma {:induction false} NothingWritten(g: Graph, id: nat, T: set<Object>, out: Object, es: seq<Entry>,
      depth: nat, active: set<nat>)
    requires Merger.Holds(T, out, es)
    ensures Wrote(None, T, out, DecodePairs(g, id, es, 0, depth, active))
  {
    hide ClosedIn, RootIn;
  }

  lemma {:induction false} WroteHolds(T: set<Object>, out: Object, spec: Result<seq<Entry>>)
    requires Wrote(None, T, out, spec)
    ensures spec.Ok? && Merger.Holds(T, out, spec.value)
  {
    hide ClosedIn, RootIn;
  }

  lemma {:induction false} PairWritten(g: Graph, id: nat, es: seq<Entry>, i: nat, refusal: Option<Refusal>,
      U: set<Object>, out: Object, depth: nat, active: set<nat>)
    requires i < PairCount(g, id) && DecodePairs(g, id, es, i, depth, active).Ok?
    requires Wrote(refusal, U, out, DecodePair(g, id, DecodePairs(g, id, es, i, depth, active).value, i, depth, active))
    ensures refusal.None? ==> Wrote(None, U, out, DecodePairs(g, id, es, i + 1, depth, active))
    ensures refusal.Some? ==> Wrote(refusal, U, out, DecodePairs(g, id, es, PairCount(g, id), depth, active))
  {
    hide DecodePair, ClosedIn, RootIn;
    if refusal.Some? {
      PairsFail(g, id, es, i + 1, PairCount(g, id), depth, active);
    }
  }

  lemma {:induction false} PairsFail(g: Graph, id: nat, out: seq<Entry>, i: nat, n: nat, depth: nat, active: set<nat>)
    requires i <= n <= PairCount(g, id) && DecodePairs(g, id, out, i, depth, active).Err?
    ensures DecodePairs(g, id, out, n, depth, active) == DecodePairs(g, id, out, i, depth, active)
    decreases n
  {
    hide DecodePair;
    if i < n {
      PairsFail(g, id, out, i, n - 1, depth, active);
    }
  }

  method WritePair(g: Graph, id: nat, i: nat, last: bool, out: Object, s: DecodeState, ghost T: set<Object>,
      ghost es: seq<Entry>)
    returns (refusal: Option<Refusal>, ghost U: set<Object>)
    requires i < PairCount(g, id) && last == HoldsMergeKey(g, id)
    requires s.depth <= MAX_DEPTH && Merger.Holds(T, out, es)
    modifies s, out
    ensures s.depth == old(s.depth) && s.active == old(s.active)
    ensures T <= U && fresh(U - T) && Wrote(refusal, U, out, DecodePair(g, id, es, i, old(s.depth), old(s.active)))
    decreases MAX_DEPTH - s.depth, 2
  {
    hide Wrote, Answers, DecodeNode, DecodeSources, Sources, HoldsMergeKey, Put, PutLast, ClosedIn, RootIn, Tree, Refs;
    U := T;
    var name := ReadKeyName(g, g[id].content[2 * i]);
    assert name == KeyOf(g, id, i);
    hide KeyOf;
    if name == MERGE_KEY {
      var sources := MergeSources(g, ValueOf(g, id, i));
      if sources.None? {
        refusal := Some(BadMerge);
        WriteRefused(BadMerge, U, out);
        return;
      }
      refusal, U := WriteSources(g, sources.value, out, s, T, es);
      return;
    }
    var v, V := ReadNode(g, ValueOf(g, id, i), s);
    ghost var spec := DecodeNode(g, ValueOf(g, id, i), old(s.depth), old(s.active));
    Answered(v, V, spec);
    if v.Err? {
      refusal := Some(v.error);
      WriteRefused(v.error, U, out);
      return;
    }
    if last {
      U := Merger.SetLastIn(out, name, v.value, T, V, es);
    } else {
      U := Merger.SetIn(out, name, v.value, T, V, es);
    }
    refusal := None;
    NowWrote(U, out, Applied(es, Write(name, spec.value, last)));
  }

  lemma {:induction false} Answered(r: Result<Any>, T: set<Object>, spec: Result<Value>)
    requires Answers(r, T, spec)
    ensures r.Err? ==> spec == Err(r.error)
    ensures r.Ok? ==> spec.Ok? && Merger.Closed(T) && Refs(r.value) <= T && Tree(Snap(T), r.value) == spec.value
  {
    hide ClosedIn;
  }

  lemma {:induction false} NowWrote(T: set<Object>, out: Object, es: seq<Entry>)
    requires Merger.Holds(T, out, es)
    ensures Wrote(None, T, out, Ok(es))
  {
    hide ClosedIn, RootIn;
  }

  method WriteSources(g: Graph, sources: seq<nat>, out: Object, s: DecodeState, ghost T: set<Object>,
      ghost es: seq<Entry>)
    returns (refusal: Option<Refusal>, ghost U: set<Object>)
    requires s.depth <= MAX_DEPTH && Merger.Holds(T, out, es)
    modifies s, out
    ensures s.depth == old(s.depth) && s.active == old(s.active)
    ensures T <= U && fresh(U - T) && Wrote(refusal, U, out, DecodeSources(g, sources, es, old(s.depth), old(s.active)))
    decreases MAX_DEPTH - s.depth, 1
  {
    hide Wrote, DecodeSources, DecodeMapping;
    U := T;
    ghost var depth, active := s.depth, s.active;
    NoSourcesWritten(g, T, out, es, depth, active);
    assert sources[..0] == [];
    for i := 0 to |sources|
      invariant s.depth == depth && s.active == active
      invariant T <= U && fresh(U - T) && Wrote(None, U, out, DecodeSources(g, sources[..i], es, depth, active))
    {
      ghost var before := DecodeSources(g, sources[..i], es, depth, active);
      WroteHolds(U, out, before);
      var source := sources[i];
      var unseen := s.Open(source);
      if unseen {
        refusal, U := WriteMapping(g, source, out, s, U, before.value);
        s.Close(source);
      } else {
        refusal := Some(AliasCycle);
        WriteRefused(AliasCycle, U, out);
      }
      SourceWritten(g, sources, i, es, refusal, U, out, depth, active);
      if refusal.Some? {
        return;
      }
    }
    assert sources[..|sources|] == sources;
    refusal := None;
  }

  lemma {:induction false} NoSourcesWritten(g: Graph, T: set<Object>, out: Object, es: seq<Entry>, depth: nat,
      active: set<nat>)
    requires Merger.Holds(T, out, es)
    ensures Wrote(None, T, out, DecodeSources(g, [], es, depth, active))
  {
    hide ClosedIn, RootIn;
  }

  lemma {:induction false} SourceWritten(g: Graph, sources: seq<nat>, i: nat, es: seq<Entry>,
      refusal: Option<Refusal>, U: set<Object>, out: Object, depth: nat, active: set<nat>)
    requires i < |sources| && DecodeSources(g, sources[..i], es, depth, active).Ok?
    requires Wrote(refusal, U, out,
                   if sources[i] in active then Err(AliasCycle)
                   else DecodeMapping(g, sources[i], DecodeSources(g, sources[..i], es, depth, active).value, depth, active + {sources[i]}))
    ensures refusal.None? ==> Wrote(None, U, out, DecodeSources(g, sources[..i + 1], es, depth, active))
    ensures refusal.Some? ==> Wrote(refusal, U, out, DecodeSources(g, sources, es, depth, active))
  {
    hide DecodeMapping, ClosedIn, RootIn;
    assert sources[..i + 1][..i] == sources[..i];
    if refusal.Some? {
      SourcesFail(g, sources, i + 1, es, depth, active);
    }
  }

  lemma {:induction false} SourcesFail(g: Graph, sources: seq<nat>, i: nat, es: seq<Entry>, depth: nat,
      active: set<nat>)
    requires i <= |sources| && DecodeSources(g, sources[..i], es, depth, active).Err?
    ensures DecodeSources(g, sources, es, depth, active) == DecodeSources(g, sources[..i], es, depth, active)
    decreases |sources|
  {
    hide DecodeMapping;
    if i == |sources| {
      assert sources[..i] == sources;
    } else {
      assert sources[..|sources| - 1][..i] == sources[..i];
      SourcesFail(g, sources[..|sources| - 1], i, es, depth, active);
    }
  }

  /* ---- documents ---- */

  datatype Loaded = Configuration(entries: seq<Entry>) | NotMapping | Broken(e: Refusal)

  /** What a stream of documents loads as: no document or a null one states
      nothing, one mapping is the configuration, and any other shape or number
      of documents is refused. */
  function LoadedOf(g: Graph, roots: seq<nat>): Loaded {
    match DecodeItems(g, roots, 0, {})
    case Err(e) => Broken(e)
    case Ok(vs) =>
      if |vs| > 1 then NotMapping
      else if vs == [] || vs[0].Null? then Configuration([])
      else if vs[0].Map? then Configuration(vs[0].entries)
      else NotMapping
  }

  /** Each document is decoded on a budget of its own. */
  method ReadDocuments(g: Graph, roots: seq<nat>) returns (r: Result<seq<Any>>, ghost T: set<Object>)
    ensures fresh(T) && ItemsAnswer(r, T, DecodeItems(g, roots, 0, {}))
  {
    hide Answers, ItemsAnswer, DecodeNode, DecodeItems;
    var out: seq<Any> := [];
    T := {};
    NoItemsAnswered(g, 0, {});
    assert roots[..0] == [];
    for i := 0 to |roots|
      invariant fresh(T) && ItemsAnswer(Ok(out), T, DecodeItems(g, roots[..i], 0, {}))
    {
      var s := new DecodeState();
      var v, V := ReadNode(g, roots[i], s);
      ItemAnswered(g, roots, i, out, T, v, V, 0, {});
      if v.Err? {
        r := Err(v.error);
        return;
      }
      out, T := out + [v.value], T + V;
    }
    assert roots[..|roots|] == roots;
    r := Ok(out);
  }

  lemma {:induction false} AllTreesLength(h: Heap, items: seq<Any>)
    requires AllRefs(items) <= h.Keys && |items| == 1
    ensures AllTrees(h, items) == [Tree(h, items[0])] && AllRefs(items) == Refs(items[0])
  {
  }

  method ReadDocument(g: Graph, roots: seq<nat>) returns (loaded: Loaded, config: Object?, ghost T: set<Object>)
    ensures fresh(T)
    ensures LoadedOf(g, roots).Configuration? <==> loaded.Configuration?
    ensures LoadedOf(g, roots).Configuration? <==> config != null
    ensures config != null ==> config in T && Merger.Closed(T) && config.entries == LoadedOf(g, roots).entries
    ensures config == null ==> loaded == LoadedOf(g, roots)
  {
    var documents, U := ReadDocuments(g, roots);
    config, T := null, U;
    ghost var spec := DecodeItems(g, roots, 0, {});
    hide DecodeItems, ClosedIn;
    if documents.Err? {
      loaded := Broken(documents.error);
      return;
    }
    if |documents.value| == 1 {
      AllTreesLength(Snap(U), documents.value);
    }
    if |documents.value| > 1 {
      loaded := NotMapping;
      return;
    }
    if documents.value == [] || documents.value[0].Nil? {
      config := new Object();
      Merger.NewHolds(config);
      loaded, T := Configuration([]), {config};
      return;
    }
    if documents.value[0].Ref? {
      config := documents.value[0].o;
      loaded := Configuration([]);
      return;
    }
    loaded := NotMapping;
  }
}
