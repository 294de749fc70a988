/**
 What a decoded node holds, part by part: each part is what that part decodes to
 as a document of its own.
 */
module DecodedParts {
  import opened Text
  import opened Trees
  import opened Decode
  import opened Anchors
  import opened Positional
  import opened Decoder

  /** The node, read as a document's root, decodes to the value. */
  ghost predicate Decodes(g: Graph, id: nat, v: Value) { DecodeNode(g, id, 0, {}) == Ok(v) }

  lemma {:induction false} UnfoldUp(g: Graph, id: nat, f: nat, h: nat)
    requires Fits(g, id, f) && f <= h
    ensures Fits(g, id, h) && Unfold(g, id, h) == Unfold(g, id, f)
    decreases h - f
  {
    if f < h {
      UnfoldSame(g, id, f);
      hide Fits, Unfold;
      UnfoldUp(g, id, f + 1, h);
    }
  }

  /** A part that fits a smaller budget decodes to the tree it unfolds to. */
  lemma {:induction false} PartDecodes(g: Graph, id: nat, f: nat)
    requires f <= MAX_DEPTH && Fits(g, id, f)
    ensures Decodes(g, id, Unfold(g, id, f))
  {
    hide Fits, Unfold, DecodeNode;
    UnfoldUp(g, id, f, MAX_DEPTH);
    DecodesExactlyWhenFinite(g, id);
  }

  lemma {:induction false} Unfolds(g: Graph, id: nat, v: Value)
    requires Decodes(g, id, v)
    ensures Fits(g, id, MAX_DEPTH) && v == Unfold(g, id, MAX_DEPTH)
  {
    hide Fits, Unfold, DecodeNode;
    DecodesExactlyWhenFinite(g, id);
  }

  /** An alias decodes to what its anchor decodes to. */
  lemma {:induction false} AliasIsItsAnchor(g: Graph, id: nat, v: Value)
    requires Is(g, id, Alias) && Decodes(g, id, v)
    ensures Decodes(g, g[id].alias, v)
  {
    Unfolds(g, id, v);
    assert Fits(g, g[id].alias, MAX_DEPTH - 1) && v == Unfold(g, g[id].alias, MAX_DEPTH - 1);
    hide Fits, Unfold, Decodes;
    PartDecodes(g, g[id].alias, MAX_DEPTH - 1);
  }

  /** A document decodes to what it holds, and an empty one to null. */
  lemma {:induction false} DocumentIsItsContent(g: Graph, id: nat, v: Value)
    requires Is(g, id, Document) && Decodes(g, id, v)
    ensures if g[id].content == [] then v == Null else Decodes(g, g[id].content[0], v)
  {
    Unfolds(g, id, v);
    if g[id].content != [] {
      assert Fits(g, g[id].content[0], MAX_DEPTH - 1) && v == Unfold(g, g[id].content[0], MAX_DEPTH - 1);
      hide Fits, Unfold, Decodes;
      PartDecodes(g, g[id].content[0], MAX_DEPTH - 1);
    }
  }

  /** A missing node is null and a scalar is what it reads as. */
  lemma {:induction false} LeavesAre(g: Graph, id: nat, v: Value)
    requires Decodes(g, id, v)
    ensures id >= |g| || g[id].kind.Zero? ==> v == Null
    ensures Is(g, id, Scalar) ==> g[id].scalar == Some(v)
  {
    hide DecodeMapping, DecodeItems;
  }

  /** A list decodes to its items, one for one and in order. */
  lemma {:induction false} ListIsItsItems(g: Graph, id: nat, v: Value)
    requires Is(g, id, Sequence) && Decodes(g, id, v)
    ensures v.List? && |v.items| == |g[id].content|
    ensures forall i :: 0 <= i < |g[id].content| ==> Decodes(g, g[id].content[i], v.items[i])
  {
    Unfolds(g, id, v);
    var f := MAX_DEPTH - 1;
    assert AllFit(g, g[id].content, f) && v == List(UnfoldAll(g, g[id].content, f));
    hide Unfold, Decodes, Fits;
    forall i | 0 <= i < |g[id].content| ensures Decodes(g, g[id].content[i], v.items[i]) {
      assert Fits(g, g[id].content[i], f);
      PartDecodes(g, g[id].content[i], f);
    }
  }

  lemma {:induction false} EffectiveAt(g: Graph, id: nat, n: nat, i: nat, f: nat)
    requires i < n <= PairCount(g, id) && PairsFit(g, id, n, f) && KeyOf(g, id, i) != MERGE_KEY
    requires forall j :: i < j < n ==> KeyOf(g, id, j) != MERGE_KEY && KeyOf(g, id, j) != KeyOf(g, id, i)
    ensures FitsPair(g, id, i, f) && Fits(g, ValueOf(g, id, i), f)
    ensures Effective(g, id, n, KeyOf(g, id, i), f) == Some(Unfold(g, ValueOf(g, id, i), f))
    decreases n
  {
    hide KeyOf, Unfold, ValueOf, Fits, MergedIn, Sources, AllFitMapping;
    assert FitsPair(g, id, i, f);
    if i < n - 1 {
      EffectiveAt(g, id, n - 1, i, f);
    }
  }

  /** A mapping holds, at the key of a pair after which neither the key nor a `<<`
      comes again, what the pair's value decodes to. */
  lemma {:induction false} MappingHoldsItsPairs(g: Graph, id: nat, v: Value, i: nat)
    requires Is(g, id, Mapping) && Decodes(g, id, v) && i < PairCount(g, id) && KeyOf(g, id, i) != "<<"
    requires forall j :: i < j < PairCount(g, id) ==> KeyOf(g, id, j) != "<<" && KeyOf(g, id, j) != KeyOf(g, id, i)
    ensures v.Map? && Find(v.entries, KeyOf(g, id, i)).Some?
    ensures v.Map? && Find(v.entries, KeyOf(g, id, i)).Some? ==> Decodes(g, ValueOf(g, id, i), Find(v.entries, KeyOf(g, id, i)).value)
  {
    Unfolds(g, id, v);
    var f := MAX_DEPTH - 1;
    assert FitsMapping(g, id, f) && v == Map(AllApplied([], Writes(g, id, f)));
    assert PairsFit(g, id, PairCount(g, id), f - 1);
    hide Fits, Unfold, Decodes, KeyOf, ValueOf, FitsMapping, PairsFit, Effective, Writes, AllApplied, Find;
    MergeKeysArePositional(g, id, f, KeyOf(g, id, i));
    EffectiveAt(g, id, PairCount(g, id), i, f - 1);
    PartDecodes(g, ValueOf(g, id, i), f - 1);
  }

  /* ---- a stream of documents ---- */

  lemma {:induction false} ItemsUpTo(g: Graph, roots: seq<nat>, i: nat)
    requires i <= |roots|
    requires forall j :: 0 <= j < i ==> DecodeNode(g, roots[j], 0, {}).Ok?
    ensures DecodeItems(g, roots[..i], 0, {}).Ok? && |DecodeItems(g, roots[..i], 0, {}).value| == i
    decreases i
  {
    hide DecodeNode;
    if i > 0 {
      ItemsUpTo(g, roots, i - 1);
      assert roots[..i][..i - 1] == roots[..i - 1];
    }
  }

  lemma {:induction false} ItemsFail(g: Graph, roots: seq<nat>, i: nat, n: nat)
    requires i < n <= |roots| && DecodeNode(g, roots[i], 0, {}).Err?
    requires forall j :: 0 <= j < i ==> DecodeNode(g, roots[j], 0, {}).Ok?
    ensures DecodeItems(g, roots[..n], 0, {}) == Err(DecodeNode(g, roots[i], 0, {}).error)
    decreases n
  {
    hide DecodeNode;
    assert roots[..n][..n - 1] == roots[..n - 1];
    if n == i + 1 {
      ItemsUpTo(g, roots, i);
    } else {
      ItemsFail(g, roots, i, n - 1);
    }
  }

  /** What a stream of documents loads as: nothing when it is empty; the error of the
      first document that does not decode; no mapping when there are more; and for a
      single one its mapping, nothing when it is null, and no mapping otherwise. */
  lemma {:induction false} StreamLoads(g: Graph, roots: seq<nat>)
    ensures roots == [] ==> LoadedOf(g, roots) == Configuration([])
    ensures forall i :: 0 <= i < |roots| && DecodeNode(g, roots[i], 0, {}).Err?
                        && (forall j :: 0 <= j < i ==> DecodeNode(g, roots[j], 0, {}).Ok?) ==>
              LoadedOf(g, roots) == Broken(DecodeNode(g, roots[i], 0, {}).error)
    ensures |roots| > 1 && (forall j :: 0 <= j < |roots| ==> DecodeNode(g, roots[j], 0, {}).Ok?) ==> LoadedOf(g, roots) == NotMapping
    ensures forall v :: |roots| == 1 && Decodes(g, roots[0], v) ==>
              LoadedOf(g, roots) ==
              match v
              case Null => Configuration([])
              case Map(es) => Configuration(es)
              case _ => NotMapping
  {
    assert roots[..|roots|] == roots;
    forall i | 0 <= i < |roots| && DecodeNode(g, roots[i], 0, {}).Err?
               && (forall j :: 0 <= j < i ==> DecodeNode(g, roots[j], 0, {}).Ok?)
      ensures LoadedOf(g, roots) == Broken(DecodeNode(g, roots[i], 0, {}).error)
    {
      ItemsFail(g, roots, i, |roots|);
      hide DecodeItems, DecodeNode;
    }
    if forall j :: 0 <= j < |roots| ==> DecodeNode(g, roots[j], 0, {}).Ok? {
      ItemsUpTo(g, roots, |roots|);
      if |roots| == 1 {
        OneItem(g, roots);
      }
      hide DecodeItems, DecodeNode;
    }
    hide DecodeNode;
  }

  lemma {:induction false} OneItem(g: Graph, roots: seq<nat>)
    requires |roots| == 1 && DecodeNode(g, roots[0], 0, {}).Ok?
    ensures DecodeItems(g, roots, 0, {}) == Ok([DecodeNode(g, roots[0], 0, {}).value])
  {
    hide DecodeNode;
    var v := DecodeNode(g, roots[0], 0, {}).value;
    assert roots[..0] == [] && DecodeItems(g, [], 0, {}) == Ok([]) && [] + [v] == [v];
  }
}
