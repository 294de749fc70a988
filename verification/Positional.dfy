/**
 The positional model of `<<`: which write of a mapping's expansion answers for
 a key, and where the key ends up.
 */
module Positional {
  import opened Text
  import opened Trees
  import opened Decode
  import Objects

  /** The value a list of writes leaves at a key: the last one made to it. */
  function LastOf(ws: seq<Write>, key: string): Option<Value> {
    if ws == [] then None
    else if ws[|ws| - 1].key == key then Some(ws[|ws| - 1].val)
    else LastOf(ws[..|ws| - 1], key)
  }

  function Or(a: Option<Value>, b: Option<Value>): Option<Value> { if a.Some? then a else b }

  lemma {:induction false} LastOfJoined(a: seq<Write>, b: seq<Write>, key: string)
    ensures LastOf(a + b, key) == Or(LastOf(b, key), LastOf(a, key))
  {
    if b == [] {
      assert a + b == a;
    } else {
      assert (a + b)[..|a + b| - 1] == a + b[..|b| - 1];
      LastOfJoined(a, b[..|b| - 1], key);
    }
  }

  /** Whatever order the writes leave the keys in, each key holds its last
      write, and no key is repeated. */
  lemma {:induction false} LastWriteAnswers(es: seq<Entry>, ws: seq<Write>, key: string)
    requires Distinct(Keys(es))
    ensures Distinct(Keys(AllApplied(es, ws)))
    ensures Find(AllApplied(es, ws), key) == Or(LastOf(ws, key), Find(es, key))
  {
    hide Distinct, Keys, Find, Put, PutLast;
    if ws != [] {
      var front, w := ws[..|ws| - 1], ws[|ws| - 1];
      LastWriteAnswers(es, front, key);
      var before := AllApplied(es, front);
      PutFinds(before, w.key, w.val, key);
      PutKeys(before, w.key, w.val);
      PutLastFinds(before, w.key, w.val, key);
      PutLastKeys(before, w.key, w.val);
    }
  }

  /* ---- the value at a key ---- */

  /** The value the first of the items to hold the key gives it. */
  ghost function FirstOf(g: Graph, sources: seq<nat>, key: string, f: nat): Option<Value>
    requires AllFitMapping(g, sources, f)
  {
    if sources == [] then None
    else Or(LastOf(Writes(g, sources[0], f), key), FirstOf(g, sources[1..], key, f))
  }

  /** The targets of a `<<` list's aliases, as the list writes them. */
  function AliasTargets(g: Graph, items: seq<nat>): seq<nat> {
    if items == [] then []
    else if Is(g, items[0], Alias) then [g[items[0]].alias] + AliasTargets(g, items[1..])
    else AliasTargets(g, items[1..])
  }

  lemma {:induction false} BackwardsFirst(ids: seq<nat>)
    requires ids != []
    ensures Backwards(ids)[..|ids| - 1] == Backwards(ids[1..])
    ensures |Backwards(ids)| == |ids| && Backwards(ids)[|ids| - 1] == ids[0]
  {
  }

  lemma {:induction false} BackwardsSnoc(ids: seq<nat>)
    requires ids != []
    ensures Backwards(ids) == Backwards(ids[1..]) + [ids[0]]
  {
  }

  /** A `<<` list is applied from its last alias to its first. */
  lemma {:induction false} SourcesRunBackwards(g: Graph, items: seq<nat>)
    requires Targets(g, Backwards(items)).Some?
    ensures Targets(g, Backwards(items)).value == Backwards(AliasTargets(g, items))
  {
    if items != [] {
      BackwardsFirst(items);
      SourcesRunBackwards(g, items[1..]);
      if Is(g, items[0], Alias) {
        BackwardsFirst(AliasTargets(g, items));
        BackwardsSnoc(AliasTargets(g, items));
      }
      hide Backwards;
    }
  }

  lemma {:induction false} LaterSourcesFirst(g: Graph, sources: seq<nat>, key: string, f: nat)
    requires AllFitMapping(g, sources, f) && AllFitMapping(g, Backwards(sources), f)
    ensures LastOf(SourceWrites(g, Backwards(sources), f), key) == FirstOf(g, sources, key, f)
  {
    if sources != [] {
      BackwardsFirst(sources);
      assert forall i :: 0 <= i < |sources| - 1 ==> sources[1..][i] == sources[i + 1];
      var back := Backwards(sources);
      assert forall i :: 0 <= i < |sources| - 1 ==> back[..|sources| - 1][i] == back[i];
      hide Backwards, FitsMapping, Writes, LastOf;
      LaterSourcesFirst(g, sources[1..], key, f);
      LastOfJoined(SourceWrites(g, Backwards(sources[1..]), f), Writes(g, sources[0], f), key);
    }
  }

  /** The value the first `n` pairs of a mapping give a key, read from the last
      pair back: a pair after a merge wins over it and a pair before it loses,
      and of a merge's sources the earliest holding the key wins. */
  ghost function Effective(g: Graph, id: nat, n: nat, key: string, f: nat): Option<Value>
    requires n <= PairCount(g, id) && PairsFit(g, id, n, f)
    decreases n
  {
    if n == 0 then None
    else if KeyOf(g, id, n - 1) != MERGE_KEY then
      assert FitsPair(g, id, n - 1, f);
      if KeyOf(g, id, n - 1) == key then Some(Unfold(g, ValueOf(g, id, n - 1), f)) else Effective(g, id, n - 1, key, f)
    else
      Or(MergedIn(g, id, n - 1, key, f), Effective(g, id, n - 1, key, f))
  }

  ghost function MergedIn(g: Graph, id: nat, i: nat, key: string, f: nat): Option<Value>
    requires i < PairCount(g, id) && FitsPair(g, id, i, f) && KeyOf(g, id, i) == MERGE_KEY
  {
    var value := ValueOf(g, id, i);
    var sources := Sources(g, value).value;
    if Is(g, value, Sequence) then
      SourcesOfList(g, value);
      FirstOf(g, AliasTargets(g, g[value].content), key, f)
    else FirstOf(g, sources, key, f)
  }

  lemma {:induction false} SourcesOfList(g: Graph, value: nat)
    requires Is(g, value, Sequence) && Sources(g, value).Some?
    ensures Backwards(AliasTargets(g, g[value].content)) == Sources(g, value).value
    ensures forall f :: AllFitMapping(g, Sources(g, value).value, f) ==> AllFitMapping(g, AliasTargets(g, g[value].content), f)
  {
    SourcesRunBackwards(g, g[value].content);
    BackwardsFits(g, AliasTargets(g, g[value].content));
  }

  lemma {:induction false} BackwardsFits(g: Graph, sources: seq<nat>)
    ensures forall f :: AllFitMapping(g, Backwards(sources), f) ==> AllFitMapping(g, sources, f)
  {
    hide FitsMapping;
    forall f | AllFitMapping(g, Backwards(sources), f) ensures AllFitMapping(g, sources, f) {
      forall i | 0 <= i < |sources| ensures FitsMapping(g, sources[i], f) {
        assert Backwards(sources)[|sources| - 1 - i] == sources[i];
      }
    }
  }

  lemma {:induction false} MergeWritesAre(g: Graph, id: nat, i: nat, key: string, f: nat)
    requires i < PairCount(g, id) && FitsPair(g, id, i, f) && KeyOf(g, id, i) == MERGE_KEY
    ensures LastOf(PairWrites(g, id, i, f), key) == MergedIn(g, id, i, key, f)
  {
    hide FitsMapping, Writes, LastOf, KeyOf, Backwards;
    var value := ValueOf(g, id, i);
    if Is(g, value, Sequence) {
      SourcesOfList(g, value);
      hide Sources, FirstOf, SourceWrites, AllFitMapping;
      LaterSourcesFirst(g, AliasTargets(g, g[value].content), key, f);
    } else {
      var sources := Sources(g, value).value;
      AtMostOneSource(g, value);
      BackwardsOfOne(sources);
      hide Sources, FirstOf, SourceWrites;
      LaterSourcesFirst(g, sources, key, f);
    }
  }

  lemma {:induction false} BackwardsOfOne(ids: seq<nat>)
    requires |ids| <= 1
    ensures Backwards(ids) == ids
  {
  }

  lemma {:induction false} AtMostOneSource(g: Graph, value: nat)
    requires !Is(g, value, Sequence) && Sources(g, value).Some?
    ensures |Sources(g, value).value| <= 1
  {
    var named := Named(g, value);
    if named != [] {
      assert named[..0] == [] && Targets(g, named[..|named| - 1]) == Some([]);
    }
  }

  lemma {:induction false} PlainWriteIs(g: Graph, id: nat, i: nat, key: string, f: nat)
    requires i < PairCount(g, id) && FitsPair(g, id, i, f) && KeyOf(g, id, i) != MERGE_KEY
    ensures LastOf(PairWrites(g, id, i, f), key) ==
            if KeyOf(g, id, i) == key then Some(Unfold(g, ValueOf(g, id, i), f)) else None
  {
    hide KeyOf, Unfold, ValueOf, HoldsMergeKey, Fits;
    assert PairWrites(g, id, i, f)[..0] == [];
  }

  lemma {:induction false} WritesAnswer(g: Graph, id: nat, n: nat, key: string, f: nat)
    requires n <= PairCount(g, id) && PairsFit(g, id, n, f)
    ensures LastOf(WritesTo(g, id, n, f), key) == Effective(g, id, n, key, f)
    decreases n
  {
    hide FitsPair, KeyOf, Unfold, ValueOf, Sources, PairWrites, MergedIn;
    if n > 0 {
      WritesAnswer(g, id, n - 1, key, f);
      hide LastOf;
      LastOfJoined(WritesTo(g, id, n - 1, f), PairWrites(g, id, n - 1, f), key);
      if KeyOf(g, id, n - 1) == MERGE_KEY {
        MergeWritesAre(g, id, n - 1, key, f);
      } else {
        PlainWriteIs(g, id, n - 1, key, f);
      }
    }
  }

  /** The mapping a node decodes to. */
  ghost function Entries(g: Graph, id: nat, f: nat): seq<Entry>
    requires FitsMapping(g, id, f)
  {
    AllApplied([], Writes(g, id, f))
  }

  ghost function ValueAt(g: Graph, id: nat, key: string, f: nat): Option<Value>
    requires FitsMapping(g, id, f)
  {
    Effective(g, id, PairCount(g, id), key, f - 1)
  }

  /** The value a decoded mapping holds at a key is the one the positional model
      gives it, and no key is repeated. */
  lemma {:induction false} MergeKeysArePositional(g: Graph, id: nat, f: nat, key: string)
    requires FitsMapping(g, id, f)
    ensures Distinct(Keys(Entries(g, id, f)))
    ensures Find(Entries(g, id, f), key) == ValueAt(g, id, key, f)
  {
    hide WritesTo, Effective, AllApplied, PairsFit, LastOf, Find;
    WritesAnswer(g, id, PairCount(g, id), key, f - 1);
    assert Keys([]) == [];
    LastWriteAnswers([], Writes(g, id, f), key);
    NothingFound(key);
  }

  /* ---- the text of a key ---- */

  /** `n` aliases lead from one node to another that is no alias. */
  ghost predicate Leads(g: Graph, x: nat, z: nat, n: nat)
    decreases n
  {
    if n == 0 then x == z && !Is(g, z, Alias) else Is(g, x, Alias) && Leads(g, g[x].alias, z, n - 1)
  }

  /** A key is the text at the end of its aliases, and empty when more of them
      lie before it than a document may nest. */
  lemma {:induction false} KeyIsTextOfItsAnchor(g: Graph, x: nat, z: nat, n: nat, hops: nat)
    requires Leads(g, x, z, n) && hops <= MAX_DEPTH + 1
    ensures KeyName(g, x, hops) == if hops + n <= MAX_DEPTH + 1 && z < |g| then g[z].text else ""
    decreases n
  {
    if n > 0 && hops <= MAX_DEPTH {
      KeyIsTextOfItsAnchor(g, g[x].alias, z, n - 1, hops + 1);
    }
  }

  /* ---- where a key ends up ---- */

  function WriteKeys(ws: seq<Write>): (keys: seq<string>)
    ensures |keys| == |ws|
  {
    seq(|ws|, k requires 0 <= k < |ws| => ws[k].key)
  }

  /** Each key once, where it first occurs. */
  function KeepFirst(keys: seq<string>): seq<string> {
    if keys == [] then []
    else
      var front, k := KeepFirst(keys[..|keys| - 1]), keys[|keys| - 1];
      if k in keys[..|keys| - 1] then front else front + [k]
  }

  /** Each key once, where it last occurs. */
  function KeepLast(keys: seq<string>): seq<string> {
    if keys == [] then []
    else if keys[0] in keys[1..] then KeepLast(keys[1..])
    else [keys[0]] + KeepLast(keys[1..])
  }

  lemma {:induction false} FirstPositions(ws: seq<Write>)
    requires forall i :: 0 <= i < |ws| ==> !ws[i].last
    ensures Keys(AllApplied([], ws)) == KeepFirst(WriteKeys(ws))
    ensures forall k :: k in KeepFirst(WriteKeys(ws)) <==> k in WriteKeys(ws)
  {
    if ws == [] {
      assert Keys([]) == [];
    } else {
      var front, w := ws[..|ws| - 1], ws[|ws| - 1];
      FirstPositions(front);
      assert WriteKeys(ws)[..|ws| - 1] == WriteKeys(front);
      assert WriteKeys(ws) == WriteKeys(front) + [w.key];
      PutKeys(AllApplied([], front), w.key, w.val);
      hide Keys, Put, PutLast, WriteKeys;
    }
  }

  lemma {:induction false} KeepLastCons(x: string, rest: seq<string>)
    ensures KeepLast([x] + rest) == if x in rest then KeepLast(rest) else [x] + KeepLast(rest)
    ensures KeepLast([]) == []
  {
    assert ([x] + rest)[1..] == rest;
  }

  lemma {:induction false} WithoutCons(x: string, rest: seq<string>, k: string)
    ensures Objects.Without([x] + rest, k) == if x == k then rest else [x] + Objects.Without(rest, k)
    ensures Objects.Without([], k) == []
  {
    assert ([x] + rest)[1..] == rest;
  }

  lemma {:induction false} KeepLastOnto(keys: seq<string>, k: string)
    ensures KeepLast(keys + [k]) == Objects.Without(KeepLast(keys), k) + [k]
    ensures forall j :: j in KeepLast(keys) <==> j in keys
  {
    hide *;
    if keys == [] {
      KeepLastCons(k, []);
      WithoutCons(k, [], k);
      assert [k] + [] == [] + [k] == [k];
    } else {
      var x, rest := keys[0], keys[1..];
      KeepLastOnto(rest, k);
      assert keys == [x] + rest && keys + [k] == [x] + (rest + [k]);
      KeepLastCons(x, rest);
      KeepLastCons(x, rest + [k]);
      if x !in rest {
        WithoutCons(x, KeepLast(rest), k);
        if x == k {
          Objects.WithoutNothing(KeepLast(rest), k);
        }
      }
    }
  }

  lemma {:induction false} LastPositions(ws: seq<Write>)
    requires forall i :: 0 <= i < |ws| ==> ws[i].last
    ensures Keys(AllApplied([], ws)) == KeepLast(WriteKeys(ws))
    ensures Distinct(Keys(AllApplied([], ws)))
  {
    if ws == [] {
      NothingWritten();
    } else {
      hide *;
      var front, w := ws[..|ws| - 1], ws[|ws| - 1];
      assert front + [w] == ws;
      LastPositions(front);
      WriteKeysSnoc(front, w);
      AppliedSnoc([], front, w);
      AppliedLast(AllApplied([], front), w);
      KeepLastOnto(WriteKeys(front), w.key);
    }
  }

  lemma {:induction false} AppliedLast(es: seq<Entry>, w: Write)
    requires Distinct(Keys(es)) && w.last
    ensures Keys(Applied(es, w)) == Objects.Without(Keys(es), w.key) + [w.key]
    ensures Distinct(Keys(Applied(es, w)))
  {
    hide Keys, PutLast, Dropped, Distinct, Objects.Without;
    PutLastKeys(es, w.key, w.val);
    Objects.WithoutIsDropped(es, w.key);
  }

  /** The keys a mapping writes itself, in order. */
  function OwnKeys(g: Graph, id: nat, n: nat): seq<string>
    requires n <= PairCount(g, id)
  {
    if n == 0 then []
    else if KeyOf(g, id, n - 1) == MERGE_KEY then OwnKeys(g, id, n - 1)
    else OwnKeys(g, id, n - 1) + [KeyOf(g, id, n - 1)]
  }

  /** No merge key among the first `n` pairs names a source. */
  predicate MergesNothing(g: Graph, id: nat, n: nat)
    requires n <= PairCount(g, id)
  {
    forall i :: 0 <= i < n && KeyOf(g, id, i) == MERGE_KEY ==> Sources(g, ValueOf(g, id, i)) == Some([])
  }

  lemma {:induction false} OwnWrites(g: Graph, id: nat, n: nat, f: nat)
    requires n <= PairCount(g, id) && PairsFit(g, id, n, f) && MergesNothing(g, id, n)
    ensures WriteKeys(WritesTo(g, id, n, f)) == OwnKeys(g, id, n)
    ensures forall i :: 0 <= i < n && i < |WritesTo(g, id, n, f)| ==> WritesTo(g, id, n, f)[i].last == HoldsMergeKey(g, id)
    ensures |WritesTo(g, id, n, f)| <= n
    decreases n
  {
    hide KeyOf, Unfold, Sources, HoldsMergeKey, FitsMapping;
    if n > 0 {
      OwnWrites(g, id, n - 1, f);
      var before, next := WritesTo(g, id, n - 1, f), PairWrites(g, id, n - 1, f);
      if KeyOf(g, id, n - 1) == MERGE_KEY {
        assert Sources(g, ValueOf(g, id, n - 1)) == Some([]);
        assert next == SourceWrites(g, [], f) == [];
        assert before + next == before;
      } else {
        assert WriteKeys(before + next) == WriteKeys(before) + [next[0].key];
      }
    }
  }

  /** With no keys merged in, a repeated key keeps its first position in a mapping
      without a merge key and moves last in one that holds one. */
  lemma {:induction false} OwnKeyOrder(g: Graph, id: nat, f: nat)
    requires FitsMapping(g, id, f) && MergesNothing(g, id, PairCount(g, id))
    ensures Keys(Entries(g, id, f)) ==
            if exists i :: 0 <= i < PairCount(g, id) && KeyOf(g, id, i) == "<<" then KeepLast(OwnKeys(g, id, PairCount(g, id)))
            else KeepFirst(OwnKeys(g, id, PairCount(g, id)))
  {
    hide KeepLast, KeepFirst, OwnKeys, HoldsMergeKey, WritesTo, AllApplied, MergesNothing, PairsFit;
    OwnWrites(g, id, PairCount(g, id), f - 1);
    MergeKeyHeld(g, id);
    if HoldsMergeKey(g, id) {
      LastPositions(Writes(g, id, f));
    } else {
      FirstPositions(Writes(g, id, f));
    }
  }

  lemma {:induction false} MergeKeyHeld(g: Graph, id: nat)
    ensures HoldsMergeKey(g, id) <==> exists i :: 0 <= i < PairCount(g, id) && KeyOf(g, id, i) == "<<"
  {
    hide KeyOf;
  }

  /* ---- the order of any mapping ---- */

  /** The write that decides where its key stands: the last one to move the key,
      or the first one to make it when none moves it. */
  predicate Places(ws: seq<Write>, i: nat)
    requires i < |ws|
  {
    if ws[i].last then forall j :: i < j < |ws| && ws[j].last ==> ws[j].key != ws[i].key
    else
      && (forall j :: 0 <= j < |ws| && ws[j].last ==> ws[j].key != ws[i].key)
      && (forall j :: 0 <= j < i ==> ws[j].key != ws[i].key)
  }

  /** The keys of the placing writes among the first `n`, in order. */
  function Placed(ws: seq<Write>, n: nat): seq<string>
    requires n <= |ws|
  {
    if n == 0 then [] else if Places(ws, n - 1) then Placed(ws, n - 1) + [ws[n - 1].key] else Placed(ws, n - 1)
  }

  lemma {:induction false} PlacesOnto(front: seq<Write>, w: Write, i: nat)
    requires i < |front|
    ensures Places(front + [w], i) <==> Places(front, i) && !(w.last && w.key == front[i].key)
  {
    var ws := front + [w];
    assert forall j :: 0 <= j < |front| ==> ws[j] == front[j];
    assert ws[|front|] == w;
    if Places(ws, i) {
      assert forall j :: 0 <= j < |front| && front[j].last ==> ws[j].last;
    }
  }

  lemma {:induction false} LastPlaces(front: seq<Write>, w: Write)
    ensures Places(front + [w], |front|) <==> w.last || w.key !in WriteKeys(front)
  {
    var ws := front + [w];
    assert forall j :: 0 <= j < |front| ==> ws[j] == front[j] && WriteKeys(front)[j] == front[j].key;
  }

  function Removed(keys: seq<string>, k: string): seq<string> {
    if keys == [] then [] else if keys[0] == k then Removed(keys[1..], k) else [keys[0]] + Removed(keys[1..], k)
  }

  lemma {:induction false} RemovedOnto(keys: seq<string>, j: string, k: string)
    ensures Removed(keys + [j], k) == Removed(keys, k) + if j == k then [] else [j]
  {
    if keys == [] {
      assert ([] + [j])[1..] == [];
    } else {
      RemovedOnto(keys[1..], j, k);
      assert (keys + [j])[1..] == keys[1..] + [j];
    }
  }

  lemma {:induction false} RemovedNothing(keys: seq<string>, k: string)
    requires k !in keys
    ensures Removed(keys, k) == keys
  {
    if keys != [] {
      RemovedNothing(keys[1..], k);
    }
  }

  lemma {:induction false} WithoutIsRemoved(keys: seq<string>, k: string)
    requires Distinct(keys)
    ensures Objects.Without(keys, k) == Removed(keys, k)
  {
    if keys != [] {
      assert Distinct(keys[1..]);
      if keys[0] == k {
        assert k !in keys[1..];
        RemovedNothing(keys[1..], k);
      } else {
        WithoutIsRemoved(keys[1..], k);
      }
    }
  }

  /** Where one more write leaves the keys placed before it. */
  lemma {:induction false} PlacedOnto(front: seq<Write>, w: Write, n: nat)
    requires n <= |front|
    ensures Placed(front + [w], n) == if w.last then Removed(Placed(front, n), w.key) else Placed(front, n)
  {
    if n > 0 {
      PlacedOnto(front, w, n - 1);
      PlacesOnto(front, w, n - 1);
      assert (front + [w])[n - 1] == front[n - 1];
      RemovedOnto(Placed(front, n - 1), front[n - 1].key, w.key);
      hide Places, Removed;
    }
  }

  lemma {:induction false} PlacedLast(front: seq<Write>, w: Write)
    ensures Placed(front + [w], |front| + 1)
         == (if w.last then Removed(Placed(front, |front|), w.key) else Placed(front, |front|))
            + if w.last || w.key !in WriteKeys(front) then [w.key] else []
  {
    PlacedOnto(front, w, |front|);
    LastPlaces(front, w);
    hide Places, Removed, WriteKeys;
    assert (front + [w])[|front|] == w;
  }

  /** Where one more write leaves the keys of some entries. */
  lemma {:induction false} AppliedKeys(es: seq<Entry>, w: Write)
    requires Distinct(Keys(es))
    ensures Keys(Applied(es, w)) == (if w.last then Removed(Keys(es), w.key) else Keys(es))
                                    + if w.last || w.key !in Keys(es) then [w.key] else []
    ensures Distinct(Keys(Applied(es, w)))
    ensures forall k :: k in Keys(Applied(es, w)) <==> k in Keys(es) || k == w.key
  {
    hide Keys, Put, PutLast, Dropped, Distinct, Removed, Objects.Without;
    if w.last {
      PutLastKeys(es, w.key, w.val);
      Objects.WithoutIsDropped(es, w.key);
      WithoutIsRemoved(Keys(es), w.key);
    } else {
      PutKeys(es, w.key, w.val);
    }
  }

  lemma {:induction false} WriteKeysSnoc(front: seq<Write>, w: Write)
    ensures WriteKeys(front + [w]) == WriteKeys(front) + [w.key]
  {
  }

  /** The keys a list of writes leaves stand in the order of the writes that
      placed them. */
  lemma {:induction false} KeysStandWherePlaced(ws: seq<Write>)
    ensures Keys(AllApplied([], ws)) == Placed(ws, |ws|)
    ensures Distinct(Keys(AllApplied([], ws)))
    ensures forall k :: k in Keys(AllApplied([], ws)) <==> k in WriteKeys(ws)
  {
    if ws == [] {
      NothingWritten();
    } else {
      hide *;
      var front, w := ws[..|ws| - 1], ws[|ws| - 1];
      assert front + [w] == ws;
      KeysStandWherePlaced(front);
      OneMoreWrite(front, w);
    }
  }

  lemma {:induction false} NothingWritten()
    ensures Keys(AllApplied([], [])) == [] && Placed([], 0) == [] && WriteKeys([]) == [] && Distinct([]) && KeepLast([]) == []
  {
  }

  lemma {:induction false} OneMoreWrite(front: seq<Write>, w: Write)
    requires Keys(AllApplied([], front)) == Placed(front, |front|)
    requires Distinct(Keys(AllApplied([], front)))
    requires forall k :: k in Keys(AllApplied([], front)) <==> k in WriteKeys(front)
    ensures var ws := front + [w];
            && Keys(AllApplied([], ws)) == Placed(ws, |ws|)
            && Distinct(Keys(AllApplied([], ws)))
            && forall k :: k in Keys(AllApplied([], ws)) <==> k in WriteKeys(ws)
  {
    hide *;
    WriteKeysSnoc(front, w);
    AppliedSnoc([], front, w);
    AppliedKeys(AllApplied([], front), w);
    PlacedLast(front, w);
  }

  /** The keys of any decoded mapping, merged in or its own, stand in the order of
      the writes of its expansion that placed them. */
  lemma {:induction false} RepeatedKeyOrder(g: Graph, id: nat, f: nat)
    requires FitsMapping(g, id, f)
    ensures Keys(Entries(g, id, f)) == Placed(Writes(g, id, f), |Writes(g, id, f)|)
    ensures forall k :: k in Keys(Entries(g, id, f)) <==> k in WriteKeys(Writes(g, id, f))
  {
    KeysStandWherePlaced(Writes(g, id, f));
  }

  /* ---- what a decoded value never holds ---- */

  /** No key is repeated and none is `<<`, at any depth. */
  ghost predicate Clean(v: Value)
    decreases v, 0
  {
    match v
    case List(items) => AllClean(items)
    case Map(es) => CleanMap(es)
    case _ => true
  }

  ghost predicate AllClean(items: seq<Value>)
    decreases items, 1
  {
    forall i :: 0 <= i < |items| ==> Clean(items[i])
  }

  ghost predicate CleanMap(es: seq<Entry>)
    decreases es, 1
  {
    Distinct(Keys(es)) && forall i :: 0 <= i < |es| ==> es[i].key != MERGE_KEY && Clean(es[i].val)
  }

  ghost predicate CleanWrites(ws: seq<Write>) {
    forall i :: 0 <= i < |ws| ==> ws[i].key != MERGE_KEY && Clean(ws[i].val)
  }

  lemma {:induction false} AppliedClean(es: seq<Entry>, w: Write)
    requires CleanMap(es) && w.key != MERGE_KEY && Clean(w.val)
    ensures CleanMap(Applied(es, w))
  {
    hide Clean, Keys, Distinct, Position;
    if w.last {
      PutLastKeys(es, w.key, w.val);
    } else {
      PutKeys(es, w.key, w.val);
    }
  }

  lemma {:induction false} AllAppliedClean(es: seq<Entry>, ws: seq<Write>)
    requires CleanMap(es) && CleanWrites(ws)
    ensures CleanMap(AllApplied(es, ws))
  {
    hide CleanMap, Applied, Clean;
    if ws != [] {
      AllAppliedClean(es, ws[..|ws| - 1]);
      AppliedClean(AllApplied(es, ws[..|ws| - 1]), ws[|ws| - 1]);
    }
  }

  lemma {:induction false} NothingClean()
    ensures CleanMap([])
  {
  }

  /** A decoded value repeats no key and holds no `<<` key at any depth. */
  lemma {:induction false} UnfoldsClean(g: Graph, id: nat, f: nat)
    requires Fits(g, id, f)
    ensures Clean(Unfold(g, id, f))
    decreases f, 0
  {
    hide FitsMapping, AllFit, Writes, UnfoldAll, AllApplied, CleanMap, AllClean;
    if id < |g| {
      match g[id].kind {
        case Document => if g[id].content != [] { UnfoldsClean(g, g[id].content[0], f - 1); }
        case Alias => UnfoldsClean(g, g[id].alias, f - 1);
        case Mapping =>
          WritesClean(g, id, f - 1);
          NothingClean();
          AllAppliedClean([], Writes(g, id, f - 1));
        case Sequence => UnfoldsAllClean(g, g[id].content, f - 1);
        case _ =>
      }
    }
  }

  lemma {:induction false} UnfoldsAllClean(g: Graph, items: seq<nat>, f: nat)
    requires AllFit(g, items, f)
    ensures AllClean(UnfoldAll(g, items, f))
    decreases f, 1
  {
    hide Fits, Unfold, Clean;
    forall i | 0 <= i < |items| ensures Clean(Unfold(g, items[i], f)) {
      UnfoldsClean(g, items[i], f);
    }
  }

  lemma {:induction false} WritesClean(g: Graph, id: nat, f: nat)
    requires FitsMapping(g, id, f)
    ensures CleanWrites(Writes(g, id, f))
    decreases f, 0
  {
    hide WritesTo, PairsFit, CleanWrites;
    WritesToClean(g, id, PairCount(g, id), f - 1);
  }

  lemma {:induction false} WritesToClean(g: Graph, id: nat, n: nat, f: nat)
    requires n <= PairCount(g, id) && PairsFit(g, id, n, f)
    ensures CleanWrites(WritesTo(g, id, n, f))
    decreases f, 4, n
  {
    hide FitsPair, Clean, KeyOf, Unfold, ValueOf, Sources, HoldsMergeKey;
    if n > 0 {
      WritesToClean(g, id, n - 1, f);
      PairWritesClean(g, id, n - 1, f);
      hide PairWrites;
    }
  }

  lemma {:induction false} PairWritesClean(g: Graph, id: nat, i: nat, f: nat)
    requires i < PairCount(g, id) && FitsPair(g, id, i, f)
    ensures CleanWrites(PairWrites(g, id, i, f))
    decreases f, 2
  {
    hide KeyOf, AllFitMapping, Fits, Unfold, SourceWrites, Sources, Clean;
    if KeyOf(g, id, i) == MERGE_KEY {
      SourceWritesClean(g, Sources(g, ValueOf(g, id, i)).value, f);
    } else {
      UnfoldsClean(g, ValueOf(g, id, i), f);
    }
  }

  lemma {:induction false} SourceWritesClean(g: Graph, sources: seq<nat>, f: nat)
    requires AllFitMapping(g, sources, f)
    ensures CleanWrites(SourceWrites(g, sources, f))
    decreases f, 1, |sources|
  {
    hide FitsMapping, Writes, Clean;
    if sources != [] {
      SourceWritesClean(g, sources[..|sources| - 1], f);
      WritesClean(g, sources[|sources| - 1], f);
    }
  }
}
