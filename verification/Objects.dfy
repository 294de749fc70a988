/**
 The configuration's ordered objects on the heap: written in place, copied
 deeply, and merged without sharing. What a set of objects holds is reasoned
 about through a snapshot of their fields.
 */
module Objects {
  import opened Text
  import opened Trees

  /** A configuration value. A nested object is a reference. */
  datatype Any = Nil | Flag(b: bool) | Num(literal: string) | Str(text: string) | Items(items: seq<Any>) | Ref(o: Object)

  class Object {
    var keys: seq<string>
    var vals: map<string, Any>
    ghost var entries: seq<Entry>  // the object as a tree

    constructor ()
      ensures keys == [] && vals == map[] && entries == []
    {
      keys := [];
      vals := map[];
      entries := [];
    }

    /** Writes a key, appending it when it is new and keeping its position when
        it is not. */
    method Set(key: string, value: Any, ghost S: set<Object>)
      requires this in S && Refs(value) <= S
      modifies this
      ensures Snap(S) == old(Snap(S)[this := Written(Snap(S)[this], key, value, Tree(Snap(S), value))])
    {
      hide Put, Tree, Refs;
      entries := Put(entries, key, Tree(Snap(S), value));
      if key !in vals {
        keys := keys + [key];
      }
      vals := vals[key := value];
    }

    /** Writes a key, moving it to the end when it is already present. */
    method SetLast(key: string, value: Any, ghost S: set<Object>)
      requires this in S && Refs(value) <= S
      modifies this
      ensures Snap(S) == old(Snap(S)[this := WrittenLast(Snap(S)[this], key, value, Tree(Snap(S), value))])
    {
      hide PutLast, Tree, Refs, Without;
      ghost var before := Snap(S);
      ghost var tree := Tree(before, value);
      entries := PutLast(entries, key, tree);
      if key in vals {
        var rest := RemoveFirst(keys, key);
        keys := rest;
      }
      keys := keys + [key];
      vals := vals[key := value];
      assert Snap(S)[this] == WrittenLast(before[this], key, value, tree);
    }

    method Value(key: string) returns (value: Any)
      ensures value == if key in vals then vals[key] else Nil
    {
      value := if key in vals then vals[key] else Nil;
    }
  }

  method RemoveFirst(keys: seq<string>, key: string) returns (rest: seq<string>)
    ensures rest == Without(keys, key)
  {
    for i := 0 to |keys|
      invariant key !in keys[..i]
    {
      if keys[i] == key {
        WithoutIs(keys, key, i);
        return keys[..i] + keys[i + 1..];
      }
      assert keys[..i + 1] == keys[..i] + [keys[i]];
    }
    assert keys[..|keys|] == keys;
    WithoutNothing(keys, key);
    return keys;
  }

  /* ---- snapshots ---- */

  datatype Shape = Shape(keys: seq<string>, vals: map<string, Any>, entries: seq<Entry>)

  type Heap = map<Object, Shape>

  ghost function Snap(S: set<Object>): Heap
    reads S
  {
    map o | o in S :: Shape(o.keys, o.vals, o.entries)
  }

  /** The objects a value refers to directly. */
  ghost function Refs(v: Any): set<Object>
    decreases v, 0
  {
    match v
    case Items(items) => AllRefs(items)
    case Ref(o) => {o}
    case _ => {}
  }

  ghost function AllRefs(items: seq<Any>): set<Object>
    decreases items, 1
  {
    if items == [] then {} else AllRefs(items[..|items| - 1]) + Refs(items[|items| - 1])
  }

  /** A value as a tree, nested objects expanded. */
  ghost function Tree(h: Heap, v: Any): Value
    requires Refs(v) <= h.Keys
    decreases v, 0
  {
    match v
    case Nil => Null
    case Flag(b) => Bool(b)
    case Num(literal) => Number(literal)
    case Str(text) => Trees.Text(text)
    case Items(items) => List(AllTrees(h, items))
    case Ref(o) => Map(h[o].entries)
  }

  ghost function AllTrees(h: Heap, items: seq<Any>): (ts: seq<Value>)
    requires AllRefs(items) <= h.Keys
    ensures |ts| == |items|
    decreases items, 1
  {
    if items == [] then [] else AllTrees(h, items[..|items| - 1]) + [Tree(h, items[|items| - 1])]
  }

  function Without(keys: seq<string>, key: string): seq<string> {
    if keys == [] then [] else if keys[0] == key then keys[1..] else [keys[0]] + Without(keys[1..], key)
  }

  lemma {:induction false} WithoutIs(keys: seq<string>, key: string, i: nat)
    requires i < |keys| && keys[i] == key && key !in keys[..i]
    ensures Without(keys, key) == keys[..i] + keys[i + 1..]
  {
    if i > 0 {
      assert keys[..i][0] == keys[0];
      assert keys[1..][..i - 1] == keys[..i][1..];
      WithoutIs(keys[1..], key, i - 1);
    }
  }

  lemma {:induction false} WithoutNothing(keys: seq<string>, key: string)
    requires key !in keys
    ensures Without(keys, key) == keys
  {
    if keys != [] {
      WithoutNothing(keys[1..], key);
    }
  }

  function Written(s: Shape, key: string, v: Any, tree: Value): Shape {
    Shape(if key in s.vals then s.keys else s.keys + [key], s.vals[key := v], Put(s.entries, key, tree))
  }

  function WrittenLast(s: Shape, key: string, v: Any, tree: Value): Shape {
    Shape((if key in s.vals then Without(s.keys, key) else s.keys) + [key], s.vals[key := v], PutLast(s.entries, key, tree))
  }

  /* ---- well-formed heaps ---- */

  /** The keys are those of the map, each once. */
  ghost predicate Ordered(s: Shape) { Distinct(s.keys) && forall k :: k in s.keys <==> k in s.vals }

  /** The keys, the map and the tree of one object agree, and what it refers to
      is in the heap. */
  ghost predicate Agrees(h: Heap, s: Shape) {
    && Ordered(s)
    && (forall k :: k in s.vals ==> Refs(s.vals[k]) <= h.Keys)
    && |s.entries| == |s.keys|
    && (forall i :: 0 <= i < |s.keys| ==> s.entries[i] == Entry(s.keys[i], Tree(h, s.vals[s.keys[i]])))
  }

  ghost predicate ClosedIn(h: Heap) { forall o :: o in h ==> Agrees(h, h[o]) }

  /** Nothing in the heap refers to the object. */
  ghost predicate RootIn(h: Heap, r: Object) {
    forall o :: o in h ==> Avoids(h[o], r)
  }

  ghost predicate Avoids(s: Shape, r: Object) { forall k :: k in s.vals ==> r !in Refs(s.vals[k]) }

  lemma {:induction false} TreeAgrees(h: Heap, g: Heap, v: Any)
    requires Refs(v) <= h.Keys && Refs(v) <= g.Keys
    requires forall o :: o in Refs(v) ==> h[o].entries == g[o].entries
    ensures Tree(h, v) == Tree(g, v)
    decreases v, 0
  {
    match v
    case Items(items) => AllTreesAgree(h, g, items);
    case _ =>
  }

  lemma {:induction false} AllTreesAgree(h: Heap, g: Heap, items: seq<Any>)
    requires AllRefs(items) <= h.Keys && AllRefs(items) <= g.Keys
    requires forall o :: o in AllRefs(items) ==> h[o].entries == g[o].entries
    ensures AllTrees(h, items) == AllTrees(g, items)
    decreases items, 1
  {
    if items != [] {
      AllTreesAgree(h, g, items[..|items| - 1]);
      TreeAgrees(h, g, items[|items| - 1]);
    }
  }

  lemma {:induction false} AgreesElsewhere(h: Heap, g: Heap, s: Shape)
    requires Agrees(h, s)
    requires forall k, o :: k in s.vals && o in Refs(s.vals[k]) ==> o in g && g[o].entries == h[o].entries
    ensures Agrees(g, s)
  {
    hide Refs, Distinct;
    forall k | k in s.vals
      ensures Refs(s.vals[k]) <= g.Keys && Tree(g, s.vals[k]) == Tree(h, s.vals[k])
    {
      TreeAgrees(h, g, s.vals[k]);
      hide Tree;
    }
    hide Tree;
  }

  lemma {:induction false} KeysOfAgrees(h: Heap, s: Shape)
    requires Agrees(h, s)
    ensures Keys(s.entries) == s.keys
  {
    hide Tree, Refs, Distinct;
  }

  lemma {:induction false} FindOfAgrees(h: Heap, s: Shape, key: string)
    requires Agrees(h, s)
    ensures Find(s.entries, key) == if key in s.vals then Some(Tree(h, s.vals[key])) else None
    ensures Has(s.entries, key) <==> key in s.vals
  {
    KeysOfAgrees(h, s);
    HasIsKey(s.entries, key);
    hide Tree, Refs, Keys;
  }

  /** An object whose entries list its keys and its values' trees agrees. */
  lemma {:induction false} AgreesWhen(h: Heap, s: Shape)
    requires Distinct(s.keys) && Keys(s.entries) == s.keys && (forall k :: k in s.keys <==> k in s.vals)
    requires forall k :: k in s.vals ==> Refs(s.vals[k]) <= h.Keys && Find(s.entries, k) == Some(Tree(h, s.vals[k]))
    ensures Agrees(h, s)
  {
    hide Tree, Refs;
    assert |s.keys| == |Keys(s.entries)| == |s.entries|;
    forall i | 0 <= i < |s.keys|
      ensures s.entries[i] == Entry(s.keys[i], Tree(h, s.vals[s.keys[i]]))
    {
      assert s.keys[i] == Keys(s.entries)[i] == s.entries[i].key;
      FindAt(s.entries, i);
      hide Find;
      assert s.keys[i] in s.vals;
    }
  }

  lemma {:induction false} WrittenAgrees(h: Heap, s: Shape, key: string, v: Any)
    requires Agrees(h, s) && Refs(v) <= h.Keys
    ensures Agrees(h, Written(s, key, v, Tree(h, v)))
  {
    var t := Written(s, key, v, Tree(h, v));
    KeysOfAgrees(h, s);
    PutKeys(s.entries, key, Tree(h, v));
    hide Tree, Refs, Put, Keys;
    forall k | k in t.vals
      ensures Refs(t.vals[k]) <= h.Keys && Find(t.entries, k) == Some(Tree(h, t.vals[k]))
    {
      PutFinds(s.entries, key, Tree(h, v), k);
      FindOfAgrees(h, s, k);
      hide Find;
    }
    AgreesWhen(h, t);
  }

  lemma {:induction false} WithoutIsDropped(es: seq<Entry>, key: string)
    ensures Keys(Dropped(es, key)) == Without(Keys(es), key)
  {
    var i := Position(es, key);
    assert forall j :: 0 <= j < |es| ==> Keys(es)[j] == es[j].key;
    if i < |es| {
      WithoutIs(Keys(es), key, i);
      assert Keys(es[..i] + es[i + 1..]) == Keys(es)[..i] + Keys(es)[i + 1..];
    } else {
      HasIsKey(es, key);
      WithoutNothing(Keys(es), key);
    }
  }

  lemma {:induction false} WrittenLastAgrees(h: Heap, s: Shape, key: string, v: Any)
    requires Agrees(h, s) && Refs(v) <= h.Keys
    ensures Agrees(h, WrittenLast(s, key, v, Tree(h, v)))
  {
    var t := WrittenLast(s, key, v, Tree(h, v));
    KeysOfAgrees(h, s);
    WithoutIsDropped(s.entries, key);
    if key !in s.vals { WithoutNothing(s.keys, key); }
    PutLastKeys(s.entries, key, Tree(h, v));
    hide Tree, Refs, PutLast, Keys, Without, Dropped;
    forall k | k in t.vals
      ensures Refs(t.vals[k]) <= h.Keys && Find(t.entries, k) == Some(Tree(h, t.vals[k]))
    {
      PutLastFinds(s.entries, key, Tree(h, v), k);
      FindOfAgrees(h, s, k);
      hide Find;
    }
    AgreesWhen(h, t);
  }

  /** Writing into an object nothing refers to keeps the heap well formed. */
  lemma {:induction false} WriteKeeps(h: Heap, r: Object, t: Shape, v: Any)
    requires ClosedIn(h) && r in h && RootIn(h, r) && Agrees(h, t) && Avoids(t, r)
    ensures ClosedIn(h[r := t]) && RootIn(h[r := t], r)
  {
    var g := h[r := t];
    hide Agrees, Avoids;
    forall o | o in g ensures Agrees(g, g[o]) {
      assert Avoids(g[o], r) && Agrees(h, g[o]);
      AgreesBesides(h, r, t, g[o]);
    }
  }

  lemma {:induction false} AgreesBesides(h: Heap, r: Object, t: Shape, s: Shape)
    requires Agrees(h, s) && Avoids(s, r)
    ensures Agrees(h[r := t], s)
  {
    hide Refs, Tree, Distinct;
    AgreesElsewhere(h, h[r := t], s);
  }

  lemma {:induction false} SetKeeps(h: Heap, r: Object, key: string, v: Any)
    requires ClosedIn(h) && r in h && RootIn(h, r) && Refs(v) <= h.Keys - {r}
    ensures var g := h[r := Written(h[r], key, v, Tree(h, v))];
            ClosedIn(g) && RootIn(g, r) && g[r].entries == Put(h[r].entries, key, Tree(h, v))
  {
    WrittenAgrees(h, h[r], key, v);
    hide Agrees, Tree, Refs, Put;
    assert Avoids(h[r], r);
    WriteKeeps(h, r, Written(h[r], key, v, Tree(h, v)), v);
  }

  lemma {:induction false} SetLastKeeps(h: Heap, r: Object, key: string, v: Any)
    requires ClosedIn(h) && r in h && RootIn(h, r) && Refs(v) <= h.Keys - {r}
    ensures var g := h[r := WrittenLast(h[r], key, v, Tree(h, v))];
            ClosedIn(g) && RootIn(g, r) && g[r].entries == PutLast(h[r].entries, key, Tree(h, v))
  {
    WrittenLastAgrees(h, h[r], key, v);
    hide Agrees, Tree, Refs, PutLast, Without;
    assert Avoids(h[r], r);
    WriteKeeps(h, r, WrittenLast(h[r], key, v, Tree(h, v)), v);
  }

  lemma {:induction false} WithoutKeeps(keys: seq<string>, key: string)
    requires Distinct(keys)
    ensures Distinct(Without(keys, key)) && forall k :: k in Without(keys, key) <==> k in keys && k != key
  {
    if keys != [] {
      var rest := keys[1..];
      assert keys == [keys[0]] + rest;
      assert Distinct(rest) && keys[0] !in rest;
      if keys[0] != key {
        WithoutKeeps(rest, key);
      }
    }
  }

  /** Either write keeps one object's keys those of its map, each once, whatever
      refers to the object and whatever the value refers to. */
  lemma {:induction false} WritesKeepKeys(s: Shape, key: string, v: Any, tree: Value)
    requires Ordered(s)
    ensures Ordered(Written(s, key, v, tree)) && Ordered(WrittenLast(s, key, v, tree))
  {
    hide Put, PutLast, Without;
    WithoutKeeps(s.keys, key);
  }

  /** Two separate well-formed heaps make one. */
  lemma {:induction false} JoinKeeps(h: Heap, g: Heap, r: Object)
    requires ClosedIn(h) && ClosedIn(g) && h.Keys !! g.Keys && r in h && RootIn(h, r)
    ensures ClosedIn(h + g) && RootIn(h + g, r)
  {
    hide Refs, Tree, Distinct;
    forall o | o in h + g
      ensures Agrees(h + g, (h + g)[o]) && Avoids((h + g)[o], r)
    {
      AgreesElsewhere(if o in h then h else g, h + g, (h + g)[o]);
    }
  }

  lemma {:induction false} SnapJoin(S: set<Object>, T: set<Object>)
    ensures Snap(S + T) == Snap(S) + Snap(T)
    ensures Snap(S).Keys == S
  {
  }
}
