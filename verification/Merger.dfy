/**
 Deep copies, jq's `*` on objects, and the layers a configuration is composed of.
 */
module Merger {
  import opened Text
  import opened Trees
  import opened Objects

  /** Every object of the set is well formed and refers only into the set. */
  ghost predicate Closed(S: set<Object>)
    reads S
  {
    ClosedIn(Snap(S))
  }

  /** A fresh set of objects holding `out` and everything it refers to. */
  ghost predicate Holds(T: set<Object>, out: Object, entries: seq<Entry>)
    reads T
  {
    out in T && ClosedIn(Snap(T)) && RootIn(Snap(T), out) && out.entries == entries
  }

  lemma {:induction false} NewHolds(out: Object)
    requires out.keys == [] && out.vals == map[] && out.entries == []
    ensures Holds({out}, out, [])
  {
    assert Snap({out})[out] == Shape([], map[], []);
  }

  /** Sets a key of `out`, whose value lives in a separate set. */
  method SetIn(out: Object, key: string, value: Any, ghost T: set<Object>, ghost V: set<Object>,
      ghost entries: seq<Entry>)
    returns (ghost U: set<Object>)
    requires Holds(T, out, entries) && Closed(V) && T !! V && Refs(value) <= V
    modifies out
    ensures U == T + V && Holds(U, out, Put(entries, key, old(Tree(Snap(V), value))))
  {
    hide ClosedIn, RootIn, Refs, Tree, Put;
    U := T + V;
    ghost var h, g := Snap(T), Snap(V);
    SnapJoin(T, V);
    JoinKeeps(h, g, out);
    TreeInPart(h, g, value);
    SetKeeps(Snap(U), out, key, value);
    out.Set(key, value, U);
  }

  /** The same, moving a repeated key last. */
  method SetLastIn(out: Object, key: string, value: Any, ghost T: set<Object>, ghost V: set<Object>,
      ghost entries: seq<Entry>)
    returns (ghost U: set<Object>)
    requires Holds(T, out, entries) && Closed(V) && T !! V && Refs(value) <= V
    modifies out
    ensures U == T + V && Holds(U, out, PutLast(entries, key, old(Tree(Snap(V), value))))
  {
    hide ClosedIn, RootIn, Refs, Tree, PutLast;
    U := T + V;
    ghost var h, g := Snap(T), Snap(V);
    SnapJoin(T, V);
    JoinKeeps(h, g, out);
    TreeInPart(h, g, value);
    SetLastKeeps(Snap(U), out, key, value);
    out.SetLast(key, value, U);
  }

  lemma {:induction false} TreeInPart(h: Heap, g: Heap, v: Any)
    requires Refs(v) <= g.Keys && h.Keys !! g.Keys
    ensures Refs(v) <= (h + g).Keys && Tree(h + g, v) == Tree(g, v)
  {
    hide Refs;
    TreeAgrees(h + g, g, v);
  }

  /** The entry of an object at one of its positions. */
  lemma {:induction false} EntryAt(S: set<Object>, o: Object, i: nat)
    requires Closed(S) && o in S && i < |o.keys|
    ensures |o.entries| == |o.keys| && o.keys[i] in o.vals && Refs(o.vals[o.keys[i]]) <= S
    ensures o.entries[i] == Entry(o.keys[i], Tree(Snap(S), o.vals[o.keys[i]]))
  {
    hide Refs, Tree;
    assert Agrees(Snap(S), Snap(S)[o]);
  }

  lemma {:induction false} EntriesLength(S: set<Object>, o: Object)
    requires Closed(S) && o in S
    ensures |o.entries| == |o.keys| && Keys(o.entries) == o.keys && Distinct(o.keys)
  {
    assert Agrees(Snap(S), Snap(S)[o]);
    KeysOfAgrees(Snap(S), Snap(S)[o]);
  }

  /** Copying the entries one by one gives them back. */
  lemma {:induction false} CopyNext(es: seq<Entry>, i: nat)
    requires Distinct(Keys(es)) && i < |es|
    ensures Put(es[..i], es[i].key, es[i].val) == es[..i + 1]
  {
    assert forall j :: 0 <= j < |es| ==> Keys(es)[j] == es[j].key;
    PositionIs(es[..i], es[i].key, i);
  }

  /** A deep copy: fresh objects throughout, holding the same tree. */
  method Clone(o: Object, ghost S: set<Object>) returns (out: Object, ghost T: set<Object>)
    requires Closed(S) && o in S
    ensures fresh(T) && Holds(T, out, o.entries)
    decreases Map(o.entries), 0
  {
    hide ClosedIn, RootIn, Refs, Tree, Put, Keys;
    out := new Object();
    NewHolds(out);
    T := {out};
    EntriesLength(S, o);
    assert o.entries[..0] == [];
    for i := 0 to |o.keys|
      invariant fresh(T) && Holds(T, out, o.entries[..i])
    {
      EntryAt(S, o, i);
      CopyNext(o.entries, i);
      var k := o.keys[i];
      assert o.entries[i].val < Map(o.entries);
      var w, V := CloneValue(o.vals[k], S);
      T := SetIn(out, k, w, T, V, o.entries[..i]);
    }
    assert o.entries[..|o.keys|] == o.entries;
  }

  method CloneValue(v: Any, ghost S: set<Object>) returns (w: Any, ghost T: set<Object>)
    requires Closed(S) && Refs(v) <= S
    ensures fresh(T) && Closed(T) && Refs(w) <= T
    ensures Tree(Snap(T), w) == Tree(Snap(S), v)
    decreases Tree(Snap(S), v), 1
  {
    match v {
      case Ref(o) =>
        var out, U := Clone(o, S);
        w, T := Ref(out), U;
      case Items(items) =>
        var copies, U := CloneItems(items, S);
        w, T := Items(copies), U;
      case _ =>
        w, T := v, {};
    }
  }

  lemma {:induction false} NoItems(h: Heap)
    ensures AllRefs([]) == {} && AllTrees(h, []) == []
  {
  }

  lemma {:induction false} AllRefsPrefix(items: seq<Any>, i: nat)
    requires i <= |items|
    ensures AllRefs(items[..i]) <= AllRefs(items)
    ensures i < |items| ==> Refs(items[i]) <= AllRefs(items)
  {
    if i < |items| {
      var front := items[..|items| - 1];
      AllRefsPrefix(front, i);
      assert items[..i] == front[..i];
    } else {
      assert items[..i] == items;
    }
  }

  lemma {:induction false} AllTreesPrefix(h: Heap, items: seq<Any>, i: nat)
    requires AllRefs(items) <= h.Keys && i < |items|
    ensures Refs(items[i]) <= h.Keys && AllTrees(h, items)[i] == Tree(h, items[i])
  {
    AllRefsPrefix(items, i);
    if i < |items| - 1 {
      AllTreesPrefix(h, items[..|items| - 1], i);
    }
  }

  lemma {:induction false} ItemsNext(h: Heap, items: seq<Any>, i: nat)
    requires AllRefs(items) <= h.Keys && i < |items|
    ensures AllRefs(items[..i]) <= h.Keys && AllRefs(items[..i + 1]) <= h.Keys && Refs(items[i]) <= h.Keys
    ensures AllTrees(h, items)[i] == Tree(h, items[i])
    ensures AllTrees(h, items[..i + 1]) == AllTrees(h, items[..i]) + [Tree(h, items[i])]
  {
    AllRefsPrefix(items, i);
    AllRefsPrefix(items, i + 1);
    AllTreesPrefix(h, items, i);
    assert items[..i + 1][..i] == items[..i];
    hide Tree, Refs;
  }

  lemma {:induction false} ClosedJoin(h: Heap, g: Heap)
    requires ClosedIn(h) && ClosedIn(g) && h.Keys !! g.Keys
    ensures ClosedIn(h + g)
  {
    hide Refs, Tree, Distinct;
    forall o | o in h + g ensures Agrees(h + g, (h + g)[o]) {
      AgreesElsewhere(if o in h then h else g, h + g, (h + g)[o]);
    }
  }

  lemma {:induction false} ItemsJoin(h: Heap, g: Heap, out: seq<Any>, w: Any)
    requires h.Keys !! g.Keys && AllRefs(out) <= h.Keys && Refs(w) <= g.Keys
    ensures AllRefs(out + [w]) <= (h + g).Keys
    ensures AllTrees(h + g, out + [w]) == AllTrees(h, out) + [Tree(g, w)]
  {
    assert (out + [w])[..|out|] == out;
    assert AllRefs(out + [w]) == AllRefs(out) + Refs(w);
    hide Refs, AllRefs;
    AllTreesAgree(h + g, h, out);
    TreeAgrees(h + g, g, w);
    hide Tree;
  }

  method CloneItems(items: seq<Any>, ghost S: set<Object>) returns (out: seq<Any>, ghost T: set<Object>)
    requires Closed(S) && AllRefs(items) <= S
    ensures fresh(T) && Closed(T) && AllRefs(out) <= T
    ensures AllTrees(Snap(T), out) == AllTrees(Snap(S), items)
    decreases List(AllTrees(Snap(S), items)), 0
  {
    hide ClosedIn, Refs, Tree, AllRefs, AllTrees;
    out, T := [], {};
    assert items[..0] == [];
    NoItems(Snap(S));
    NoItems(Snap(T));
    assert Closed({}) by { NothingClosed(); }
    for i := 0 to |items|
      invariant AllRefs(items[..i]) <= S
      invariant fresh(T) && Closed(T) && AllRefs(out) <= T
      invariant AllTrees(Snap(T), out) == AllTrees(Snap(S), items[..i])
    {
      ItemsNext(Snap(S), items, i);
      assert AllTrees(Snap(S), items)[i] < List(AllTrees(Snap(S), items));
      var w, V := CloneValue(items[i], S);
      SnapJoin(T, V);
      ClosedJoin(Snap(T), Snap(V));
      ItemsJoin(Snap(T), Snap(V), out, w);
      out, T := out + [w], T + V;
    }
    assert items[..|items|] == items;
  }

  lemma {:induction false} NothingClosed()
    ensures Closed({})
  {
  }

  /* ---- jq's `*` ---- */

  ghost function EntriesOf(o: Object?): seq<Entry>
    reads o
  {
    if o == null then [] else o.entries
  }

  lemma {:induction false} MergeNext(left: seq<Entry>, right: seq<Entry>, i: nat)
    requires i < |right|
    ensures var out := Merge(left, right[..i]);
            Merge(left, right[..i + 1]) == Put(out, right[i].key, MergedValue(Find(out, right[i].key), right[i].val))
  {
    assert right[..i + 1][..i] == right[..i];
  }

  lemma {:induction false} FindIn(T: set<Object>, o: Object, key: string)
    requires Closed(T) && o in T
    ensures key in o.vals ==> Refs(o.vals[key]) <= T && Find(o.entries, key) == Some(Tree(Snap(T), o.vals[key]))
    ensures key !in o.vals ==> Find(o.entries, key) == None
  {
    hide Refs, Tree, Find;
    var s := Snap(T)[o];
    assert Agrees(Snap(T), s);
    FindOfAgrees(Snap(T), s, key);
  }

  /** The merge of two objects: fresh throughout, so it shares nothing with
      either, and neither is modified. */
  method DeepMerge(left: Object?, right: Object?, ghost L: set<Object>, ghost R: set<Object>)
    returns (out: Object, ghost T: set<Object>)
    requires left != null ==> Closed(L) && left in L
    requires right != null ==> Closed(R) && right in R
    ensures fresh(T) && Holds(T, out, Merge(EntriesOf(left), EntriesOf(right)))
    decreases Map(EntriesOf(right)), 0
  {
    hide ClosedIn, RootIn, Refs, Tree, Put, Keys, Merge, MergedValue, Find;
    if left != null {
      out, T := Clone(left, L);
    } else {
      out := new Object();
      NewHolds(out);
      T := {out};
    }
    MergeEmptyRight(EntriesOf(left));
    if right == null {
      return;
    }
    EntriesLength(R, right);
    ghost var es := right.entries;
    assert es[..0] == [];
    for i := 0 to |right.keys|
      invariant fresh(T) && Holds(T, out, Merge(EntriesOf(left), es[..i]))
    {
      EntryAt(R, right, i);
      MergeNext(EntriesOf(left), es, i);
      var key := right.keys[i];
      assert es[i].val < Map(es);
      var merged, V := MergeOne(out, key, right.vals[key], T, R, es[i].val);
      T := SetIn(out, key, merged, T, V, Merge(EntriesOf(left), es[..i]));
    }
    assert es[..|right.keys|] == es;
  }

  /** The value one key of the right operand ends with. */
  method MergeOne(out: Object, key: string, rightValue: Any, ghost T: set<Object>, ghost R: set<Object>,
      ghost tree: Value)
    returns (merged: Any, ghost V: set<Object>)
    requires Closed(T) && out in T && Closed(R) && Refs(rightValue) <= R && tree == Tree(Snap(R), rightValue)
    ensures fresh(V) && Closed(V) && Refs(merged) <= V
    ensures Tree(Snap(V), merged) == MergedValue(Find(out.entries, key), tree)
    decreases tree, 1
  {
    FindIn(T, out, key);
    var leftValue := out.Value(key);
    MergedValueOf(T, R, leftValue, rightValue, if key in out.vals then Some(leftValue) else None);
    hide ClosedIn, Merge, Find, MergedValue, Tree, Refs;
    if rightValue.Ref? && leftValue.Ref? {
      var nested, U := DeepMerge(leftValue.o, rightValue.o, T, R);
      RefTree(U, nested);
      return Ref(nested), U;
    }
    merged, V := CloneValue(rightValue, R);
  }

  /** What a merge makes of one key, read off the references. */
  lemma {:induction false} MergedValueOf(T: set<Object>, R: set<Object>, leftValue: Any, rightValue: Any,
      left: Option<Any>)
    requires Refs(leftValue) <= T && Refs(rightValue) <= R
    requires left == Some(leftValue) || (left == None && leftValue == Nil)
    ensures var found := if left.Some? then Some(Tree(Snap(T), leftValue)) else None;
            var tree := Tree(Snap(R), rightValue);
            if rightValue.Ref? && leftValue.Ref? then
              && leftValue.o in T && rightValue.o in R && tree == Map(rightValue.o.entries)
              && MergedValue(found, tree) == Map(Merge(leftValue.o.entries, rightValue.o.entries))
            else MergedValue(found, tree) == tree
  {
    hide Merge;
  }

  /* ---- the layers ---- */

  /** One layer's endpoints: an absent key, null and false all give none, and
      anything but a mapping is refused. */
  function EndpointsIn(es: seq<Entry>): Option<seq<Entry>> {
    match Find(es, "endpoints")
    case None => Some([])
    case Some(Null) => Some([])
    case Some(Bool(b)) => if b then None else Some([])
    case Some(Map(m)) => Some(m)
    case Some(_) => None
  }

  method EndpointsOf(layer: Object, ghost S: set<Object>) returns (ok: bool, endpoints: Object?, ghost T: set<Object>)
    requires Closed(S) && layer in S
    ensures ok <==> EndpointsIn(layer.entries).Some?
    ensures ok ==> endpoints != null && endpoints in T && Closed(T) && endpoints.entries == EndpointsIn(layer.entries).value
    ensures ok ==> T == S || fresh(T)
  {
    FindIn(S, layer, "endpoints");
    hide ClosedIn, Find;
    var value := layer.Value("endpoints");
    if value == Nil || value == Flag(false) {
      endpoints := new Object();
      NewHolds(endpoints);
      return true, endpoints, {endpoints};
    }
    if value.Ref? {
      return true, value.o, S;
    }
    return false, null, {};
  }

  datatype Layers = Refused | Composed(entries: seq<Entry>)

  /** The configuration composed of the defaults, the repository's layer over
      them, and the operator's endpoints over theirs. */
  function Compose(defaults: seq<Entry>, repo: seq<Entry>, operator: seq<Entry>): Layers {
    var merged := Merge(defaults, repo);
    match (EndpointsIn(merged), EndpointsIn(operator))
    case (Some(r), Some(o)) => Composed(Put(merged, "endpoints", Map(Merge(r, o))))
    case _ => Refused
  }

  method Load(defaults: Object, repo: Object, operator: Object, ghost S: set<Object>)
    returns (ok: bool, merged: Object, ghost T: set<Object>)
    requires Closed(S) && defaults in S && repo in S && operator in S
    ensures ok <==> Compose(defaults.entries, repo.entries, operator.entries).Composed?
    ensures ok ==> fresh(T) && merged in T && Closed(T)
    ensures ok ==> merged.entries == Compose(defaults.entries, repo.entries, operator.entries).entries
  {
    hide ClosedIn, RootIn, Refs, Tree, Put, Keys, Merge, EndpointsIn;
    merged, T := DeepMerge(defaults, repo, S, S);
    var repoOk, repoEndpoints, A := EndpointsOf(merged, T);
    if !repoOk {
      return false, merged, T;
    }
    var operatorOk, operatorEndpoints, B := EndpointsOf(operator, S);
    if !operatorOk {
      return false, merged, T;
    }
    var endpoints, V := DeepMerge(repoEndpoints, operatorEndpoints, A, B);
    assert Tree(Snap(V), Ref(endpoints)) == Map(endpoints.entries) && Refs(Ref(endpoints)) <= V by { RefTree(V, endpoints); }
    T := SetIn(merged, "endpoints", Ref(endpoints), T, V, merged.entries);
    ok := true;
  }

  lemma {:induction false} RefTree(V: set<Object>, o: Object)
    requires o in V
    ensures Refs(Ref(o)) <= V && Tree(Snap(V), Ref(o)) == Map(o.entries)
  {
  }

  /** Two operator layers that both load differ in nothing but `endpoints`: every
      other key has the same value, and all the keys stand in the same order. */
  lemma {:induction false} OperatorMovesOnlyEndpoints(defaults: seq<Entry>, repo: seq<Entry>, one: seq<Entry>,
      two: seq<Entry>)
    requires Compose(defaults, repo, one).Composed? && Compose(defaults, repo, two).Composed?
    ensures var a, b := Compose(defaults, repo, one).entries, Compose(defaults, repo, two).entries;
            && Keys(a) == Keys(b)
            && forall k :: k != "endpoints" ==> Find(a, k) == Find(b, k) == Find(Merge(defaults, repo), k)
  {
    hide Merge, Put, Keys, Find;
    var m := Merge(defaults, repo);
    var r := EndpointsIn(m).value;
    var x, y := Map(Merge(r, EndpointsIn(one).value)), Map(Merge(r, EndpointsIn(two).value));
    hide EndpointsIn;
    PutKeys(m, "endpoints", x);
    PutKeys(m, "endpoints", y);
    forall k | k != "endpoints"
      ensures Find(Put(m, "endpoints", x), k) == Find(m, k) == Find(Put(m, "endpoints", y), k)
    {
      PutFinds(m, "endpoints", x, k);
      PutFinds(m, "endpoints", y, k);
    }
  }

  /** Which layer answers: for every key but `endpoints` the repository's over the
      defaults', and for a name under `endpoints` the operator's over theirs. Only
      where both hold mappings do they merge. */
  lemma {:induction false} LayersAnswer(defaults: seq<Entry>, repo: seq<Entry>, operator: seq<Entry>, k: string)
    requires Compose(defaults, repo, operator).Composed?
    requires Distinct(Keys(repo)) && Distinct(Keys(EndpointsIn(operator).value))
    ensures var out := Compose(defaults, repo, operator).entries;
            var theirs, ours := EndpointsIn(Merge(defaults, repo)).value, EndpointsIn(operator).value;
            && EndpointsIn(out).Some?
            && Find(EndpointsIn(out).value, k) == Answer(Find(theirs, k), Find(ours, k))
            && (k != "endpoints" ==> Find(out, k) == Answer(Find(defaults, k), Find(repo, k)))
  {
    hide Merge, Put, Keys, Find, MergedValue, Distinct;
    var m := Merge(defaults, repo);
    var theirs, ours := EndpointsIn(m).value, EndpointsIn(operator).value;
    var merged := Map(Merge(theirs, ours));
    PutFinds(m, "endpoints", merged, "endpoints");
    PutFinds(m, "endpoints", merged, k);
    MergeAnswers(theirs, ours, k);
    MergeAnswers(defaults, repo, k);
    hide Answer;
  }

  /** The upper layer's value stands, whatever the lower one holds; two mappings
      merge, and where the upper layer has none the lower one's stands. */
  function Answer(lower: Option<Value>, upper: Option<Value>): Option<Value> {
    match (lower, upper)
    case (_, None) => lower
    case (Some(Map(l)), Some(Map(u))) => Some(Map(Merge(l, u)))
    case (_, Some(v)) => Some(v)
  }

  lemma {:induction false} MergeAnswers(lower: seq<Entry>, upper: seq<Entry>, k: string)
    requires Distinct(Keys(upper))
    ensures Find(Merge(lower, upper), k) == Answer(Find(lower, k), Find(upper, k))
  {
    MergeFinds(lower, upper, k);
    hide Merge, Distinct, Keys;
  }

  /** A layer's endpoints are refused exactly when the key holds `true`, a number, a
      text or a list. */
  predicate Refuses(layer: seq<Entry>) {
    match Find(layer, "endpoints")
    case Some(Bool(b)) => b
    case Some(Number(_)) => true
    case Some(Text(_)) => true
    case Some(List(_)) => true
    case _ => false
  }

  /** The layers compose exactly when neither the configuration under the operator's
      nor the operator's own holds such endpoints, an absent key standing for none. */
  lemma {:induction false} ComposesExactlyWhen(defaults: seq<Entry>, repo: seq<Entry>, operator: seq<Entry>)
    requires Distinct(Keys(repo))
    ensures Compose(defaults, repo, operator).Composed? <==>
            && !Refuses(operator)
            && (if Has(repo, "endpoints") && !(Find(repo, "endpoints").value.Map? && Has(defaults, "endpoints") && Find(defaults, "endpoints").value.Map?)
                then !Refuses(repo) else Has(repo, "endpoints") || !Refuses(defaults))
  {
    MergeAnswers(defaults, repo, "endpoints");
    FindHas(repo, "endpoints");
    FindHas(defaults, "endpoints");
    hide Merge, Put, Find, Has, Keys, Distinct;
  }

  lemma {:induction false} FindHas(es: seq<Entry>, k: string)
    ensures Has(es, k) <==> Find(es, k).Some?
  {
  }
}
