/**
 Configuration values as trees, the two ways of writing a key into an ordered
 mapping, and jq's `*` over mappings.
 */
module Trees {
  import opened Text

  datatype Value =
    | Null
    | Bool(b: bool)
    | Number(literal: string)
    | Text(text: string)
    | List(items: seq<Value>)
    | Map(entries: seq<Entry>)

  datatype Entry = Entry(key: string, val: Value)

  function Keys(es: seq<Entry>): seq<string> {
    seq(|es|, k requires 0 <= k < |es| => es[k].key)
  }

  /** The position of a key, or the number of entries when it is absent. */
  function Position(es: seq<Entry>, key: string): (i: nat)
    ensures i <= |es|
    ensures i < |es| ==> es[i].key == key
    ensures forall j :: 0 <= j < i ==> es[j].key != key
  {
    if es == [] then 0
    else if es[0].key == key then 0
    else
      var i := 1 + Position(es[1..], key);
      assert forall j :: 1 <= j < i ==> es[j] == es[1..][j - 1];
      i
  }

  predicate Has(es: seq<Entry>, key: string) { Position(es, key) < |es| }

  function Find(es: seq<Entry>, key: string): Option<Value> {
    var i := Position(es, key);
    if i < |es| then Some(es[i].val) else None
  }

  ghost predicate Distinct(keys: seq<string>) {
    forall i, j :: 0 <= i < j < |keys| ==> keys[i] != keys[j]
  }

  /** A repeated key keeps its first position. */
  function Put(es: seq<Entry>, key: string, val: Value): seq<Entry> {
    var i := Position(es, key);
    if i < |es| then es[i := Entry(key, val)] else es + [Entry(key, val)]
  }

  /** A repeated key moves to the end. */
  function PutLast(es: seq<Entry>, key: string, val: Value): seq<Entry> {
    Dropped(es, key) + [Entry(key, val)]
  }

  function Dropped(es: seq<Entry>, key: string): seq<Entry> {
    var i := Position(es, key);
    if i < |es| then es[..i] + es[i + 1..] else es
  }

  /* ---- finding ---- */

  lemma {:induction false} PositionIs(es: seq<Entry>, key: string, i: nat)
    requires i <= |es| && (i < |es| ==> es[i].key == key)
    requires forall j :: 0 <= j < i ==> es[j].key != key
    ensures Position(es, key) == i
  {
  }

  lemma {:induction false} HasIsKey(es: seq<Entry>, key: string)
    ensures Has(es, key) <==> key in Keys(es)
  {
    var i := Position(es, key);
    if i < |es| {
      assert Keys(es)[i] == key;
    } else {
      assert forall j :: 0 <= j < |es| ==> Keys(es)[j] != key;
    }
  }

  lemma {:induction false} FindAt(es: seq<Entry>, i: nat)
    requires Distinct(Keys(es)) && i < |es|
    ensures Find(es, es[i].key) == Some(es[i].val)
  {
    assert forall j :: 0 <= j < |es| ==> Keys(es)[j] == es[j].key;
    PositionIs(es, es[i].key, i);
  }

  /** Two mappings with the same keys in the same order and the same values are
      the same mapping. */
  lemma {:induction false} SameEntries(a: seq<Entry>, b: seq<Entry>)
    requires Keys(a) == Keys(b) && Distinct(Keys(a))
    requires forall key :: key in Keys(a) ==> Find(a, key) == Find(b, key)
    ensures a == b
  {
    assert |a| == |Keys(a)| == |Keys(b)| == |b|;
    forall i | 0 <= i < |a| ensures a[i] == b[i] {
      assert Keys(a)[i] == a[i].key && Keys(b)[i] == b[i].key;
      FindAt(a, i);
      FindAt(b, i);
      hide Find;
      assert Find(a, Keys(a)[i]) == Find(b, Keys(a)[i]);
    }
  }

  /* ---- writing ---- */

  lemma {:induction false} PutFinds(es: seq<Entry>, key: string, val: Value, k: string)
    ensures Find(Put(es, key, val), k) == if k == key then Some(val) else Find(es, k)
  {
    var i, j := Position(es, key), Position(es, k);
    var next := Put(es, key, val);
    if k == key {
      PositionIs(next, k, i);
    } else {
      PositionIs(next, k, if j < |es| then j else |next|);
    }
  }

  lemma {:induction false} PutKeys(es: seq<Entry>, key: string, val: Value)
    ensures Keys(Put(es, key, val)) == if key in Keys(es) then Keys(es) else Keys(es) + [key]
    ensures Distinct(Keys(es)) ==> Distinct(Keys(Put(es, key, val)))
  {
    HasIsKey(es, key);
  }

  lemma {:induction false} DroppedFinds(es: seq<Entry>, key: string, k: string)
    requires k != key
    ensures Find(Dropped(es, key), k) == Find(es, k)
  {
    var i, j := Position(es, key), Position(es, k);
    var next := Dropped(es, key);
    if i < |es| {
      assert forall m :: 0 <= m < |next| ==> next[m] == if m < i then es[m] else es[m + 1];
      PositionIs(next, k, if j < i then j else if j < |es| then j - 1 else |next|);
    }
  }

  lemma {:induction false} DroppedKeys(es: seq<Entry>, key: string)
    requires Distinct(Keys(es))
    ensures Distinct(Keys(Dropped(es, key))) && key !in Keys(Dropped(es, key))
    ensures forall k :: k in Keys(Dropped(es, key)) <==> k in Keys(es) && k != key
  {
    var i, next := Position(es, key), Dropped(es, key);
    assert forall m :: 0 <= m < |es| ==> Keys(es)[m] == es[m].key;
    if i < |es| {
      assert forall m :: 0 <= m < |next| ==> Keys(next)[m] == Keys(es)[if m < i then m else m + 1];
      forall k | k in Keys(es) && k != key ensures k in Keys(next) {
        var m :| 0 <= m < |es| && Keys(es)[m] == k;
        assert Keys(next)[if m < i then m else m - 1] == k;
      }
    } else {
      HasIsKey(es, key);
    }
  }

  lemma {:induction false} AppendFinds(es: seq<Entry>, e: Entry, k: string)
    ensures Find(es + [e], k) == if Has(es, k) then Find(es, k) else if e.key == k then Some(e.val) else None
  {
    var j := Position(es, k);
    PositionIs(es + [e], k, if j < |es| then j else if e.key == k then |es| else |es| + 1);
  }

  lemma {:induction false} PutLastFinds(es: seq<Entry>, key: string, val: Value, k: string)
    requires Distinct(Keys(es))
    ensures Find(PutLast(es, key, val), k) == if k == key then Some(val) else Find(es, k)
  {
    var d := Dropped(es, key);
    AppendFinds(d, Entry(key, val), k);
    HasIsKey(d, key);
    DroppedKeys(es, key);
    if k != key {
      DroppedFinds(es, key, k);
    }
    hide Dropped, Keys;
  }

  lemma {:induction false} PutLastKeys(es: seq<Entry>, key: string, val: Value)
    requires Distinct(Keys(es))
    ensures Keys(PutLast(es, key, val)) == Keys(Dropped(es, key)) + [key]
    ensures Distinct(Keys(PutLast(es, key, val)))
    ensures forall k :: k in Keys(PutLast(es, key, val)) <==> k in Keys(es) || k == key
  {
    DroppedKeys(es, key);
    var d := Dropped(es, key);
    assert Keys(d + [Entry(key, val)]) == Keys(d) + [key];
    hide Dropped, Keys;
  }

  /* ---- jq's `*` ---- */

  /** The value a merge gives a key of the right operand. */
  function MergedValue(left: Option<Value>, right: Value): Value
    decreases right, 0
  {
    match right
    case Map(r) => if left.Some? && left.value.Map? then Map(Merge(left.value.entries, r)) else right
    case _ => right
  }

  function Merge(left: seq<Entry>, right: seq<Entry>): seq<Entry>
    decreases right, 1
  {
    if right == [] then left
    else
      var out, e := Merge(left, right[..|right| - 1]), right[|right| - 1];
      Put(out, e.key, MergedValue(Find(out, e.key), e.val))
  }

  /** No key is repeated, at any depth. */
  ghost predicate Proper(v: Value)
    decreases v, 0
  {
    match v
    case List(items) => forall i :: 0 <= i < |items| ==> Proper(items[i])
    case Map(es) => ProperMap(es)
    case _ => true
  }

  ghost predicate ProperMap(es: seq<Entry>)
    decreases es, 1
  {
    Distinct(Keys(es)) && forall i :: 0 <= i < |es| ==> Proper(es[i].val)
  }

  lemma {:induction false} KeysFront(es: seq<Entry>)
    requires es != []
    ensures Keys(es) == Keys(es[..|es| - 1]) + [es[|es| - 1].key]
    ensures Distinct(Keys(es)) ==> Distinct(Keys(es[..|es| - 1])) && es[|es| - 1].key !in Keys(es[..|es| - 1])
  {
    var front, last := es[..|es| - 1], es[|es| - 1];
    assert Keys(es) == Keys(front) + [last.key];
    hide Keys;
    DistinctFront(Keys(front), last.key);
  }

  lemma {:induction false} DistinctFront(keys: seq<string>, key: string)
    ensures Distinct(keys + [key]) <==> Distinct(keys) && key !in keys
  {
    var all := keys + [key];
    assert all[|keys|] == key && forall i :: 0 <= i < |keys| ==> all[i] == keys[i];
  }

  /** The right operand's keys that the left does not have. */
  function NewKeys(left: seq<string>, right: seq<string>): seq<string> {
    if right == [] then []
    else
      var front, k := NewKeys(left, right[..|right| - 1]), right[|right| - 1];
      if k in left || k in right[..|right| - 1] then front else front + [k]
  }

  /** The left operand's key order is kept and the right's new keys follow it. */
  lemma {:induction false} MergeKeys(left: seq<Entry>, right: seq<Entry>)
    ensures Keys(Merge(left, right)) == Keys(left) + NewKeys(Keys(left), Keys(right))
    ensures forall k :: k in NewKeys(Keys(left), Keys(right)) <==> k in Keys(right) && k !in Keys(left)
    ensures Distinct(Keys(left)) ==> Distinct(Keys(Merge(left, right)))
  {
    if right == [] {
      assert Keys(right) == [];
    } else {
      var front, e := right[..|right| - 1], right[|right| - 1];
      MergeKeys(left, front);
      KeysFront(right);
      var out := Merge(left, front);
      PutKeys(out, e.key, MergedValue(Find(out, e.key), e.val));
      assert Keys(right)[..|right| - 1] == Keys(front);
      hide Put, Find, Keys, MergedValue;
    }
  }

  /** The value at a key: both mappings merge, and otherwise the right wins. */
  lemma {:induction false} MergeFinds(left: seq<Entry>, right: seq<Entry>, k: string)
    requires Distinct(Keys(right))
    ensures Find(Merge(left, right), k) ==
            if Has(right, k) then Some(MergedValue(Find(left, k), Find(right, k).value)) else Find(left, k)
  {
    if right != [] {
      var front, e := right[..|right| - 1], right[|right| - 1];
      KeysFront(right);
      MergeFinds(left, front, k);
      MergeFinds(left, front, e.key);
      HasIsKey(front, e.key);
      var out := Merge(left, front);
      PutFinds(out, e.key, MergedValue(Find(out, e.key), e.val), k);
      assert front + [e] == right;
      AppendFinds(front, e, k);
      hide Put, Keys, MergedValue, Position;
    }
  }

  /* ---- laws ---- */

  lemma {:induction false} MergeEmptyRight(a: seq<Entry>)
    ensures Merge(a, []) == a
  {
  }

  lemma {:induction false} NewKeysOfNone(keys: seq<string>)
    requires Distinct(keys)
    ensures NewKeys([], keys) == keys
  {
    if keys != [] {
      var front := keys[..|keys| - 1];
      NewKeysOfNone(front);
      assert forall i :: 0 <= i < |front| ==> keys[i] == front[i];
    }
  }

  /** The empty mapping is an identity on the left too. */
  lemma {:induction false} MergeEmptyLeft(a: seq<Entry>)
    requires Distinct(Keys(a))
    ensures Merge([], a) == a
  {
    var m := Merge([], a);
    MergeKeys([], a);
    assert Keys([]) == [];
    NewKeysOfNone(Keys(a));
    hide Merge, Keys, Distinct;
    forall k | k in Keys(m) ensures Find(m, k) == Find(a, k) {
      MergeFinds([], a, k);
      HasIsKey(a, k);
      NothingFound(k);
    }
    SameEntries(m, a);
  }

  lemma {:induction false} NothingFound(k: string)
    ensures Find([], k) == None
  {
  }

  lemma {:induction false} NoNewKeys(left: seq<string>, right: seq<string>)
    requires forall k :: k in right ==> k in left
    ensures NewKeys(left, right) == []
  {
    if right != [] {
      var front := right[..|right| - 1];
      assert front + [right[|right| - 1]] == right;
      NoNewKeys(left, front);
    }
  }

  lemma {:induction false} MergedValueSelf(v: Value)
    requires Proper(v)
    ensures MergedValue(Some(v), v) == v
    decreases v, 0
  {
    if v.Map? {
      MergeSelf(v.entries);
    }
  }

  /** Merging a mapping with itself changes nothing. */
  lemma {:induction false} MergeSelf(a: seq<Entry>)
    requires ProperMap(a)
    ensures Merge(a, a) == a
    decreases a, 1
  {
    var m := Merge(a, a);
    MergeKeys(a, a);
    NoNewKeys(Keys(a), Keys(a));
    forall k | k in Keys(m) ensures Find(m, k) == Find(a, k) {
      MergeFinds(a, a, k);
      HasIsKey(a, k);
      var i := Position(a, k);
      MergedValueSelf(a[i].val);
      hide Merge, MergedValue, Keys;
    }
    hide Merge, Keys, Position;
    SameEntries(m, a);
  }

  lemma {:induction false} MergedValueTwice(left: Option<Value>, v: Value)
    requires Proper(v) && (left.Some? ==> Proper(left.value))
    ensures MergedValue(Some(MergedValue(left, v)), v) == MergedValue(left, v)
    decreases v, 0
  {
    if v.Map? {
      if left.Some? && left.value.Map? {
        MergeTwice(left.value.entries, v.entries);
      } else {
        MergeSelf(v.entries);
      }
    }
  }

  /** Merging the same operand twice is merging it once. */
  lemma {:induction false} MergeTwice(a: seq<Entry>, b: seq<Entry>)
    requires ProperMap(a) && ProperMap(b)
    ensures Merge(Merge(a, b), b) == Merge(a, b)
    decreases b, 1
  {
    var once := Merge(a, b);
    var twice := Merge(once, b);
    MergeKeys(a, b);
    MergeKeys(once, b);
    NoNewKeys(Keys(once), Keys(b));
    MergeTwiceFinds(a, b);
    hide Merge, Keys, Position;
    assert Keys(twice) == Keys(once) + [] == Keys(once);
    MergedAgain(once, twice, b);
  }

  lemma {:induction false} FindProper(a: seq<Entry>, k: string)
    requires ProperMap(a)
    ensures Find(a, k).Some? ==> Proper(Find(a, k).value)
  {
  }

  /** Each key of `b` has, in `twice`, the value it has in `once`. */
  lemma {:induction false} MergeTwiceFinds(a: seq<Entry>, b: seq<Entry>)
    requires ProperMap(a) && ProperMap(b)
    ensures forall k :: Find(Merge(Merge(a, b), b), k) == Find(Merge(a, b), k)
    decreases b, 0
  {
    forall k ensures Find(Merge(Merge(a, b), b), k) == Find(Merge(a, b), k) {
      MergeFinds(a, b, k);
      MergeFinds(Merge(a, b), b, k);
      if Has(b, k) {
        var i := Position(b, k);
        FindProper(a, k);
        MergedValueTwice(Find(a, k), b[i].val);
      }
      hide Merge, MergedValue, Keys;
    }
  }

  lemma {:induction false} MergedAgain(once: seq<Entry>, twice: seq<Entry>, b: seq<Entry>)
    requires |Keys(once)| == |Keys(twice)| && Keys(twice) == Keys(once)
    requires forall k :: Find(twice, k) == Find(once, k)
    requires Distinct(Keys(once))
    ensures once == twice
  {
    SameEntries(twice, once);
  }
}
