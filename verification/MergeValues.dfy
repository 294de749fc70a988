/**
 What a `<<` takes in, by the kind of its value: an alias, a list or anything
 else.
 */
module MergeValues {
  import opened Text
  import opened Trees
  import opened Decode
  import opened Anchors

  /** The alias names a mapping. */
  predicate NamesMapping(g: Graph, id: nat) { Is(g, id, Alias) && Is(g, g[id].alias, Mapping) }

  /** What a `<<` may hold: no alias, itself or in its list, to anything but a
      mapping. */
  predicate Mergeable(g: Graph, value: nat) {
    && (Is(g, value, Alias) ==> NamesMapping(g, value))
    && (Is(g, value, Sequence) ==>
          forall k :: 0 <= k < |g[value].content| && Is(g, g[value].content[k], Alias) ==> NamesMapping(g, g[value].content[k]))
  }

  lemma {:induction false} TargetsSome(g: Graph, named: seq<nat>)
    ensures Targets(g, named).Some? <==> forall k :: 0 <= k < |named| && Is(g, named[k], Alias) ==> NamesMapping(g, named[k])
  {
    if named != [] {
      TargetsSome(g, named[..|named| - 1]);
    }
  }

  lemma {:induction false} BackwardsAt(ids: seq<nat>)
    ensures |Backwards(ids)| == |ids|
    ensures forall k :: 0 <= k < |ids| ==> Backwards(ids)[k] == ids[|ids| - 1 - k] && ids[k] == Backwards(ids)[|ids| - 1 - k]
  {
  }

  /** The sources of a `<<` can be named exactly when it may hold its value. */
  lemma {:induction false} SourcesSome(g: Graph, value: nat)
    ensures Sources(g, value).Some? <==> Mergeable(g, value)
  {
    TargetsSome(g, Named(g, value));
    hide Targets, NamesMapping;
    if Is(g, value, Sequence) {
      var items := g[value].content;
      BackwardsAt(items);
      var back := Backwards(items);
      assert Named(g, value) == back;
      if Mergeable(g, value) {
        forall k | 0 <= k < |back| && Is(g, back[k], Alias) ensures NamesMapping(g, back[k]) {
          assert back[k] == items[|items| - 1 - k];
        }
      } else {
        var k :| 0 <= k < |items| && Is(g, items[k], Alias) && !NamesMapping(g, items[k]);
        assert back[|items| - 1 - k] == items[k];
      }
    } else if Is(g, value, Alias) {
      assert Named(g, value) == [value] && [value][0] == value;
    }
  }

  /** A plain alias names its mapping, and a value that is neither an alias nor a
      list names nothing. */
  lemma {:induction false} PlainSources(g: Graph, value: nat)
    ensures NamesMapping(g, value) ==> Sources(g, value) == Some([g[value].alias])
    ensures !Is(g, value, Alias) && !Is(g, value, Sequence) ==> Sources(g, value) == Some([])
  {
    if Is(g, value, Alias) {
      assert [value][..0] == [] && Targets(g, []) == Some([]);
      assert [] + [g[value].alias] == [g[value].alias];
    }
  }

  /** A `<<` with a plain alias writes what the mapping it names writes. */
  lemma {:induction false} AliasWrites(g: Graph, id: nat, i: nat, f: nat)
    requires i < PairCount(g, id) && KeyOf(g, id, i) == MERGE_KEY && NamesMapping(g, ValueOf(g, id, i))
    ensures var m := g[ValueOf(g, id, i)].alias;
            && (FitsPair(g, id, i, f) <==> FitsMapping(g, m, f))
            && (FitsPair(g, id, i, f) ==> PairWrites(g, id, i, f) == Writes(g, m, f))
  {
    var m := g[ValueOf(g, id, i)].alias;
    PlainSources(g, ValueOf(g, id, i));
    hide Sources, FitsMapping, Writes, KeyOf, ValueOf, Fits, Unfold;
    assert [m][..0] == [];
    assert AllFitMapping(g, [m], f) <==> FitsMapping(g, m, f) by { assert [m][0] == m; }
    if FitsMapping(g, m, f) {
      assert SourceWrites(g, [], f) == [];
      assert SourceWrites(g, [m], f) == [] + Writes(g, m, f) == Writes(g, m, f);
    }
  }

  /** A `<<` whose value is neither an alias nor a list writes nothing. */
  lemma {:induction false} OtherWritesNothing(g: Graph, id: nat, i: nat, f: nat)
    requires i < PairCount(g, id) && KeyOf(g, id, i) == MERGE_KEY
    requires !Is(g, ValueOf(g, id, i), Alias) && !Is(g, ValueOf(g, id, i), Sequence)
    ensures FitsPair(g, id, i, f) && PairWrites(g, id, i, f) == []
  {
    PlainSources(g, ValueOf(g, id, i));
    hide Sources, FitsMapping, Writes, KeyOf, ValueOf, Fits, Unfold;
  }

  /** A `<<` is refused where an alias it holds names something else, and passed
      over where it holds neither an alias nor a list. */
  lemma {:induction false} MergeRefusedWhen(g: Graph, id: nat, out: seq<Entry>, i: nat, depth: nat, active: set<nat>)
    requires i < PairCount(g, id) && KeyOf(g, id, i) == MERGE_KEY
    ensures !Mergeable(g, ValueOf(g, id, i)) ==> DecodePair(g, id, out, i, depth, active) == Err(BadMerge)
    ensures !Is(g, ValueOf(g, id, i), Alias) && !Is(g, ValueOf(g, id, i), Sequence) ==>
              DecodePair(g, id, out, i, depth, active) == Ok(out)
  {
    SourcesSome(g, ValueOf(g, id, i));
    PlainSources(g, ValueOf(g, id, i));
    hide Sources, Mergeable, KeyOf, ValueOf, DecodeMapping, DecodeNode;
  }

  ghost predicate HoldsOnly(g: Graph, id: nat, m: nat) {
    && PairCount(g, id) == 1 && KeyOf(g, id, 0) == MERGE_KEY
    && NamesMapping(g, ValueOf(g, id, 0)) && m == g[ValueOf(g, id, 0)].alias
  }

  lemma {:induction false} OnlyWrites(g: Graph, id: nat, m: nat, f: nat)
    requires HoldsOnly(g, id, m) && FitsMapping(g, id, f)
    ensures FitsMapping(g, m, f) && Writes(g, id, f) == Writes(g, m, f)
  {
    hide FitsMapping, FitsPair, PairWrites, KeyOf, ValueOf, Writes;
    OneWrite(g, id, f);
    AliasWrites(g, id, 0, f - 1);
    WritesSame(g, m, f - 1);
  }

  /** A mapping that holds nothing but a `<<` with an alias decodes to what the
      mapping it names decodes to. */
  lemma {:induction false} OnlyAliasIsTheMapping(g: Graph, id: nat, m: nat, f: nat)
    requires Is(g, id, Mapping) && HoldsOnly(g, id, m) && Fits(g, id, f)
    ensures Fits(g, m, f) && Unfold(g, id, f) == Unfold(g, m, f)
  {
    assert Is(g, m, Mapping);
    hide *;
    MappingIs(g, id, f);
    OnlyWrites(g, id, m, f - 1);
    MappingIs(g, m, f);
  }

  lemma {:induction false} OneWrite(g: Graph, id: nat, f: nat)
    requires PairCount(g, id) == 1 && FitsMapping(g, id, f)
    ensures f > 0 && FitsPair(g, id, 0, f - 1) && Writes(g, id, f) == PairWrites(g, id, 0, f - 1)
  {
    hide FitsPair, PairWrites;
    assert WritesTo(g, id, 0, f - 1) == [];
  }

  lemma {:induction false} MappingIs(g: Graph, id: nat, f: nat)
    requires Is(g, id, Mapping)
    ensures Fits(g, id, f) <==> f > 0 && FitsMapping(g, id, f - 1)
    ensures Fits(g, id, f) ==> Unfold(g, id, f) == Map(AllApplied([], Writes(g, id, f - 1)))
  {
    hide FitsMapping, Writes, AllApplied;
  }
}
