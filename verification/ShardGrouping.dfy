/** The first half of `register_all`: a stable sort by shard, then grouping of equal neighbours. */
module ShardGrouping {
  import opened ShieldedTypes
  import opened ShardLogs

  ghost predicate SortedByShard(m: AccumulatorModel, items: seq<Insertion>) {
    forall i, j :: 0 <= i < j < |items| ==> m.Home(items[i].utxo) <= m.Home(items[j].utxo)
  }

  lemma SelectInFront(m: AccumulatorModel, x: Insertion, items: seq<Insertion>)
    ensures forall s: Shard ::
      Select(m, [x] + items, s) == (if m.Home(x.utxo) == s then [x] else []) + Select(m, items, s)
  {
    forall s: Shard
      ensures Select(m, [x] + items, s) == (if m.Home(x.utxo) == s then [x] else []) + Select(m, items, s)
    {
      SelectAppend(m, [x], items, s);
    }
  }

  lemma SortedInFront(m: AccumulatorModel, x: Insertion, items: seq<Insertion>)
    requires SortedByShard(m, items)
    requires forall y :: y in items ==> m.Home(x.utxo) <= m.Home(y.utxo)
    ensures SortedByShard(m, [x] + items)
  {
  }

  /** Puts x in front of the first item whose shard is not below x's. */
  function InsertBefore(m: AccumulatorModel, x: Insertion, items: seq<Insertion>): (r: seq<Insertion>)
    requires SortedByShard(m, items)
    ensures SortedByShard(m, r)
    ensures forall y :: y in r <==> y == x || y in items
    ensures forall s: Shard ::
              Select(m, r, s) == (if m.Home(x.utxo) == s then [x] else []) + Select(m, items, s)
  {
    hide Select;
    if items == [] || m.Home(x.utxo) <= m.Home(items[0].utxo) then
      SelectInFront(m, x, items);
      [x] + items
    else
      var rest := InsertBefore(m, x, items[1..]);
      SelectInFront(m, items[0], items[1..]);
      SelectInFront(m, items[0], rest);
      assert items == [items[0]] + items[1..];
      SortedInFront(m, items[0], rest);
      [items[0]] + rest
  }

  /** `sort_by_key` on the shard index: sorted, and the order inside a shard is kept. */
  function SortByShard(m: AccumulatorModel, items: seq<Insertion>): (r: seq<Insertion>)
    ensures SortedByShard(m, r)
    ensures forall s: Shard :: Select(m, r, s) == Select(m, items, s)
  {
    if items == [] then [] else InsertBefore(m, items[0], SortByShard(m, items[1..]))
  }

  datatype Group = Group(shard: Shard, insertions: seq<Insertion>)

  ghost predicate GroupsAscend(groups: seq<Group>) {
    forall i, j :: 0 <= i < j < |groups| ==> groups[i].shard < groups[j].shard
  }

  ghost predicate GroupsHold(m: AccumulatorModel, items: seq<Insertion>, groups: seq<Group>) {
    forall i :: 0 <= i < |groups| ==>
      groups[i].insertions == Select(m, items, groups[i].shard) && groups[i].insertions != []
  }

  ghost predicate HasGroup(groups: seq<Group>, s: Shard) {
    exists i :: 0 <= i < |groups| && groups[i].shard == s
  }

  /** The groups split `items` by shard, in increasing order of shard, leaving out empty shards. */
  ghost predicate IsGrouping(m: AccumulatorModel, items: seq<Insertion>, groups: seq<Group>) {
    && GroupsAscend(groups)
    && GroupsHold(m, items, groups)
    && forall s: Shard :: Select(m, items, s) != [] ==> HasGroup(groups, s)
  }

  lemma NothingSelected(m: AccumulatorModel)
    ensures forall s: Shard :: Select(m, [], s) == []
  {
  }

  lemma GroupsStayBelow(m: AccumulatorModel, items: seq<Insertion>, groups: seq<Group>, bound: Shard)
    requires IsGrouping(m, items, groups)
    requires forall x :: x in items ==> m.Home(x.utxo) <= bound
    ensures forall i :: 0 <= i < |groups| ==> groups[i].shard <= bound
  {
    forall i | 0 <= i < |groups| ensures groups[i].shard <= bound {
      SelectMember(m, items, groups[i].shard, groups[i].insertions[0]);
    }
  }

  lemma SelectPushed(m: AccumulatorModel, items: seq<Insertion>, x: Insertion)
    ensures forall s: Shard ::
      Select(m, items + [x], s) == if s == m.Home(x.utxo) then Select(m, items, s) + [x] else Select(m, items, s)
  {
    forall s: Shard
      ensures Select(m, items + [x], s)
           == if s == m.Home(x.utxo) then Select(m, items, s) + [x] else Select(m, items, s)
    {
      SelectAppend(m, items, [x], s);
      assert Select(m, [x], s) == if s == m.Home(x.utxo) then [x] else [];
    }
  }

  /** Adding an item whose shard is the last group's. */
  lemma PushOntoLast(m: AccumulatorModel, items: seq<Insertion>, groups: seq<Group>, x: Insertion)
    requires IsGrouping(m, items, groups)
    requires groups != [] && groups[|groups| - 1].shard == m.Home(x.utxo)
    ensures var k := |groups| - 1;
            IsGrouping(m, items + [x], groups[k := Group(m.Home(x.utxo), groups[k].insertions + [x])])
  {
    var k := |groups| - 1;
    var pushed := groups[k := Group(m.Home(x.utxo), groups[k].insertions + [x])];
    SelectPushed(m, items, x);
    hide Select;
    assert GroupsAscend(pushed);
    assert GroupsHold(m, items + [x], pushed);
    forall s: Shard ensures HasGroup(pushed, s) <==> HasGroup(groups, s) {
      SameShards(groups, pushed, s);
    }
    assert HasGroup(groups, m.Home(x.utxo));
  }

  lemma SameShards(a: seq<Group>, b: seq<Group>, s: Shard)
    requires |a| == |b| && forall i :: 0 <= i < |a| ==> a[i].shard == b[i].shard
    ensures HasGroup(a, s) <==> HasGroup(b, s)
  {
  }

  lemma OneMoreShard(groups: seq<Group>, g: Group, s: Shard)
    ensures HasGroup(groups + [g], s) <==> HasGroup(groups, s) || g.shard == s
  {
    assert (groups + [g])[|groups|] == g;
    if HasGroup(groups, s) {
      var i :| 0 <= i < |groups| && groups[i].shard == s;
      assert (groups + [g])[i].shard == s;
    }
  }

  /** Adding an item whose shard is above every group's. */
  lemma PushNewGroup(m: AccumulatorModel, items: seq<Insertion>, groups: seq<Group>, x: Insertion)
    requires IsGrouping(m, items, groups)
    requires forall i :: 0 <= i < |groups| ==> groups[i].shard < m.Home(x.utxo)
    ensures IsGrouping(m, items + [x], groups + [Group(m.Home(x.utxo), [x])])
  {
    var pushed := groups + [Group(m.Home(x.utxo), [x])];
    SelectPushed(m, items, x);
    hide Select;
    assert !HasGroup(groups, m.Home(x.utxo));
    assert Select(m, items, m.Home(x.utxo)) == [];
    assert GroupsAscend(pushed);
    assert GroupsHold(m, items + [x], pushed);
    forall s: Shard ensures HasGroup(pushed, s) <==> HasGroup(groups, s) || s == m.Home(x.utxo) {
      OneMoreShard(groups, Group(m.Home(x.utxo), [x]), s);
    }
  }

  /** A grouping of the sorted items is a grouping of the items. */
  lemma GroupingOfSorted(m: AccumulatorModel, sorted: seq<Insertion>, items: seq<Insertion>, groups: seq<Group>)
    requires forall s: Shard :: Select(m, sorted, s) == Select(m, items, s)
    requires IsGrouping(m, sorted, groups)
    ensures IsGrouping(m, items, groups)
  {
    hide Select, HasGroup;
  }

  /** The grouping loop of `register_all`, which only compares a shard with the last group's. */
  method GroupByShard(m: AccumulatorModel, sorted: seq<Insertion>) returns (groups: seq<Group>)
    requires SortedByShard(m, sorted)
    ensures IsGrouping(m, sorted, groups)
  {
    hide Select, HasGroup;
    groups := [];
    assert IsGrouping(m, [], groups) by {
      assert forall s: Shard :: Select(m, [], s) == [] by {
        NothingSelected(m);
      }
    }
    for k := 0 to |sorted|
      invariant IsGrouping(m, sorted[..k], groups)
      invariant groups != [] ==> k > 0 && groups[|groups| - 1].shard == m.Home(sorted[k - 1].utxo)
      invariant groups == [] ==> k == 0
    {
      var x := sorted[k];
      assert sorted[..k + 1] == sorted[..k] + [x];
      if groups != [] && groups[|groups| - 1].shard == m.Home(x.utxo) {
        PushOntoLast(m, sorted[..k], groups, x);
        var last := |groups| - 1;
        groups := groups[last := Group(m.Home(x.utxo), groups[last].insertions + [x])];
      } else {
        if k > 0 {
          GroupsStayBelow(m, sorted[..k], groups, m.Home(sorted[k - 1].utxo));
        }
        PushNewGroup(m, sorted[..k], groups, x);
        groups := groups + [Group(m.Home(x.utxo), [x])];
      }
    }
    assert sorted[..|sorted|] == sorted;
  }
}
