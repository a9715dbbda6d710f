/** The shielded ledger's storage and the ledger calls that read and change it. */
module ProxyLedger {
  import opened Wrappers
  import opened ShieldedTypes
  import opened ShardLogs
  import opened Registration
  import opened ShardGrouping
  import opened LedgerInvariant

  function FaultResult(fault: Option<LedgerError>): Result<(), LedgerError> {
    match fault
    case None => Ok(())
    case Some(e) => Err(e)
  }

  /** `register_all` after the shards below `bound` have been handled. */
  ghost function Partial(m: AccumulatorModel, logs: Logs, items: seq<Insertion>, bound: nat): (r: Logs)
    ensures forall s: Shard :: r[s] == if s < bound then logs[s] + Entries(Select(m, items, s)) else logs[s]
  {
    seq(FOREST_WIDTH, s requires 0 <= s < FOREST_WIDTH =>
      if s < bound then logs[s] + Entries(Select(m, items, s)) else logs[s])
  }

  ghost function RootsBelow(m: AccumulatorModel, logs: Logs, items: seq<Insertion>, bound: nat): set<Output> {
    set s: nat | 0 <= s < FOREST_WIDTH && s < bound && Select(m, items, s) != []
      :: RootOf(m, AppendByShard(m, logs, items)[s])
  }

  /** The first shard that the groups from k on touch. */
  ghost function Bound(groups: seq<Group>, k: nat): nat {
    if k < |groups| then groups[k].shard else FOREST_WIDTH
  }

  /** No shard between two neighbouring groups receives anything. */
  lemma BetweenGroups(m: AccumulatorModel, items: seq<Insertion>, groups: seq<Group>, k: nat, s: Shard)
    requires IsGrouping(m, items, groups) && k <= |groups|
    requires k == 0 || groups[k - 1].shard < s
    requires s < Bound(groups, k)
    ensures Select(m, items, s) == []
  {
    forall i | 0 <= i < |groups| ensures groups[i].shard != s {
      if i >= k {
        assert groups[i].shard >= groups[k].shard;
      }
    }
  }

  lemma GroupMovesLogs(m: AccumulatorModel, logs: Logs, items: seq<Insertion>, groups: seq<Group>, k: nat)
    requires IsGrouping(m, items, groups) && k < |groups|
    ensures var g := groups[k];
            Partial(m, logs, items, Bound(groups, k + 1))
            == Partial(m, logs, items, Bound(groups, k))[g.shard := logs[g.shard] + Entries(g.insertions)]
  {
    var g, b, b' := groups[k], Bound(groups, k), Bound(groups, k + 1);
    var next, now := Partial(m, logs, items, b'), Partial(m, logs, items, b);
    assert b < b';
    forall s: Shard ensures next[s] == now[g.shard := logs[g.shard] + Entries(g.insertions)][s] {
      if b < s < b' {
        BetweenGroups(m, items, groups, k + 1, s);
        assert logs[s] + Entries([]) == logs[s];
      }
    }
  }

  lemma GroupMovesRoots(m: AccumulatorModel, logs: Logs, items: seq<Insertion>, groups: seq<Group>, k: nat)
    requires IsGrouping(m, items, groups) && k < |groups|
    ensures var g := groups[k];
            RootsBelow(m, logs, items, Bound(groups, k + 1))
            == RootsBelow(m, logs, items, Bound(groups, k)) + {RootOf(m, logs[g.shard] + Entries(g.insertions))}
  {
    var g, b, b' := groups[k], Bound(groups, k), Bound(groups, k + 1);
    assert b < b';
    forall s: Shard | b < s < b' ensures Select(m, items, s) == [] {
      BetweenGroups(m, items, groups, k + 1, s);
    }
    assert AppendByShard(m, logs, items)[g.shard] == logs[g.shard] + Entries(g.insertions);
    hide IsGrouping, Select, RootOf;
  }

  lemma GroupMovesFault(m: AccumulatorModel, logs: Logs, items: seq<Insertion>, groups: seq<Group>, k: nat)
    requires IsGrouping(m, items, groups) && k < |groups|
    ensures var g, b, b' := groups[k], Bound(groups, k), Bound(groups, k + 1);
            BatchFault(m, logs, items, b)
            == var f := GroupFault(m.capacity, |logs[g.shard]|, g.insertions);
               if f.Some? then f else BatchFault(m, logs, items, b')
  {
    var b, b' := Bound(groups, k), Bound(groups, k + 1);
    assert b < b' && groups[k].insertions == Select(m, items, b);
    forall s: Shard | b + 1 <= s < b'
      ensures GroupFault(m.capacity, |logs[s]|, Select(m, items, s)).None?
    {
      BetweenGroups(m, items, groups, k + 1, s);
    }
    hide IsGrouping, Select, GroupFault;
    BatchFaultSkips(m, logs, items, b + 1, b');
  }

  lemma NothingBeforeFirstGroup(m: AccumulatorModel, logs: Logs, items: seq<Insertion>, groups: seq<Group>)
    requires IsGrouping(m, items, groups)
    ensures Partial(m, logs, items, Bound(groups, 0)) == logs
    ensures RootsBelow(m, logs, items, Bound(groups, 0)) == {}
    ensures BatchFault(m, logs, items, 0) == BatchFault(m, logs, items, Bound(groups, 0))
  {
    hide IsGrouping, Select, BatchFault, RootOf;
    forall s: Shard | s < Bound(groups, 0) ensures Select(m, items, s) == [] {
      BetweenGroups(m, items, groups, 0, s);
    }
    BatchFaultSkips(m, logs, items, 0, Bound(groups, 0));
    assert forall s: Shard :: s < Bound(groups, 0) ==> logs[s] + Entries(Select(m, items, s)) == logs[s];
  }

  /** The batch ends where the singles end. */
  lemma BatchEndsLikeSingles(m: AccumulatorModel, st: Storage, logs: Logs, items: seq<Insertion>, st': Storage)
    requires Represents(m, st, logs) && WithinCapacity(m, logs)
    requires BatchFault(m, logs, items, 0).None?
    requires Represents(m, st', Partial(m, logs, items, FOREST_WIDTH))
    requires st'.utxoAccumulatorOutputs == st.utxoAccumulatorOutputs + RootsBelow(m, logs, items, FOREST_WIDTH)
    requires st'.nullifierCommitmentSet == st.nullifierCommitmentSet
    requires st'.nullifierSetInsertionOrder == st.nullifierSetInsertionOrder
    requires st'.nullifierSetSize == st.nullifierSetSize
    ensures IsBatchOf(m, st, logs, items, st')
    ensures Represents(m, st', AppendByShard(m, logs, items))
  {
    hide ShardsHold, TreesHold, UtxosHold;
    RegisterEachAppends(m, st, logs, items);
    BatchFailsWithSingles(m, st, logs, items);
    assert Partial(m, logs, items, FOREST_WIDTH) == AppendByShard(m, logs, items);
    assert RootsBelow(m, logs, items, FOREST_WIDTH) == LastRoots(m, logs, items);
    RepresentationUnique(m, st', RegisterEach(m, st, items).value, AppendByShard(m, logs, items));
  }

  // ---- Loop invariants ----

  /** The inner loop after j insertions; the tree is still held in local variables. */
  ghost predicate GroupProgress(
    m: AccumulatorModel, logs: Logs, group: Group, j: nat, shards: map<(Shard, nat), Entry>, utxos: set<Utxo>,
    tree: UtxoMerkleTreePath, root: Option<Output>)
  {
    var n := |logs[group.shard]|;
    && j <= |group.insertions|
    && var log := logs[group.shard] + Entries(group.insertions[..j]);
    && tree == TreeOf(m, log)
    && root == (if j == 0 then None else Some(RootOf(m, log)))
    && ShardsHold(shards, logs[group.shard := log])
    && UtxosHold(utxos, logs[group.shard := log])
    && GroupFault(m.capacity, n, group.insertions) == GroupFault(m.capacity, n + j, group.insertions[j..])
  }

  lemma GroupProgressStarts(m: AccumulatorModel, st: Storage, logs: Logs, group: Group)
    requires Represents(m, st, logs)
    ensures GroupProgress(m, logs, group, 0, st.shards, st.utxoSet, st.Tree(group.shard), None)
    ensures TreesHold(m, st.shardTrees, logs)
  {
    TreeMatches(m, st, logs, group.shard);
    hide ShardsHold, TreesHold, UtxosHold;
    assert logs[group.shard] + Entries(group.insertions[..0]) == logs[group.shard];
    assert logs[group.shard := logs[group.shard]] == logs;
  }

  lemma GroupProgressStep(
    m: AccumulatorModel, logs: Logs, group: Group, j: nat, shards: map<(Shard, nat), Entry>, utxos: set<Utxo>,
    tree: UtxoMerkleTreePath, root: Option<Output>)
    requires j < |group.insertions| && GroupProgress(m, logs, group, j, shards, utxos, tree, root)
    ensures var x, fault := group.insertions[j], GroupFault(m.capacity, |logs[group.shard]|, group.insertions);
            match Insert(m, tree, m.itemHash(x.utxo))
            case None => fault == Some(MerkleTreeCapacityError)
            case Some(ins) =>
              if x.note.None? then fault == Some(FullNoteDecodeError)
              else GroupProgress(m, logs, group, j + 1,
                                 shards[(group.shard, ins.tree.currentPath.leafIndex) := x.ToEntry()],
                                 utxos + {x.utxo}, ins.tree, Some(ins.root))
  {
    var x := group.insertions[j];
    var log := logs[group.shard] + Entries(group.insertions[..j]);
    var before: Logs := logs[group.shard := log];
    InsertExtendsTree(m, log, x.ToEntry());
    AppendEntry(shards, utxos, before, group.shard, x.ToEntry());
    hide ShardsHold, TreesHold, UtxosHold;
    assert group.insertions[j..][1..] == group.insertions[j + 1..];
    assert group.insertions[..j + 1] == group.insertions[..j] + [x];
    EntriesAppend(group.insertions[..j], [x]);
    assert logs[group.shard] + Entries(group.insertions[..j + 1]) == log + [x.ToEntry()];
    assert before[group.shard := log + [x.ToEntry()]] == logs[group.shard := log + [x.ToEntry()]];
  }

  lemma GroupProgressEnds(
    m: AccumulatorModel, st: Storage, logs: Logs, group: Group, tree: UtxoMerkleTreePath, root: Option<Output>)
    requires TreesHold(m, st.shardTrees, logs)
    requires group.insertions != []
    requires GroupProgress(m, logs, group, |group.insertions|, st.shards, st.utxoSet, tree, root)
    ensures var log := logs[group.shard] + Entries(group.insertions);
            && root == Some(RootOf(m, log))
            && Represents(m, st.(shardTrees := st.shardTrees[group.shard := tree],
                                 utxoAccumulatorOutputs := st.utxoAccumulatorOutputs + {root.value}),
                          logs[group.shard := log])
    ensures GroupFault(m.capacity, |logs[group.shard]|, group.insertions) == None
  {
    assert group.insertions[..|group.insertions|] == group.insertions;
    StoreTree(m, st.shardTrees, logs, group.shard, logs[group.shard] + Entries(group.insertions));
    hide ShardsHold, TreesHold, UtxosHold;
  }

  /** The outer loop after k groups. */
  ghost predicate BatchProgress(
    m: AccumulatorModel, st: Storage, logs: Logs, items: seq<Insertion>, groups: seq<Group>, k: nat, now: Storage)
  {
    && IsGrouping(m, items, groups)
    && k <= |groups|
    && Represents(m, now, Partial(m, logs, items, Bound(groups, k)))
    && now == st.(utxoSet := now.utxoSet, shards := now.shards, shardTrees := now.shardTrees,
                  utxoAccumulatorOutputs := st.utxoAccumulatorOutputs + RootsBelow(m, logs, items, Bound(groups, k)))
    && BatchFault(m, logs, items, 0) == BatchFault(m, logs, items, Bound(groups, k))
  }

  lemma BatchProgressStarts(
    m: AccumulatorModel, st: Storage, logs: Logs, items: seq<Insertion>, sorted: seq<Insertion>, groups: seq<Group>)
    requires Represents(m, st, logs) && WithinCapacity(m, logs)
    requires forall s: Shard :: Select(m, sorted, s) == Select(m, items, s)
    requires IsGrouping(m, sorted, groups)
    ensures BatchProgress(m, st, logs, items, groups, 0, st)
    ensures BatchFault(m, logs, items, 0).None? <==> RegisterEach(m, st, items).Ok?
  {
    hide Represents, RootsBelow, BatchFault, IsGrouping, Select, WithinCapacity, Partial, Bound;
    BatchFailsWithSingles(m, st, logs, items);
    GroupingOfSorted(m, sorted, items, groups);
    NothingBeforeFirstGroup(m, logs, items, groups);
  }

  lemma BatchProgressStep(
    m: AccumulatorModel, st: Storage, logs: Logs, items: seq<Insertion>, groups: seq<Group>, k: nat, now: Storage)
    requires k < |groups| && BatchProgress(m, st, logs, items, groups, k, now)
    ensures var g := groups[k]; var log := logs[g.shard] + Entries(g.insertions);
            var partial := Partial(m, logs, items, Bound(groups, k));
            var fault := GroupFault(m.capacity, |partial[g.shard]|, g.insertions);
            && Represents(m, now, partial)
            && g.insertions != []
            && partial[g.shard] == logs[g.shard]
            && (fault.Some? ==> BatchFault(m, logs, items, 0) == fault)
  {
    hide Represents, RootsBelow, BatchFault, GroupFault, RootOf;
    GroupMovesFault(m, logs, items, groups, k);
  }

  /** The storage that one more group leads to. */
  ghost predicate GroupStored(m: AccumulatorModel, now: Storage, next: Storage, grown: Logs, log: seq<Entry>) {
    && next == now.(utxoSet := next.utxoSet, shards := next.shards, shardTrees := next.shardTrees,
                    utxoAccumulatorOutputs := now.utxoAccumulatorOutputs + {RootOf(m, log)})
    && Represents(m, next, grown)
  }

  lemma BatchProgressNext(
    m: AccumulatorModel, st: Storage, logs: Logs, items: seq<Insertion>, groups: seq<Group>, k: nat,
    now: Storage, next: Storage)
    requires k < |groups|
    requires GroupFault(m.capacity, |logs[groups[k].shard]|, groups[k].insertions).None?
    requires var g := groups[k]; var log := logs[g.shard] + Entries(g.insertions);
             GroupStored(m, now, next, Partial(m, logs, items, Bound(groups, k))[g.shard := log], log)
    requires BatchProgress(m, st, logs, items, groups, k, now)
    ensures BatchProgress(m, st, logs, items, groups, k + 1, next)
  {
    hide Represents, RootsBelow, BatchFault, GroupFault, RootOf, IsGrouping, Partial, Bound;
    GroupMovesLogs(m, logs, items, groups, k);
    GroupMovesRoots(m, logs, items, groups, k);
    GroupMovesFault(m, logs, items, groups, k);
  }

  lemma BatchProgressEnds(
    m: AccumulatorModel, st: Storage, logs: Logs, items: seq<Insertion>, groups: seq<Group>, now: Storage)
    requires Represents(m, st, logs) && WithinCapacity(m, logs)
    requires BatchProgress(m, st, logs, items, groups, |groups|, now)
    ensures BatchFault(m, logs, items, 0) == None
    ensures IsBatchOf(m, st, logs, items, now)
  {
    hide Represents;
    BatchEndsLikeSingles(m, st, logs, items, now);
  }

  class ProxyLedger {
    const accumulator: AccumulatorModel

    var utxoSet: set<Utxo>
    var shards: map<(Shard, nat), Entry>
    var shardTrees: map<Shard, UtxoMerkleTreePath>
    var utxoAccumulatorOutputs: set<Output>
    var nullifierCommitmentSet: set<NullifierCommitment>
    var nullifierSetInsertionOrder: map<nat, Spent>
    var nullifierSetSize: nat

    function State(): Storage
      reads this
    {
      Storage(utxoSet, shards, shardTrees, utxoAccumulatorOutputs,
              nullifierCommitmentSet, nullifierSetInsertionOrder, nullifierSetSize)
    }

    constructor (model: AccumulatorModel)
      ensures accumulator == model
      ensures State() == EMPTY_STORAGE && Inv(model, State())
    {
      accumulator := model;
      utxoSet, shards, shardTrees, utxoAccumulatorOutputs := {}, map[], map[], {};
      nullifierCommitmentSet, nullifierSetInsertionOrder, nullifierSetSize := {}, map[], 0;
      new;
      EmptyStorageIsGood(model);
    }

    // ---- Sender side ----

    method IsUnspent(commitment: NullifierCommitment) returns (r: Result<NullifierCommitment, LedgerError>)
      ensures r == if commitment in nullifierCommitmentSet then Err(AssetSpent) else Ok(commitment)
    {
      if commitment in nullifierCommitmentSet {
        return Err(AssetSpent);
      }
      return Ok(commitment);
    }

    method HasMatchingUtxoAccumulatorOutput(output: Output) returns (r: Result<Output, LedgerError>)
      ensures var zeroed := |output| == 32 && forall i :: 0 <= i < 32 ==> output[i] == 0;
              r == if zeroed || output in utxoAccumulatorOutputs then Ok(output)
                   else Err(InvalidUtxoAccumulatorOutput)
    {
      if output == ZERO_OUTPUT || output in utxoAccumulatorOutputs {
        return Ok(output);
      }
      return Err(InvalidUtxoAccumulatorOutput);
    }

    /** Appends the spendings to the nullifier log, or fails at the first undecodable note. */
    method SpendAll(spendings: seq<Spending>) returns (r: Result<(), LedgerError>)
      modifies `nullifierCommitmentSet, `nullifierSetInsertionOrder, `nullifierSetSize
      ensures r == if forall k :: 0 <= k < |spendings| ==> spendings[k].note.Some? then Ok(())
                   else Err(OutgoingNoteDecodeError)
      ensures r.Ok? ==> State() == SpendEach(old(State()), spendings)
      ensures r.Ok? ==> AddsSpents(old(State()), State(), spendings)
    {
      var index := nullifierSetSize;
      var i := 0;
      while i < |spendings|
        invariant i <= |spendings|
        invariant forall k :: 0 <= k < i ==> spendings[k].note.Some?
        invariant nullifierSetSize == index
        invariant SpendEach(State().(nullifierSetSize := index + i), spendings[i..])
               == SpendEach(old(State()), spendings)
      {
        var spending := spendings[i];
        nullifierCommitmentSet := nullifierCommitmentSet + {spending.commitment};
        if spending.note.None? {
          return Err(OutgoingNoteDecodeError);
        }
        nullifierSetInsertionOrder := nullifierSetInsertionOrder[index + i := spending.ToSpent()];
        i := i + 1;
      }
      if i != 0 {
        nullifierSetSize := index + i;
      }
      SpendEachAddsSpents(old(State()), spendings);
      return Ok(());
    }

    // ---- Receiver side ----

    method IsNotRegistered(utxo: Utxo) returns (r: Result<Utxo, LedgerError>)
      ensures r == if utxo in utxoSet then Err(AssetRegistered) else Ok(utxo)
    {
      if utxo in utxoSet {
        return Err(AssetRegistered);
      }
      return Ok(utxo);
    }

    /** Appends one group to its shard and stores the shard's new tree and last root. */
    method InsertGroup(group: Group, ghost logs: Logs) returns (r: Result<(), LedgerError>)
      requires Represents(accumulator, State(), logs)
      requires group.insertions != []
      modifies `utxoSet, `shards, `shardTrees, `utxoAccumulatorOutputs
      ensures r == FaultResult(GroupFault(accumulator.capacity, |logs[group.shard]|, group.insertions))
      ensures r.Ok? ==> var log := logs[group.shard] + Entries(group.insertions);
                && Represents(accumulator, State(), logs[group.shard := log])
                && utxoAccumulatorOutputs == old(utxoAccumulatorOutputs) + {RootOf(accumulator, log)}
    {
      hide GroupProgress, Represents, TreesHold;
      var tree := State().Tree(group.shard);
      var leafDigest, currentPath := tree.leafDigest, tree.currentPath;
      var nextRoot: Option<Output> := None;
      GroupProgressStarts(accumulator, State(), logs, group);
      for j := 0 to |group.insertions|
        invariant GroupProgress(accumulator, logs, group, j, shards, utxoSet,
                                UtxoMerkleTreePath(leafDigest, currentPath), nextRoot)
        invariant shardTrees == old(shardTrees) && utxoAccumulatorOutputs == old(utxoAccumulatorOutputs)
      {
        var insertion := group.insertions[j];
        GroupProgressStep(accumulator, logs, group, j, shards, utxoSet,
                          UtxoMerkleTreePath(leafDigest, currentPath), nextRoot);
        match Insert(accumulator, UtxoMerkleTreePath(leafDigest, currentPath), accumulator.itemHash(insertion.utxo)) {
          case None =>
            return Err(MerkleTreeCapacityError);
          case Some(ins) =>
            leafDigest, currentPath := ins.tree.leafDigest, ins.tree.currentPath;
            nextRoot := Some(ins.root);
        }
        utxoSet := utxoSet + {insertion.utxo};
        if insertion.note.None? {
          return Err(FullNoteDecodeError);
        }
        shards := shards[(group.shard, currentPath.leafIndex) := insertion.ToEntry()];
      }
      tree := UtxoMerkleTreePath(leafDigest, currentPath);
      GroupProgressEnds(accumulator, State(), logs, group, tree, nextRoot);
      if nextRoot.Some? {
        shardTrees := shardTrees[group.shard := tree];
        utxoAccumulatorOutputs := utxoAccumulatorOutputs + {nextRoot.value};
      }
      return Ok(());
    }

    /** Sorts and groups the items by shard and appends each group. The result is that of the
        singles, with only the last root of each touched shard. */
    method RegisterAll(items: seq<Insertion>, ghost logs: Logs) returns (r: Result<(), LedgerError>)
      requires Represents(accumulator, State(), logs) && WithinCapacity(accumulator, logs)
      modifies `utxoSet, `shards, `shardTrees, `utxoAccumulatorOutputs
      ensures r == FaultResult(BatchFault(accumulator, logs, items, 0))
      ensures r.Ok? <==> RegisterEach(accumulator, old(State()), items).Ok?
      ensures r.Ok? ==> IsBatchOf(accumulator, old(State()), logs, items, State())
      ensures r.Ok? ==> AddsEntries(accumulator, old(shards), shards, items)
    {
      hide AddsEntries, BatchProgress, Represents, WithinCapacity, IsGrouping, IsBatchOf;
      var sorted := SortByShard(accumulator, items);
      var groups := GroupByShard(accumulator, sorted);
      BatchProgressStarts(accumulator, State(), logs, items, sorted, groups);
      for k := 0 to |groups|
        invariant BatchProgress(accumulator, old(State()), logs, items, groups, k, State())
      {
        ghost var now := State();
        BatchProgressStep(accumulator, old(State()), logs, items, groups, k, now);
        var inserted := InsertGroup(groups[k], Partial(accumulator, logs, items, Bound(groups, k)));
        if inserted.Err? {
          return inserted;
        }
        BatchProgressNext(accumulator, old(State()), logs, items, groups, k, now, State());
      }
      BatchProgressEnds(accumulator, old(State()), logs, items, groups, State());
      BatchAddsEntries(accumulator, old(State()), logs, items, State());
      return Ok(());
    }
  }
}
