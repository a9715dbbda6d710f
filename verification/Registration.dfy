/** What `register_all` and `spend_all` must do, stated without loops, sorting and grouping:
    the items are handled singly, in the order they were given. */
module Registration {
  import opened Wrappers
  import opened ShieldedTypes
  import opened ShardLogs

  // ---- Reference: one item at a time ----

  /** `register_all` on a single item. */
  function RegisterOne(m: AccumulatorModel, st: Storage, item: Insertion): Result<Storage, LedgerError> {
    var s := m.Home(item.utxo);
    match Insert(m, st.Tree(s), m.itemHash(item.utxo))
    case None => Err(MerkleTreeCapacityError)
    case Some(ins) =>
      if item.note.None? then Err(FullNoteDecodeError) else
      Ok(st.(utxoSet := st.utxoSet + {item.utxo},
             shards := st.shards[(s, ins.tree.currentPath.leafIndex) := item.ToEntry()],
             shardTrees := st.shardTrees[s := ins.tree],
             utxoAccumulatorOutputs := st.utxoAccumulatorOutputs + {ins.root}))
  }

  /** The items registered singly, in input order. */
  function RegisterEach(m: AccumulatorModel, st: Storage, items: seq<Insertion>): Result<Storage, LedgerError>
    decreases |items|
  {
    if items == [] then Ok(st)
    else
      match RegisterOne(m, st, items[0])
      case Err(e) => Err(e)
      case Ok(st') => RegisterEach(m, st', items[1..])
  }

  ghost predicate WithinCapacity(m: AccumulatorModel, logs: Logs) {
    forall s: Shard :: |logs[s]| <= m.capacity
  }

  predicate NotesDecode(items: seq<Insertion>) {
    forall i :: 0 <= i < |items| ==> items[i].note.Some?
  }

  /** Every note has a ledger form and every shard has room for its share. */
  ghost predicate AllFit(m: AccumulatorModel, logs: Logs, items: seq<Insertion>) {
    && NotesDecode(items)
    && forall s: Shard :: |logs[s]| + |Select(m, items, s)| <= m.capacity
  }

  /** Registering one item into a shard whose log is known, written out. */
  lemma RegisterOneWrites(m: AccumulatorModel, st: Storage, logs: Logs, item: Insertion)
    requires TreesHold(m, st.shardTrees, logs)
    ensures var s := m.Home(item.utxo); var log := logs[s] + [item.ToEntry()];
            RegisterOne(m, st, item) ==
              if |logs[s]| >= m.capacity then Err(MerkleTreeCapacityError)
              else if item.note.None? then Err(FullNoteDecodeError)
              else Ok(st.(utxoSet := st.utxoSet + {item.utxo},
                          shards := st.shards[(s, |logs[s]|) := item.ToEntry()],
                          shardTrees := st.shardTrees[s := TreeOf(m, log)],
                          utxoAccumulatorOutputs := st.utxoAccumulatorOutputs + {RootOf(m, log)}))
  {
    var s := m.Home(item.utxo);
    TreeMatches(m, st, logs, s);
    InsertExtendsTree(m, logs[s], item.ToEntry());
  }

  /** The logs after one more item. */
  function Grown(m: AccumulatorModel, logs: Logs, item: Insertion): Logs {
    var s := m.Home(item.utxo);
    logs[s := logs[s] + [item.ToEntry()]]
  }

  lemma RegisterOneAppends(m: AccumulatorModel, st: Storage, logs: Logs, item: Insertion)
    requires Represents(m, st, logs)
    ensures RegisterOne(m, st, item).Ok? <==> |logs[m.Home(item.utxo)]| < m.capacity && item.note.Some?
    ensures RegisterOne(m, st, item).Ok? ==>
              Represents(m, RegisterOne(m, st, item).value, Grown(m, logs, item))
  {
    var s := m.Home(item.utxo);
    RegisterOneWrites(m, st, logs, item);
    AppendEntry(st.shards, st.utxoSet, logs, s, item.ToEntry());
    StoreTree(m, st.shardTrees, logs, s, logs[s] + [item.ToEntry()]);
    hide ShardsHold, TreesHold, UtxosHold;
  }

  lemma AppendOneThenRest(m: AccumulatorModel, logs: Logs, items: seq<Insertion>)
    requires items != []
    ensures AppendByShard(m, Grown(m, logs, items[0]), items[1..]) == AppendByShard(m, logs, items)
  {
    var grown := Grown(m, logs, items[0]);
    forall t: Shard
      ensures grown[t] + Entries(Select(m, items[1..], t)) == logs[t] + Entries(Select(m, items, t))
    {
      if t == m.Home(items[0].utxo) {
        EntriesAppend([items[0]], Select(m, items[1..], t));
      }
    }
  }

  lemma FitOneThenRest(m: AccumulatorModel, logs: Logs, items: seq<Insertion>)
    requires items != [] && WithinCapacity(m, logs)
    ensures AllFit(m, logs, items)
            <==> && items[0].note.Some?
                 && |logs[m.Home(items[0].utxo)]| < m.capacity
                 && AllFit(m, Grown(m, logs, items[0]), items[1..])
  {
    var s := m.Home(items[0].utxo);
    var grown := Grown(m, logs, items[0]);
    assert NotesDecode(items) <==> items[0].note.Some? && NotesDecode(items[1..]) by {
      assert items == [items[0]] + items[1..];
    }
    forall t: Shard
      ensures |grown[t]| + |Select(m, items[1..], t)| == |logs[t]| + |Select(m, items, t)|
    {
    }
    assert |Select(m, items, s)| >= 1;
    if AllFit(m, logs, items) {
      assert |logs[s]| + |Select(m, items, s)| <= m.capacity;
    }
  }

  /** Registering singly succeeds exactly when everything fits, and then every shard's log has
      grown by its share of the items in input order. */
  lemma {:induction false} RegisterEachAppends(m: AccumulatorModel, st: Storage, logs: Logs, items: seq<Insertion>)
    requires Represents(m, st, logs) && WithinCapacity(m, logs)
    ensures RegisterEach(m, st, items).Ok? <==> AllFit(m, logs, items)
    ensures RegisterEach(m, st, items).Ok? ==>
              var st' := RegisterEach(m, st, items).value;
              && Represents(m, st', AppendByShard(m, logs, items))
              && st.utxoAccumulatorOutputs <= st'.utxoAccumulatorOutputs
              && st' == st.(utxoSet := st'.utxoSet, shards := st'.shards, shardTrees := st'.shardTrees,
                            utxoAccumulatorOutputs := st'.utxoAccumulatorOutputs)
    decreases |items|
  {
    hide ShardsHold, TreesHold, UtxosHold;
    if items == [] {
      assert forall s: Shard :: logs[s] + Entries([]) == logs[s];
      assert AppendByShard(m, logs, items) == logs;
      assert forall s: Shard :: |logs[s]| + |Select(m, items, s)| <= m.capacity;
    } else {
      RegisterOneWrites(m, st, logs, items[0]);
      RegisterOneAppends(m, st, logs, items[0]);
      AppendOneThenRest(m, logs, items);
      FitOneThenRest(m, logs, items);
      if RegisterOne(m, st, items[0]).Ok? {
        RegisterEachAppends(m, RegisterOne(m, st, items[0]).value, Grown(m, logs, items[0]), items[1..]);
      }
    }
  }

  // ---- Which error the batch reports ----

  /** The fault met when `items` are inserted one after another into a tree of n leaves. */
  function GroupFault(capacity: nat, n: nat, items: seq<Insertion>): (r: Option<LedgerError>)
    ensures r in {None, Some(MerkleTreeCapacityError), Some(FullNoteDecodeError)}
    decreases |items|
  {
    if items == [] then None
    else if n >= capacity then Some(MerkleTreeCapacityError)
    else if items[0].note.None? then Some(FullNoteDecodeError)
    else GroupFault(capacity, n + 1, items[1..])
  }

  /** The fault of the lowest faulty shard from `from` on. */
  ghost function BatchFault(m: AccumulatorModel, logs: Logs, items: seq<Insertion>, from: nat)
    : (r: Option<LedgerError>)
    requires from <= FOREST_WIDTH
    ensures r in {None, Some(MerkleTreeCapacityError), Some(FullNoteDecodeError)}
    decreases FOREST_WIDTH - from
  {
    if from == FOREST_WIDTH then None
    else
      match GroupFault(m.capacity, |logs[from]|, Select(m, items, from))
      case Some(e) => Some(e)
      case None => BatchFault(m, logs, items, from + 1)
  }

  lemma {:induction false} GroupFaultFree(capacity: nat, n: nat, items: seq<Insertion>)
    requires n <= capacity
    ensures GroupFault(capacity, n, items).None? <==> NotesDecode(items) && n + |items| <= capacity
    ensures NotesDecode(items) ==> GroupFault(capacity, n, items) in {None, Some(MerkleTreeCapacityError)}
    decreases |items|
  {
    if items != [] {
      if n < capacity {
        GroupFaultFree(capacity, n + 1, items[1..]);
      }
      assert items == [items[0]] + items[1..];
    }
  }

  lemma {:induction false} BatchFaultFree(m: AccumulatorModel, logs: Logs, items: seq<Insertion>, from: nat)
    requires from <= FOREST_WIDTH
    ensures BatchFault(m, logs, items, from).None? <==>
            forall s: Shard :: from <= s ==> GroupFault(m.capacity, |logs[s]|, Select(m, items, s)).None?
    decreases FOREST_WIDTH - from
  {
    if from < FOREST_WIDTH {
      BatchFaultFree(m, logs, items, from + 1);
    }
  }

  lemma {:induction false} BatchFaultSkips(m: AccumulatorModel, logs: Logs, items: seq<Insertion>, from: nat, to: nat)
    requires from <= to <= FOREST_WIDTH
    requires forall s: Shard :: from <= s < to ==> GroupFault(m.capacity, |logs[s]|, Select(m, items, s)).None?
    ensures BatchFault(m, logs, items, from) == BatchFault(m, logs, items, to)
    decreases FOREST_WIDTH - from
  {
    if from < to {
      BatchFaultSkips(m, logs, items, from + 1, to);
    }
  }

  /** The batch is free of faults exactly when everything fits. */
  lemma BatchFaultIffUnfit(m: AccumulatorModel, logs: Logs, items: seq<Insertion>)
    requires WithinCapacity(m, logs)
    ensures BatchFault(m, logs, items, 0).None? <==> AllFit(m, logs, items)
  {
    BatchFaultFree(m, logs, items, 0);
    NotesDecodeByShard(m, items);
    hide Select, NotesDecode, BatchFault, GroupFault;
    forall s: Shard
      ensures GroupFault(m.capacity, |logs[s]|, Select(m, items, s)).None?
              <==> NotesDecode(Select(m, items, s)) && |logs[s]| + |Select(m, items, s)| <= m.capacity
    {
      GroupFaultFree(m.capacity, |logs[s]|, Select(m, items, s));
    }
  }

  lemma NotesDecodeByShard(m: AccumulatorModel, items: seq<Insertion>)
    ensures NotesDecode(items) <==> forall s: Shard :: NotesDecode(Select(m, items, s))
  {
    hide Select;
    if NotesDecode(items) {
      forall s: Shard ensures NotesDecode(Select(m, items, s)) {
        forall x | x in Select(m, items, s) ensures x.note.Some? {
          SelectMember(m, items, s, x);
        }
      }
    }
    if !NotesDecode(items) {
      var i :| 0 <= i < |items| && items[i].note.None?;
      var s := m.Home(items[i].utxo);
      SelectMember(m, items, s, items[i]);
      var j :| 0 <= j < |Select(m, items, s)| && Select(m, items, s)[j] == items[i];
      assert !NotesDecode(Select(m, items, s));
    }
  }

  // ---- The batch, stated by its singles ----

  /** The last root of every shard that receives at least one of the items. */
  ghost function LastRoots(m: AccumulatorModel, logs: Logs, items: seq<Insertion>): set<Output> {
    set s: nat | 0 <= s < FOREST_WIDTH && Select(m, items, s) != [] :: RootOf(m, AppendByShard(m, logs, items)[s])
  }

  /** Same maps as the singles; of their roots only the last one of each touched shard. */
  ghost predicate IsBatchOf(m: AccumulatorModel, st: Storage, logs: Logs, items: seq<Insertion>, st': Storage) {
    && RegisterEach(m, st, items).Ok?
    && st' == RegisterEach(m, st, items).value.(
                utxoAccumulatorOutputs := st.utxoAccumulatorOutputs + LastRoots(m, logs, items))
  }

  /** The last roots are among the roots the singles would have stored. */
  lemma {:induction false} LastRootsAreSingleRoots(m: AccumulatorModel, st: Storage, logs: Logs, items: seq<Insertion>)
    requires Represents(m, st, logs) && WithinCapacity(m, logs)
    requires RegisterEach(m, st, items).Ok?
    ensures LastRoots(m, logs, items) <= RegisterEach(m, st, items).value.utxoAccumulatorOutputs
    decreases |items|
  {
    hide ShardsHold, TreesHold, UtxosHold;
    if items != [] {
      var h := m.Home(items[0].utxo);
      var rest := items[1..];
      var grown := Grown(m, logs, items[0]);
      var st1 := RegisterOne(m, st, items[0]).value;
      RegisterOneWrites(m, st, logs, items[0]);
      RegisterOneAppends(m, st, logs, items[0]);
      AppendOneThenRest(m, logs, items);
      RegisterEachAppends(m, st1, grown, rest);
      LastRootsAreSingleRoots(m, st1, grown, rest);
      forall s: Shard | Select(m, items, s) != []
        ensures RootOf(m, AppendByShard(m, logs, items)[s])
                in RegisterEach(m, st, items).value.utxoAccumulatorOutputs
      {
        if Select(m, rest, s) == [] {
          assert s == h && AppendByShard(m, grown, rest)[s] == grown[s];
        } else {
          assert RootOf(m, AppendByShard(m, grown, rest)[s]) in LastRoots(m, grown, rest);
        }
      }
    }
  }

  /** The batch and the singles fail together; when every note decodes the error is the same too. */
  lemma BatchFailsWithSingles(m: AccumulatorModel, st: Storage, logs: Logs, items: seq<Insertion>)
    requires Represents(m, st, logs) && WithinCapacity(m, logs)
    ensures BatchFault(m, logs, items, 0).None? <==> RegisterEach(m, st, items).Ok?
    ensures NotesDecode(items) && RegisterEach(m, st, items).Err? ==>
            BatchFault(m, logs, items, 0) == Some(RegisterEach(m, st, items).error) == Some(MerkleTreeCapacityError)
  {
    RegisterEachAppends(m, st, logs, items);
    BatchFaultIffUnfit(m, logs, items);
    if NotesDecode(items) && RegisterEach(m, st, items).Err? {
      SinglesCapacityOnly(m, st, logs, items);
      BatchCapacityOnly(m, logs, items, 0);
    }
  }

  lemma {:induction false} SinglesCapacityOnly(m: AccumulatorModel, st: Storage, logs: Logs, items: seq<Insertion>)
    requires Represents(m, st, logs)
    requires NotesDecode(items) && RegisterEach(m, st, items).Err?
    ensures RegisterEach(m, st, items).error == MerkleTreeCapacityError
    decreases |items|
  {
    RegisterOneWrites(m, st, logs, items[0]);
    RegisterOneAppends(m, st, logs, items[0]);
    if RegisterOne(m, st, items[0]).Ok? {
      SinglesCapacityOnly(m, RegisterOne(m, st, items[0]).value, Grown(m, logs, items[0]), items[1..]);
    }
  }

  lemma {:induction false} BatchCapacityOnly(m: AccumulatorModel, logs: Logs, items: seq<Insertion>, from: nat)
    requires WithinCapacity(m, logs) && NotesDecode(items) && from <= FOREST_WIDTH
    ensures BatchFault(m, logs, items, from) in {None, Some(MerkleTreeCapacityError)}
    decreases FOREST_WIDTH - from
  {
    if from < FOREST_WIDTH {
      forall x | x in Select(m, items, from) ensures x.note.Some? {
        SelectMember(m, items, from, x);
      }
      GroupFaultFree(m.capacity, |logs[from]|, Select(m, items, from));
      BatchCapacityOnly(m, logs, items, from + 1);
    }
  }

  // ---- When the batch and the singles report the same error ----

  /** What goes wrong at items[i] when its turn comes in its own shard: no room behind the earlier
      items of that shard, or else a note without ledger form. */
  function FaultAt(m: AccumulatorModel, logs: Logs, items: seq<Insertion>, i: nat): Option<LedgerError>
    requires i < |items|
  {
    var h := m.Home(items[i].utxo);
    if |logs[h]| + |Select(m, items[..i], h)| >= m.capacity then Some(MerkleTreeCapacityError)
    else if items[i].note.None? then Some(FullNoteDecodeError)
    else None
  }

  /** The first faulty item in input order. */
  ghost predicate FirstFault(m: AccumulatorModel, logs: Logs, items: seq<Insertion>, i: nat) {
    && i < |items|
    && FaultAt(m, logs, items, i).Some?
    && forall k: nat :: k < i ==> FaultAt(m, logs, items, k).None?
  }

  /** The first faulty item of the lowest shard that has one. */
  ghost predicate LowestFault(m: AccumulatorModel, logs: Logs, items: seq<Insertion>, j: nat) {
    && j < |items|
    && FaultAt(m, logs, items, j).Some?
    && forall k: nat :: k < |items| && FaultAt(m, logs, items, k).Some? ==>
         var h, hk := m.Home(items[j].utxo), m.Home(items[k].utxo);
         h < hk || (h == hk && j <= k)
  }

  lemma FaultInRest(m: AccumulatorModel, logs: Logs, items: seq<Insertion>, i: nat)
    requires 0 < i < |items|
    ensures FaultAt(m, logs, items, i) == FaultAt(m, Grown(m, logs, items[0]), items[1..], i - 1)
  {
    assert items[..i][1..] == items[1..][..i - 1];
  }

  lemma FirstFaultInRest(m: AccumulatorModel, logs: Logs, items: seq<Insertion>, i: nat)
    requires 0 < i && FirstFault(m, logs, items, i)
    ensures FirstFault(m, Grown(m, logs, items[0]), items[1..], i - 1)
  {
    FaultInRest(m, logs, items, i);
    forall k: nat | k < i - 1 ensures FaultAt(m, Grown(m, logs, items[0]), items[1..], k).None? {
      FaultInRest(m, logs, items, k + 1);
    }
  }

  /** The singles report the fault of the first faulty item. */
  lemma {:induction false} SinglesReportFirst(
    m: AccumulatorModel, st: Storage, logs: Logs, items: seq<Insertion>, i: nat)
    requires Represents(m, st, logs) && FirstFault(m, logs, items, i)
    ensures RegisterEach(m, st, items) == Err(FaultAt(m, logs, items, i).value)
    decreases |items|
  {
    RegisterOneWrites(m, st, logs, items[0]);
    RegisterOneAppends(m, st, logs, items[0]);
    hide ShardsHold, TreesHold, UtxosHold;
    if i > 0 {
      assert FaultAt(m, logs, items, 0).None?;
      FirstFaultInRest(m, logs, items, i);
      FaultInRest(m, logs, items, i);
      SinglesReportFirst(m, RegisterOne(m, st, items[0]).value, Grown(m, logs, items[0]), items[1..], i - 1);
    }
  }

  /** A shard's group reports the fault of its first faulty item, or nothing when j is the end. */
  lemma {:induction false} GroupReportsFirst(
    m: AccumulatorModel, logs: Logs, items: seq<Insertion>, s: Shard, j: nat)
    requires j <= |items|
    requires j < |items| ==> m.Home(items[j].utxo) == s && FaultAt(m, logs, items, j).Some?
    requires forall k: nat :: k < j && m.Home(items[k].utxo) == s ==> FaultAt(m, logs, items, k).None?
    ensures GroupFault(m.capacity, |logs[s]|, Select(m, items, s))
         == if j < |items| then FaultAt(m, logs, items, j) else None
    decreases |items|
  {
    if items != [] && j > 0 {
      var grown, rest := Grown(m, logs, items[0]), items[1..];
      if m.Home(items[0].utxo) == s {
        assert FaultAt(m, logs, items, 0).None?;
        assert Select(m, items, s)[1..] == Select(m, rest, s);
        assert |logs[s]| < m.capacity && items[0].note.Some?;
      } else {
        assert Select(m, items, s) == Select(m, rest, s);
      }
      if j < |items| {
        FaultInRest(m, logs, items, j);
      }
      forall k: nat | k < j - 1 && m.Home(rest[k].utxo) == s ensures FaultAt(m, grown, rest, k).None? {
        FaultInRest(m, logs, items, k + 1);
      }
      hide FaultAt;
      GroupReportsFirst(m, grown, rest, s, j - 1);
    }
  }

  /** The batch reports the fault of the first faulty item of the lowest faulty shard. */
  lemma BatchReportsLowest(m: AccumulatorModel, logs: Logs, items: seq<Insertion>, j: nat)
    requires LowestFault(m, logs, items, j)
    ensures BatchFault(m, logs, items, 0) == FaultAt(m, logs, items, j)
  {
    var h := m.Home(items[j].utxo);
    hide FaultAt, GroupFault, Select;
    forall s: Shard | s < h ensures GroupFault(m.capacity, |logs[s]|, Select(m, items, s)).None? {
      GroupReportsFirst(m, logs, items, s, |items|);
    }
    BatchFaultSkips(m, logs, items, 0, h);
    GroupReportsFirst(m, logs, items, h, j);
  }

  lemma {:induction false} FirstFaultExists(m: AccumulatorModel, logs: Logs, items: seq<Insertion>, k: nat)
    requires k < |items| && FaultAt(m, logs, items, k).Some?
    ensures exists i: nat :: FirstFault(m, logs, items, i)
  {
    hide FaultAt;
    if i: nat :| i < k && FaultAt(m, logs, items, i).Some? {
      FirstFaultExists(m, logs, items, i);
    } else {
      assert FirstFault(m, logs, items, k);
    }
  }

  lemma {:induction false} LowestFaultExists(m: AccumulatorModel, logs: Logs, items: seq<Insertion>, k: nat)
    requires k < |items| && FaultAt(m, logs, items, k).Some?
    ensures exists j: nat :: LowestFault(m, logs, items, j)
    decreases m.Home(items[k].utxo), k
  {
    hide FaultAt;
    var h := m.Home(items[k].utxo);
    if j: nat :| (
         && j < |items| && FaultAt(m, logs, items, j).Some?
         && (m.Home(items[j].utxo) < h || (m.Home(items[j].utxo) == h && j < k)))
    {
      LowestFaultExists(m, logs, items, j);
    } else {
      assert LowestFault(m, logs, items, k);
    }
  }

  /** Whenever registration fails there are such items. */
  lemma FailureHasFaults(m: AccumulatorModel, st: Storage, logs: Logs, items: seq<Insertion>)
    requires Represents(m, st, logs) && WithinCapacity(m, logs)
    ensures RegisterEach(m, st, items).Err? <==> exists i: nat :: FirstFault(m, logs, items, i)
    ensures RegisterEach(m, st, items).Err? <==> exists j: nat :: LowestFault(m, logs, items, j)
  {
    hide Represents, WithinCapacity, AllFit, FaultAt, RegisterEach, GroupFault, BatchFault, Select;
    RegisterEachAppends(m, st, logs, items);
    BatchFaultIffUnfit(m, logs, items);
    if k: nat :| k < |items| && FaultAt(m, logs, items, k).Some? {
      FirstFaultExists(m, logs, items, k);
      LowestFaultExists(m, logs, items, k);
      var j: nat :| LowestFault(m, logs, items, j);
      BatchReportsLowest(m, logs, items, j);
    } else {
      forall s: Shard ensures GroupFault(m.capacity, |logs[s]|, Select(m, items, s)).None? {
        GroupReportsFirst(m, logs, items, s, |items|);
      }
      BatchFaultFree(m, logs, items, 0);
    }
  }

  /** The errors agree exactly when the first faulty item in input order and the first faulty item
      of the lowest faulty shard fail in the same way. */
  lemma ErrorsAgreeIff(m: AccumulatorModel, st: Storage, logs: Logs, items: seq<Insertion>, i: nat, j: nat)
    requires Represents(m, st, logs)
    requires FirstFault(m, logs, items, i) && LowestFault(m, logs, items, j)
    ensures RegisterEach(m, st, items) == Err(FaultAt(m, logs, items, i).value)
    ensures BatchFault(m, logs, items, 0) == FaultAt(m, logs, items, j)
    ensures BatchFault(m, logs, items, 0) == Some(RegisterEach(m, st, items).error)
            <==> FaultAt(m, logs, items, i) == FaultAt(m, logs, items, j)
  {
    SinglesReportFirst(m, st, logs, items, i);
    BatchReportsLowest(m, logs, items, j);
  }

  /** With an undecodable note in the post the two may report different errors: here the first
      item has no note, while a lower shard overflows. */
  lemma ErrorsMayDiffer(m: AccumulatorModel, logs: Logs, a: Utxo, b: Utxo, c: Utxo)
    requires m.capacity == 1 && m.Home(a) == 1 && m.Home(b) == 0 && m.Home(c) == 0
    requires forall s: Shard :: logs[s] == []
    ensures var note := Some(DEFAULT_NOTE);
            var items := [Insertion(a, None), Insertion(b, note), Insertion(c, note)];
            && RegisterEach(m, EMPTY_STORAGE, items) == Err(FullNoteDecodeError)
            && BatchFault(m, logs, items, 0) == Some(MerkleTreeCapacityError)
  {
    var x, y, z := Insertion(a, None), Insertion(b, Some(DEFAULT_NOTE)), Insertion(c, Some(DEFAULT_NOTE));
    var items := [x, y, z];
    assert items[1..] == [y, z] && [y, z][1..] == [z] && [z][1..] == [];
    assert Select(m, [z], 0) == [z];
    assert Select(m, [y, z], 0) == [y] + Select(m, [z], 0) == [y, z];
    assert Select(m, items, 0) == [y, z];
    assert GroupFault(1, 1, [z]) == GroupFault(1, 0, [y, z]) == Some(MerkleTreeCapacityError);
    assert GroupFault(m.capacity, |logs[0]|, Select(m, items, 0)) == Some(MerkleTreeCapacityError);
  }

  // ---- What is stored ----

  /** The UTXO is stored with its note, in the shard that its hash selects. */
  ghost predicate HasEntry(m: AccumulatorModel, shards: map<(Shard, nat), Entry>, x: Insertion) {
    && x.note.Some?
    && exists i: nat ::
         var key := (m.treeIndex(m.itemHash(x.utxo)), i);
         key in shards && shards[key] == Entry(x.utxo, x.note.value)
  }

  /** All items are stored, nothing else is added, and nothing stored before is touched. */
  ghost predicate AddsEntries(
    m: AccumulatorModel, before: map<(Shard, nat), Entry>, after: map<(Shard, nat), Entry>, items: seq<Insertion>)
  {
    && (forall x :: x in items ==> HasEntry(m, after, x))
    && (forall key :: key in before ==> key in after && after[key] == before[key])
    && (forall key :: key in after && key !in before ==>
          exists x :: x in items && x.note == Some(after[key].note) && x.utxo == after[key].utxo)
  }

  lemma SelectedIsStored(
    m: AccumulatorModel, shards: map<(Shard, nat), Entry>, logs: Logs, items: seq<Insertion>, x: Insertion)
    requires ShardsHold(shards, AppendByShard(m, logs, items))
    requires x in items && x.note.Some?
    ensures HasEntry(m, shards, x)
  {
    var h := m.Home(x.utxo);
    SelectMember(m, items, h, x);
    var j :| 0 <= j < |Select(m, items, h)| && Select(m, items, h)[j] == x;
    var grown := AppendByShard(m, logs, items);
    assert grown[h][|logs[h]| + j] == x.ToEntry();
    assert (h, |logs[h]| + j) in shards;
  }

  lemma StoredIsSelected(
    m: AccumulatorModel, shards: map<(Shard, nat), Entry>, logs: Logs, items: seq<Insertion>, s: Shard, i: nat)
    requires ShardsHold(shards, AppendByShard(m, logs, items)) && NotesDecode(items)
    requires (s, i) in shards && i >= |logs[s]|
    ensures var e := shards[(s, i)]; exists x :: x in items && x.note == Some(e.note) && x.utxo == e.utxo
  {
    var x := Select(m, items, s)[i - |logs[s]|];
    SelectMember(m, items, s, x);
    assert shards[(s, i)] == x.ToEntry();
    assert x in items && x.note.Some?;
  }

  lemma OldKeyKept(
    m: AccumulatorModel, before: map<(Shard, nat), Entry>, after: map<(Shard, nat), Entry>, logs: Logs,
    items: seq<Insertion>, s: Shard, i: nat)
    requires ShardsHold(before, logs) && ShardsHold(after, AppendByShard(m, logs, items))
    requires (s, i) in before
    ensures (s, i) in after && after[(s, i)] == before[(s, i)]
  {
    assert AppendByShard(m, logs, items)[s][i] == logs[s][i];
  }

  lemma GrownShardsAddEntries(
    m: AccumulatorModel, before: map<(Shard, nat), Entry>, after: map<(Shard, nat), Entry>, logs: Logs,
    items: seq<Insertion>)
    requires ShardsHold(before, logs) && ShardsHold(after, AppendByShard(m, logs, items)) && NotesDecode(items)
    ensures AddsEntries(m, before, after, items)
  {
    forall x | x in items ensures HasEntry(m, after, x) {
      SelectedIsStored(m, after, logs, items, x);
    }
    forall key: (Shard, nat) | key in before ensures key in after && after[key] == before[key] {
      OldKeyKept(m, before, after, logs, items, key.0, key.1);
    }
    forall key: (Shard, nat) | key in after && key !in before
      ensures exists x :: x in items && x.note == Some(after[key].note) && x.utxo == after[key].utxo
    {
      assert (key.0, key.1) !in before;
      StoredIsSelected(m, after, logs, items, key.0, key.1);
    }
  }

  /** A batch that goes through stores exactly its items, each UTXO with its own note. */
  lemma BatchAddsEntries(m: AccumulatorModel, st: Storage, logs: Logs, items: seq<Insertion>, st': Storage)
    requires Represents(m, st, logs) && WithinCapacity(m, logs)
    requires IsBatchOf(m, st, logs, items, st')
    ensures AddsEntries(m, st.shards, st'.shards, items)
  {
    hide ShardsHold, TreesHold, UtxosHold, AddsEntries, RegisterEach, WithinCapacity;
    RegisterEachAppends(m, st, logs, items);
    GrownShardsAddEntries(m, st.shards, st'.shards, logs, items);
  }

  /** A batch of one is a single registration. */
  lemma BatchOfOne(m: AccumulatorModel, st: Storage, logs: Logs, item: Insertion, st': Storage)
    requires Represents(m, st, logs)
    requires IsBatchOf(m, st, logs, [item], st')
    ensures RegisterOne(m, st, item) == Ok(st')
  {
    hide ShardsHold, TreesHold, UtxosHold;
    assert [item][1..] == [];
    assert RegisterEach(m, st, [item]) == RegisterOne(m, st, item);
    RegisterOneWrites(m, st, logs, item);
    var h := m.Home(item.utxo);
    forall s: Shard ensures Select(m, [item], s) == if s == h then [item] else [] {
    }
    assert AppendByShard(m, logs, [item])[h] == logs[h] + [item.ToEntry()];
    assert LastRoots(m, logs, [item]) == {RootOf(m, logs[h] + [item.ToEntry()])};
  }

  // ---- Spending ----

  /** `spend_all` on a single spending. */
  function SpendOne(st: Storage, x: Spending): Storage {
    st.(nullifierCommitmentSet := st.nullifierCommitmentSet + {x.commitment},
        nullifierSetInsertionOrder := st.nullifierSetInsertionOrder[st.nullifierSetSize := x.ToSpent()],
        nullifierSetSize := st.nullifierSetSize + 1)
  }

  function SpendEach(st: Storage, spendings: seq<Spending>): Storage
    decreases |spendings|
  {
    if spendings == [] then st else SpendEach(SpendOne(st, spendings[0]), spendings[1..])
  }

  /** The order after spending: the k-th spending is at the k-th new position, with its own note;
      earlier positions stay, and the commitments are in the set. */
  ghost predicate AddsSpents(before: Storage, after: Storage, spendings: seq<Spending>) {
    && after.nullifierSetSize == before.nullifierSetSize + |spendings|
    && (forall k :: 0 <= k < |spendings| ==>
          && spendings[k].note.Some?
          && before.nullifierSetSize + k in after.nullifierSetInsertionOrder
          && after.nullifierSetInsertionOrder[before.nullifierSetSize + k]
             == Spent(spendings[k].commitment, spendings[k].note.value))
    && (forall i :: i in before.nullifierSetInsertionOrder && i < before.nullifierSetSize ==>
          && i in after.nullifierSetInsertionOrder
          && after.nullifierSetInsertionOrder[i] == before.nullifierSetInsertionOrder[i])
    && after.nullifierCommitmentSet
       == before.nullifierCommitmentSet + set k | 0 <= k < |spendings| :: spendings[k].commitment
  }

  lemma {:induction false} SpendEachAddsSpents(st: Storage, spendings: seq<Spending>)
    requires forall k :: 0 <= k < |spendings| ==> spendings[k].note.Some?
    ensures AddsSpents(st, SpendEach(st, spendings), spendings)
    decreases |spendings|
  {
    if spendings != [] {
      var x, rest := spendings[0], spendings[1..];
      var next := SpendOne(st, x);
      SpendEachAddsSpents(next, rest);
      var after := SpendEach(next, rest);
      assert x.note.Some?;
      assert next.nullifierSetInsertionOrder[st.nullifierSetSize] == Spent(x.commitment, x.note.value);
      forall k | 0 <= k < |spendings|
        ensures st.nullifierSetSize + k in after.nullifierSetInsertionOrder
        ensures after.nullifierSetInsertionOrder[st.nullifierSetSize + k]
             == Spent(spendings[k].commitment, spendings[k].note.value)
      {
        if k > 0 {
          assert rest[k - 1] == spendings[k] && next.nullifierSetSize + (k - 1) == st.nullifierSetSize + k;
        }
      }
      CommitmentsOf(x, rest, spendings);
    }
  }

  lemma CommitmentsOf(x: Spending, rest: seq<Spending>, spendings: seq<Spending>)
    requires spendings == [x] + rest
    ensures (set k | 0 <= k < |spendings| :: spendings[k].commitment)
         == {x.commitment} + set k | 0 <= k < |rest| :: rest[k].commitment
  {
    var all := set k | 0 <= k < |spendings| :: spendings[k].commitment;
    forall k | 0 <= k < |rest| ensures rest[k].commitment in all {
      assert spendings[k + 1] == rest[k];
    }
    assert spendings[0].commitment in all;
    forall k | 0 < k < |spendings| ensures spendings[k] == rest[k - 1] {
    }
  }
}
