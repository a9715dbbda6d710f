/** Counting: how many nullifiers and UTXOs a run leaves, and what the reported total means. */
module LedgerAccounting {
  import opened ShieldedTypes
  import opened ShardLogs
  import opened LedgerInvariant
  import opened MantaPay
  import opened LedgerRuns

  // ---- Sums over the shards ----

  ghost function SumLens(logs: Logs, below: nat): nat
    requires below <= FOREST_WIDTH
  {
    if below == 0 then 0 else SumLens(logs, below - 1) + |logs[below - 1]|
  }

  ghost function NonEmpty(logs: Logs, below: nat): nat
    requires below <= FOREST_WIDTH
  {
    if below == 0 then 0 else NonEmpty(logs, below - 1) + if logs[below - 1] == [] then 0 else 1
  }

  ghost function SumLeafIndices(st: Storage, below: nat): nat
    requires below <= FOREST_WIDTH
  {
    if below == 0 then 0 else SumLeafIndices(st, below - 1) + st.Tree(below - 1).currentPath.leafIndex
  }

  /** The `senders_receivers_total` that a pull reports: last leaf indices plus nullifiers. */
  ghost function SendersReceiversTotal(st: Storage): nat {
    SumLeafIndices(st, FOREST_WIDTH) + st.nullifierSetSize
  }

  lemma {:induction false} LeafIndicesMissOnePerShard(m: AccumulatorModel, st: Storage, logs: Logs, below: nat)
    requires TreesHold(m, st.shardTrees, logs) && below <= FOREST_WIDTH
    ensures SumLeafIndices(st, below) + NonEmpty(logs, below) == SumLens(logs, below)
  {
    if below > 0 {
      LeafIndicesMissOnePerShard(m, st, logs, below - 1);
      TreeMatches(m, st, logs, below - 1);
    }
  }

  // ---- The UTXO set has one element per position ----

  ghost function UtxosOf(log: seq<Entry>): set<Utxo> {
    set i: nat | i < |log| :: log[i].utxo
  }

  ghost function UtxosBelow(logs: Logs, below: nat): set<Utxo>
    requires below <= FOREST_WIDTH
  {
    if below == 0 then {} else UtxosBelow(logs, below - 1) + UtxosOf(logs[below - 1])
  }

  lemma {:induction false} DistinctCard(log: seq<Entry>)
    requires forall i: nat, j: nat :: i < j < |log| ==> log[i].utxo != log[j].utxo
    ensures |UtxosOf(log)| == |log|
  {
    if log == [] {
      assert UtxosOf(log) == {};
    } else {
      var rest := log[..|log| - 1];
      DistinctCard(rest);
      assert UtxosOf(log) == UtxosOf(rest) + {log[|log| - 1].utxo};
    }
  }

  lemma {:induction false} UtxosBelowAre(logs: Logs, below: nat, u: Utxo)
    requires below <= FOREST_WIDTH
    ensures u in UtxosBelow(logs, below) <==>
            exists s: Shard, i: nat :: s < below && i < |logs[s]| && logs[s][i].utxo == u
  {
    if below > 0 {
      var top: Shard := below - 1;
      UtxosBelowAre(logs, top, u);
      assert u in UtxosOf(logs[top]) <==> exists i: nat :: i < |logs[top]| && logs[top][i].utxo == u;
    }
  }

  lemma {:induction false} ShardsDisjoint(m: AccumulatorModel, logs: Logs, below: nat)
    requires AtHome(m, logs) && NoRepeats(logs) && below <= FOREST_WIDTH
    ensures |UtxosBelow(logs, below)| == SumLens(logs, below)
  {
    if below > 0 {
      var top: Shard := below - 1;
      ShardsDisjoint(m, logs, top);
      DistinctCard(logs[top]);
      forall u | u in UtxosBelow(logs, top) ensures u !in UtxosOf(logs[top]) {
        UtxosBelowAre(logs, top, u);
      }
      assert UtxosBelow(logs, top) !! UtxosOf(logs[top]);
    }
  }

  lemma UtxoSetSize(m: AccumulatorModel, st: Storage)
    requires Inv(m, st)
    ensures |st.utxoSet| == SumLens(LogsIn(m, st), FOREST_WIDTH)
  {
    UtxosCounted(m, st.utxoSet, LogsIn(m, st));
  }

  lemma UtxosCounted(m: AccumulatorModel, utxos: set<Utxo>, logs: Logs)
    requires UtxosHold(utxos, logs) && AtHome(m, logs) && NoRepeats(logs)
    ensures |utxos| == SumLens(logs, FOREST_WIDTH)
  {
    ShardsDisjoint(m, logs, FOREST_WIDTH);
    forall u ensures u in UtxosBelow(logs, FOREST_WIDTH) <==> Registered(logs, u) {
      UtxosBelowAre(logs, FOREST_WIDTH, u);
    }
    assert UtxosHold(UtxosBelow(logs, FOREST_WIDTH), logs);
    UtxosDetermined(UtxosBelow(logs, FOREST_WIDTH), utxos, logs);
  }

  // ---- What the reported total means ----

  /** The shards that hold something. */
  ghost function NonEmptyShards(st: Storage): set<nat> {
    set s: nat | s < FOREST_WIDTH && (s, 0) in st.shards
  }

  lemma {:induction false} NonEmptyCounts(logs: Logs, below: nat)
    requires below <= FOREST_WIDTH
    ensures |set s: nat | s < below && logs[s] != []| == NonEmpty(logs, below)
  {
    var shards := set s: nat | s < below && logs[s] != [];
    if below > 0 {
      var fewer := set s: nat | s < below - 1 && logs[s] != [];
      NonEmptyCounts(logs, below - 1);
      assert shards == fewer + if logs[below - 1] == [] then {} else {below - 1};
    }
  }

  function CommitmentsIn(log: seq<Spent>): set<NullifierCommitment> {
    set i: nat | i < |log| :: log[i].commitment
  }

  lemma {:induction false} CommitmentsCount(log: seq<Spent>)
    requires forall i, j :: 0 <= i < j < |log| ==> log[i].commitment != log[j].commitment
    ensures |CommitmentsIn(log)| == |log|
  {
    if log != [] {
      var rest := log[..|log| - 1];
      CommitmentsCount(rest);
      assert CommitmentsIn(log) == CommitmentsIn(rest) + {log[|log| - 1].commitment};
    }
  }

  lemma NullifierSetCount(st: Storage)
    requires SenderSide(st)
    ensures |st.nullifierCommitmentSet| == st.nullifierSetSize
  {
    CommitmentsCount(NullifierLog(st));
    assert CommitmentsIn(NullifierLog(st)) == st.nullifierCommitmentSet;
  }

  /** The total a pull reports is the number of UTXOs and nullifiers, less one for every shard that
      holds something. */
  lemma TotalMeans(m: AccumulatorModel, st: Storage)
    requires Inv(m, st)
    ensures SendersReceiversTotal(st) + |NonEmptyShards(st)| == |st.utxoSet| + |st.nullifierCommitmentSet|
  {
    var logs := LogsIn(m, st);
    UtxoSetSize(m, st);
    NullifierSetCount(st);
    LeafIndicesMissOnePerShard(m, st, logs, FOREST_WIDTH);
    NonEmptyCounts(logs, FOREST_WIDTH);
    HoldingShards(st, logs);
  }

  lemma HoldingShards(st: Storage, logs: Logs)
    requires ShardsHold(st.shards, logs)
    ensures NonEmptyShards(st) == set s: nat | s < FOREST_WIDTH && logs[s] != []
  {
    forall s: Shard ensures (s, 0) in st.shards <==> logs[s] != [] {
    }
  }

  // ---- Growth by one batch ----

  ghost function SumSelected(m: AccumulatorModel, items: seq<Insertion>, below: nat): nat
    requires below <= FOREST_WIDTH
  {
    if below == 0 then 0 else SumSelected(m, items, below - 1) + |Select(m, items, below - 1)|
  }

  lemma SelectHead(m: AccumulatorModel, items: seq<Insertion>, s: Shard)
    requires items != []
    ensures |Select(m, items, s)| == |Select(m, items[1..], s)| + if m.Home(items[0].utxo) == s then 1 else 0
  {
  }

  lemma {:induction false} SelectOneMore(m: AccumulatorModel, items: seq<Insertion>, below: nat)
    requires items != [] && below <= FOREST_WIDTH
    ensures SumSelected(m, items, below)
         == SumSelected(m, items[1..], below) + if m.Home(items[0].utxo) < below then 1 else 0
  {
    if below > 0 {
      SelectHead(m, items, below - 1);
      hide Select;
      SelectOneMore(m, items, below - 1);
    }
  }

  lemma {:induction false} NothingSelected(m: AccumulatorModel, below: nat)
    requires below <= FOREST_WIDTH
    ensures SumSelected(m, [], below) == 0
  {
    if below > 0 {
      NothingSelected(m, below - 1);
    }
  }

  /** Selecting by shard loses and repeats nothing. */
  lemma {:induction false} SelectionPartitions(m: AccumulatorModel, items: seq<Insertion>)
    ensures SumSelected(m, items, FOREST_WIDTH) == |items|
  {
    if items == [] {
      NothingSelected(m, FOREST_WIDTH);
    } else {
      SelectionPartitions(m, items[1..]);
      SelectOneMore(m, items, FOREST_WIDTH);
    }
  }

  lemma {:induction false} SumLensGrow(m: AccumulatorModel, logs: Logs, items: seq<Insertion>, below: nat)
    requires below <= FOREST_WIDTH
    ensures SumLens(AppendByShard(m, logs, items), below) == SumLens(logs, below) + SumSelected(m, items, below)
  {
    if below > 0 {
      SumLensGrow(m, logs, items, below - 1);
    }
  }

  // ---- The accounting of a run ----

  datatype Counts = Counts(toPrivate: nat, transfers: nat, toPublic: nat)

  /** How many calls of each kind succeed; both private transfers count as one kind. */
  ghost function CountCalls(m: AccumulatorModel, st: Storage, attempts: seq<Attempt>): Counts
    requires Inv(m, st)
    decreases |attempts|
  {
    if attempts == [] then Counts(0, 0, 0)
    else
      var a := attempts[0];
      var c := CountCalls(m, Step(m, st, a.call, a.signed), attempts[1..]);
      if !Goes(m, st, a) then c
      else match a.call
        case ToPrivate(_, _) => c.(toPrivate := c.toPrivate + 1)
        case ToPublic(_, _) => c.(toPublic := c.toPublic + 1)
        case _ => c.(transfers := c.transfers + 1)
  }

  lemma {:induction false} HistoryLengths(m: AccumulatorModel, st: Storage, attempts: seq<Attempt>)
    requires Inv(m, st)
    ensures var c := CountCalls(m, st, attempts);
      && |SpentIn(m, st, attempts)| == 2 * (c.transfers + c.toPublic)
      && |Received(m, st, attempts)| == c.toPrivate + 2 * c.transfers + c.toPublic
    decreases |attempts|
  {
    hide Inv, Posts, Step;
    if attempts != [] {
      HistoryLengths(m, Step(m, st, attempts[0].call, attempts[0].signed), attempts[1..]);
    }
  }

  /** After t, p and q successful `to_private`, private transfers and `to_public`:
      2(p + q) nullifiers and t + 2p + q UTXOs; the reported total is their sum less one for
      every non-empty shard. */
  lemma RunAccounting(m: AccumulatorModel, attempts: seq<Attempt>)
    ensures var st := After(m, attempts);
      var Counts(t, p, q) := (EmptyStorageIsGood(m); CountCalls(m, EMPTY_STORAGE, attempts));
      && st.nullifierSetSize == 2 * (p + q)
      && |st.utxoSet| == t + 2 * p + q
      && |st.nullifierCommitmentSet| == 2 * (p + q)
      && SendersReceiversTotal(st) + |NonEmptyShards(st)| == t + 2 * p + q + 2 * (p + q)
  {
    EmptyStorageIsGood(m);
    var st := After(m, attempts);
    var items := Received(m, EMPTY_STORAGE, attempts);
    HistoryLengths(m, EMPTY_STORAGE, attempts);
    LogsAreHistory(m, EMPTY_STORAGE, attempts);
    UtxoSetSize(m, EMPTY_STORAGE);
    UtxoSetSize(m, st);
    SumLensGrow(m, LogsIn(m, EMPTY_STORAGE), items, FOREST_WIDTH);
    SelectionPartitions(m, items);
    NullifierSetCount(st);
    TotalMeans(m, st);
  }
}
