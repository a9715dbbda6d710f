/** The storage invariant of the shielded ledger, and the logs read back from the storage. */
module LedgerInvariant {
  import opened ShieldedTypes
  import opened ShardLogs
  import opened Registration

  // ---- Reading the logs back ----

  /** The keys of every shard are exactly 0..n, n being what its tree says. */
  ghost predicate ShardsContiguous(st: Storage) {
    forall s: Shard, i: nat :: (s, i) in st.shards <==> i < st.ShardLen(s)
  }

  ghost function LogsOf(st: Storage): (logs: Logs)
    requires ShardsContiguous(st)
    ensures forall s: Shard :: |logs[s]| == st.ShardLen(s)
    ensures forall s: Shard, i: nat :: i < |logs[s]| ==> logs[s][i] == st.shards[(s, i)]
  {
    seq(FOREST_WIDTH, s requires 0 <= s < FOREST_WIDTH =>
      seq(st.ShardLen(s), i requires 0 <= i < st.ShardLen(s) => st.shards[(s, i)]))
  }

  /** The keys of the nullifier order are exactly 0..size. */
  ghost predicate NullifiersContiguous(st: Storage) {
    forall i: nat :: i in st.nullifierSetInsertionOrder <==> i < st.nullifierSetSize
  }

  ghost function NullifierLog(st: Storage): (log: seq<Spent>)
    requires NullifiersContiguous(st)
    ensures |log| == st.nullifierSetSize
    ensures forall i: nat :: i < |log| ==> log[i] == st.nullifierSetInsertionOrder[i]
  {
    seq(st.nullifierSetSize, i requires 0 <= i < st.nullifierSetSize => st.nullifierSetInsertionOrder[i])
  }

  /** What a storage represents is what is read back from it. */
  lemma LogsReadBack(m: AccumulatorModel, st: Storage, logs: Logs)
    requires Represents(m, st, logs)
    ensures ShardsContiguous(st) && LogsOf(st) == logs
  {
    forall s: Shard ensures st.ShardLen(s) == |logs[s]| {
      TreeMatches(m, st, logs, s);
    }
    forall s: Shard ensures LogsOf(st)[s] == logs[s] {
    }
  }

  // ---- The parts of the invariant ----

  ghost predicate AtHome(m: AccumulatorModel, logs: Logs) {
    forall s: Shard, i: nat :: i < |logs[s]| ==> m.Home(logs[s][i].utxo) == s
  }

  ghost predicate NoRepeats(logs: Logs) {
    forall s: Shard, i: nat, j: nat :: i < j < |logs[s]| ==> logs[s][i].utxo != logs[s][j].utxo
  }

  ghost predicate IsPrefixRoot(m: AccumulatorModel, logs: Logs, o: Output) {
    exists s: Shard, k: nat :: 1 <= k <= |logs[s]| && o == RootOf(m, logs[s][..k])
  }

  /** Every output is the root of a non-empty prefix of some shard. */
  ghost predicate OutputsSound(m: AccumulatorModel, logs: Logs, outputs: set<Output>) {
    forall o :: o in outputs ==> IsPrefixRoot(m, logs, o)
  }

  /** The current root of every non-empty shard is an output. */
  ghost predicate OutputsCurrent(m: AccumulatorModel, logs: Logs, outputs: set<Output>) {
    forall s: Shard :: logs[s] != [] ==> RootOf(m, logs[s]) in outputs
  }

  ghost predicate ReceiversGood(m: AccumulatorModel, st: Storage, logs: Logs) {
    && Represents(m, st, logs)
    && WithinCapacity(m, logs)
    && AtHome(m, logs)
    && NoRepeats(logs)
    && OutputsSound(m, logs, st.utxoAccumulatorOutputs)
    && OutputsCurrent(m, logs, st.utxoAccumulatorOutputs)
  }

  /** The nullifier log enumerates the nullifier set without repetition. */
  ghost predicate NullifiersGood(st: Storage, log: seq<Spent>) {
    && (forall c :: c in st.nullifierCommitmentSet <==> exists i :: 0 <= i < |log| && log[i].commitment == c)
    && (forall i, j :: 0 <= i < j < |log| ==> log[i].commitment != log[j].commitment)
  }

  ghost predicate SenderSide(st: Storage) {
    && NullifiersContiguous(st)
    && NullifiersGood(st, NullifierLog(st))
  }

  ghost function SpentLog(st: Storage): seq<Spent>
    requires SenderSide(st)
  {
    NullifierLog(st)
  }

  /** The invariant of the ledger's storage. */
  ghost predicate Inv(m: AccumulatorModel, st: Storage) {
    && ShardsContiguous(st)
    && ReceiversGood(m, st, LogsOf(st))
    && SenderSide(st)
  }

  /** The shard logs of a good storage. */
  ghost function LogsIn(m: AccumulatorModel, st: Storage): Logs
    requires Inv(m, st)
  {
    LogsOf(st)
  }

  /** The nullifier log of a good storage. */
  ghost function NullifiersIn(m: AccumulatorModel, st: Storage): seq<Spent>
    requires Inv(m, st)
  {
    NullifierLog(st)
  }

  lemma EmptyStorageIsGood(m: AccumulatorModel)
    ensures Inv(m, EMPTY_STORAGE)
  {
    var logs: Logs := seq(FOREST_WIDTH, i => []);
    assert Represents(m, EMPTY_STORAGE, logs);
    LogsReadBack(m, EMPTY_STORAGE, logs);
  }
}
