/** One accepted post keeps the ledger invariant. */
module LedgerSteps {
  import opened ShieldedTypes
  import opened ShardLogs
  import opened Registration
  import opened LedgerInvariant

  // ---- What the checks before a post establish ----

  /** Each nullifier is unspent, proved against a known output, and used once in the post. */
  predicate SendersAdmissible(st: Storage, spendings: seq<Spending>) {
    && (forall i :: 0 <= i < |spendings| ==>
          && (spendings[i].output == ZERO_OUTPUT || spendings[i].output in st.utxoAccumulatorOutputs)
          && spendings[i].commitment !in st.nullifierCommitmentSet)
    && (forall i, j :: 0 <= i < j < |spendings| ==> spendings[i].commitment != spendings[j].commitment)
  }

  /** Each UTXO is unregistered and appears once in the post. */
  predicate ReceiversAdmissible(st: Storage, items: seq<Insertion>) {
    && (forall i :: 0 <= i < |items| ==> items[i].utxo !in st.utxoSet)
    && DistinctUtxos(items)
  }

  predicate DistinctUtxos(items: seq<Insertion>) {
    forall i, j :: 0 <= i < j < |items| ==> items[i].utxo != items[j].utxo
  }

  // ---- Receivers ----

  lemma {:induction false} SelectDistinct(m: AccumulatorModel, items: seq<Insertion>, s: Shard)
    requires DistinctUtxos(items)
    ensures DistinctUtxos(Select(m, items, s))
  {
    if items != [] {
      SelectDistinct(m, items[1..], s);
      forall x | x in Select(m, items[1..], s) ensures x.utxo != items[0].utxo {
        SelectMember(m, items[1..], s, x);
      }
    }
  }

  lemma AppendKeepsContents(m: AccumulatorModel, st: Storage, logs: Logs, items: seq<Insertion>)
    requires UtxosHold(st.utxoSet, logs) && AtHome(m, logs) && NoRepeats(logs)
    requires ReceiversAdmissible(st, items)
    ensures AtHome(m, AppendByShard(m, logs, items))
    ensures NoRepeats(AppendByShard(m, logs, items))
  {
    var logs' := AppendByShard(m, logs, items);
    forall s: Shard, i: nat | i < |logs'[s]| ensures m.Home(logs'[s][i].utxo) == s {
      if i >= |logs[s]| {
        SelectMember(m, items, s, Select(m, items, s)[i - |logs[s]|]);
      }
    }
    forall s: Shard, i: nat, j: nat | i < j < |logs'[s]| ensures logs'[s][i].utxo != logs'[s][j].utxo {
      var share := Select(m, items, s);
      SelectDistinct(m, items, s);
      if i < |logs[s]| <= j {
        SelectMember(m, items, s, share[j - |logs[s]|]);
        assert logs[s][i].utxo in st.utxoSet;
      }
    }
  }

  lemma PrefixRootKept(m: AccumulatorModel, logs: Logs, logs': Logs, o: Output)
    requires IsPrefixRoot(m, logs, o)
    requires forall s: Shard :: logs[s] <= logs'[s]
    ensures IsPrefixRoot(m, logs', o)
  {
    var s: Shard, k: nat :| 1 <= k <= |logs[s]| && o == RootOf(m, logs[s][..k]);
    assert logs'[s][..k] == logs[s][..k];
  }

  lemma AppendKeepsSound(m: AccumulatorModel, outputs: set<Output>, logs: Logs, items: seq<Insertion>)
    requires OutputsSound(m, logs, outputs)
    ensures OutputsSound(m, AppendByShard(m, logs, items), outputs + LastRoots(m, logs, items))
  {
    var logs' := AppendByShard(m, logs, items);
    forall o | o in outputs + LastRoots(m, logs, items) ensures IsPrefixRoot(m, logs', o) {
      if o in outputs {
        PrefixRootKept(m, logs, logs', o);
      } else {
        var s: Shard :| Select(m, items, s) != [] && o == RootOf(m, logs'[s]);
        assert logs'[s][..|logs'[s]|] == logs'[s];
      }
    }
  }

  lemma AppendKeepsCurrent(m: AccumulatorModel, outputs: set<Output>, logs: Logs, items: seq<Insertion>)
    requires OutputsCurrent(m, logs, outputs)
    ensures OutputsCurrent(m, AppendByShard(m, logs, items), outputs + LastRoots(m, logs, items))
  {
    var logs' := AppendByShard(m, logs, items);
    forall s: Shard | logs'[s] != []
      ensures RootOf(m, logs'[s]) in outputs + LastRoots(m, logs, items)
    {
      if Select(m, items, s) == [] {
        assert logs'[s] == logs[s];
      }
    }
  }

  /** A batch of fresh, distinct items keeps the receiver side of the invariant. */
  lemma BatchKeepsReceivers(m: AccumulatorModel, st: Storage, logs: Logs, items: seq<Insertion>, st': Storage)
    requires ReceiversGood(m, st, logs)
    requires ReceiversAdmissible(st, items)
    requires IsBatchOf(m, st, logs, items, st')
    ensures ReceiversGood(m, st', AppendByShard(m, logs, items))
    ensures ShardsContiguous(st') && LogsOf(st') == AppendByShard(m, logs, items)
    ensures st' == st.(utxoSet := st'.utxoSet, shards := st'.shards, shardTrees := st'.shardTrees,
                       utxoAccumulatorOutputs := st'.utxoAccumulatorOutputs)
  {
    AppendKeepsContents(m, st, logs, items);
    AppendKeepsSound(m, st.utxoAccumulatorOutputs, logs, items);
    AppendKeepsCurrent(m, st.utxoAccumulatorOutputs, logs, items);
    hide ShardsHold, TreesHold, UtxosHold, AtHome, NoRepeats, OutputsSound, OutputsCurrent, ShardsContiguous;
    RegisterEachAppends(m, st, logs, items);
    assert Represents(m, st', AppendByShard(m, logs, items));
    LogsReadBack(m, st', AppendByShard(m, logs, items));
  }

  // ---- Senders ----

  function Spents(spendings: seq<Spending>): (r: seq<Spent>)
    ensures |r| == |spendings|
    ensures forall i :: 0 <= i < |spendings| ==> r[i] == spendings[i].ToSpent()
  {
    seq(|spendings|, i requires 0 <= i < |spendings| => spendings[i].ToSpent())
  }

  lemma SpentsFirst(spendings: seq<Spending>)
    requires spendings != []
    ensures Spents(spendings) == [spendings[0].ToSpent()] + Spents(spendings[1..])
  {
  }

  lemma SpendOneKeepsSenders(st: Storage, x: Spending)
    requires SenderSide(st) && x.commitment !in st.nullifierCommitmentSet
    ensures SenderSide(SpendOne(st, x))
    ensures SpentLog(SpendOne(st, x)) == SpentLog(st) + [x.ToSpent()]
  {
    var st' := SpendOne(st, x);
    var log, log' := NullifierLog(st), NullifierLog(st');
    assert log' == log + [x.ToSpent()];
    forall c | c in st'.nullifierCommitmentSet ensures exists i :: 0 <= i < |log'| && log'[i].commitment == c {
      if c in st.nullifierCommitmentSet {
        var i :| 0 <= i < |log| && log[i].commitment == c;
        assert log'[i].commitment == c;
      } else {
        assert log'[|log|].commitment == c;
      }
    }
    forall i | 0 <= i < |log'| ensures log'[i].commitment in st'.nullifierCommitmentSet {
      if i < |log| {
        assert log[i].commitment in st.nullifierCommitmentSet;
      }
    }
  }

  /** Spending fresh, distinct nullifiers appends them to the log. */
  lemma {:induction false} SpendEachKeepsSenders(st: Storage, spendings: seq<Spending>)
    requires SenderSide(st) && SendersAdmissible(st, spendings)
    ensures SenderSide(SpendEach(st, spendings))
    ensures SpentLog(SpendEach(st, spendings)) == SpentLog(st) + Spents(spendings)
    decreases |spendings|
  {
    hide SenderSide, SpentLog, SendersAdmissible, SpendOne, Spents;
    if spendings == [] {
      assert SpentLog(st) + [] == SpentLog(st);
    } else {
      var x, rest := spendings[0], spendings[1..];
      StillAdmissible(st, spendings);
      SpendOneKeepsSenders(st, x);
      SpendEachKeepsSenders(SpendOne(st, x), rest);
      SpentsFirst(spendings);
    }
  }

  lemma StillAdmissible(st: Storage, spendings: seq<Spending>)
    requires SendersAdmissible(st, spendings) && spendings != []
    ensures spendings[0].commitment !in st.nullifierCommitmentSet
    ensures SendersAdmissible(SpendOne(st, spendings[0]), spendings[1..])
  {
  }

  lemma {:induction false} SpendEachTouchesSendersOnly(st: Storage, spendings: seq<Spending>)
    ensures var st' := SpendEach(st, spendings);
            st' == st.(nullifierCommitmentSet := st'.nullifierCommitmentSet,
                       nullifierSetInsertionOrder := st'.nullifierSetInsertionOrder,
                       nullifierSetSize := st'.nullifierSetSize)
    decreases |spendings|
  {
    if spendings != [] {
      SpendEachTouchesSendersOnly(SpendOne(st, spendings[0]), spendings[1..]);
    }
  }
}
