/** The abstract contents of the ledger: one append-only log per shard, and what it
    means for the stored maps to represent such logs. */
module ShardLogs {
  import opened Wrappers
  import opened ShieldedTypes

  type Logs = logs: seq<seq<Entry>> | |logs| == FOREST_WIDTH witness seq(FOREST_WIDTH, i => [])

  // ---- Selecting what belongs to one shard ----

  /** The items whose home is shard s, in their order. */
  function SelectBy<T>(home: T -> Shard, items: seq<T>, s: Shard): (r: seq<T>)
    ensures |r| <= |items|
  {
    if items == [] then []
    else (if home(items[0]) == s then [items[0]] else []) + SelectBy(home, items[1..], s)
  }

  lemma SelectByFirst<T>(home: T -> Shard, items: seq<T>, s: Shard)
    ensures items == [] ==> SelectBy(home, items, s) == []
    ensures items != [] ==>
      SelectBy(home, items, s) == (if home(items[0]) == s then [items[0]] else []) + SelectBy(home, items[1..], s)
  {
  }

  lemma {:induction false} SelectByAppend<T>(home: T -> Shard, a: seq<T>, b: seq<T>, s: Shard)
    ensures SelectBy(home, a + b, s) == SelectBy(home, a, s) + SelectBy(home, b, s)
  {
    hide SelectBy;
    SelectByFirst(home, a, s);
    if a == [] {
      assert a + b == b;
    } else {
      SelectByFirst(home, a + b, s);
      assert (a + b)[0] == a[0] && (a + b)[1..] == a[1..] + b;
      SelectByAppend(home, a[1..], b, s);
    }
  }

  /** The insertions whose UTXO hashes into shard s. */
  function Select(m: AccumulatorModel, items: seq<Insertion>, s: Shard): (r: seq<Insertion>)
    ensures |r| <= |items|
  {
    SelectBy((x: Insertion) => m.Home(x.utxo), items, s)
  }

  lemma SelectAppend(m: AccumulatorModel, a: seq<Insertion>, b: seq<Insertion>, s: Shard)
    ensures Select(m, a + b, s) == Select(m, a, s) + Select(m, b, s)
  {
    SelectByAppend((x: Insertion) => m.Home(x.utxo), a, b, s);
  }

  lemma {:induction false} SelectMember(m: AccumulatorModel, items: seq<Insertion>, s: Shard, x: Insertion)
    ensures x in Select(m, items, s) <==> x in items && m.Home(x.utxo) == s
  {
    if items != [] {
      SelectMember(m, items[1..], s, x);
      assert items == [items[0]] + items[1..];
    }
  }

  function Entries(items: seq<Insertion>): (r: seq<Entry>)
    ensures |r| == |items|
    ensures forall i :: 0 <= i < |items| ==> r[i] == items[i].ToEntry()
  {
    seq(|items|, i requires 0 <= i < |items| => items[i].ToEntry())
  }

  lemma EntriesAppend(a: seq<Insertion>, b: seq<Insertion>)
    ensures Entries(a + b) == Entries(a) + Entries(b)
  {
  }

  /** Every shard's log extended by its own share of the items. */
  function AppendByShard(m: AccumulatorModel, logs: Logs, items: seq<Insertion>): (r: Logs)
    ensures forall s: Shard :: r[s] == logs[s] + Entries(Select(m, items, s))
  {
    seq(FOREST_WIDTH, s requires 0 <= s < FOREST_WIDTH => logs[s] + Entries(Select(m, items, s)))
  }

  // ---- Trees ----

  function Leaves(m: AccumulatorModel, log: seq<Entry>): (r: seq<Leaf>)
    ensures |r| == |log|
    ensures forall i :: 0 <= i < |log| ==> r[i] == m.itemHash(log[i].utxo)
  {
    seq(|log|, i requires 0 <= i < |log| => m.itemHash(log[i].utxo))
  }

  /** The root of a shard whose log is `log`. */
  function RootOf(m: AccumulatorModel, log: seq<Entry>): Output {
    m.root(Leaves(m, log))
  }

  /** The tree stored for a shard whose log is `log`. */
  function TreeOf(m: AccumulatorModel, log: seq<Entry>): (t: UtxoMerkleTreePath)
    ensures TreeLen(t) == |log|
  {
    if log == [] then DEFAULT_TREE
    else
      var leaves := Leaves(m, log);
      UtxoMerkleTreePath(Some(leaves[|log| - 1]), CurrentPath(|log| - 1, leaves[..|log| - 1]))
  }

  lemma InsertExtendsTree(m: AccumulatorModel, log: seq<Entry>, e: Entry)
    ensures Insert(m, TreeOf(m, log), m.itemHash(e.utxo))
         == if |log| >= m.capacity then None
            else Some(Inserted(TreeOf(m, log + [e]), RootOf(m, log + [e])))
  {
    var leaves, grown := Leaves(m, log), Leaves(m, log + [e]);
    assert grown == leaves + [m.itemHash(e.utxo)];
    assert grown[..|log|] == leaves;
    if log != [] {
      assert leaves[..|log| - 1] + [leaves[|log| - 1]] == leaves;
    }
  }

  // ---- Representation ----

  ghost predicate ShardsHold(shards: map<(Shard, nat), Entry>, logs: Logs) {
    && (forall s: Shard, i: nat :: (s, i) in shards <==> i < |logs[s]|)
    && (forall s: Shard, i: nat :: i < |logs[s]| ==> shards[(s, i)] == logs[s][i])
  }

  ghost predicate TreesHold(m: AccumulatorModel, trees: map<Shard, UtxoMerkleTreePath>, logs: Logs) {
    forall s: Shard ::
      && (s in trees <==> logs[s] != [])
      && (s in trees ==> trees[s] == TreeOf(m, logs[s]))
  }

  ghost predicate Registered(logs: Logs, u: Utxo) {
    exists s: Shard, i: nat :: i < |logs[s]| && logs[s][i].utxo == u
  }

  ghost predicate UtxosHold(utxos: set<Utxo>, logs: Logs) {
    && (forall u :: u in utxos ==> Registered(logs, u))
    && (forall s: Shard, i: nat :: i < |logs[s]| ==> logs[s][i].utxo in utxos)
  }

  /** The receiver-side maps of `st` are exactly the ones the logs determine. */
  ghost predicate Represents(m: AccumulatorModel, st: Storage, logs: Logs) {
    && ShardsHold(st.shards, logs)
    && TreesHold(m, st.shardTrees, logs)
    && UtxosHold(st.utxoSet, logs)
  }

  lemma ShardsDetermined(a: map<(Shard, nat), Entry>, b: map<(Shard, nat), Entry>, logs: Logs)
    requires ShardsHold(a, logs) && ShardsHold(b, logs)
    ensures a == b
  {
    forall k: (Shard, nat) ensures k in a <==> k in b {
      assert (k.0, k.1) in a <==> k.1 < |logs[k.0]|;
      assert (k.0, k.1) in b <==> k.1 < |logs[k.0]|;
    }
    assert a.Keys == b.Keys;
    forall k: (Shard, nat) | k in a ensures a[k] == b[k] {
      assert (k.0, k.1) in a <==> k.1 < |logs[k.0]|;
      assert a[(k.0, k.1)] == logs[k.0][k.1] == b[(k.0, k.1)];
    }
  }

  lemma TreesDetermined(
    m: AccumulatorModel, a: map<Shard, UtxoMerkleTreePath>, b: map<Shard, UtxoMerkleTreePath>, logs: Logs)
    requires TreesHold(m, a, logs) && TreesHold(m, b, logs)
    ensures a == b
  {
    forall s: Shard ensures s in a <==> s in b {
      assert s in a <==> logs[s] != [];
      assert s in b <==> logs[s] != [];
    }
    assert a.Keys == b.Keys;
  }

  lemma UtxosDetermined(a: set<Utxo>, b: set<Utxo>, logs: Logs)
    requires UtxosHold(a, logs) && UtxosHold(b, logs)
    ensures a == b
  {
    forall u ensures u in a <==> u in b {
      if u in a || u in b {
        assert Registered(logs, u);
      }
    }
  }

  /** The logs determine the three maps: nothing else about the receiver side can differ. */
  lemma RepresentationUnique(m: AccumulatorModel, a: Storage, b: Storage, logs: Logs)
    requires Represents(m, a, logs) && Represents(m, b, logs)
    ensures a.shards == b.shards
    ensures a.shardTrees == b.shardTrees
    ensures a.utxoSet == b.utxoSet
  {
    ShardsDetermined(a.shards, b.shards, logs);
    TreesDetermined(m, a.shardTrees, b.shardTrees, logs);
    UtxosDetermined(a.utxoSet, b.utxoSet, logs);
  }

  lemma TreeMatches(m: AccumulatorModel, st: Storage, logs: Logs, s: Shard)
    requires TreesHold(m, st.shardTrees, logs)
    ensures st.Tree(s) == TreeOf(m, logs[s])
    ensures st.ShardLen(s) == |logs[s]|
  {
  }

  /** Appending one entry at the end of a shard keeps the two content maps in step with the logs. */
  lemma AppendEntry(shards: map<(Shard, nat), Entry>, utxos: set<Utxo>, logs: Logs, s: Shard, e: Entry)
    requires ShardsHold(shards, logs) && UtxosHold(utxos, logs)
    ensures var grown := logs[s := logs[s] + [e]];
            ShardsHold(shards[(s, |logs[s]|) := e], grown) && UtxosHold(utxos + {e.utxo}, grown)
  {
    var grown: Logs := logs[s := logs[s] + [e]];
    forall t: Shard, i: nat | i < |logs[t]|
      ensures grown[t][i] == logs[t][i]
    {
    }
    forall u | u in utxos + {e.utxo} ensures Registered(grown, u) {
      if u in utxos {
        var t: Shard, i: nat :| i < |logs[t]| && logs[t][i].utxo == u;
        assert grown[t][i].utxo == u;
      } else {
        assert grown[s][|logs[s]|].utxo == u;
      }
    }
  }

  /** Storing the grown tree of one shard keeps the trees in step with the logs. */
  lemma StoreTree(m: AccumulatorModel, trees: map<Shard, UtxoMerkleTreePath>, logs: Logs, s: Shard, log: seq<Entry>)
    requires TreesHold(m, trees, logs) && log != []
    ensures TreesHold(m, trees[s := TreeOf(m, log)], logs[s := log])
  {
  }
}
