/** Whole runs of the shielded ledger: any sequence of calls, successful or rolled back. */
module LedgerRuns {
  import opened Wrappers
  import opened ShieldedTypes
  import opened ShardLogs
  import opened Registration
  import opened LedgerInvariant
  import opened LedgerSteps
  import opened MantaPay

  datatype Attempt = Attempt(call: Call, signed: bool)

  ghost function Run(m: AccumulatorModel, st: Storage, attempts: seq<Attempt>): (st': Storage)
    requires Inv(m, st)
    ensures Inv(m, st')
    decreases |attempts|
  {
    if attempts == [] then st
    else Run(m, Step(m, st, attempts[0].call, attempts[0].signed), attempts[1..])
  }

  /** The storage after a run from genesis. */
  ghost function After(m: AccumulatorModel, attempts: seq<Attempt>): (st: Storage)
    ensures Inv(m, st)
  {
    EmptyStorageIsGood(m);
    Run(m, EMPTY_STORAGE, attempts)
  }

  // ---- The history of a run ----

  predicate Goes(m: AccumulatorModel, st: Storage, a: Attempt) {
    Succeeds(m, st, a.call, a.signed)
  }

  /** The items of all successful calls, in order. */
  ghost function Received(m: AccumulatorModel, st: Storage, attempts: seq<Attempt>): seq<Insertion>
    requires Inv(m, st)
    decreases |attempts|
  {
    if attempts == [] then []
    else
      (if Goes(m, st, attempts[0]) then attempts[0].call.post.receiverPosts else [])
      + Received(m, Step(m, st, attempts[0].call, attempts[0].signed), attempts[1..])
  }

  ghost function SpentIn(m: AccumulatorModel, st: Storage, attempts: seq<Attempt>): seq<Spent>
    requires Inv(m, st)
    decreases |attempts|
  {
    if attempts == [] then []
    else
      (if Goes(m, st, attempts[0]) then Spents(attempts[0].call.post.senderPosts) else [])
      + SpentIn(m, Step(m, st, attempts[0].call, attempts[0].signed), attempts[1..])
  }

  lemma AppendByShardTwice(m: AccumulatorModel, logs: Logs, a: seq<Insertion>, b: seq<Insertion>)
    ensures AppendByShard(m, AppendByShard(m, logs, a), b) == AppendByShard(m, logs, a + b)
  {
    forall s: Shard
      ensures AppendByShard(m, AppendByShard(m, logs, a), b)[s] == AppendByShard(m, logs, a + b)[s]
    {
      SelectAppend(m, a, b, s);
      EntriesAppend(Select(m, a, s), Select(m, b, s));
    }
  }

  lemma AppendNothing(m: AccumulatorModel, logs: Logs)
    ensures AppendByShard(m, logs, []) == logs
  {
    forall s: Shard ensures AppendByShard(m, logs, [])[s] == logs[s] {
    }
  }

  lemma JoinedInOrder<T>(a: seq<T>, b: seq<T>, c: seq<T>)
    ensures (a + b) + c == a + (b + c)
  {
  }

  /** The logs are append-only and hold exactly the history: every item and every nullifier of a
      successful call, in order, and nothing of a failed one. */
  lemma {:induction false} LogsAreHistory(m: AccumulatorModel, st: Storage, attempts: seq<Attempt>)
    requires Inv(m, st)
    ensures LogsIn(m, Run(m, st, attempts)) == AppendByShard(m, LogsIn(m, st), Received(m, st, attempts))
    ensures NullifiersIn(m, Run(m, st, attempts)) == NullifiersIn(m, st) + SpentIn(m, st, attempts)
    decreases |attempts|
  {
    hide Inv, LogsIn, NullifiersIn, AppendByShard, Goes, Step;
    if attempts == [] {
      AppendNothing(m, LogsIn(m, st));
    } else {
      var a := attempts[0];
      var next := Step(m, st, a.call, a.signed);
      var items := if Goes(m, st, a) then a.call.post.receiverPosts else [];
      var spents := if Goes(m, st, a) then Spents(a.call.post.senderPosts) else [];
      StepHistory(m, st, a);
      LogsAreHistory(m, next, attempts[1..]);
      JoinedInOrder(NullifiersIn(m, st), spents, SpentIn(m, next, attempts[1..]));
      AppendByShardTwice(m, LogsIn(m, st), items, Received(m, next, attempts[1..]));
    }
  }

  lemma StepHistory(m: AccumulatorModel, st: Storage, a: Attempt)
    requires Inv(m, st)
    ensures var st' := Step(m, st, a.call, a.signed);
            var items := if Goes(m, st, a) then a.call.post.receiverPosts else [];
            var spents := if Goes(m, st, a) then Spents(a.call.post.senderPosts) else [];
            && LogsIn(m, st') == AppendByShard(m, LogsIn(m, st), items)
            && NullifiersIn(m, st') == NullifiersIn(m, st) + spents
            && st.utxoAccumulatorOutputs <= st'.utxoAccumulatorOutputs
  {
    hide ReceiversGood, SenderSide;
    if Goes(m, st, a) {
      PostKeepsInv(m, st, a.call.post, a.call.verdict);
    } else {
      AppendNothing(m, LogsIn(m, st));
    }
  }

  // ---- What the calls store ----

  /** A successful call stores exactly its receivers and its senders, each with its own note. */
  lemma StepStores(m: AccumulatorModel, st: Storage, a: Attempt)
    requires Inv(m, st) && Goes(m, st, a)
    ensures var st' := Step(m, st, a.call, a.signed);
      && AddsEntries(m, st.shards, st'.shards, a.call.post.receiverPosts)
      && AddsSpents(st, st', a.call.post.senderPosts)
  {
    var post := a.call.post;
    hide ReceiversGood, SenderSide, Represents, WithinCapacity, AddsEntries, Guard, ShardsContiguous;
    SpendingLeavesReceivers(m, st, post.senderPosts);
    SpendEachTouchesSendersOnly(st, post.senderPosts);
    SpendEachAddsSpents(st, post.senderPosts);
    BatchAddsEntries(m, SpendEach(st, post.senderPosts), LogsOf(st), post.receiverPosts, Posted(m, st, post));
    RegisterEachAppends(m, SpendEach(st, post.senderPosts), LogsOf(st), post.receiverPosts);
  }

  /** The UTXO of every receiver of every successful call is stored with its own note ever after. */
  lemma ReceiversStay(m: AccumulatorModel, st: Storage, a: Attempt, later: seq<Attempt>, x: Insertion)
    requires Inv(m, st) && Goes(m, st, a) && x in a.call.post.receiverPosts
    ensures HasEntry(m, Run(m, Step(m, st, a.call, a.signed), later).shards, x)
  {
    StepStores(m, st, a);
    hide Inv, Step, Goes, HasEntry;
    EntryStays(m, Step(m, st, a.call, a.signed), later, x);
  }

  lemma {:induction false} EntryStays(m: AccumulatorModel, st: Storage, later: seq<Attempt>, x: Insertion)
    requires Inv(m, st) && HasEntry(m, st.shards, x)
    ensures HasEntry(m, Run(m, st, later).shards, x)
    decreases |later|
  {
    hide Inv, Goes, HasEntry, AddsEntries, Posted;
    if later != [] {
      var next := Step(m, st, later[0].call, later[0].signed);
      if Goes(m, st, later[0]) {
        StepStores(m, st, later[0]);
        EntryKept(m, st.shards, next.shards, later[0].call.post.receiverPosts, x);
      } else {
        FailedStepKeeps(m, st, later[0]);
      }
      EntryStays(m, next, later[1..], x);
    }
  }

  lemma FailedStepKeeps(m: AccumulatorModel, st: Storage, a: Attempt)
    requires Inv(m, st) && !Goes(m, st, a)
    ensures Step(m, st, a.call, a.signed) == st
  {
    hide Inv;
  }

  lemma EntryKept(
    m: AccumulatorModel, before: map<(Shard, nat), Entry>, after: map<(Shard, nat), Entry>, items: seq<Insertion>,
    x: Insertion)
    requires AddsEntries(m, before, after, items) && HasEntry(m, before, x)
    ensures HasEntry(m, after, x)
  {
  }

  /** The nullifier of every sender of every successful call is in the order with its own note ever
      after, at the position it got. */
  lemma SendersStay(m: AccumulatorModel, st: Storage, a: Attempt, later: seq<Attempt>, k: nat)
    requires Inv(m, st) && Goes(m, st, a) && k < |a.call.post.senderPosts|
    ensures var x := a.call.post.senderPosts[k];
            var order := Run(m, Step(m, st, a.call, a.signed), later).nullifierSetInsertionOrder;
      && x.note.Some?
      && st.nullifierSetSize + k in order
      && order[st.nullifierSetSize + k] == Spent(x.commitment, x.note.value)
  {
    hide Inv, Step, Goes, AddsEntries, AddsSpents, Run;
    var next := Step(m, st, a.call, a.signed);
    StepStores(m, st, a);
    SpentAt(st, next, a.call.post.senderPosts, k);
    SpentStays(m, next, later, st.nullifierSetSize + k);
  }

  lemma SpentAt(before: Storage, after: Storage, spendings: seq<Spending>, k: nat)
    requires AddsSpents(before, after, spendings) && k < |spendings|
    ensures var i := before.nullifierSetSize + k;
      && spendings[k].note.Some?
      && i < after.nullifierSetSize
      && i in after.nullifierSetInsertionOrder
      && after.nullifierSetInsertionOrder[i] == Spent(spendings[k].commitment, spendings[k].note.value)
  {
  }

  lemma {:induction false} SpentStays(m: AccumulatorModel, st: Storage, later: seq<Attempt>, i: nat)
    requires Inv(m, st) && i < st.nullifierSetSize && i in st.nullifierSetInsertionOrder
    ensures var order := Run(m, st, later).nullifierSetInsertionOrder;
            i in order && order[i] == st.nullifierSetInsertionOrder[i]
    decreases |later|
  {
    hide Inv, Goes, AddsEntries, Posted;
    if later != [] {
      if Goes(m, st, later[0]) {
        StepStores(m, st, later[0]);
      } else {
        FailedStepKeeps(m, st, later[0]);
      }
      SpentStays(m, Step(m, st, later[0].call, later[0].signed), later[1..], i);
    }
  }

  // ---- What holds after every run ----

  /** Shard keys are exactly 0..n and the stored tree has leaf index n - 1 and the last leaf, or
      no leaf when n is 0. */
  ghost predicate KeysMatchTrees(m: AccumulatorModel, st: Storage) {
    && (forall s: Shard, i: nat :: (s, i) in st.shards <==>
          st.Tree(s).leafDigest.Some? && i <= st.Tree(s).currentPath.leafIndex)
    && (forall s: Shard :: s in st.shardTrees ==>
          var last := (s, st.Tree(s).currentPath.leafIndex);
          last in st.shards && st.Tree(s).leafDigest == Some(m.itemHash(st.shards[last].utxo)))
  }

  /** The UTXO set is the disjoint union of the shards: each UTXO at one position, and in the
      shard its hash selects. */
  ghost predicate OnePositionEach(m: AccumulatorModel, st: Storage) {
    && (forall u :: u in st.utxoSet <==> exists k: (Shard, nat) :: k in st.shards && st.shards[k].utxo == u)
    && (forall j: (Shard, nat), k: (Shard, nat) ::
          j in st.shards && k in st.shards && st.shards[j].utxo == st.shards[k].utxo ==> j == k)
    && (forall k: (Shard, nat) :: k in st.shards ==> m.Home(st.shards[k].utxo) == k.0)
  }

  lemma LedgerInvariantOverRuns(m: AccumulatorModel, attempts: seq<Attempt>)
    ensures KeysMatchTrees(m, After(m, attempts))
    ensures OnePositionEach(m, After(m, attempts))
  {
    var st := After(m, attempts);
    RepresentedKeys(m, st, LogsIn(m, st));
    RepresentedPositions(m, st, LogsIn(m, st));
  }

  lemma RepresentedKeys(m: AccumulatorModel, st: Storage, logs: Logs)
    requires ShardsHold(st.shards, logs) && TreesHold(m, st.shardTrees, logs)
    ensures KeysMatchTrees(m, st)
  {
    forall s: Shard ensures st.Tree(s) == TreeOf(m, logs[s]) {
      TreeMatches(m, st, logs, s);
    }
    forall s: Shard | s in st.shardTrees
      ensures (s, st.Tree(s).currentPath.leafIndex) in st.shards
      ensures st.Tree(s).leafDigest == Some(m.itemHash(st.shards[(s, st.Tree(s).currentPath.leafIndex)].utxo))
    {
      var n := |logs[s]|;
      assert (s, n - 1) in st.shards && st.shards[(s, n - 1)] == logs[s][n - 1];
    }
  }

  lemma RepresentedPositions(m: AccumulatorModel, st: Storage, logs: Logs)
    requires ShardsHold(st.shards, logs) && UtxosHold(st.utxoSet, logs) && AtHome(m, logs) && NoRepeats(logs)
    ensures OnePositionEach(m, st)
  {
    forall k: (Shard, nat) | k in st.shards
      ensures k.1 < |logs[k.0]| && st.shards[k] == logs[k.0][k.1] && m.Home(st.shards[k].utxo) == k.0
    {
      assert (k.0, k.1) in st.shards;
    }
    forall u ensures u in st.utxoSet <==> exists k: (Shard, nat) :: k in st.shards && st.shards[k].utxo == u {
      UtxoHasPosition(st, logs, u);
    }
    forall j: (Shard, nat), k: (Shard, nat) |
      j in st.shards && k in st.shards && st.shards[j].utxo == st.shards[k].utxo
      ensures j == k
    {
      assert j.0 == k.0;
      assert !(j.1 < k.1) && !(k.1 < j.1);
    }
  }

  lemma UtxoHasPosition(st: Storage, logs: Logs, u: Utxo)
    requires ShardsHold(st.shards, logs) && UtxosHold(st.utxoSet, logs)
    ensures u in st.utxoSet <==> exists k: (Shard, nat) :: k in st.shards && st.shards[k].utxo == u
  {
    if u in st.utxoSet {
      var s: Shard, i: nat :| i < |logs[s]| && logs[s][i].utxo == u;
      assert (s, i) in st.shards;
    }
    if k: (Shard, nat) :| k in st.shards && st.shards[k].utxo == u {
      assert (k.0, k.1) in st.shards;
      assert logs[k.0][k.1].utxo in st.utxoSet;
    }
  }

  /** Every stored output is the root of a non-empty prefix of some shard, and every non-empty
      shard's current root is stored. */
  lemma OutputsAreRoots(m: AccumulatorModel, attempts: seq<Attempt>)
    ensures var st := After(m, attempts); var logs := LogsIn(m, st);
      && OutputsSound(m, logs, st.utxoAccumulatorOutputs)
      && OutputsCurrent(m, logs, st.utxoAccumulatorOutputs)
  {
  }

  predicate Matches(st: Storage, output: Output) {
    output == ZERO_OUTPUT || output in st.utxoAccumulatorOutputs
  }

  /** An output once accepted is accepted in every later state. */
  lemma {:induction false} AcceptedOutputsStay(m: AccumulatorModel, st: Storage, attempts: seq<Attempt>, output: Output)
    requires Inv(m, st) && Matches(st, output)
    ensures Matches(Run(m, st, attempts), output)
    decreases |attempts|
  {
    hide Inv;
    if attempts != [] {
      StepHistory(m, st, attempts[0]);
      AcceptedOutputsStay(m, Step(m, st, attempts[0].call, attempts[0].signed), attempts[1..], output);
    }
  }

  /** The nullifier order has keys exactly 0..size and lists the nullifier set without repetition. */
  ghost predicate OrderEnumeratesSet(st: Storage) {
    var order := st.nullifierSetInsertionOrder;
    && (forall i: nat :: i in order <==> i < st.nullifierSetSize)
    && (forall c :: c in st.nullifierCommitmentSet <==> exists i :: i in order && order[i].commitment == c)
    && (forall i, j :: i in order && j in order && i != j ==> order[i].commitment != order[j].commitment)
  }

  lemma NullifiersOverRuns(m: AccumulatorModel, attempts: seq<Attempt>)
    ensures OrderEnumeratesSet(After(m, attempts))
  {
    SenderSideEnumerates(After(m, attempts));
  }

  lemma SenderSideEnumerates(st: Storage)
    requires SenderSide(st)
    ensures OrderEnumeratesSet(st)
  {
    var log := NullifierLog(st);
    forall c | c in st.nullifierCommitmentSet
      ensures exists i :: i in st.nullifierSetInsertionOrder && st.nullifierSetInsertionOrder[i].commitment == c
    {
      var i :| 0 <= i < |log| && log[i].commitment == c;
      assert i in st.nullifierSetInsertionOrder;
    }
    forall i | i in st.nullifierSetInsertionOrder
      ensures st.nullifierSetInsertionOrder[i].commitment in st.nullifierCommitmentSet
    {
      assert log[i] == st.nullifierSetInsertionOrder[i];
    }
  }

  /** A commitment spent by a successful call is refused by every later call. */
  lemma NoDoubleSpend(
    m: AccumulatorModel, st: Storage, first: Attempt, between: seq<Attempt>, later: Attempt, c: NullifierCommitment)
    requires Inv(m, st) && Goes(m, st, first)
    requires exists i :: 0 <= i < |first.call.post.senderPosts| && first.call.post.senderPosts[i].commitment == c
    requires exists i :: 0 <= i < |later.call.post.senderPosts| && later.call.post.senderPosts[i].commitment == c
    ensures var st' := Run(m, Step(m, st, first.call, first.signed), between);
            !Goes(m, st', later) && Step(m, st', later.call, later.signed) == st'
  {
    hide Inv, NullifiersIn, LogsIn;
    var spent := Step(m, st, first.call, first.signed);
    var st' := Run(m, spent, between);
    var i :| 0 <= i < |first.call.post.senderPosts| && first.call.post.senderPosts[i].commitment == c;
    var k := |NullifiersIn(m, st)| + i;
    StepHistory(m, st, first);
    LogsAreHistory(m, spent, between);
    assert NullifiersIn(m, spent)[k].commitment == c;
    assert NullifiersIn(m, st')[k].commitment == c;
    ListedIsSpent(m, st', k);
  }

  lemma ListedIsSpent(m: AccumulatorModel, st: Storage, k: nat)
    requires Inv(m, st) && k < |NullifiersIn(m, st)|
    ensures NullifiersIn(m, st)[k].commitment in st.nullifierCommitmentSet
  {
  }
}
