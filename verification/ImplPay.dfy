/** Serving the ledger to wallets: bounded greedy chunks of every shard and of the nullifier log. */
module ImplPay {
  import opened ShieldedTypes
  import opened ShardLogs
  import opened LedgerInvariant
  import opened LedgerAccounting
  import Ledger = ProxyLedger

  const PULL_MAX_RECEIVER_UPDATE_SIZE: nat := 32768
  const PULL_MAX_SENDER_UPDATE_SIZE: nat := 32768
  const U64_LIMIT: nat := 0x1_0000_0000_0000_0000

  type ReceiverIndex = r: seq<nat> | |r| == FOREST_WIDTH witness seq(FOREST_WIDTH, i => 0)

  datatype Checkpoint = Checkpoint(receiverIndex: ReceiverIndex, senderIndex: nat)

  datatype PullResponse = PullResponse(
    shouldContinue: bool, receivers: seq<Entry>, senders: seq<Spent>, sendersReceiversTotal: nat)

  // ---- What a pull answers ----

  function Min(a: nat, b: nat): nat { if a < b then a else b }

  function Take<T>(s: seq<T>, n: nat): seq<T> { s[..Min(n, |s|)] }

  /** What lies beyond index i; nothing when the index is past the end. */
  function Suffix<T>(log: seq<T>, i: nat): seq<T> { if i <= |log| then log[i..] else [] }

  /** The missing suffixes of the shards from `from` on, in shard order. */
  ghost function Missing(logs: Logs, index: ReceiverIndex, from: nat): seq<Entry>
    requires from <= FOREST_WIDTH
    decreases FOREST_WIDTH - from
  {
    if from == FOREST_WIDTH then [] else Suffix(logs[from], index[from]) + Missing(logs, index, from + 1)
  }

  /** The index sums of the shards that a pull of this size comes to stay below the width of u64. It
      comes to a shard when what is missing before that shard fits. */
  ghost predicate ReceiversInRange(logs: Logs, index: ReceiverIndex, cap: nat) {
    forall s: Shard :: |Missing(logs, index, 0)| <= |Missing(logs, index, s)| + cap ==> index[s] + cap < U64_LIMIT
  }

  /** What the pulls can see of a ledger. */
  datatype View = View(shards: Logs, nullifiers: seq<Spent>)

  ghost function ViewOf(st: Storage): View
    requires ShardsContiguous(st) && NullifiersContiguous(st)
  {
    View(LogsOf(st), NullifierLog(st))
  }

  ghost function MissingReceivers(view: View, checkpoint: Checkpoint): seq<Entry> {
    Missing(view.shards, checkpoint.receiverIndex, 0)
  }

  ghost function MissingSenders(view: View, checkpoint: Checkpoint): seq<Spent> {
    Suffix(view.nullifiers, checkpoint.senderIndex)
  }

  function ReceiverCap(request: nat): nat { Min(request, PULL_MAX_RECEIVER_UPDATE_SIZE) }

  function SenderCap(request: nat): nat { Min(request, PULL_MAX_SENDER_UPDATE_SIZE) }

  /** The index sums of a pull with these chunk sizes stay below the width of u64. */
  ghost predicate InRange(view: View, checkpoint: Checkpoint, maxReceivers: nat, maxSenders: nat) {
    && ReceiversInRange(view.shards, checkpoint.receiverIndex, ReceiverCap(maxReceivers))
    && checkpoint.senderIndex + SenderCap(maxSenders) < U64_LIMIT
  }

  /** The answer to a pull: as much of what is missing as fits, and whether anything remains. */
  ghost function Answer(
    view: View, checkpoint: Checkpoint, maxReceivers: nat, maxSenders: nat, total: nat): PullResponse
  {
    var receivers, senders := MissingReceivers(view, checkpoint), MissingSenders(view, checkpoint);
    PullResponse(
      |receivers| > ReceiverCap(maxReceivers) || |senders| > SenderCap(maxSenders),
      Take(receivers, ReceiverCap(maxReceivers)),
      Take(senders, SenderCap(maxSenders)),
      total)
  }

  // ---- The pull loops ----

  /** Reading on from an index is reading along the suffix; d is how far the reading came. */
  lemma ReadOn(shards: map<(Shard, nat), Entry>, logs: Logs, s: Shard, i: nat, d: nat)
    requires ShardsHold(shards, logs) && d <= |Suffix(logs[s], i)|
    ensures (s, i + d) in shards <==> d < |Suffix(logs[s], i)|
    ensures d < |Suffix(logs[s], i)| ==>
      Suffix(logs[s], i)[..d] + [shards[(s, i + d)]] == Suffix(logs[s], i)[..d + 1]
  {
    assert (s, i + d) in shards <==> i + d < |logs[s]|;
  }

  /** Pulls from one shard until the chunk is full or the shard ends. */
  method PullReceiversForShard(
    ledger: Ledger.ProxyLedger, shard: Shard, receiverIndex: nat, maxUpdate: nat, pulled: seq<Entry>, ghost logs: Logs)
    returns (more: bool, receivers: seq<Entry>)
    requires ShardsHold(ledger.shards, logs)
    requires |pulled| <= maxUpdate && receiverIndex + maxUpdate < U64_LIMIT
    ensures var suffix, room := Suffix(logs[shard], receiverIndex), maxUpdate - |pulled|;
            receivers == pulled + Take(suffix, room) && (more <==> |suffix| > room)
  {
    hide ShardsHold, Suffix;
    receivers := pulled;
    ghost var suffix := Suffix(logs[shard], receiverIndex);
    for idx := receiverIndex to receiverIndex + maxUpdate
      invariant idx - receiverIndex <= |suffix|
      invariant receivers == pulled + suffix[..idx - receiverIndex]
      invariant |receivers| <= maxUpdate
    {
      ReadOn(ledger.shards, logs, shard, receiverIndex, idx - receiverIndex);
      if |receivers| == maxUpdate {
        return (shard, idx) in ledger.shards, receivers;
      }
      if (shard, idx) in ledger.shards {
        receivers := receivers + [ledger.shards[(shard, idx)]];
      } else {
        return false, receivers;
      }
    }
    ReadOn(ledger.shards, logs, shard, receiverIndex, maxUpdate);
    more := (shard, receiverIndex + maxUpdate) in ledger.shards;
  }

  lemma ChunkFull<T>(before: seq<T>, suffix: seq<T>, rest: seq<T>, cap: nat)
    requires |before| <= cap && |suffix| > cap - |before|
    ensures before + Take(suffix, cap - |before|) == Take(before + (suffix + rest), cap)
    ensures |before + (suffix + rest)| > cap
  {
  }

  lemma ChunkOpen<T>(before: seq<T>, suffix: seq<T>, rest: seq<T>, cap: nat)
    requires |before| + |suffix| <= cap
    ensures (before + Take(suffix, cap - |before|)) + rest == before + (suffix + rest)
    ensures |before + Take(suffix, cap - |before|)| <= cap
  {
  }

  lemma MissingFrom(logs: Logs, index: ReceiverIndex, from: Shard)
    ensures Missing(logs, index, from) == Suffix(logs[from], index[from]) + Missing(logs, index, from + 1)
    ensures Missing(logs, index, FOREST_WIDTH) == []
  {
  }

  /** Pulls shard after shard and stops early once the chunk is full and more is known to remain. */
  method PullReceivers(ledger: Ledger.ProxyLedger, receiverIndices: ReceiverIndex, maxUpdateRequest: nat, ghost logs: Logs)
    returns (moreReceivers: bool, receivers: seq<Entry>)
    requires ShardsHold(ledger.shards, logs)
    requires ReceiversInRange(logs, receiverIndices, ReceiverCap(maxUpdateRequest))
    ensures receivers == Take(Missing(logs, receiverIndices, 0), ReceiverCap(maxUpdateRequest))
    ensures moreReceivers <==> |Missing(logs, receiverIndices, 0)| > ReceiverCap(maxUpdateRequest)
    ensures |receivers| <= maxUpdateRequest && |receivers| <= 32768
    ensures moreReceivers ==> |receivers| == maxUpdateRequest || |receivers| == 32768
    ensures !moreReceivers ==> receivers == Missing(logs, receiverIndices, 0)
  {
    hide ShardsHold, Missing, Take, Suffix;
    MissingFrom(logs, receiverIndices, 0);
    moreReceivers, receivers := false, [];
    var maxUpdate := ReceiverCap(maxUpdateRequest);
    for shard := 0 to FOREST_WIDTH
      invariant !moreReceivers && |receivers| <= maxUpdate
      invariant receivers + Missing(logs, receiverIndices, shard) == Missing(logs, receiverIndices, 0)
    {
      var more;
      ghost var suffix := Suffix(logs[shard], receiverIndices[shard]);
      MissingFrom(logs, receiverIndices, shard);
      if |suffix| > maxUpdate - |receivers| {
        ChunkFull(receivers, suffix, Missing(logs, receiverIndices, shard + 1), maxUpdate);
        TakeLength(Missing(logs, receiverIndices, 0), maxUpdate);
      } else {
        ChunkOpen(receivers, suffix, Missing(logs, receiverIndices, shard + 1), maxUpdate);
      }
      more, receivers := PullReceiversForShard(ledger, shard, receiverIndices[shard], maxUpdate, receivers, logs);
      moreReceivers := moreReceivers || more;
      if |receivers| == maxUpdate && moreReceivers {
        return;
      }
    }
    assert receivers + [] == receivers;
    TakeLength(receivers, maxUpdate);
  }

  lemma TakeLength<T>(s: seq<T>, n: nat)
    ensures |Take(s, n)| == Min(n, |s|)
    ensures |s| <= n ==> Take(s, n) == s
  {
  }

  method PullSenders(ledger: Ledger.ProxyLedger, senderIndex: nat, maxUpdateRequest: nat)
    returns (moreSenders: bool, senders: seq<Spent>)
    requires NullifiersContiguous(ledger.State())
    requires senderIndex + SenderCap(maxUpdateRequest) < U64_LIMIT
    ensures var suffix := Suffix(NullifierLog(ledger.State()), senderIndex);
            && senders == Take(suffix, SenderCap(maxUpdateRequest))
            && (moreSenders <==> |suffix| > SenderCap(maxUpdateRequest))
            && |senders| <= maxUpdateRequest && |senders| <= 32768
            && (moreSenders ==> |senders| == maxUpdateRequest || |senders| == 32768)
            && (!moreSenders ==> senders == suffix)
  {
    senders := [];
    ghost var suffix := Suffix(NullifierLog(ledger.State()), senderIndex);
    var maxSenderIndex := senderIndex + SenderCap(maxUpdateRequest);
    for idx := senderIndex to maxSenderIndex
      invariant idx - senderIndex <= |suffix|
      invariant senders == suffix[..idx - senderIndex]
    {
      if idx in ledger.nullifierSetInsertionOrder {
        senders := senders + [ledger.nullifierSetInsertionOrder[idx]];
      } else {
        return false, senders;
      }
    }
    moreSenders := maxSenderIndex in ledger.nullifierSetInsertionOrder;
  }

  /** Adds up the last leaf index of every shard; an empty shard adds its default 0. */
  method TotalLeafIndices(ledger: Ledger.ProxyLedger) returns (total: nat)
    ensures total == SumLeafIndices(ledger.State(), FOREST_WIDTH)
  {
    total := 0;
    for i := 0 to FOREST_WIDTH
      invariant total == SumLeafIndices(ledger.State(), i)
    {
      total := total + ledger.State().Tree(i).currentPath.leafIndex;
    }
  }

  lemma InvGivesLogs(m: AccumulatorModel, st: Storage)
    requires Inv(m, st)
    ensures ShardsContiguous(st) && NullifiersContiguous(st)
    ensures Represents(m, st, LogsOf(st)) && AtHome(m, LogsOf(st))
  {
  }

  /** The diff of the ledger since `checkpoint`, and the counts of everything in it. */
  method PullLedgerDiff(ledger: Ledger.ProxyLedger, checkpoint: Checkpoint, maxReceivers: nat, maxSenders: nat)
    returns (response: PullResponse)
    requires Inv(ledger.accumulator, ledger.State())
    requires InRange(ViewOf(ledger.State()), checkpoint, maxReceivers, maxSenders)
    ensures response == Answer(ViewOf(ledger.State()), checkpoint, maxReceivers, maxSenders,
                               SendersReceiversTotal(ledger.State()))
    ensures |response.receivers| <= maxReceivers && |response.receivers| <= 32768
    ensures |response.senders| <= maxSenders && |response.senders| <= 32768
    ensures response.sendersReceiversTotal + |NonEmptyShards(ledger.State())|
         == |ledger.utxoSet| + |ledger.nullifierCommitmentSet|
  {
    hide Inv, ShardsContiguous, NullifiersContiguous, ShardsHold, TreesHold, UtxosHold, AtHome, NonEmptyShards;
    hide Missing, Take, Suffix;
    InvGivesLogs(ledger.accumulator, ledger.State());
    TotalMeans(ledger.accumulator, ledger.State());
    var moreReceivers, receivers :=
      PullReceivers(ledger, checkpoint.receiverIndex, maxReceivers, LogsOf(ledger.State()));
    var moreSenders, senders := PullSenders(ledger, checkpoint.senderIndex, maxSenders);
    var total := TotalLeafIndices(ledger);
    response := PullResponse(moreReceivers || moreSenders, receivers, senders, total + ledger.nullifierSetSize);
  }
}
