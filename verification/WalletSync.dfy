/** A wallet following the ledger: it pulls, counts what it received per shard, and pulls again. */
module WalletSync {
  import opened Ceilings
  import opened ShieldedTypes
  import opened ShardLogs
  import opened LedgerInvariant
  import opened MantaPay
  import opened LedgerAccounting
  import opened LedgerRuns
  import opened ImplPay
  import Ledger = ProxyLedger

  // ---- The wallet's bookkeeping ----

  /** The received entries that hash into shard s, in order. */
  function OfShard(m: AccumulatorModel, entries: seq<Entry>, s: Shard): (r: seq<Entry>)
    ensures |r| <= |entries|
  {
    SelectBy((e: Entry) => m.Home(e.utxo), entries, s)
  }

  /** The checkpoint moved on by what one response brought. */
  function Advance(m: AccumulatorModel, c: Checkpoint, response: PullResponse): Checkpoint {
    Checkpoint(AdvanceIndex(m, c.receiverIndex, response.receivers), c.senderIndex + |response.senders|)
  }

  function AdvanceIndex(m: AccumulatorModel, index: ReceiverIndex, entries: seq<Entry>): (r: ReceiverIndex)
    ensures forall s: Shard :: r[s] == index[s] + |OfShard(m, entries, s)|
  {
    seq(FOREST_WIDTH, s requires 0 <= s < FOREST_WIDTH => Moved(m, index, entries, s))
  }

  function Moved(m: AccumulatorModel, index: ReceiverIndex, entries: seq<Entry>, s: Shard): nat {
    index[s] + |OfShard(m, entries, s)|
  }

  lemma NothingOfShard(m: AccumulatorModel, s: Shard)
    ensures OfShard(m, [], s) == []
  {
  }

  lemma OfShardAppend(m: AccumulatorModel, a: seq<Entry>, b: seq<Entry>, s: Shard)
    ensures OfShard(m, a + b, s) == OfShard(m, a, s) + OfShard(m, b, s)
  {
    SelectByAppend((e: Entry) => m.Home(e.utxo), a, b, s);
  }

  lemma {:induction false} OfOneShard(m: AccumulatorModel, entries: seq<Entry>, home: Shard, s: Shard)
    requires forall i :: 0 <= i < |entries| ==> m.Home(entries[i].utxo) == home
    ensures OfShard(m, entries, s) == if s == home then entries else []
  {
    if entries != [] {
      OfOneShard(m, entries[1..], home, s);
    }
  }

  // ---- One pull ----

  /** The first k items of a shard's suffix followed by the rest: what they bring to shard s. */
  lemma TakeAcross(m: AccumulatorModel, suffix: seq<Entry>, rest: seq<Entry>, home: Shard, k: nat, s: Shard)
    requires forall i :: 0 <= i < |suffix| ==> m.Home(suffix[i].utxo) == home
    requires k <= |suffix| + |rest|
    ensures var here := Min(k, |suffix|);
            OfShard(m, (suffix + rest)[..k], s)
            == (if s == home then suffix[..here] else []) + OfShard(m, rest[..k - here], s)
  {
    var here := Min(k, |suffix|);
    assert (suffix + rest)[..k] == suffix[..here] + rest[..k - here];
    OfShardAppend(m, suffix[..here], rest[..k - here], s);
    OfOneShard(m, suffix[..here], home, s);
  }

  /** k missing items taken from the shards from `from` on: what they bring to shard s. */
  lemma {:induction false} TakenFromShard(
    m: AccumulatorModel, logs: Logs, index: ReceiverIndex, from: nat, k: nat, s: Shard)
    requires AtHome(m, logs) && from <= FOREST_WIDTH && k <= |Missing(logs, index, from)|
    ensures s < from ==> OfShard(m, Missing(logs, index, from)[..k], s) == []
    ensures s >= from ==> OfShard(m, Missing(logs, index, from)[..k], s) <= Suffix(logs[s], index[s])
    decreases FOREST_WIDTH - from
  {
    hide Missing, OfShard, Suffix;
    if from == FOREST_WIDTH {
      MissingFrom(logs, index, 0);
      NothingOfShard(m, s);
    } else {
      var suffix, rest := Suffix(logs[from], index[from]), Missing(logs, index, from + 1);
      MissingFrom(logs, index, from);
      SuffixAtHome(m, logs, index, from);
      TakeAcross(m, suffix, rest, from, k, s);
      TakenFromShard(m, logs, index, from + 1, k - Min(k, |suffix|), s);
    }
  }

  lemma SuffixAtHome(m: AccumulatorModel, logs: Logs, index: ReceiverIndex, s: Shard)
    requires AtHome(m, logs)
    ensures var suffix := Suffix(logs[s], index[s]);
            forall i :: 0 <= i < |suffix| ==> m.Home(suffix[i].utxo) == s
  {
  }

  lemma DropAcross<T>(a: seq<T>, b: seq<T>, k: nat)
    requires k <= |a| + |b|
    ensures (a + b)[k..] == a[Min(k, |a|)..] + b[k - Min(k, |a|)..]
  {
    if k <= |a| {
      assert (a + b)[k..] == a[k..] + b;
    } else {
      assert (a + b)[k..] == b[k - |a|..];
    }
  }

  lemma SuffixOfSuffix<T>(log: seq<T>, i: nat, k: nat)
    requires k <= |Suffix(log, i)|
    ensures Suffix(log, i + k) == Suffix(log, i)[k..]
  {
  }

  lemma SharesOfRest(
    m: AccumulatorModel, logs: Logs, index: ReceiverIndex, index': ReceiverIndex, from: Shard, k: nat)
    requires AtHome(m, logs) && k <= |Missing(logs, index, from)|
    requires forall s: Shard :: from <= s ==>
               index'[s] == index[s] + |OfShard(m, Missing(logs, index, from)[..k], s)|
    ensures var rest, here := Missing(logs, index, from + 1), Min(k, |Suffix(logs[from], index[from])|);
      && k - here <= |rest|
      && index'[from] == index[from] + here
      && forall s: Shard :: from + 1 <= s ==> index'[s] == index[s] + |OfShard(m, rest[..k - here], s)|
  {
    var suffix, rest := Suffix(logs[from], index[from]), Missing(logs, index, from + 1);
    var here := Min(k, |suffix|);
    MissingFrom(logs, index, from);
    hide Missing, OfShard;
    TakenFromShard(m, logs, index, from + 1, k - here, from);
    forall s: Shard | from <= s
      ensures OfShard(m, Missing(logs, index, from)[..k], s)
           == (if s == from then suffix[..here] else []) + OfShard(m, rest[..k - here], s)
    {
      TakeAcross(m, suffix, rest, from, k, s);
    }
  }

  /** After taking k missing items and counting them per shard, exactly the others are missing. */
  lemma {:induction false} MissingAfterTaking(
    m: AccumulatorModel, logs: Logs, index: ReceiverIndex, index': ReceiverIndex, from: nat, k: nat)
    requires AtHome(m, logs) && from <= FOREST_WIDTH && k <= |Missing(logs, index, from)|
    requires forall s: Shard :: from <= s ==>
               index'[s] == index[s] + |OfShard(m, Missing(logs, index, from)[..k], s)|
    ensures Missing(logs, index', from) == Missing(logs, index, from)[k..]
    decreases FOREST_WIDTH - from
  {
    hide AtHome, OfShard, Missing, Suffix;
    if from == FOREST_WIDTH {
      MissingFrom(logs, index, 0);
      MissingFrom(logs, index', 0);
    } else {
      SharesOfRest(m, logs, index, index', from, k);
      MissingAfterTaking(m, logs, index, index', from + 1, k - Min(k, |Suffix(logs[from], index[from])|));
      MissingStep(logs, index, index', from, k);
    }
  }

  lemma MissingStep(logs: Logs, index: ReceiverIndex, index': ReceiverIndex, from: Shard, k: nat)
    requires k <= |Missing(logs, index, from)|
    requires var rest, here := Missing(logs, index, from + 1), Min(k, |Suffix(logs[from], index[from])|);
      && k - here <= |rest|
      && index'[from] == index[from] + here
      && Missing(logs, index', from + 1) == rest[k - here..]
    ensures Missing(logs, index', from) == Missing(logs, index, from)[k..]
  {
    hide Missing, Suffix;
    var suffix, rest := Suffix(logs[from], index[from]), Missing(logs, index, from + 1);
    MissingFrom(logs, index, from);
    MissingFrom(logs, index', from);
    SuffixOfSuffix(logs[from], index[from], Min(k, |suffix|));
    DropAcross(suffix, rest, k);
  }

  /** One pull and one advance: what arrived is the next part of what was missing, as much as the
      chunk holds; the flag tells whether anything remains; the rest is still missing. */
  lemma PullIsExact(m: AccumulatorModel, view: View, c: Checkpoint, maxReceivers: nat, maxSenders: nat, total: nat)
    requires AtHome(m, view.shards)
    ensures var r := Answer(view, c, maxReceivers, maxSenders, total); var c' := Advance(m, c, r);
      && MissingReceivers(view, c) == r.receivers + MissingReceivers(view, c')
      && MissingSenders(view, c) == r.senders + MissingSenders(view, c')
      && |r.receivers| == Min(ReceiverCap(maxReceivers), |MissingReceivers(view, c)|)
      && |r.senders| == Min(SenderCap(maxSenders), |MissingSenders(view, c)|)
      && (r.shouldContinue <==> MissingReceivers(view, c') != [] || MissingSenders(view, c') != [])
  {
    var r := Answer(view, c, maxReceivers, maxSenders, total);
    var c' := Advance(m, c, r);
    hide AtHome, Missing, OfShard;
    var missing := MissingReceivers(view, c);
    var k := |r.receivers|;
    assert r.receivers == missing[..k];
    MissingAfterTaking(m, view.shards, c.receiverIndex, c'.receiverIndex, 0, k);
    assert missing == missing[..k] + missing[k..];
  }

  /** How much a pull brings, in numbers: all that is missing, or as much as was asked for, or 32768,
      whichever is least. */
  lemma PullSizes(m: AccumulatorModel, view: View, c: Checkpoint, maxReceivers: nat, maxSenders: nat, total: nat)
    ensures var r := Answer(view, c, maxReceivers, maxSenders, total);
      && IsLeastOf(|r.receivers|, |MissingReceivers(view, c)|, maxReceivers, 32768)
      && IsLeastOf(|r.senders|, |MissingSenders(view, c)|, maxSenders, 32768)
      && (r.shouldContinue <==>
            || |r.receivers| < |MissingReceivers(view, c)|
            || |r.senders| < |MissingSenders(view, c)|)
  {
  }

  predicate IsLeastOf(n: nat, a: nat, b: nat, c: nat) {
    n <= a && n <= b && n <= c && (n == a || n == b || n == c)
  }

  /** What a pull brings to each log is the next part of that log's missing suffix. */
  lemma PullPerShard(m: AccumulatorModel, view: View, c: Checkpoint, maxReceivers: nat, maxSenders: nat, total: nat)
    requires AtHome(m, view.shards)
    ensures var r := Answer(view, c, maxReceivers, maxSenders, total);
      && (forall s: Shard :: OfShard(m, r.receivers, s) <= Suffix(view.shards[s], c.receiverIndex[s]))
      && r.senders <= Suffix(view.nullifiers, c.senderIndex)
  {
    hide AtHome, Missing, OfShard;
    var r := Answer(view, c, maxReceivers, maxSenders, total);
    forall s: Shard ensures OfShard(m, r.receivers, s) <= Suffix(view.shards[s], c.receiverIndex[s]) {
      TakenFromShard(m, view.shards, c.receiverIndex, 0, |r.receivers|, s);
    }
  }

  /** What a ledger that satisfies its invariant shows to a wallet. */
  ghost function Seen(m: AccumulatorModel, st: Storage): (view: View)
    requires Inv(m, st)
    ensures AtHome(m, view.shards)
  {
    InvGivesLogs(m, st);
    ViewOf(st)
  }

  // ---- Repeated pulls on a quiescent ledger ----

  /** The sizes a wallet asks for, and the total the ledger reports meanwhile. */
  datatype Request = Request(maxReceivers: nat, maxSenders: nat, total: nat)

  ghost function Pull(view: View, c: Checkpoint, q: Request): PullResponse {
    Answer(view, c, q.maxReceivers, q.maxSenders, q.total)
  }

  /** The checkpoint after n pulls. */
  ghost function CheckpointAfter(m: AccumulatorModel, view: View, c: Checkpoint, q: Request, n: nat): Checkpoint {
    if n == 0 then c
    else
      var c' := CheckpointAfter(m, view, c, q, n - 1);
      Advance(m, c', Pull(view, c', q))
  }

  /** What n full chunks carry. */
  function Carried(cap: nat, n: nat): nat { if n == 0 then 0 else Carried(cap, n - 1) + cap }

  function Minus(a: nat, b: nat): nat { if a < b then 0 else a - b }

  /** n pulls leave exactly what n full chunks could not carry. */
  lemma {:induction false} LeftAfter(m: AccumulatorModel, view: View, c: Checkpoint, q: Request, n: nat)
    requires AtHome(m, view.shards)
    ensures var c' := CheckpointAfter(m, view, c, q, n);
      && |MissingReceivers(view, c')| == Minus(|MissingReceivers(view, c)|, Carried(ReceiverCap(q.maxReceivers), n))
      && |MissingSenders(view, c')| == Minus(|MissingSenders(view, c)|, Carried(SenderCap(q.maxSenders), n))
  {
    hide AtHome, MissingReceivers, MissingSenders, Answer, ReceiverCap, SenderCap;
    if n > 0 {
      LeftAfter(m, view, c, q, n - 1);
      var c1 := CheckpointAfter(m, view, c, q, n - 1);
      PullIsExact(m, view, c1, q.maxReceivers, q.maxSenders, q.total);
    }
  }

  /** n full chunks of each kind are enough to carry everything that is missing. */
  ghost predicate Enough(view: View, c: Checkpoint, q: Request, n: nat) {
    && |MissingReceivers(view, c)| <= ReceiverCap(q.maxReceivers) * n
    && |MissingSenders(view, c)| <= SenderCap(q.maxSenders) * n
  }

  lemma {:induction false} CarriedIsProduct(cap: nat, n: nat)
    ensures Carried(cap, n) == cap * n
  {
    if n > 0 {
      CarriedIsProduct(cap, n - 1);
      assert cap * n == cap * (n - 1) + cap;
    }
  }

  /** The flag of the pull after n others says whether n + 1 full chunks are too few. */
  lemma FlagAfter(m: AccumulatorModel, view: View, c: Checkpoint, q: Request, n: nat)
    requires AtHome(m, view.shards)
    ensures Pull(view, CheckpointAfter(m, view, c, q, n), q).shouldContinue <==> !Enough(view, c, q, n + 1)
  {
    hide AtHome, MissingReceivers, MissingSenders, Answer, ReceiverCap, SenderCap;
    LeftAfter(m, view, c, q, n + 1);
    PullIsExact(m, view, CheckpointAfter(m, view, c, q, n), q.maxReceivers, q.maxSenders, q.total);
    CarriedIsProduct(ReceiverCap(q.maxReceivers), n + 1);
    CarriedIsProduct(SenderCap(q.maxSenders), n + 1);
  }

  /** Some pull answers "nothing more" exactly when no kind of data is missing that is asked for
      in chunks of zero. */
  lemma SyncEndsIff(m: AccumulatorModel, view: View, c: Checkpoint, q: Request)
    requires AtHome(m, view.shards)
    ensures (exists n: nat :: !Pull(view, CheckpointAfter(m, view, c, q, n), q).shouldContinue)
            <==> && (MissingReceivers(view, c) == [] || q.maxReceivers > 0)
                 && (MissingSenders(view, c) == [] || q.maxSenders > 0)
  {
    hide AtHome, MissingReceivers, MissingSenders, Answer;
    var receivers, senders := |MissingReceivers(view, c)|, |MissingSenders(view, c)|;
    if (receivers == 0 || q.maxReceivers > 0) && (senders == 0 || q.maxSenders > 0) {
      var n := receivers + senders;
      TimesAtLeastOne(n + 1, ReceiverCap(q.maxReceivers));
      TimesAtLeastOne(n + 1, SenderCap(q.maxSenders));
      FlagAfter(m, view, c, q, n);
    } else {
      forall n: nat ensures Pull(view, CheckpointAfter(m, view, c, q, n), q).shouldContinue {
        FlagAfter(m, view, c, q, n);
      }
    }
  }

  /** It does fail to end: asked for chunks of no receivers while one is missing, the ledger answers
      every pull without any and with "there is more". */
  lemma EmptyRequestNeverEnds(m: AccumulatorModel, view: View, c: Checkpoint, maxSenders: nat, total: nat, n: nat)
    requires AtHome(m, view.shards) && MissingReceivers(view, c) != []
    ensures var q := Request(0, maxSenders, total);
            var r := Pull(view, CheckpointAfter(m, view, c, q, n), q);
            r.shouldContinue && r.receivers == []
  {
    FlagAfter(m, view, c, Request(0, maxSenders, total), n);
  }

  lemma TimesAtLeastOne(n: nat, cap: nat)
    ensures cap * n >= if cap > 0 then n else 0
  {
  }

  // ---- How many pulls ----

  function Max(a: nat, b: nat): nat { if a < b then b else a }

  /** The least positive number of pulls whose chunks of mr and ms can carry everything. */
  ghost predicate IsLeastPulls(pulls: nat, receivers: nat, senders: nat, mr: nat, ms: nat) {
    && pulls >= 1
    && receivers <= mr * pulls && senders <= ms * pulls
    && (pulls > 1 ==> receivers > mr * (pulls - 1) || senders > ms * (pulls - 1))
  }

  lemma LeastEnough(view: View, c: Checkpoint, q: Request, n: nat)
    requires q.maxReceivers > 0 && q.maxSenders > 0 && n >= 1
    requires Enough(view, c, q, n)
    requires n > 1 ==> !Enough(view, c, q, n - 1)
    ensures n == PullsNeeded(view, c, q)
  {
    var receivers, senders := |MissingReceivers(view, c)|, |MissingSenders(view, c)|;
    hide MissingReceivers, MissingSenders;
    CeilDivLeast(receivers, ReceiverCap(q.maxReceivers), n);
    CeilDivLeast(senders, SenderCap(q.maxSenders), n);
    if n > 1 {
      CeilDivLeast(receivers, ReceiverCap(q.maxReceivers), n - 1);
      CeilDivLeast(senders, SenderCap(q.maxSenders), n - 1);
    }
  }

  /** max(1, ceil(R / mr), ceil(S / ms)). */
  ghost function PullsNeeded(view: View, c: Checkpoint, q: Request): nat
    requires q.maxReceivers > 0 && q.maxSenders > 0
  {
    Max(1, Max(CeilDiv(|MissingReceivers(view, c)|, ReceiverCap(q.maxReceivers)),
               CeilDiv(|MissingSenders(view, c)|, SenderCap(q.maxSenders))))
  }

  // ---- The sync loop ----

  /** All that is missing, sorted by shard again, is every shard's missing suffix. */
  lemma {:induction false} MissingByShard(m: AccumulatorModel, logs: Logs, index: ReceiverIndex, from: nat, s: Shard)
    requires AtHome(m, logs) && from <= FOREST_WIDTH
    ensures OfShard(m, Missing(logs, index, from), s) == if s >= from then Suffix(logs[s], index[s]) else []
    decreases FOREST_WIDTH - from
  {
    if from < FOREST_WIDTH {
      var suffix, rest := Suffix(logs[from], index[from]), Missing(logs, index, from + 1);
      OfShardAppend(m, suffix, rest, s);
      OfOneShard(m, suffix, from, s);
      MissingByShard(m, logs, index, from + 1, s);
    }
  }

  /** No log is so long that a chunk past its end leaves u64. */
  ghost predicate LogsInRange(view: View, maxReceivers: nat, maxSenders: nat) {
    && (forall s: Shard :: |view.shards[s]| + ReceiverCap(maxReceivers) < U64_LIMIT)
    && |view.nullifiers| + SenderCap(maxSenders) < U64_LIMIT
  }

  /** A sync comes to every shard in the end. */
  predicate IndicesInRange(c: Checkpoint, maxReceivers: nat, maxSenders: nat) {
    && (forall s: Shard :: c.receiverIndex[s] + ReceiverCap(maxReceivers) < U64_LIMIT)
    && c.senderIndex + SenderCap(maxSenders) < U64_LIMIT
  }

  lemma EveryPullInRange(view: View, c: Checkpoint, maxReceivers: nat, maxSenders: nat)
    requires IndicesInRange(c, maxReceivers, maxSenders)
    ensures InRange(view, c, maxReceivers, maxSenders)
  {
  }

  lemma AdvanceInRange(m: AccumulatorModel, view: View, c: Checkpoint, q: Request)
    requires AtHome(m, view.shards) && LogsInRange(view, q.maxReceivers, q.maxSenders)
    requires IndicesInRange(c, q.maxReceivers, q.maxSenders)
    ensures IndicesInRange(Advance(m, c, Pull(view, c, q)), q.maxReceivers, q.maxSenders)
  {
    PullPerShard(m, view, c, q.maxReceivers, q.maxSenders, q.total);
    hide AtHome, OfShard, Answer;
    var r := Pull(view, c, q);
    forall s: Shard ensures Advance(m, c, r).receiverIndex[s] + ReceiverCap(q.maxReceivers) < U64_LIMIT {
      assert OfShard(m, r.receivers, s) <= Suffix(view.shards[s], c.receiverIndex[s]);
    }
  }

  /** Where the sync stands after some pulls. */
  ghost predicate SyncProgress(
    m: AccumulatorModel, view: View, start: Checkpoint, q: Request, pulls: nat, more: bool,
    c: Checkpoint, receivers: seq<Entry>, senders: seq<Spent>)
  {
    && c == CheckpointAfter(m, view, start, q, pulls)
    && receivers + MissingReceivers(view, c) == MissingReceivers(view, start)
    && senders + MissingSenders(view, c) == MissingSenders(view, start)
    && (more <==> pulls == 0 || MissingReceivers(view, c) != [] || MissingSenders(view, c) != [])
    && (pulls > 0 ==> (more <==> !Enough(view, start, q, pulls)))
    && (pulls > 1 ==> !Enough(view, start, q, pulls - 1))
  }

  lemma SyncStep(
    m: AccumulatorModel, view: View, start: Checkpoint, q: Request, pulls: nat,
    c: Checkpoint, receivers: seq<Entry>, senders: seq<Spent>)
    requires AtHome(m, view.shards)
    requires SyncProgress(m, view, start, q, pulls, true, c, receivers, senders)
    ensures var r := Pull(view, c, q); var c' := Advance(m, c, r);
      && SyncProgress(m, view, start, q, pulls + 1, r.shouldContinue, c', receivers + r.receivers, senders + r.senders)
      && |MissingReceivers(view, c')| + |MissingSenders(view, c')|
         + (if pulls > 0 && q.maxReceivers > 0 && q.maxSenders > 0 then 1 else 0)
         <= |MissingReceivers(view, c)| + |MissingSenders(view, c)|
  {
    hide AtHome, MissingReceivers, MissingSenders, Answer;
    PullIsExact(m, view, c, q.maxReceivers, q.maxSenders, q.total);
    FlagAfter(m, view, start, q, pulls);
  }

  /** Pulls until the ledger says there is nothing more. */
  method Sync(ledger: Ledger.ProxyLedger, start: Checkpoint, maxReceivers: nat, maxSenders: nat)
    returns (checkpoint: Checkpoint, receivers: seq<Entry>, senders: seq<Spent>, pulls: nat)
    requires Inv(ledger.accumulator, ledger.State())
    requires maxReceivers > 0 && maxSenders > 0
    requires IndicesInRange(start, maxReceivers, maxSenders)
    requires LogsInRange(Seen(ledger.accumulator, ledger.State()), maxReceivers, maxSenders)
    ensures var view := Seen(ledger.accumulator, ledger.State());
      && pulls == PullsNeeded(view, start, Request(maxReceivers, maxSenders, 0))
      && receivers == MissingReceivers(view, start)
      && (forall s: Shard :: OfShard(ledger.accumulator, receivers, s)
                             == Suffix(view.shards[s], start.receiverIndex[s]))
      && senders == Suffix(view.nullifiers, start.senderIndex)
      && MissingReceivers(view, checkpoint) == [] && MissingSenders(view, checkpoint) == []
    ensures IsLeastPulls(pulls, |receivers|, |senders|,
                         if maxReceivers < 32768 then maxReceivers else 32768,
                         if maxSenders < 32768 then maxSenders else 32768)
  {
    hide Inv, AtHome, LogsInRange, IndicesInRange, InRange, SyncProgress;
    hide OfShard, Missing, MissingReceivers, MissingSenders, Answer, ViewOf;
    ghost var view := Seen(ledger.accumulator, ledger.State());
    ghost var q := Request(maxReceivers, maxSenders, SendersReceiversTotal(ledger.State()));
    checkpoint, receivers, senders, pulls := start, [], [], 0;
    SyncStarts(ledger.accumulator, view, start, q);
    var more := true;
    while more
      invariant SyncProgress(ledger.accumulator, view, start, q, pulls, more, checkpoint, receivers, senders)
      invariant IndicesInRange(checkpoint, maxReceivers, maxSenders)
      invariant more || pulls > 0
      decreases if pulls == 0 then 1 else 0,
                |MissingReceivers(view, checkpoint)| + |MissingSenders(view, checkpoint)|
    {
      SyncStep(ledger.accumulator, view, start, q, pulls, checkpoint, receivers, senders);
      AdvanceInRange(ledger.accumulator, view, checkpoint, q);
      EveryPullInRange(view, checkpoint, maxReceivers, maxSenders);
      var response := PullLedgerDiff(ledger, checkpoint, maxReceivers, maxSenders);
      receivers, senders := receivers + response.receivers, senders + response.senders;
      checkpoint := Advance(ledger.accumulator, checkpoint, response);
      pulls := pulls + 1;
      more := response.shouldContinue;
    }
    SyncEnds(ledger.accumulator, view, start, q, pulls, checkpoint, receivers, senders);
  }

  lemma SyncStarts(m: AccumulatorModel, view: View, start: Checkpoint, q: Request)
    ensures SyncProgress(m, view, start, q, 0, true, start, [], [])
  {
  }

  lemma SyncEnds(
    m: AccumulatorModel, view: View, start: Checkpoint, q: Request, pulls: nat,
    c: Checkpoint, receivers: seq<Entry>, senders: seq<Spent>)
    requires AtHome(m, view.shards) && q.maxReceivers > 0 && q.maxSenders > 0 && pulls > 0
    requires SyncProgress(m, view, start, q, pulls, false, c, receivers, senders)
    ensures pulls == PullsNeeded(view, start, q) == PullsNeeded(view, start, q.(total := 0))
    ensures receivers == MissingReceivers(view, start) && senders == MissingSenders(view, start)
    ensures forall s: Shard :: OfShard(m, receivers, s) == Suffix(view.shards[s], start.receiverIndex[s])
    ensures MissingSenders(view, start) == Suffix(view.nullifiers, start.senderIndex)
    ensures MissingReceivers(view, c) == [] && MissingSenders(view, c) == []
    ensures IsLeastPulls(pulls, |receivers|, |senders|,
                         if q.maxReceivers < 32768 then q.maxReceivers else 32768,
                         if q.maxSenders < 32768 then q.maxSenders else 32768)
  {
    LeastEnough(view, start, q, pulls);
    forall s: Shard
      ensures OfShard(m, MissingReceivers(view, start), s) == Suffix(view.shards[s], start.receiverIndex[s])
    {
      MissingByShard(m, view.shards, start.receiverIndex, 0, s);
    }
  }

  // ---- Pulls between posts ----

  datatype Wallet = Wallet(checkpoint: Checkpoint, receivers: seq<Entry>, senders: seq<Spent>)

  datatype World = World(ledger: Storage, wallet: Wallet)

  datatype Event =
    | Posting(attempt: Attempt)
    | Pulling(request: Request)

  ghost function Absorb(m: AccumulatorModel, view: View, w: Wallet, q: Request): Wallet {
    var r := Pull(view, w.checkpoint, q);
    Wallet(Advance(m, w.checkpoint, r), w.receivers + r.receivers, w.senders + r.senders)
  }

  /** One pull of a wallet from the ledger. */
  method PullOnce(ledger: Ledger.ProxyLedger, w: Wallet, maxReceivers: nat, maxSenders: nat) returns (after: Wallet)
    requires Inv(ledger.accumulator, ledger.State())
    requires InRange(Seen(ledger.accumulator, ledger.State()), w.checkpoint, maxReceivers, maxSenders)
    ensures after == Absorb(ledger.accumulator, Seen(ledger.accumulator, ledger.State()), w,
                            Request(maxReceivers, maxSenders, SendersReceiversTotal(ledger.State())))
  {
    hide Inv, InRange, Answer, ViewOf;
    var response := PullLedgerDiff(ledger, w.checkpoint, maxReceivers, maxSenders);
    after := Wallet(Advance(ledger.accumulator, w.checkpoint, response),
                    w.receivers + response.receivers, w.senders + response.senders);
  }

  ghost function Next(m: AccumulatorModel, world: World, e: Event): (world': World)
    requires Inv(m, world.ledger)
    ensures Inv(m, world'.ledger)
  {
    match e
    case Posting(a) => world.(ledger := Step(m, world.ledger, a.call, a.signed))
    case Pulling(q) => world.(wallet := Absorb(m, Seen(m, world.ledger), world.wallet, q))
  }

  ghost function Life(m: AccumulatorModel, world: World, events: seq<Event>): (world': World)
    requires Inv(m, world.ledger)
    ensures Inv(m, world'.ledger)
    decreases |events|
  {
    if events == [] then world else Life(m, Next(m, world, events[0]), events[1..])
  }

  /** Everything the wallet holds is, log by log, one contiguous run beginning where it started,
      and its checkpoint stands right behind it. */
  ghost predicate Follows(m: AccumulatorModel, view: View, start: Checkpoint, w: Wallet) {
    && (forall s: Shard ::
          && OfShard(m, w.receivers, s) <= Suffix(view.shards[s], start.receiverIndex[s])
          && w.checkpoint.receiverIndex[s] == start.receiverIndex[s] + |OfShard(m, w.receivers, s)|)
    && w.senders <= Suffix(view.nullifiers, start.senderIndex)
    && w.checkpoint.senderIndex == start.senderIndex + |w.senders|
  }

  ghost predicate Extends(view: View, view': View) {
    && (forall s: Shard :: view.shards[s] <= view'.shards[s])
    && view.nullifiers <= view'.nullifiers
  }

  lemma NextRun<T>(log: seq<T>, i: nat, got: seq<T>, more: seq<T>)
    requires got <= Suffix(log, i) && more <= Suffix(log, i + |got|)
    ensures got + more <= Suffix(log, i)
  {
    if got != [] || i <= |log| {
      SuffixOfSuffix(log, i, |got|);
    }
  }

  lemma ShardAfterPull(m: AccumulatorModel, log: seq<Entry>, i: nat, got: seq<Entry>, more: seq<Entry>, s: Shard)
    requires OfShard(m, got, s) <= Suffix(log, i)
    requires OfShard(m, more, s) <= Suffix(log, i + |OfShard(m, got, s)|)
    ensures OfShard(m, got + more, s) <= Suffix(log, i)
    ensures |OfShard(m, got + more, s)| == |OfShard(m, got, s)| + |OfShard(m, more, s)|
  {
    OfShardAppend(m, got, more, s);
    NextRun(log, i, OfShard(m, got, s), OfShard(m, more, s));
  }

  lemma FollowsAfterPull(m: AccumulatorModel, view: View, start: Checkpoint, w: Wallet, q: Request)
    requires AtHome(m, view.shards) && Follows(m, view, start, w)
    ensures Follows(m, view, start, Absorb(m, view, w, q))
  {
    hide AtHome, Answer, OfShard, Suffix;
    var r := Pull(view, w.checkpoint, q);
    PullPerShard(m, view, w.checkpoint, q.maxReceivers, q.maxSenders, q.total);
    forall s: Shard
      ensures OfShard(m, w.receivers + r.receivers, s) <= Suffix(view.shards[s], start.receiverIndex[s])
      ensures |OfShard(m, w.receivers + r.receivers, s)|
           == |OfShard(m, w.receivers, s)| + |OfShard(m, r.receivers, s)|
    {
      ShardAfterPull(m, view.shards[s], start.receiverIndex[s], w.receivers, r.receivers, s);
    }
    NextRun(view.nullifiers, start.senderIndex, w.senders, r.senders);
  }

  lemma FollowsAfterGrowth(m: AccumulatorModel, view: View, view': View, start: Checkpoint, w: Wallet)
    requires Follows(m, view, start, w) && Extends(view, view')
    ensures Follows(m, view', start, w)
  {
    forall s: Shard
      ensures Suffix(view.shards[s], start.receiverIndex[s]) <= Suffix(view'.shards[s], start.receiverIndex[s])
    {
    }
  }

  lemma StepExtends(m: AccumulatorModel, st: Storage, a: Attempt)
    requires Inv(m, st)
    ensures Extends(Seen(m, st), Seen(m, Step(m, st, a.call, a.signed)))
  {
    hide Inv, Step, Goes, AppendByShard, LogsOf, NullifierLog;
    StepHistory(m, st, a);
  }

  /** The wallet of this world follows its ledger. */
  ghost predicate InSync(m: AccumulatorModel, world: World, start: Checkpoint)
    requires Inv(m, world.ledger)
  {
    Follows(m, Seen(m, world.ledger), start, world.wallet)
  }

  lemma NextInSync(m: AccumulatorModel, world: World, start: Checkpoint, e: Event)
    requires Inv(m, world.ledger) && InSync(m, world, start)
    ensures InSync(m, Next(m, world, e), start)
  {
    hide Inv, Follows, Extends, Absorb;
    match e
    case Posting(a) =>
      StepExtends(m, world.ledger, a);
      FollowsAfterGrowth(m, Seen(m, world.ledger), Seen(m, Next(m, world, e).ledger), start, world.wallet);
    case Pulling(q) =>
      FollowsAfterPull(m, Seen(m, world.ledger), start, world.wallet, q);
  }

  /** However posts and pulls interleave, with whatever chunk sizes, the wallet never has a gap, a
      duplicate or a reordering in any log. */
  lemma {:induction false} SyncSafeUnderGrowth(
    m: AccumulatorModel, world: World, start: Checkpoint, events: seq<Event>)
    requires Inv(m, world.ledger) && InSync(m, world, start)
    ensures InSync(m, Life(m, world, events), start)
    decreases |events|
  {
    hide Inv, InSync, Next;
    if events != [] {
      NextInSync(m, world, start, events[0]);
      SyncSafeUnderGrowth(m, Next(m, world, events[0]), start, events[1..]);
    }
  }

  /** From any reachable ledger and any checkpoint, whatever happens next. */
  lemma NewWalletStaysInSync(m: AccumulatorModel, st: Storage, start: Checkpoint, events: seq<Event>)
    requires Inv(m, st)
    ensures var end := Life(m, World(st, Wallet(start, [], [])), events);
      && (forall s: Shard ::
            && OfShard(m, end.wallet.receivers, s) <= Suffix(Seen(m, end.ledger).shards[s], start.receiverIndex[s])
            && end.wallet.checkpoint.receiverIndex[s]
               == start.receiverIndex[s] + |OfShard(m, end.wallet.receivers, s)|)
      && end.wallet.senders <= Suffix(Seen(m, end.ledger).nullifiers, start.senderIndex)
  {
    hide Inv, Next, Life, Seen;
    SyncSafeUnderGrowth(m, World(st, Wallet(start, [], [])), start, events);
  }

  // ---- Catching up ----

  function Repeat(e: Event, n: nat): (r: seq<Event>)
    ensures |r| == n
  {
    if n == 0 then [] else Repeat(e, n - 1) + [e]
  }

  lemma {:induction false} LifeOneMore(m: AccumulatorModel, world: World, events: seq<Event>, e: Event)
    requires Inv(m, world.ledger)
    ensures Life(m, world, events + [e]) == Next(m, Life(m, world, events), e)
    decreases |events|
  {
    hide Inv, Next;
    if events == [] {
      assert events + [e] == [e];
    } else {
      assert (events + [e])[1..] == events[1..] + [e];
      LifeOneMore(m, Next(m, world, events[0]), events[1..], e);
    }
  }

  lemma {:induction false} LifeOfPulls(m: AccumulatorModel, world: World, q: Request, n: nat)
    requires Inv(m, world.ledger)
    ensures var end := Life(m, world, Repeat(Pulling(q), n));
      && end.ledger == world.ledger
      && end.wallet.checkpoint == CheckpointAfter(m, Seen(m, world.ledger), world.wallet.checkpoint, q, n)
  {
    hide Inv, Seen, Advance, Pull;
    if n > 0 {
      LifeOfPulls(m, world, q, n - 1);
      LifeOneMore(m, world, Repeat(Pulling(q), n - 1), Pulling(q));
    }
  }

  /** The wallet has everything beyond the checkpoint it started from, log by log. */
  ghost predicate HoldsAll(m: AccumulatorModel, view: View, start: Checkpoint, w: Wallet) {
    && (forall s: Shard :: OfShard(m, w.receivers, s) == Suffix(view.shards[s], start.receiverIndex[s]))
    && w.senders == Suffix(view.nullifiers, start.senderIndex)
  }

  /** A wallet that follows its ledger and misses nothing has everything. */
  lemma FollowerHoldsAll(m: AccumulatorModel, view: View, start: Checkpoint, w: Wallet)
    requires AtHome(m, view.shards) && Follows(m, view, start, w)
    requires MissingReceivers(view, w.checkpoint) == [] && MissingSenders(view, w.checkpoint) == []
    ensures HoldsAll(m, view, start, w)
  {
    hide AtHome, OfShard, Missing;
    forall s: Shard ensures OfShard(m, w.receivers, s) == Suffix(view.shards[s], start.receiverIndex[s]) {
      MissingByShard(m, view.shards, w.checkpoint.receiverIndex, 0, s);
      NothingOfShard(m, s);
    }
  }

  lemma PullsKeepInSync(m: AccumulatorModel, now: World, start: Checkpoint, q: Request, n: nat)
    requires Inv(m, now.ledger) && InSync(m, now, start)
    ensures InSync(m, Life(m, now, Repeat(Pulling(q), n)), start)
  {
    hide Inv, InSync, Life;
    SyncSafeUnderGrowth(m, now, start, Repeat(Pulling(q), n));
  }

  lemma FollowerCatchesUp(m: AccumulatorModel, now: World, start: Checkpoint, q: Request, extra: nat)
    requires Inv(m, now.ledger) && InSync(m, now, start) && q.maxReceivers > 0 && q.maxSenders > 0
    ensures var pulls := PullsNeeded(Seen(m, now.ledger), now.wallet.checkpoint, q) + extra;
            var end := Life(m, now, Repeat(Pulling(q), pulls));
            end.ledger == now.ledger && HoldsAll(m, Seen(m, end.ledger), start, end.wallet)
  {
    hide Inv, Life, Seen, Follows, HoldsAll, PullsNeeded, MissingReceivers, MissingSenders, CheckpointAfter;
    var n := PullsNeeded(Seen(m, now.ledger), now.wallet.checkpoint, q) + extra;
    PullsKeepInSync(m, now, start, q, n);
    LifeOfPulls(m, now, q, n);
    NeededIsEnough(m, Seen(m, now.ledger), now.wallet.checkpoint, q, extra);
    FollowerHoldsAll(m, Seen(m, now.ledger), start, Life(m, now, Repeat(Pulling(q), n)).wallet);
  }

  /** However posts and pulls interleaved before, once the ledger rests the pulls that are needed
      from the wallet's checkpoint, or more, complete its holdings: for every shard and for the
      nullifier log exactly what lies beyond the checkpoint the wallet started from. */
  lemma WalletCatchesUp(
    m: AccumulatorModel, st: Storage, start: Checkpoint, events: seq<Event>, q: Request, extra: nat)
    requires Inv(m, st) && q.maxReceivers > 0 && q.maxSenders > 0
    ensures var now := Life(m, World(st, Wallet(start, [], [])), events);
            var pulls := PullsNeeded(Seen(m, now.ledger), now.wallet.checkpoint, q) + extra;
            var end := Life(m, now, Repeat(Pulling(q), pulls));
            end.ledger == now.ledger && HoldsAll(m, Seen(m, end.ledger), start, end.wallet)
  {
    hide Inv, InSync, Life, Seen, HoldsAll, PullsNeeded;
    var world := World(st, Wallet(start, [], []));
    InSyncAtStart(m, st, start);
    SyncSafeUnderGrowth(m, world, start, events);
    FollowerCatchesUp(m, Life(m, world, events), start, q, extra);
  }

  lemma InSyncAtStart(m: AccumulatorModel, st: Storage, start: Checkpoint)
    requires Inv(m, st)
    ensures InSync(m, World(st, Wallet(start, [], [])), start)
  {
    hide Inv;
  }

  /** As many pulls as are needed, or more, leave nothing missing. */
  lemma NeededIsEnough(m: AccumulatorModel, view: View, c: Checkpoint, q: Request, extra: nat)
    requires AtHome(m, view.shards) && q.maxReceivers > 0 && q.maxSenders > 0
    ensures var c' := CheckpointAfter(m, view, c, q, PullsNeeded(view, c, q) + extra);
            MissingReceivers(view, c') == [] && MissingSenders(view, c') == []
  {
    hide AtHome, MissingReceivers, MissingSenders;
    var n := PullsNeeded(view, c, q) + extra;
    CeilDivLeast(|MissingReceivers(view, c)|, ReceiverCap(q.maxReceivers), n);
    CeilDivLeast(|MissingSenders(view, c)|, SenderCap(q.maxSenders), n);
    CarriedIsProduct(ReceiverCap(q.maxReceivers), n);
    CarriedIsProduct(SenderCap(q.maxSenders), n);
    LeftAfter(m, view, c, q, n);
  }
}
