/** The transactional calls of the shielded pallet, and the same calls as steps on storages. */
module MantaPay {
  import opened Wrappers
  import opened ShieldedTypes
  import opened ShardLogs
  import opened Registration
  import opened LedgerInvariant
  import opened LedgerSteps
  import Ledger = ProxyLedger

  /** What the libraries around the ledger decide: `accepted` before it is changed (signature,
      proof, accounts), `settled` after (the update of the public balances). */
  datatype Verdict = Verdict(accepted: bool, settled: bool)

  datatype TransferPost = TransferPost(
    sources: seq<nat>, senderPosts: seq<Spending>, receiverPosts: seq<Insertion>, sinks: seq<nat>)

  datatype AssetMetadata = AssetMetadata(originZkAddress: Option<Bytes>, hasOriginAccount: bool)

  datatype Call =
    | ToPrivate(post: TransferPost, verdict: Verdict)
    | ToPublic(post: TransferPost, verdict: Verdict)
    | PrivateTransfer(post: TransferPost, verdict: Verdict)
    | PrivateTransferAsset(metadata: Option<AssetMetadata>, zkAddress: Bytes, post: TransferPost, verdict: Verdict)

  datatype Error =
    | BadOrigin
    | InvalidShape
    | ZeroTransfer
    | PublicUpdateInvalidMint
    | PrivateTransferZkAddressNotExist
    | PrivateTransferZkAddressNotMatch
    | PrivateTransferAccountNotExist
    | AssetSpent
    | InvalidUtxoAccumulatorOutput
    | AssetRegistered
    | DuplicateSpend
    | DuplicateRegister
    | InternalLedgerError
    | RefusedByLibrary

  /** How ledger errors surface: the ones that are not about the post become internal errors. */
  function Surface(e: LedgerError): Error {
    match e
    case AssetSpent => Error.AssetSpent
    case InvalidUtxoAccumulatorOutput => Error.InvalidUtxoAccumulatorOutput
    case AssetRegistered => Error.AssetRegistered
    case _ => InternalLedgerError
  }

  predicate HasShape(post: TransferPost, sources: nat, senders: nat, receivers: nat, sinks: nat) {
    && |post.sources| == sources && |post.senderPosts| == senders
    && |post.receiverPosts| == receivers && |post.sinks| == sinks
  }

  /** The guards of the four calls, in their order. */
  function Guard(call: Call, signed: bool): Option<Error> {
    if !signed then Some(BadOrigin) else
    match call
    case ToPrivate(post, _) =>
      if !HasShape(post, 1, 0, 1, 0) then Some(InvalidShape)
      else if 0 in post.sources then Some(ZeroTransfer)
      else None
    case ToPublic(post, _) =>
      if !HasShape(post, 0, 2, 1, 1) then Some(InvalidShape)
      else if 0 in post.sinks then Some(ZeroTransfer)
      else None
    case PrivateTransfer(post, _) =>
      if !HasShape(post, 0, 2, 2, 0) then Some(InvalidShape) else None
    case PrivateTransferAsset(metadata, zkAddress, post, _) =>
      if !HasShape(post, 0, 2, 2, 0) then Some(InvalidShape)
      else if metadata.None? then Some(PublicUpdateInvalidMint)
      else if metadata.value.originZkAddress.None? then Some(PrivateTransferZkAddressNotExist)
      else if metadata.value.originZkAddress.value != zkAddress then Some(PrivateTransferZkAddressNotMatch)
      else if !metadata.value.hasOriginAccount then Some(PrivateTransferAccountNotExist)
      else None
  }

  /** What a call asks for itself, before the post is looked at. */
  predicate Permitted(call: Call, signed: bool) {
    var p := call.post;
    && signed
    && match call
       case ToPrivate(_, _) =>
         && |p.sources| == 1 && |p.senderPosts| == 0 && |p.receiverPosts| == 1 && |p.sinks| == 0
         && p.sources[0] != 0
       case ToPublic(_, _) =>
         && |p.sources| == 0 && |p.senderPosts| == 2 && |p.receiverPosts| == 1 && |p.sinks| == 1
         && p.sinks[0] != 0
       case PrivateTransfer(_, _) =>
         |p.sources| == 0 && |p.senderPosts| == 2 && |p.receiverPosts| == 2 && |p.sinks| == 0
       case PrivateTransferAsset(metadata, zkAddress, _, _) =>
         && |p.sources| == 0 && |p.senderPosts| == 2 && |p.receiverPosts| == 2 && |p.sinks| == 0
         && metadata.Some?
         && metadata.value.originZkAddress == Some(zkAddress)
         && metadata.value.hasOriginAccount
  }

  /** The guards let through exactly the permitted calls. */
  lemma GuardIffPermitted(call: Call, signed: bool)
    ensures Guard(call, signed).None? <==> Permitted(call, signed)
  {
  }

  /** The four lengths that a call expects. */
  predicate Shaped(call: Call) {
    var p := call.post;
    (|p.sources|, |p.senderPosts|, |p.receiverPosts|, |p.sinks|)
    == match call
       case ToPrivate(_, _) => (1, 0, 1, 0)
       case ToPublic(_, _) => (0, 2, 1, 1)
       case _ => (0, 2, 2, 0)
  }

  /** The first condition that a call violates decides its error. */
  lemma GuardErrors(call: Call, signed: bool)
    ensures var e := Guard(call, signed);
      && (e == Some(BadOrigin) <==> !signed)
      && (e == Some(InvalidShape) <==> signed && !Shaped(call))
      && (e == Some(ZeroTransfer) <==> && signed && Shaped(call)
                                       && ((call.ToPrivate? && call.post.sources[0] == 0)
                                           || (call.ToPublic? && call.post.sinks[0] == 0)))
      && (signed && Shaped(call) && call.PrivateTransferAsset? ==>
            match call.metadata
            case None => e == Some(PublicUpdateInvalidMint)
            case Some(d) =>
              match d.originZkAddress
              case None => e == Some(PrivateTransferZkAddressNotExist)
              case Some(owner) =>
                if owner != call.zkAddress then e == Some(PrivateTransferZkAddressNotMatch)
                else e == if d.hasOriginAccount then None else Some(PrivateTransferAccountNotExist))
  {
  }

  // ---- Steps on storages ----

  predicate OutgoingNotesDecode(spendings: seq<Spending>) {
    forall k :: 0 <= k < |spendings| ==> spendings[k].note.Some?
  }

  /** The post goes through on this storage. */
  predicate Posts(m: AccumulatorModel, st: Storage, post: TransferPost, verdict: Verdict) {
    && verdict.accepted && verdict.settled
    && SendersAdmissible(st, post.senderPosts)
    && ReceiversAdmissible(st, post.receiverPosts)
    && OutgoingNotesDecode(post.senderPosts)
    && RegisterEach(m, SpendEach(st, post.senderPosts), post.receiverPosts).Ok?
  }

  predicate Succeeds(m: AccumulatorModel, st: Storage, call: Call, signed: bool) {
    && Guard(call, signed).None?
    && Posts(m, st, call.post, call.verdict)
  }

  /** The storage after a successful post. */
  ghost function Posted(m: AccumulatorModel, st: Storage, post: TransferPost): Storage
    requires ShardsContiguous(st)
    requires RegisterEach(m, SpendEach(st, post.senderPosts), post.receiverPosts).Ok?
  {
    RegisterEach(m, SpendEach(st, post.senderPosts), post.receiverPosts).value.(
      utxoAccumulatorOutputs := st.utxoAccumulatorOutputs + LastRoots(m, LogsOf(st), post.receiverPosts))
  }

  /** One call: all of its effect, or none. */
  ghost function Step(m: AccumulatorModel, st: Storage, call: Call, signed: bool): (st': Storage)
    requires Inv(m, st)
    ensures Inv(m, st')
  {
    if Succeeds(m, st, call, signed) then
      PostKeepsInv(m, st, call.post, call.verdict);
      Posted(m, st, call.post)
    else
      st
  }

  /** What a successful post does to the two kinds of log. */
  lemma PostKeepsInv(m: AccumulatorModel, st: Storage, post: TransferPost, verdict: Verdict)
    requires Inv(m, st) && Posts(m, st, post, verdict)
    ensures Inv(m, Posted(m, st, post))
    ensures LogsIn(m, Posted(m, st, post)) == AppendByShard(m, LogsIn(m, st), post.receiverPosts)
    ensures NullifiersIn(m, Posted(m, st, post)) == NullifiersIn(m, st) + Spents(post.senderPosts)
  {
    var logs := LogsOf(st);
    var spent := SpendEach(st, post.senderPosts);
    SpendEachKeepsSenders(st, post.senderPosts);
    SpendEachTouchesSendersOnly(st, post.senderPosts);
    SameReceivers(m, st, spent);
    BatchKeepsReceivers(m, spent, logs, post.receiverPosts, Posted(m, st, post));
    SameSenders(spent, Posted(m, st, post));
  }

  lemma SameReceivers(m: AccumulatorModel, a: Storage, b: Storage)
    requires ShardsContiguous(a) && ReceiversGood(m, a, LogsOf(a))
    requires b == a.(nullifierCommitmentSet := b.nullifierCommitmentSet,
                     nullifierSetInsertionOrder := b.nullifierSetInsertionOrder,
                     nullifierSetSize := b.nullifierSetSize)
    ensures ShardsContiguous(b) && LogsOf(b) == LogsOf(a) && ReceiversGood(m, b, LogsOf(b))
  {
    hide ShardsHold, TreesHold, UtxosHold, AtHome, NoRepeats, OutputsSound, OutputsCurrent, WithinCapacity;
    hide ShardsContiguous, LogsOf;
    LogsReadBack(m, b, LogsOf(a));
  }

  lemma SameSenders(a: Storage, b: Storage)
    requires SenderSide(a)
    requires b.nullifierCommitmentSet == a.nullifierCommitmentSet
    requires b.nullifierSetInsertionOrder == a.nullifierSetInsertionOrder
    requires b.nullifierSetSize == a.nullifierSetSize
    ensures SenderSide(b) && NullifierLog(b) == NullifierLog(a)
  {
    assert NullifierLog(b) == NullifierLog(a);
  }

  // ---- What an error says about the post ----

  predicate SenderFault(st: Storage, spendings: seq<Spending>, e: Error) {
    match e
    case AssetSpent => exists i :: 0 <= i < |spendings| && spendings[i].commitment in st.nullifierCommitmentSet
    case InvalidUtxoAccumulatorOutput =>
      exists i :: 0 <= i < |spendings|
        && spendings[i].output != ZERO_OUTPUT && spendings[i].output !in st.utxoAccumulatorOutputs
    case DuplicateSpend =>
      exists i, j :: 0 <= i < j < |spendings| && spendings[i].commitment == spendings[j].commitment
    case _ => false
  }

  predicate ReceiverFault(st: Storage, items: seq<Insertion>, e: Error) {
    match e
    case AssetRegistered => exists i :: 0 <= i < |items| && items[i].utxo in st.utxoSet
    case DuplicateRegister => !DistinctUtxos(items)
    case _ => false
  }

  /** Every error names something that is wrong with the post on this storage. */
  predicate PostFault(m: AccumulatorModel, st: Storage, post: TransferPost, verdict: Verdict, e: Error) {
    match e
    case RefusedByLibrary => !verdict.accepted || !verdict.settled
    case InternalLedgerError =>
      || !OutgoingNotesDecode(post.senderPosts)
      || RegisterEach(m, SpendEach(st, post.senderPosts), post.receiverPosts).Err?
    case _ => SenderFault(st, post.senderPosts, e) || ReceiverFault(st, post.receiverPosts, e)
  }

  // ---- The calls on the ledger object ----

  method CheckSenders(ledger: Ledger.ProxyLedger, spendings: seq<Spending>) returns (r: Result<(), Error>)
    ensures r.Ok? <==> SendersAdmissible(ledger.State(), spendings)
    ensures r.Err? ==> SenderFault(ledger.State(), spendings, r.error)
  {
    for i := 0 to |spendings|
      invariant forall j :: 0 <= j < i ==>
        && (spendings[j].output == ZERO_OUTPUT || spendings[j].output in ledger.utxoAccumulatorOutputs)
        && spendings[j].commitment !in ledger.nullifierCommitmentSet
    {
      var unspent := ledger.IsUnspent(spendings[i].commitment);
      if unspent.Err? {
        return Err(Surface(unspent.error));
      }
      var matching := ledger.HasMatchingUtxoAccumulatorOutput(spendings[i].output);
      if matching.Err? {
        return Err(Surface(matching.error));
      }
    }
    if exists i, j :: 0 <= i < j < |spendings| && spendings[i].commitment == spendings[j].commitment {
      return Err(DuplicateSpend);
    }
    return Ok(());
  }

  method CheckReceivers(ledger: Ledger.ProxyLedger, items: seq<Insertion>) returns (r: Result<(), Error>)
    ensures r.Ok? <==> ReceiversAdmissible(ledger.State(), items)
    ensures r.Err? ==> ReceiverFault(ledger.State(), items, r.error)
  {
    for i := 0 to |items|
      invariant forall j :: 0 <= j < i ==> items[j].utxo !in ledger.utxoSet
    {
      var unregistered := ledger.IsNotRegistered(items[i].utxo);
      if unregistered.Err? {
        return Err(Surface(unregistered.error));
      }
    }
    if exists i, j :: 0 <= i < j < |items| && items[i].utxo == items[j].utxo {
      return Err(DuplicateRegister);
    }
    return Ok(());
  }

  /** Checks the post and changes the ledger. After an error the ledger may be half changed. */
  method PostTransaction(ledger: Ledger.ProxyLedger, post: TransferPost, verdict: Verdict) returns (r: Result<(), Error>)
    requires Inv(ledger.accumulator, ledger.State())
    modifies ledger
    ensures r.Ok? <==> Posts(ledger.accumulator, old(ledger.State()), post, verdict)
    ensures r.Ok? ==> ledger.State() == Posted(ledger.accumulator, old(ledger.State()), post)
    ensures r.Err? ==> PostFault(ledger.accumulator, old(ledger.State()), post, verdict, r.error)
  {
    hide Inv, ReceiversGood, SenderSide, Represents, WithinCapacity, ShardsContiguous;
    hide SendersAdmissible, ReceiversAdmissible, SenderFault, ReceiverFault, BatchFault, LastRoots;
    hide AddsEntries, AddsSpents, SpendEach, RegisterEach, LogsOf;
    if !verdict.accepted {
      return Err(RefusedByLibrary);
    }
    r := CheckSenders(ledger, post.senderPosts);
    if r.Err? {
      return;
    }
    r := CheckReceivers(ledger, post.receiverPosts);
    if r.Err? {
      return;
    }
    var spent := ledger.SpendAll(post.senderPosts);
    if spent.Err? {
      return Err(Surface(spent.error));
    }
    SpendingLeavesReceivers(ledger.accumulator, old(ledger.State()), post.senderPosts);
    ghost var logs := LogsOf(old(ledger.State()));
    var registered := ledger.RegisterAll(post.receiverPosts, logs);
    if registered.Err? {
      return Err(Surface(registered.error));
    }
    if !verdict.settled {
      return Err(RefusedByLibrary);
    }
    return Ok(());
  }

  lemma SpendingLeavesReceivers(m: AccumulatorModel, st: Storage, spendings: seq<Spending>)
    requires Inv(m, st)
    ensures ShardsContiguous(st)
    ensures Represents(m, SpendEach(st, spendings), LogsOf(st)) && WithinCapacity(m, LogsOf(st))
    ensures SpendEach(st, spendings).utxoAccumulatorOutputs == st.utxoAccumulatorOutputs
  {
    SpendEachTouchesSendersOnly(st, spendings);
    SameReceivers(m, st, SpendEach(st, spendings));
  }

  /** A call under `#[transactional]`: on an error the storage is put back. */
  method Dispatch(ledger: Ledger.ProxyLedger, call: Call, signed: bool) returns (r: Result<(), Error>)
    requires Inv(ledger.accumulator, ledger.State())
    modifies ledger
    ensures r.Ok? <==> Succeeds(ledger.accumulator, old(ledger.State()), call, signed)
    ensures r.Ok? <==>
      Permitted(call, signed) && Posts(ledger.accumulator, old(ledger.State()), call.post, call.verdict)
    ensures r.Err? ==> ledger.State() == old(ledger.State())
    ensures r.Err? ==> if Guard(call, signed).Some? then r.error == Guard(call, signed).value
                       else PostFault(ledger.accumulator, old(ledger.State()), call.post, call.verdict, r.error)
    ensures ledger.State() == Step(ledger.accumulator, old(ledger.State()), call, signed)
    ensures Inv(ledger.accumulator, ledger.State())
  {
    hide Inv, Posts;
    GuardIffPermitted(call, signed);
    var guard := Guard(call, signed);
    if guard.Some? {
      return Err(guard.value);
    }
    var saved := ledger.State();
    r := PostTransaction(ledger, call.post, call.verdict);
    if r.Err? {
      ledger.utxoSet, ledger.shards, ledger.shardTrees := saved.utxoSet, saved.shards, saved.shardTrees;
      ledger.utxoAccumulatorOutputs := saved.utxoAccumulatorOutputs;
      ledger.nullifierCommitmentSet := saved.nullifierCommitmentSet;
      ledger.nullifierSetInsertionOrder := saved.nullifierSetInsertionOrder;
      ledger.nullifierSetSize := saved.nullifierSetSize;
    }
  }
}
