/** Data of the shielded ledger: the values stored by the pallet, the Merkle
    accumulator reduced to an append with a capacity, and the storage itself. */
module ShieldedTypes {
  import opened Wrappers

  const FOREST_WIDTH: nat := 256

  type Byte = b: nat | b < 256
  type Bytes = seq<Byte>
  type Shard = s: nat | s < FOREST_WIDTH

  datatype Asset = Asset(id: Bytes, value: Bytes)

  datatype Utxo = Utxo(isTransparent: bool, publicAsset: Asset, commitment: Bytes)

  datatype FullIncomingNote =
    FullIncomingNote(addressPartition: Byte, incomingNote: Bytes, lightIncomingNote: Bytes)

  datatype OutgoingNote = OutgoingNote(ephemeralPublicKey: Bytes, ciphertext: Bytes)

  const DEFAULT_NOTE := FullIncomingNote(0, [], [])
  const DEFAULT_OUTGOING_NOTE := OutgoingNote([], [])

  type Leaf = Bytes
  type Output = Bytes
  type NullifierCommitment = Bytes

  /** The output that stands for "no membership proof needed". */
  const ZERO_OUTPUT: Output :=
    [0, 0, 0, 0, 0, 0, 0, 0, 0, 0, 0, 0, 0, 0, 0, 0, 0, 0, 0, 0, 0, 0, 0, 0, 0, 0, 0, 0, 0, 0, 0, 0]

  /** One position of a shard: what a wallet receives. */
  datatype Entry = Entry(utxo: Utxo, note: FullIncomingNote)

  /** One position of the nullifier log. */
  datatype Spent = Spent(commitment: NullifierCommitment, note: OutgoingNote)

  /** A UTXO on its way into the ledger. `note` is None when the note has no ledger form. */
  datatype Insertion = Insertion(utxo: Utxo, note: Option<FullIncomingNote>) {
    function ToEntry(): Entry { Entry(utxo, note.GetOr(DEFAULT_NOTE)) }
  }

  /** A nullifier on its way into the ledger, with the accumulator output it was proved against. */
  datatype Spending = Spending(output: Output, commitment: NullifierCommitment, note: Option<OutgoingNote>) {
    function ToSpent(): Spent { Spent(commitment, note.GetOr(DEFAULT_OUTGOING_NOTE)) }
  }

  datatype LedgerError =
    | AssetSpent
    | InvalidUtxoAccumulatorOutput
    | OutgoingNoteDecodeError
    | AssetRegistered
    | FullNoteDecodeError
    | MerkleTreeCapacityError

  /** The hashing the pallet takes from its libraries; nothing is assumed about the functions. */
  datatype AccumulatorModel = AccumulatorModel(
    itemHash: Utxo -> Leaf,
    treeIndex: Leaf -> Shard,
    root: seq<Leaf> -> Output,
    capacity: nat)
  {
    function Home(utxo: Utxo): Shard { treeIndex(itemHash(utxo)) }
  }

  /** `inner` stands for the stored sibling digests; they are a digest of the earlier leaves. */
  datatype CurrentPath = CurrentPath(leafIndex: nat, inner: seq<Leaf>)

  datatype UtxoMerkleTreePath = UtxoMerkleTreePath(leafDigest: Option<Leaf>, currentPath: CurrentPath)

  const DEFAULT_TREE := UtxoMerkleTreePath(None, CurrentPath(0, []))

  /** How many leaves a stored tree holds. */
  function TreeLen(tree: UtxoMerkleTreePath): nat {
    if tree.leafDigest.None? then 0 else tree.currentPath.leafIndex + 1
  }

  datatype Inserted = Inserted(tree: UtxoMerkleTreePath, root: Output)

  /** `single_path::raw::insert`: the first leaf keeps index 0, every later one adds 1. */
  function Insert(m: AccumulatorModel, tree: UtxoMerkleTreePath, leaf: Leaf): Option<Inserted> {
    if TreeLen(tree) >= m.capacity then
      None
    else
      match tree.leafDigest
      case None =>
        Some(Inserted(UtxoMerkleTreePath(Some(leaf), tree.currentPath), m.root([leaf])))
      case Some(last) =>
        var inner := tree.currentPath.inner + [last];
        Some(Inserted(UtxoMerkleTreePath(Some(leaf), CurrentPath(tree.currentPath.leafIndex + 1, inner)),
                      m.root(inner + [leaf])))
  }

  /** The storage items of the pallet. A map to unit is a set of keys. */
  datatype Storage = Storage(
    utxoSet: set<Utxo>,
    shards: map<(Shard, nat), Entry>,
    shardTrees: map<Shard, UtxoMerkleTreePath>,
    utxoAccumulatorOutputs: set<Output>,
    nullifierCommitmentSet: set<NullifierCommitment>,
    nullifierSetInsertionOrder: map<nat, Spent>,
    nullifierSetSize: nat)
  {
    function Tree(s: Shard): UtxoMerkleTreePath { if s in shardTrees then shardTrees[s] else DEFAULT_TREE }

    function ShardLen(s: Shard): nat { TreeLen(Tree(s)) }
  }

  const EMPTY_STORAGE := Storage({}, map[], map[], {}, {}, map[], 0)
}
