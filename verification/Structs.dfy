/** The node's own data types, and `Config`: everything the node takes from the crates it
    links and from its genesis file, as uninterpreted functions. */
module Structs {

  datatype Option<+T> = None | Some(value: T)

  datatype Result<+T, +E> = Ok(value: T) | Err(error: E)

  datatype Hash = Hash(bytes: seq<nat>)
  datatype TxHash = TxHash(id: nat)
  datatype PubKey = PubKey(id: nat)
  datatype Signature = Signature(bytes: seq<nat>)

  datatype NetID = Mainnet | Testnet | Custom(tag: nat)

  /** `symsStaked` counts for epochs `eStart <= epoch < ePostEnd`. */
  datatype StakeDoc = StakeDoc(pubkey: PubKey, eStart: nat, ePostEnd: nat, symsStaked: nat)

  datatype TxKind = StakeKind | OtherKind(tag: nat)

  /** `hash` stands for `hash_nosigs()`; `stakeDoc` is what decoding the data field as a
      stake document gives, None when it does not decode. */
  datatype Transaction = Transaction(hash: TxHash, kind: TxKind, stakeDoc: Option<StakeDoc>, weight: nat)

  /** `stateRoot` is the Merkle commitment to the ledger contents, `bodyHash` the one to the
      transactions and the proposer action. */
  datatype Header = Header(network: NetID, height: nat, stakesHash: Hash, stateRoot: Hash, bodyHash: Hash)

  datatype Block = Block(header: Header, transactions: seq<Transaction>)

  type ConsensusProof = map<PubKey, Signature>

  type StakeSet = map<TxHash, StakeDoc>

  /** The coin, pool and history trees of one sealed state. */
  datatype Contents = Contents(id: nat)

  datatype SealedState = SealedState(block: Block, stakes: StakeSet, contents: Contents)

  datatype UnsealedState = UnsealedState(id: nat)

  /** A confirmed block together with the proof it was confirmed with. */
  datatype Entry = Entry(block: Block, proof: ConsensusProof)

  datatype Config = Config(
    genesis: SealedState,                                 // GenesisConfig::realize().seal(None)
    genesisUnsealed: UnsealedState,                       // GenesisConfig::realize()
    epoch: nat -> nat,                                    // BlockHeight::epoch
    unlocked: (StakeDoc, nat) -> bool,                    // what StakeSet::unlock_old drops at an epoch
    docs: StakeSet -> seq<StakeDoc>,                      // StakeSet::pre_tip911().iter()
    stakesRoot: StakeSet -> Hash,                         // pre_tip911().root_hash()
    contentsRoot: Contents -> Hash,
    execute: (SealedState, Block) -> Option<Contents>,    // the part of SealedState::apply_block that is not stakes
    nextUnsealed: SealedState -> UnsealedState,           // SealedState::next_unsealed
    applyTx: (UnsealedState, Transaction) -> Option<UnsealedState>, // UnsealedState::apply_tx, None on error
    headerHash: Header -> Hash,
    verify: (PubKey, Hash, Signature) -> bool,
    blockLen: Block -> nat,                               // length of the stdcode encoding
    proofLen: ConsensusProof -> nat
  )

  /** `docs` has the document of each hash in `stakes` once, in some order. */
  ghost predicate Lists(docs: seq<StakeDoc>, stakes: StakeSet) {
    exists hashes: seq<TxHash> :: ListsBy(docs, stakes, hashes)
  }

  ghost predicate ListsBy(docs: seq<StakeDoc>, stakes: StakeSet, hashes: seq<TxHash>) {
    && |hashes| == |docs|
    && (forall i, j :: 0 <= i < j < |hashes| ==> hashes[i] != hashes[j])
    && (forall t :: t in hashes <==> t in stakes)
    && (forall i :: 0 <= i < |hashes| ==> docs[i] == stakes[hashes[i]])
  }

  /** The assumptions made about the crates. */
  ghost predicate WellFormed(cfg: Config) {
    && cfg.genesis.block.header.height == 0
    && (forall a, b :: a <= b ==> cfg.epoch(a) <= cfg.epoch(b))
    && (forall d, a, b :: a <= b && cfg.unlocked(d, a) ==> cfg.unlocked(d, b))
    && (forall s :: Lists(cfg.docs(s), s))
    && (forall c, d :: cfg.contentsRoot(c) == cfg.contentsRoot(d) ==> c == d)
    && (forall b :: cfg.blockLen(b) > 0)
  }

  function Blocks(chain: seq<Entry>): (bs: seq<Block>)
    ensures |bs| == |chain|
    ensures forall i :: 0 <= i < |chain| ==> bs[i] == chain[i].block
  {
    seq(|chain|, i requires 0 <= i < |chain| => chain[i].block)
  }

  function Proofs(chain: seq<Entry>): (ps: seq<ConsensusProof>)
    ensures |ps| == |chain|
    ensures forall i :: 0 <= i < |chain| ==> ps[i] == chain[i].proof
  {
    seq(|chain|, i requires 0 <= i < |chain| => chain[i].proof)
  }
}
