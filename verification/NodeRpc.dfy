/** The RPC side of a node: caches over the append-only store, and batches of blocks for
    syncing peers. */
module NodeRpc {
  import opened Structs
  import opened Ledger
  import opened Storage

  const MAX_BATCH: nat := 10_000_000

  /** A block with its transactions replaced by their hashes. */
  datatype AbbrBlock = AbbrBlock(header: Header, txhashes: set<TxHash>)

  function Abbreviate(b: Block): AbbrBlock {
    AbbrBlock(b.header, set tx | tx in b.transactions :: tx.hash)
  }

  /** The block's header and the hashes of all its transactions, whatever their kind. */
  ghost predicate Abbreviates(b: Block, abbr: AbbrBlock) {
    abbr.header == b.header && forall h :: h in abbr.txhashes <==> exists tx :: tx in b.transactions && tx.hash == h
  }

  lemma AbbreviatesAll(b: Block)
    ensures Abbreviates(b, Abbreviate(b))
  {
  }

  datatype StateSummary = StateSummary(netid: NetID, height: nat, header: Header, proof: ConsensusProof)

  /** The summary a cache-free read gives at a height: the header with its own proof, and an
      empty proof at genesis. */
  function SummaryAt(cfg: Config, netid: NetID, chain: seq<Entry>, height: nat): StateSummary
    requires height <= |chain|
  {
    if height == 0 then StateSummary(netid, 0, cfg.genesis.block.header, map[])
    else StateSummary(netid, height, chain[height - 1].block.header, chain[height - 1].proof)
  }

  function TxMapping(b: Block): map<TxHash, Transaction> {
    MapTxs(b.transactions)
  }

  /** Inserting each transaction under its hash, in order. */
  function MapTxs(txs: seq<Transaction>): map<TxHash, Transaction> {
    if |txs| == 0 then map[]
    else MapTxs(txs[..|txs| - 1])[txs[|txs| - 1].hash := txs[|txs| - 1]]
  }

  /** Under every hash of the transactions the last one with that hash, and nothing else. */
  ghost predicate MapsByHash(txs: seq<Transaction>, mapping: map<TxHash, Transaction>) {
    forall h :: FindsLast(txs, h, if h in mapping then Some(mapping[h]) else None)
  }

  ghost predicate FindsLast(txs: seq<Transaction>, h: TxHash, found: Option<Transaction>) {
    if exists tx :: tx in txs && tx.hash == h then
      exists i :: 0 <= i < |txs| && txs[i].hash == h && found == Some(txs[i])
               && forall j :: i < j < |txs| ==> txs[j].hash != h
    else found == None
  }

  /** The mapping of a block finds exactly its transactions. */
  lemma {:induction false} MappingFinds(txs: seq<Transaction>, h: TxHash)
    ensures FindsLast(txs, h, if h in MapTxs(txs) then Some(MapTxs(txs)[h]) else None)
  {
    if |txs| > 0 {
      var front, last := txs[..|txs| - 1], txs[|txs| - 1];
      MappingFinds(front, h);
      assert txs == front + [last];
      if last.hash != h && exists tx :: tx in front && tx.hash == h {
        var i :| 0 <= i < |front| && front[i].hash == h && MapTxs(front)[h] == front[i]
              && forall j :: i < j < |front| ==> front[j].hash != h;
        assert txs[i] == front[i];
      }
    }
  }

  lemma BlockMapping(b: Block)
    ensures MapsByHash(b.transactions, TxMapping(b))
  {
    forall h ensures FindsLast(b.transactions, h, if h in TxMapping(b) then Some(TxMapping(b)[h]) else None) {
      MappingFinds(b.transactions, h);
    }
    hide FindsLast, MapTxs;
  }

  /** Encoded size of blocks with their proofs. */
  function RunSize(cfg: Config, run: seq<Entry>): nat {
    if |run| == 0 then 0
    else RunSize(cfg, run[..|run| - 1]) + cfg.blockLen(run[|run| - 1].block) + cfg.proofLen(run[|run| - 1].proof)
  }

  /** The size adds up block and proof of every entry. */
  lemma {:induction false} SizeOfAll(cfg: Config, run: seq<Entry>, e: Entry)
    ensures RunSize(cfg, [e] + run) == cfg.blockLen(e.block) + cfg.proofLen(e.proof) + RunSize(cfg, run)
  {
    var all := [e] + run;
    if |run| == 0 {
      assert all[..0] == [] && all[0] == e;
    } else {
      assert all[..|run|] == [e] + run[..|run| - 1];
      SizeOfAll(cfg, run[..|run| - 1], e);
    }
  }

  /** The entries with heights `start` to `start + n - 1`. */
  function RunFrom(chain: seq<Entry>, start: nat, n: nat): seq<Entry>
    requires 1 <= start && start - 1 + n <= |chain|
  {
    chain[start - 1..start - 1 + n]
  }

  /** What a batch promises about the chain it was read from: a non-empty run of blocks from
      `start`, each with its own proof at the same index and at most one proof to spare, within
      the limit unless it is a single block, and no shorter than the limit and the first `known`
      blocks force it to be. */
  ghost predicate GreedyBatch(cfg: Config, chain: seq<Entry>, known: nat, start: nat, limit: nat,
                              blocks: seq<Block>, proofs: seq<ConsensusProof>) {
    var n := |blocks|;
    && n >= 1 && start >= 1 && start - 1 + |proofs| <= |chain| && n <= |proofs| <= n + 1
    && blocks == Blocks(RunFrom(chain, start, n))
    && proofs == Proofs(RunFrom(chain, start, |proofs|))
    && (n > 1 ==> RunSize(cfg, RunFrom(chain, start, n)) <= limit)
    && (start + n <= known ==> start + n <= |chain| && RunSize(cfg, RunFrom(chain, start, n + 1)) > limit)
  }

  /** Blocks from height `start` on, at least one, and their proofs at the same places. */
  ghost predicate Aligned(chain: seq<Entry>, start: nat, blocks: seq<Block>, proofs: seq<ConsensusProof>) {
    && 1 <= start && 1 <= |blocks| <= |proofs| <= |blocks| + 1 && start - 1 + |proofs| <= |chain|
    && (forall i :: 0 <= i < |blocks| ==> blocks[i] == chain[start - 1 + i].block)
    && (forall i :: 0 <= i < |proofs| ==> proofs[i] == chain[start - 1 + i].proof)
  }

  lemma BatchAligned(cfg: Config, chain: seq<Entry>, known: nat, start: nat, limit: nat,
                     blocks: seq<Block>, proofs: seq<ConsensusProof>)
    requires GreedyBatch(cfg, chain, known, start, limit, blocks, proofs)
    ensures Aligned(chain, start, blocks, proofs)
  {
  }

  lemma RunOneMore(cfg: Config, chain: seq<Entry>, start: nat, n: nat)
    requires 1 <= start && start + n <= |chain|
    ensures var e := chain[start - 1 + n];
            && RunFrom(chain, start, n + 1) == RunFrom(chain, start, n) + [e]
            && RunSize(cfg, RunFrom(chain, start, n + 1))
               == RunSize(cfg, RunFrom(chain, start, n)) + cfg.blockLen(e.block) + cfg.proofLen(e.proof)
            && Blocks(RunFrom(chain, start, n + 1)) == Blocks(RunFrom(chain, start, n)) + [e.block]
            && Proofs(RunFrom(chain, start, n + 1)) == Proofs(RunFrom(chain, start, n)) + [e.proof]
  {
    assert RunFrom(chain, start, n + 1)[..n] == RunFrom(chain, start, n);
  }

  /** The accumulators of get_lz4_blocks between two rounds. */
  ghost predicate Accumulated(cfg: Config, chain: seq<Entry>, known: nat, start: nat, limit: nat,
                              blocks: seq<Block>, proofs: seq<ConsensusProof>, total: nat) {
    if |proofs| == 0 then blocks == [] && total == 0
    else
      && start >= 1 && start - 1 + |proofs| <= |chain|
      && proofs == Proofs(RunFrom(chain, start, |proofs|))
      && total == RunSize(cfg, RunFrom(chain, start, |proofs|))
      && if total <= limit then blocks == Blocks(RunFrom(chain, start, |proofs|))
         else GreedyBatch(cfg, chain, known, start, limit, blocks, proofs)
  }

  lemma AccumulatedGrows(cfg: Config, chain: seq<Entry>, longer: seq<Entry>, known: nat, start: nat, limit: nat,
                         blocks: seq<Block>, proofs: seq<ConsensusProof>, total: nat)
    requires chain <= longer && total <= limit
    requires Accumulated(cfg, chain, known, start, limit, blocks, proofs, total)
    ensures Accumulated(cfg, longer, known, start, limit, blocks, proofs, total)
  {
    if |proofs| > 0 {
      assert RunFrom(chain, start, |proofs|) == RunFrom(longer, start, |proofs|);
    }
  }

  /** One round: the next entry joins, and once the limit is passed its block leaves again
      unless it is the only one. */
  lemma AccumulateOne(cfg: Config, chain: seq<Entry>, known: nat, start: nat, limit: nat,
                      blocks: seq<Block>, proofs: seq<ConsensusProof>, total: nat, e: Entry)
    requires total <= limit && start >= 1 && start + |proofs| <= |chain| && known <= |chain|
    requires e == chain[start - 1 + |proofs|]
    requires Accumulated(cfg, chain, known, start, limit, blocks, proofs, total)
    ensures var total' := total + cfg.blockLen(e.block) + cfg.proofLen(e.proof);
            var blocks' := if total' > limit && |blocks| > 0 then blocks else blocks + [e.block];
            Accumulated(cfg, chain, known, start, limit, blocks', proofs + [e.proof], total')
  {
    var n := |proofs|;
    EmptyRun(cfg, chain, start);
    RunOneMore(cfg, chain, start, n);
    hide Blocks, Proofs, RunFrom, RunSize;
    if total + cfg.blockLen(e.block) + cfg.proofLen(e.proof) <= limit {
    } else if n > 0 {
      assert GreedyBatch(cfg, chain, known, start, limit, blocks, proofs + [e.proof]);
    } else {
      if start + 1 <= |chain| {
        RunOneMore(cfg, chain, start, 1);
      }
      assert GreedyBatch(cfg, chain, known, start, limit, [e.block], [e.proof]);
    }
  }

  lemma EmptyRun(cfg: Config, chain: seq<Entry>, start: nat)
    requires 1 <= start <= |chain|
    ensures RunFrom(chain, start, 0) == [] && RunSize(cfg, []) == 0
    ensures Blocks([]) == [] && Proofs([]) == []
  {
  }

  lemma AccumulatedIsGreedy(cfg: Config, chain: seq<Entry>, known: nat, start: nat, limit: nat,
                            blocks: seq<Block>, proofs: seq<ConsensusProof>, total: nat)
    requires Accumulated(cfg, chain, known, start, limit, blocks, proofs, total) && |proofs| > 0
    requires total > limit || start + |proofs| > known
    ensures start >= 1 && GreedyBatch(cfg, chain, known, start, limit, blocks, proofs)
  {
  }

  method BuildMapping(txs: seq<Transaction>) returns (mapping: map<TxHash, Transaction>)
    ensures mapping == MapTxs(txs)
  {
    mapping := map[];
    for i := 0 to |txs|
      invariant mapping == MapTxs(txs[..i])
    {
      assert txs[..i + 1][..i] == txs[..i];
      mapping := mapping[txs[i].hash := txs[i]];
    }
    assert txs[..|txs|] == txs;
  }

  /** get_lz4_blocks up to the encoding: blocks and proofs from `start` on, until the limit is
      passed or the store has no more. */
  method CollectBatch(storage: Storage, start: nat, sizeLimit: nat)
    returns (res: Option<(seq<Block>, seq<ConsensusProof>)>)
    requires storage.Valid()
    modifies storage
    ensures storage.Valid() && old(storage.chain) <= storage.chain
    ensures res.None? ==> !(1 <= start <= |old(storage.chain)|)
    ensures res.Some? ==> 1 <= start <= |storage.chain|
    ensures res.Some? ==>
              GreedyBatch(storage.cfg, storage.chain, |old(storage.chain)|, start,
                          if sizeLimit < 10_000_000 then sizeLimit else 10_000_000, res.value.0, res.value.1)
  {
    hide StoreInv;
    WellFormedStore(storage.cfg, storage.chain, storage.db, storage.forest, storage.oldCache);
    assert forall b :: storage.cfg.blockLen(b) > 0;
    var limit := if sizeLimit < MAX_BATCH then sizeLimit else MAX_BATCH;
    ghost var known := |storage.chain|;
    var total := 0;
    var accum: seq<Block> := [];
    var proofAccum: seq<ConsensusProof> := [];
    var height := start;
    assert Accumulated(storage.cfg, storage.chain, known, start, limit, accum, proofAccum, total);
    hide *;
    while total <= limit
      invariant storage.Valid() && old(storage.chain) <= storage.chain
      invariant height == start + |proofAccum| && (|proofAccum| > 0 ==> 1 <= start <= |storage.chain|)
      invariant (|accum| == 0 <==> |proofAccum| == 0) && (|proofAccum| == 0 ==> total == 0)
      invariant Accumulated(storage.cfg, storage.chain, known, start, limit, accum, proofAccum, total)
      decreases limit + 1 - total
    {
      ghost var before := storage.chain;
      var block := storage.GetBlock(height, false);
      if block.Some? {
        var proof := storage.GetConsensus(height);
        AccumulatedGrows(storage.cfg, before, storage.chain, known, start, limit, accum, proofAccum, total);
        match proof {
          case Some(p) =>
            AccumulateOne(storage.cfg, storage.chain, known, start, limit, accum, proofAccum, total,
                Entry(block.value, p));
            total := total + storage.cfg.blockLen(block.value);
            total := total + storage.cfg.proofLen(p);
            assert (accum + [block.value])[..|accum|] == accum;
            accum := accum + [block.value];
            proofAccum := proofAccum + [p];
            if total > limit {
              if |accum| > 1 {
                accum := accum[..|accum| - 1];
              }
            }
            height := height + 1;
          case None =>
            assert false;
        }
      } else if |accum| == 0 {
        return None;
      } else {
        AccumulatedGrows(storage.cfg, before, storage.chain, known, start, limit, accum, proofAccum, total);
        break;
      }
    }
    AccumulatedIsGreedy(storage.cfg, storage.chain, known, start, limit, accum, proofAccum, total);
    return Some((accum, proofAccum));
  }

  /** The three caches of a node. */
  datatype Caches = Caches(
    abbrBlocks: map<nat, (AbbrBlock, ConsensusProof)>,
    summaries: map<nat, StateSummary>,
    coinTrees: map<nat, map<TxHash, Transaction>>
  )

  /** Every cached value is the one a cache-free read of the store gives. */
  ghost predicate CachesAgree(cfg: Config, netid: NetID, chain: seq<Entry>, c: Caches) {
    && (forall h :: h in c.abbrBlocks ==>
          1 <= h <= |chain| && c.abbrBlocks[h] == (Abbreviate(chain[h - 1].block), chain[h - 1].proof))
    && (forall h :: h in c.summaries ==> h <= |chain| && c.summaries[h] == SummaryAt(cfg, netid, chain, h))
    && (forall h :: h in c.coinTrees ==> 1 <= h <= |chain| && c.coinTrees[h] == TxMapping(chain[h - 1].block))
  }

  lemma CachesGrow(cfg: Config, netid: NetID, chain: seq<Entry>, longer: seq<Entry>, c: Caches)
    requires CachesAgree(cfg, netid, chain, c) && chain <= longer
    ensures CachesAgree(cfg, netid, longer, c)
  {
  }

  lemma CacheHits(cfg: Config, netid: NetID, chain: seq<Entry>, c: Caches, h: nat)
    requires CachesAgree(cfg, netid, chain, c)
    ensures h in c.abbrBlocks ==>
              1 <= h <= |chain| && c.abbrBlocks[h] == (Abbreviate(chain[h - 1].block), chain[h - 1].proof)
    ensures h in c.summaries ==> h <= |chain| && c.summaries[h] == SummaryAt(cfg, netid, chain, h)
    ensures h in c.coinTrees ==> 1 <= h <= |chain| && c.coinTrees[h] == TxMapping(chain[h - 1].block)
  {
  }

  lemma CacheFills(cfg: Config, netid: NetID, chain: seq<Entry>, c: Caches, h: nat)
    requires CachesAgree(cfg, netid, chain, c) && h <= |chain|
    ensures CachesAgree(cfg, netid, chain, c.(summaries := c.summaries[h := SummaryAt(cfg, netid, chain, h)]))
    ensures h > 0 ==>
              var (block, proof) := (chain[h - 1].block, chain[h - 1].proof);
              && CachesAgree(cfg, netid, chain, c.(abbrBlocks := c.abbrBlocks[h := (Abbreviate(block), proof)]))
              && CachesAgree(cfg, netid, chain, c.(coinTrees := c.coinTrees[h := TxMapping(block)]))
  {
  }

  class NodeRpc {
    const network: NetID
    const storage: Storage
    var caches: Caches

    ghost predicate Valid()
      reads this, storage
    {
      storage.Valid() && CachesAgree(storage.cfg, network, storage.chain, caches)
    }

    constructor (network: NetID, storage: Storage)
      requires storage.Valid()
      ensures Valid() && this.network == network && this.storage == storage
    {
      this.network := network;
      this.storage := storage;
      caches := Caches(map[], map[], map[]);
    }

    /** While this handler waits, others fill the caches and the caches drop what they like.
        Callers rely on this contract alone. */
    method OtherHandlers()
      requires Valid()
      modifies this
      ensures Valid()
    {
    }

    method GetAbbrBlock(height: nat) returns (res: Option<(AbbrBlock, ConsensusProof)>)
      requires Valid()
      modifies this, storage
      ensures Valid() && old(storage.chain) <= storage.chain
      ensures res.None? ==> !(1 <= height <= |old(storage.chain)|)
      ensures res.Some? ==>
                && 1 <= height <= |storage.chain|
                && res.value == (Abbreviate(storage.chain[height - 1].block), storage.chain[height - 1].proof)
      ensures res.Some? ==>
                Abbreviates(storage.chain[height - 1].block, res.value.0)
    {
      forall b: Block ensures Abbreviates(b, Abbreviate(b)) {
        AbbreviatesAll(b);
      }
      hide StoreInv, CachesAgree, Abbreviate;
      CacheHits(storage.cfg, network, storage.chain, caches, height);
      ghost var before := storage.chain;
      if height in caches.abbrBlocks {
        return Some(caches.abbrBlocks[height]);
      }
      var block := storage.GetBlock(height, false);
      if block.None? {
        CachesGrow(storage.cfg, network, before, storage.chain, caches);
        OtherHandlers();
        return None;
      }
      var proof := storage.GetConsensus(height);
      CachesGrow(storage.cfg, network, before, storage.chain, caches);
      OtherHandlers();
      if proof.None? {
        return None;
      }
      CacheFills(storage.cfg, network, storage.chain, caches, height);
      var summ := (Abbreviate(block.value), proof.value);
      caches := caches.(abbrBlocks := caches.abbrBlocks[height := summ]);
      return Some(summ);
    }

    /** The summary of a state that was the highest at some time during the call. */
    method GetSummary() returns (res: StateSummary)
      requires Valid()
      modifies this, storage
      ensures Valid() && old(storage.chain) <= storage.chain
      ensures |old(storage.chain)| <= res.height <= |storage.chain|
      ensures res == SummaryAt(storage.cfg, network, storage.chain, res.height)
      ensures res.netid == network && res.header.height == res.height
      ensures res.height == 0 ==> res.header == storage.cfg.genesis.block.header && res.proof == map[]
      ensures res.height > 0 ==> res.header == storage.chain[res.height - 1].block.header
      ensures res.height > 0 ==> res.proof == storage.chain[res.height - 1].proof
    {
      hide StoreInv, StateAt, CachesAgree;
      ghost var before := storage.chain;
      var highest, height := storage.HighestState(false);
      HeaderAt(storage.cfg, storage.chain, storage.db, storage.forest, storage.oldCache, height);
      var header := highest.block.header;
      CachesGrow(storage.cfg, network, before, storage.chain, caches);
      OtherHandlers();
      CacheHits(storage.cfg, network, storage.chain, caches, header.height);
      before := storage.chain;
      if header.height in caches.summaries {
        return caches.summaries[header.height];
      }
      var found := storage.GetConsensus(header.height);
      var proof := if found.Some? then found.value else map[];
      res := StateSummary(network, header.height, header, proof);
      CachesGrow(storage.cfg, network, before, storage.chain, caches);
      OtherHandlers();
      CacheFills(storage.cfg, network, storage.chain, caches, header.height);
      caches := caches.(summaries := caches.summaries[header.height := res]);
    }

    /** The transactions of a block by hash, None for an unconfirmed height. */
    method GetCoinTree(height: nat) returns (res: Option<map<TxHash, Transaction>>)
      requires Valid()
      modifies this, storage
      ensures Valid() && old(storage.chain) <= storage.chain
      ensures res.None? ==> !(1 <= height <= |old(storage.chain)|)
      ensures res.Some? ==> 1 <= height <= |storage.chain| && res.value == TxMapping(storage.chain[height - 1].block)
      ensures res.Some? ==> MapsByHash(storage.chain[height - 1].block.transactions, res.value)
    {
      forall b: Block ensures MapsByHash(b.transactions, TxMapping(b)) {
        BlockMapping(b);
      }
      hide MapsByHash, TxMapping;
      hide StoreInv, StateAt, MapTxs, CachesAgree;
      CacheHits(storage.cfg, network, storage.chain, caches, height);
      ghost var before := storage.chain;
      if height in caches.coinTrees {
        return Some(caches.coinTrees[height]);
      }
      var state := storage.GetState(height, false);
      CachesGrow(storage.cfg, network, before, storage.chain, caches);
      OtherHandlers();
      if state.None? {
        return None;
      }
      HeaderAt(storage.cfg, storage.chain, storage.db, storage.forest, storage.oldCache, height);
      var mapping := BuildMapping(state.value.block.transactions);
      CacheFills(storage.cfg, network, storage.chain, caches, height);
      caches := caches.(coinTrees := caches.coinTrees[height := mapping]);
      return Some(mapping);
    }

    method GetBatch(start: nat, sizeLimit: nat) returns (res: Option<(seq<Block>, seq<ConsensusProof>)>)
      requires Valid()
      modifies storage
      ensures Valid() && old(storage.chain) <= storage.chain
      ensures res.None? ==> !(1 <= start <= |old(storage.chain)|)
      ensures res.Some? ==> 1 <= start <= |storage.chain|
      ensures res.Some? ==>
                GreedyBatch(storage.cfg, storage.chain, |old(storage.chain)|, start,
                            if sizeLimit < 10_000_000 then sizeLimit else 10_000_000, res.value.0, res.value.1)
      ensures res.Some? ==> Aligned(storage.chain, start, res.value.0, res.value.1)
    {
      hide StoreInv, CachesAgree, GreedyBatch, Aligned;
      ghost var before := storage.chain;
      res := CollectBatch(storage, start, sizeLimit);
      if res.Some? {
        BatchAligned(storage.cfg, storage.chain, |before|, start,
                     if sizeLimit < MAX_BATCH then sizeLimit else MAX_BATCH,
                     res.value.0, res.value.1);
      }
      CachesGrow(storage.cfg, network, before, storage.chain, caches);
    }
  }

  lemma HeaderAt(cfg: Config, chain: seq<Entry>, db: Db, forest: Forest, cache: map<nat, Block>, height: nat)
    requires StoreInv(cfg, chain, db, forest, cache) && height <= |chain|
    ensures StateAt(cfg, Blocks(chain)[..height]).Some?
    ensures StateAt(cfg, Blocks(chain)[..height]).value.block
         == if height == 0 then cfg.genesis.block else chain[height - 1].block
    ensures StateAt(cfg, Blocks(chain)[..height]).value.block.header.height == height
  {
    TipFacts(cfg, chain, db, forest, cache);
    ReplayPrefix(cfg, Blocks(chain), height);
    ReplayFacts(cfg, Blocks(chain)[..height]);
  }

  lemma WellFormedStore(cfg: Config, chain: seq<Entry>, db: Db, forest: Forest, cache: map<nat, Block>)
    requires StoreInv(cfg, chain, db, forest, cache)
    ensures WellFormed(cfg)
  {
  }
}
