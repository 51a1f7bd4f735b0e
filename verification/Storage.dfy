/** The store as the rest of the node uses it. */
module Storage {
  import opened Structs
  import opened Quorum
  import opened Stakes
  import opened Ledger
  import M = Mempool

  datatype ApplyError = WrongHeight | InsufficientVotes | InvalidBlock | DatabaseConflict

  /** The inserts for the first `n` transactions of a block. */
  function InsertUpTo(table: StakeTable, header: Header, txs: seq<Transaction>, n: nat): Option<StakeTable>
    requires n <= |txs|
  {
    InsertStakes(table, AcceptedStakes(header, txs[..n]), header.height)
  }

  function InsertTx(table: StakeTable, header: Header, tx: Transaction): Option<StakeTable> {
    if BecomesStake(header, tx) then
      if tx.hash in table then None else Some(table[tx.hash := StakeRow(header.height, tx.stakeDoc.value)])
    else Some(table)
  }

  lemma InsertOneMore(table: StakeTable, header: Header, txs: seq<Transaction>, n: nat)
    requires n < |txs|
    ensures InsertUpTo(table, header, txs, n + 1)
         == match InsertUpTo(table, header, txs, n)
            case None => None
            case Some(t) => InsertTx(t, header, txs[n])
  {
    assert txs[..n + 1][..n] == txs[..n];
    var news := AcceptedStakes(header, txs[..n]);
    var one := StakeOfTx(header, txs[n]);
    if |one| == 0 {
      assert news + one == news;
    } else {
      assert (news + one)[..|news|] == news;
    }
  }

  lemma {:induction false} FailedInsertStaysFailed(table: StakeTable, header: Header, txs: seq<Transaction>, n: nat)
    requires n <= |txs| && InsertUpTo(table, header, txs, n).None?
    ensures InsertUpTo(table, header, txs, |txs|).None?
    decreases |txs| - n
  {
    if n < |txs| {
      InsertOneMore(table, header, txs, n);
      FailedInsertStaysFailed(table, header, txs, n + 1);
    }
  }

  /** The insert loop over a block's transactions; None rolls the SQL transaction back. */
  method InsertStakeRows(start: StakeTable, header: Header, txs: seq<Transaction>) returns (res: Option<StakeTable>)
    ensures res == InsertStakes(start, AcceptedStakes(header, txs), header.height)
  {
    var table := start;
    assert txs[..|txs|] == txs;
    assert InsertUpTo(start, header, txs, 0) == Some(start);
    assert InsertUpTo(start, header, txs, |txs|) == InsertStakes(start, AcceptedStakes(header, txs), header.height);
    hide InsertUpTo, InsertStakes, AcceptedStakes, StakeOfTx;
    for i := 0 to |txs|
      invariant InsertUpTo(start, header, txs, i) == Some(table)
    {
      var tx := txs[i];
      InsertOneMore(start, header, txs, i);
      if tx.kind == StakeKind && tx.stakeDoc.Some? {
        if header.height >= 500000 || header.network != Mainnet {
          if tx.hash in table {
            FailedInsertStaysFailed(start, header, txs, i + 1);
            return None;
          }
          table := table[tx.hash := StakeRow(header.height, tx.stakeDoc.value)];
        }
      }
    }
    res := Some(table);
  }

  /** The genesis stakes, inserted with "on conflict do nothing". */
  method InsertGenesis(start: StakeTable, genesis: StakeSet) returns (table: StakeTable)
    ensures table == GenesisTable(genesis) + start
  {
    table := start;
    var todo := genesis.Keys;
    while todo != {}
      invariant todo <= genesis.Keys
      invariant table.Keys == start.Keys + (genesis.Keys - todo)
      invariant forall t :: t in table ==> table[t] == if t in start then start[t] else StakeRow(0, genesis[t])
      decreases |todo|
    {
      var t :| t in todo;
      if t !in table {
        table := table[t := StakeRow(0, genesis[t])];
      }
      todo := todo - {t};
    }
  }

  /** `add_stake` for each stake of a map, in whatever order they come. */
  method AddEach(start: StakeSet, more: StakeSet) returns (stakes: StakeSet)
    ensures stakes == start + more
  {
    stakes := start;
    var todo := more.Keys;
    while todo != {}
      invariant todo <= more.Keys
      invariant stakes.Keys == start.Keys + (more.Keys - todo)
      invariant forall t :: t in stakes ==> stakes[t] == if t in more && t !in todo then more[t] else start[t]
      decreases |todo|
    {
      var t :| t in todo;
      stakes := stakes[t := more[t]];
      todo := todo - {t};
    }
  }

  /** The body of get_stakeset. */
  method RebuildStakes(cfg: Config, table: StakeTable, height: nat) returns (stakes: StakeSet)
    ensures stakes == BatchStakes(cfg, table, height)
  {
    stakes := AddEach(map[], cfg.genesis.stakes);
    assert map[] + cfg.genesis.stakes == cfg.genesis.stakes;
    stakes := AddEach(stakes, RowsUpTo(table, height));
    stakes := Unlock(cfg, stakes, cfg.epoch(height));
  }

  /** The database holds exactly the committed chain, every block of which passed the checks
      of apply_block; its nodes are stored; the cache agrees with it. */
  ghost predicate StoreInv(cfg: Config, chain: seq<Entry>, db: Db, forest: Forest, cache: map<nat, Block>) {
    && WellFormed(cfg)
    && ValidChain(cfg, AsCoded, chain)
    && TableAt(cfg, Blocks(chain)).Some? && db == DbOf(cfg, chain)
    && Sound(cfg, forest) && Covers(forest, Blocks(chain))
    && (forall h :: h in cache ==> 1 <= h <= |chain| && cache[h] == chain[h - 1].block)
  }

  /** What a reader finds at a height. */
  lemma ReadsAgree(cfg: Config, chain: seq<Entry>, db: Db, forest: Forest, cache: map<nat, Block>, h: nat)
    requires StoreInv(cfg, chain, db, forest, cache)
    ensures h in cache ==> 1 <= h <= |chain| && cache[h] == chain[h - 1].block
    ensures h in db.history <==> 1 <= h <= |chain|
    ensures h in db.proofs <==> 1 <= h <= |chain|
    ensures h in db.history ==>
              && db.history[h] == chain[h - 1].block && db.proofs[h] == chain[h - 1].proof
  {
    TablesHold(chain, h);
  }

  lemma CacheFill(cfg: Config, chain: seq<Entry>, db: Db, forest: Forest, cache: map<nat, Block>, h: nat)
    requires StoreInv(cfg, chain, db, forest, cache) && 1 <= h <= |chain|
    ensures StoreInv(cfg, chain, db, forest, cache[h := chain[h - 1].block])
  {
    hide ValidChain, TableAt, HistoryOf, ProofsOf;
  }

  /** A block read while the chain was `seen`, stake rows read at `later` and nodes read at
      `final` fit together: the stake-root assertion holds and the state is the replayed one. */
  lemma ReadsFit(cfg: Config, seen: seq<Entry>, later: seq<Entry>, db: Db, final: seq<Entry>, forest: Forest,
                 height: nat)
    requires seen <= later <= final && 1 <= height <= |seen|
    requires exists f, c :: StoreInv(cfg, later, db, f, c)
    requires exists d, c :: StoreInv(cfg, final, d, forest, c)
    ensures FromBlock(cfg, seen[height - 1].block, BatchStakes(cfg, db.stakes, height), forest)
         == StateAt(cfg, Blocks(final)[..height])
    ensures StateAt(cfg, Blocks(final)[..height]).Some?
  {
    hide ValidChain, FromBlock, BatchStakes, StateAt, TableAt;
    BlocksGrow(later, final);
    ValidChainReplays(cfg, AsCoded, final);
    ValidChainReplays(cfg, AsCoded, later);
    assert Blocks(later)[..height] == Blocks(final)[..height];
    ReconstructionIsReplay(cfg, Blocks(final), TableAt(cfg, Blocks(later)).value, Blocks(later), forest, height);
  }

  class Storage {
    const cfg: Config
    const mempool: M.Mempool
    var db: Db
    var forest: Forest
    var oldCache: map<nat, Block>
    /** What has been committed, in order. */
    ghost var chain: seq<Entry>

    ghost predicate Valid()
      reads this
    {
      mempool.cfg == cfg && StoreInv(cfg, chain, db, forest, oldCache)
    }

    /** Open the files of a node whose committed chain is `stored`. A first opening finds no
        blocks and, after a crash half way through an earlier one, perhaps some genesis rows. */
    constructor Open(cfg: Config, disk: Db, merkle: Forest, ghost stored: seq<Entry>)
      requires WellFormed(cfg) && ValidChain(cfg, AsCoded, stored)
      requires TableAt(cfg, Blocks(stored)).Some?
      requires disk.history == HistoryOf(stored) && disk.proofs == ProofsOf(stored)
      requires disk.stakes == TableAt(cfg, Blocks(stored)).value
            || (stored == [] && forall t :: t in disk.stakes ==>
                  t in cfg.genesis.stakes && disk.stakes[t] == StakeRow(0, cfg.genesis.stakes[t]))
      requires Sound(cfg, merkle) && Covers(merkle, Blocks(stored))
      ensures Valid() && fresh(mempool) && this.cfg == cfg && chain == stored && oldCache == map[]
      ensures mempool.View() == M.NewPool(cfg.genesisUnsealed)
    {
      hide StoreInv, Sound, Covers, ValidChain, WellFormed;
      var table := InsertGenesis(disk.stakes, cfg.genesis.stakes);
      StoredTable(cfg, stored, disk.stakes);
      OpenedStore(cfg, disk.(stakes := table), merkle, stored);
      var pool := new M.Mempool(cfg, cfg.genesisUnsealed);
      this.cfg := cfg;
      this.mempool := pool;
      db := disk.(stakes := table);
      forest := merkle;
      oldCache := map[];
      chain := stored;
    }

    /** An await: other tasks may run. They may commit blocks unless the caller holds the
        writer lock, insert Merkle nodes, and fill or evict the cache. Callers rely on this
        contract alone. That the lock keeps the chain still supposes that no transaction runs
        on alone after its call was dropped (`StoreMachine.OrphanCommit` needs no lock), and
        so do the exact error cases of ApplyBlock. Other tasks also add transactions to the
        mempool; here nobody does. */
    method Yield(ghost locked: bool)
      requires Valid()
      modifies this
      ensures Valid() && old(chain) <= chain && (locked ==> chain == old(chain))
    {
    }

    method HighestHeight() returns (height: nat)
      requires Valid()
      ensures height == |chain|
    {
      hide StoreInv;
      forall h: nat {
        ReadsAgree(cfg, chain, db, forest, oldCache, h);
      }
      height := 0;
      var todo := db.history.Keys;
      while todo != {}
        invariant todo <= db.history.Keys
        invariant height == 0 || height in db.history
        invariant forall h :: h in db.history && h !in todo ==> h <= height
        decreases |todo|
      {
        var h :| h in todo;
        if h > height {
          height := h;
        }
        todo := todo - {h};
      }
      assert |chain| > 0 ==> |chain| in db.history;
    }

    method GetBlock(height: nat, ghost locked: bool) returns (res: Option<Block>)
      requires Valid()
      modifies this
      ensures Valid() && old(chain) <= chain && (locked ==> chain == old(chain))
      ensures res.None? ==> !(1 <= height <= |old(chain)|)
      ensures res.Some? ==> 1 <= height <= |chain| && res.value == chain[height - 1].block
    {
      hide StoreInv;
      ReadsAgree(cfg, chain, db, forest, oldCache, height);
      if height in oldCache {
        return Some(oldCache[height]);
      }
      Yield(locked);
      ReadsAgree(cfg, chain, db, forest, oldCache, height);
      res := if height in db.history then Some(db.history[height]) else None;
      if res.Some? {
        CacheFill(cfg, chain, db, forest, oldCache, height);
        oldCache := oldCache[height := res.value];
      }
    }

    method GetConsensus(height: nat) returns (res: Option<ConsensusProof>)
      requires Valid()
      modifies this
      ensures Valid() && old(chain) <= chain
      ensures res.None? ==> !(1 <= height <= |old(chain)|)
      ensures res.Some? ==> 1 <= height <= |chain| && res.value == chain[height - 1].proof
    {
      hide StoreInv;
      Yield(false);
      ReadsAgree(cfg, chain, db, forest, oldCache, height);
      res := if height in db.proofs then Some(db.proofs[height]) else None;
    }

    /** The block, the stake rows and the Merkle nodes are read at three different times; the
        state is the replayed one all the same, and the stake-root assertion holds. */
    method GetState(height: nat, ghost locked: bool) returns (res: Option<SealedState>)
      requires Valid()
      modifies this
      ensures Valid() && old(chain) <= chain && (locked ==> chain == old(chain))
      ensures res.None? ==> !(1 <= height <= |old(chain)|)
      ensures res.Some? ==> 1 <= height <= |chain| && res == StateAt(cfg, Blocks(chain)[..height])
    {
      hide StoreInv;
      var block := GetBlock(height, locked);
      if block.None? {
        return None;
      }
      ghost var seen := chain;
      Yield(locked);
      var stakes := RebuildStakes(cfg, db.stakes, height);
      ghost var later, rows := chain, db;
      Yield(locked);
      ReadsFit(cfg, seen, later, rows, chain, forest, height);
      assert cfg.stakesRoot(stakes) == block.value.header.stakesHash;
      res := Some(SealedState(block.value, stakes, forest[block.value.header.stateRoot]));
    }

    /** The state at some height that was the highest during the call. */
    method HighestState(ghost locked: bool) returns (s: SealedState, ghost height: nat)
      requires Valid()
      modifies this
      ensures Valid() && old(chain) <= chain && (locked ==> chain == old(chain))
      ensures |old(chain)| <= height <= |chain| && StateAt(cfg, Blocks(chain)[..height]) == Some(s)
    {
      hide StoreInv;
      var h := HighestHeight();
      height := h;
      Yield(locked);
      if h > 0 {
        var res := GetState(h, locked);
        assert res.Some?;
        s := res.value;
      } else {
        s := cfg.genesis;
      }
    }

    /** The checks of apply_block, made while the writer lock is held. */
    method CheckBlock(blk: Block, proof: ConsensusProof) returns (res: Result<SealedState, ApplyError>)
      requires Valid()
      modifies this
      ensures Valid() && chain == old(chain)
      ensures res.Ok? <==> Acceptable(cfg, AsCoded, Blocks(chain), Entry(blk, proof))
      ensures StateAt(cfg, Blocks(chain)).Some?
      ensures res.Ok? ==> Some(res.value) == NextState(cfg, StateAt(cfg, Blocks(chain)).value, blk)
      ensures res == Err(WrongHeight) <==> blk.header.height != |chain| + 1
      ensures res == Err(InsufficientVotes) <==>
                blk.header.height == |chain| + 1
                    && !VotesPass(cfg, AsCoded, StateAt(cfg, Blocks(chain)).value, Entry(blk, proof))
      ensures res != Err(DatabaseConflict)
    {
      hide StoreInv;
      TipFacts(cfg, chain, db, forest, oldCache);
      var highest, height := HighestState(true);
      assert Blocks(chain)[..height] == Blocks(chain);
      if blk.header.height != highest.block.header.height + 1 {
        return Err(WrongHeight);
      }
      var total, present := TallyVotes(cfg.verify, cfg.docs(highest.stakes), cfg.epoch(blk.header.height),
                                       cfg.headerHash(blk.header), proof);
      if present <= 2 * total / 3 {
        return Err(InsufficientVotes);
      }
      var newState := NextState(cfg, highest, blk);
      if newState.None? {
        return Err(InvalidBlock);
      }
      return Ok(newState.value);
    }

    /** Flush the new nodes, then write the three tables in one SQL transaction. */
    method SaveBlock(blk: Block, proof: ConsensusProof, newState: SealedState) returns (saved: bool)
      requires Valid()
      requires Acceptable(cfg, AsCoded, Blocks(chain), Entry(blk, proof))
      requires Some(newState) == NextState(cfg, StateAt(cfg, Blocks(chain)).value, blk)
      modifies this
      ensures Valid()
      ensures saved <==> Applicable(cfg, AsCoded, Blocks(old(chain)), Entry(blk, proof))
      ensures chain == if saved then old(chain) + [Entry(blk, proof)] else old(chain)
    {
      hide StoreInv;
      FlushKeepsInvariant(cfg, chain, db, forest, oldCache, blk, newState);
      forest := forest[blk.header.stateRoot := newState.contents];
      CommitKeepsInvariant(cfg, chain, db, forest, oldCache, Entry(blk, proof));
      var rows := InsertStakeRows(db.stakes, blk.header, blk.transactions);
      saved := rows.Some?;
      if saved {
        db := Db(db.history[blk.header.height := blk], db.proofs[blk.header.height := proof], rows.value);
        chain := chain + [Entry(blk, proof)];
      }
    }

    /** apply_block from the moment the writer lock is held until the waiters are notified. */
    method ApplyBlock(blk: Block, proof: ConsensusProof) returns (res: Result<(), ApplyError>)
      requires Valid()
      modifies this, mempool
      ensures Valid()
      ensures res.Ok? <==> Applicable(cfg, AsCoded, Blocks(old(chain)), Entry(blk, proof))
      ensures chain == if res.Ok? then old(chain) + [Entry(blk, proof)] else old(chain)
      ensures StateAt(cfg, Blocks(chain)).Some? && StateAt(cfg, Blocks(old(chain))).Some?
      ensures mempool.View() == if res.Ok? then M.NewPool(cfg.nextUnsealed(StateAt(cfg, Blocks(chain)).value))
                                else old(mempool.View())
      ensures res == Err(WrongHeight) <==> blk.header.height != |old(chain)| + 1
      ensures res == Err(InsufficientVotes) <==>
                && blk.header.height == |old(chain)| + 1
                && !VotesPass(cfg, AsCoded, StateAt(cfg, Blocks(old(chain))).value, Entry(blk, proof))
      ensures res == Err(DatabaseConflict) <==>
                Acceptable(cfg, AsCoded, Blocks(old(chain)), Entry(blk, proof)) && res.Err?
    {
      hide StoreInv;
      var checked := CheckBlock(blk, proof);
      if checked.Err? {
        res := Err(checked.error);
      } else {
        var saved := SaveBlock(blk, proof, checked.value);
        if saved {
          var next, height := HighestState(true);
          assert Blocks(chain)[..height] == Blocks(chain);
          mempool.Rebase(next);
          res := Ok(());
        } else {
          res := Err(DatabaseConflict);
        }
      }
    }
  }

  lemma BlocksGrow(a: seq<Entry>, b: seq<Entry>)
    requires a <= b
    ensures Blocks(a) <= Blocks(b)
  {
  }

  lemma TipFacts(cfg: Config, chain: seq<Entry>, db: Db, forest: Forest, cache: map<nat, Block>)
    requires StoreInv(cfg, chain, db, forest, cache)
    ensures StateAt(cfg, Blocks(chain)).Some?
    ensures StateAt(cfg, Blocks(chain)).value.block.header.height == |chain|
  {
    ValidChainReplays(cfg, AsCoded, chain);
    ReplayFacts(cfg, Blocks(chain));
  }

  /** The nodes of a checked block do no harm. */
  lemma FlushKeepsInvariant(cfg: Config, chain: seq<Entry>, db: Db, forest: Forest, cache: map<nat, Block>, b: Block,
                            s: SealedState)
    requires StoreInv(cfg, chain, db, forest, cache)
    requires StateAt(cfg, Blocks(chain)).Some? && Some(s) == NextState(cfg, StateAt(cfg, Blocks(chain)).value, b)
    ensures StoreInv(cfg, chain, db, forest[b.header.stateRoot := s.contents], cache)
  {
  }

  /** The inserts of apply_block for a checked block, its nodes already stored, succeed exactly
      when the entry is applicable, and leave a database for the longer chain. */
  lemma CommitKeepsInvariant(cfg: Config, chain: seq<Entry>, db: Db, forest: Forest, cache: map<nat, Block>, e: Entry)
    requires StoreInv(cfg, chain, db, forest, cache)
    requires Acceptable(cfg, AsCoded, Blocks(chain), e) && e.block.header.stateRoot in forest
    ensures e.block.header.height !in db.history && e.block.header.height !in db.proofs
    ensures CommitTx(db, e).Some? <==> Applicable(cfg, AsCoded, Blocks(chain), e)
    ensures CommitTx(db, e).Some? ==> StoreInv(cfg, chain + [e], CommitTx(db, e).value, forest, cache)
  {
    NextHeight(cfg, Blocks(chain), e);
    hide ValidChain, TableAt, StateAt, HistoryOf, ProofsOf, Acceptable, CommitTx, WellFormed, Sound;
    CommitExtends(cfg, chain, e);
    if Applicable(cfg, AsCoded, Blocks(chain), e) {
      ValidAppend(cfg, AsCoded, chain, e);
      BlocksOfAppend(chain, e);
    }
  }

  lemma NextHeight(cfg: Config, blocks: seq<Block>, e: Entry)
    requires WellFormed(cfg) && Acceptable(cfg, AsCoded, blocks, e)
    ensures e.block.header.height == |blocks| + 1
  {
    hide StateAt, NextState, VotesPass, WellFormed;
    ReplayFacts(cfg, blocks);
  }

  /** Adding the genesis rows again completes the stored table or leaves it alone. */
  lemma StoredTable(cfg: Config, stored: seq<Entry>, rows: StakeTable)
    requires WellFormed(cfg) && ValidChain(cfg, AsCoded, stored) && TableAt(cfg, Blocks(stored)).Some?
    requires rows == TableAt(cfg, Blocks(stored)).value
          || (stored == [] && forall t :: t in rows ==>
              t in cfg.genesis.stakes && rows[t] == StakeRow(0, cfg.genesis.stakes[t]))
    ensures GenesisTable(cfg.genesis.stakes) + rows == TableAt(cfg, Blocks(stored)).value
  {
    hide WellFormed, ValidChain;
    ReplayFactsOf(cfg, stored);
    TableHeights(cfg, Blocks(stored));
  }

  lemma OpenedStore(cfg: Config, db: Db, merkle: Forest, stored: seq<Entry>)
    requires WellFormed(cfg) && ValidChain(cfg, AsCoded, stored) && TableAt(cfg, Blocks(stored)).Some?
    requires db == DbOf(cfg, stored) && Sound(cfg, merkle) && Covers(merkle, Blocks(stored))
    ensures StoreInv(cfg, stored, db, merkle, map[])
  {
    hide ValidChain, WellFormed, Sound, Covers;
  }

  lemma ReplayFactsOf(cfg: Config, chain: seq<Entry>)
    requires WellFormed(cfg) && ValidChain(cfg, AsCoded, chain)
    ensures ConsecutiveHeights(Blocks(chain))
  {
    ValidChainReplays(cfg, AsCoded, chain);
    ReplayFacts(cfg, Blocks(chain));
  }
}
