/** The chain as a plain replay of blocks, the database that stores it, and the reconstruction
    of states from that database. */
module Ledger {
  import opened Structs
  import opened Quorum
  import opened Stakes

  /** SealedState::apply_block: the block must execute, and its header must commit to the
      resulting stake set and contents. */
  function NextState(cfg: Config, s: SealedState, b: Block): Option<SealedState> {
    var stakes := StakesAfter(cfg, s.stakes, b);
    match cfg.execute(s, b)
    case None => None
    case Some(contents) =>
      if && b.header.height == s.block.header.height + 1
         && b.header.stakesHash == cfg.stakesRoot(stakes)
         && b.header.stateRoot == cfg.contentsRoot(contents)
      then Some(SealedState(b, stakes, contents))
      else None
  }

  /** Replaying blocks from genesis. */
  function StateAt(cfg: Config, blocks: seq<Block>): Option<SealedState> {
    if |blocks| == 0 then Some(cfg.genesis)
    else
      match StateAt(cfg, blocks[..|blocks| - 1])
      case None => None
      case Some(s) => NextState(cfg, s, blocks[|blocks| - 1])
  }

  predicate VotesPass(cfg: Config, tally: Tally, s: SealedState, e: Entry) {
    Passes(tally, cfg.docs(s.stakes), cfg.epoch(e.block.header.height),
           Signers(cfg.verify, cfg.headerHash(e.block.header), e.proof))
  }

  /** The checks of apply_block before it writes: height, votes, state transition. */
  predicate Acceptable(cfg: Config, tally: Tally, blocks: seq<Block>, e: Entry) {
    && StateAt(cfg, blocks).Some?
    && e.block.header.height == StateAt(cfg, blocks).value.block.header.height + 1
    && VotesPass(cfg, tally, StateAt(cfg, blocks).value, e)
    && NextState(cfg, StateAt(cfg, blocks).value, e.block).Some?
  }

  /** apply_block succeeds on top of the given blocks, database inserts included. */
  predicate Applicable(cfg: Config, tally: Tally, blocks: seq<Block>, e: Entry) {
    Acceptable(cfg, tally, blocks, e) && TableAt(cfg, blocks + [e.block]).Some?
  }

  predicate ValidChain(cfg: Config, tally: Tally, chain: seq<Entry>) {
    |chain| > 0 ==>
    && ValidChain(cfg, tally, chain[..|chain| - 1])
    && Applicable(cfg, tally, Blocks(chain[..|chain| - 1]), chain[|chain| - 1])
  }

  lemma BlocksOfAppend(chain: seq<Entry>, e: Entry)
    ensures Blocks(chain + [e]) == Blocks(chain) + [e.block]
    ensures (chain + [e])[..|chain|] == chain
  {
  }

  lemma BlocksOfPrefix(chain: seq<Entry>, n: nat)
    requires n <= |chain|
    ensures Blocks(chain[..n]) == Blocks(chain)[..n]
  {
  }

  lemma {:induction false} ValidPrefix(cfg: Config, tally: Tally, chain: seq<Entry>, n: nat)
    requires ValidChain(cfg, tally, chain) && n <= |chain|
    ensures ValidChain(cfg, tally, chain[..n])
    ensures n < |chain| ==> Applicable(cfg, tally, Blocks(chain)[..n], chain[n])
  {
    hide Applicable;
    if n == |chain| {
      assert chain[..n] == chain;
    } else {
      var front := chain[..|chain| - 1];
      assert front[..n] == chain[..n];
      ValidPrefix(cfg, tally, front, n);
      BlocksOfPrefix(chain, n);
      BlocksOfPrefix(chain, |chain| - 1);
      assert Blocks(front)[..n] == Blocks(chain)[..n];
    }
  }

  lemma {:induction false} ValidAppend(cfg: Config, tally: Tally, chain: seq<Entry>, e: Entry)
    requires ValidChain(cfg, tally, chain) && Applicable(cfg, tally, Blocks(chain), e)
    ensures ValidChain(cfg, tally, chain + [e])
  {
    BlocksOfAppend(chain, e);
  }

  /** A chain of replayable blocks has heights 1, 2, 3, ... and the state of its tip carries the
      incremental stake set. */
  lemma {:induction false} ReplayFacts(cfg: Config, blocks: seq<Block>)
    requires WellFormed(cfg) && StateAt(cfg, blocks).Some?
    ensures ConsecutiveHeights(blocks)
    ensures StateAt(cfg, blocks).value.block.header.height == |blocks|
    ensures StateAt(cfg, blocks).value.stakes == IncrementalStakes(cfg, blocks)
    ensures |blocks| > 0 ==>
              var s := StateAt(cfg, blocks).value;
              && s.block == blocks[|blocks| - 1]
              && s.block.header.stakesHash == cfg.stakesRoot(s.stakes)
              && s.block.header.stateRoot == cfg.contentsRoot(s.contents)
  {
    if |blocks| > 0 {
      var front := blocks[..|blocks| - 1];
      ReplayFacts(cfg, front);
      NextStateFacts(cfg, StateAt(cfg, front).value, blocks[|blocks| - 1]);
      hide NextState, StakesAfter, WellFormed;
    }
  }

  lemma NextStateFacts(cfg: Config, s: SealedState, b: Block)
    requires NextState(cfg, s, b).Some?
    ensures var t := NextState(cfg, s, b).value;
            && t.block == b && b.header.height == s.block.header.height + 1
            && t.stakes == StakesAfter(cfg, s.stakes, b)
            && b.header.stakesHash == cfg.stakesRoot(t.stakes) && b.header.stateRoot == cfg.contentsRoot(t.contents)
  {
    hide StakesAfter;
  }

  lemma {:induction false} ReplayPrefix(cfg: Config, blocks: seq<Block>, n: nat)
    requires StateAt(cfg, blocks).Some? && n <= |blocks|
    ensures StateAt(cfg, blocks[..n]).Some?
  {
    if n == |blocks| {
      assert blocks[..n] == blocks;
    } else {
      var front := blocks[..|blocks| - 1];
      assert front[..n] == blocks[..n];
      ReplayPrefix(cfg, front, n);
    }
  }

  lemma ValidChainReplays(cfg: Config, tally: Tally, chain: seq<Entry>)
    requires ValidChain(cfg, tally, chain)
    ensures StateAt(cfg, Blocks(chain)).Some? && TableAt(cfg, Blocks(chain)).Some?
  {
    if |chain| > 0 {
      var front, e := chain[..|chain| - 1], chain[|chain| - 1];
      AppliedReplays(cfg, tally, Blocks(front), e);
      hide StateAt, TableAt, Applicable, ValidChain;
      BlocksOfAppend(front, e);
      assert chain == front + [e];
    }
  }

  lemma AppliedReplays(cfg: Config, tally: Tally, blocks: seq<Block>, e: Entry)
    requires Applicable(cfg, tally, blocks, e)
    ensures StateAt(cfg, blocks + [e.block]).Some? && TableAt(cfg, blocks + [e.block]).Some?
  {
    assert (blocks + [e.block])[..|blocks|] == blocks;
    hide NextState, TableAt, VotesPass;
  }

  // ---- Votes and rows ----

  /** The rows of the stakes table that count after `n` blocks: all at genesis, later those that
      the tip's epoch does not unlock. */
  function VotingRows(cfg: Config, table: StakeTable, n: nat): StakeSet {
    map t | t in table && (n > 0 ==> !cfg.unlocked(table[t].doc, cfg.epoch(n))) :: table[t].doc
  }

  lemma StakesAreRows(cfg: Config, blocks: seq<Block>)
    requires WellFormed(cfg) && StateAt(cfg, blocks).Some? && TableAt(cfg, blocks).Some?
    ensures StateAt(cfg, blocks).value.stakes == VotingRows(cfg, TableAt(cfg, blocks).value, |blocks|)
  {
    ReplayFacts(cfg, blocks);
    if |blocks| > 0 {
      IncrementalIsUnlockedRows(cfg, blocks);
      TableHeights(cfg, blocks);
    }
    hide StateAt, IncrementalStakes;
  }

  /** The votes on the next block weigh the rows of the stakes table: any keys have the active
      stake of their rows that count, the total is that of all rows that count, and the intended
      check asks for more than two thirds of it. */
  lemma VotesAreRows(cfg: Config, blocks: seq<Block>, keys: set<PubKey>)
    requires WellFormed(cfg) && StateAt(cfg, blocks).Some? && TableAt(cfg, blocks).Some?
    ensures var docs := cfg.docs(StateAt(cfg, blocks).value.stakes);
            var rows := VotingRows(cfg, TableAt(cfg, blocks).value, |blocks|);
            var epoch := cfg.epoch(|blocks| + 1);
            && StakeOf(docs, epoch, keys) == StakeIn(rows, epoch, keys)
            && TotalStake(docs, epoch) == StakeIn(rows, epoch, Owners(rows))
            && (Passes(Intended, docs, epoch, keys)
                <==> 3 * StakeIn(rows, epoch, keys) > 2 * StakeIn(rows, epoch, Owners(rows)))
  {
    var docs := cfg.docs(StateAt(cfg, blocks).value.stakes);
    StakesAreRows(cfg, blocks);
    hide StateAt, TableAt, VotingRows;
    ListedStakes(docs, StateAt(cfg, blocks).value.stakes, cfg.epoch(|blocks| + 1), keys);
    IntendedImpliesCoded(docs, cfg.epoch(|blocks| + 1), keys);
  }

  /** Adding one block: it must execute on the state of the blocks before it, carry the next
      height, and commit to the contents it gives and to the stakes; these contents are the new
      state's. */
  lemma OneMoreBlock(cfg: Config, blocks: seq<Block>, b: Block)
    requires WellFormed(cfg) && StateAt(cfg, blocks).Some?
    ensures var executed := cfg.execute(StateAt(cfg, blocks).value, b);
            var stakes := IncrementalStakes(cfg, blocks + [b]);
            StateAt(cfg, blocks + [b])
            == if && executed.Some? && b.header.height == |blocks| + 1
                  && b.header.stateRoot == cfg.contentsRoot(executed.value)
                  && b.header.stakesHash == cfg.stakesRoot(stakes)
               then Some(SealedState(b, stakes, executed.value)) else None
  {
    ReplayFacts(cfg, blocks);
    assert (blocks + [b])[..|blocks|] == blocks;
    hide StakesAfter;
  }

  // ---- The database ----

  /** The three tables, keyed as the primary keys are. */
  datatype Db = Db(history: map<nat, Block>, proofs: map<nat, ConsensusProof>, stakes: StakeTable)

  function HistoryOf(chain: seq<Entry>): map<nat, Block>
  {
    if |chain| == 0 then map[]
    else HistoryOf(chain[..|chain| - 1])[|chain| := chain[|chain| - 1].block]
  }

  function ProofsOf(chain: seq<Entry>): map<nat, ConsensusProof>
  {
    if |chain| == 0 then map[]
    else ProofsOf(chain[..|chain| - 1])[|chain| := chain[|chain| - 1].proof]
  }

  /** Both tables have the heights 1 to |chain| and no other, with the right values. */
  lemma {:induction false} TablesHold(chain: seq<Entry>, h: nat)
    ensures h in HistoryOf(chain) <==> 1 <= h <= |chain|
    ensures h in ProofsOf(chain) <==> 1 <= h <= |chain|
    ensures 1 <= h <= |chain| ==> HistoryOf(chain)[h] == chain[h - 1].block && ProofsOf(chain)[h] == chain[h - 1].proof
  {
    if |chain| > 0 {
      TablesHold(chain[..|chain| - 1], h);
    }
  }

  /** The database holding exactly the given chain. */
  function DbOf(cfg: Config, chain: seq<Entry>): Db
    requires TableAt(cfg, Blocks(chain)).Some?
  {
    Db(HistoryOf(chain), ProofsOf(chain), TableAt(cfg, Blocks(chain)).value)
  }

  /** The SQL transaction of apply_block: all of its inserts, or nothing. */
  function CommitTx(db: Db, e: Entry): Option<Db> {
    var h := e.block.header.height;
    if h in db.history || h in db.proofs then None
    else
      match InsertStakes(db.stakes, AcceptedStakes(e.block.header, e.block.transactions), h)
      case None => None
      case Some(stakes) => Some(Db(db.history[h := e.block], db.proofs[h := e.proof], stakes))
  }

  /** Committing an entry whose height is the next one extends the stored chain by it, or
      fails on a stake row alone; a taken height always fails. */
  lemma CommitExtends(cfg: Config, chain: seq<Entry>, e: Entry)
    requires TableAt(cfg, Blocks(chain)).Some?
    ensures 1 <= e.block.header.height <= |chain| ==> CommitTx(DbOf(cfg, chain), e).None?
    ensures e.block.header.height == |chain| + 1 ==>
              e.block.header.height !in DbOf(cfg, chain).history && e.block.header.height !in DbOf(cfg, chain).proofs
    ensures e.block.header.height == |chain| + 1 ==>
              if TableAt(cfg, Blocks(chain) + [e.block]).Some? then
                && TableAt(cfg, Blocks(chain + [e])).Some?
                && CommitTx(DbOf(cfg, chain), e) == Some(DbOf(cfg, chain + [e]))
              else
                CommitTx(DbOf(cfg, chain), e).None?
  {
    BlocksOfAppend(chain, e);
    TablesHold(chain, e.block.header.height);
    var bs := Blocks(chain) + [e.block];
    assert bs[..|bs| - 1] == Blocks(chain);
  }

  // ---- Merkle nodes ----

  /** Contents by their root, as a content-addressed store holds them. */
  type Forest = map<Hash, Contents>

  ghost predicate Sound(cfg: Config, forest: Forest) {
    forall root :: root in forest ==> cfg.contentsRoot(forest[root]) == root
  }

  /** Every block's tree is there. */
  predicate Covers(forest: Forest, blocks: seq<Block>) {
    forall i :: 0 <= i < |blocks| ==> blocks[i].header.stateRoot in forest
  }

  /** The assertion and SealedState::from_block in get_state; None where the code panics. */
  function FromBlock(cfg: Config, block: Block, stakes: StakeSet, forest: Forest): Option<SealedState> {
    if cfg.stakesRoot(stakes) == block.header.stakesHash && block.header.stateRoot in forest then
      Some(SealedState(block, stakes, forest[block.header.stateRoot]))
    else None
  }

  /** The assertion in get_state: where stake roots are collision free, whatever stakes a reader
      got, it panics or has the replayed state. */
  lemma WrongStakesAreCaught(cfg: Config, blocks: seq<Block>, stakes: StakeSet, forest: Forest)
    requires WellFormed(cfg) && |blocks| > 0 && StateAt(cfg, blocks).Some? && Sound(cfg, forest)
    requires forall s, t :: cfg.stakesRoot(s) == cfg.stakesRoot(t) ==> s == t
    ensures var read := FromBlock(cfg, blocks[|blocks| - 1], stakes, forest);
            read.Some? ==> read == StateAt(cfg, blocks)
  {
    ReplayFacts(cfg, blocks);
    hide StateAt, IncrementalStakes;
  }

  /** Pieces read from three different databases give the replayed state, as long as each of
      them stores a chain that starts with the first `h` blocks. */
  lemma ReconstructionIsReplay(cfg: Config, blocks: seq<Block>, table: StakeTable, later: seq<Block>, forest: Forest,
                               h: nat)
    requires WellFormed(cfg) && 1 <= h <= |blocks|
    requires StateAt(cfg, blocks).Some?
    requires blocks[..h] <= later && StateAt(cfg, later).Some? && TableAt(cfg, later) == Some(table)
    requires Sound(cfg, forest) && blocks[h - 1].header.stateRoot in forest
    ensures StateAt(cfg, blocks[..h]).Some?
    ensures FromBlock(cfg, blocks[h - 1], BatchStakes(cfg, table, h), forest) == StateAt(cfg, blocks[..h])
  {
    ReplayFacts(cfg, later);
    assert later[..h] == blocks[..h];
    BatchEqualsIncremental(cfg, later, h);
    ReplayPrefix(cfg, blocks, h);
    ReplayFacts(cfg, blocks[..h]);
  }
}
