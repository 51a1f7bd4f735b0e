/** The stakes table and the stake set rebuilt from it. */
module Stakes {
  import opened Structs

  datatype StakeRow = StakeRow(height: nat, doc: StakeDoc)

  type StakeTable = map<TxHash, StakeRow>

  type NewStakes = seq<(TxHash, StakeDoc)>

  /** The stake transactions of a block that become rows, in block order. */
  function AcceptedStakes(header: Header, txs: seq<Transaction>): NewStakes {
    if |txs| == 0 then []
    else
      AcceptedStakes(header, txs[..|txs| - 1]) + StakeOfTx(header, txs[|txs| - 1])
  }

  /** Which transactions become stake rows. */
  predicate BecomesStake(header: Header, tx: Transaction) {
    tx.kind == StakeKind && tx.stakeDoc.Some? && (header.height >= 500000 || header.network != Mainnet)
  }

  function StakeOfTx(header: Header, tx: Transaction): NewStakes {
    if BecomesStake(header, tx) then
      [(tx.hash, tx.stakeDoc.value)]
    else []
  }

  /** The inserts of one transaction; None when a primary key is already taken. */
  function InsertStakes(table: StakeTable, news: NewStakes, height: nat): Option<StakeTable> {
    if |news| == 0 then Some(table)
    else
      match InsertStakes(table, news[..|news| - 1], height)
      case None => None
      case Some(t) =>
        var (hash, doc) := news[|news| - 1];
        if hash in t then None else Some(t[hash := StakeRow(height, doc)])
  }

  /** `add_stake` for each new stake. */
  function AddAll(stakes: StakeSet, news: NewStakes): StakeSet {
    if |news| == 0 then stakes
    else AddAll(stakes, news[..|news| - 1])[news[|news| - 1].0 := news[|news| - 1].1]
  }

  function Unlock(cfg: Config, stakes: StakeSet, epoch: nat): StakeSet {
    map t | t in stakes && !cfg.unlocked(stakes[t], epoch) :: stakes[t]
  }

  /** The assumed effect of a block on the stake set: its accepted stakes enter, and what the
      block's epoch unlocks leaves. */
  function StakesAfter(cfg: Config, stakes: StakeSet, b: Block): StakeSet {
    Unlock(cfg, AddAll(stakes, AcceptedStakes(b.header, b.transactions)), cfg.epoch(b.header.height))
  }

  function GenesisTable(genesis: StakeSet): StakeTable {
    map t | t in genesis :: StakeRow(0, genesis[t])
  }

  /** The table after the given blocks; None if some block's insert fails. */
  function TableAt(cfg: Config, blocks: seq<Block>): Option<StakeTable> {
    if |blocks| == 0 then Some(GenesisTable(cfg.genesis.stakes))
    else
      var b := blocks[|blocks| - 1];
      match TableAt(cfg, blocks[..|blocks| - 1])
      case None => None
      case Some(t) => InsertStakes(t, AcceptedStakes(b.header, b.transactions), b.header.height)
  }

  function RowsUpTo(table: StakeTable, height: nat): StakeSet {
    map t | t in table && table[t].height <= height :: table[t].doc
  }

  /** What get_stakeset computes. */
  function BatchStakes(cfg: Config, table: StakeTable, height: nat): StakeSet {
    Unlock(cfg, cfg.genesis.stakes + RowsUpTo(table, height), cfg.epoch(height))
  }

  /** The stake set after every block in turn. */
  function IncrementalStakes(cfg: Config, blocks: seq<Block>): StakeSet {
    if |blocks| == 0 then cfg.genesis.stakes
    else StakesAfter(cfg, IncrementalStakes(cfg, blocks[..|blocks| - 1]), blocks[|blocks| - 1])
  }

  predicate ConsecutiveHeights(blocks: seq<Block>) {
    forall i :: 0 <= i < |blocks| ==> blocks[i].header.height == i + 1
  }

  // ---- Batch equals incremental ----

  /** New rows carry the block's height and never touch an old row. */
  lemma {:induction false} InsertOnlyAdds(table: StakeTable, news: NewStakes, height: nat)
    requires InsertStakes(table, news, height).Some?
    ensures var t := InsertStakes(table, news, height).value;
            && (forall k :: k in table ==> k in t && t[k] == table[k])
            && (forall k :: k in t && k !in table ==> t[k].height == height)
  {
    if |news| > 0 {
      InsertOnlyAdds(table, news[..|news| - 1], height);
    }
  }

  lemma {:induction false} InsertIsAddAll(table: StakeTable, news: NewStakes, height: nat)
    requires InsertStakes(table, news, height).Some?
    requires forall k :: k in table ==> table[k].height <= height
    ensures RowsUpTo(InsertStakes(table, news, height).value, height) == AddAll(RowsUpTo(table, height), news)
  {
    if |news| > 0 {
      InsertOnlyAdds(table, news[..|news| - 1], height);
      InsertIsAddAll(table, news[..|news| - 1], height);
    }
  }

  lemma {:induction false} TableHeights(cfg: Config, blocks: seq<Block>)
    requires TableAt(cfg, blocks).Some? && ConsecutiveHeights(blocks)
    ensures forall k :: k in TableAt(cfg, blocks).value ==> TableAt(cfg, blocks).value[k].height <= |blocks|
    ensures forall t :: t in cfg.genesis.stakes ==>
              t in TableAt(cfg, blocks).value && TableAt(cfg, blocks).value[t] == StakeRow(0, cfg.genesis.stakes[t])
  {
    if |blocks| > 0 {
      var front, b := blocks[..|blocks| - 1], blocks[|blocks| - 1];
      TableHeights(cfg, front);
      InsertOnlyAdds(TableAt(cfg, front).value, AcceptedStakes(b.header, b.transactions), b.header.height);
    }
  }

  /** Later blocks leave the rows up to `h` alone. */
  lemma {:induction false} RowsStable(cfg: Config, blocks: seq<Block>, h: nat)
    requires TableAt(cfg, blocks).Some? && ConsecutiveHeights(blocks) && h <= |blocks|
    ensures TableAt(cfg, blocks[..h]).Some?
    ensures RowsUpTo(TableAt(cfg, blocks).value, h) == RowsUpTo(TableAt(cfg, blocks[..h]).value, h)
  {
    if h == |blocks| {
      assert blocks[..h] == blocks;
    } else {
      var front, b := blocks[..|blocks| - 1], blocks[|blocks| - 1];
      RowsStable(cfg, front, h);
      assert front[..h] == blocks[..h];
      InsertOnlyAdds(TableAt(cfg, front).value, AcceptedStakes(b.header, b.transactions), b.header.height);
    }
  }

  lemma {:induction false} AddAllIsUnion(stakes: StakeSet, news: NewStakes)
    ensures AddAll(stakes, news) == stakes + AddAll(map[], news)
  {
    if |news| > 0 {
      AddAllIsUnion(stakes, news[..|news| - 1]);
    }
  }

  /** Unlocking early changes nothing, as what one epoch unlocks every later one unlocks too. */
  lemma UnlockAbsorbs(cfg: Config, stakes: StakeSet, news: NewStakes, e1: nat, e2: nat)
    requires WellFormed(cfg) && e1 <= e2
    ensures Unlock(cfg, AddAll(Unlock(cfg, stakes, e1), news), e2) == Unlock(cfg, AddAll(stakes, news), e2)
  {
    AddAllIsUnion(stakes, news);
    AddAllIsUnion(Unlock(cfg, stakes, e1), news);
  }

  lemma {:induction false} IncrementalIsUnlockedRows(cfg: Config, blocks: seq<Block>)
    requires WellFormed(cfg) && TableAt(cfg, blocks).Some? && ConsecutiveHeights(blocks) && |blocks| > 0
    ensures IncrementalStakes(cfg, blocks)
         == Unlock(cfg, RowsUpTo(TableAt(cfg, blocks).value, |blocks|), cfg.epoch(|blocks|))
  {
    var n := |blocks|;
    var front, b := blocks[..n - 1], blocks[n - 1];
    var news := AcceptedStakes(b.header, b.transactions);
    var table := TableAt(cfg, front).value;
    TableHeights(cfg, front);
    InsertIsAddAll(table, news, n);
    assert RowsUpTo(table, n) == RowsUpTo(table, n - 1);
    if n == 1 {
      assert RowsUpTo(table, 0) == cfg.genesis.stakes;
    } else {
      IncrementalIsUnlockedRows(cfg, front);
      UnlockAbsorbs(cfg, RowsUpTo(table, n - 1), news, cfg.epoch(n - 1), cfg.epoch(n));
    }
  }

  /** Reading genesis and all rows up to a height and unlocking once gives the stake set that
      unlocking block by block gives. */
  lemma BatchEqualsIncremental(cfg: Config, blocks: seq<Block>, h: nat)
    requires WellFormed(cfg) && TableAt(cfg, blocks).Some? && ConsecutiveHeights(blocks)
    requires 1 <= h <= |blocks|
    ensures BatchStakes(cfg, TableAt(cfg, blocks).value, h) == IncrementalStakes(cfg, blocks[..h])
  {
    RowsStable(cfg, blocks, h);
    TableHeights(cfg, blocks[..h]);
    var rows := RowsUpTo(TableAt(cfg, blocks[..h]).value, h);
    assert cfg.genesis.stakes + rows == rows;
    IncrementalIsUnlockedRows(cfg, blocks[..h]);
  }

  // ---- What the table and the stake set contain ----

  lemma {:induction false} AcceptedAre(header: Header, txs: seq<Transaction>, t: TxHash, doc: StakeDoc)
    ensures (t, doc) in AcceptedStakes(header, txs) <==> CarriesStake(header, txs, t, doc)
  {
    if |txs| > 0 {
      var front, last := txs[..|txs| - 1], txs[|txs| - 1];
      AcceptedAre(header, front, t, doc);
      assert forall k :: 0 <= k < |front| ==> front[k] == txs[k];
      assert (t, doc) in StakeOfTx(header, last) <==>
          && (header.height >= 500_000 || header.network != Mainnet)
          && last.kind == StakeKind && last.stakeDoc == Some(doc) && last.hash == t;
    }
  }

  /** What the inserts of one block leave in the table: the old rows and the stakes it carries. */
  lemma BlockRowsExact(table: StakeTable, header: Header, txs: seq<Transaction>, t: TxHash, row: StakeRow)
    requires InsertStakes(table, AcceptedStakes(header, txs), header.height).Some?
    ensures var after := InsertStakes(table, AcceptedStakes(header, txs), header.height).value;
            (t in after && after[t] == row) <==>
              || (t in table && table[t] == row)
              || (row.height == header.height && CarriesStake(header, txs, t, row.doc))
  {
    InsertedAre(table, AcceptedStakes(header, txs), header.height, t, row);
    AcceptedAre(header, txs, t, row.doc);
  }

  /** The inserts fail exactly if a hash is taken, by the table or by an earlier insert. */
  lemma {:induction false} InsertFailsIff(table: StakeTable, news: NewStakes, height: nat)
    ensures InsertStakes(table, news, height).None? <==> exists i :: Taken(table, news, i)
    ensures InsertStakes(table, news, height).Some? ==>
              forall t :: t in InsertStakes(table, news, height).value <==> t in table || Mentions(news, t)
  {
    if |news| > 0 {
      var n := |news| - 1;
      var front, last := news[..n], news[n];
      InsertFailsIff(table, front, height);
      assert news == front + [last];
      forall i: nat | i < n ensures Taken(table, news, i) <==> Taken(table, front, i) {
        assert forall j :: 0 <= j <= i ==> front[j] == news[j];
      }
      assert Taken(table, news, n) <==> last.0 in table || Mentions(front, last.0);
      forall t ensures Mentions(news, t) <==> Mentions(front, t) || t == last.0 {
        assert Mentions(front, t) ==> exists i :: 0 <= i < n && front[i].0 == t && news[i].0 == t;
        assert news[n].0 == last.0;
      }
      hide Mentions;
      if InsertStakes(table, front, height).None? {
        var i :| Taken(table, front, i);
        assert Taken(table, news, i);
      } else {
        assert forall i: nat :: Taken(table, news, i) ==> i == n || Taken(table, front, i);
      }
    }
  }

  /** Row number `i` meets a hash that is taken by then. */
  ghost predicate Taken(table: StakeTable, news: NewStakes, i: nat) {
    i < |news| && (news[i].0 in table || exists j :: 0 <= j < i && news[j].0 == news[i].0)
  }

  ghost predicate Mentions(news: NewStakes, t: TxHash) {
    exists i :: 0 <= i < |news| && news[i].0 == t
  }

  /** One stake transaction that decodes: from height 500000 on the main network takes it, not
      before; any other network takes it at every height. */
  lemma StakeBoundary(table: StakeTable, header: Header, tx: Transaction)
    requires tx.kind == StakeKind && tx.stakeDoc.Some? && tx.hash !in table
    ensures var after := InsertStakes(table, AcceptedStakes(header, [tx]), header.height);
            var taken := Some(table[tx.hash := StakeRow(header.height, tx.stakeDoc.value)]);
            && (header.network == Mainnet && header.height <= 499_999 ==> after == Some(table))
            && (header.network == Mainnet && header.height >= 500_000 ==> after == taken)
            && (header.network != Mainnet ==> after == taken)
  {
    assert [tx][..0] == [];
    assert AcceptedStakes(header, []) == [];
    assert AcceptedStakes(header, [tx]) == StakeOfTx(header, tx);
    var one := [(tx.hash, tx.stakeDoc.value)];
    assert one[..0] == [];
    assert InsertStakes(table, [], header.height) == Some(table);
  }

  lemma {:induction false} InsertedAre(table: StakeTable, news: NewStakes, height: nat, t: TxHash, row: StakeRow)
    requires InsertStakes(table, news, height).Some?
    ensures var after := InsertStakes(table, news, height).value;
            (t in after && after[t] == row)
                <==> (t in table && table[t] == row) || (row.height == height && (t, row.doc) in news)
  {
    if |news| > 0 {
      var front, last := news[..|news| - 1], news[|news| - 1];
      InsertedAre(table, front, height, t, row);
      InsertOnlyAdds(table, front, height);
      assert news == front + [last];
      assert (t, row.doc) in news <==> (t, row.doc) in front || (t == last.0 && row.doc == last.1);
      if (t, row.doc) in front {
        InsertedAre(table, front, height, t, StakeRow(height, row.doc));
      }
    }
  }

  /** Some transaction with this hash is of kind stake and decodes to this document, and the block
      is at height 500000 or later or not on the main network. */
  ghost predicate CarriesStake(header: Header, txs: seq<Transaction>, t: TxHash, doc: StakeDoc) {
    && (500_000 <= header.height || header.network == Testnet || header.network.Custom?)
    && exists k :: 0 <= k < |txs| && txs[k].kind == StakeKind && txs[k].stakeDoc == Some(doc) && txs[k].hash == t
  }

  /** The block at position `i` carries an accepted stake transaction for this row. */
  ghost predicate FromBlockAt(blocks: seq<Block>, i: nat, t: TxHash, row: StakeRow) {
    && i < |blocks| && row.height == blocks[i].header.height
    && CarriesStake(blocks[i].header, blocks[i].transactions, t, row.doc)
  }

  /** The table's rows are the genesis stakes at height 0 and the accepted stake transactions of
      the blocks, at their blocks' heights, and nothing else. */
  lemma {:induction false} StakeRowsExact(cfg: Config, blocks: seq<Block>, t: TxHash, row: StakeRow)
    requires TableAt(cfg, blocks).Some?
    ensures (t in TableAt(cfg, blocks).value && TableAt(cfg, blocks).value[t] == row) <==>
              (t in cfg.genesis.stakes && row == StakeRow(0, cfg.genesis.stakes[t]))
                  || exists i :: FromBlockAt(blocks, i, t, row)
  {
    if |blocks| > 0 {
      var n := |blocks| - 1;
      var front, b := blocks[..n], blocks[n];
      StakeRowsExact(cfg, front, t, row);
      InsertedAre(TableAt(cfg, front).value, AcceptedStakes(b.header, b.transactions), b.header.height, t, row);
      AcceptedAre(b.header, b.transactions, t, row.doc);
      FromFrontOrLast(blocks, t, row);
    }
  }

  lemma FromFrontOrLast(blocks: seq<Block>, t: TxHash, row: StakeRow)
    requires |blocks| > 0
    ensures var n := |blocks| - 1;
            (exists i :: FromBlockAt(blocks, i, t, row)) <==>
              (exists i :: FromBlockAt(blocks[..n], i, t, row)) || FromBlockAt(blocks, n, t, row)
  {
    var n := |blocks| - 1;
    forall i: nat | i < n ensures FromBlockAt(blocks[..n], i, t, row) == FromBlockAt(blocks, i, t, row) {
      assert blocks[..n][i] == blocks[i];
    }
    if i: nat :| FromBlockAt(blocks, i, t, row) {
      assert i == n || FromBlockAt(blocks[..n], i, t, row);
    }
    if i: nat :| FromBlockAt(blocks[..n], i, t, row) {
      assert FromBlockAt(blocks, i, t, row);
    }
  }

  /** The stake set after the blocks is the rows not yet unlocked at the tip's epoch. */
  lemma StakeSetExact(cfg: Config, blocks: seq<Block>, t: TxHash, doc: StakeDoc)
    requires WellFormed(cfg) && TableAt(cfg, blocks).Some? && ConsecutiveHeights(blocks) && |blocks| > 0
    ensures (t in IncrementalStakes(cfg, blocks) && IncrementalStakes(cfg, blocks)[t] == doc) <==>
              && !cfg.unlocked(doc, cfg.epoch(|blocks|))
              && t in TableAt(cfg, blocks).value && TableAt(cfg, blocks).value[t].doc == doc
  {
    IncrementalIsUnlockedRows(cfg, blocks);
    TableHeights(cfg, blocks);
    hide IncrementalStakes, TableAt;
  }
}
