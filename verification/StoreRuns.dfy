/** What holds in every run of the store machine: any interleaving, any dropped futures, any
    crashes. */
module StoreRuns {
  import opened Structs
  import opened Quorum
  import opened Stakes
  import opened Ledger
  import opened Storage
  import opened StoreMachine
  import opened StoreInvariant

  /** The tables always hold exactly the committed chain, each entry of which passed the checks
      of apply_block on top of those below it, and every stored block's nodes are flushed. */
  lemma CrashConsistency(cfg: Config, steps: seq<Step>, s: Node)
    requires WellFormed(cfg) && Run(cfg, Init(cfg), steps) == Some(s)
    ensures ValidChain(cfg, AsCoded, s.chain)
            && (forall h :: h in s.db.history <==> 1 <= h <= |s.chain|)
            && (forall h :: h in s.db.proofs <==> 1 <= h <= |s.chain|)
            && (forall h :: h in s.db.history ==> Entry(s.db.history[h], s.db.proofs[h]) == s.chain[h - 1])
            && TableAt(cfg, Blocks(s.chain)) == Some(s.db.stakes)
            && (forall h :: h in s.db.history ==>
                  && s.db.history[h].header.stateRoot in s.disk
                  && StateAt(cfg, Blocks(s.chain)[..h]).Some?
                  && s.disk[s.db.history[h].header.stateRoot] == StateAt(cfg, Blocks(s.chain)[..h]).value.contents)
  {
    InvRun(cfg, steps);
    forall h: nat {
      ReadsAgree(cfg, s.chain, s.db, s.disk, map[], h);
    }
    forall h | h in s.db.history
      ensures s.db.history[h].header.stateRoot in s.disk && StateAt(cfg, Blocks(s.chain)[..h]).Some?
           && s.disk[s.db.history[h].header.stateRoot] == StateAt(cfg, Blocks(s.chain)[..h]).value.contents
    {
      StoredNodes(cfg, s, h);
    }
    hide *;
  }

  lemma StoredNodes(cfg: Config, s: Node, h: nat)
    requires Durable(cfg, s) && 1 <= h <= |s.chain|
    ensures var root := s.chain[h - 1].block.header.stateRoot;
            && root in s.disk && StateAt(cfg, Blocks(s.chain)[..h]).Some?
            && s.disk[root] == StateAt(cfg, Blocks(s.chain)[..h]).value.contents
  {
    ReadsFit(cfg, s.chain, s.chain, s.db, s.chain, s.disk, h);
    hide ValidChain, TableAt, DbOf, StateAt, BatchStakes;
  }

  /** Whatever a reader returns is the replayed state, no read ever fails its assertion, and at
      most one call holds the writer lock. */
  lemma ReadersSeeReplay(cfg: Config, steps: seq<Step>, s: Node)
    requires WellFormed(cfg) && Run(cfg, Init(cfg), steps) == Some(s)
    ensures && (forall w :: w in s.waiters ==> !s.waiters[w].WaiterPanic?)
            && (forall p :: p in s.appliers ==> !s.appliers[p].ApplierPanic?)
            && (forall w :: w in s.waiters && s.waiters[w].Got? ==>
                  && s.waiters[w].height <= |s.chain|
                  && StateAt(cfg, Blocks(s.chain)[..s.waiters[w].height]) == Some(s.waiters[w].state))
            && (forall p, q :: p in s.appliers && q in s.appliers && Holds(s.appliers[p]) && Holds(s.appliers[q]) ==>
                p == q)
  {
    InvRun(cfg, steps);
    hide Durable, StateAt, Run, Next;
    forall w | w in s.waiters ensures WaiterOk(cfg, s, s.waiters[w]) {
    }
    forall p | p in s.appliers ensures ApplierOk(cfg, s, s.appliers[p]) {
    }
  }

  /** A waiter asleep on a stored height has been notified, or a call that committed this very
      height has yet to notify, or the commit's call was dropped before it could. */
  lemma SleepersArePledged(cfg: Config, steps: seq<Step>, s: Node, w: nat)
    requires WellFormed(cfg) && Run(cfg, Init(cfg), steps) == Some(s)
    requires w in s.waiters && s.waiters[w].Asleep? && s.waiters[w].height in s.db.history
    ensures s.waiters[w].notified || Pledged(s, s.waiters[w].height)
  {
    InvRun(cfg, steps);
    ReadsAgree(cfg, s.chain, s.db, s.disk, map[], s.waiters[w].height);
    hide Durable, StateAt, Run, Next, Pledged;
    assert WaiterOk(cfg, s, s.waiters[w]);
  }

  /** Each step leaves the chain alone, appends one entry that passes apply_block on top of it,
      or is a crash that keeps a prefix. */
  lemma ChainMovesByAppend(cfg: Config, s: Node, step: Step)
    requires Inv(cfg, s) && Next(cfg, s, step).Some?
    ensures var t := Next(cfg, s, step).value;
            || t.chain == s.chain
            || (exists e :: Applicable(cfg, AsCoded, Blocks(s.chain), e) && t.chain == s.chain + [e])
            || (step.Crash? && t.chain <= s.chain)
  {
    hide Inv, Applicable, CommitTx, FromBlock, BatchStakes, Highest, Within, TableAt;
    var t := Next(cfg, s, step).value;
    if step.Commit? {
      InvCommit(cfg, s, step.p);
    } else if step.OrphanCommit? {
      InvOrphan(cfg, s, step.i);
    }
  }
}
