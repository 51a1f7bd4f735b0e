/** Every step of the store machine keeps its invariant. */
module StoreInvariant {
  import opened Structs
  import opened Quorum
  import opened Stakes
  import opened Ledger
  import opened Storage
  import opened StoreMachine

  lemma PendingGrows(cfg: Config, chain: seq<Entry>, longer: seq<Entry>, e: Entry, next: SealedState, nodes: Forest,
                     more: Forest)
    requires Pending(cfg, chain, e, next, nodes) && chain <= longer
    requires e.block.header.stateRoot in more
    ensures Pending(cfg, longer, e, next, more)
  {
    BlocksGrow(chain, longer);
    assert Blocks(longer)[..e.block.header.height - 1] == Blocks(chain)[..e.block.header.height - 1];
  }

  /** When the chain and the stored nodes only grow, every unchanged applier and orphan is still fine. */
  lemma OthersUnaffected(cfg: Config, s: Node, t: Node)
    requires s.chain <= t.chain && Within(s.mem, t.mem) && Within(s.disk, t.disk)
    ensures forall a :: ApplierOk(cfg, s, a) ==> ApplierOk(cfg, t, a)
    ensures forall e :: OrphanOk(cfg, s, e) ==> OrphanOk(cfg, t, e)
  {
    hide Pending;
    forall a | ApplierOk(cfg, s, a) ensures ApplierOk(cfg, t, a) {
      match a {
        case Checked(e, next) =>
          PendingNode(cfg, s.chain, e, next, s.mem);
          PendingGrows(cfg, s.chain, t.chain, e, next, s.mem, t.mem);
        case Flushed(e, next) =>
          PendingNode(cfg, s.chain, e, next, s.disk);
          PendingGrows(cfg, s.chain, t.chain, e, next, s.disk, t.disk);
        case InTx(e, next) =>
          PendingNode(cfg, s.chain, e, next, s.disk);
          PendingGrows(cfg, s.chain, t.chain, e, next, s.disk, t.disk);
        case _ =>
      }
    }
    forall e | OrphanOk(cfg, s, e) ensures OrphanOk(cfg, t, e) {
      var next :| Pending(cfg, s.chain, e, next, s.disk);
      PendingNode(cfg, s.chain, e, next, s.disk);
      PendingGrows(cfg, s.chain, t.chain, e, next, s.disk, t.disk);
    }
  }

  lemma PendingNode(cfg: Config, chain: seq<Entry>, e: Entry, next: SealedState, nodes: Forest)
    requires Pending(cfg, chain, e, next, nodes)
    ensures e.block.header.stateRoot in nodes
  {
  }

  /** Waiters too, provided whoever promised to announce a stored height still does. */
  lemma WaitersUnaffected(cfg: Config, s: Node, t: Node)
    requires s.chain <= t.chain
    requires forall h :: 1 <= h <= |s.chain| && Pledged(s, h) ==> Pledged(t, h)
    requires forall h :: |s.chain| < h <= |t.chain| ==> Pledged(t, h)
    ensures forall x :: WaiterOk(cfg, s, x) ==> WaiterOk(cfg, t, x)
  {
    hide Pledged, StateAt;
    BlocksGrow(s.chain, t.chain);
    forall x | WaiterOk(cfg, s, x) ensures WaiterOk(cfg, t, x) {
      if x.Got? {
        assert Blocks(t.chain)[..x.height] == Blocks(s.chain)[..x.height];
      }
    }
  }

  /** A running transaction commits only the block that comes next, whatever happened since it
      was checked. */
  lemma PendingCommits(cfg: Config, s: Node, e: Entry, next: SealedState)
    requires Durable(cfg, s) && Pending(cfg, s.chain, e, next, s.disk)
    ensures CommitTx(s.db, e).Some? <==> Applicable(cfg, AsCoded, Blocks(s.chain), e)
    ensures CommitTx(s.db, e).Some? ==>
              && e.block.header.height == |s.chain| + 1
              && StoreInv(cfg, s.chain + [e], CommitTx(s.db, e).value, s.disk, map[])
    ensures e.block.header.height in s.db.history <==> e.block.header.height != |s.chain| + 1
  {
    hide StoreInv;
    ReadsAgree(cfg, s.chain, s.db, s.disk, map[], e.block.header.height);
    TipFacts(cfg, s.chain, s.db, s.disk, map[]);
    if e.block.header.height == |s.chain| + 1 {
      assert Blocks(s.chain)[..|s.chain|] == Blocks(s.chain);
      CommitKeepsInvariant(cfg, s.chain, s.db, s.disk, map[], e);
    }
  }

  /** The nodes in memory serve a reader as well as the flushed ones. */
  lemma MemoryHasAll(cfg: Config, s: Node)
    requires Durable(cfg, s)
    ensures StoreInv(cfg, s.chain, s.db, s.mem, map[])
  {
    hide ValidChain, TableAt, DbOf, Blocks;
  }

  lemma ReadIsReplay(cfg: Config, s: Node, h: nat, b: Block)
    requires Durable(cfg, s) && 1 <= h <= |s.chain| && b == s.chain[h - 1].block
    ensures FromBlock(cfg, b, BatchStakes(cfg, s.db.stakes, h), s.mem) == StateAt(cfg, Blocks(s.chain)[..h])
    ensures StateAt(cfg, Blocks(s.chain)[..h]).Some?
  {
    hide StoreInv, FromBlock, BatchStakes, StateAt;
    MemoryHasAll(cfg, s);
    ReadsFit(cfg, s.chain, s.chain, s.db, s.chain, s.mem, h);
  }

  lemma TopFromDb(cfg: Config, s: Node, h: nat)
    requires Durable(cfg, s) && h <= |s.chain|
    ensures StateFromDb(cfg, s, h) == StateAt(cfg, Blocks(s.chain)[..h])
    ensures StateFromDb(cfg, s, h).Some? && StateFromDb(cfg, s, h).value.block.header.height == h
  {
    hide StoreInv, FromBlock, BatchStakes;
    ReadsAgree(cfg, s.chain, s.db, s.disk, map[], h);
    TipFacts(cfg, s.chain, s.db, s.disk, map[]);
    if h > 0 {
      ReadIsReplay(cfg, s, h, s.chain[h - 1].block);
    }
    StoreWellFormed(cfg, s);
    ReplayFacts(cfg, Blocks(s.chain)[..h]);
  }

  lemma StoreWellFormed(cfg: Config, s: Node)
    requires Durable(cfg, s)
    ensures WellFormed(cfg)
  {
  }

  /** The nodes of a checked block leave every stored node as it was. */
  lemma NewNodes(cfg: Config, s: Node, h: nat, e: Entry)
    requires Durable(cfg, s) && h <= |s.chain| && Acceptable(cfg, AsCoded, Blocks(s.chain)[..h], e)
    ensures StateAt(cfg, Blocks(s.chain)[..h]).Some?
    ensures NextState(cfg, StateAt(cfg, Blocks(s.chain)[..h]).value, e.block).Some?
    ensures var next := NextState(cfg, StateAt(cfg, Blocks(s.chain)[..h]).value, e.block).value;
            var mem := s.mem[e.block.header.stateRoot := next.contents];
            Sound(cfg, mem) && Within(s.mem, mem) && Pending(cfg, s.chain, e, next, mem)
  {
    hide StoreInv, Acceptable, WellFormed, Sound, Within;
    TopFromDb(cfg, s, h);
    StoreWellFormed(cfg, s);
    NextFacts(cfg, Blocks(s.chain)[..h], e);
    var next := NextState(cfg, StateAt(cfg, Blocks(s.chain)[..h]).value, e.block).value;
    InsertSound(cfg, s.mem, e.block.header.stateRoot, next.contents);
  }

  lemma NextFacts(cfg: Config, blocks: seq<Block>, e: Entry)
    requires Acceptable(cfg, AsCoded, blocks, e)
    ensures StateAt(cfg, blocks).Some? && e.block.header.height == StateAt(cfg, blocks).value.block.header.height + 1
    ensures NextState(cfg, StateAt(cfg, blocks).value, e.block).Some?
    ensures e.block.header.stateRoot
            == cfg.contentsRoot(NextState(cfg, StateAt(cfg, blocks).value, e.block).value.contents)
  {
  }

  lemma InsertSound(cfg: Config, forest: Forest, root: Hash, contents: Contents)
    requires WellFormed(cfg) && Sound(cfg, forest) && cfg.contentsRoot(contents) == root
    ensures Sound(cfg, forest[root := contents]) && Within(forest, forest[root := contents])
  {
  }

  lemma PledgesKept(s: Node, t: Node)
    requires s.unannounced <= t.unannounced
    requires forall q :: q in s.appliers && s.appliers[q].Committed? ==>
               q in t.appliers && t.appliers[q] == s.appliers[q]
    ensures forall h :: Pledged(s, h) ==> Pledged(t, h)
  {
  }

  /** Steps that move one applier and commit nothing. */
  lemma InvOneMoves(cfg: Config, s: Node, t: Node, p: nat, a: Applier)
    requires Inv(cfg, s) && Durable(cfg, t)
    requires t.appliers == s.appliers[p := a] && !(p in s.appliers && s.appliers[p].Committed?)
    requires t.chain == s.chain && t.waiters == s.waiters && t.orphans == s.orphans && t.unannounced == s.unannounced
    requires Within(s.mem, t.mem) && Within(s.disk, t.disk)
    requires ApplierOk(cfg, t, a)
    requires if s.lock.None? || s.lock == Some(p) then t.lock == (if Holds(a) then Some(p) else None)
             else t.lock == s.lock && !Holds(a)
    ensures Inv(cfg, t)
  {
    hide Durable, ApplierOk, WaiterOk, OrphanOk, Pledged;
    OthersUnaffected(cfg, s, t);
    PledgesKept(s, t);
    WaitersUnaffected(cfg, s, t);
  }

  lemma InvCheck(cfg: Config, s: Node, p: nat)
    requires Inv(cfg, s) && p in s.appliers && s.appliers[p].SawHeight? && s.appliers[p].height <= |s.chain|
    ensures Inv(cfg, AfterCheck(cfg, s, p))
    ensures StateFromDb(cfg, s, s.appliers[p].height) == StateAt(cfg, Blocks(s.chain)[..s.appliers[p].height])
    ensures AfterCheck(cfg, s, p).appliers[p].Checked? <==>
              Acceptable(cfg, AsCoded, Blocks(s.chain)[..s.appliers[p].height], s.appliers[p].e)
  {
    hide StoreInv, StateAt, NextState, VotesPass, Pledged, FromBlock, BatchStakes, Pending, Sound, Within, WaiterOk,
         OrphanOk;
    var SawHeight(e, h) := s.appliers[p];
    var t := AfterCheck(cfg, s, p);
    assert ApplierOk(cfg, s, s.appliers[p]);
    TopFromDb(cfg, s, h);
    WithinRefl(s.mem);
    WithinRefl(s.disk);
    if t.appliers[p].Checked? {
      NewNodes(cfg, s, h, e);
      WithinTrans(s.disk, s.mem, t.mem);
    }
    InvOneMoves(cfg, s, t, p, t.appliers[p]);
  }

  lemma WithinRefl(a: Forest)
    ensures Within(a, a)
  {
  }

  lemma WithinTrans(a: Forest, b: Forest, c: Forest)
    requires Within(a, b) && Within(b, c)
    ensures Within(a, c)
  {
  }

  /** The chain has grown by one entry and its committer is either on its way to the waiters or
      recorded as gone. */
  lemma InvGrows(cfg: Config, s: Node, t: Node, e: Entry)
    requires Inv(cfg, s) && t.chain == s.chain + [e] && e.block.header.height == |t.chain|
    requires StoreInv(cfg, t.chain, t.db, t.disk, map[]) && t.mem == s.mem && t.disk == s.disk
    requires t.waiters == s.waiters && s.unannounced <= t.unannounced
    requires forall q :: q in s.appliers && s.appliers[q].Committed? ==>
               q in t.appliers && t.appliers[q] == s.appliers[q]
    requires forall q :: q in t.appliers ==>
               q in s.appliers && (t.appliers[q] == s.appliers[q] || t.appliers[q] == Committed(e))
    requires forall q :: q in t.appliers ==> (Holds(t.appliers[q]) <==> t.lock == Some(q))
    requires t.lock.Some? ==> t.lock.value in t.appliers
    requires forall i :: 0 <= i < |t.orphans| ==> t.orphans[i] in s.orphans
    requires Pledged(t, |t.chain|)
    ensures Inv(cfg, t)
  {
    hide StoreInv, Sound, WaiterOk, OrphanOk, Pledged, Pending;
    WithinRefl(s.mem);
    WithinRefl(s.disk);
    OthersUnaffected(cfg, s, t);
    PledgesKept(s, t);
    WaitersUnaffected(cfg, s, t);
    forall q | q in t.appliers ensures ApplierOk(cfg, t, t.appliers[q]) {
      assert ApplierOk(cfg, s, s.appliers[q]);
    }
  }

  lemma InvCommit(cfg: Config, s: Node, p: nat)
    requires Inv(cfg, s) && p in s.appliers && s.appliers[p].InTx?
    ensures Inv(cfg, AfterCommit(s, p))
    ensures CommitTx(s.db, s.appliers[p].e).Some? <==> Applicable(cfg, AsCoded, Blocks(s.chain), s.appliers[p].e)
  {
    hide StoreInv, Sound, WaiterOk, OrphanOk, Pending, CommitTx, Applicable;
    var InTx(e, next) := s.appliers[p];
    var t := AfterCommit(s, p);
    assert ApplierOk(cfg, s, s.appliers[p]);
    PendingCommits(cfg, s, e, next);
    if CommitTx(s.db, e).Some? {
      assert t.appliers[p].Committed?;
      InvGrows(cfg, s, t, e);
    } else {
      WithinRefl(s.mem);
      WithinRefl(s.disk);
      InvOneMoves(cfg, s, t, p, Returned(false));
    }
  }

  lemma InvOrphan(cfg: Config, s: Node, i: nat)
    requires Inv(cfg, s) && i < |s.orphans|
    ensures Inv(cfg, AfterOrphan(s, i))
    ensures CommitTx(s.db, s.orphans[i]).Some? <==> Applicable(cfg, AsCoded, Blocks(s.chain), s.orphans[i])
  {
    hide StoreInv, Sound, WaiterOk, ApplierOk, Pending, CommitTx, Applicable;
    var e := s.orphans[i];
    var t := AfterOrphan(s, i);
    assert OrphanOk(cfg, s, e);
    var next :| Pending(cfg, s.chain, e, next, s.disk);
    PendingCommits(cfg, s, e, next);
    if CommitTx(s.db, e).Some? {
      InvGrows(cfg, s, t, e);
    } else {
      WithinRefl(s.mem);
      WithinRefl(s.disk);
      OthersUnaffected(cfg, s, t);
      PledgesKept(s, t);
      WaitersUnaffected(cfg, s, t);
    }
  }

  lemma InvCancel(cfg: Config, s: Node, p: nat)
    requires Inv(cfg, s) && p in s.appliers
    ensures Inv(cfg, AfterCancel(s, p))
  {
    hide Durable, WaiterOk, Pending;
    var t := AfterCancel(s, p);
    assert ApplierOk(cfg, s, s.appliers[p]);
    WithinRefl(s.mem);
    WithinRefl(s.disk);
    OthersUnaffected(cfg, s, t);
    DurableSame(cfg, s, t);
    forall h | Pledged(s, h) ensures Pledged(t, h) {
      if h !in s.unannounced {
        var q :| q in s.appliers && s.appliers[q].Committed? && s.appliers[q].e.block.header.height == h;
        if q != p {
          assert t.appliers[q] == s.appliers[q];
        }
      }
    }
    hide Pledged;
    WaitersUnaffected(cfg, s, t);
  }

  lemma DurableSame(cfg: Config, s: Node, t: Node)
    requires Durable(cfg, s) && t.chain == s.chain && t.db == s.db && t.mem == s.mem && t.disk == s.disk
    ensures Durable(cfg, t)
  {
    hide StoreInv, Sound, Within;
  }

  lemma InvFinish(cfg: Config, s: Node, p: nat)
    requires Inv(cfg, s) && p in s.appliers && s.appliers[p].Committed?
    ensures Inv(cfg, Put(s, p, Returned(true)).(lock := None, waiters := NotifyAll(s.waiters)))
  {
    hide Durable, Pending, StateAt;
    var t := Put(s, p, Returned(true)).(lock := None, waiters := NotifyAll(s.waiters));
    WithinRefl(s.mem);
    WithinRefl(s.disk);
    OthersUnaffected(cfg, s, t);
    DurableSame(cfg, s, t);
    hide OrphanOk;
    forall w | w in t.waiters ensures WaiterOk(cfg, t, t.waiters[w]) {
      assert WaiterOk(cfg, s, s.waiters[w]);
    }
  }

  /** Steps of one waiter. */
  lemma InvWaiterMoves(cfg: Config, s: Node, w: nat, x: Waiter)
    requires Inv(cfg, s) && WaiterOk(cfg, s, x)
    ensures Inv(cfg, PutW(s, w, x))
  {
    hide Durable, ApplierOk, OrphanOk, WaiterOk, Pledged;
    var t := PutW(s, w, x);
    DurableSame(cfg, s, t);
    WithinRefl(s.mem);
    WithinRefl(s.disk);
    OthersUnaffected(cfg, s, t);
    PledgesKept(s, t);
    WaitersUnaffected(cfg, s, t);
  }

  lemma InvCrash(cfg: Config, s: Node, keep: nat, kept: Forest)
    requires Inv(cfg, s) && keep <= |s.chain| && Within(s.disk, kept) && Within(kept, s.mem)
    ensures TableAt(cfg, Blocks(s.chain[..keep])).Some?
    ensures Inv(cfg, Node(s.chain[..keep], DbOf(cfg, s.chain[..keep]), kept, kept, None, map[], map[], [], {}))
  {
    hide DbOf, TableAt, StoreInv, Sound;
    CrashKeepsPrefix(cfg, s, keep, kept);
    WithinRefl(kept);
  }

  /** A prefix of the chain, with the flushed nodes and any part of the others, is a good store. */
  lemma CrashKeepsPrefix(cfg: Config, s: Node, keep: nat, kept: Forest)
    requires Durable(cfg, s) && keep <= |s.chain| && Within(s.disk, kept) && Within(kept, s.mem)
    ensures TableAt(cfg, Blocks(s.chain[..keep])).Some? && Sound(cfg, kept)
    ensures StoreInv(cfg, s.chain[..keep], DbOf(cfg, s.chain[..keep]), kept, map[])
  {
    hide DbOf, TableAt, ValidChain, WellFormed, StateAt;
    BlocksOfPrefix(s.chain, keep);
    ValidPrefix(cfg, AsCoded, s.chain, keep);
    ValidChainReplays(cfg, AsCoded, s.chain[..keep]);
  }

  lemma InvStep(cfg: Config, s: Node, step: Step)
    requires Inv(cfg, s) && Next(cfg, s, step).Some?
    ensures Inv(cfg, Next(cfg, s, step).value)
  {
    var t := Next(cfg, s, step).value;
    WithinRefl(s.mem);
    WithinRefl(s.disk);
    hide Inv, Durable, ApplierOk, WaiterOk, AfterCheck, AfterCommit, AfterCancel, AfterOrphan, Within, Highest,
         FromBlock, BatchStakes;
    match step {
      case Arrive(p, e) => InvEarly(cfg, s, t, p, Waiting(e));
      case Acquire(p) => InvEarly(cfg, s, t, p, Locked(s.appliers[p].e));
      case ReadHeight(p) => InvReadHeight(cfg, s, p);
      case Check(p) => InvApplier(cfg, s, p); InvCheck(cfg, s, p);
      case Flush(p) => InvFlush(cfg, s, p);
      case Begin(p) => InvBegin(cfg, s, p);
      case Commit(p) => InvCommit(cfg, s, p);
      case Finish(p) => InvFinish(cfg, s, p);
      case Cancel(p) => InvCancel(cfg, s, p);
      case OrphanCommit(i) => InvOrphan(cfg, s, i);
      case Listen(w, h) => InvListen(cfg, s, w, h);
      case Look(w) => InvLook(cfg, s, w);
      case FinishRead(w) => InvFinishRead(cfg, s, w);
      case Wake(w) => InvListen(cfg, s, w, s.waiters[w].height);
      case Crash(keep, kept) => InvCrash(cfg, s, keep, kept);
    }
  }

  lemma InvApplier(cfg: Config, s: Node, p: nat)
    requires Inv(cfg, s) && p in s.appliers && s.appliers[p].SawHeight?
    ensures s.appliers[p].height <= |s.chain|
  {
    assert ApplierOk(cfg, s, s.appliers[p]);
  }

  lemma InvEarly(cfg: Config, s: Node, t: Node, p: nat, a: Applier)
    requires Inv(cfg, s) && (a.Waiting? || (a.Locked? && s.lock.None?))
    requires p in s.appliers ==> s.appliers[p].Returned? || s.appliers[p].Waiting?
    requires t == Put(s, p, a).(lock := if a.Locked? then Some(p) else s.lock)
    ensures Inv(cfg, t)
  {
    hide StoreInv, WaiterOk, OrphanOk, Pending, Within, Sound;
    WithinRefl(s.mem);
    WithinRefl(s.disk);
    DurableSame(cfg, s, t);
    InvOneMoves(cfg, s, t, p, a);
  }

  lemma InvReadHeight(cfg: Config, s: Node, p: nat)
    requires Inv(cfg, s) && p in s.appliers && s.appliers[p].Locked?
    ensures Highest(s.db) == |s.chain|
    ensures Inv(cfg, Put(s, p, SawHeight(s.appliers[p].e, Highest(s.db))))
  {
    hide StoreInv, WaiterOk, OrphanOk, Pending, Within, Sound;
    var t := Put(s, p, SawHeight(s.appliers[p].e, Highest(s.db)));
    ReadsAgree(cfg, s.chain, s.db, s.disk, map[], Highest(s.db));
    ReadsAgree(cfg, s.chain, s.db, s.disk, map[], |s.chain|);
    WithinRefl(s.mem);
    WithinRefl(s.disk);
    DurableSame(cfg, s, t);
    InvOneMoves(cfg, s, t, p, t.appliers[p]);
  }

  lemma InvFlush(cfg: Config, s: Node, p: nat)
    requires Inv(cfg, s) && p in s.appliers && s.appliers[p].Checked?
    ensures Inv(cfg, Put(s, p, Flushed(s.appliers[p].e, s.appliers[p].next)).(disk := s.mem))
  {
    hide StoreInv, WaiterOk, OrphanOk, Pending, Within, Sound;
    var t := Put(s, p, Flushed(s.appliers[p].e, s.appliers[p].next)).(disk := s.mem);
    assert ApplierOk(cfg, s, s.appliers[p]);
    MemoryHasAll(cfg, s);
    WithinRefl(s.mem);
    InvOneMoves(cfg, s, t, p, t.appliers[p]);
  }

  lemma InvBegin(cfg: Config, s: Node, p: nat)
    requires Inv(cfg, s) && p in s.appliers && s.appliers[p].Flushed?
    ensures Inv(cfg, Put(s, p, InTx(s.appliers[p].e, s.appliers[p].next)))
  {
    hide StoreInv, WaiterOk, OrphanOk, Pending, Within, Sound;
    var t := Put(s, p, InTx(s.appliers[p].e, s.appliers[p].next));
    assert ApplierOk(cfg, s, s.appliers[p]);
    WithinRefl(s.mem);
    WithinRefl(s.disk);
    DurableSame(cfg, s, t);
    InvOneMoves(cfg, s, t, p, t.appliers[p]);
  }

  lemma InvListen(cfg: Config, s: Node, w: nat, h: nat)
    requires Inv(cfg, s)
    ensures Inv(cfg, PutW(s, w, Listening(h, false)))
  {
    hide Inv;
    InvWaiterMoves(cfg, s, w, Listening(h, false));
  }

  lemma InvLook(cfg: Config, s: Node, w: nat)
    requires Inv(cfg, s) && w in s.waiters && s.waiters[w].Listening?
    ensures var h := s.waiters[w].height;
            Inv(cfg, PutW(s, w, if h in s.db.history then Reading(h, s.db.history[h])
                                else Asleep(h, s.waiters[w].notified)))
  {
    hide StoreInv, ApplierOk, OrphanOk, Pledged;
    ReadsAgree(cfg, s.chain, s.db, s.disk, map[], s.waiters[w].height);
    var h := s.waiters[w].height;
    InvWaiterMoves(cfg, s, w, if h in s.db.history then Reading(h, s.db.history[h])
                              else Asleep(h, s.waiters[w].notified));
  }

  lemma InvFinishRead(cfg: Config, s: Node, w: nat)
    requires Inv(cfg, s) && w in s.waiters && s.waiters[w].Reading?
    ensures var h := s.waiters[w].height;
            var found := FromBlock(cfg, s.waiters[w].block, BatchStakes(cfg, s.db.stakes, h), s.mem);
            found.Some? && Inv(cfg, PutW(s, w, Got(h, found.value)))
  {
    hide StoreInv, ApplierOk, OrphanOk, Pledged, StateAt, FromBlock, BatchStakes;
    var h := s.waiters[w].height;
    assert WaiterOk(cfg, s, s.waiters[w]);
    ReadIsReplay(cfg, s, h, s.waiters[w].block);
    InvWaiterMoves(cfg, s, w,
        Got(h, FromBlock(cfg, s.waiters[w].block, BatchStakes(cfg, s.db.stakes, h), s.mem).value));
  }

  lemma InvInit(cfg: Config)
    requires WellFormed(cfg)
    ensures Inv(cfg, Init(cfg))
  {
  }

  /** The invariant holds after every run from a node that has it. */
  lemma {:induction false} InvRunFrom(cfg: Config, start: Node, steps: seq<Step>)
    requires Inv(cfg, start) && Run(cfg, start, steps).Some?
    ensures Inv(cfg, Run(cfg, start, steps).value)
  {
    hide Inv, Next;
    if |steps| > 0 {
      InvRunFrom(cfg, start, steps[..|steps| - 1]);
      InvStep(cfg, Run(cfg, start, steps[..|steps| - 1]).value, steps[|steps| - 1]);
    }
  }

  lemma InvRun(cfg: Config, steps: seq<Step>)
    requires WellFormed(cfg) && Run(cfg, Init(cfg), steps).Some?
    ensures Inv(cfg, Run(cfg, Init(cfg), steps).value)
  {
    hide Inv, Run;
    InvInit(cfg);
    InvRunFrom(cfg, Init(cfg), steps);
  }
}
