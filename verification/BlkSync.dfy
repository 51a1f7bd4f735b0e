/** Syncing the local store from a peer. */
module BlkSync {
  import opened Structs
  import opened Quorum
  import opened Stakes
  import opened Ledger
  import opened Storage
  import opened NodeRpc

  const BATCH_LIMIT: nat := 500_000

  /** A peer's answer to one get_lz4_blocks request. */
  datatype Reply = Failed | Missing | Undecodable | Batch(blocks: seq<Block>, proofs: seq<ConsensusProof>)

  /** `serve(k, h)` is the answer to request number `k`, for height `h`; after `patience`
      requests the peer no longer answers and the request times out. */
  datatype Peer = Peer(highest: Option<nat>, serve: (nat, nat) -> Reply, patience: nat)

  datatype SyncError = NoSummary | NoAnswer | MissingBlock | BadEncoding | WrongBlock | CannotApply

  function Request(peer: Peer, k: nat, height: nat): Reply {
    if k < peer.patience then peer.serve(k, height) else Failed
  }

  /** `blocks.iter().zip(cproofs)`. */
  function Zip(blocks: seq<Block>, proofs: seq<ConsensusProof>): (es: seq<Entry>)
    ensures |es| == if |blocks| < |proofs| then |blocks| else |proofs|
    ensures forall i :: 0 <= i < |es| ==> es[i] == Entry(blocks[i], proofs[i])
  {
    seq(if |blocks| < |proofs| then |blocks| else |proofs|,
        i requires 0 <= i < |blocks| && i < |proofs| => Entry(blocks[i], proofs[i]))
  }

  /** Entries for the heights from `height` on, each through apply_block; None when one has the
      wrong height or is refused. */
  function JoinAll(cfg: Config, chain: seq<Entry>, es: seq<Entry>, height: nat): Option<seq<Entry>> {
    if |es| == 0 then Some(chain)
    else
      var n := |es| - 1;
      match JoinAll(cfg, chain, es[..n], height)
      case None => None
      case Some(c) => if Joins(cfg, c, es[n], height + n) then Some(c + [es[n]]) else None
  }

  predicate Joins(cfg: Config, chain: seq<Entry>, e: Entry, height: nat) {
    e.block.header.height == height && Applicable(cfg, AsCoded, Blocks(chain), e)
  }

  lemma {:induction false} JoinedSoFar(cfg: Config, chain: seq<Entry>, es: seq<Entry>, height: nat, n: nat)
    requires n <= |es| && JoinAll(cfg, chain, es, height).Some?
    ensures JoinAll(cfg, chain, es, height) == Some(chain + es)
    ensures JoinAll(cfg, chain, es[..n], height) == Some(chain + es[..n])
    ensures n < |es| ==> Joins(cfg, chain + es[..n], es[n], height + n)
  {
    hide Joins;
    if |es| > 0 {
      var front := es[..|es| - 1];
      JoinedSoFar(cfg, chain, front, height, if n < |es| then n else |es| - 1);
      assert es == front + [es[|es| - 1]];
      assert chain + es == (chain + front) + [es[|es| - 1]];
      assert n < |es| ==> front[..n] == es[..n];
    } else {
      assert chain + es == chain;
    }
    assert es[..|es|] == es;
  }

  /** Entries join all together exactly if they carry consecutive heights from `height` on and each
      is applicable on top of those before it. */
  lemma {:induction false} JoinAllIff(cfg: Config, chain: seq<Entry>, es: seq<Entry>, height: nat)
    ensures JoinAll(cfg, chain, es, height).Some? <==>
              forall i :: 0 <= i < |es| ==>
                es[i].block.header.height == height + i && Applicable(cfg, AsCoded, Blocks(chain + es[..i]), es[i])
  {
    hide Applicable;
    if |es| > 0 {
      var n := |es| - 1;
      var front := es[..n];
      JoinAllIff(cfg, chain, front, height);
      assert forall i :: 0 <= i < n ==> front[i] == es[i] && front[..i] == es[..i];
      if JoinAll(cfg, chain, front, height).Some? {
        JoinedSoFar(cfg, chain, front, height, n);
      }
    }
  }

  /** So after a batch with fewer proofs than blocks, which leaves a gap, nothing joins any more. */
  lemma NothingJoinsBeyondAGap(cfg: Config, chain: seq<Entry>, es: seq<Entry>, height: nat)
    requires WellFormed(cfg) && |es| > 0 && height != |chain| + 1
    ensures JoinAll(cfg, chain, es, height).None?
  {
    JoinAllIff(cfg, chain, es, height);
    if JoinAll(cfg, chain, es, height).Some? {
      assert chain + es[..0] == chain;
      assert Applicable(cfg, AsCoded, Blocks(chain + es[..0]), es[0]);
      NextHeight(cfg, Blocks(chain), es[0]);
    }
    hide Acceptable;
  }

  /** `n` entries of a batch joined the chain, and if some are left the next one was refused. */
  ghost predicate AppliedUpTo(cfg: Config, before: seq<Entry>, es: seq<Entry>, height: nat, n: nat, after: seq<Entry>) {
    && n <= |es| && JoinAll(cfg, before, es[..n], height) == Some(after)
    && (n < |es| ==> !Joins(cfg, after, es[n], height + n))
  }

  /** So either all joined, or there is no joining them all. */
  lemma AppliedOrNot(cfg: Config, before: seq<Entry>, es: seq<Entry>, height: nat, n: nat, after: seq<Entry>)
    requires AppliedUpTo(cfg, before, es, height, n, after)
    ensures n <= |es| && after == before + es[..n]
    ensures JoinAll(cfg, before, es, height) == if n == |es| then Some(after) else None
  {
    hide Joins;
    JoinedSoFar(cfg, before, es[..n], height, 0);
    if n == |es| {
      assert es[..n] == es;
    } else if JoinAll(cfg, before, es, height).Some? {
      JoinedSoFar(cfg, before, es, height, n);
    }
  }

  /** Why an entry does not join. */
  function Refusal(e: Entry, height: nat): SyncError {
    if e.block.header.height != height then WrongBlock else CannotApply
  }

  /** The inner loop of attempt_blksync. */
  method ApplyAll(storage: Storage, blocks: seq<Block>, proofs: seq<ConsensusProof>, height: nat)
    returns (problem: Option<SyncError>, ghost n: nat)
    requires storage.Valid()
    modifies storage, storage.mempool
    ensures storage.Valid()
    ensures AppliedUpTo(storage.cfg, old(storage.chain), Zip(blocks, proofs), height, n, storage.chain)
    ensures problem == if n == |Zip(blocks, proofs)| then None else Some(Refusal(Zip(blocks, proofs)[n], height + n))
  {
    hide StoreInv, Applicable, Acceptable, StateAt, VotesPass;
    var es := Zip(blocks, proofs);
    assert es[..0] == [];
    ghost var start := storage.chain;
    var lastApplied := height;
    n := 0;
    for i := 0 to |es|
      invariant storage.Valid() && n == i && lastApplied == height + i
      invariant JoinAll(storage.cfg, start, es[..i], height) == Some(storage.chain)
    {
      assert es[..i + 1][..i] == es[..i];
      if es[i].block.header.height != lastApplied {
        return Some(WrongBlock), i;
      }
      var res := storage.ApplyBlock(es[i].block, es[i].proof);
      if res.Err? {
        return Some(CannotApply), i;
      }
      lastApplied := lastApplied + 1;
      n := n + 1;
    }
    assert es[..|es|] == es;
    problem := None;
  }

  /** A peer whose chain, once `target` long, extends ours, and that answers every request with
      a batch as get_lz4_blocks builds it. */
  ghost predicate HonestPeer(cfg: Config, peer: Peer, mine: seq<Entry>, target: seq<Entry>) {
    && ValidChain(cfg, AsCoded, target) && Blocks(mine) <= Blocks(target)
    && peer.highest.Some? && peer.highest.value <= |target|
    && peer.highest.value <= |mine| + peer.patience
    && forall k, h :: 1 <= h <= peer.highest.value ==>
         var reply := peer.serve(k, h);
         reply.Batch? && GreedyBatch(cfg, target, peer.highest.value, h, BATCH_LIMIT, reply.blocks, reply.proofs)
  }

  /** The batch a node builds from its store is an honest answer for every later state of its
      chain and every height it had before. */
  lemma BatchesAreHonest(cfg: Config, chain: seq<Entry>, target: seq<Entry>, known: nat, highest: nat, h: nat,
                         blocks: seq<Block>, proofs: seq<ConsensusProof>)
    requires GreedyBatch(cfg, chain, known, h, BATCH_LIMIT, blocks, proofs)
    requires chain <= target && highest <= known
    ensures GreedyBatch(cfg, target, highest, h, BATCH_LIMIT, blocks, proofs)
  {
    assert RunFrom(chain, h, |blocks|) == RunFrom(target, h, |blocks|);
    assert RunFrom(chain, h, |proofs|) == RunFrom(target, h, |proofs|);
    if h + |blocks| <= |chain| {
      assert RunFrom(chain, h, |blocks| + 1) == RunFrom(target, h, |blocks| + 1);
    }
  }

  /** An honest batch for the next height is applied in full. */
  lemma HonestBatchApplies(cfg: Config, before: seq<Entry>, target: seq<Entry>, known: nat,
                           blocks: seq<Block>, proofs: seq<ConsensusProof>, n: nat, after: seq<Entry>)
    requires WellFormed(cfg) && ValidChain(cfg, AsCoded, target) && Blocks(before) <= Blocks(target)
    requires GreedyBatch(cfg, target, known, |before| + 1, BATCH_LIMIT, blocks, proofs)
    requires AppliedUpTo(cfg, before, Zip(blocks, proofs), |before| + 1, n, after)
    ensures n == |Zip(blocks, proofs)| == |blocks| > 0
    ensures Blocks(after) <= Blocks(target)
  {
    hide ValidChain, Joins, GreedyBatch, JoinAll, WellFormed, Zip;
    var es := Zip(blocks, proofs);
    AppliedOrNot(cfg, before, es, |before| + 1, n, after);
    HonestBatchIsRun(cfg, before, target, known, blocks, proofs);
    SoFarTarget(before, target, es, n);
    if n < |es| {
      TargetJoins(cfg, after, target);
    }
  }

  lemma TargetJoins(cfg: Config, mine: seq<Entry>, target: seq<Entry>)
    requires WellFormed(cfg) && ValidChain(cfg, AsCoded, target) && |mine| < |target|
    requires Blocks(mine) == Blocks(target)[..|mine|]
    ensures Joins(cfg, mine, target[|mine|], |mine| + 1)
  {
    hide ValidChain, Applicable, WellFormed;
    NextOfTarget(cfg, target, |mine|);
  }

  lemma SoFarTarget(before: seq<Entry>, target: seq<Entry>, es: seq<Entry>, n: nat)
    requires Blocks(before) <= Blocks(target) && n <= |es| && |before| + |es| <= |target|
    requires forall i :: 0 <= i < |es| ==> es[i] == target[|before| + i]
    ensures Blocks(before + es[..n]) == Blocks(target)[..|before| + n]
  {
    assert forall i :: 0 <= i < |before| ==> before[i].block == Blocks(target)[i];
  }

  lemma HonestBatchIsRun(cfg: Config, before: seq<Entry>, target: seq<Entry>, known: nat,
                         blocks: seq<Block>, proofs: seq<ConsensusProof>)
    requires GreedyBatch(cfg, target, known, |before| + 1, BATCH_LIMIT, blocks, proofs)
    ensures |Zip(blocks, proofs)| == |blocks| > 0 && |before| + |blocks| <= |target|
    ensures forall i :: 0 <= i < |blocks| ==> Zip(blocks, proofs)[i] == target[|before| + i]
  {
    var start := |before| + 1;
    assert RunFrom(target, start, |proofs|) == target[|before|..|before| + |proofs|];
    assert RunFrom(target, start, |blocks|) == target[|before|..|before| + |blocks|];
  }

  // ---- How long the loop runs ----

  predicate IsEmpty(reply: Reply) {
    reply.Batch? && reply.blocks == []
  }

  /** Our chain and the height to ask for next. */
  datatype Progress = Progress(chain: seq<Entry>, height: nat)

  /** Where the loop stands before request number `k`; None when it has ended by then. */
  function Syncing(cfg: Config, peer: Peer, mine: seq<Entry>, k: nat): (p: Option<Progress>)
    ensures p.Some? ==> peer.highest.Some? && |mine| < p.value.height <= peer.highest.value
  {
    if k == 0 then
      if peer.highest.Some? && |mine| < peer.highest.value then Some(Progress(mine, |mine| + 1)) else None
    else
      match Syncing(cfg, peer, mine, k - 1)
      case None => None
      case Some(p) => Answered(cfg, peer.highest.value, p, peer.serve(k - 1, p.height))
  }

  /** What one answer does to the loop. */
  function Answered(cfg: Config, theirHighest: nat, p: Progress, reply: Reply): (q: Option<Progress>)
    ensures q.Some? ==> reply.Batch? && q.value.height == p.height + |reply.blocks| <= theirHighest
    ensures IsEmpty(reply) && p.height <= theirHighest ==> q == Some(p)
  {
    if !reply.Batch? then None
    else
      match JoinAll(cfg, p.chain, Zip(reply.blocks, reply.proofs), p.height)
      case None => None
      case Some(chain) =>
        var height := p.height + |reply.blocks|;
        if height <= theirHighest then Some(Progress(chain, height)) else None
  }

  /** How many of the first `n` requests are answered by an empty batch. */
  function Empties(cfg: Config, peer: Peer, mine: seq<Entry>, n: nat): nat {
    if n == 0 then 0
    else
      var p := Syncing(cfg, peer, mine, n - 1);
      Empties(cfg, peer, mine, n - 1) + if p.Some? && IsEmpty(peer.serve(n - 1, p.value.height)) then 1 else 0
  }

  /** Each request but the empty ones brings the sync at least one height further. */
  lemma {:induction false} RequestsBounded(cfg: Config, peer: Peer, mine: seq<Entry>, k: nat)
    requires Syncing(cfg, peer, mine, k).Some?
    ensures k <= Syncing(cfg, peer, mine, k).value.height - |mine| - 1 + Empties(cfg, peer, mine, k)
  {
    hide Answered;
    if k > 0 {
      RequestsBounded(cfg, peer, mine, k - 1);
    }
  }

  /** So a peer whose batches are never empty is asked at most once for each missing height,
      however patient we are. */
  lemma {:induction false} NoEmptyNoDelay(cfg: Config, peer: Peer, mine: seq<Entry>, k: nat)
    requires Syncing(cfg, peer, mine, k).Some?
    requires forall j, h :: !IsEmpty(peer.serve(j, h))
    ensures Empties(cfg, peer, mine, k) == 0 && k < peer.highest.value - |mine|
  {
    hide Answered;
    RequestsBounded(cfg, peer, mine, k);
    if k > 0 {
      NoEmptyNoDelay(cfg, peer, mine, k - 1);
    }
  }

  /** The loop only goes on, and upwards. */
  lemma {:induction false} SyncGrows(cfg: Config, peer: Peer, mine: seq<Entry>, j: nat, k: nat)
    requires j <= k && Syncing(cfg, peer, mine, k).Some?
    ensures Syncing(cfg, peer, mine, j).Some?
    ensures Syncing(cfg, peer, mine, j).value.height <= Syncing(cfg, peer, mine, k).value.height
  {
    hide Answered;
    if j < k {
      SyncGrows(cfg, peer, mine, j, k - 1);
    }
  }

  ghost predicate NeverEnds(cfg: Config, peer: Peer, mine: seq<Entry>) {
    forall k :: Syncing(cfg, peer, mine, k).Some?
  }

  /** From request number `k` on, for height `h`, every batch is empty. */
  ghost predicate EmptyFrom(peer: Peer, k: nat, h: nat) {
    forall j :: j >= k ==> IsEmpty(peer.serve(j, h))
  }

  /** At request number `k` the loop stands at a height for which every batch is empty from now on. */
  ghost predicate StuckAt(cfg: Config, peer: Peer, mine: seq<Entry>, k: nat) {
    Syncing(cfg, peer, mine, k).Some? && EmptyFrom(peer, k, Syncing(cfg, peer, mine, k).value.height)
  }

  /** A patient loop runs for ever exactly if it comes to a height for which the peer sends
      empty batches from then on. */
  lemma NeverEndsIff(cfg: Config, peer: Peer, mine: seq<Entry>)
    ensures NeverEnds(cfg, peer, mine) <==> exists k :: StuckAt(cfg, peer, mine, k)
  {
    if NeverEnds(cfg, peer, mine) {
      var k := Settles(cfg, peer, mine, 0);
      assert StuckAt(cfg, peer, mine, k);
    }
    if k: nat :| StuckAt(cfg, peer, mine, k) {
      forall j: nat ensures Syncing(cfg, peer, mine, j).Some? {
        if j <= k {
          SyncGrows(cfg, peer, mine, j, k);
        } else {
          StaysAt(cfg, peer, mine, k, j);
        }
      }
      assert NeverEnds(cfg, peer, mine);
    }
  }

  /** Heights only grow and have a bound, so they stop growing. */
  lemma {:induction false} Settles(cfg: Config, peer: Peer, mine: seq<Entry>, from: nat) returns (k: nat)
    requires NeverEnds(cfg, peer, mine)
    ensures StuckAt(cfg, peer, mine, k)
    decreases peer.highest.value - Syncing(cfg, peer, mine, from).value.height
  {
    hide Answered;
    assert Syncing(cfg, peer, mine, from).Some?;
    var h := Syncing(cfg, peer, mine, from).value.height;
    if EmptyFrom(peer, from, h) {
      return from;
    }
    var j :| j >= from && !IsEmpty(peer.serve(j, h));
    assert Syncing(cfg, peer, mine, j + 1).Some?;
    SyncGrows(cfg, peer, mine, from, j);
    SyncGrows(cfg, peer, mine, j, j + 1);
    k := Settles(cfg, peer, mine, j + 1);
  }

  lemma {:induction false} StaysAt(cfg: Config, peer: Peer, mine: seq<Entry>, k: nat, j: nat)
    requires StuckAt(cfg, peer, mine, k) && k <= j
    ensures Syncing(cfg, peer, mine, j) == Syncing(cfg, peer, mine, k)
  {
    hide Answered;
    if k < j {
      StaysAt(cfg, peer, mine, k, j - 1);
    }
  }

  /** A peer that only sends empty batches keeps the loop where it began. */
  lemma EmptyPeer(cfg: Config, peer: Peer, mine: seq<Entry>, k: nat)
    requires peer.highest.Some? && |mine| < peer.highest.value && EmptyFrom(peer, 0, |mine| + 1)
    ensures Syncing(cfg, peer, mine, k) == Some(Progress(mine, |mine| + 1))
  {
    StaysAt(cfg, peer, mine, 0, k);
  }

  /** After `n` answers the loop holds `chain` and is about to ask for `height`, or has ended just
      now. */
  ghost predicate Going(cfg: Config, peer: Peer, mine: seq<Entry>, n: nat, chain: seq<Entry>, height: nat)
    requires peer.highest.Some?
  {
    && n <= peer.patience
    && Syncing(cfg, peer, mine, n) == (if height <= peer.highest.value then Some(Progress(chain, height)) else None)
    && (n > 0 ==> Syncing(cfg, peer, mine, n - 1).Some?)
  }

  /** The number of requests made: as many as the patient loop would make, or one more than the
      peer has patience for. */
  ghost predicate RequestsMade(cfg: Config, peer: Peer, mine: seq<Entry>, requests: nat) {
    && (requests > 0 ==>
      && Syncing(cfg, peer, mine, requests - 1).Some?
      && requests <= peer.highest.value - |mine| + Empties(cfg, peer, mine, requests))
    && (if Syncing(cfg, peer, mine, peer.patience).Some? then requests == peer.patience + 1
        else requests <= peer.patience && Syncing(cfg, peer, mine, requests).None?)
  }

  /** How the sync ends, by what the last answer was. */
  ghost predicate EndsBy(cfg: Config, peer: Peer, mine: seq<Entry>, requests: nat, after: seq<Entry>,
                         res: Result<nat, SyncError>) {
    if requests == 0 then
      && after == mine
      && res == (if peer.highest.None? then Err(NoSummary) else Ok(0))
      && (peer.highest.Some? ==> peer.highest.value <= |mine|)
    else
      var p := Syncing(cfg, peer, mine, requests - 1);
      && p.Some?
      && match Request(peer, requests - 1, p.value.height)
         case Failed => after == p.value.chain && res == Err(NoAnswer)
         case Missing => after == p.value.chain && res == Err(MissingBlock)
         case Undecodable => after == p.value.chain && res == Err(BadEncoding)
         case Batch(blocks, proofs) =>
           exists n :: BatchEnds(cfg, |mine|, p.value, Zip(blocks, proofs), n, after, res)
  }

  ghost predicate BatchEnds(cfg: Config, mine: nat, p: Progress, es: seq<Entry>, n: nat, after: seq<Entry>,
                            res: Result<nat, SyncError>) {
    && AppliedUpTo(cfg, p.chain, es, p.height, n, after)
    && if n < |es| then res == Err(Refusal(es[n], p.height + n))
       else |after| >= mine && res == Ok(|after| - mine)
  }

  lemma EndsNow(cfg: Config, peer: Peer, mine: seq<Entry>, k: nat, chain: seq<Entry>, height: nat,
                n: nat, after: seq<Entry>, res: Result<nat, SyncError>)
    requires peer.highest.Some? && Going(cfg, peer, mine, k, chain, height) && height <= peer.highest.value
    requires match Request(peer, k, height)
             case Failed => after == chain && res == Err(NoAnswer)
             case Missing => after == chain && res == Err(MissingBlock)
             case Undecodable => after == chain && res == Err(BadEncoding)
             case Batch(blocks, proofs) =>
               BatchEnds(cfg, |mine|, Progress(chain, height), Zip(blocks, proofs), n, after, res)
    ensures EndsBy(cfg, peer, mine, k + 1, after, res)
  {
    hide BatchEnds, Request, Zip, Syncing;
  }

  /** attempt_blksync with no other applier at work. Whatever the peer sends, only entries that
      pass apply_block join the chain, and Ok counts them. The requests made are at most the
      heights missing and the empty batches received, and use up the peer's patience exactly if
      the loop would go on. From an honest peer the sync succeeds and catches up. */
  method AttemptBlksync(storage: Storage, peer: Peer, ghost target: seq<Entry>)
    returns (res: Result<nat, SyncError>, ghost requests: nat)
    requires storage.Valid()
    modifies storage, storage.mempool
    ensures storage.Valid() && old(storage.chain) <= storage.chain
    ensures res.Ok? ==> |storage.chain| == |old(storage.chain)| + res.value
    ensures RequestsMade(storage.cfg, peer, old(storage.chain), requests)
    ensures EndsBy(storage.cfg, peer, old(storage.chain), requests, storage.chain, res)
    ensures var last := Syncing(storage.cfg, peer, old(storage.chain), peer.patience);
            last.Some? ==> res == Err(NoAnswer) && storage.chain == last.value.chain
    ensures HonestPeer(storage.cfg, peer, old(storage.chain), target) ==>
              res.Ok? && Blocks(storage.chain) <= Blocks(target) && |storage.chain| >= peer.highest.value
  {
    hide StoreInv, Applicable, Acceptable, ValidChain, AppliedUpTo, GreedyBatch, StateAt, JoinAll, Syncing, Empties,
         Going, RequestsMade, EndsBy, BatchEnds;
    EndsAtOnce(storage.cfg, peer, storage.chain);
    LoopBegins(storage.cfg, peer, storage.chain);
    if peer.highest.None? {
      return Err(NoSummary), 0;
    }
    var theirHighest := peer.highest.value;
    var myHighest := storage.HighestHeight();
    if theirHighest <= myHighest {
      return Ok(0), 0;
    }
    WellFormedStore(storage.cfg, storage.chain, storage.db, storage.forest, storage.oldCache);
    ghost var cfg, start := storage.cfg, storage.chain;
    ghost var honest := HonestPeer(cfg, peer, start, target);
    var applied := 0;
    var height := myHighest + 1;
    var k := 0;
    while height <= theirHighest
      invariant storage.Valid() && start <= storage.chain
      invariant |storage.chain| == |start| + applied && |storage.chain| < height
      invariant Going(cfg, peer, start, k, storage.chain, height) && k <= peer.patience
      invariant honest ==> Blocks(storage.chain) <= Blocks(target) && height == |storage.chain| + 1 && k <= applied
      invariant if k == 0 then height == myHighest + 1 else EndsBy(cfg, peer, start, k, storage.chain, Ok(applied))
      decreases peer.patience - k
    {
      ghost var before := storage.chain;
      OneRequest(cfg, peer, start, k, before, height);
      match Request(peer, k, height) {
        case Failed =>
          EndsNow(cfg, peer, start, k, before, height, 0, before, Err(NoAnswer));
          return Err(NoAnswer), k + 1;
        case Missing =>
          EndsNow(cfg, peer, start, k, before, height, 0, before, Err(MissingBlock));
          return Err(MissingBlock), k + 1;
        case Undecodable =>
          EndsNow(cfg, peer, start, k, before, height, 0, before, Err(BadEncoding));
          return Err(BadEncoding), k + 1;
        case Batch(blocks, proofs) =>
          var problem, n := ApplyAll(storage, blocks, proofs, height);
          if honest {
            HonestBatchApplies(cfg, before, target, theirHighest, blocks, proofs, n, storage.chain);
          }
          AppliedOrNot(cfg, before, Zip(blocks, proofs), height, n, storage.chain);
          BatchDone(cfg, |start|, Progress(before, height), Zip(blocks, proofs), n, storage.chain);
          if problem.Some? {
            EndsNow(cfg, peer, start, k, before, height, n, storage.chain, Err(problem.value));
            return Err(problem.value), k + 1;
          }
          applied := applied + |Zip(blocks, proofs)|;
          EndsNow(cfg, peer, start, k, before, height, n, storage.chain, Ok(applied));
          height := height + |blocks|;
      }
      k := k + 1;
    }
    LoopEnds(cfg, peer, start, k, storage.chain, height);
    return Ok(applied), k;
  }

  lemma BatchDone(cfg: Config, mine: nat, p: Progress, es: seq<Entry>, n: nat, after: seq<Entry>)
    requires AppliedUpTo(cfg, p.chain, es, p.height, n, after) && |after| >= mine
    ensures BatchEnds(cfg, mine, p, es, n, after,
                      if n < |es| then Err(Refusal(es[n], p.height + n)) else Ok(|after| - mine))
  {
    hide Refusal, JoinAll, Joins;
  }

  lemma EndsAtOnce(cfg: Config, peer: Peer, mine: seq<Entry>)
    ensures peer.highest.None? ==> EndsBy(cfg, peer, mine, 0, mine, Err(NoSummary))
    ensures peer.highest.Some? && peer.highest.value <= |mine| ==> EndsBy(cfg, peer, mine, 0, mine, Ok(0))
  {
  }

  lemma LoopBegins(cfg: Config, peer: Peer, mine: seq<Entry>)
    ensures if peer.highest.Some? && |mine| < peer.highest.value then Going(cfg, peer, mine, 0, mine, |mine| + 1)
            else RequestsMade(cfg, peer, mine, 0) && Syncing(cfg, peer, mine, peer.patience).None?
  {
    if Syncing(cfg, peer, mine, peer.patience).Some? {
      SyncGrows(cfg, peer, mine, 0, peer.patience);
    }
  }

  /** A request that does not bring a batch that joins in full is the last one. */
  lemma OneRequest(cfg: Config, peer: Peer, mine: seq<Entry>, k: nat, chain: seq<Entry>, height: nat)
    requires peer.highest.Some? && Going(cfg, peer, mine, k, chain, height) && height <= peer.highest.value
    ensures var reply := Request(peer, k, height);
            if reply.Batch? && JoinAll(cfg, chain, Zip(reply.blocks, reply.proofs), height).Some? then
              Going(cfg, peer, mine, k + 1, JoinAll(cfg, chain, Zip(reply.blocks, reply.proofs), height).value,
                  height + |reply.blocks|)
            else
              && RequestsMade(cfg, peer, mine, k + 1)
              && (Syncing(cfg, peer, mine, peer.patience).Some? ==>
                    reply.Failed? && Syncing(cfg, peer, mine, peer.patience).value.chain == chain)
  {
    hide JoinAll, Empties;
    CountedBound(cfg, peer, mine, k + 1);
    if k < peer.patience && Syncing(cfg, peer, mine, k + 1).None? {
      EndsForGood(cfg, peer, mine, k + 1, peer.patience);
    }
  }

  lemma EndsForGood(cfg: Config, peer: Peer, mine: seq<Entry>, j: nat, k: nat)
    requires j <= k && Syncing(cfg, peer, mine, j).None?
    ensures Syncing(cfg, peer, mine, k).None?
  {
    if Syncing(cfg, peer, mine, k).Some? {
      SyncGrows(cfg, peer, mine, j, k);
    }
  }

  lemma CountedBound(cfg: Config, peer: Peer, mine: seq<Entry>, n: nat)
    requires n > 0 && Syncing(cfg, peer, mine, n - 1).Some?
    ensures n <= peer.highest.value - |mine| + Empties(cfg, peer, mine, n)
  {
    hide Syncing, IsEmpty;
    RequestsBounded(cfg, peer, mine, n - 1);
  }

  lemma LoopEnds(cfg: Config, peer: Peer, mine: seq<Entry>, k: nat, chain: seq<Entry>, height: nat)
    requires peer.highest.Some? && Going(cfg, peer, mine, k, chain, height) && height > peer.highest.value
    ensures RequestsMade(cfg, peer, mine, k) && Syncing(cfg, peer, mine, peer.patience).None?
  {
    EndsForGood(cfg, peer, mine, k, peer.patience);
    if k > 0 {
      CountedBound(cfg, peer, mine, k);
    }
  }

  /** A peer that extends our chain and answers single-block requests from its own. */
  ghost predicate HonestFetch(cfg: Config, highest: Option<nat>, fetch: nat -> Option<Entry>, mine: seq<Entry>,
                              target: seq<Entry>) {
    && ValidChain(cfg, AsCoded, target) && Blocks(mine) <= Blocks(target)
    && highest.Some? && highest.value <= |target|
    && forall h :: 1 <= h <= |target| ==> fetch(h) == Some(target[h - 1])
  }

  /** attempt_blksync_legacy: one block per request, at most `most` of them. */
  method AttemptBlksyncLegacy(storage: Storage, highest: Option<nat>, fetch: nat -> Option<Entry>, most: nat,
                              ghost target: seq<Entry>)
    returns (res: Result<nat, SyncError>)
    requires storage.Valid()
    modifies storage, storage.mempool
    ensures storage.Valid() && old(storage.chain) <= storage.chain
    ensures res.Ok? ==> |storage.chain| == |old(storage.chain)| + res.value
    ensures res == Err(NoSummary) <==> highest.None?
    ensures res.Err? && highest.Some? ==>
              && |storage.chain| - |old(storage.chain)| < most && |storage.chain| < highest.value
              && var got := fetch(|storage.chain| + 1);
                 if got.None? then res == Err(MissingBlock)
                 else
                   && res == Err(Refusal(got.value, |storage.chain| + 1))
                   && !Applicable(storage.cfg, AsCoded, Blocks(storage.chain), got.value)
    ensures res.Ok? && highest.value > |old(storage.chain)| ==>
              |storage.chain| == if highest.value - |old(storage.chain)| < most then highest.value
                                 else |old(storage.chain)| + most
    ensures HonestFetch(storage.cfg, highest, fetch, old(storage.chain), target) ==>
              res.Ok? && Blocks(storage.chain) <= Blocks(target)
  {
    hide StoreInv, Applicable, Acceptable, ValidChain, StateAt, VotesPass;
    if highest.None? {
      return Err(NoSummary);
    }
    var myHighest := storage.HighestHeight();
    if highest.value <= myHighest {
      return Ok(0);
    }
    WellFormedStore(storage.cfg, storage.chain, storage.db, storage.forest, storage.oldCache);
    ghost var start := storage.chain;
    ghost var honest := HonestFetch(storage.cfg, highest, fetch, start, target);
    var toret := 0;
    while toret < most && myHighest + toret < highest.value
      invariant storage.Valid() && start <= storage.chain && |storage.chain| == |start| + toret
      invariant toret <= most && myHighest + toret <= highest.value
      invariant honest ==> Blocks(storage.chain) <= Blocks(target)
    {
      var height := myHighest + toret + 1;
      var got := fetch(height);
      if got.None? {
        return Err(MissingBlock);
      }
      if honest {
        NextApplies(storage.cfg, storage.chain, target);
      }
      if got.value.block.header.height != height {
        NotNext(storage.cfg, storage.chain, got.value);
        return Err(WrongBlock);
      }
      var applied := storage.ApplyBlock(got.value.block, got.value.proof);
      if applied.Err? {
        return Err(CannotApply);
      }
      toret := toret + 1;
    }
    return Ok(toret);
  }

  lemma NotNext(cfg: Config, chain: seq<Entry>, e: Entry)
    requires WellFormed(cfg) && e.block.header.height != |chain| + 1
    ensures !Applicable(cfg, AsCoded, Blocks(chain), e)
  {
    if Applicable(cfg, AsCoded, Blocks(chain), e) {
      NextHeight(cfg, Blocks(chain), e);
    }
    hide Acceptable;
  }

  lemma NextApplies(cfg: Config, mine: seq<Entry>, target: seq<Entry>)
    requires WellFormed(cfg) && ValidChain(cfg, AsCoded, target) && Blocks(mine) <= Blocks(target) && |mine| < |target|
    ensures target[|mine|].block.header.height == |mine| + 1
    ensures Applicable(cfg, AsCoded, Blocks(mine), target[|mine|])
    ensures Blocks(mine + [target[|mine|]]) <= Blocks(target)
  {
    hide ValidChain, Applicable, StateAt, TableAt, WellFormed;
    var e := target[|mine|];
    assert Blocks(mine) == Blocks(target)[..|mine|];
    NextOfTarget(cfg, target, |mine|);
    BlocksOfAppend(mine, e);
    assert Blocks(mine) + [e.block] == Blocks(target)[..|mine| + 1];
  }

  lemma NextOfTarget(cfg: Config, target: seq<Entry>, n: nat)
    requires WellFormed(cfg) && ValidChain(cfg, AsCoded, target) && n < |target|
    ensures target[n].block.header.height == n + 1
    ensures Applicable(cfg, AsCoded, Blocks(target)[..n], target[n])
  {
    hide ValidChain, Applicable, StateAt, TableAt, WellFormed;
    ValidPrefix(cfg, AsCoded, target, n);
    ValidChainReplays(cfg, AsCoded, target);
    ReplayFacts(cfg, Blocks(target));
  }
}
