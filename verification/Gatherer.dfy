/** Gathering a consensus proof key by key, and the weight map handed to the decider. */
module Gatherer {
  import opened Structs
  import opened Quorum

  type Sigs = map<PubKey, Signature>

  /** The gatherer's stopping condition, on the keys it holds. */
  predicate Enough(docs: seq<StakeDoc>, epoch: nat, sigs: Sigs) {
    StakeOf(docs, epoch, sigs.Keys) > TotalStake(docs, epoch) * 2 / 3
  }

  /** The gathered map after the given answers; None is a neighbour that could not be reached. */
  function Merged(own: Sigs, replies: seq<Option<Sigs>>): Sigs {
    if |replies| == 0 then own
    else
      var before := Merged(own, replies[..|replies| - 1]);
      match replies[|replies| - 1]
      case None => before
      case Some(m) => before + m
  }

  lemma EnoughIs(docs: seq<StakeDoc>, epoch: nat, sigs: Sigs)
    ensures Enough(docs, epoch, sigs) <==> StakeOf(docs, epoch, sigs.Keys) > TotalStake(docs, epoch) * 2 / 3
  {
  }

  /** What the gatherer holds after `n` answers: the keys of its own map and of every answer, each
      with the signature of the last answer that has it. */
  ghost predicate Gathered(own: Sigs, replies: seq<Option<Sigs>>, n: nat, sigs: Sigs)
    requires n <= |replies|
  {
    forall k :: HoldsOf(own, replies, n, k, if k in sigs then Some(sigs[k]) else None)
  }

  ghost predicate HoldsOf(own: Sigs, replies: seq<Option<Sigs>>, n: nat, k: PubKey, held: Option<Signature>)
    requires n <= |replies|
  {
    if exists i :: 0 <= i < n && Has(replies[i], k) then
      exists i :: && 0 <= i < n && Has(replies[i], k) && held == Some(replies[i].value[k])
                  && forall j :: i < j < n ==> !Has(replies[j], k)
    else held == if k in own then Some(own[k]) else None
  }

  predicate Has(reply: Option<Sigs>, k: PubKey) {
    reply.Some? && k in reply.value
  }

  lemma {:induction false} MergedHolds(own: Sigs, replies: seq<Option<Sigs>>, n: nat, k: PubKey)
    requires n <= |replies|
    ensures var m := Merged(own, replies[..n]);
            HoldsOf(own, replies, n, k, if k in m then Some(m[k]) else None)
  {
    if n > 0 {
      MergedHolds(own, replies, n - 1, k);
      assert replies[..n][..n - 1] == replies[..n - 1];
    }
  }

  lemma MergedIsGathered(own: Sigs, replies: seq<Option<Sigs>>, n: nat)
    requires n <= |replies|
    ensures Gathered(own, replies, n, Merged(own, replies[..n]))
  {
    var m := Merged(own, replies[..n]);
    hide Merged, HoldsOf;
    forall k ensures HoldsOf(own, replies, n, k, if k in m then Some(m[k]) else None) {
      MergedHolds(own, replies, n, k);
    }
  }

  /** Keys are never lost, so enough stays enough. */
  lemma GatheredGrows(docs: seq<StakeDoc>, epoch: nat, own: Sigs, replies: seq<Option<Sigs>>, m: nat, n: nat)
    requires m <= n <= |replies|
    ensures own.Keys <= Merged(own, replies[..m]).Keys <= Merged(own, replies[..n]).Keys
    ensures Enough(docs, epoch, Merged(own, replies[..m])) ==> Enough(docs, epoch, Merged(own, replies[..n]))
  {
    forall k | k in own || k in Merged(own, replies[..m])
      ensures k in Merged(own, replies[..m]) && k in Merged(own, replies[..n])
    {
      MergedHolds(own, replies, m, k);
      MergedHolds(own, replies, n, k);
    }
    PresentMonotone(docs, epoch, Merged(own, replies[..m]).Keys, Merged(own, replies[..n]).Keys);
  }

  lemma StakeOfOneMore(docs: seq<StakeDoc>, epoch: nat, keys: set<PubKey>, k: PubKey)
    requires k !in keys
    ensures StakeOf(docs, epoch, keys + {k}) == StakeOf(docs, epoch, keys) + StakeOf(docs, epoch, {k})
  {
    InclusionExclusion(docs, epoch, keys, {k});
    assert keys * {k} == {};
    NoKeysNoStake(docs, epoch);
  }

  /** The sum of `votes(epoch, pk)` over the keys of a map, in any order. */
  method SumVotes(docs: seq<StakeDoc>, epoch: nat, sigs: Sigs) returns (sum: nat)
    ensures sum == StakeOf(docs, epoch, sigs.Keys)
  {
    sum := 0;
    var todo, done := sigs.Keys, {};
    NoKeysNoStake(docs, epoch);
    while todo != {}
      invariant done + todo == sigs.Keys && done !! todo
      invariant sum == StakeOf(docs, epoch, done)
      decreases |todo|
    {
      var k :| k in todo;
      StakeOfOneMore(docs, epoch, done, k);
      sum := sum + StakeOf(docs, epoch, {k});
      todo, done := todo - {k}, done + {k};
    }
    assert done == sigs.Keys;
  }

  /** Insert signatures one by one; a later one replaces an earlier one for the same key. */
  method InsertAll(start: Sigs, received: Sigs) returns (existing: Sigs)
    ensures existing == start + received
  {
    existing := start;
    var todo := received.Keys;
    while todo != {}
      invariant todo <= received.Keys
      invariant existing.Keys == start.Keys + (received.Keys - todo)
      invariant forall k :: k in existing ==>
                  existing[k] == if k in received && k !in todo then received[k] else start[k]
      decreases |todo|
    {
      var k :| k in todo;
      existing := existing[k := received[k]];
      todo := todo - {k};
    }
  }

  class SigGather {
    var sigs: map<nat, Sigs>

    constructor ()
      ensures sigs == map[]
    {
      sigs := map[];
    }

    /** Merge a neighbour's signatures into the map for a height, an empty one if there is none. */
    method Insert(height: nat, received: Sigs)
      modifies this
      ensures sigs == old(sigs)[height := (if height in old(sigs) then old(sigs)[height] else map[]) + received]
    {
      var merged := InsertAll(if height in sigs then sigs[height] else map[], received);
      sigs := sigs[height := merged];
    }

    /** Ask neighbours until the held keys pass the threshold. */
    method GatherProof(height: nat, docs: seq<StakeDoc>, epoch: nat, own: Sigs, replies: seq<Option<Sigs>>)
      returns (proof: Option<ConsensusProof>)
      modifies this
      ensures height in sigs && sigs == old(sigs)[height := sigs[height]]
      ensures proof.Some? ==>
                exists n :: 0 <= n <= |replies| && proof.value == sigs[height] == Merged(own, replies[..n])
                  && Enough(docs, epoch, proof.value) && Gathered(own, replies, n, proof.value)
                  && forall m :: 0 <= m < n ==> !Enough(docs, epoch, Merged(own, replies[..m]))
      ensures proof.None? ==> Gathered(own, replies, |replies|, sigs[height]) && !Enough(docs, epoch, sigs[height])
      ensures proof.None? ==> forall n :: 0 <= n <= |replies| ==> !Enough(docs, epoch, Merged(own, replies[..n]))
    {
      hide Enough, Gathered;
      sigs := sigs[height := own];
      var i := 0;
      while true
        invariant 0 <= i <= |replies|
        invariant height in sigs && sigs == old(sigs)[height := sigs[height]]
        invariant sigs[height] == Merged(own, replies[..i])
        invariant forall m :: 0 <= m < i ==> !Enough(docs, epoch, Merged(own, replies[..m]))
        decreases |replies| - i
      {
        MergedIsGathered(own, replies, i);
        var sum := SumVotes(docs, epoch, sigs[height]);
        EnoughIs(docs, epoch, sigs[height]);
        if sum > TotalStake(docs, epoch) * 2 / 3 {
          return Some(sigs[height]);
        }
        if i == |replies| {
          return None;
        }
        assert replies[..i + 1][..i] == replies[..i];
        match replies[i] {
          case None =>
          case Some(m) => Insert(height, m);
        }
        i := i + 1;
      }
    }
  }

  /** With every gathered signature valid and no epoch change between the base block and the
      next, the gatherer stops exactly on the proofs the two-thirds rule accepts, and those
      pass the check in apply_block. */
  lemma GathererMeetsApplyBlock(cfg: Config, docs: seq<StakeDoc>, header: Header, proof: ConsensusProof)
    requires header.height > 0
    requires cfg.epoch(header.height - 1) == cfg.epoch(header.height)
    requires forall k :: k in proof ==> cfg.verify(k, cfg.headerHash(header), proof[k])
    ensures var signers := Signers(cfg.verify, cfg.headerHash(header), proof);
            var gatherEpoch := cfg.epoch(header.height - 1);
            var applyEpoch := cfg.epoch(header.height);
            && (Enough(docs, gatherEpoch, proof) <==> Passes(Intended, docs, applyEpoch, signers))
            && (Enough(docs, gatherEpoch, proof) ==> Passes(AsCoded, docs, applyEpoch, signers))
  {
    var signers := Signers(cfg.verify, cfg.headerHash(header), proof);
    assert signers == proof.Keys;
    IntendedImpliesCoded(docs, cfg.epoch(header.height), signers);
  }

  /** Exactly when stopping is safe: whatever the stake documents, a proof the gatherer stops on
      passes the votes check of the next block, if and only if the epoch has not changed and
      every gathered signature is valid. This holds of either tally. */
  lemma GathererSafeIff(cfg: Config, tally: Tally, header: Header, proof: ConsensusProof)
    requires header.height > 0
    ensures (forall docs :: Enough(docs, cfg.epoch(header.height - 1), proof) ==>
               Passes(tally, docs, cfg.epoch(header.height), Signers(cfg.verify, cfg.headerHash(header), proof)))
       <==> proof == map[] || (&& cfg.epoch(header.height - 1) == cfg.epoch(header.height)
                               && forall k :: k in proof ==> cfg.verify(k, cfg.headerHash(header), proof[k]))
  {
    var e1, e2 := cfg.epoch(header.height - 1), cfg.epoch(header.height);
    var signers := Signers(cfg.verify, cfg.headerHash(header), proof);
    if proof == map[] {
      forall docs: seq<StakeDoc> ensures !Enough(docs, e1, proof) {
        assert proof.Keys == {};
        NoKeysNoStake(docs, e1);
      }
    } else if e1 == e2 && signers == proof.Keys {
      forall docs: seq<StakeDoc> | Enough(docs, e1, proof) ensures Passes(tally, docs, e2, signers) {
        IntendedImpliesCoded(docs, e2, signers);
      }
    } else {
      var k :| k in proof && (e1 != e2 || k !in signers);
      LoneStake(k, e1, e2, signers, proof);
      var docs := [StakeDoc(k, e1, e1 + 1, 1)];
      assert !(Enough(docs, e1, proof) ==> Passes(tally, docs, e2, signers));
    }
  }

  /** A key holding all the stake of one epoch satisfies the gatherer in that epoch, and fails
      the check in another epoch or without a valid signature. */
  lemma LoneStake(k: PubKey, e1: nat, e2: nat, signers: set<PubKey>, proof: ConsensusProof)
    requires k in proof && (e1 != e2 || k !in signers)
    ensures var docs := [StakeDoc(k, e1, e1 + 1, 1)];
            Enough(docs, e1, proof) && !Passes(AsCoded, docs, e2, signers) && !Passes(Intended, docs, e2, signers)
  {
    var d := StakeDoc(k, e1, e1 + 1, 1);
    assert [d][..0] == [];
    assert StakeOf([d], e1, proof.Keys) == 1 && TotalStake([d], e1) == 1;
    assert StakeOf([d], e2, signers) == RunningPresent([d], e2, signers) == 0;
  }

  /** Across an epoch boundary the gatherer can stop on a proof that apply_block rejects: the
      only signer's stake ends with the old epoch. */
  lemma GathererFailsAcrossEpochs(a: PubKey, b: PubKey, s: Signature, epoch: nat)
    requires a != b
    ensures var docs := [StakeDoc(a, epoch, epoch + 1, 1), StakeDoc(b, epoch + 1, epoch + 2, 1)];
            && Enough(docs, epoch, map[a := s])
            && !Passes(AsCoded, docs, epoch + 1, {a})
  {
    var d1, d2 := StakeDoc(a, epoch, epoch + 1, 1), StakeDoc(b, epoch + 1, epoch + 2, 1);
    var docs := [d1, d2];
    assert docs[..1] == [d1] && [d1][..0] == [];
    assert map[a := s].Keys == {a};
    assert TotalStake(docs, epoch) == TotalStake([d1], epoch) == 1;
    assert StakeOf(docs, epoch, {a}) == StakeOf([d1], epoch, {a}) == 1;
    assert RunningPresent(docs, epoch + 1, {a}) == RunningPresent([d1], epoch + 1, {a}) == 0;
  }

  /** An unchecked signature counts for the gatherer and not for apply_block: a neighbour's
      junk under the only staker's key replaces the good signature. */
  lemma GathererTrustsJunk(a: PubKey, good: Signature, junk: Signature, hash: Hash,
                           verify: (PubKey, Hash, Signature) -> bool)
    requires verify(a, hash, good) && !verify(a, hash, junk)
    ensures var docs := [StakeDoc(a, 0, 1, 1)];
            var gathered := Merged(map[a := good], [Some(map[a := junk])]);
            && Enough(docs, 0, gathered)
            && Passes(AsCoded, docs, 0, Signers(verify, hash, map[a := good]))
            && !Passes(AsCoded, docs, 0, Signers(verify, hash, gathered))
  {
    var d := StakeDoc(a, 0, 1, 1);
    var own: Sigs, reply: Sigs := map[a := good], map[a := junk];
    assert [Some(reply)][..0] == [];
    assert Merged(own, [Some(reply)]) == own + reply == reply;
    assert reply.Keys == {a};
    assert [d][..0] == [];
    assert TotalStake([d], 0) == 1 && StakeOf([d], 0, {a}) == 1 && RunningPresent([d], 0, {a}) == 1;
    assert Signers(verify, hash, own) == {a};
    assert Signers(verify, hash, reply) == {};
    assert RunningPresent([d], 0, {}) == 0;
  }

  // ---- vote_weights ----

  const U64: nat := 0x1_0000_0000_0000_0000

  /** The fold in vote_weights: each stake is cast to u64, which drops its high bits, and added to
      its key's entry. None where the addition overflows: the build profiles of the node check
      for overflow and abort. */
  function VoteWeights(docs: seq<StakeDoc>, epoch: nat): Option<map<PubKey, nat>> {
    if |docs| == 0 then Some(map[])
    else
      match VoteWeights(docs[..|docs| - 1], epoch)
      case None => None
      case Some(m) =>
        var d := docs[|docs| - 1];
        if Active(d, epoch) then
          var sum := (if d.pubkey in m then m[d.pubkey] else 0) + d.symsStaked % U64;
          if sum < U64 then Some(m[d.pubkey := sum]) else None
        else Some(m)
  }

  /** The active stakes of one key, each cast to u64. */
  function CastStake(docs: seq<StakeDoc>, epoch: nat, k: PubKey): nat {
    if |docs| == 0 then 0
    else
      var d := docs[|docs| - 1];
      CastStake(docs[..|docs| - 1], epoch, k) + if d.pubkey == k then Weight(d, epoch) % U64 else 0
  }

  ghost predicate HasStake(docs: seq<StakeDoc>, epoch: nat, k: PubKey) {
    exists d :: d in docs && d.eStart <= epoch < d.ePostEnd && d.pubkey == k
  }

  /** What a document adds to the casts of a key, wherever it stands in the list. */
  lemma {:induction false} CastCounts(docs: seq<StakeDoc>, rest: seq<StakeDoc>, d: StakeDoc, epoch: nat, k: PubKey)
    ensures CastStake(docs + [d] + rest, epoch, k)
         == CastStake(docs + rest, epoch, k)
            + if d.pubkey == k && d.eStart <= epoch < d.ePostEnd then d.symsStaked % 0x1_0000_0000_0000_0000 else 0
  {
    var all := docs + [d] + rest;
    if |rest| == 0 {
      assert all[..|all| - 1] == docs == docs + rest;
    } else {
      assert all[..|all| - 1] == docs + [d] + rest[..|rest| - 1];
      assert (docs + rest)[..|docs + rest| - 1] == docs + rest[..|rest| - 1];
      CastCounts(docs, rest[..|rest| - 1], d, epoch, k);
    }
  }

  /** vote_weights returns, whatever the order of the documents, exactly if the casts of no key
      add up to 2^64; the map then has a key for every active document and holds those sums. */
  lemma {:induction false} VoteWeightsAreVotes(docs: seq<StakeDoc>, epoch: nat)
    ensures VoteWeights(docs, epoch).Some? <==> forall k :: CastStake(docs, epoch, k) < U64
    ensures VoteWeights(docs, epoch).Some? ==>
              forall k :: Holds(VoteWeights(docs, epoch).value, docs, epoch, k)
  {
    if |docs| > 0 {
      var front, d := docs[..|docs| - 1], docs[|docs| - 1];
      VoteWeightsAreVotes(front, epoch);
      assert docs == front + [d];
      forall k ensures CastStake(front, epoch, k) <= CastStake(docs, epoch, k) {
        OneMoreDoc(front, d, epoch, k);
      }
      OneMoreDoc(front, d, epoch, d.pubkey);
      if VoteWeights(front, epoch).Some? {
        var m := VoteWeights(front, epoch).value;
        assert Holds(m, front, epoch, d.pubkey);
        if VoteWeights(docs, epoch).Some? {
          forall k ensures Holds(VoteWeights(docs, epoch).value, docs, epoch, k) && CastStake(docs, epoch, k) < U64 {
            OneMoreDoc(front, d, epoch, k);
            assert Holds(m, front, epoch, k);
          }
        } else {
          assert CastStake(docs, epoch, d.pubkey) >= U64;
        }
      } else {
        var k :| CastStake(front, epoch, k) >= U64;
        assert CastStake(docs, epoch, k) >= U64;
      }
    }
  }

  ghost predicate Holds(m: map<PubKey, nat>, docs: seq<StakeDoc>, epoch: nat, k: PubKey) {
    && (k in m <==> HasStake(docs, epoch, k))
    && CastStake(docs, epoch, k) == if k in m then m[k] else 0
  }

  lemma OneMoreDoc(front: seq<StakeDoc>, d: StakeDoc, epoch: nat, k: PubKey)
    ensures HasStake(front + [d], epoch, k) <==> HasStake(front, epoch, k) || (Active(d, epoch) && d.pubkey == k)
    ensures CastStake(front + [d], epoch, k)
         == CastStake(front, epoch, k) + if d.pubkey == k then Weight(d, epoch) % U64 else 0
  {
    var docs := front + [d];
    assert docs[..|docs| - 1] == front;
  }

  function SumWeights(weights: map<PubKey, nat>, keys: seq<PubKey>): nat
    requires forall k :: k in keys ==> k in weights
  {
    if |keys| == 0 then 0 else SumWeights(weights, keys[..|keys| - 1]) + weights[keys[|keys| - 1]]
  }

  function AsSet(keys: seq<PubKey>): set<PubKey> {
    set k | k in keys
  }

  predicate Distinct(keys: seq<PubKey>) {
    forall i, j :: 0 <= i < j < |keys| ==> keys[i] != keys[j]
  }

  /** No active document of these keys loses bits in the cast. */
  predicate CastsKeepStakes(docs: seq<StakeDoc>, epoch: nat, keys: set<PubKey>) {
    forall d :: d in docs && Active(d, epoch) && d.pubkey in keys ==> d.symsStaked < U64
  }

  /** The casts of one key add up to at most its stake, and to its stake exactly if no document
      loses bits. */
  lemma {:induction false} CastStakeIsStake(docs: seq<StakeDoc>, epoch: nat, k: PubKey)
    ensures CastStake(docs, epoch, k) <= StakeOf(docs, epoch, {k})
    ensures CastStake(docs, epoch, k) == StakeOf(docs, epoch, {k}) <==> CastsKeepStakes(docs, epoch, {k})
  {
    if |docs| > 0 {
      var front, d := docs[..|docs| - 1], docs[|docs| - 1];
      CastStakeIsStake(front, epoch, k);
      assert docs == front + [d];
    }
  }

  /** Over any distinct keys a returned map sums to at most the stake those keys hold, and to
      exactly that stake precisely when none of their documents loses bits. */
  lemma {:induction false} SumWeightsIsStake(docs: seq<StakeDoc>, epoch: nat, keys: seq<PubKey>)
    requires VoteWeights(docs, epoch).Some?
    requires Distinct(keys) && forall k :: k in keys ==> k in VoteWeights(docs, epoch).value
    ensures var sum := SumWeights(VoteWeights(docs, epoch).value, keys);
            var stake := StakeOf(docs, epoch, AsSet(keys));
            && sum <= stake
            && (sum == stake <==> CastsKeepStakes(docs, epoch, AsSet(keys)))
  {
    if |keys| == 0 {
      assert AsSet(keys) == {};
      NoKeysNoStake(docs, epoch);
    } else {
      var front, last := keys[..|keys| - 1], keys[|keys| - 1];
      SumWeightsIsStake(docs, epoch, front);
      VoteWeightsAreVotes(docs, epoch);
      CastStakeIsStake(docs, epoch, last);
      assert Holds(VoteWeights(docs, epoch).value, docs, epoch, last);
      assert keys == front + [last];
      assert AsSet(keys) == AsSet(front) + {last};
      StakeOfOneMore(docs, epoch, AsSet(front), last);
    }
  }

  /** vote_weights returns a map that sums to the total apply_block computes for the next block
      exactly when no key's stake reaches 2^64; in particular whenever the total is below 2^64.
      When it does return, it falls short exactly by documents of 2^64 or more. */
  lemma VoteWeightsSumToTotal(docs: seq<StakeDoc>, epoch: nat, keys: seq<PubKey>)
    requires Distinct(keys) && forall k :: k in keys <==> HasStake(docs, epoch, k)
    ensures VoteWeights(docs, epoch).Some? ==>
              && (forall k :: k in keys <==> k in VoteWeights(docs, epoch).value)
              && (SumWeights(VoteWeights(docs, epoch).value, keys) == TotalStake(docs, epoch)
                  <==> forall d :: d in docs && Active(d, epoch) ==> d.symsStaked < U64)
    ensures VoteWeights(docs, epoch).Some?
            && SumWeights(VoteWeights(docs, epoch).value, keys) == TotalStake(docs, epoch)
       <==> forall k :: StakeOf(docs, epoch, {k}) < U64
    ensures TotalStake(docs, epoch) < U64 ==> forall k :: StakeOf(docs, epoch, {k}) < U64
  {
    VoteWeightsAreVotes(docs, epoch);
    forall d | d in docs && Active(d, epoch) ensures d.pubkey in AsSet(keys) {
      assert HasStake(docs, epoch, d.pubkey);
    }
    AllKeysAllStake(docs, epoch, AsSet(keys));
    forall k
      ensures CastStake(docs, epoch, k) <= StakeOf(docs, epoch, {k}) <= TotalStake(docs, epoch)
      ensures CastStake(docs, epoch, k) == StakeOf(docs, epoch, {k}) <==> CastsKeepStakes(docs, epoch, {k})
    {
      AtMostTotal(docs, epoch, {k});
      CastStakeIsStake(docs, epoch, k);
    }
    forall d | d in docs && Active(d, epoch) ensures d.symsStaked <= StakeOf(docs, epoch, {d.pubkey}) {
      DocAtMostStake(docs, epoch, d);
    }
    hide VoteWeights, StakeOf, TotalStake, CastStake, SumWeights, HasStake;
    if VoteWeights(docs, epoch).Some? {
      var m := VoteWeights(docs, epoch).value;
      forall k ensures k in m <==> HasStake(docs, epoch, k) {
        assert Holds(m, docs, epoch, k);
      }
      SumWeightsIsStake(docs, epoch, keys);
      if CastsKeepStakes(docs, epoch, AsSet(keys)) {
        forall k ensures StakeOf(docs, epoch, {k}) < U64 {
          assert CastsKeepStakes(docs, epoch, {k}) && CastStake(docs, epoch, k) < U64;
        }
      }
    }
  }

  lemma {:induction false} DocAtMostStake(docs: seq<StakeDoc>, epoch: nat, d: StakeDoc)
    requires d in docs && Active(d, epoch)
    ensures d.symsStaked <= StakeOf(docs, epoch, {d.pubkey})
  {
    if d != docs[|docs| - 1] {
      DocAtMostStake(docs[..|docs| - 1], epoch, d);
    }
  }

  /** One key holding 2^64 in one document is given no weight at all. */
  lemma VoteWeightsTruncate(k: PubKey)
    ensures var docs := [StakeDoc(k, 0, 1, U64)];
            && VoteWeights(docs, 0) == Some(map[k := 0])
            && TotalStake(docs, 0) == U64 && SumWeights(map[k := 0], [k]) == 0
  {
    var d := StakeDoc(k, 0, 1, U64);
    assert [d][..0] == [] && [k][..0] == [];
    assert VoteWeights([], 0) == Some(map[]);
  }

  /** One key holding 2^64 in two documents stops the node. */
  lemma VoteWeightsAbort(k: PubKey)
    ensures VoteWeights([StakeDoc(k, 0, 1, U64 / 2), StakeDoc(k, 0, 1, U64 / 2)], 0).None?
  {
    var d := StakeDoc(k, 0, 1, U64 / 2);
    assert [d][..0] == [] && [d, d][..1] == [d];
    assert VoteWeights([], 0) == Some(map[]);
    assert VoteWeights([d], 0) == Some(map[k := U64 / 2]);
  }
}
