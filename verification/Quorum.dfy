/** The stake-weighted quorum, weighed per document (apply_block), per key (the signature
    gatherer) and folded into a map (vote_weights). */
module Quorum {
  import opened Structs

  /** `AsCoded` adds the running total for each signer; `Intended` adds the signer's own stake. */
  datatype Tally = AsCoded | Intended

  predicate Active(d: StakeDoc, epoch: nat) {
    d.eStart <= epoch < d.ePostEnd
  }

  function Weight(d: StakeDoc, epoch: nat): nat {
    if Active(d, epoch) then d.symsStaked else 0
  }

  function TotalStake(docs: seq<StakeDoc>, epoch: nat): nat {
    if |docs| == 0 then 0
    else TotalStake(docs[..|docs| - 1], epoch) + Weight(docs[|docs| - 1], epoch)
  }

  /** Active stake of the documents whose key is in `keys`. */
  function StakeOf(docs: seq<StakeDoc>, epoch: nat, keys: set<PubKey>): nat {
    if |docs| == 0 then 0
    else
      var d := docs[|docs| - 1];
      StakeOf(docs[..|docs| - 1], epoch, keys) + if d.pubkey in keys then Weight(d, epoch) else 0
  }

  /** What the loop in apply_block accumulates as `present_votes`. */
  function RunningPresent(docs: seq<StakeDoc>, epoch: nat, keys: set<PubKey>): nat {
    if |docs| == 0 then 0
    else
      var d := docs[|docs| - 1];
      RunningPresent(docs[..|docs| - 1], epoch, keys)
      + if Active(d, epoch) && d.pubkey in keys then TotalStake(docs, epoch) else 0
  }

  function Present(tally: Tally, docs: seq<StakeDoc>, epoch: nat, keys: set<PubKey>): nat {
    match tally
    case AsCoded => RunningPresent(docs, epoch, keys)
    case Intended => StakeOf(docs, epoch, keys)
  }

  predicate Passes(tally: Tally, docs: seq<StakeDoc>, epoch: nat, keys: set<PubKey>) {
    Present(tally, docs, epoch, keys) > 2 * TotalStake(docs, epoch) / 3
  }

  /** The keys whose signature in `proof` verifies for `hash`. */
  function Signers(verify: (PubKey, Hash, Signature) -> bool, hash: Hash, proof: ConsensusProof): set<PubKey> {
    set k | k in proof && verify(k, hash, proof[k])
  }

  /** The tally loop of apply_block. */
  method TallyVotes(verify: (PubKey, Hash, Signature) -> bool, docs: seq<StakeDoc>, epoch: nat, hash: Hash,
                    proof: ConsensusProof)
    returns (total: nat, present: nat)
    ensures total == TotalStake(docs, epoch)
    ensures present == RunningPresent(docs, epoch, Signers(verify, hash, proof))
  {
    total, present := 0, 0;
    for i := 0 to |docs|
      invariant total == TotalStake(docs[..i], epoch)
      invariant present == RunningPresent(docs[..i], epoch, Signers(verify, hash, proof))
    {
      assert docs[..i + 1][..i] == docs[..i];
      var d := docs[i];
      if Active(d, epoch) {
        total := total + d.symsStaked;
        if d.pubkey in proof && verify(d.pubkey, hash, proof[d.pubkey]) {
          present := present + total;
        }
      }
    }
    assert docs[..|docs|] == docs;
  }

  // ---- Sums over documents ----

  /** Only the keys that own a document matter. */
  lemma {:induction false} PresentMonotone(docs: seq<StakeDoc>, epoch: nat, a: set<PubKey>, b: set<PubKey>)
    requires forall d :: d in docs && d.pubkey in a ==> d.pubkey in b
    ensures StakeOf(docs, epoch, a) <= StakeOf(docs, epoch, b)
    ensures RunningPresent(docs, epoch, a) <= RunningPresent(docs, epoch, b)
  {
    if |docs| > 0 {
      PresentMonotone(docs[..|docs| - 1], epoch, a, b);
    }
  }

  lemma {:induction false} InclusionExclusion(docs: seq<StakeDoc>, epoch: nat, a: set<PubKey>, b: set<PubKey>)
    ensures StakeOf(docs, epoch, a) + StakeOf(docs, epoch, b)
            == StakeOf(docs, epoch, a + b) + StakeOf(docs, epoch, a * b)
  {
    if |docs| > 0 {
      InclusionExclusion(docs[..|docs| - 1], epoch, a, b);
    }
  }

  lemma {:induction false} NoKeysNoStake(docs: seq<StakeDoc>, epoch: nat)
    ensures StakeOf(docs, epoch, {}) == 0
  {
    if |docs| > 0 {
      NoKeysNoStake(docs[..|docs| - 1], epoch);
    }
  }

  lemma {:induction false} AllKeysAllStake(docs: seq<StakeDoc>, epoch: nat, keys: set<PubKey>)
    requires forall d :: d in docs && Active(d, epoch) ==> d.pubkey in keys
    ensures StakeOf(docs, epoch, keys) == TotalStake(docs, epoch)
  {
    if |docs| > 0 {
      AllKeysAllStake(docs[..|docs| - 1], epoch, keys);
    }
  }

  lemma {:induction false} AtMostTotal(docs: seq<StakeDoc>, epoch: nat, keys: set<PubKey>)
    ensures StakeOf(docs, epoch, keys) <= TotalStake(docs, epoch)
  {
    if |docs| > 0 {
      AtMostTotal(docs[..|docs| - 1], epoch, keys);
    }
  }

  // ---- What counts ----

  /** A stake counts at the epochs from its start up to, but not including, its end, for its own
      key alone, wherever it stands in the list. */
  lemma {:induction false} StakeCounts(docs: seq<StakeDoc>, rest: seq<StakeDoc>, d: StakeDoc, epoch: nat,
                                       keys: set<PubKey>)
    ensures var counted := if d.eStart <= epoch < d.ePostEnd then d.symsStaked else 0;
            && TotalStake(docs + [d] + rest, epoch) == TotalStake(docs + rest, epoch) + counted
            && StakeOf(docs + [d] + rest, epoch, keys)
               == StakeOf(docs + rest, epoch, keys) + if d.pubkey in keys then counted else 0
  {
    var all := docs + [d] + rest;
    if |rest| == 0 {
      assert all[..|all| - 1] == docs == docs + rest;
    } else {
      var front := rest[..|rest| - 1];
      assert all[..|all| - 1] == docs + [d] + front;
      assert (docs + rest)[..|docs + rest| - 1] == docs + front;
      StakeCounts(docs, front, d, epoch, keys);
    }
  }

  /** How many documents are active and signed for. */
  function SignedFor(docs: seq<StakeDoc>, epoch: nat, keys: set<PubKey>): nat {
    if |docs| == 0 then 0
    else
      var d := docs[|docs| - 1];
      SignedFor(docs[..|docs| - 1], epoch, keys)
      + if d.eStart <= epoch && epoch < d.ePostEnd && d.pubkey in keys then 1 else 0
  }

  /** The coded tally: the first stake of a list is credited once for every document of the list
      that is active and signed for. */
  lemma {:induction false} CodedCredits(d: StakeDoc, docs: seq<StakeDoc>, epoch: nat, keys: set<PubKey>)
    ensures var counted := if d.eStart <= epoch < d.ePostEnd then d.symsStaked else 0;
            RunningPresent([d] + docs, epoch, keys)
            == RunningPresent(docs, epoch, keys) + Times(counted, SignedFor([d] + docs, epoch, keys))
  {
    hide Times;
    var counted := if d.eStart <= epoch < d.ePostEnd then d.symsStaked else 0;
    if |docs| == 0 {
      assert [d] + docs == [] + [d];
      OneMoreCredit([], d, epoch, keys);
      OneTimeMore(counted, 0);
    } else {
      var front, last := docs[..|docs| - 1], docs[|docs| - 1];
      CodedCredits(d, front, epoch, keys);
      CreditStep(d, front, last, docs, epoch, keys);
      OneTimeMore(counted, SignedFor([d] + front, epoch, keys));
      hide RunningPresent, SignedFor, TotalStake;
    }
  }

  lemma CreditStep(d: StakeDoc, front: seq<StakeDoc>, last: StakeDoc, docs: seq<StakeDoc>, epoch: nat,
                   keys: set<PubKey>)
    requires docs == front + [last]
    ensures var counted := if d.eStart <= epoch < d.ePostEnd then d.symsStaked else 0;
            var signed := last.eStart <= epoch < last.ePostEnd && last.pubkey in keys;
            && SignedFor([d] + docs, epoch, keys) == SignedFor([d] + front, epoch, keys) + (if signed then 1 else 0)
            && RunningPresent([d] + docs, epoch, keys) - RunningPresent([d] + front, epoch, keys)
               == RunningPresent(docs, epoch, keys) - RunningPresent(front, epoch, keys)
                   + (if signed then counted else 0)
  {
    hide RunningPresent, SignedFor, TotalStake, StakeOf;
    assert [d] + docs == ([d] + front) + [last];
    OneMoreCredit([d] + front, last, epoch, keys);
    OneMoreCredit(front, last, epoch, keys);
    StakeCounts([], docs, d, epoch, keys);
    assert [] + [d] + docs == [d] + docs && [] + docs == docs;
  }

  function Times(a: nat, n: nat): nat {
    a * n
  }

  lemma OneTimeMore(a: nat, n: nat)
    ensures Times(a, n + 1) == Times(a, n) + a && Times(a, 0) == 0
  {
  }

  lemma OneMoreCredit(docs: seq<StakeDoc>, d: StakeDoc, epoch: nat, keys: set<PubKey>)
    ensures var signed := d.eStart <= epoch < d.ePostEnd && d.pubkey in keys;
            && RunningPresent(docs + [d], epoch, keys)
               == RunningPresent(docs, epoch, keys) + (if signed then TotalStake(docs + [d], epoch) else 0)
            && SignedFor(docs + [d], epoch, keys) == SignedFor(docs, epoch, keys) + (if signed then 1 else 0)
    ensures TotalStake(docs + [d], epoch)
         == TotalStake(docs, epoch) + (if d.eStart <= epoch < d.ePostEnd then d.symsStaked else 0)
  {
    assert (docs + [d])[..|docs|] == docs;
  }

  /** A key none of whose stakes is active adds nothing to either tally by signing. */
  lemma {:induction false} NoStakeNoVote(tally: Tally, docs: seq<StakeDoc>, epoch: nat, keys: set<PubKey>, k: PubKey)
    requires forall d :: d in docs && d.pubkey == k ==> !(d.eStart <= epoch < d.ePostEnd)
    ensures Present(tally, docs, epoch, keys) == Present(tally, docs, epoch, keys - {k})
    ensures Passes(tally, docs, epoch, keys) <==> Passes(tally, docs, epoch, keys - {k})
  {
    if |docs| > 0 {
      NoStakeNoVote(tally, docs[..|docs| - 1], epoch, keys, k);
      assert docs[|docs| - 1] in docs;
    }
  }

  /** Under either tally more than two thirds of the total must be present; two thirds fail. */
  lemma MoreThanTwoThirds(tally: Tally, docs: seq<StakeDoc>, epoch: nat, keys: set<PubKey>)
    ensures Passes(tally, docs, epoch, keys) <==> 3 * Present(tally, docs, epoch, keys) > 2 * TotalStake(docs, epoch)
  {
  }

  // ---- Documents and the stake set they list ----

  /** Active stake of the given keys in a stake set. */
  ghost function StakeIn(stakes: StakeSet, epoch: nat, keys: set<PubKey>): nat {
    if stakes.Keys == {} then 0
    else
      var t :| t in stakes;
      KeyWeight(stakes[t], epoch, keys) + StakeIn(stakes - {t}, epoch, keys)
  }

  function KeyWeight(d: StakeDoc, epoch: nat, keys: set<PubKey>): nat {
    if d.pubkey in keys then Weight(d, epoch) else 0
  }

  function Owners(stakes: StakeSet): set<PubKey> {
    set t | t in stakes :: stakes[t].pubkey
  }

  lemma {:induction false} StakeInWithout(stakes: StakeSet, epoch: nat, keys: set<PubKey>, t: TxHash)
    requires t in stakes
    ensures StakeIn(stakes, epoch, keys) == KeyWeight(stakes[t], epoch, keys) + StakeIn(stakes - {t}, epoch, keys)
    decreases |stakes|
  {
    var u :| u in stakes
        && StakeIn(stakes, epoch, keys) == KeyWeight(stakes[u], epoch, keys) + StakeIn(stakes - {u}, epoch, keys);
    if u != t {
      StakeInWithout(stakes - {u}, epoch, keys, t);
      StakeInWithout(stakes - {t}, epoch, keys, u);
      assert stakes - {u} - {t} == stakes - {t} - {u};
    }
  }

  /** The loops over the documents weigh the stake set, in whatever order they meet it. */
  lemma {:induction false} ListedStake(docs: seq<StakeDoc>, stakes: StakeSet, hashes: seq<TxHash>, epoch: nat,
                                       keys: set<PubKey>)
    requires ListsBy(docs, stakes, hashes)
    ensures StakeOf(docs, epoch, keys) == StakeIn(stakes, epoch, keys)
  {
    if |docs| > 0 {
      var n := |docs| - 1;
      var t := hashes[n];
      assert t in stakes;
      StakeInWithout(stakes, epoch, keys, t);
      assert forall u :: u in hashes[..n] <==> u in stakes - {t};
      ListedStake(docs[..n], stakes - {t}, hashes[..n], epoch, keys);
    } else {
      assert forall t :: t in stakes ==> t in hashes;
      assert stakes.Keys == {};
    }
  }

  lemma ListedStakes(docs: seq<StakeDoc>, stakes: StakeSet, epoch: nat, keys: set<PubKey>)
    requires Lists(docs, stakes)
    ensures StakeOf(docs, epoch, keys) == StakeIn(stakes, epoch, keys)
    ensures TotalStake(docs, epoch) == StakeIn(stakes, epoch, Owners(stakes))
  {
    var hashes: seq<TxHash> :| ListsBy(docs, stakes, hashes);
    OwnersListed(docs, stakes, hashes);
    hide ListsBy, StakeOf, TotalStake, StakeIn, Owners;
    ListedStake(docs, stakes, hashes, epoch, keys);
    ListedStake(docs, stakes, hashes, epoch, Owners(stakes));
    AllKeysAllStake(docs, epoch, Owners(stakes));
  }

  lemma OwnersListed(docs: seq<StakeDoc>, stakes: StakeSet, hashes: seq<TxHash>)
    requires ListsBy(docs, stakes, hashes)
    ensures forall d :: d in docs ==> d.pubkey in Owners(stakes)
  {
    forall d | d in docs ensures d.pubkey in Owners(stakes) {
      var i :| 0 <= i < |docs| && docs[i] == d;
      assert hashes[i] in stakes;
    }
  }

  // ---- The two tallies ----

  /** Each signed document adds at least its own stake to the coded tally. */
  lemma {:induction false} CodedAtLeastSigned(docs: seq<StakeDoc>, epoch: nat, keys: set<PubKey>)
    ensures RunningPresent(docs, epoch, keys) >= StakeOf(docs, epoch, keys)
  {
    if |docs| > 0 {
      CodedAtLeastSigned(docs[..|docs| - 1], epoch, keys);
    }
  }

  lemma IntendedImpliesCoded(docs: seq<StakeDoc>, epoch: nat, keys: set<PubKey>)
    ensures 3 * StakeOf(docs, epoch, keys) > 2 * TotalStake(docs, epoch) <==> Passes(Intended, docs, epoch, keys)
    ensures Passes(Intended, docs, epoch, keys) ==> Passes(AsCoded, docs, epoch, keys)
  {
    CodedAtLeastSigned(docs, epoch, keys);
  }

  /** Two intended quorums share signers with more than a third of the active stake, hence a
      signer outside any set holding at most a third. */
  lemma QuorumIntersection(docs: seq<StakeDoc>, epoch: nat, a: set<PubKey>, b: set<PubKey>)
    requires Passes(Intended, docs, epoch, a) && Passes(Intended, docs, epoch, b)
    ensures 3 * StakeOf(docs, epoch, a * b) > TotalStake(docs, epoch)
  {
    InclusionExclusion(docs, epoch, a, b);
    AtMostTotal(docs, epoch, a + b);
  }

  /** What safety needs of a tally: two passing signer sets share a key outside `byz`. */
  ghost predicate QuorumSafe(tally: Tally, docs: seq<StakeDoc>, epoch: nat, byz: set<PubKey>) {
    forall a, b :: Passes(tally, docs, epoch, a) && Passes(tally, docs, epoch, b) ==> !(a * b <= byz)
  }

  predicate ByzantineThird(docs: seq<StakeDoc>, epoch: nat, byz: set<PubKey>) {
    3 * StakeOf(docs, epoch, byz) <= TotalStake(docs, epoch)
  }

  lemma IntendedIsSafe(docs: seq<StakeDoc>, epoch: nat, byz: set<PubKey>)
    requires ByzantineThird(docs, epoch, byz)
    ensures QuorumSafe(Intended, docs, epoch, byz)
  {
    forall a, b | Passes(Intended, docs, epoch, a) && Passes(Intended, docs, epoch, b) && a * b <= byz
      ensures false
    {
      QuorumIntersection(docs, epoch, a, b);
      PresentMonotone(docs, epoch, a * b, byz);
    }
  }

  /** The key of the last active document in iteration order. */
  function LastKey(docs: seq<StakeDoc>, epoch: nat): Option<PubKey> {
    if |docs| == 0 then None
    else if Active(docs[|docs| - 1], epoch) then Some(docs[|docs| - 1].pubkey)
    else LastKey(docs[..|docs| - 1], epoch)
  }

  function Keys(docs: seq<StakeDoc>): set<PubKey> {
    set d | d in docs :: d.pubkey
  }

  /** That key alone is credited with the whole active stake. */
  lemma {:induction false} LastKeyGetsEverything(docs: seq<StakeDoc>, epoch: nat)
    requires TotalStake(docs, epoch) > 0
    ensures LastKey(docs, epoch).Some?
    ensures LastKey(docs, epoch).value in Keys(docs)
    ensures RunningPresent(docs, epoch, {LastKey(docs, epoch).value}) >= TotalStake(docs, epoch)
    ensures Passes(AsCoded, docs, epoch, {LastKey(docs, epoch).value})
  {
    if !Active(docs[|docs| - 1], epoch) {
      LastKeyGetsEverything(docs[..|docs| - 1], epoch);
    } else {
      assert docs[|docs| - 1] in docs;
    }
  }

  /** No passing set avoids the last key. */
  predicate OthersFallShort(docs: seq<StakeDoc>, epoch: nat)
    requires LastKey(docs, epoch).Some?
  {
    !Passes(AsCoded, docs, epoch, Keys(docs) - {LastKey(docs, epoch).value})
  }

  lemma LastKeyIsNeeded(docs: seq<StakeDoc>, epoch: nat, keys: set<PubKey>)
    requires LastKey(docs, epoch).Some? && OthersFallShort(docs, epoch)
    requires Passes(AsCoded, docs, epoch, keys)
    ensures LastKey(docs, epoch).value in keys
  {
    var k := LastKey(docs, epoch).value;
    if k !in keys {
      PresentMonotone(docs, epoch, keys, Keys(docs) - {k});
    }
  }

  /** The stake lists on which the coded check decides exactly the two-thirds rule: the last
      active key holds more than two thirds and the rest cannot pass without it. */
  predicate CodedExact(docs: seq<StakeDoc>, epoch: nat) {
    TotalStake(docs, epoch) > 0 ==>
      && LastKey(docs, epoch).Some?
      && Passes(Intended, docs, epoch, {LastKey(docs, epoch).value})
      && OthersFallShort(docs, epoch)
  }

  lemma CodedMatchesIntendedIff(docs: seq<StakeDoc>, epoch: nat)
    ensures CodedExact(docs, epoch)
       <==> (forall keys :: Passes(AsCoded, docs, epoch, keys) <==> Passes(Intended, docs, epoch, keys))
  {
    forall keys: set<PubKey> {
      IntendedImpliesCoded(docs, epoch, keys);
    }
    if TotalStake(docs, epoch) == 0 {
      forall keys: set<PubKey> ensures !Passes(AsCoded, docs, epoch, keys) {
        NothingStakedNothingPresent(docs, epoch, keys);
      }
    } else {
      LastKeyGetsEverything(docs, epoch);
      var k := LastKey(docs, epoch).value;
      if CodedExact(docs, epoch) {
        forall keys | Passes(AsCoded, docs, epoch, keys) ensures Passes(Intended, docs, epoch, keys) {
          LastKeyIsNeeded(docs, epoch, keys);
          PresentMonotone(docs, epoch, {k}, keys);
        }
      } else if Passes(Intended, docs, epoch, {k}) {
        var others := Keys(docs) - {k};
        InclusionExclusion(docs, epoch, {k}, others);
        AtMostTotal(docs, epoch, {k} + others);
        NoKeysNoStake(docs, epoch);
        assert {k} * others == {};
        assert !Passes(Intended, docs, epoch, others);
      }
    }
  }

  lemma {:induction false} NothingStakedNothingPresent(docs: seq<StakeDoc>, epoch: nat, keys: set<PubKey>)
    requires TotalStake(docs, epoch) == 0
    ensures RunningPresent(docs, epoch, keys) == 0
  {
    if |docs| > 0 {
      NothingStakedNothingPresent(docs[..|docs| - 1], epoch, keys);
    }
  }

  /** The stake lists on which the coded check is still fork-safe against every adversary
      holding at most a third. */
  predicate CodedSafe(docs: seq<StakeDoc>, epoch: nat) {
    TotalStake(docs, epoch) > 0 ==>
      && LastKey(docs, epoch).Some?
      && !ByzantineThird(docs, epoch, {LastKey(docs, epoch).value})
      && OthersFallShort(docs, epoch)
  }

  lemma CodedSafeIff(docs: seq<StakeDoc>, epoch: nat)
    ensures CodedSafe(docs, epoch)
       <==> (forall byz :: ByzantineThird(docs, epoch, byz) ==> QuorumSafe(AsCoded, docs, epoch, byz))
  {
    if TotalStake(docs, epoch) == 0 {
      forall keys: set<PubKey> ensures !Passes(AsCoded, docs, epoch, keys) {
        NothingStakedNothingPresent(docs, epoch, keys);
      }
    } else {
      LastKeyGetsEverything(docs, epoch);
      var k := LastKey(docs, epoch).value;
      if CodedSafe(docs, epoch) {
        forall byz, a, b | ByzantineThird(docs, epoch, byz)
                        && Passes(AsCoded, docs, epoch, a) && Passes(AsCoded, docs, epoch, b)
          ensures !(a * b <= byz)
        {
          LastKeyIsNeeded(docs, epoch, a);
          LastKeyIsNeeded(docs, epoch, b);
          assert k in a * b;
          if k in byz {
            PresentMonotone(docs, epoch, {k}, byz);
          }
        }
      } else if ByzantineThird(docs, epoch, {k}) {
        assert {k} * {k} <= {k};
        assert !QuorumSafe(AsCoded, docs, epoch, {k});
      } else {
        NoKeysNoStake(docs, epoch);
        assert {k} * (Keys(docs) - {k}) <= {};
        assert ByzantineThird(docs, epoch, {}) && !QuorumSafe(AsCoded, docs, epoch, {});
      }
    }
  }

  /** No list without a big staker is safe: as soon as anyone has a stake and nobody holds more
      than a third, the check can be forked. */
  lemma NobodyOverAThird(docs: seq<StakeDoc>, epoch: nat)
    requires TotalStake(docs, epoch) > 0 && forall k :: ByzantineThird(docs, epoch, {k})
    ensures !CodedSafe(docs, epoch)
  {
    LastKeyGetsEverything(docs, epoch);
  }

  /** Three equal stakes: the last one, a third of the total, passes the coded check alone. */
  lemma CodedAcceptsAThird(a: PubKey, b: PubKey, c: PubKey)
    requires a != c && b != c
    ensures var docs := [StakeDoc(a, 0, 1, 1), StakeDoc(b, 0, 1, 1), StakeDoc(c, 0, 1, 1)];
            && ByzantineThird(docs, 0, {c})
            && Passes(AsCoded, docs, 0, {c})
            && !Passes(Intended, docs, 0, {c})
  {
    var d1, d2, d3 := StakeDoc(a, 0, 1, 1), StakeDoc(b, 0, 1, 1), StakeDoc(c, 0, 1, 1);
    var docs := [d1, d2, d3];
    assert docs[..2] == [d1, d2] && [d1, d2][..1] == [d1] && [d1][..0] == [];
    assert TotalStake(docs, 0) == TotalStake([d1], 0) + 2 == 3;
    assert StakeOf(docs, 0, {c}) == StakeOf([d1], 0, {c}) + 1 == 1;
    assert RunningPresent(docs, 0, {c}) == RunningPresent([d1], 0, {c}) + 3 == 3;
  }
}
