/** A small configuration that meets every assumption, for concrete examples. */
module Samples {
  import opened Structs

  function NetworkCode(n: NetID): (nat, nat) {
    match n
    case Mainnet => (0, 0)
    case Testnet => (1, 0)
    case Custom(tag) => (2, tag)
  }

  /** Headers as numbers, the hashes in them preceded by their lengths. */
  function HeaderBytes(h: Header): seq<nat> {
    [NetworkCode(h.network).0, NetworkCode(h.network).1, h.height, |h.stakesHash.bytes|, |h.stateRoot.bytes|]
    + h.stakesHash.bytes + h.stateRoot.bytes + h.bodyHash.bytes
  }

  lemma HeaderBytesInjective(a: Header, b: Header)
    requires HeaderBytes(a) == HeaderBytes(b)
    ensures a == b
  {
    var x, y := HeaderBytes(a), HeaderBytes(b);
    var i := 5 + |a.stakesHash.bytes|;
    var j := i + |a.stateRoot.bytes|;
    assert x[0] == y[0] && x[1] == y[1] && x[2] == y[2] && x[3] == y[3] && x[4] == y[4];
    assert x[5..i] == a.stakesHash.bytes && y[5..i] == b.stakesHash.bytes;
    assert x[i..j] == a.stateRoot.bytes && y[i..j] == b.stateRoot.bytes;
    assert x[j..] == a.bodyHash.bytes && y[j..] == b.bodyHash.bytes;
  }

  /** The signature of a key on a header, and the only one that verifies. */
  function Sign(k: PubKey, h: Header): Signature {
    Signature([k.id] + HeaderBytes(h))
  }

  // ---- Stake sets ----

  /** The documents of a stake set, one hash after the other. */
  ghost function ListOf(stakes: StakeSet): seq<StakeDoc> {
    if |stakes| == 0 then [] else [stakes[FirstOf(stakes)]] + ListOf(stakes - {FirstOf(stakes)})
  }

  ghost function FirstOf(stakes: StakeSet): (t: TxHash)
    requires |stakes| > 0
    ensures t in stakes
  {
    assert stakes.Keys != {};
    var t :| t in stakes;
    t
  }

  lemma {:induction false} ListOfLists(stakes: StakeSet) returns (hashes: seq<TxHash>)
    ensures ListsBy(ListOf(stakes), stakes, hashes)
    decreases |stakes|
  {
    if |stakes| == 0 {
      hashes := [];
      assert stakes.Keys == {};
    } else {
      var t, rest := FirstOf(stakes), stakes - {FirstOf(stakes)};
      var others := ListOfLists(rest);
      hashes := [t] + others;
      OneMoreListed(ListOf(rest), stakes, others, t);
    }
  }

  lemma OneMoreListed(docs: seq<StakeDoc>, stakes: StakeSet, hashes: seq<TxHash>, t: TxHash)
    requires t in stakes && ListsBy(docs, stakes - {t}, hashes)
    ensures ListsBy([stakes[t]] + docs, stakes, [t] + hashes)
  {
    var all := [t] + hashes;
    assert forall i :: 1 <= i < |all| ==> all[i] == hashes[i - 1] && all[i] in stakes - {t};
    forall u ensures u in all <==> u in stakes {
      assert u != t ==> (u in hashes <==> u in stakes);
    }
  }

  /** A stake set as numbers. */
  ghost function StakeBytes(stakes: StakeSet): seq<nat> {
    if |stakes| == 0 then []
    else
      var t := FirstOf(stakes);
      var d := stakes[t];
      [t.id, d.pubkey.id, d.eStart, d.ePostEnd, d.symsStaked] + StakeBytes(stakes - {t})
  }

  lemma {:induction false} StakeBytesInjective(a: StakeSet, b: StakeSet)
    requires StakeBytes(a) == StakeBytes(b)
    ensures a == b
    decreases |a|
  {
    var x, y := StakeBytes(a), StakeBytes(b);
    if |a| == 0 || |b| == 0 {
      assert |a| > 0 ==> |x| > 0;
      assert |b| > 0 ==> |y| > 0;
      assert a.Keys == {} && b.Keys == {};
    } else {
      var t := FirstOf(a);
      var u := FirstOf(b);
      assert x[0] == t.id && y[0] == u.id;
      assert x[1] == a[t].pubkey.id && y[1] == b[u].pubkey.id;
      assert x[2] == a[t].eStart && y[2] == b[u].eStart;
      assert x[3] == a[t].ePostEnd && y[3] == b[u].ePostEnd;
      assert x[4] == a[t].symsStaked && y[4] == b[u].symsStaked;
      assert x[5..] == StakeBytes(a - {t}) && y[5..] == StakeBytes(b - {t});
      StakeBytesInjective(a - {t}, b - {t});
      assert a == (a - {t})[t := a[t]];
      assert b == (b - {t})[t := b[t]];
    }
  }

  // ---- The configuration ----

  /** Blocks without transactions execute; the stakes stay those of genesis. */
  ghost function SampleConfig(stakes: StakeSet): Config {
    Config(
      SealedState(Block(Header(Testnet, 0, Hash(StakeBytes(stakes)), Hash([0]), Hash([])), []), stakes, Contents(0)),
      UnsealedState(0),
      h => 0,
      (d, n) => false,
      s => ListOf(s),
      s => Hash(StakeBytes(s)),
      (c: Contents) => Hash([c.id]),
      (s: SealedState, b: Block) => if b.transactions == [] then Some(Contents(0)) else None,
      s => UnsealedState(0),
      // the transaction with hash 0 applies to every state, the others to its successors
      (u: UnsealedState, tx: Transaction) =>
        if tx.hash.id == 0 || u.id > 0 then Some(UnsealedState(u.id + 1)) else None,
      h => Hash(HeaderBytes(h)),
      (k: PubKey, h: Hash, s: Signature) => s == Signature([k.id] + h.bytes),
      b => 1,
      p => 1)
  }

  /** A first block, the `n`-th of those that can follow genesis. */
  ghost function SampleBlock(stakes: StakeSet, n: nat): Block {
    Block(Header(Testnet, 1, Hash(StakeBytes(stakes)), Hash([0]), Hash([n])), [])
  }

  lemma SampleIsWellFormed(stakes: StakeSet)
    ensures WellFormed(SampleConfig(stakes))
  {
    var cfg := SampleConfig(stakes);
    forall s ensures Lists(cfg.docs(s), s) {
      var hashes := ListOfLists(s);
    }
    forall c: Contents, d: Contents | cfg.contentsRoot(c) == cfg.contentsRoot(d) ensures c == d {
      assert [c.id][0] == [d.id][0];
    }
  }

  /** Its hashes are collision free, and one signature per key and header verifies. */
  ghost predicate Strong(cfg: Config) {
    && (forall a, b :: cfg.headerHash(a) == cfg.headerHash(b) ==> a == b)
    && (forall s, t :: cfg.stakesRoot(s) == cfg.stakesRoot(t) ==> s == t)
    && (forall k, h, s :: cfg.verify(k, cfg.headerHash(h), s) <==> s == Sign(k, h))
  }

  lemma SampleIsStrong(stakes: StakeSet)
    ensures Strong(SampleConfig(stakes))
  {
    var cfg := SampleConfig(stakes);
    forall a, b | cfg.headerHash(a) == cfg.headerHash(b) ensures a == b {
      HeaderBytesInjective(a, b);
    }
    forall s, t | cfg.stakesRoot(s) == cfg.stakesRoot(t) ensures s == t {
      StakeBytesInjective(s, t);
    }
    hide HeaderBytes, StakeBytes;
  }
}
