/** Many nodes fed arbitrary blocks and proofs. */
module Network {
  import opened Structs
  import opened Quorum
  import opened Stakes
  import opened Ledger
  import Samples

  /** What each node has stored, and every signature an honest staker has made. */
  datatype Net = Net(chains: map<nat, seq<Entry>>, signed: set<(PubKey, Header)>)

  datatype Step =
    | Sign(keys: set<PubKey>, header: Header)
    | Deliver(node: nat, e: Entry)
    | Restart(node: nat, keep: nat)     // a crash that loses the newest commits

  ghost predicate NewVote(net: Net, keys: set<PubKey>, header: Header) {
    forall k, h :: k in keys && (k, h) in net.signed && h.height == header.height ==> h == header
  }

  /** An honest key's signature verifies only for a header it has signed. */
  predicate Unforged(cfg: Config, net: Net, byz: set<PubKey>, e: Entry) {
    forall k :: k in Signers(cfg.verify, cfg.headerHash(e.block.header), e.proof) && k !in byz ==>
        (k, e.block.header) in net.signed
  }

  /** One step; None when it is not enabled. Honest keys sign at most one header per height;
      keys in `byz` are not logged at all. */
  ghost function Next(cfg: Config, tally: Tally, byz: set<PubKey>, net: Net, step: Step): Option<Net> {
    match step
    case Sign(keys, header) =>
      if NewVote(net, keys, header) then Some(net.(signed := net.signed + set k | k in keys :: (k, header))) else None
    case Deliver(node, e) =>
      if && node in net.chains && Applicable(cfg, tally, Blocks(net.chains[node]), e) && Unforged(cfg, net, byz, e)
      then Some(net.(chains := net.chains[node := net.chains[node] + [e]]))
      else None
    case Restart(node, keep) =>
      if node in net.chains && keep <= |net.chains[node]| then
        Some(net.(chains := net.chains[node := net.chains[node][..keep]]))
      else None
  }

  /** The net after a run; None if a step is not enabled. */
  ghost function Run(cfg: Config, tally: Tally, byz: set<PubKey>, start: Net, steps: seq<Step>): Option<Net> {
    if |steps| == 0 then Some(start)
    else
      match Run(cfg, tally, byz, start, steps[..|steps| - 1])
      case None => None
      case Some(net) => Next(cfg, tally, byz, net, steps[|steps| - 1])
  }

  ghost predicate Fresh(net: Net) {
    net.signed == {} && forall i :: i in net.chains ==> net.chains[i] == []
  }

  /** Conditions on the stake documents and the epoch by which a next block is voted on. */
  datatype Condition =
    | QuorumsSafe(tally: Tally, byz: set<PubKey>)
    | ByzantineAtMostThird(byz: set<PubKey>)
    | CodedSafeList

  ghost predicate Meets(c: Condition, docs: seq<StakeDoc>, epoch: nat) {
    match c
    case QuorumsSafe(tally, byz) => QuorumSafe(tally, docs, epoch, byz)
    case ByzantineAtMostThird(byz) => ByzantineThird(docs, epoch, byz)
    case CodedSafeList => CodedSafe(docs, epoch)
  }

  ghost predicate TipMeets(cfg: Config, c: Condition, chain: seq<Entry>) {
    StateAt(cfg, Blocks(chain)).Some? ==>
      Meets(c, cfg.docs(StateAt(cfg, Blocks(chain)).value.stakes), cfg.epoch(|chain| + 1))
  }

  ghost predicate TipsMeet(cfg: Config, c: Condition, net: Net) {
    forall i :: i in net.chains ==> TipMeets(cfg, c, net.chains[i])
  }

  /** The condition holds at every stake set some node reaches during the run. */
  ghost predicate Throughout(cfg: Config, tally: Tally, byz: set<PubKey>, start: Net, steps: seq<Step>, c: Condition) {
    && (|steps| > 0 ==> Throughout(cfg, tally, byz, start, steps[..|steps| - 1], c))
    && (Run(cfg, tally, byz, start, steps).Some? ==> TipsMeet(cfg, c, Run(cfg, tally, byz, start, steps).value))
  }

  predicate Comparable(a: seq<Entry>, b: seq<Entry>) {
    Blocks(a) <= Blocks(b) || Blocks(b) <= Blocks(a)
  }

  ghost predicate NoFork(net: Net) {
    forall i, j :: i in net.chains && j in net.chains ==> Comparable(net.chains[i], net.chains[j])
  }

  /** The header commits to the whole block. */
  ghost predicate HeadersBind(cfg: Config) {
    forall s, a, b :: NextState(cfg, s, a).Some? && NextState(cfg, s, b).Some? && a.header == b.header ==> a == b
  }

  // ---- The invariant ----

  ghost predicate OneVotePerHeight(net: Net) {
    forall k, a, b :: (k, a) in net.signed && (k, b) in net.signed && a.height == b.height ==> a == b
  }

  ghost predicate Backed(cfg: Config, tally: Tally, byz: set<PubKey>, net: Net, chain: seq<Entry>) {
    && ValidChain(cfg, tally, chain)
    && forall n :: 0 <= n < |chain| ==> Unforged(cfg, net, byz, chain[n])
  }

  ghost predicate Inv(cfg: Config, tally: Tally, byz: set<PubKey>, net: Net) {
    && OneVotePerHeight(net)
    && (forall i :: i in net.chains ==> Backed(cfg, tally, byz, net, net.chains[i]))
    && NoFork(net)
  }

  /** Two blocks applicable to the same blocks, both with unforged quorums, are the same block. */
  lemma SameBlock(cfg: Config, tally: Tally, byz: set<PubKey>, net: Net, blocks: seq<Block>, a: Entry, b: Entry)
    requires HeadersBind(cfg) && OneVotePerHeight(net)
    requires Applicable(cfg, tally, blocks, a) && Applicable(cfg, tally, blocks, b)
    requires Unforged(cfg, net, byz, a) && Unforged(cfg, net, byz, b)
    requires QuorumSafe(tally, cfg.docs(StateAt(cfg, blocks).value.stakes), cfg.epoch(a.block.header.height), byz)
    ensures a.block == b.block
  {
    var sa := Signers(cfg.verify, cfg.headerHash(a.block.header), a.proof);
    var sb := Signers(cfg.verify, cfg.headerHash(b.block.header), b.proof);
    hide StateAt, TableAt, Present, NextState, TotalStake;
    assert !(sa * sb <= byz);
    var k :| k in sa * sb && k !in byz;
    assert (k, a.block.header) in net.signed && (k, b.block.header) in net.signed;
  }

  /** A node that accepts a block stays comparable with a node whose chain it was comparable with. */
  lemma DeliverComparable(cfg: Config, tally: Tally, byz: set<PubKey>, net: Net, c: seq<Entry>, d: seq<Entry>, e: Entry)
    requires WellFormed(cfg) && HeadersBind(cfg) && OneVotePerHeight(net)
    requires Comparable(c, d) && Backed(cfg, tally, byz, net, c) && Backed(cfg, tally, byz, net, d)
    requires Applicable(cfg, tally, Blocks(c), e) && Unforged(cfg, net, byz, e)
    requires TipMeets(cfg, QuorumsSafe(tally, byz), c)
    ensures Comparable(c + [e], d)
  {
    hide StateAt, TableAt, QuorumSafe, ValidChain, Unforged, OneVotePerHeight, HeadersBind, Acceptable;
    BlocksOfAppend(c, e);
    if |d| > |c| {
      ValidPrefix(cfg, tally, d, |c|);
      assert Blocks(d)[..|c|] == Blocks(c);
      HeightOf(cfg, tally, c, e);
      SameBlock(cfg, tally, byz, net, Blocks(c), e, d[|c|]);
      assert Blocks(c) + [e.block] == Blocks(d)[..|c| + 1];
    }
  }

  lemma HeightOf(cfg: Config, tally: Tally, c: seq<Entry>, e: Entry)
    requires WellFormed(cfg) && Applicable(cfg, tally, Blocks(c), e)
    ensures StateAt(cfg, Blocks(c)).Some? && e.block.header.height == |c| + 1
  {
    ReplayFacts(cfg, Blocks(c));
  }

  lemma InvStep(cfg: Config, tally: Tally, byz: set<PubKey>, net: Net, step: Step)
    requires WellFormed(cfg) && HeadersBind(cfg) && Inv(cfg, tally, byz, net)
    requires Next(cfg, tally, byz, net, step).Some?
    requires TipsMeet(cfg, QuorumsSafe(tally, byz), net)
    ensures Inv(cfg, tally, byz, Next(cfg, tally, byz, net, step).value)
  {
    hide TipMeets, HeadersBind, ValidChain, Applicable, Comparable, WellFormed;
    var t := Next(cfg, tally, byz, net, step).value;
    match step {
      case Sign(keys, header) =>
      case Deliver(node, e) =>
        var c := net.chains[node];
        ValidAppend(cfg, tally, c, e);
        forall j | j in net.chains && j != node
          ensures Comparable(c + [e], net.chains[j]) && Comparable(net.chains[j], c + [e])
        {
          DeliverComparable(cfg, tally, byz, net, c, net.chains[j], e);
          ComparableSym(c + [e], net.chains[j]);
        }
        ComparableSym(c + [e], c + [e]);
      case Restart(node, keep) =>
        var c := net.chains[node];
        ValidPrefix(cfg, tally, c, keep);
        forall j | j in net.chains && j != node
          ensures Comparable(c[..keep], net.chains[j]) && Comparable(net.chains[j], c[..keep])
        {
          PrefixComparable(c, net.chains[j], keep);
          ComparableSym(c[..keep], net.chains[j]);
        }
        ComparableSym(c[..keep], c[..keep]);
    }
  }

  lemma ComparableSym(a: seq<Entry>, b: seq<Entry>)
    ensures Comparable(a, b) == Comparable(b, a) && Comparable(a, a)
  {
  }

  lemma PrefixComparable(a: seq<Entry>, b: seq<Entry>, keep: nat)
    requires Comparable(a, b) && keep <= |a|
    ensures Comparable(a[..keep], b)
  {
    BlocksOfPrefix(a, keep);
  }

  lemma InvFresh(cfg: Config, tally: Tally, byz: set<PubKey>, net: Net)
    requires Fresh(net)
    ensures Inv(cfg, tally, byz, net)
  {
  }

  // ---- Main results ----

  /** Under a tally that is quorum-safe at every stake set reached, no run forks. */
  lemma {:induction false} SafeTallyNeverForks(cfg: Config, tally: Tally, byz: set<PubKey>, start: Net,
                                               steps: seq<Step>, end: Net)
    requires WellFormed(cfg) && HeadersBind(cfg) && Fresh(start)
    requires Run(cfg, tally, byz, start, steps) == Some(end)
    requires Throughout(cfg, tally, byz, start, steps, QuorumsSafe(tally, byz))
    ensures Inv(cfg, tally, byz, end)
    ensures NoFork(end)
  {
    hide Next, HeadersBind, TipsMeet;
    if |steps| == 0 {
      InvFresh(cfg, tally, byz, start);
    } else {
      var front := steps[..|steps| - 1];
      var before := Run(cfg, tally, byz, start, front).value;
      SafeTallyNeverForks(cfg, tally, byz, start, front, before);
      assert TipsMeet(cfg, QuorumsSafe(tally, byz), before);
      InvStep(cfg, tally, byz, before, steps[|steps| - 1]);
    }
  }

  lemma {:induction false} Weaken(cfg: Config, tally: Tally, byz: set<PubKey>, start: Net, steps: seq<Step>)
    requires Throughout(cfg, tally, byz, start, steps, ByzantineAtMostThird(byz))
    requires tally == AsCoded ==> Throughout(cfg, tally, byz, start, steps, CodedSafeList)
    ensures Throughout(cfg, tally, byz, start, steps, QuorumsSafe(tally, byz))
  {
    if |steps| > 0 {
      Weaken(cfg, tally, byz, start, steps[..|steps| - 1]);
    }
    forall docs: seq<StakeDoc>, epoch: nat
      | ByzantineThird(docs, epoch, byz) && (tally == AsCoded ==> CodedSafe(docs, epoch))
      ensures QuorumSafe(tally, docs, epoch, byz)
    {
      IntendedIsSafe(docs, epoch, byz);
      CodedSafeIff(docs, epoch);
    }
    hide QuorumSafe, ByzantineThird, CodedSafe, Run, StateAt;
  }

  /** No forks with the intended tally, whatever is delivered to whom, while at every stake set
      reached the dishonest keys hold at most a third of the active stake. */
  lemma IntendedNeverForks(cfg: Config, byz: set<PubKey>, start: Net, steps: seq<Step>, end: Net)
    requires WellFormed(cfg) && HeadersBind(cfg) && Fresh(start)
    requires Run(cfg, Intended, byz, start, steps) == Some(end)
    requires Throughout(cfg, Intended, byz, start, steps, ByzantineAtMostThird(byz))
    ensures NoFork(end)
  {
    Weaken(cfg, Intended, byz, start, steps);
    SafeTallyNeverForks(cfg, Intended, byz, start, steps, end);
  }

  /** The coded tally needs one thing more: that every stake list reached is one on which it is
      safe. */
  lemma CodedNeverForksOnSafeLists(cfg: Config, byz: set<PubKey>, start: Net, steps: seq<Step>, end: Net)
    requires WellFormed(cfg) && HeadersBind(cfg) && Fresh(start)
    requires Run(cfg, AsCoded, byz, start, steps) == Some(end)
    requires Throughout(cfg, AsCoded, byz, start, steps, ByzantineAtMostThird(byz))
    requires Throughout(cfg, AsCoded, byz, start, steps, CodedSafeList)
    ensures NoFork(end)
  {
    Weaken(cfg, AsCoded, byz, start, steps);
    SafeTallyNeverForks(cfg, AsCoded, byz, start, steps, end);
  }

  // ---- And it does need it ----

  /** A block that can come next on top of the given blocks, votes apart. */
  predicate CanFollow(cfg: Config, blocks: seq<Block>, b: Block) {
    && StateAt(cfg, blocks).Some? && NextState(cfg, StateAt(cfg, blocks).value, b).Some?
    && TableAt(cfg, blocks + [b]).Some?
  }

  function SignedBy(sign: (PubKey, Header) -> Signature, keys: set<PubKey>, header: Header): ConsensusProof {
    map k | k in keys :: sign(k, header)
  }

  /** Every key can sign every header. */
  ghost predicate CanSign(cfg: Config, sign: (PubKey, Header) -> Signature) {
    forall k, h :: cfg.verify(k, cfg.headerHash(h), sign(k, h))
  }

  lemma NextApplies(cfg: Config, tally: Tally, sign: (PubKey, Header) -> Signature, keys: set<PubKey>,
                    blocks: seq<Block>, b: Block)
    requires WellFormed(cfg) && CanFollow(cfg, blocks, b) && CanSign(cfg, sign)
    requires Passes(tally, cfg.docs(StateAt(cfg, blocks).value.stakes), cfg.epoch(|blocks| + 1), keys)
    ensures var e := Entry(b, SignedBy(sign, keys, b.header));
            && b.header.height == |blocks| + 1
            && Signers(cfg.verify, cfg.headerHash(b.header), e.proof) == keys
            && Applicable(cfg, tally, blocks, e)
  {
    ReplayFacts(cfg, blocks);
    assert Signers(cfg.verify, cfg.headerHash(b.header), SignedBy(sign, keys, b.header)) == keys;
    hide StateAt, TableAt, Passes;
  }

  /** Two nodes hold the same replayable blocks, nobody has signed for the next height yet, and
      two different blocks can come next. */
  ghost predicate AtCrossroads(cfg: Config, net: Net, i: nat, j: nat, b1: Block, b2: Block) {
    && i in net.chains && j in net.chains && i != j && Blocks(net.chains[i]) == Blocks(net.chains[j])
    && (forall k, h :: (k, h) in net.signed ==> h.height != |net.chains[i]| + 1)
    && CanFollow(cfg, Blocks(net.chains[i]), b1) && CanFollow(cfg, Blocks(net.chains[i]), b2) && b1 != b2
  }

  /** Wherever a tip's stake list is not quorum-safe, four steps fork the chain, honest keys
      signing one header each. */
  lemma UnsafeTallyForks(cfg: Config, tally: Tally, byz: set<PubKey>, sign: (PubKey, Header) -> Signature,
                         net: Net, i: nat, j: nat, b1: Block, b2: Block)
    returns (steps: seq<Step>, end: Net)
    requires WellFormed(cfg) && CanSign(cfg, sign) && AtCrossroads(cfg, net, i, j, b1, b2)
    requires !TipMeets(cfg, QuorumsSafe(tally, byz), net.chains[i])
    ensures |steps| == 4 && Run(cfg, tally, byz, net, steps) == Some(end) && !NoFork(end)
  {
    var blocks := Blocks(net.chains[i]);
    var docs, epoch := cfg.docs(StateAt(cfg, blocks).value.stakes), cfg.epoch(|blocks| + 1);
    assert !QuorumSafe(tally, docs, epoch, byz);
    var s1: set<PubKey>, s2: set<PubKey> :|
      Passes(tally, docs, epoch, s1) && Passes(tally, docs, epoch, s2) && s1 * s2 <= byz;
    NextApplies(cfg, tally, sign, s1, blocks, b1);
    NextApplies(cfg, tally, sign, s2, blocks, b2);
    hide Passes, QuorumSafe, CanFollow, Applicable, Signers, WellFormed, Next, Run, NewVote, NoFork, CanSign, StateAt,
         Blocks, TipMeets;
    var e1, e2 := Entry(b1, SignedBy(sign, s1, b1.header)), Entry(b2, SignedBy(sign, s2, b2.header));
    var n1 := SignOnce(cfg, tally, byz, net, s1 - byz, b1.header);
    var n2 := SignOnce(cfg, tally, byz, n1, s2 - byz, b2.header);
    var n3 := DeliverOnce(cfg, tally, byz, n2, i, e1);
    end := DeliverOnce(cfg, tally, byz, n3, j, e2);
    var run1 := [] + [Sign(s1 - byz, b1.header)];
    var run2 := run1 + [Sign(s2 - byz, b2.header)];
    var run3 := run2 + [Deliver(i, e1)];
    steps := run3 + [Deliver(j, e2)];
    EmptyRun(cfg, tally, byz, net);
    RunThen(cfg, tally, byz, net, [], net, Sign(s1 - byz, b1.header));
    RunThen(cfg, tally, byz, net, run1, n1, Sign(s2 - byz, b2.header));
    RunThen(cfg, tally, byz, net, run2, n2, Deliver(i, e1));
    RunThen(cfg, tally, byz, net, run3, n3, Deliver(j, e2));
    ForkSeen(end, i, j, net.chains[i], net.chains[j], e1, e2);
  }

  lemma EmptyRun(cfg: Config, tally: Tally, byz: set<PubKey>, start: Net)
    ensures Run(cfg, tally, byz, start, []) == Some(start)
  {
  }

  /** Keys that have signed nothing else for its height sign a header. */
  lemma SignOnce(cfg: Config, tally: Tally, byz: set<PubKey>, net: Net, keys: set<PubKey>, header: Header)
    returns (t: Net)
    requires forall k, h :: (k, h) in net.signed && h.height == header.height ==> k !in keys
    ensures Next(cfg, tally, byz, net, Sign(keys, header)) == Some(t)
    ensures t.chains == net.chains
    ensures forall k, h :: (k, h) in t.signed <==> (k, h) in net.signed || (k in keys && h == header)
  {
    t := net.(signed := net.signed + set k | k in keys :: (k, header));
  }

  /** A node accepts an applicable entry whose honest signers have signed. */
  lemma DeliverOnce(cfg: Config, tally: Tally, byz: set<PubKey>, net: Net, node: nat, e: Entry) returns (t: Net)
    requires node in net.chains && Applicable(cfg, tally, Blocks(net.chains[node]), e)
    requires forall k :: k in Signers(cfg.verify, cfg.headerHash(e.block.header), e.proof) - byz ==>
               (k, e.block.header) in net.signed
    ensures Next(cfg, tally, byz, net, Deliver(node, e)) == Some(t)
    ensures t == net.(chains := net.chains[node := net.chains[node] + [e]])
  {
    hide Applicable, Signers, Blocks;
    t := net.(chains := net.chains[node := net.chains[node] + [e]]);
  }

  lemma ForkSeen(net: Net, i: nat, j: nat, c: seq<Entry>, d: seq<Entry>, a: Entry, b: Entry)
    requires i in net.chains && j in net.chains && net.chains[i] == c + [a] && net.chains[j] == d + [b]
    requires |c| == |d| && a.block != b.block
    ensures !NoFork(net)
  {
    assert Blocks(c + [a])[|c|] == a.block && Blocks(d + [b])[|c|] == b.block;
    assert !Comparable(net.chains[i], net.chains[j]);
  }

  lemma RunThen(cfg: Config, tally: Tally, byz: set<PubKey>, start: Net, steps: seq<Step>, net: Net, step: Step)
    requires Run(cfg, tally, byz, start, steps) == Some(net)
    ensures Run(cfg, tally, byz, start, steps + [step]) == Next(cfg, tally, byz, net, step)
  {
    hide Next;
    assert (steps + [step])[..|steps|] == steps;
  }

  /** So wherever the coded tally is not safe on a tip's stake list, some dishonest keys holding
      at most a third of its stake can fork the chain. */
  lemma CodedForksOnUnsafeLists(cfg: Config, sign: (PubKey, Header) -> Signature, net: Net, i: nat, j: nat, b1: Block,
                                b2: Block)
    returns (byz: set<PubKey>, steps: seq<Step>, end: Net)
    requires WellFormed(cfg) && CanSign(cfg, sign) && AtCrossroads(cfg, net, i, j, b1, b2)
    requires !TipMeets(cfg, CodedSafeList, net.chains[i])
    ensures TipMeets(cfg, ByzantineAtMostThird(byz), net.chains[i])
    ensures |steps| == 4 && Run(cfg, AsCoded, byz, net, steps) == Some(end) && !NoFork(end)
  {
    var blocks := Blocks(net.chains[i]);
    var docs, epoch := cfg.docs(StateAt(cfg, blocks).value.stakes), cfg.epoch(|blocks| + 1);
    CodedSafeIff(docs, epoch);
    hide QuorumSafe, ByzantineThird, CodedSafe, Run, WellFormed, NoFork, AtCrossroads, StateAt;
    byz :| ByzantineThird(docs, epoch, byz) && !QuorumSafe(AsCoded, docs, epoch, byz);
    steps, end := UnsafeTallyForks(cfg, AsCoded, byz, sign, net, i, j, b1, b2);
  }

  /** A node may lose any number of its newest blocks and get on from there. */
  lemma AnyRestart(cfg: Config, tally: Tally, byz: set<PubKey>, net: Net, node: nat, keep: nat, e: Entry)
    requires node in net.chains && keep <= |net.chains[node]|
    requires Applicable(cfg, tally, Blocks(net.chains[node][..keep]), e) && Unforged(cfg, net, byz, e)
    ensures Run(cfg, tally, byz, net, [Restart(node, keep), Deliver(node, e)])
         == Some(net.(chains := net.chains[node := net.chains[node][..keep] + [e]]))
  {
    hide Applicable, Unforged, Next;
    var t := net.(chains := net.chains[node := net.chains[node][..keep]]);
    RestartOnce(cfg, tally, byz, net, node, keep);
    UnforgedSame(cfg, net, t, byz, e);
    var u := DeliverAgain(cfg, tally, byz, t, node, e);
    EmptyRun(cfg, tally, byz, net);
    RunThen(cfg, tally, byz, net, [], net, Restart(node, keep));
    RunThen(cfg, tally, byz, net, [] + [Restart(node, keep)], t, Deliver(node, e));
    assert [] + [Restart(node, keep)] + [Deliver(node, e)] == [Restart(node, keep), Deliver(node, e)];
    assert u.chains == net.chains[node := net.chains[node][..keep] + [e]];
  }

  lemma RestartOnce(cfg: Config, tally: Tally, byz: set<PubKey>, net: Net, node: nat, keep: nat)
    requires node in net.chains && keep <= |net.chains[node]|
    ensures Next(cfg, tally, byz, net, Restart(node, keep))
         == Some(net.(chains := net.chains[node := net.chains[node][..keep]]))
  {
  }

  lemma UnforgedSame(cfg: Config, net: Net, t: Net, byz: set<PubKey>, e: Entry)
    requires t.signed == net.signed && Unforged(cfg, net, byz, e)
    ensures Unforged(cfg, t, byz, e)
  {
  }

  lemma DeliverAgain(cfg: Config, tally: Tally, byz: set<PubKey>, net: Net, node: nat, e: Entry) returns (t: Net)
    requires node in net.chains && Applicable(cfg, tally, Blocks(net.chains[node]), e) && Unforged(cfg, net, byz, e)
    ensures Next(cfg, tally, byz, net, Deliver(node, e)) == Some(t)
    ensures t == net.(chains := net.chains[node := net.chains[node] + [e]])
  {
    hide Applicable, Unforged;
    t := net.(chains := net.chains[node := net.chains[node] + [e]]);
  }

  // ---- Examples ----

  lemma SampleFacts(stakes: StakeSet)
    ensures var cfg := Samples.SampleConfig(stakes);
            var b1, b2 := Samples.SampleBlock(stakes, 0), Samples.SampleBlock(stakes, 1);
            && WellFormed(cfg) && HeadersBind(cfg) && Samples.Strong(cfg)
            && CanSign(cfg, Samples.Sign) && CanFollow(cfg, [], b1) && CanFollow(cfg, [], b2) && b1 != b2
  {
    Samples.SampleIsWellFormed(stakes);
    Samples.SampleIsStrong(stakes);
    SampleBinds(stakes);
    SampleFollows(stakes, 0);
    SampleFollows(stakes, 1);
    hide CanFollow, HeadersBind, WellFormed, Samples.HeaderBytes, Samples.StakeBytes, Samples.SampleConfig;
    var b1, b2 := Samples.SampleBlock(stakes, 0), Samples.SampleBlock(stakes, 1);
    assert b1.header.bodyHash.bytes[0] != b2.header.bodyHash.bytes[0];
  }

  lemma SampleBinds(stakes: StakeSet)
    ensures HeadersBind(Samples.SampleConfig(stakes))
  {
    hide StakesAfter;
  }

  lemma SampleFollows(stakes: StakeSet, n: nat)
    ensures CanFollow(Samples.SampleConfig(stakes), [], Samples.SampleBlock(stakes, n))
  {
    var cfg, b := Samples.SampleConfig(stakes), Samples.SampleBlock(stakes, n);
    var bs := [] + [b];
    assert bs[..0] == [] && bs[0] == b;
    assert TableAt(cfg, []).Some? && AcceptedStakes(b.header, b.transactions) == [];
    assert TableAt(cfg, bs).Some?;
    assert StakesAfter(cfg, stakes, b) == stakes;
    hide StakesAfter, Samples.HeaderBytes, Samples.StakeBytes;
    assert NextState(cfg, cfg.genesis, b).Some?;
  }

  function ThreeStakers(): StakeSet {
    map[
      TxHash(0) := StakeDoc(PubKey(0), 0, 1, 1),
      TxHash(1) := StakeDoc(PubKey(1), 0, 1, 1),
      TxHash(2) := StakeDoc(PubKey(2), 0, 1, 1)
    ]
  }

  /** How many of the three stakers are among the given keys. */
  function StakersAmong(keys: set<PubKey>): nat {
    (if PubKey(0) in keys then 1 else 0) + (if PubKey(1) in keys then 1 else 0) + (if PubKey(2) in keys then 1 else 0)
  }

  /** Of three equal stakes any keys hold as many thirds as there are stakers among them. */
  lemma ThreeStakes(docs: seq<StakeDoc>, keys: set<PubKey>)
    requires Lists(docs, ThreeStakers())
    ensures TotalStake(docs, 0) == 3
    ensures StakeOf(docs, 0, keys) == StakersAmong(keys)
  {
    hide ThreeStakers, StakeOf, TotalStake, StakeIn, Lists, Owners;
    ListedStakes(docs, ThreeStakers(), 0, keys);
    ThreeOwners();
    ThreeRows(Owners(ThreeStakers()));
    ThreeRows(keys);
  }

  lemma ThreeOwners()
    ensures PubKey(0) in Owners(ThreeStakers()) && PubKey(1) in Owners(ThreeStakers())
            && PubKey(2) in Owners(ThreeStakers())
  {
    var s := ThreeStakers();
    assert s[TxHash(0)].pubkey in Owners(s) && s[TxHash(1)].pubkey in Owners(s) && s[TxHash(2)].pubkey in Owners(s);
  }

  lemma ThreeRows(keys: set<PubKey>)
    ensures StakeIn(ThreeStakers(), 0, keys) == StakersAmong(keys)
  {
    var s := ThreeStakers();
    StakeInWithout(s, 0, keys, TxHash(0));
    StakeInWithout(s - {TxHash(0)}, 0, keys, TxHash(1));
    StakeInWithout(s - {TxHash(0)} - {TxHash(1)}, 0, keys, TxHash(2));
    assert s - {TxHash(0)} - {TxHash(1)} - {TxHash(2)} == map[];
  }

  /** Three equal stakes are not safe in whatever order they are listed. */
  lemma ThreeStakersUnsafe(docs: seq<StakeDoc>)
    requires Lists(docs, ThreeStakers())
    ensures !CodedSafe(docs, 0)
  {
    ThreeStakes(docs, {});
    forall k ensures ByzantineThird(docs, 0, {k}) {
      ThreeStakes(docs, {k});
    }
    NobodyOverAThird(docs, 0);
  }

  /** The assumptions are satisfiable together, with a first block that passes under either tally. */
  lemma AssumptionsHaveAModel() returns (cfg: Config, e: Entry)
    ensures WellFormed(cfg) && HeadersBind(cfg) && Samples.Strong(cfg) && CanSign(cfg, Samples.Sign)
    ensures Applicable(cfg, AsCoded, [], e) && Applicable(cfg, Intended, [], e)
  {
    cfg := Samples.SampleConfig(ThreeStakers());
    SampleFacts(ThreeStakers());
    var keys, b := {PubKey(0), PubKey(1), PubKey(2)}, Samples.SampleBlock(ThreeStakers(), 0);
    var docs := cfg.docs(ThreeStakers());
    ThreeStakes(docs, keys);
    IntendedImpliesCoded(docs, 0, keys);
    hide WellFormed, HeadersBind, CanSign, CanFollow, Samples.Strong, Applicable, Passes, Signers;
    NextApplies(cfg, AsCoded, Samples.Sign, keys, [], b);
    NextApplies(cfg, Intended, Samples.Sign, keys, [], b);
    e := Entry(b, SignedBy(Samples.Sign, keys, b.header));
  }

  function TwoNewNodes(): Net {
    Net(map[0 := [], 1 := []], {})
  }

  lemma SampleCrossroads(cfg: Config, b1: Block, b2: Block)
    requires cfg == Samples.SampleConfig(ThreeStakers())
    requires CanFollow(cfg, [], b1) && CanFollow(cfg, [], b2) && b1 != b2 && WellFormed(cfg)
    ensures AtCrossroads(cfg, TwoNewNodes(), 0, 1, b1, b2)
    ensures !TipMeets(cfg, CodedSafeList, [])
  {
    hide CanFollow, CodedSafe, Samples.ListOf, Samples.StakeBytes, Lists, ThreeStakers;
    assert Lists(cfg.docs(ThreeStakers()), ThreeStakers());
    ThreeStakersUnsafe(cfg.docs(ThreeStakers()));
    assert Blocks([]) == [];
  }

  /** A fork of the coded tally from a genesis with three equal stakes: collision-free hashes, one
      signature per key and header, and dishonest keys holding at most a third. */
  lemma ACodedFork() returns (cfg: Config, byz: set<PubKey>, steps: seq<Step>, end: Net)
    ensures WellFormed(cfg) && HeadersBind(cfg) && Samples.Strong(cfg)
    ensures cfg.genesis.stakes == ThreeStakers()
    ensures Fresh(TwoNewNodes()) && TipsMeet(cfg, ByzantineAtMostThird(byz), TwoNewNodes())
    ensures Run(cfg, AsCoded, byz, TwoNewNodes(), steps) == Some(end) && !NoFork(end)
  {
    hide CanFollow, Run, WellFormed, HeadersBind, CanSign, NoFork, TipMeets, Samples.Strong, AtCrossroads, ThreeStakers,
         Samples.SampleBlock, Samples.ListOf, Samples.StakeBytes, Samples.HeaderBytes;
    cfg := Samples.SampleConfig(ThreeStakers());
    SampleFacts(ThreeStakers());
    var b1, b2 := Samples.SampleBlock(ThreeStakers(), 0), Samples.SampleBlock(ThreeStakers(), 1);
    SampleCrossroads(cfg, b1, b2);
    byz, steps, end := CodedForksOnUnsafeLists(cfg, Samples.Sign, TwoNewNodes(), 0, 1, b1, b2);
  }
}
