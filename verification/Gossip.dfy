/** Transaction gossip between rebases: a node forwards what its mempool accepts to at most
    sixteen neighbours. */
module Gossip {
  import opened Structs
  import opened Mempool

  const FANOUT: nat := 16

  /** `sent` logs who broadcast what, in order. */
  datatype Net = Net(pools: map<nat, Pool>, msgs: multiset<(nat, Transaction)>, sent: seq<(nat, TxHash)>)

  datatype Step =
    | Drop(node: nat, tx: Transaction)
    | Handle(node: nat, tx: Transaction, recent: bool, neighbours: seq<nat>)

  function Messages(neighbours: seq<nat>, tx: Transaction): multiset<(nat, Transaction)> {
    if |neighbours| == 0 then multiset{}
    else Messages(neighbours[..|neighbours| - 1], tx) + multiset{(neighbours[|neighbours| - 1], tx)}
  }

  function Take(neighbours: seq<nat>): (r: seq<nat>)
    ensures |r| <= FANOUT
  {
    if |neighbours| <= FANOUT then neighbours else neighbours[..FANOUT]
  }

  /** A message is lost, or handled by send_tx; `recent` tells whether the receiver remembers the
      hash from the last ten seconds. */
  function Next(cfg: Config, net: Net, step: Step): Option<Net> {
    if (step.node, step.tx) !in net.msgs then None
    else
      var msgs := net.msgs - multiset{(step.node, step.tx)};
      match step
      case Drop(_, _) => Some(net.(msgs := msgs))
      case Handle(node, tx, recent, neighbours) =>
        if node !in net.pools || recent then Some(net.(msgs := msgs))
        else
          var (pool, res) := Add(cfg, net.pools[node], tx);
          var pools := net.pools[node := pool];
          if res.Ok? then
            Some(Net(pools, msgs + Messages(Take(neighbours), tx), net.sent + [(node, tx.hash)]))
          else
            Some(Net(pools, msgs, net.sent))
  }

  function Run(cfg: Config, start: Net, steps: seq<Step>): Option<Net> {
    if |steps| == 0 then Some(start)
    else
      match Run(cfg, start, steps[..|steps| - 1])
      case None => None
      case Some(net) => Next(cfg, net, steps[|steps| - 1])
  }

  /** The pairs of node and transaction hash not yet in the node's seen-set. */
  function Unseen(net: Net, hashes: set<TxHash>): set<(nat, TxHash)> {
    set n, h | n in net.pools && h in hashes && h !in net.pools[n].seen :: (n, h)
  }

  function Measure(net: Net, hashes: set<TxHash>): nat {
    (FANOUT + 1) * |Unseen(net, hashes)| + |net.msgs|
  }

  /** Only known transactions travel, and whoever has sent a hash has it in its seen-set. */
  ghost predicate Inv(net: Net, hashes: set<TxHash>) {
    && (forall m :: m in net.msgs ==> m.1.hash in hashes)
    && (forall i :: 0 <= i < |net.sent| ==>
        net.sent[i].0 in net.pools && net.sent[i].1 in net.pools[net.sent[i].0].seen)
    && (forall i, j :: 0 <= i < j < |net.sent| ==> net.sent[i] != net.sent[j])
  }

  lemma {:induction false} MessagesSize(neighbours: seq<nat>, tx: Transaction)
    ensures |Messages(neighbours, tx)| == |neighbours|
    ensures forall m :: m in Messages(neighbours, tx) ==> m.1 == tx
  {
    if |neighbours| > 0 {
      MessagesSize(neighbours[..|neighbours| - 1], tx);
    }
  }

  /** Seeing a hash for the first time removes exactly one pair. */
  lemma OneLessUnseen(net: Net, t: Net, hashes: set<TxHash>, node: nat, h: TxHash)
    requires node in net.pools && h in hashes && h !in net.pools[node].seen
    requires t.pools.Keys == net.pools.Keys && t.pools[node].seen == net.pools[node].seen + {h}
    requires forall n :: n in net.pools && n != node ==> t.pools[n] == net.pools[n]
    ensures |Unseen(t, hashes)| == |Unseen(net, hashes)| - 1
  {
    assert (node, h) in Unseen(net, hashes);
    assert Unseen(t, hashes) == Unseen(net, hashes) - {(node, h)};
  }

  /** How a handled or lost message changes the net. */
  lemma StepEffect(cfg: Config, net: Net, step: Step)
    requires Next(cfg, net, step).Some?
    ensures var t := Next(cfg, net, step).value;
            var msgs := net.msgs - multiset{(step.node, step.tx)};
            var h := step.tx.hash;
            && (step.node, step.tx) in net.msgs && |msgs| == |net.msgs| - 1
            && t.pools.Keys == net.pools.Keys
            && (forall n :: n in net.pools && n != step.node ==> t.pools[n] == net.pools[n])
            && ((t.pools == net.pools && t.msgs == msgs && t.sent == net.sent)
               || (&& step.node in net.pools && h !in net.pools[step.node].seen
                   && t.pools[step.node].seen == net.pools[step.node].seen + {h}
                   && |t.msgs| <= |msgs| + FANOUT
                   && (forall m :: m in t.msgs ==> m in msgs || m.1 == step.tx)
                   && (t.sent == net.sent || t.sent == net.sent + [(step.node, h)])))
  {
    if step.Handle? {
      MessagesSize(Take(step.neighbours), step.tx);
      if step.node in net.pools {
        assert net.pools[step.node := net.pools[step.node]] == net.pools;
      }
    }
  }

  lemma {:induction false} MessagesTo(neighbours: seq<nat>, tx: Transaction, m: (nat, Transaction))
    ensures Messages(neighbours, tx)[m] == if m.1 == tx then multiset(neighbours)[m.0] else 0
  {
    if |neighbours| > 0 {
      var n := |neighbours| - 1;
      MessagesTo(neighbours[..n], tx, m);
      assert neighbours == neighbours[..n] + [neighbours[n]];
    }
  }

  /** What a node newly accepts it sends to every neighbour if it has at most sixteen, else to the
      first sixteen; what it refuses goes no further. */
  lemma AcceptedIsForwarded(cfg: Config, net: Net, node: nat, tx: Transaction, neighbours: seq<nat>,
                            m: (nat, Transaction))
    requires (node, tx) in net.msgs && node in net.pools
    ensures var t := Next(cfg, net, Handle(node, tx, false, neighbours)).value;
            var accepted := Add(cfg, net.pools[node], tx).1.Ok?;
            var first := if |neighbours| <= 16 then neighbours else neighbours[..16];
            && t.pools == net.pools[node := Add(cfg, net.pools[node], tx).0]
            && t.sent == net.sent + (if accepted then [(node, tx.hash)] else [])
            && t.msgs[m] == net.msgs[m] - (if m == (node, tx) then 1 else 0)
                            + (if accepted && m.1 == tx then multiset(first)[m.0] else 0)
  {
    MessagesTo(Take(neighbours), tx, m);
  }

  /** A message is gone without effect when it is lost, and when the receiver remembers its hash. */
  lemma IgnoredOrLost(cfg: Config, net: Net, node: nat, tx: Transaction, neighbours: seq<nat>)
    requires (node, tx) in net.msgs
    ensures var t := net.(msgs := net.msgs - multiset{(node, tx)});
            Next(cfg, net, Drop(node, tx)) == Some(t) == Next(cfg, net, Handle(node, tx, true, neighbours))
  {
  }

  /** Every delivery and every loss brings the measure down. */
  lemma StepDecreases(cfg: Config, net: Net, step: Step, hashes: set<TxHash>)
    requires Inv(net, hashes) && Next(cfg, net, step).Some?
    ensures Measure(Next(cfg, net, step).value, hashes) < Measure(net, hashes)
  {
    hide Next, Unseen;
    var t := Next(cfg, net, step).value;
    StepEffect(cfg, net, step);
    if t.pools == net.pools {
      SameUnseen(net, t, hashes);
    } else {
      OneLessUnseen(net, t, hashes, step.node, step.tx.hash);
    }
  }

  lemma SameUnseen(net: Net, t: Net, hashes: set<TxHash>)
    requires t.pools == net.pools
    ensures Unseen(t, hashes) == Unseen(net, hashes)
  {
  }

  lemma InvStep(cfg: Config, net: Net, step: Step, hashes: set<TxHash>)
    requires Inv(net, hashes) && Next(cfg, net, step).Some?
    ensures Inv(Next(cfg, net, step).value, hashes)
  {
    StepEffect(cfg, net, step);
    hide Next;
  }

  /** Gossip dies out: a run is no longer than the measure it starts from, and in it no node
      broadcasts the same transaction twice. */
  lemma {:induction false} GossipTerminates(cfg: Config, start: Net, steps: seq<Step>, end: Net, hashes: set<TxHash>)
    requires (forall m :: m in start.msgs ==> m.1.hash in hashes) && start.sent == []
    requires Run(cfg, start, steps) == Some(end)
    ensures |steps| + Measure(end, hashes) <= Measure(start, hashes)
    ensures Inv(end, hashes)
    ensures forall i, j :: 0 <= i < j < |end.sent| ==> end.sent[i] != end.sent[j]
  {
    if |steps| > 0 {
      var before := Run(cfg, start, steps[..|steps| - 1]).value;
      GossipTerminates(cfg, start, steps[..|steps| - 1], before, hashes);
      hide Inv, Next, Measure;
      InvStep(cfg, before, steps[|steps| - 1], hashes);
      StepDecreases(cfg, before, steps[|steps| - 1], hashes);
    }
  }

  /** A node that has broadcast a transaction refuses it from then on. */
  lemma SentIsRefused(cfg: Config, net: Net, hashes: set<TxHash>, i: nat, tx: Transaction, neighbours: seq<nat>)
    requires Inv(net, hashes) && i < |net.sent| && net.sent[i].1 == tx.hash
    requires (net.sent[i].0, tx) in net.msgs
    ensures Next(cfg, net, Handle(net.sent[i].0, tx, false, neighbours))
         == Some(net.(msgs := net.msgs - multiset{(net.sent[i].0, tx)}))
  {
    var node := net.sent[i].0;
    assert net.pools[node := net.pools[node]] == net.pools;
  }
}
