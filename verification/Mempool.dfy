/** The mempool: a provisional state built from a base state by the transactions accepted
    since the last rebase. */
module Mempool {
  import opened Structs
  import Samples

  const WEIGHT_LIMIT: nat := 10_000_000

  datatype AddError = Full | Duplicate | Invalid

  datatype Pool = Pool(provisional: UnsealedState, lastRebase: UnsealedState, seen: set<TxHash>, nextWeight: nat)

  function NewPool(state: UnsealedState): Pool {
    Pool(state, state, {}, 0)
  }

  /** One transaction. Its hash counts as seen even when it then fails to apply. */
  function Add(cfg: Config, p: Pool, tx: Transaction): (Pool, Result<(), AddError>) {
    if p.nextWeight >= WEIGHT_LIMIT then (p, Err(Full))
    else if tx.hash in p.seen then (p, Err(Duplicate))
    else
      var q := p.(seen := p.seen + {tx.hash});
      match cfg.applyTx(p.provisional, tx)
      case None => (q, Err(Invalid))
      case Some(s) => (q.(provisional := s, nextWeight := p.nextWeight + tx.weight), Ok(()))
  }

  class Mempool {
    const cfg: Config
    var provisionalState: UnsealedState
    var lastRebase: UnsealedState
    var txxInState: set<TxHash>
    var nextWeight: nat

    function View(): Pool
      reads this
    {
      Pool(provisionalState, lastRebase, txxInState, nextWeight)
    }

    constructor (cfg: Config, state: UnsealedState)
      ensures this.cfg == cfg && View() == NewPool(state)
    {
      this.cfg := cfg;
      provisionalState, lastRebase, txxInState, nextWeight := state, state, {}, 0;
    }

    method ApplyTransaction(tx: Transaction) returns (res: Result<(), AddError>)
      modifies this
      ensures (View(), res) == Add(cfg, old(View()), tx)
    {
      if nextWeight < WEIGHT_LIMIT {
        if tx.hash in txxInState {
          return Err(Duplicate);
        }
        txxInState := txxInState + {tx.hash};
        var applied := cfg.applyTx(provisionalState, tx);
        if applied.None? {
          return Err(Invalid);
        }
        provisionalState := applied.value;
        nextWeight := nextWeight + tx.weight;
        return Ok(());
      } else {
        return Err(Full);
      }
    }

    method Rebase(state: SealedState)
      modifies this
      ensures View() == NewPool(cfg.nextUnsealed(state))
    {
      var nextState := cfg.nextUnsealed(state);
      provisionalState := nextState;
      lastRebase := nextState;
      txxInState := {};
      nextWeight := 0;
    }
  }

  // ---- Runs ----

  datatype Op = Apply(tx: Transaction) | Rebase(state: SealedState)

  /** The pool after a run, and the transactions accepted since the last rebase, in order. */
  function Run(cfg: Config, start: UnsealedState, ops: seq<Op>): (Pool, seq<Transaction>) {
    if |ops| == 0 then (NewPool(start), [])
    else
      var (p, accepted) := Run(cfg, start, ops[..|ops| - 1]);
      match ops[|ops| - 1]
      case Rebase(s) => (NewPool(cfg.nextUnsealed(s)), [])
      case Apply(tx) =>
        var (q, res) := Add(cfg, p, tx);
        (q, if res.Ok? then accepted + [tx] else accepted)
  }

  function Fold(cfg: Config, start: UnsealedState, txs: seq<Transaction>): Option<UnsealedState> {
    if |txs| == 0 then Some(start)
    else
      match Fold(cfg, start, txs[..|txs| - 1])
      case None => None
      case Some(s) => cfg.applyTx(s, txs[|txs| - 1])
  }

  function SumWeight(txs: seq<Transaction>): nat {
    if |txs| == 0 then 0 else SumWeight(txs[..|txs| - 1]) + txs[|txs| - 1].weight
  }

  /** The base state of the last rebase, or the initial one. */
  function BaseOf(cfg: Config, start: UnsealedState, ops: seq<Op>): UnsealedState {
    if |ops| == 0 then start
    else if ops[|ops| - 1].Rebase? then cfg.nextUnsealed(ops[|ops| - 1].state)
    else BaseOf(cfg, start, ops[..|ops| - 1])
  }

  lemma FoldAppend(cfg: Config, start: UnsealedState, txs: seq<Transaction>, tx: Transaction)
    requires Fold(cfg, start, txs).Some?
    ensures Fold(cfg, start, txs + [tx]) == cfg.applyTx(Fold(cfg, start, txs).value, tx)
    ensures SumWeight(txs + [tx]) == SumWeight(txs) + tx.weight
  {
    assert (txs + [tx])[..|txs|] == txs;
  }

  /** After every run the pool is a fold of its accepted transactions over its base. */
  lemma {:induction false} PoolIsFold(cfg: Config, start: UnsealedState, ops: seq<Op>)
    ensures var (p, accepted) := Run(cfg, start, ops);
            && p.lastRebase == BaseOf(cfg, start, ops)
            && Fold(cfg, p.lastRebase, accepted) == Some(p.provisional)
            && (forall i, j :: 0 <= i < j < |accepted| ==> accepted[i].hash != accepted[j].hash)
            && (forall tx :: tx in accepted ==> tx.hash in p.seen)
            && p.nextWeight == SumWeight(accepted)
            && (|accepted| > 0 ==> p.nextWeight < WEIGHT_LIMIT + accepted[|accepted| - 1].weight)
  {
    if |ops| > 0 {
      var front, op := ops[..|ops| - 1], ops[|ops| - 1];
      PoolIsFold(cfg, start, front);
      var (p, accepted) := Run(cfg, start, front);
      if op.Apply? && Add(cfg, p, op.tx).1.Ok? {
        FoldAppend(cfg, p.lastRebase, accepted, op.tx);
      }
    }
  }

  /** The transaction at position `i` reached the seen-set, and no rebase has cleared it since. */
  ghost predicate Attempted(cfg: Config, start: UnsealedState, ops: seq<Op>, i: nat, h: TxHash) {
    && i < |ops| && ops[i].Apply? && ops[i].tx.hash == h
    && Run(cfg, start, ops[..i]).0.nextWeight < WEIGHT_LIMIT
    && forall j :: i < j < |ops| ==> ops[j].Apply?
  }

  /** After every run the seen-set is exactly the hashes that arrived, valid or not, while the pool
      was below the weight limit, since the last rebase. */
  lemma {:induction false} SeenIff(cfg: Config, start: UnsealedState, ops: seq<Op>, h: TxHash)
    ensures h in Run(cfg, start, ops).0.seen <==> exists i :: Attempted(cfg, start, ops, i, h)
  {
    if |ops| > 0 {
      var n := |ops| - 1;
      SeenIff(cfg, start, ops[..n], h);
      AttemptedEarlier(cfg, start, ops, h);
      var p := Run(cfg, start, ops[..n]).0;
      assert Attempted(cfg, start, ops, n, h) <==> ops[n].Apply? && ops[n].tx.hash == h && p.nextWeight < WEIGHT_LIMIT;
      hide Attempted;
    }
  }

  lemma AttemptedEarlier(cfg: Config, start: UnsealedState, ops: seq<Op>, h: TxHash)
    requires |ops| > 0
    ensures var n := |ops| - 1;
            (exists i :: Attempted(cfg, start, ops, i, h)) <==>
              Attempted(cfg, start, ops, n, h) || (ops[n].Apply? && exists i :: Attempted(cfg, start, ops[..n], i, h))
  {
    hide Run;
    var n := |ops| - 1;
    forall i: nat | i < n
      ensures Attempted(cfg, start, ops, i, h) <==> ops[n].Apply? && Attempted(cfg, start, ops[..n], i, h)
    {
      assert ops[..n][..i] == ops[..i];
    }
    if i: nat :| Attempted(cfg, start, ops, i, h) {
      assert i == n || Attempted(cfg, start, ops[..n], i, h);
    }
    if i: nat :| ops[n].Apply? && Attempted(cfg, start, ops[..n], i, h) {
      assert Attempted(cfg, start, ops, i, h);
    }
  }

  /** Exactly when a transaction that would apply now is refused: the pool is full, or the same
      hash was attempted since the last rebase. */
  lemma RefusedThoughValidIff(cfg: Config, start: UnsealedState, ops: seq<Op>, tx: Transaction)
    requires cfg.applyTx(Run(cfg, start, ops).0.provisional, tx).Some?
    ensures var p := Run(cfg, start, ops).0;
            Add(cfg, p, tx).1.Err?
            <==> p.nextWeight >= WEIGHT_LIMIT || exists i :: Attempted(cfg, start, ops, i, tx.hash)
  {
    SeenIff(cfg, start, ops, tx.hash);
  }

  /** Ten million is the weight from which on everything is refused, and nothing below it is
      refused for its weight. */
  lemma FullFromTenMillion(cfg: Config, start: UnsealedState, ops: seq<Op>, tx: Transaction)
    ensures var p := Run(cfg, start, ops).0;
            && (p.nextWeight >= 10_000_000 ==> Add(cfg, p, tx) == (p, Err(Full)))
            && (p.nextWeight <= 9_999_999 ==> Add(cfg, p, tx).1 != Err(Full))
  {
  }

  function Applies(txs: seq<Transaction>): (ops: seq<Op>)
    ensures |ops| == |txs|
    ensures forall i :: 0 <= i < |txs| ==> ops[i] == Apply(txs[i])
  {
    seq(|txs|, i requires 0 <= i < |txs| => Apply(txs[i]))
  }

  /** A hash, once seen, is refused until the next rebase, whatever is added meanwhile, and the
      refusal has no effect. */
  lemma {:induction false} SeenStaysSeen(cfg: Config, start: UnsealedState, ops: seq<Op>, more: seq<Transaction>,
                                         tx: Transaction)
    requires tx.hash in Run(cfg, start, ops).0.seen
    ensures var p := Run(cfg, start, ops + Applies(more)).0;
            && tx.hash in p.seen
            && Add(cfg, p, tx) == (p, Err(if p.nextWeight < WEIGHT_LIMIT then Duplicate else Full))
  {
    if |more| == 0 {
      assert ops + Applies(more) == ops;
    } else {
      var all := ops + Applies(more);
      SeenStaysSeen(cfg, start, ops, more[..|more| - 1], tx);
      assert all[..|all| - 1] == ops + Applies(more[..|more| - 1]);
    }
  }

  /** So a transaction that fails once stays out until the next rebase. */
  lemma FailedTransactionStaysOut(cfg: Config, start: UnsealedState, ops: seq<Op>, tx: Transaction,
                                  more: seq<Transaction>)
    requires Add(cfg, Run(cfg, start, ops).0, tx).1 == Err(Invalid)
    ensures var p := Run(cfg, start, ops + [Apply(tx)] + Applies(more)).0;
            Add(cfg, p, tx) == (p, Err(if p.nextWeight < WEIGHT_LIMIT then Duplicate else Full))
  {
    assert (ops + [Apply(tx)])[..|ops|] == ops;
    SeenStaysSeen(cfg, start, ops + [Apply(tx)], more, tx);
  }

  /** It happens to a child that arrives before its parent: the child is invalid, the parent is
      accepted, the child would now apply, and it is refused as a duplicate. */
  lemma ChildBeforeParent() returns (cfg: Config, parent: Transaction, child: Transaction)
    ensures var first := Add(cfg, NewPool(cfg.genesisUnsealed), child);
            var second := Add(cfg, first.0, parent);
            && first.1 == Err(Invalid) && second.1 == Ok(())
            && second.0 == Run(cfg, cfg.genesisUnsealed, [Apply(child), Apply(parent)]).0
            && cfg.applyTx(second.0.provisional, child).Some?
            && Add(cfg, second.0, child).1 == Err(Duplicate)
  {
    cfg := Samples.SampleConfig(map[]);
    parent := Transaction(TxHash(0), OtherKind(0), None, 1);
    child := Transaction(TxHash(1), OtherKind(0), None, 1);
    var ops := [Apply(child), Apply(parent)];
    assert ops[..1] == [Apply(child)] && ops[..1][..0] == [];
    assert Run(cfg, cfg.genesisUnsealed, []).0 == NewPool(cfg.genesisUnsealed);
    assert Run(cfg, cfg.genesisUnsealed, ops[..1]).0 == Add(cfg, NewPool(cfg.genesisUnsealed), child).0;
  }
}
