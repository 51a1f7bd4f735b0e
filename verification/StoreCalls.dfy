/** The calls of apply_block in some sequential order. */
module StoreCalls {
  import opened Structs
  import opened Quorum
  import opened Stakes
  import opened Ledger
  import opened Storage
  import opened StoreMachine
  import opened StoreInvariant
  import opened StoreDrops

  datatype Call = Call(e: Entry, ok: bool)

  /** The calls made one at a time from `base`: the chain they leave, or None if apply_block
      would not give some call the result it has here. */
  function Serial(cfg: Config, base: seq<Entry>, log: seq<Call>): Option<seq<Entry>> {
    if |log| == 0 then Some(base)
    else
      match Serial(cfg, base, log[..|log| - 1])
      case None => None
      case Some(chain) => OneCall(cfg, chain, log[|log| - 1])
  }

  function OneCall(cfg: Config, chain: seq<Entry>, call: Call): Option<seq<Entry>> {
    if call.ok != Applicable(cfg, AsCoded, Blocks(chain), call.e) then None
    else if call.ok then Some(chain + [call.e])
    else Some(chain)
  }

  lemma SerialThen(cfg: Config, base: seq<Entry>, log: seq<Call>, call: Call)
    requires Serial(cfg, base, log).Some?
    ensures Serial(cfg, base, log + [call]) == OneCall(cfg, Serial(cfg, base, log).value, call)
  {
    hide OneCall;
    assert (log + [call])[..|log|] == log;
  }

  /** A node just opened: nothing is under way. */
  ghost predicate JustOpened(cfg: Config, s: Node) {
    Inv(cfg, s) && s.appliers == map[] && s.orphans == [] && s.lock.None?
  }

  lemma OpenedAfterCrash(cfg: Config, s: Node, step: Step)
    requires Inv(cfg, s) && step.Crash? && Next(cfg, s, step).Some?
    ensures JustOpened(cfg, Next(cfg, s, step).value)
  {
    hide Inv, Within, TableAt;
    InvStep(cfg, s, step);
  }

  predicate NoCrash(steps: seq<Step>) {
    forall i :: 0 <= i < |steps| ==> !steps[i].Crash?
  }

  // ---- In the order in which the calls end ----

  /** The step from `s` to `t` ends the call of `p` with the given result. */
  predicate Completes(s: Node, t: Node, p: nat, ok: bool) {
    && p in s.appliers && !s.appliers[p].Returned? && !s.appliers[p].ApplierPanic?
    && p in t.appliers && t.appliers[p] == Returned(ok)
  }

  /** The call that returns in the step from `s` to `t`, if any. */
  function ReturnedBy(s: Node, step: Step, t: Node): seq<Call> {
    match step
    case Check(p) => if Completes(s, t, p, false) then [Call(s.appliers[p].e, false)] else []
    case Commit(p) => if Completes(s, t, p, false) then [Call(s.appliers[p].e, false)] else []
    case Finish(p) => if Completes(s, t, p, true) then [Call(s.appliers[p].e, true)] else []
    case _ => []
  }

  /** The call ended by the step from `s` to `t`, if any. One dropped between its commit and its
      notification has succeeded, though nobody hears of it. */
  function Ended(s: Node, step: Step, t: Node): seq<Call> {
    match step
    case Cancel(p) => if p in s.appliers && s.appliers[p].Committed? then [Call(s.appliers[p].e, true)] else []
    case _ => ReturnedBy(s, step, t)
  }

  ghost function Log(cfg: Config, start: Node, steps: seq<Step>): seq<Call> {
    if |steps| == 0 then []
    else
      var front := steps[..|steps| - 1];
      match (Run(cfg, start, front), Run(cfg, start, steps))
      case (Some(s), Some(t)) => Log(cfg, start, front) + Ended(s, steps[|steps| - 1], t)
      case _ => []
  }

  /** The log misses no result a caller sees. */
  lemma EveryResultIsLogged(cfg: Config, s: Node, step: Step, t: Node, p: nat, ok: bool)
    requires Next(cfg, s, step) == Some(t) && Completes(s, t, p, ok)
    ensures Ended(s, step, t) == [Call(s.appliers[p].e, ok)]
  {
    hide AfterCheck, AfterCommit, AfterOrphan, FromBlock, BatchStakes, Highest, Within, TableAt, NotifyAll;
    match step {
      case Check(q) => CheckMovesOne(cfg, s, q); CheckOutcome(cfg, s, q);
      case Commit(q) => if q in s.appliers && s.appliers[q].InTx? { CommitMovesOne(s, q); }
      case OrphanCommit(i) => OrphanMovesNone(s, i);
      case _ =>
    }
  }

  lemma CheckMovesOne(cfg: Config, s: Node, p: nat)
    requires p in s.appliers && s.appliers[p].SawHeight?
    ensures var t := AfterCheck(cfg, s, p);
            t.appliers == s.appliers[p := t.appliers[p]] && t.chain == s.chain
  {
    hide StateFromDb, NextState, VotesPass;
  }

  lemma CheckOutcome(cfg: Config, s: Node, p: nat)
    requires p in s.appliers && s.appliers[p].SawHeight?
    ensures var a := AfterCheck(cfg, s, p).appliers[p]; a.Checked? || a == Returned(false) || a.ApplierPanic?
  {
    hide StateFromDb, NextState, VotesPass;
  }

  lemma CommitMovesOne(s: Node, p: nat)
    requires p in s.appliers && s.appliers[p].InTx?
    ensures var t := AfterCommit(s, p);
            if CommitTx(s.db, s.appliers[p].e).Some? then
              && t.appliers == s.appliers[p := Committed(s.appliers[p].e)] && t.lock == s.lock
              && t.chain == s.chain + [s.appliers[p].e]
            else
              && t.appliers == s.appliers[p := Returned(false)] && t.lock.None? && t.chain == s.chain
  {
    hide CommitTx;
  }

  lemma OrphanMovesNone(s: Node, i: nat)
    requires i < |s.orphans|
    ensures AfterOrphan(s, i).appliers == s.appliers && AfterOrphan(s, i).lock == s.lock
  {
    hide CommitTx;
  }

  /** The entry of a call that has committed and not yet notified. */
  function InFlight(s: Node): seq<Entry> {
    if s.lock.Some? && s.lock.value in s.appliers && s.appliers[s.lock.value].Committed? then
        [s.appliers[s.lock.value].e]
    else []
  }

  lemma RefusedByTip(cfg: Config, s: Node, p: nat)
    requires Inv(cfg, s) && Orderly(s) && p in s.appliers && s.appliers[p].SawHeight?
    requires AfterCheck(cfg, s, p).appliers[p] == Returned(false)
    ensures !Applicable(cfg, AsCoded, Blocks(s.chain), s.appliers[p].e)
  {
    hide Inv, Orderly, Acceptable, AfterCheck;
    AtTip(cfg, s, p);
    InvCheck(cfg, s, p);
    assert Blocks(s.chain)[..|s.chain|] == Blocks(s.chain);
  }

  lemma AtTip(cfg: Config, s: Node, p: nat)
    requires Inv(cfg, s) && Orderly(s) && p in s.appliers && s.appliers[p].SawHeight?
    ensures s.appliers[p].height == |s.chain|
  {
    assert UpToDate(s, s.appliers[p]);
  }

  /** A call that has committed and not yet notified has put its entry on top of the chain. */
  ghost predicate OnTop(s: Node) {
    forall p :: p in s.appliers && s.appliers[p].Committed? ==>
        |s.chain| > 0 && s.chain[|s.chain| - 1] == s.appliers[p].e
  }

  lemma OnTopStep(cfg: Config, s: Node, step: Step)
    requires Inv(cfg, s) && Orderly(s) && OnTop(s) && Next(cfg, s, step).Some? && !step.Crash?
    ensures OnTop(Next(cfg, s, step).value)
  {
    hide Durable, ApplierOk, WaiterOk, OrphanOk, UpToDate, AfterCheck, AfterCommit, AfterOrphan, FromBlock,
         BatchStakes, Highest, NotifyAll, Within, TableAt;
    match step {
      case Check(p) => CheckMovesOne(cfg, s, p); CheckOutcome(cfg, s, p);
      case Commit(p) => OnTopCommit(cfg, s, p);
      case _ =>
    }
  }

  lemma OnTopCommit(cfg: Config, s: Node, p: nat)
    requires Inv(cfg, s) && OnTop(s) && p in s.appliers && s.appliers[p].InTx?
    ensures OnTop(AfterCommit(s, p))
  {
    hide Durable, ApplierOk, WaiterOk, OrphanOk, AfterCommit, CommitTx;
    CommitMovesOne(s, p);
    assert forall q :: q in s.appliers && q != p ==> !Holds(s.appliers[q]);
  }

  lemma TopApplies(cfg: Config, s: Node)
    requires Inv(cfg, s) && |s.chain| > 0
    ensures Applicable(cfg, AsCoded, Blocks(s.chain[..|s.chain| - 1]), s.chain[|s.chain| - 1])
  {
    hide Applicable;
  }

  /** One step: the calls it ends, run on their own, take the chain without the entry in flight
      from the one it was to the one it is. */
  lemma SerialStep(cfg: Config, s: Node, step: Step, base: seq<Entry>, log: seq<Call>)
    requires Inv(cfg, s) && Orderly(s) && OnTop(s) && Next(cfg, s, step).Some? && !step.Crash?
    requires Serial(cfg, base, log).Some? && s.chain == Serial(cfg, base, log).value + InFlight(s)
    ensures var t := Next(cfg, s, step).value; var log' := log + Ended(s, step, t);
            Serial(cfg, base, log').Some? && t.chain == Serial(cfg, base, log').value + InFlight(t)
  {
    hide Serial, Inv, Orderly, OnTop, OneCall;
    var t := Next(cfg, s, step).value;
    var chain := Serial(cfg, base, log).value;
    var ended := Ended(s, step, t);
    OneEnded(cfg, s, step);
    if ended != [] {
      SerialThen(cfg, base, log, ended[0]);
      EndsRight(cfg, s, step, chain);
    } else {
      assert log + [] == log;
      NoneEnds(cfg, s, step, chain);
    }
  }

  lemma OneEnded(cfg: Config, s: Node, step: Step)
    requires Next(cfg, s, step).Some?
    ensures var ended := Ended(s, step, Next(cfg, s, step).value); ended == [] || ended == [ended[0]]
  {
    hide Next, Completes;
  }

  /** A call that ends gets the result it would get alone on the chain without it. */
  lemma EndsRight(cfg: Config, s: Node, step: Step, chain: seq<Entry>)
    requires Inv(cfg, s) && Orderly(s) && OnTop(s) && Next(cfg, s, step).Some?
    requires s.chain == chain + InFlight(s)
    requires |Ended(s, step, Next(cfg, s, step).value)| == 1
    ensures var t := Next(cfg, s, step).value;
            OneCall(cfg, chain, Ended(s, step, t)[0]) == Some(t.chain) && InFlight(t) == []
  {
    hide Durable, ApplierOk, WaiterOk, OrphanOk, UpToDate, CommitTx, StateFromDb, NextState, VotesPass, NotifyAll,
         Applicable, FromBlock, BatchStakes, Highest;
    if step.Check? {
      RefusedByTip(cfg, s, step.p);
      assert s.lock == Some(step.p) && chain == s.chain;
    } else if step.Commit? {
      InvCommit(cfg, s, step.p);
      assert s.lock == Some(step.p) && chain == s.chain;
      assert CommitTx(s.db, s.appliers[step.p].e).None?;
    } else {
      assert s.lock == Some(step.p);
      TopApplies(cfg, s);
      assert s.chain[..|s.chain| - 1] == chain;
    }
  }

  lemma NoneEnds(cfg: Config, s: Node, step: Step, chain: seq<Entry>)
    requires Inv(cfg, s) && Orderly(s) && OnTop(s) && Next(cfg, s, step).Some? && !step.Crash?
    requires Ended(s, step, Next(cfg, s, step).value) == [] && s.chain == chain + InFlight(s)
    ensures Next(cfg, s, step).value.chain == chain + InFlight(Next(cfg, s, step).value)
  {
    hide Durable, ApplierOk, WaiterOk, OrphanOk, UpToDate, CommitTx, StateFromDb, NextState, VotesPass, NotifyAll,
         Applicable, FromBlock, BatchStakes, Highest, Within, TableAt;
    var t := Next(cfg, s, step).value;
    if step.Commit? {
      assert s.lock == Some(step.p);
      assert chain == s.chain;
    }
  }

  /** The calls that ended, made one after the other, leave the chain as it is, but for the entry
      of the call between its commit and its notification. */
  ghost predicate Accounted(cfg: Config, start: Node, steps: seq<Step>, s: Node) {
    Explains(cfg, start, Log(cfg, start, steps), s)
  }

  predicate Explains(cfg: Config, start: Node, log: seq<Call>, s: Node) {
    var alone := Serial(cfg, start.chain, log);
    alone.Some? && s.chain == alone.value + InFlight(s)
  }

  /** From any opening of the store on, up to the next crash, calls have the results and the
      effect they would have one at a time in the order in which they end, unless one is
      dropped while its transaction runs. */
  lemma {:induction false} CallsSerialise(cfg: Config, start: Node, steps: seq<Step>, phases: set<Phase>, s: Node)
    requires JustOpened(cfg, start) && NoCrash(steps) && Run(cfg, start, steps) == Some(s)
    requires DropsOnlyIn(cfg, start, steps, phases) && InSql !in phases
    ensures Accounted(cfg, start, steps, s) && OnTop(s)
  {
    if |steps| == 0 {
      assert start.chain + [] == start.chain;
    } else {
      hide Inv, Next, Orderly, Serial, OnTop, InFlight, Ended;
      var front := steps[..|steps| - 1];
      var before := Run(cfg, start, front).value;
      CallsSerialise(cfg, start, front, phases, before);
      OpenedOrderly(cfg, start);
      InvRunFrom(cfg, start, front);
      OrderlyRun(cfg, start, front, phases, before);
      OnTopStep(cfg, before, steps[|steps| - 1]);
      SerialStep(cfg, before, steps[|steps| - 1], start.chain, Log(cfg, start, front));
    }
  }

  lemma OpenedOrderly(cfg: Config, s: Node)
    requires JustOpened(cfg, s)
    ensures Inv(cfg, s) && Orderly(s)
  {
    hide Inv;
  }

  ghost predicate AlwaysAccounted(cfg: Config, phases: set<Phase>) {
    forall steps :: DropsOnlyIn(cfg, Init(cfg), steps, phases) && NoCrash(steps) && Run(cfg, Init(cfg), steps).Some? ==>
      Accounted(cfg, Init(cfg), steps, Run(cfg, Init(cfg), steps).value)
  }

  predicate NoneOk(log: seq<Call>) {
    forall i :: 0 <= i < |log| ==> !log[i].ok
  }

  lemma {:induction false} NoneOkChangesNothing(cfg: Config, base: seq<Entry>, log: seq<Call>)
    requires Serial(cfg, base, log).Some? && NoneOk(log)
    ensures Serial(cfg, base, log).value == base
  {
    hide Applicable;
    if |log| > 0 {
      NoneOkChangesNothing(cfg, base, log[..|log| - 1]);
    }
  }

  lemma {:induction false} UnfinishedIsNotLogged(cfg: Config, phases: set<Phase>, steps: seq<Step>, s: Node)
    requires Reaches(cfg, phases, steps, s)
    ensures NoneOk(Returns(cfg, Init(cfg), steps))
    ensures BeforeNotify !in phases ==> NoneOk(Log(cfg, Init(cfg), steps))
  {
    hide Next, Completes;
    if |steps| > 0 {
      var front := steps[..|steps| - 1];
      UnfinishedIsNotLogged(cfg, phases, front, Run(cfg, Init(cfg), front).value);
    }
  }

  lemma Unexplained(cfg: Config, log: seq<Call>, s: Node)
    requires NoneOk(log) && s.appliers == map[] && s.chain != []
    ensures !Explains(cfg, Init(cfg), log, s)
  {
    hide Serial;
    if Serial(cfg, [], log).Some? {
      NoneOkChangesNothing(cfg, [], log);
    }
  }

  /** Where some first block can be applied, the ended calls account for every chain exactly if
      no call is dropped while its transaction runs. */
  lemma AlwaysAccountedIff(cfg: Config, phases: set<Phase>, e: Entry)
    requires WellFormed(cfg) && Applicable(cfg, AsCoded, [], e)
    ensures AlwaysAccounted(cfg, phases) <==> InSql !in phases
  {
    hide Run, DropsOnlyIn, Explains, Applicable, Inv, Log, Returns, Next;
    if InSql in phases {
      var steps, s := OrphanLosesWakeup(cfg, e);
      MorePhases(cfg, Init(cfg), steps, {InSql}, phases);
      UnfinishedIsNotLogged(cfg, {InSql}, steps, s);
      Unexplained(cfg, Log(cfg, Init(cfg), steps), s);
    } else {
      InvInit(cfg);
      forall steps | DropsOnlyIn(cfg, Init(cfg), steps, phases) && NoCrash(steps) && Run(cfg, Init(cfg), steps).Some?
        ensures Accounted(cfg, Init(cfg), steps, Run(cfg, Init(cfg), steps).value)
      {
        CallsSerialise(cfg, Init(cfg), steps, phases, Run(cfg, Init(cfg), steps).value);
      }
    }
  }

  // ---- What callers hear ----

  /** The calls that returned, in this order, with the results their callers got. */
  ghost function Returns(cfg: Config, start: Node, steps: seq<Step>): seq<Call> {
    if |steps| == 0 then []
    else
      var front := steps[..|steps| - 1];
      match (Run(cfg, start, front), Run(cfg, start, steps))
      case (Some(s), Some(t)) => Returns(cfg, start, front) + ReturnedBy(s, steps[|steps| - 1], t)
      case _ => []
  }

  /** Every block of the chain was reported to the caller that brought it, or is about to be. */
  ghost predicate AlwaysReported(cfg: Config, phases: set<Phase>) {
    forall steps :: DropsOnlyIn(cfg, Init(cfg), steps, phases) && NoCrash(steps) && Run(cfg, Init(cfg), steps).Some? ==>
      Explains(cfg, Init(cfg), Returns(cfg, Init(cfg), steps), Run(cfg, Init(cfg), steps).value)
  }

  lemma {:induction false} LogIsReturns(cfg: Config, start: Node, steps: seq<Step>, phases: set<Phase>)
    requires DropsOnlyIn(cfg, start, steps, phases) && BeforeNotify !in phases
    ensures Log(cfg, start, steps) == Returns(cfg, start, steps)
  {
    hide Next, Completes;
    if |steps| > 0 {
      LogIsReturns(cfg, start, steps[..|steps| - 1], phases);
    }
  }

  /** Where some first block can be applied, no block is ever committed that no call reports,
      exactly if no call is dropped while its transaction runs or after it. */
  lemma AlwaysReportedIff(cfg: Config, phases: set<Phase>, e: Entry)
    requires WellFormed(cfg) && Applicable(cfg, AsCoded, [], e)
    ensures AlwaysReported(cfg, phases) <==> InSql !in phases && BeforeNotify !in phases
  {
    hide Run, DropsOnlyIn, Explains, Applicable, Inv, Log, Returns, Next;
    if InSql in phases {
      var steps, s := OrphanLosesWakeup(cfg, e);
      MorePhases(cfg, Init(cfg), steps, {InSql}, phases);
      UnfinishedIsNotLogged(cfg, {InSql}, steps, s);
      Unexplained(cfg, Returns(cfg, Init(cfg), steps), s);
    } else if BeforeNotify in phases {
      var steps, s := CancelLosesWakeup(cfg, e);
      MorePhases(cfg, Init(cfg), steps, {BeforeNotify}, phases);
      UnfinishedIsNotLogged(cfg, {BeforeNotify}, steps, s);
      Unexplained(cfg, Returns(cfg, Init(cfg), steps), s);
    } else {
      InvInit(cfg);
      forall steps | DropsOnlyIn(cfg, Init(cfg), steps, phases) && NoCrash(steps) && Run(cfg, Init(cfg), steps).Some?
        ensures Explains(cfg, Init(cfg), Returns(cfg, Init(cfg), steps), Run(cfg, Init(cfg), steps).value)
      {
        CallsSerialise(cfg, Init(cfg), steps, phases, Run(cfg, Init(cfg), steps).value);
        LogIsReturns(cfg, Init(cfg), steps, phases);
      }
    }
  }
}
