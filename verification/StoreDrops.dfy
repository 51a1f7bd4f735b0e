/** What dropping an apply_block future costs, by the phase the dropped call is in. */
module StoreDrops {
  import opened Structs
  import opened Quorum
  import opened Stakes
  import opened Ledger
  import opened Storage
  import opened StoreMachine
  import opened StoreInvariant
  import opened StoreRuns

  /** Where an apply_block call stands when its future is dropped. */
  datatype Phase = BeforeLock | LockTaken | HeightRead | Accepted | NodesFlushed | InSql | BeforeNotify | Over

  function PhaseOf(a: Applier): Phase {
    match a
    case Waiting(_) => BeforeLock
    case Locked(_) => LockTaken
    case SawHeight(_, _) => HeightRead
    case Checked(_, _) => Accepted
    case Flushed(_, _) => NodesFlushed
    case InTx(_, _) => InSql
    case Committed(_) => BeforeNotify
    case Returned(_) => Over
    case ApplierPanic => Over
  }

  predicate DropAllowed(s: Node, step: Step, phases: set<Phase>) {
    step.Cancel? && step.p in s.appliers ==> PhaseOf(s.appliers[step.p]) in phases
  }

  /** Every call dropped during the run is in one of the given phases at that moment. */
  ghost predicate DropsOnlyIn(cfg: Config, start: Node, steps: seq<Step>, phases: set<Phase>) {
    |steps| > 0 ==>
      && DropsOnlyIn(cfg, start, steps[..|steps| - 1], phases)
      && match Run(cfg, start, steps[..|steps| - 1])
         case None => true
         case Some(s) => DropAllowed(s, steps[|steps| - 1], phases)
  }

  ghost predicate UpToDate(s: Node, a: Applier) {
    match a
    case SawHeight(_, h) => h == |s.chain|
    case Checked(e, _) => e.block.header.height == |s.chain| + 1
    case Flushed(e, _) => e.block.header.height == |s.chain| + 1
    case InTx(e, _) => e.block.header.height == |s.chain| + 1
    case _ => true
  }

  /** No transaction runs on its own, and the lock holder works on the current tip. */
  ghost predicate Orderly(s: Node) {
    s.orphans == [] && forall p :: p in s.appliers ==> UpToDate(s, s.appliers[p])
  }

  lemma OrderlyStep(cfg: Config, s: Node, step: Step)
    requires Inv(cfg, s) && Orderly(s) && Next(cfg, s, step).Some?
    requires step.Cancel? && step.p in s.appliers ==> !s.appliers[step.p].InTx?
    ensures Orderly(Next(cfg, s, step).value)
  {
    hide Durable, ApplierOk, WaiterOk, CommitTx, FromBlock, BatchStakes, Highest, Within, TableAt, NextState,
         VotesPass, NotifyAll, AfterCheck, AfterCommit, AfterOrphan;
    match step {
      case ReadHeight(p) => InvReadHeight(cfg, s, p);
      case Check(p) => OrderlyCheck(cfg, s, p);
      case Commit(p) => OrderlyCommit(cfg, s, p);
      case _ =>
    }
  }

  lemma OrderlyCheck(cfg: Config, s: Node, p: nat)
    requires Inv(cfg, s) && Orderly(s) && p in s.appliers && s.appliers[p].SawHeight?
    ensures Orderly(AfterCheck(cfg, s, p))
  {
    hide Durable, WaiterOk, OrphanOk, StateFromDb, NextState, VotesPass;
    InvApplier(cfg, s, p);
    TopFromDb(cfg, s, s.appliers[p].height);
  }

  /** Only the lock holder was working on the tip that has moved. */
  lemma OrderlyCommit(cfg: Config, s: Node, p: nat)
    requires Inv(cfg, s) && Orderly(s) && p in s.appliers && s.appliers[p].InTx?
    ensures Orderly(AfterCommit(s, p))
  {
    hide Durable, ApplierOk, WaiterOk, OrphanOk, CommitTx;
    var t := AfterCommit(s, p);
    forall q | q in t.appliers ensures UpToDate(t, t.appliers[q]) {
      assert q != p ==> !Holds(s.appliers[q]);
    }
  }

  /** Whatever else is dropped, a run stays orderly while no running transaction loses its call. */
  lemma {:induction false} OrderlyRun(cfg: Config, start: Node, steps: seq<Step>, phases: set<Phase>, s: Node)
    requires Inv(cfg, start) && Orderly(start) && Run(cfg, start, steps) == Some(s)
    requires DropsOnlyIn(cfg, start, steps, phases) && InSql !in phases
    ensures Orderly(s)
  {
    hide Inv, Next, Orderly;
    if |steps| > 0 {
      var before := Run(cfg, start, steps[..|steps| - 1]).value;
      OrderlyRun(cfg, start, steps[..|steps| - 1], phases, before);
      InvRunFrom(cfg, start, steps[..|steps| - 1]);
      OrderlyStep(cfg, before, steps[|steps| - 1]);
    }
  }

  /** And every commit is announced if no call is dropped before it notifies either. */
  lemma {:induction false} AnnouncedRun(cfg: Config, start: Node, steps: seq<Step>, phases: set<Phase>, s: Node)
    requires Inv(cfg, start) && Orderly(start) && Run(cfg, start, steps) == Some(s)
    requires DropsOnlyIn(cfg, start, steps, phases) && InSql !in phases && BeforeNotify !in phases
    requires start.unannounced == {}
    ensures s.unannounced == {}
  {
    hide Inv, Next, Orderly;
    if |steps| > 0 {
      var before := Run(cfg, start, steps[..|steps| - 1]).value;
      AnnouncedRun(cfg, start, steps[..|steps| - 1], phases, before);
      OrderlyRun(cfg, start, steps[..|steps| - 1], phases, before);
      AnnouncedStep(cfg, before, steps[|steps| - 1]);
    }
  }

  lemma AnnouncedStep(cfg: Config, s: Node, step: Step)
    requires Orderly(s) && s.unannounced == {} && Next(cfg, s, step).Some?
    requires step.Cancel? && step.p in s.appliers ==> !s.appliers[step.p].Committed?
    ensures Next(cfg, s, step).value.unannounced == {}
  {
    hide CommitTx, FromBlock, BatchStakes, Highest, Within, TableAt, NextState, VotesPass, NotifyAll, UpToDate;
  }

  lemma InitOrderly(cfg: Config)
    requires WellFormed(cfg)
    ensures Inv(cfg, Init(cfg)) && Orderly(Init(cfg)) && Init(cfg).unannounced == {}
  {
    InvInit(cfg);
  }

  // ---- Inserts ----

  /** No running transaction is about to insert a height that is already stored. */
  ghost predicate NoConflict(s: Node) {
    forall p :: p in s.appliers && s.appliers[p].InTx? ==>
      var h := s.appliers[p].e.block.header.height;
      h !in s.db.history && h !in s.db.proofs
  }

  /** The inserts of apply_block never meet a taken height, unless a call is dropped while its
      transaction runs. */
  lemma InsertsNeverConflict(cfg: Config, steps: seq<Step>, phases: set<Phase>, s: Node)
    requires WellFormed(cfg) && Run(cfg, Init(cfg), steps) == Some(s)
    requires DropsOnlyIn(cfg, Init(cfg), steps, phases) && InSql !in phases
    ensures NoConflict(s)
  {
    InitOrderly(cfg);
    InvRun(cfg, steps);
    OrderlyRun(cfg, Init(cfg), steps, phases, s);
    hide Run, DropsOnlyIn, StoreInv;
    forall p | p in s.appliers && s.appliers[p].InTx?
      ensures s.appliers[p].e.block.header.height !in s.db.history
              && s.appliers[p].e.block.header.height !in s.db.proofs
    {
      assert UpToDate(s, s.appliers[p]);
      ReadsAgree(cfg, s.chain, s.db, s.disk, map[], s.appliers[p].e.block.header.height);
    }
  }

  // ---- Wakeups ----

  /** A waiter asleep on a stored height has been notified, or a call that committed the height
      is about to notify. */
  ghost predicate NoneStranded(s: Node) {
    forall w ::
      w in s.waiters && s.waiters[w].Asleep? && s.waiters[w].height in s.db.history && !s.waiters[w].notified ==>
        exists p :: p in s.appliers && s.appliers[p].Committed?
                 && s.appliers[p].e.block.header.height == s.waiters[w].height
  }

  /** No wakeup is lost, unless a call is dropped while its transaction runs or between its
      commit and its notification. */
  lemma NoLostWakeup(cfg: Config, steps: seq<Step>, phases: set<Phase>, s: Node)
    requires WellFormed(cfg) && Run(cfg, Init(cfg), steps) == Some(s)
    requires DropsOnlyIn(cfg, Init(cfg), steps, phases) && InSql !in phases && BeforeNotify !in phases
    ensures NoneStranded(s)
  {
    InitOrderly(cfg);
    AnnouncedRun(cfg, Init(cfg), steps, phases, s);
    forall w | w in s.waiters && s.waiters[w].Asleep? && s.waiters[w].height in s.db.history && !s.waiters[w].notified
      ensures Pledged(s, s.waiters[w].height)
    {
      SleepersArePledged(cfg, steps, s, w);
    }
    hide Run, DropsOnlyIn;
  }

  // ---- What a dropped future can do ----

  /** A run from the first opening that drops calls in the given phases only, and in which no
      call gets as far as its notification and nothing crashes. */
  ghost predicate Reaches(cfg: Config, phases: set<Phase>, steps: seq<Step>, s: Node) {
    && Run(cfg, Init(cfg), steps) == Some(s) && DropsOnlyIn(cfg, Init(cfg), steps, phases)
    && forall i :: 0 <= i < |steps| ==> !steps[i].Finish? && !steps[i].Crash?
  }

  lemma Then(cfg: Config, phases: set<Phase>, steps: seq<Step>, s: Node, step: Step)
    requires Reaches(cfg, phases, steps, s) && DropAllowed(s, step, phases) && Next(cfg, s, step).Some?
    requires !step.Finish? && !step.Crash?
    ensures Reaches(cfg, phases, steps + [step], Next(cfg, s, step).value)
  {
    hide Next, DropAllowed, Run, DropsOnlyIn;
    RunThen(cfg, Init(cfg), steps, s, step);
    DropsThen(cfg, Init(cfg), steps, s, step, phases);
  }

  lemma RunThen(cfg: Config, start: Node, steps: seq<Step>, s: Node, step: Step)
    requires Run(cfg, start, steps) == Some(s)
    ensures Run(cfg, start, steps + [step]) == Next(cfg, s, step)
  {
    hide Next;
    assert (steps + [step])[..|steps|] == steps;
  }

  lemma DropsThen(cfg: Config, start: Node, steps: seq<Step>, s: Node, step: Step, phases: set<Phase>)
    requires Run(cfg, start, steps) == Some(s) && DropsOnlyIn(cfg, start, steps, phases) && DropAllowed(s, step, phases)
    ensures DropsOnlyIn(cfg, start, steps + [step], phases)
  {
    hide Run, DropAllowed;
    assert (steps + [step])[..|steps|] == steps;
  }

  lemma ReachesStart(cfg: Config, phases: set<Phase>)
    ensures Reaches(cfg, phases, [], Init(cfg))
  {
  }

  /** A lone call for a good first block is accepted. */
  lemma DriveToCheck(cfg: Config, phases: set<Phase>, steps: seq<Step>, s: Node, p: nat, e: Entry)
    returns (steps': seq<Step>, t: Node)
    requires WellFormed(cfg) && Applicable(cfg, AsCoded, [], e)
    requires Reaches(cfg, phases, steps, s) && s.chain == [] && s.lock.None? && p !in s.appliers
    ensures Reaches(cfg, phases, steps', t)
    ensures p in t.appliers && t.appliers[p].Checked? && t.appliers[p].e == e
    ensures t == s.(appliers := s.appliers[p := t.appliers[p]], lock := Some(p), mem := t.mem)
  {
    hide Run, DropsOnlyIn, FromBlock, BatchStakes, Highest, CommitTx, Inv, VotesPass, NextState;
    var s1 := Put(s, p, Waiting(e));
    Then(cfg, phases, steps, s, Arrive(p, e));
    var s2 := Put(s1, p, Locked(e)).(lock := Some(p));
    Then(cfg, phases, steps + [Arrive(p, e)], s1, Acquire(p));
    var run2 := steps + [Arrive(p, e)] + [Acquire(p)];
    InvRun(cfg, run2);
    InvReadHeight(cfg, s2, p);
    var s3 := Put(s2, p, SawHeight(e, 0));
    Then(cfg, phases, run2, s2, ReadHeight(p));
    t := AfterCheck(cfg, s3, p);
    Then(cfg, phases, run2 + [ReadHeight(p)], s3, Check(p));
    steps' := run2 + [ReadHeight(p)] + [Check(p)];
    assert t.appliers == s.appliers[p := t.appliers[p]];
  }

  /** And gets as far as its SQL transaction. */
  lemma DriveToTx(cfg: Config, phases: set<Phase>, steps: seq<Step>, s: Node, p: nat, e: Entry)
    returns (steps': seq<Step>, t: Node)
    requires WellFormed(cfg) && Applicable(cfg, AsCoded, [], e)
    requires Reaches(cfg, phases, steps, s) && s.chain == [] && s.lock.None? && p !in s.appliers
    ensures Reaches(cfg, phases, steps', t)
    ensures p in t.appliers && t.appliers[p].InTx? && t.appliers[p].e == e
    ensures t == s.(appliers := s.appliers[p := t.appliers[p]], lock := Some(p), mem := t.mem, disk := t.disk)
  {
    hide Reaches, Applicable, WellFormed;
    var run, s1 := DriveToCheck(cfg, phases, steps, s, p, e);
    var next := s1.appliers[p].next;
    var s2 := Put(s1, p, Flushed(e, next)).(disk := s1.mem);
    Then(cfg, phases, run, s1, Flush(p));
    Then(cfg, phases, run + [Flush(p)], s2, Begin(p));
    t := Put(s2, p, InTx(e, next));
    steps' := run + [Flush(p)] + [Begin(p)];
    assert t.appliers == s.appliers[p := t.appliers[p]];
  }

  lemma FirstCommit(cfg: Config, s: Node, p: nat, e: Entry)
    requires Inv(cfg, s) && s.chain == [] && Applicable(cfg, AsCoded, [], e)
    requires p in s.appliers && s.appliers[p].InTx? && s.appliers[p].e == e
    ensures var t := AfterCommit(s, p);
            && t.appliers == s.appliers[p := Committed(e)] && t.waiters == s.waiters && t.orphans == s.orphans
            && t.chain == [e] && 1 in t.db.history
  {
    hide Applicable, CommitTx, Inv;
    assert Blocks([]) == [] && [] + [e] == [e];
    InvCommit(cfg, s, p);
    StoredFirst(cfg, AfterCommit(s, p));
  }

  lemma FirstOrphanCommit(cfg: Config, s: Node, e: Entry)
    requires Inv(cfg, s) && s.chain == [] && Applicable(cfg, AsCoded, [], e) && s.orphans == [e]
    ensures var t := AfterOrphan(s, 0);
            && t.appliers == s.appliers && t.waiters == s.waiters && t.orphans == []
            && t.chain == [e] && 1 in t.db.history
  {
    hide Applicable, CommitTx, Inv;
    assert Blocks([]) == [] && [] + [e] == [e];
    InvOrphan(cfg, s, 0);
    StoredFirst(cfg, AfterOrphan(s, 0));
  }

  lemma StoredFirst(cfg: Config, s: Node)
    requires Inv(cfg, s) && |s.chain| == 1
    ensures 1 in s.db.history
  {
    ReadsAgree(cfg, s.chain, s.db, s.disk, map[], 1);
  }

  /** A waiter finds height 1 missing and goes to sleep. */
  lemma SleepOnFirst(cfg: Config, phases: set<Phase>) returns (steps: seq<Step>, s: Node)
    ensures Reaches(cfg, phases, steps, s) && s == PutW(Init(cfg), 0, Asleep(1, false))
  {
    hide Run, DropsOnlyIn;
    ReachesStart(cfg, phases);
    var s1 := PutW(Init(cfg), 0, Listening(1, false));
    Then(cfg, phases, [], Init(cfg), Listen(0, 1));
    Then(cfg, phases, [] + [Listen(0, 1)], s1, Look(0));
    steps := [] + [Listen(0, 1)] + [Look(0)];
    s := PutW(s1, 0, Asleep(1, false));
    assert s1.waiters == map[0 := Listening(1, false)];
    assert s.waiters == map[0 := Asleep(1, false)];
  }

  /** A call dropped between its commit and its notification strands a waiter: the height is
      stored, the waiter is asleep and not notified, and nobody is left to notify it. */
  lemma CancelLosesWakeup(cfg: Config, e: Entry) returns (steps: seq<Step>, s: Node)
    requires WellFormed(cfg) && Applicable(cfg, AsCoded, [], e)
    ensures Reaches(cfg, {BeforeNotify}, steps, s)
    ensures s.waiters == map[0 := Asleep(1, false)] && 1 in s.db.history
    ensures s.appliers == map[] && s.orphans == [] && s.chain == [e]
  {
    var C := {BeforeNotify};
    var run1, s1 := SleepOnFirst(cfg, C);
    hide Run, DropsOnlyIn, FromBlock, BatchStakes, Highest, Inv, Applicable, AfterCommit;
    var run2, s2 := DriveToTx(cfg, C, run1, s1, 0, e);
    InvRun(cfg, run2);
    FirstCommit(cfg, s2, 0, e);
    var s3 := AfterCommit(s2, 0);
    Then(cfg, C, run2, s2, Commit(0));
    s := AfterCancel(s3, 0);
    assert s3.appliers == map[0 := Committed(e)];
    Then(cfg, C, run2 + [Commit(0)], s3, Cancel(0));
    steps := run2 + [Commit(0)] + [Cancel(0)];
  }

  /** So does a call dropped while its transaction runs: the transaction commits later, and
      nobody announces it. */
  lemma OrphanLosesWakeup(cfg: Config, e: Entry) returns (steps: seq<Step>, s: Node)
    requires WellFormed(cfg) && Applicable(cfg, AsCoded, [], e)
    ensures Reaches(cfg, {InSql}, steps, s)
    ensures s.waiters == map[0 := Asleep(1, false)] && 1 in s.db.history
    ensures s.appliers == map[] && s.orphans == [] && s.chain == [e]
  {
    var C := {InSql};
    var run1, s1 := SleepOnFirst(cfg, C);
    hide Run, DropsOnlyIn, FromBlock, BatchStakes, Highest, Inv, Applicable, AfterOrphan;
    var run2, s2 := DriveToTx(cfg, C, run1, s1, 0, e);
    var s3 := AfterCancel(s2, 0);
    Then(cfg, C, run2, s2, Cancel(0));
    var run3 := run2 + [Cancel(0)];
    InvRun(cfg, run3);
    FirstOrphanCommit(cfg, s3, e);
    Then(cfg, C, run3, s3, OrphanCommit(0));
    s := AfterOrphan(s3, 0);
    steps := run3 + [OrphanCommit(0)];
  }

  /** A call dropped while its transaction runs lets a second call reach its own insert of the
      same height: the second insert meets the taken key and the call fails, although its very
      entry is in the chain. */
  lemma CancelCausesConflict(cfg: Config, e: Entry) returns (steps: seq<Step>, s: Node, t: Node)
    requires WellFormed(cfg) && Applicable(cfg, AsCoded, [], e)
    ensures Reaches(cfg, {InSql}, steps, s)
    ensures 1 in s.appliers && s.appliers[1].InTx? && s.appliers[1].e == e && e.block.header.height in s.db.history
    ensures Next(cfg, s, Commit(1)) == Some(t) && t.appliers[1] == Returned(false) && t.chain == [e]
  {
    var C := {InSql};
    ReachesStart(cfg, C);
    hide Run, DropsOnlyIn, FromBlock, BatchStakes, Highest, Inv, VotesPass, NextState, InsertStakes;
    var run, s1 := DriveToTx(cfg, C, [], Init(cfg), 0, e);
    var s2 := AfterCancel(s1, 0);
    Then(cfg, C, run, s1, Cancel(0));
    var run2, s3 := DriveToTx(cfg, C, run + [Cancel(0)], s2, 1, e);
    InvRun(cfg, run2);
    InvOrphan(cfg, s3, 0);
    s := AfterOrphan(s3, 0);
    Then(cfg, C, run2, s3, OrphanCommit(0));
    steps := run2 + [OrphanCommit(0)];
    t := AfterCommit(s, 1);
  }

  // ---- Exactly which drops do harm ----

  ghost predicate ConflictFree(cfg: Config, phases: set<Phase>) {
    forall steps :: DropsOnlyIn(cfg, Init(cfg), steps, phases) && Run(cfg, Init(cfg), steps).Some? ==>
      NoConflict(Run(cfg, Init(cfg), steps).value)
  }

  ghost predicate WakeupSafe(cfg: Config, phases: set<Phase>) {
    forall steps :: DropsOnlyIn(cfg, Init(cfg), steps, phases) && Run(cfg, Init(cfg), steps).Some? ==>
      NoneStranded(Run(cfg, Init(cfg), steps).value)
  }

  lemma {:induction false} MorePhases(cfg: Config, start: Node, steps: seq<Step>, fewer: set<Phase>, phases: set<Phase>)
    requires DropsOnlyIn(cfg, start, steps, fewer) && fewer <= phases
    ensures DropsOnlyIn(cfg, start, steps, phases)
  {
    hide Run;
    if |steps| > 0 {
      MorePhases(cfg, start, steps[..|steps| - 1], fewer, phases);
    }
  }

  /** Where some first block can be applied, the inserts are safe from conflicts exactly if no
      call is dropped while its transaction runs. */
  lemma ConflictFreeIff(cfg: Config, phases: set<Phase>, e: Entry)
    requires WellFormed(cfg) && Applicable(cfg, AsCoded, [], e)
    ensures ConflictFree(cfg, phases) <==> InSql !in phases
  {
    hide Run, DropsOnlyIn, NoConflict, Applicable, Next;
    if InSql !in phases {
      forall steps | DropsOnlyIn(cfg, Init(cfg), steps, phases) && Run(cfg, Init(cfg), steps).Some?
        ensures NoConflict(Run(cfg, Init(cfg), steps).value)
      {
        InsertsNeverConflict(cfg, steps, phases, Run(cfg, Init(cfg), steps).value);
      }
    } else {
      var steps, s, t := CancelCausesConflict(cfg, e);
      MorePhases(cfg, Init(cfg), steps, {InSql}, phases);
      Conflicts(s, 1);
    }
  }

  lemma Conflicts(s: Node, p: nat)
    requires p in s.appliers && s.appliers[p].InTx? && s.appliers[p].e.block.header.height in s.db.history
    ensures !NoConflict(s)
  {
  }

  /** And wakeups are safe exactly if no call is dropped while its transaction runs or after it. */
  lemma WakeupSafeIff(cfg: Config, phases: set<Phase>, e: Entry)
    requires WellFormed(cfg) && Applicable(cfg, AsCoded, [], e)
    ensures WakeupSafe(cfg, phases) <==> InSql !in phases && BeforeNotify !in phases
  {
    hide Run, DropsOnlyIn, NoneStranded, Applicable;
    if InSql in phases {
      var steps, s := OrphanLosesWakeup(cfg, e);
      MorePhases(cfg, Init(cfg), steps, {InSql}, phases);
      Stranded(s);
    } else if BeforeNotify in phases {
      var steps, s := CancelLosesWakeup(cfg, e);
      MorePhases(cfg, Init(cfg), steps, {BeforeNotify}, phases);
      Stranded(s);
    } else {
      forall steps | DropsOnlyIn(cfg, Init(cfg), steps, phases) && Run(cfg, Init(cfg), steps).Some?
        ensures NoneStranded(Run(cfg, Init(cfg), steps).value)
      {
        NoLostWakeup(cfg, steps, phases, Run(cfg, Init(cfg), steps).value);
      }
    }
  }

  lemma Stranded(s: Node)
    requires s.waiters == map[0 := Asleep(1, false)] && 1 in s.db.history && s.appliers == map[]
    ensures !NoneStranded(s)
  {
    assert 0 in s.waiters && s.waiters[0] == Asleep(1, false);
  }
}
