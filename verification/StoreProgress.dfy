/** From every reachable node, calls and waiters can get on. */
module StoreProgress {
  import opened Structs
  import opened Quorum
  import opened Stakes
  import opened Ledger
  import opened Storage
  import opened StoreMachine
  import opened StoreInvariant
  import opened StoreDrops
  import opened StoreCalls

  ghost predicate Reachable(cfg: Config, s: Node) {
    WellFormed(cfg) && exists steps :: Run(cfg, Init(cfg), steps) == Some(s)
  }

  lemma ReachableInv(cfg: Config, s: Node)
    requires Reachable(cfg, s)
    ensures Inv(cfg, s)
  {
    hide Inv, Run;
    var steps :| Run(cfg, Init(cfg), steps) == Some(s);
    InvRun(cfg, steps);
  }

  lemma OneStep(cfg: Config, s: Node, step: Step)
    ensures Run(cfg, s, [step]) == Next(cfg, s, step)
  {
    hide Next;
    assert [step][..0] == [];
  }

  /** A step and then a run. */
  lemma {:induction false} StepThenRun(cfg: Config, s: Node, step: Step, t: Node, steps: seq<Step>)
    requires Next(cfg, s, step) == Some(t)
    ensures Run(cfg, s, [step] + steps) == Run(cfg, t, steps)
  {
    hide Next;
    var all := [step] + steps;
    if |steps| == 0 {
      assert all == [step];
      OneStep(cfg, s, step);
    } else {
      assert all[..|all| - 1] == [step] + steps[..|steps| - 1];
      StepThenRun(cfg, s, step, t, steps[..|steps| - 1]);
    }
  }

  // ---- Waiters ----

  ghost predicate Answered(cfg: Config, s: Node, t: Node, w: nat, h: nat) {
    && 1 <= h <= |s.chain| && StateAt(cfg, Blocks(s.chain)[..h]).Some?
    && t == s.(waiters := s.waiters[w := Got(h, StateAt(cfg, Blocks(s.chain)[..h]).value)])
  }

  /** A waiter that finds its height stored gets the replayed state. */
  lemma BlockIsRead(cfg: Config, s: Node, w: nat) returns (t: Node)
    requires Inv(cfg, s) && w in s.waiters && s.waiters[w].Reading?
    ensures Next(cfg, s, FinishRead(w)) == Some(t) && Answered(cfg, s, t, w, s.waiters[w].height)
  {
    hide FromBlock, BatchStakes, StateAt, Durable, ApplierOk, OrphanOk;
    var h := s.waiters[w].height;
    assert WaiterOk(cfg, s, s.waiters[w]);
    ReadIsReplay(cfg, s, h, s.waiters[w].block);
    hide WaiterOk;
    t := PutW(s, w, Got(h, StateAt(cfg, Blocks(s.chain)[..h]).value));
  }

  /** Looking finds every height of the chain and no other. */
  lemma LookFinds(cfg: Config, s: Node, w: nat) returns (t: Node)
    requires Inv(cfg, s) && w in s.waiters && s.waiters[w].Listening?
    ensures Next(cfg, s, Look(w)) == Some(t)
    ensures var Listening(h, notified) := s.waiters[w];
            t == PutW(s, w, if 1 <= h <= |s.chain| then Reading(h, s.chain[h - 1].block) else Asleep(h, notified))
  {
    hide StoreInv, ApplierOk, WaiterOk, OrphanOk;
    ReadsAgree(cfg, s.chain, s.db, s.disk, map[], s.waiters[w].height);
    t := Next(cfg, s, Look(w)).value;
  }

  /** What get_state_or_wait leads to once it listens: the replayed state for a stored height, sleep
      for another. */
  ghost predicate WaitEnds(cfg: Config, s: Node, first: Step, w: nat, h: nat, t: Node) {
    if 1 <= h <= |s.chain| then
      Run(cfg, s, [first, Look(w), FinishRead(w)]) == Some(t) && Answered(cfg, s, t, w, h)
    else
      Run(cfg, s, [first, Look(w)]) == Some(t) && t == PutW(s, w, Asleep(h, false))
  }

  lemma ListenerGetsOn(cfg: Config, s: Node, first: Step, s1: Node, w: nat, h: nat) returns (t: Node)
    requires Next(cfg, s, first) == Some(s1) && Inv(cfg, s1) && s1 == PutW(s, w, Listening(h, false))
    ensures WaitEnds(cfg, s, first, w, h, t)
  {
    hide Inv, Next, StateAt, Run, Answered;
    var s2 := LookFinds(cfg, s1, w);
    NextInv(cfg, s1, Look(w));
    if 1 <= h <= |s.chain| {
      t := BlockIsRead(cfg, s2, w);
      ThreeSteps(cfg, s, first, s1, Look(w), s2, FinishRead(w), t);
      AnsweredLater(cfg, s, s2, t, w, h);
    } else {
      t := s2;
      TwoSteps(cfg, s, first, s1, Look(w), s2);
      assert s.waiters[w := Listening(h, false)][w := Asleep(h, false)] == s.waiters[w := Asleep(h, false)];
    }
  }

  /** A notified sleeper on a stored height wakes, looks again and returns the replayed state, in
      three steps of its own; on a missing height it goes back to sleep. */
  lemma NotifiedSleeperGetsOn(cfg: Config, s: Node, w: nat) returns (t: Node)
    requires Reachable(cfg, s) && w in s.waiters && s.waiters[w].Asleep? && s.waiters[w].notified
    ensures WaitEnds(cfg, s, Wake(w), w, s.waiters[w].height, t)
  {
    hide Inv, Reachable, Next, WaitEnds;
    ReachableInv(cfg, s);
    var s1 := Wakes(cfg, s, w);
    t := ListenerGetsOn(cfg, s, Wake(w), s1, w, s.waiters[w].height);
  }

  /** Anyone can ask for any height at any time: a stored one is answered at once, for another the
      call goes to sleep. */
  lemma NewWaiterGetsOn(cfg: Config, s: Node, w: nat, h: nat) returns (t: Node)
    requires Reachable(cfg, s) && (w in s.waiters ==> s.waiters[w].Got?)
    ensures WaitEnds(cfg, s, Listen(w, h), w, h, t)
  {
    hide Inv, Reachable, Next, WaitEnds;
    ReachableInv(cfg, s);
    var s1 := Listens(cfg, s, w, h);
    t := ListenerGetsOn(cfg, s, Listen(w, h), s1, w, h);
  }

  lemma Listens(cfg: Config, s: Node, w: nat, h: nat) returns (t: Node)
    requires Inv(cfg, s) && (w in s.waiters ==> s.waiters[w].Got?)
    ensures Next(cfg, s, Listen(w, h)) == Some(t) && Inv(cfg, t) && t == PutW(s, w, Listening(h, false))
  {
    hide Inv;
    InvListen(cfg, s, w, h);
    t := PutW(s, w, Listening(h, false));
  }

  lemma Wakes(cfg: Config, s: Node, w: nat) returns (t: Node)
    requires Inv(cfg, s) && w in s.waiters && s.waiters[w].Asleep? && s.waiters[w].notified
    ensures Next(cfg, s, Wake(w)) == Some(t) && Inv(cfg, t)
    ensures t == PutW(s, w, Listening(s.waiters[w].height, false))
  {
    hide Inv;
    InvListen(cfg, s, w, s.waiters[w].height);
    t := PutW(s, w, Listening(s.waiters[w].height, false));
  }

  lemma AnsweredLater(cfg: Config, s: Node, s2: Node, t: Node, w: nat, h: nat)
    requires w in s2.waiters && s2 == s.(waiters := s2.waiters) && Answered(cfg, s2, t, w, h)
    requires forall x :: x in s.waiters[w := s2.waiters[w]] <==> x in s2.waiters
    requires forall x :: x in s.waiters && x != w ==> s2.waiters[x] == s.waiters[x]
    ensures Answered(cfg, s, t, w, h)
  {
    hide StateAt;
    assert t.waiters == s.waiters[w := t.waiters[w]];
  }

  lemma TwoSteps(cfg: Config, s: Node, a: Step, s1: Node, b: Step, s2: Node)
    requires Next(cfg, s, a) == Some(s1) && Next(cfg, s1, b) == Some(s2)
    ensures Run(cfg, s, [a, b]) == Some(s2)
  {
    hide Next;
    OneStep(cfg, s1, b);
    StepThenRun(cfg, s, a, s1, [b]);
    assert [a] + [b] == [a, b];
  }

  lemma ThreeSteps(cfg: Config, s: Node, a: Step, s1: Node, b: Step, s2: Node, c: Step, s3: Node)
    requires Next(cfg, s, a) == Some(s1) && Next(cfg, s1, b) == Some(s2) && Next(cfg, s2, c) == Some(s3)
    ensures Run(cfg, s, [a, b, c]) == Some(s3)
  {
    hide Next;
    TwoSteps(cfg, s1, b, s2, c, s3);
    StepThenRun(cfg, s, a, s1, [b, c]);
    assert [a] + [b, c] == [a, b, c];
  }

  lemma NextInv(cfg: Config, s: Node, step: Step)
    requires Inv(cfg, s) && Next(cfg, s, step).Some?
    ensures Inv(cfg, Next(cfg, s, step).value)
  {
    InvStep(cfg, s, step);
    hide *;
  }

  // ---- Calls ----

  /** How many steps a call is away from its end. */
  function StepsLeft(a: Applier): nat {
    match a
    case Waiting(_) => 7
    case Locked(_) => 6
    case SawHeight(_, _) => 5
    case Checked(_, _) => 4
    case Flushed(_, _) => 3
    case InTx(_, _) => 2
    case Committed(_) => 1
    case Returned(_) => 0
    case ApplierPanic => 0
  }

  function NextStep(a: Applier, p: nat): Step {
    match a
    case Waiting(_) => Acquire(p)
    case Locked(_) => ReadHeight(p)
    case SawHeight(_, _) => Check(p)
    case Checked(_, _) => Flush(p)
    case Flushed(_, _) => Begin(p)
    case InTx(_, _) => Commit(p)
    case _ => Finish(p)
  }

  /** The call of `p` with entry `e` on its way, nothing else having moved since `start`. */
  ghost predicate Solo(cfg: Config, start: Node, e: Entry, s: Node, p: nat) {
    && p in s.appliers && (s.appliers[p].Returned? || s.waiters == start.waiters)
    && match s.appliers[p]
       case Waiting(e') => e' == e && s.chain == start.chain && s.lock.None?
       case Locked(e') => e' == e && s.chain == start.chain
       case SawHeight(e', h) => e' == e && s.chain == start.chain && h == |start.chain|
       case Checked(e', _) => e' == e && s.chain == start.chain && Acceptable(cfg, AsCoded, Blocks(start.chain), e)
       case Flushed(e', _) => e' == e && s.chain == start.chain && Acceptable(cfg, AsCoded, Blocks(start.chain), e)
       case InTx(e', _) => e' == e && s.chain == start.chain && Acceptable(cfg, AsCoded, Blocks(start.chain), e)
       case Committed(e') => e' == e && s.chain == start.chain + [e] && Applicable(cfg, AsCoded, Blocks(start.chain), e)
       case Returned(ok) => Outcome(cfg, start, e, s, ok)
       case ApplierPanic => false
  }

  /** The call has returned what apply_block gives for its entry on the chain of `start`, and has
      done just that; if it succeeded, every sleeper has been notified. */
  ghost predicate Outcome(cfg: Config, start: Node, e: Entry, s: Node, ok: bool) {
    && s.lock.None?
    && (ok <==> Applicable(cfg, AsCoded, Blocks(start.chain), e))
    && s.chain == (if ok then start.chain + [e] else start.chain)
    && s.waiters.Keys == start.waiters.Keys
    && forall w :: w in start.waiters ==>
         s.waiters[w] == if ok && start.waiters[w].Asleep? then Asleep(start.waiters[w].height, true)
                         else if ok && start.waiters[w].Listening? then Listening(start.waiters[w].height, true)
                         else start.waiters[w]
  }

  /** The lock holder is never stuck: its next step is enabled and brings it nearer to its end,
      and leaves every other call where it is. */
  lemma HolderMoves(cfg: Config, s: Node, p: nat)
    requires Inv(cfg, s) && p in s.appliers && Holds(s.appliers[p])
    ensures var n := Next(cfg, s, NextStep(s.appliers[p], p));
            && n.Some? && p in n.value.appliers
            && StepsLeft(n.value.appliers[p]) < StepsLeft(s.appliers[p])
            && n.value.appliers == s.appliers[p := n.value.appliers[p]]
            && (Holds(n.value.appliers[p]) || (n.value.appliers[p].Returned? && n.value.lock.None?))
  {
    hide Inv, AfterCheck, AfterCommit, CommitTx, Highest, NotifyAll;
    if s.appliers[p].SawHeight? {
      CheckMovesOne(cfg, s, p);
      CheckEnds(cfg, s, p);
    } else if s.appliers[p].InTx? {
      CommitMovesOne(s, p);
    }
  }

  lemma CheckEnds(cfg: Config, s: Node, p: nat)
    requires Inv(cfg, s) && p in s.appliers && s.appliers[p].SawHeight?
    ensures var t := AfterCheck(cfg, s, p);
            t.appliers[p].Checked? || (t.appliers[p] == StoreMachine.Returned(false) && t.lock.None?)
  {
    InvApplier(cfg, s, p);
    hide StoreInv, WaiterOk, OrphanOk, NextState, VotesPass, ApplierOk, StateFromDb;
    InvCheck(cfg, s, p);
    CheckOutcome(cfg, s, p);
    TopFromDb(cfg, s, s.appliers[p].height);
  }

  lemma {:induction false} HolderFinishes(cfg: Config, s: Node, p: nat) returns (steps: seq<Step>, t: Node)
    requires Inv(cfg, s) && p in s.appliers && Holds(s.appliers[p])
    ensures Run(cfg, s, steps) == Some(t) && |steps| <= StepsLeft(s.appliers[p])
    ensures p in t.appliers && t.appliers[p].Returned? && t.lock.None?
    ensures t.appliers == s.appliers[p := t.appliers[p]]
    decreases StepsLeft(s.appliers[p])
  {
    hide Inv, Next, Run;
    HolderMoves(cfg, s, p);
    var step := NextStep(s.appliers[p], p);
    var s1 := Next(cfg, s, step).value;
    NextInv(cfg, s, step);
    if Holds(s1.appliers[p]) {
      var rest: seq<Step>;
      rest, t := HolderFinishes(cfg, s1, p);
      StepThenRun(cfg, s, step, s1, rest);
      steps := [step] + rest;
    } else {
      OneStep(cfg, s, step);
      steps, t := [step], s1;
    }
  }

  // ---- A call alone ----

  lemma SoloMoves(cfg: Config, start: Node, e: Entry, s: Node, p: nat)
    requires Inv(cfg, s) && Solo(cfg, start, e, s, p) && !s.appliers[p].Returned?
    ensures var n := Next(cfg, s, NextStep(s.appliers[p], p));
            && n.Some? && Solo(cfg, start, e, n.value, p)
            && StepsLeft(n.value.appliers[p]) < StepsLeft(s.appliers[p])
  {
    hide Durable, ApplierOk, WaiterOk, OrphanOk, AfterCheck, AfterCommit, Acceptable, Applicable;
    match s.appliers[p] {
      case Locked(_) => hide Highest; InvReadHeight(cfg, s, p);
      case SawHeight(_, _) => SoloCheck(cfg, start, e, s, p);
      case InTx(_, _) => SoloCommit(cfg, start, e, s, p);
      case Committed(_) => SoloFinish(cfg, start, e, s, p);
      case _ =>
    }
  }

  lemma SoloCheck(cfg: Config, start: Node, e: Entry, s: Node, p: nat)
    requires Inv(cfg, s) && Solo(cfg, start, e, s, p) && s.appliers[p].SawHeight?
    ensures var t := AfterCheck(cfg, s, p);
            && Solo(cfg, start, e, t, p) && (t.appliers[p].Checked? || t.appliers[p].Returned?)
  {
    hide Inv, AfterCheck, Acceptable, Applicable, Outcome;
    CheckMovesOne(cfg, s, p);
    CheckEnds(cfg, s, p);
    CheckWaiters(cfg, s, p);
    CheckDecides(cfg, s, p);
    assert Blocks(start.chain)[..|start.chain|] == Blocks(start.chain);
    if AfterCheck(cfg, s, p).appliers[p].Checked? {
      CheckKeeps(cfg, s, p);
    } else {
      NotApplicable(cfg, Blocks(start.chain), e);
      SoloRefused(cfg, start, e, AfterCheck(cfg, s, p), p);
    }
  }

  lemma NotApplicable(cfg: Config, blocks: seq<Block>, e: Entry)
    ensures Applicable(cfg, AsCoded, blocks, e) ==> Acceptable(cfg, AsCoded, blocks, e)
  {
    hide Acceptable;
  }

  lemma CheckDecides(cfg: Config, s: Node, p: nat)
    requires Inv(cfg, s) && p in s.appliers && s.appliers[p].SawHeight?
    ensures s.appliers[p].height <= |s.chain|
    ensures AfterCheck(cfg, s, p).appliers[p].Checked? <==>
              Acceptable(cfg, AsCoded, Blocks(s.chain)[..s.appliers[p].height], s.appliers[p].e)
  {
    hide AfterCheck, Acceptable, StoreInv, WaiterOk, OrphanOk;
    InvApplier(cfg, s, p);
    InvCheck(cfg, s, p);
  }

  lemma CheckWaiters(cfg: Config, s: Node, p: nat)
    requires p in s.appliers && s.appliers[p].SawHeight?
    ensures AfterCheck(cfg, s, p).waiters == s.waiters
  {
    hide StateFromDb, NextState, VotesPass;
  }

  lemma CheckKeeps(cfg: Config, s: Node, p: nat)
    requires p in s.appliers && s.appliers[p].SawHeight? && AfterCheck(cfg, s, p).appliers[p].Checked?
    ensures AfterCheck(cfg, s, p).appliers[p].e == s.appliers[p].e
  {
    hide StateFromDb, NextState, VotesPass;
  }

  lemma SoloCommit(cfg: Config, start: Node, e: Entry, s: Node, p: nat)
    requires Inv(cfg, s) && Solo(cfg, start, e, s, p) && s.appliers[p].InTx?
    ensures var t := AfterCommit(s, p);
            && Solo(cfg, start, e, t, p) && (t.appliers[p].Committed? || t.appliers[p].Returned?)
  {
    hide Inv, AfterCommit, CommitTx, Acceptable, Applicable, Outcome;
    CommitWaiters(s, p);
    CommitMovesOne(s, p);
    CommitDecides(cfg, s, p);
    var t := AfterCommit(s, p);
    if t.appliers[p].Returned? {
      SoloRefused(cfg, start, e, t, p);
    }
  }

  lemma CommitDecides(cfg: Config, s: Node, p: nat)
    requires Inv(cfg, s) && p in s.appliers && s.appliers[p].InTx?
    ensures CommitTx(s.db, s.appliers[p].e).Some? <==> Applicable(cfg, AsCoded, Blocks(s.chain), s.appliers[p].e)
  {
    hide Inv, AfterCommit, CommitTx, Applicable;
    InvCommit(cfg, s, p);
  }

  lemma SoloRefused(cfg: Config, start: Node, e: Entry, t: Node, p: nat)
    requires p in t.appliers && t.appliers[p] == StoreMachine.Returned(false) && t.lock.None?
    requires t.chain == start.chain && t.waiters == start.waiters && !Applicable(cfg, AsCoded, Blocks(start.chain), e)
    ensures Solo(cfg, start, e, t, p)
  {
    hide Applicable;
  }

  lemma CommitWaiters(s: Node, p: nat)
    requires p in s.appliers && s.appliers[p].InTx?
    ensures AfterCommit(s, p).waiters == s.waiters
  {
    hide CommitTx;
  }

  lemma SoloFinish(cfg: Config, start: Node, e: Entry, s: Node, p: nat)
    requires Solo(cfg, start, e, s, p) && s.appliers[p].Committed?
    ensures var t := Put(s, p, StoreMachine.Returned(true)).(lock := None, waiters := NotifyAll(s.waiters));
            Solo(cfg, start, e, t, p)
  {
    hide Applicable;
  }

  lemma {:induction false} SoloRuns(cfg: Config, start: Node, e: Entry, s: Node, p: nat)
    returns (steps: seq<Step>, t: Node)
    requires Inv(cfg, s) && Solo(cfg, start, e, s, p)
    ensures Run(cfg, s, steps) == Some(t) && |steps| <= StepsLeft(s.appliers[p])
    ensures p in t.appliers && t.appliers[p].Returned? && Outcome(cfg, start, e, t, t.appliers[p].ok)
    decreases StepsLeft(s.appliers[p])
  {
    hide Inv, Next, Run, Outcome, Acceptable, Applicable;
    if s.appliers[p].Returned? {
      steps, t := [], s;
      NoSteps(cfg, s);
    } else {
      SoloMoves(cfg, start, e, s, p);
      var step := NextStep(s.appliers[p], p);
      var s1 := Next(cfg, s, step).value;
      NextInv(cfg, s, step);
      hide Solo;
      var rest: seq<Step>;
      rest, t := SoloRuns(cfg, start, e, s1, p);
      StepThenRun(cfg, s, step, s1, rest);
      steps := [step] + rest;
    }
  }

  lemma NoSteps(cfg: Config, s: Node)
    ensures Run(cfg, s, []) == Some(s)
  {
  }

  /** From every reachable node whose writer lock is free, a new call can run to its end without
      anyone else moving: it succeeds exactly if its entry is applicable to the chain, which then
      grows by it, and by then every sleeper has been notified. */
  lemma CallAlone(cfg: Config, s: Node, p: nat, e: Entry) returns (steps: seq<Step>, t: Node)
    requires Reachable(cfg, s) && s.lock.None? && (p in s.appliers ==> s.appliers[p].Returned?)
    ensures Run(cfg, s, steps) == Some(t) && |steps| <= 8
    ensures p in t.appliers && t.appliers[p].Returned? && Outcome(cfg, s, e, t, t.appliers[p].ok)
  {
    ReachableInv(cfg, s);
    hide Inv, Run, Reachable, Outcome, Acceptable, Applicable;
    var s1 := Put(s, p, Waiting(e));
    assert Next(cfg, s, Arrive(p, e)) == Some(s1);
    NextInv(cfg, s, Arrive(p, e));
    hide Next;
    var rest: seq<Step>;
    rest, t := SoloRuns(cfg, s, e, s1, p);
    StepThenRun(cfg, s, Arrive(p, e), s1, rest);
    steps := [Arrive(p, e)] + rest;
  }

  lemma {:induction false} RunOn(cfg: Config, s: Node, first: seq<Step>, t: Node, then_: seq<Step>)
    requires Run(cfg, s, first) == Some(t)
    ensures Run(cfg, s, first + then_) == Run(cfg, t, then_)
  {
    hide Next;
    var all := first + then_;
    if |then_| == 0 {
      assert all == first;
    } else {
      assert all[..|all| - 1] == first + then_[..|then_| - 1];
      RunOn(cfg, s, first, t, then_[..|then_| - 1]);
    }
  }

  lemma StillReachable(cfg: Config, s: Node, steps: seq<Step>, t: Node)
    requires Reachable(cfg, s) && Run(cfg, s, steps) == Some(t)
    ensures Reachable(cfg, t)
  {
    hide Run;
    var first :| Run(cfg, Init(cfg), first) == Some(s);
    RunOn(cfg, Init(cfg), first, s, steps);
  }

  /** get_state_or_wait answers: a sleeper waiting for the next height gets its state in a few
      steps of its own after any call that brings the block. */
  lemma SleeperIsAnswered(cfg: Config, s: Node, p: nat, e: Entry, w: nat) returns (steps: seq<Step>, t: Node)
    requires Reachable(cfg, s) && s.lock.None? && (p in s.appliers ==> s.appliers[p].Returned?)
    requires Applicable(cfg, AsCoded, Blocks(s.chain), e)
    requires w in s.waiters && s.waiters[w].Asleep? && s.waiters[w].height == |s.chain| + 1
    ensures Run(cfg, s, steps) == Some(t) && |steps| <= 11
    ensures t.chain == s.chain + [e] && w in t.waiters && t.waiters[w].Got?
    ensures t.waiters[w].height == |t.chain| && StateAt(cfg, Blocks(t.chain)) == Some(t.waiters[w].state)
  {
    hide Reachable, Run, Applicable, StateAt, Blocks;
    var first, s1 := CallAlone(cfg, s, p, e);
    StillReachable(cfg, s, first, s1);
    t := NotifiedSleeperGetsOn(cfg, s1, w);
    assert |s1.chain| == |s.chain| + 1;
    var last := [Wake(w), Look(w), FinishRead(w)];
    RunOn(cfg, s, first, s1, last);
    steps := first + last;
    AllBlocks(s1.chain);
  }

  lemma AllBlocks(chain: seq<Entry>)
    ensures Blocks(chain)[..|chain|] == Blocks(chain)
  {
  }

  /** A call can be dropped at any point before it ends, which frees the writer lock if it has it. */
  lemma EveryCallCanBeDropped(cfg: Config, s: Node, p: nat)
    requires Reachable(cfg, s) && p in s.appliers && !s.appliers[p].Returned?
    ensures var n := Next(cfg, s, Cancel(p));
            && n.Some? && n.value.appliers == s.appliers - {p} && n.value.chain == s.chain
            && n.value.lock == if s.lock == Some(p) then None else s.lock
  {
    ReachableInv(cfg, s);
    hide Durable, ApplierOk, WaiterOk, OrphanOk;
  }

  /** A transaction whose call was dropped can end at any time, whoever holds the lock and in any
      order: it commits exactly if its entry is applicable then. */
  lemma EveryOrphanCanEnd(cfg: Config, s: Node, i: nat)
    requires Reachable(cfg, s) && i < |s.orphans|
    ensures var n := Next(cfg, s, OrphanCommit(i));
            && n.Some? && n.value.appliers == s.appliers && n.value.lock == s.lock
            && n.value.orphans == s.orphans[..i] + s.orphans[i + 1..]
            && n.value.chain == if Applicable(cfg, AsCoded, Blocks(s.chain), s.orphans[i]) then s.chain + [s.orphans[i]]
                                else s.chain
  {
    hide Inv, AfterOrphan, CommitTx, Applicable, Reachable;
    ReachableInv(cfg, s);
    InvOrphan(cfg, s, i);
    OrphanEnds(s, i);
  }

  lemma OrphanEnds(s: Node, i: nat)
    requires i < |s.orphans|
    ensures var t := AfterOrphan(s, i);
            && t.appliers == s.appliers && t.lock == s.lock && t.orphans == s.orphans[..i] + s.orphans[i + 1..]
            && t.chain == if CommitTx(s.db, s.orphans[i]).Some? then s.chain + [s.orphans[i]] else s.chain
  {
    hide CommitTx;
  }

  /** A crash can lose any number of the newest commits and any unflushed nodes. */
  lemma EveryCrashIsPossible(cfg: Config, s: Node, keep: nat, kept: Forest)
    requires Reachable(cfg, s) && keep <= |s.chain| && Within(s.disk, kept) && Within(kept, s.mem)
    ensures var n := Next(cfg, s, Crash(keep, kept));
            && n.Some? && JustOpened(cfg, n.value)
            && n.value.chain == s.chain[..keep] && n.value.mem == kept && n.value.disk == kept
  {
    ReachableInv(cfg, s);
    hide Inv, DbOf, TableAt, Within, Reachable;
    InvCrash(cfg, s, keep, kept);
    CrashNode(cfg, s, keep, kept);
  }

  lemma CrashNode(cfg: Config, s: Node, keep: nat, kept: Forest)
    requires keep <= |s.chain| && Within(s.disk, kept) && Within(kept, s.mem)
    requires TableAt(cfg, Blocks(s.chain[..keep])).Some?
    ensures Next(cfg, s, Crash(keep, kept))
         == Some(Node(s.chain[..keep], DbOf(cfg, s.chain[..keep]), kept, kept, None, map[], map[], [], {}))
  {
    hide DbOf, TableAt, Within;
  }
}
