/** The calls of apply_block in the order in which they take effect, whatever is dropped. */
module StoreOrder {
  import opened Structs
  import opened Quorum
  import opened Stakes
  import opened Ledger
  import opened Storage
  import opened StoreMachine
  import opened StoreInvariant
  import opened StoreDrops
  import opened StoreCalls

  /** A call taking effect in step number `at`; the caller is None when the call was dropped. */
  datatype Effect = Effect(caller: Option<nat>, call: Call, at: nat)

  function Calls(log: seq<Effect>): (cs: seq<Call>)
    ensures |cs| == |log|
    ensures forall i :: 0 <= i < |log| ==> cs[i] == log[i].call
  {
    seq(|log|, i requires 0 <= i < |log| => log[i].call)
  }

  predicate Sorted(log: seq<Effect>) {
    forall i, j :: 0 <= i < j < |log| ==> log[i].at <= log[j].at
  }

  /** The log with one effect put where its time belongs. */
  function Place(log: seq<Effect>, x: Effect): seq<Effect> {
    if |log| == 0 || log[|log| - 1].at <= x.at then log + [x]
    else Place(log[..|log| - 1], x) + [log[|log| - 1]]
  }

  /** The step number of the latest arrival of `p`. */
  function ArriveAt(steps: seq<Step>, p: nat): nat {
    if |steps| == 0 then 0
    else if steps[|steps| - 1].Arrive? && steps[|steps| - 1].p == p then |steps| - 1
    else ArriveAt(steps[..|steps| - 1], p)
  }

  /** The step number in which `p` last read the highest height. */
  function ReadAt(steps: seq<Step>, p: nat): nat {
    if |steps| == 0 then 0
    else if steps[|steps| - 1] == ReadHeight(p) then |steps| - 1
    else ReadAt(steps[..|steps| - 1], p)
  }

  /** The effect of one step, number |before|: a success or a failed insert takes effect when the
      transaction ends, whether or not anyone still waits for it; a refusal took effect when the
      call read the height. */
  function WithEffect(log: seq<Effect>, before: seq<Step>, s: Node, step: Step, t: Node): seq<Effect> {
    match step
    case Check(p) =>
      if Completes(s, t, p, false) then
        Place(log, Effect(Some(p), Call(s.appliers[p].e, false), ReadAt(before, p)))
      else log
    case Commit(p) =>
      if p in s.appliers && s.appliers[p].InTx? then
        log + [Effect(Some(p), Call(s.appliers[p].e, !Completes(s, t, p, false)), |before|)]
      else log
    case OrphanCommit(i) =>
      if i < |s.orphans| then
        log + [Effect(None, Call(s.orphans[i], CommitTx(s.db, s.orphans[i]).Some?), |before|)]
      else log
    case _ => log
  }

  ghost function Effects(cfg: Config, start: Node, steps: seq<Step>): seq<Effect> {
    if |steps| == 0 then []
    else
      var front := steps[..|steps| - 1];
      match (Run(cfg, start, front), Run(cfg, start, steps))
      case (Some(s), Some(t)) => WithEffect(Effects(cfg, start, front), front, s, steps[|steps| - 1], t)
      case _ => []
  }

  // ---- Placing a refusal ----

  /** How many calls had succeeded by step `time`. */
  function SuccessesBy(log: seq<Effect>, time: nat): nat {
    if |log| == 0 then 0
    else
      var x := log[|log| - 1];
      SuccessesBy(log[..|log| - 1], time) + if x.call.ok && x.at <= time then 1 else 0
  }

  lemma CallsThen(log: seq<Effect>, x: Effect)
    ensures Calls(log + [x]) == Calls(log) + [x.call]
    ensures |log| > 0 ==> Calls(log[..|log| - 1]) == Calls(log)[..|log| - 1]
  {
  }

  lemma {:induction false} SerialLength(cfg: Config, base: seq<Entry>, log: seq<Effect>, time: nat)
    requires Serial(cfg, base, Calls(log)).Some?
    ensures base <= Serial(cfg, base, Calls(log)).value
    ensures (forall x :: x in log ==> x.at <= time) ==>
              |Serial(cfg, base, Calls(log)).value| == |base| + SuccessesBy(log, time)
  {
    hide Applicable;
    if |log| > 0 {
      CallsThen(log, log[0]);
      SerialLength(cfg, base, log[..|log| - 1], time);
    }
  }

  lemma SerialOfFront(cfg: Config, base: seq<Entry>, log: seq<Effect>)
    requires |log| > 0 && Serial(cfg, base, Calls(log)).Some?
    ensures var front := log[..|log| - 1];
            && Serial(cfg, base, Calls(front)).Some?
            && OneCall(cfg, Serial(cfg, base, Calls(front)).value, log[|log| - 1].call) == Serial(cfg, base, Calls(log))
  {
    hide OneCall;
    assert Calls(log)[..|log| - 1] == Calls(log[..|log| - 1]);
  }

  /** A refusal by the chain as it was at some time can be put at that time. */
  lemma {:induction false} PlaceRefusal(cfg: Config, base: seq<Entry>, log: seq<Effect>, x: Effect, n: nat)
    requires Sorted(log) && !x.call.ok && n == |base| + SuccessesBy(log, x.at)
    requires Serial(cfg, base, Calls(log)).Some? && n <= |Serial(cfg, base, Calls(log)).value|
    requires !Applicable(cfg, AsCoded, Blocks(Serial(cfg, base, Calls(log)).value[..n]), x.call.e)
    ensures Serial(cfg, base, Calls(Place(log, x))) == Serial(cfg, base, Calls(log))
  {
    hide Applicable, Serial, Calls;
    var chain := Serial(cfg, base, Calls(log)).value;
    if |log| == 0 || log[|log| - 1].at <= x.at {
      SerialLength(cfg, base, log, x.at);
      assert chain[..n] == chain;
      CallsThen(log, x);
      SerialThen(cfg, base, Calls(log), x.call);
    } else {
      var front, last := log[..|log| - 1], log[|log| - 1];
      SerialOfFront(cfg, base, log);
      CountBounded(cfg, base, front, x.at);
      assert chain[..n] == Serial(cfg, base, Calls(front)).value[..n];
      PlaceRefusal(cfg, base, front, x, n);
      CallsThen(Place(front, x), last);
      SerialThen(cfg, base, Calls(Place(front, x)), last.call);
    }
  }

  lemma {:induction false} CountBounded(cfg: Config, base: seq<Entry>, log: seq<Effect>, time: nat)
    requires Serial(cfg, base, Calls(log)).Some?
    ensures |base| + SuccessesBy(log, time) <= |Serial(cfg, base, Calls(log)).value|
  {
    hide Applicable;
    if |log| > 0 {
      CallsThen(log, log[0]);
      CountBounded(cfg, base, log[..|log| - 1], time);
    }
  }

  lemma {:induction false} Placed(log: seq<Effect>, x: Effect)
    requires Sorted(log)
    ensures Sorted(Place(log, x)) && |Place(log, x)| == |log| + 1
    ensures forall y :: y in Place(log, x) <==> y in log || y == x
  {
    if |log| == 0 || log[|log| - 1].at <= x.at {
      assert Place(log, x) == log + [x];
    } else {
      var front, last := log[..|log| - 1], log[|log| - 1];
      Placed(front, x);
      assert log == front + [last] && Place(log, x) == Place(front, x) + [last];
      hide Place;
      forall y | y in Place(front, x) ensures y.at <= last.at {
        assert y in front || y == x;
      }
      LastSorted(Place(front, x), last);
    }
  }

  lemma LastSorted(log: seq<Effect>, x: Effect)
    requires Sorted(log) && forall y :: y in log ==> y.at <= x.at
    ensures Sorted(log + [x])
  {
  }

  lemma {:induction false} PlacedCount(log: seq<Effect>, x: Effect, time: nat)
    requires !x.call.ok
    ensures SuccessesBy(Place(log, x), time) == SuccessesBy(log, time)
  {
    if |log| > 0 && log[|log| - 1].at > x.at {
      PlacedCount(log[..|log| - 1], x, time);
      assert Place(log, x)[..|Place(log, x)| - 1] == Place(log[..|log| - 1], x);
    } else {
      assert Place(log, x)[..|log|] == log;
    }
  }

  // ---- Every order is a sequential run ----

  /** Each call that has read a height saw the chain of the successes until then. */
  ghost predicate SawLog(s: Node, base: nat, log: seq<Effect>, steps: seq<Step>) {
    forall p :: p in s.appliers && s.appliers[p].SawHeight? ==>
      && ReadAt(steps, p) < |steps|
      && s.appliers[p].height == base + SuccessesBy(log, ReadAt(steps, p))
  }

  ghost predicate InOrder(cfg: Config, s: Node, base: seq<Entry>, log: seq<Effect>, steps: seq<Step>) {
    && Sorted(log) && (forall x :: x in log ==> x.at < |steps|)
    && Serial(cfg, base, Calls(log)) == Some(s.chain)
    && SawLog(s, |base|, log, steps)
  }

  predicate OwnStep(step: Step, p: nat) {
    && (step.Arrive? || step.Acquire? || step.ReadHeight? || step.Check? || step.Flush? || step.Begin? || step.Commit?
        || step.Finish?)
    && step.p == p
  }

  /** Only its own steps move a call. */
  lemma OthersStay(cfg: Config, s: Node, step: Step, p: nat)
    requires Next(cfg, s, step).Some? && !step.Crash? && !OwnStep(step, p) && p in Next(cfg, s, step).value.appliers
    ensures p in s.appliers && Next(cfg, s, step).value.appliers[p] == s.appliers[p]
  {
    hide AfterCheck, AfterCommit, AfterOrphan, FromBlock, BatchStakes, Highest, Within, TableAt, NotifyAll;
    match step {
      case Check(q) => CheckMovesOne(cfg, s, q);
      case Commit(q) => CommitMovesOne(s, q);
      case OrphanCommit(i) => OrphanMovesNone(s, i);
      case _ =>
    }
  }

  /** What a step adds to the log comes last in time or is no success. */
  lemma AddsLast(log: seq<Effect>, before: seq<Step>, s: Node, step: Step, t: Node, time: nat)
    requires Sorted(log) && (forall x :: x in log ==> x.at < |before|)
    requires step.Check? && Completes(s, t, step.p, false) ==> ReadAt(before, step.p) < |before|
    ensures var log' := WithEffect(log, before, s, step, t);
            && Sorted(log') && (forall x :: x in log' ==> x.at <= |before|)
            && (time < |before| ==> SuccessesBy(log', time) == SuccessesBy(log, time))
  {
    hide Place, CommitTx, SuccessesBy, Sorted;
    match step {
      case Check(p) =>
        if Completes(s, t, p, false) {
          var x := Effect(Some(p), Call(s.appliers[p].e, false), ReadAt(before, p));
          Placed(log, x);
          PlacedCount(log, x, time);
        }
      case Commit(p) =>
        if p in s.appliers && s.appliers[p].InTx? {
          Appended(log, WithEffect(log, before, s, step, t)[|log|], time);
        }
      case OrphanCommit(i) =>
        if i < |s.orphans| {
          Appended(log, WithEffect(log, before, s, step, t)[|log|], time);
        }
      case _ =>
    }
  }

  lemma Appended(log: seq<Effect>, x: Effect, time: nat)
    requires Sorted(log) && (forall y :: y in log ==> y.at <= x.at)
    ensures Sorted(log + [x]) && (forall y :: y in log + [x] ==> y.at <= x.at)
    ensures time < x.at ==> SuccessesBy(log + [x], time) == SuccessesBy(log, time)
  {
    assert (log + [x])[..|log|] == log;
  }

  lemma SawLogStep(cfg: Config, s: Node, step: Step, base: seq<Entry>, log: seq<Effect>, before: seq<Step>, p: nat)
    requires Inv(cfg, s) && InOrder(cfg, s, base, log, before) && Next(cfg, s, step).Some? && !step.Crash?
    requires p in Next(cfg, s, step).value.appliers && Next(cfg, s, step).value.appliers[p].SawHeight?
    ensures var t := Next(cfg, s, step).value; var log' := WithEffect(log, before, s, step, t);
            && ReadAt(before + [step], p) <= |before|
            && t.appliers[p].height == |base| + SuccessesBy(log', ReadAt(before + [step], p))
  {
    hide Inv, Serial, WithEffect, Next;
    assert (before + [step])[..|before|] == before;
    if step == ReadHeight(p) {
      JustRead(cfg, s, p, base, log, before);
    } else {
      SawBefore(cfg, s, step, p);
      AddsInTime(cfg, s, step, base, log, before, ReadAt(before, p));
    }
  }

  lemma JustRead(cfg: Config, s: Node, p: nat, base: seq<Entry>, log: seq<Effect>, before: seq<Step>)
    requires Inv(cfg, s) && InOrder(cfg, s, base, log, before) && Next(cfg, s, ReadHeight(p)).Some?
    ensures var t := Next(cfg, s, ReadHeight(p)).value;
            && WithEffect(log, before, s, ReadHeight(p), t) == log
            && t.appliers[p].height == |base| + SuccessesBy(log, |before|)
  {
    hide Inv, Serial, Highest;
    InvReadHeight(cfg, s, p);
    SerialLength(cfg, base, log, |before|);
  }

  lemma AddsInTime(cfg: Config, s: Node, step: Step, base: seq<Entry>, log: seq<Effect>, before: seq<Step>, time: nat)
    requires InOrder(cfg, s, base, log, before) && Next(cfg, s, step).Some?
    ensures var log' := WithEffect(log, before, s, step, Next(cfg, s, step).value);
            && Sorted(log') && (forall x :: x in log' ==> x.at <= |before|)
            && (time < |before| ==> SuccessesBy(log', time) == SuccessesBy(log, time))
  {
    hide Serial, WithEffect, AfterCheck;
    AddsLast(log, before, s, step, Next(cfg, s, step).value, time);
  }

  lemma SawBefore(cfg: Config, s: Node, step: Step, p: nat)
    requires Next(cfg, s, step).Some? && !step.Crash? && step != ReadHeight(p)
    requires p in Next(cfg, s, step).value.appliers && Next(cfg, s, step).value.appliers[p].SawHeight?
    ensures p in s.appliers && Next(cfg, s, step).value.appliers[p] == s.appliers[p]
  {
    hide AfterCheck, AfterCommit, AfterCancel, AfterOrphan, FromBlock, BatchStakes, Highest, Within, TableAt, NotifyAll;
    if !OwnStep(step, p) {
      OthersStay(cfg, s, step, p);
    } else if step.Check? {
      CheckOutcome(cfg, s, p);
    } else if step.Commit? {
      CommitMovesOne(s, p);
    }
  }

  lemma SerialStep(cfg: Config, s: Node, step: Step, base: seq<Entry>, log: seq<Effect>, before: seq<Step>)
    requires Inv(cfg, s) && InOrder(cfg, s, base, log, before) && Next(cfg, s, step).Some? && !step.Crash?
    ensures var t := Next(cfg, s, step).value;
            Serial(cfg, base, Calls(WithEffect(log, before, s, step, t))) == Some(t.chain)
  {
    hide Inv, Serial, Sorted, Place, Applicable, CommitTx, AfterCheck, FromBlock, BatchStakes, Highest, Within,
         TableAt, NotifyAll;
    match step {
      case Check(p) =>
        CheckMovesOne(cfg, s, p);
        if AfterCheck(cfg, s, p).appliers[p] == StoreMachine.Returned(false) {
          RefusedAsSeen(cfg, s, p);
          PlaceRefusal(cfg, base, log, Effect(Some(p), Call(s.appliers[p].e, false), ReadAt(before, p)),
              s.appliers[p].height);
        }
      case Commit(p) =>
        InvCommit(cfg, s, p);
        CommitMovesOne(s, p);
        var x := Effect(Some(p), Call(s.appliers[p].e, CommitTx(s.db, s.appliers[p].e).Some?), |before|);
        CallsThen(log, x);
        SerialThen(cfg, base, Calls(log), x.call);
      case OrphanCommit(i) =>
        InvOrphan(cfg, s, i);
        var x := Effect(None, Call(s.orphans[i], CommitTx(s.db, s.orphans[i]).Some?), |before|);
        CallsThen(log, x);
        SerialThen(cfg, base, Calls(log), x.call);
      case _ =>
    }
  }

  lemma RefusedAsSeen(cfg: Config, s: Node, p: nat)
    requires Inv(cfg, s) && p in s.appliers && s.appliers[p].SawHeight?
    requires AfterCheck(cfg, s, p).appliers[p] == StoreMachine.Returned(false)
    ensures s.appliers[p].height <= |s.chain|
    ensures !Applicable(cfg, AsCoded, Blocks(s.chain[..s.appliers[p].height]), s.appliers[p].e)
  {
    hide Inv, Acceptable, AfterCheck;
    InvApplier(cfg, s, p);
    InvCheck(cfg, s, p);
    BlocksOfPrefix(s.chain, s.appliers[p].height);
  }

  lemma SawLogSteps(cfg: Config, s: Node, step: Step, base: seq<Entry>, log: seq<Effect>, before: seq<Step>)
    requires Inv(cfg, s) && InOrder(cfg, s, base, log, before) && Next(cfg, s, step).Some? && !step.Crash?
    ensures var t := Next(cfg, s, step).value;
            SawLog(t, |base|, WithEffect(log, before, s, step, t), before + [step])
  {
    hide Inv, Next, InOrder, WithEffect, ReadAt, SuccessesBy;
    var t := Next(cfg, s, step).value;
    forall p | p in t.appliers && t.appliers[p].SawHeight?
      ensures ReadAt(before + [step], p) < |before + [step]|
      ensures t.appliers[p].height
              == |base| + SuccessesBy(WithEffect(log, before, s, step, t), ReadAt(before + [step], p))
    {
      SawLogStep(cfg, s, step, base, log, before, p);
    }
  }

  lemma InOrderStep(cfg: Config, s: Node, step: Step, base: seq<Entry>, log: seq<Effect>, before: seq<Step>)
    requires Inv(cfg, s) && InOrder(cfg, s, base, log, before) && Next(cfg, s, step).Some? && !step.Crash?
    ensures var t := Next(cfg, s, step).value;
            InOrder(cfg, t, base, WithEffect(log, before, s, step, t), before + [step])
  {
    SerialStep(cfg, s, step, base, log, before);
    AddsInTime(cfg, s, step, base, log, before, 0);
    SawLogSteps(cfg, s, step, base, log, before);
    hide Inv, Next, Serial, Calls, Sorted, SawLog, WithEffect, SuccessesBy;
  }

  lemma OrderOf(cfg: Config, s: Node, base: seq<Entry>, log: seq<Effect>, steps: seq<Step>)
    requires InOrder(cfg, s, base, log, steps)
    ensures Sorted(log) && Serial(cfg, base, Calls(log)) == Some(s.chain)
  {
    hide Serial, SawLog, Sorted;
  }

  /** Whatever is dropped and when, the calls made one at a time in the order of their times leave
      exactly the chain, a dropped call whose transaction was running being one of them. */
  lemma {:induction false} EffectsSerialise(cfg: Config, start: Node, steps: seq<Step>, s: Node)
    requires JustOpened(cfg, start) && NoCrash(steps) && Run(cfg, start, steps) == Some(s)
    ensures InOrder(cfg, s, start.chain, Effects(cfg, start, steps), steps)
    ensures Sorted(Effects(cfg, start, steps))
    ensures Serial(cfg, start.chain, Calls(Effects(cfg, start, steps))) == Some(s.chain)
  {
    if |steps| == 0 {
      hide Inv;
      assert Calls([]) == [];
    } else {
      hide Inv, Next, Serial, SawLog, WithEffect, Effects, InOrder;
      var front := steps[..|steps| - 1];
      var before := Run(cfg, start, front).value;
      EffectsSerialise(cfg, start, front, before);
      InvRunFrom(cfg, start, front);
      InOrderStep(cfg, before, steps[|steps| - 1], start.chain, Effects(cfg, start, front), front);
      assert front + [steps[|steps| - 1]] == steps;
      EffectsThen(cfg, start, steps, before, s);
      OrderOf(cfg, s, start.chain, Effects(cfg, start, steps), steps);
    }
  }

  // ---- Every result is in it, at a time when its call was under way ----

  predicate TookEffect(x: Effect, p: nat, c: Call, from: nat, to: nat) {
    x.caller == Some(p) && x.call == c && from <= x.at <= to
  }

  ghost predicate HasEffect(log: seq<Effect>, p: nat, c: Call, from: nat, to: nat) {
    exists x :: x in log && TookEffect(x, p, c, from, to)
  }

  /** A call under way arrived before, read its height after it arrived, and if it has committed
      its effect lies in between. */
  ghost predicate Begun(a: Applier, p: nat, log: seq<Effect>, steps: seq<Step>) {
    && (!a.Returned? ==> ArriveAt(steps, p) < |steps|)
    && (a.SawHeight? ==> ArriveAt(steps, p) <= ReadAt(steps, p) < |steps|)
    && (a.Committed? ==> HasEffect(log, p, Call(a.e, true), ArriveAt(steps, p), |steps|))
  }

  ghost predicate AllBegun(s: Node, log: seq<Effect>, steps: seq<Step>) {
    forall p :: p in s.appliers ==> Begun(s.appliers[p], p, log, steps)
  }

  lemma EffectsStay(log: seq<Effect>, before: seq<Step>, s: Node, step: Step, t: Node, x: Effect)
    requires Sorted(log) && x in log
    ensures x in WithEffect(log, before, s, step, t)
  {
    hide Place, CommitTx;
    match step {
      case Check(p) =>
        if Completes(s, t, p, false) {
          Placed(log, Effect(Some(p), Call(s.appliers[p].e, false), ReadAt(before, p)));
        }
      case _ =>
    }
  }

  lemma BegunStep(cfg: Config, s: Node, step: Step, log: seq<Effect>, before: seq<Step>, p: nat)
    requires Sorted(log) && AllBegun(s, log, before) && Next(cfg, s, step).Some? && !step.Crash?
    requires p in Next(cfg, s, step).value.appliers
    ensures var t := Next(cfg, s, step).value;
            Begun(t.appliers[p], p, WithEffect(log, before, s, step, t), before + [step])
  {
    hide WithEffect, Next, HasEffect, Sorted;
    assert (before + [step])[..|before|] == before;
    var t := Next(cfg, s, step).value;
    if !OwnStep(step, p) {
      OthersStay(cfg, s, step, p);
      KeepsEffect(cfg, s, step, log, before, p);
    } else {
      OwnBegun(cfg, s, step, log, before, p);
    }
  }

  lemma KeepsEffect(cfg: Config, s: Node, step: Step, log: seq<Effect>, before: seq<Step>, p: nat)
    requires Sorted(log) && p in s.appliers && Begun(s.appliers[p], p, log, before)
    requires Next(cfg, s, step).Some?
    ensures s.appliers[p].Committed? ==>
              HasEffect(WithEffect(log, before, s, step, Next(cfg, s, step).value), p, Call(s.appliers[p].e, true),
                        ArriveAt(before, p), |before| + 1)
  {
    hide WithEffect, Next, Sorted;
    if s.appliers[p].Committed? {
      var x :| x in log && TookEffect(x, p, Call(s.appliers[p].e, true), ArriveAt(before, p), |before|);
      EffectsStay(log, before, s, step, Next(cfg, s, step).value, x);
    }
  }

  lemma OwnBegun(cfg: Config, s: Node, step: Step, log: seq<Effect>, before: seq<Step>, p: nat)
    requires AllBegun(s, log, before) && Next(cfg, s, step).Some? && !step.Crash? && OwnStep(step, p)
    requires p in Next(cfg, s, step).value.appliers
    ensures var t := Next(cfg, s, step).value;
            Begun(t.appliers[p], p, WithEffect(log, before, s, step, t), before + [step])
  {
    hide AfterCheck, AfterCommit, FromBlock, BatchStakes, Highest, NotifyAll, Place, CommitTx;
    assert (before + [step])[..|before|] == before;
    var t := Next(cfg, s, step).value;
    if step.Check? {
      CheckOutcome(cfg, s, p);
    } else if step.Commit? {
      CommitMovesOne(s, p);
      var x := Effect(Some(p), Call(s.appliers[p].e, true), |before|);
      assert CommitTx(s.db, s.appliers[p].e).Some? ==> WithEffect(log, before, s, step, t) == log + [x];
      assert TookEffect(x, p, x.call, ArriveAt(before, p), |before| + 1);
    }
  }

  /** The step from `s` to `t` ends a call with an effect in its time. */
  lemma EndStep(cfg: Config, s: Node, step: Step, t: Node, p: nat, ok: bool, log: seq<Effect>, before: seq<Step>)
    requires Sorted(log) && AllBegun(s, log, before) && Next(cfg, s, step) == Some(t) && Completes(s, t, p, ok)
    ensures HasEffect(WithEffect(log, before, s, step, t), p, Call(s.appliers[p].e, ok), ArriveAt(before, p), |before|)
  {
    EveryResultIsLogged(cfg, s, step, t, p, ok);
    assert Begun(s.appliers[p], p, log, before);
    EndingStep(cfg, s, step, t, p, ok);
    hide Next, AllBegun, Sorted, Completes, CommitTx, Place, ArriveAt, ReadAt;
    var c := Call(s.appliers[p].e, ok);
    match step {
      case Check(q) =>
        var x := Effect(Some(p), c, ReadAt(before, p));
        Placed(log, x);
        assert TookEffect(x, p, c, ArriveAt(before, p), |before|);
      case Commit(q) =>
        var x := Effect(Some(p), c, |before|);
        assert WithEffect(log, before, s, step, t) == log + [x];
        assert TookEffect(x, p, c, ArriveAt(before, p), |before|);
      case _ =>
    }
  }

  /** A call ends in its own check, its own commit or its own notification. */
  lemma EndingStep(cfg: Config, s: Node, step: Step, t: Node, p: nat, ok: bool)
    requires Next(cfg, s, step) == Some(t) && Completes(s, t, p, ok)
    ensures || (step == Check(p) && !ok && s.appliers[p].SawHeight?)
            || (step == Commit(p) && !ok && s.appliers[p].InTx?)
            || (step == Finish(p) && ok && s.appliers[p].Committed?)
  {
    EveryResultIsLogged(cfg, s, step, t, p, ok);
    hide AfterCheck, AfterCommit, AfterOrphan, FromBlock, BatchStakes, Highest, NotifyAll;
    match step {
      case Check(q) => CheckMovesOne(cfg, s, q);
      case Commit(q) => CommitMovesOne(s, q);
      case _ =>
    }
  }

  lemma EffectsThen(cfg: Config, start: Node, steps: seq<Step>, s: Node, t: Node)
    requires |steps| > 0 && Run(cfg, start, steps[..|steps| - 1]) == Some(s) && Run(cfg, start, steps) == Some(t)
    ensures var front := steps[..|steps| - 1];
            Effects(cfg, start, steps) == WithEffect(Effects(cfg, start, front), front, s, steps[|steps| - 1], t)
  {
    hide Run, WithEffect;
  }

  lemma {:induction false} RunBegun(cfg: Config, start: Node, steps: seq<Step>, s: Node)
    requires JustOpened(cfg, start) && NoCrash(steps) && Run(cfg, start, steps) == Some(s)
    ensures AllBegun(s, Effects(cfg, start, steps), steps)
  {
    hide Inv, Next, Begun, WithEffect, InOrder, Effects, Sorted;
    if |steps| > 0 {
      hide AllBegun, JustOpened;
      var front, step := steps[..|steps| - 1], steps[|steps| - 1];
      var before := Run(cfg, start, front).value;
      RunBegun(cfg, start, front, before);
      EffectsSerialise(cfg, start, front, before);
      EffectsThen(cfg, start, steps, before, s);
      AllBegunStep(cfg, before, step, Effects(cfg, start, front), front);
      assert front + [step] == steps;
    }
  }

  lemma AllBegunStep(cfg: Config, s: Node, step: Step, log: seq<Effect>, before: seq<Step>)
    requires Sorted(log) && AllBegun(s, log, before) && Next(cfg, s, step).Some? && !step.Crash?
    ensures var t := Next(cfg, s, step).value; AllBegun(t, WithEffect(log, before, s, step, t), before + [step])
  {
    var t := Next(cfg, s, step).value;
    forall p | p in t.appliers ensures Begun(t.appliers[p], p, WithEffect(log, before, s, step, t), before + [step]) {
      BegunStep(cfg, s, step, log, before, p);
    }
    hide Next, WithEffect, Begun;
  }

  /** Step number `i` ends the latest call of `p`, namely `c`. */
  ghost predicate Ends(cfg: Config, start: Node, steps: seq<Step>, i: nat, p: nat, c: Call) {
    && i < |steps| && Run(cfg, start, steps[..i]).Some? && Run(cfg, start, steps[..i + 1]).Some?
    && var s, t := Run(cfg, start, steps[..i]).value, Run(cfg, start, steps[..i + 1]).value;
       Completes(s, t, p, c.ok) && s.appliers[p].e == c.e
  }

  /** Every call that returns takes effect, with the result it returns, at some step from its
      arrival to its end. */
  lemma {:induction false} EveryCallTakesEffect(cfg: Config, start: Node, steps: seq<Step>, i: nat, p: nat, c: Call)
    requires JustOpened(cfg, start) && NoCrash(steps) && Run(cfg, start, steps).Some?
    requires Ends(cfg, start, steps, i, p, c)
    ensures HasEffect(Effects(cfg, start, steps), p, c, ArriveAt(steps[..i], p), i)
  {
    hide Inv, Next, WithEffect, AllBegun, InOrder, Completes, HasEffect;
    var n := |steps| - 1;
    var front := steps[..n];
    var before := Run(cfg, start, front).value;
    EffectsSerialise(cfg, start, front, before);
    if i < n {
      assert front[..i] == steps[..i] && front[..i + 1] == steps[..i + 1];
      EveryCallTakesEffect(cfg, start, front, i, p, c);
      StillHasEffect(Effects(cfg, start, front), front, before, steps[n], Run(cfg, start, steps).value, p, c,
          ArriveAt(steps[..i], p), i);
    } else {
      assert steps[..i + 1] == steps;
      RunBegun(cfg, start, front, before);
      EndStep(cfg, before, steps[n], Run(cfg, start, steps).value, p, c.ok, Effects(cfg, start, front), front);
    }
  }

  lemma StillHasEffect(log: seq<Effect>, before: seq<Step>, s: Node, step: Step, t: Node, p: nat, c: Call, from: nat,
                       to: nat)
    requires Sorted(log) && HasEffect(log, p, c, from, to)
    ensures HasEffect(WithEffect(log, before, s, step, t), p, c, from, to)
  {
    hide WithEffect;
    var x :| x in log && TookEffect(x, p, c, from, to);
    EffectsStay(log, before, s, step, t, x);
  }

  /** The order respects real time: a call that ended before another arrived comes first. With
      EffectsSerialise, the calls of every run are linearizable. */
  lemma RealTimeOrder(cfg: Config, start: Node, steps: seq<Step>, i: nat, p: nat, c: Call, j: nat, q: nat, d: Call)
    requires JustOpened(cfg, start) && NoCrash(steps) && Run(cfg, start, steps).Some?
    requires Ends(cfg, start, steps, i, p, c) && Ends(cfg, start, steps, j, q, d)
    requires i < ArriveAt(steps[..j], q)
    ensures var log := Effects(cfg, start, steps);
            exists a, b :: 0 <= a < b < |log|
              && TookEffect(log[a], p, c, ArriveAt(steps[..i], p), i)
              && TookEffect(log[b], q, d, ArriveAt(steps[..j], q), j)
  {
    EveryCallTakesEffect(cfg, start, steps, i, p, c);
    EveryCallTakesEffect(cfg, start, steps, j, q, d);
    EffectsSerialise(cfg, start, steps, Run(cfg, start, steps).value);
    Ordered(Effects(cfg, start, steps), p, c, ArriveAt(steps[..i], p), i, q, d, ArriveAt(steps[..j], q), j);
    hide *;
  }

  lemma Ordered(log: seq<Effect>, p: nat, c: Call, from: nat, to: nat, q: nat, d: Call, from': nat, to': nat)
    requires Sorted(log) && HasEffect(log, p, c, from, to) && HasEffect(log, q, d, from', to') && to < from'
    ensures exists a, b ::
              0 <= a < b < |log| && TookEffect(log[a], p, c, from, to) && TookEffect(log[b], q, d, from', to')
  {
    var x :| x in log && TookEffect(x, p, c, from, to);
    var y :| y in log && TookEffect(y, q, d, from', to');
    var a :| 0 <= a < |log| && log[a] == x;
    var b :| 0 <= b < |log| && log[b] == y;
    assert a < b;
  }

  // ---- And each as often as it was returned ----

  function One(holds: bool): nat {
    if holds then 1 else 0
  }

  /** Whether `c` is the success of the call between its commit and its notification. */
  function Underway(s: Node, c: Call): nat {
    One(InFlight(s) == [c.e] && c.ok)
  }

  /** How often a step adds `c` to the effects. */
  function EffectOf(s: Node, step: Step, t: Node, c: Call): nat {
    match step
    case Check(p) => One(Completes(s, t, p, false) && c == Call(s.appliers[p].e, false))
    case Commit(p) =>
      One(p in s.appliers && s.appliers[p].InTx? && c == Call(s.appliers[p].e, !Completes(s, t, p, false)))
    case OrphanCommit(i) => One(i < |s.orphans| && c == Call(s.orphans[i], CommitTx(s.db, s.orphans[i]).Some?))
    case _ => 0
  }

  lemma CountThen(log: seq<Effect>, x: Effect, c: Call)
    ensures multiset(Calls(log + [x]))[c] == multiset(Calls(log))[c] + One(x.call == c)
  {
    CallsThen(log, x);
  }

  lemma {:induction false} PlacedOnce(log: seq<Effect>, x: Effect, c: Call)
    ensures multiset(Calls(Place(log, x)))[c] == multiset(Calls(log))[c] + One(x.call == c)
  {
    hide Calls;
    if |log| > 0 && log[|log| - 1].at > x.at {
      var front, last := log[..|log| - 1], log[|log| - 1];
      PlacedOnce(front, x, c);
      CountThen(Place(front, x), last, c);
      CountThen(front, last, c);
      assert log == front + [last];
    } else {
      CountThen(log, x, c);
    }
  }

  lemma EffectAdded(log: seq<Effect>, before: seq<Step>, s: Node, step: Step, t: Node, c: Call)
    ensures multiset(Calls(WithEffect(log, before, s, step, t)))[c] == multiset(Calls(log))[c] + EffectOf(s, step, t, c)
  {
    hide Place, CommitTx, Calls;
    match step {
      case Check(p) =>
        if Completes(s, t, p, false) {
          PlacedOnce(log, Effect(Some(p), Call(s.appliers[p].e, false), ReadAt(before, p)), c);
        }
      case Commit(p) =>
        if p in s.appliers && s.appliers[p].InTx? {
          CountThen(log, WithEffect(log, before, s, step, t)[|log|], c);
        }
      case OrphanCommit(i) =>
        if i < |s.orphans| {
          CountThen(log, WithEffect(log, before, s, step, t)[|log|], c);
        }
      case _ =>
    }
  }

  /** One step: a result it adds takes effect with it, or took effect when it committed. */
  lemma ResultStep(cfg: Config, s: Node, step: Step, c: Call)
    requires Inv(cfg, s) && Next(cfg, s, step).Some? && !step.Crash?
    ensures var t := Next(cfg, s, step).value;
            multiset(Ended(s, step, t))[c] + Underway(t, c) <= Underway(s, c) + EffectOf(s, step, t, c)
  {
    hide Inv, InFlight, CommitTx, AfterCheck, AfterCommit, AfterCancel, AfterOrphan, FromBlock, BatchStakes, Highest,
         Within, TableAt, NotifyAll, Put, PutW;
    if step.Commit? {
      CommitMovesOne(s, step.p);
      FlightBegins(cfg, s, step.p);
    } else if step.Finish? || (step.Cancel? && s.appliers[step.p].Committed?) {
      FlightEnds(cfg, s, step);
    } else {
      FlightStays(cfg, s, step);
    }
  }

  lemma FlightBegins(cfg: Config, s: Node, p: nat)
    requires Inv(cfg, s) && p in s.appliers && s.appliers[p].InTx?
    ensures InFlight(s) == []
    ensures InFlight(AfterCommit(s, p)) == if CommitTx(s.db, s.appliers[p].e).Some? then [s.appliers[p].e] else []
  {
    hide Durable, ApplierOk, WaiterOk, OrphanOk, CommitTx, AfterCommit;
    CommitMovesOne(s, p);
  }

  lemma FlightEnds(cfg: Config, s: Node, step: Step)
    requires Inv(cfg, s) && Next(cfg, s, step).Some?
             && (step.Finish? || (step.Cancel? && s.appliers[step.p].Committed?))
    ensures InFlight(s) == [s.appliers[step.p].e] && InFlight(Next(cfg, s, step).value) == []
  {
    hide Durable, ApplierOk, WaiterOk, OrphanOk, NotifyAll;
  }

  lemma FlightStays(cfg: Config, s: Node, step: Step)
    requires Inv(cfg, s) && Next(cfg, s, step).Some? && !step.Crash? && !step.Commit? && !step.Finish?
    requires step.Cancel? ==> !s.appliers[step.p].Committed?
    ensures InFlight(Next(cfg, s, step).value) == InFlight(s)
  {
    hide Durable, ApplierOk, WaiterOk, OrphanOk, CommitTx, AfterCheck, AfterCommit, AfterOrphan, FromBlock,
         BatchStakes, Highest, Within, TableAt, NotifyAll;
    match step {
      case Check(p) => CheckMovesOne(cfg, s, p); CheckOutcome(cfg, s, p); CheckLock(cfg, s, p);
      case OrphanCommit(i) => OrphanMovesNone(s, i);
      case _ =>
    }
  }

  lemma CheckLock(cfg: Config, s: Node, p: nat)
    requires p in s.appliers && s.appliers[p].SawHeight?
    ensures AfterCheck(cfg, s, p).lock == s.lock || AfterCheck(cfg, s, p).lock.None?
  {
    hide StateFromDb, NextState, VotesPass;
  }

  lemma Unfold(cfg: Config, start: Node, steps: seq<Step>, s: Node, t: Node, c: Call)
    requires |steps| > 0 && Run(cfg, start, steps[..|steps| - 1]) == Some(s) && Run(cfg, start, steps) == Some(t)
    ensures multiset(Log(cfg, start, steps))[c]
            == multiset(Log(cfg, start, steps[..|steps| - 1]))[c] + multiset(Ended(s, steps[|steps| - 1], t))[c]
    ensures multiset(Calls(Effects(cfg, start, steps)))[c]
            == multiset(Calls(Effects(cfg, start, steps[..|steps| - 1])))[c] + EffectOf(s, steps[|steps| - 1], t, c)
  {
    hide Run, Ended, WithEffect, EffectOf;
    EffectAdded(Effects(cfg, start, steps[..|steps| - 1]), steps[..|steps| - 1], s, steps[|steps| - 1], t, c);
  }

  /** Every call that ended, and the one under way to its notification, takes effect once, with
      its own result. */
  lemma {:induction false} ResultsTakeEffect(cfg: Config, start: Node, steps: seq<Step>, s: Node, c: Call)
    requires JustOpened(cfg, start) && NoCrash(steps) && Run(cfg, start, steps) == Some(s)
    ensures multiset(Log(cfg, start, steps))[c] + Underway(s, c) <= multiset(Calls(Effects(cfg, start, steps)))[c]
  {
    hide Inv, Next, Ended, EffectOf, Log, Effects;
    if |steps| == 0 {
      NoEffects(cfg, start);
    } else {
      hide Underway;
      var front := steps[..|steps| - 1];
      var before := Run(cfg, start, front).value;
      ResultsTakeEffect(cfg, start, front, before, c);
      InvRunFrom(cfg, start, front);
      Unfold(cfg, start, steps, before, s, c);
      ResultStep(cfg, before, steps[|steps| - 1], c);
    }
  }

  lemma NoEffects(cfg: Config, start: Node)
    ensures Log(cfg, start, []) == [] && Effects(cfg, start, []) == []
  {
  }
}
