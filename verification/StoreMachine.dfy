/** Any number of apply_block calls, readers waiting for blocks, dropped futures and crashes,
    one step at a time. */
module StoreMachine {
  import opened Structs
  import opened Quorum
  import opened Stakes
  import opened Ledger
  import opened Storage

  /** How far one apply_block call has come. */
  datatype Applier =
    | Waiting(e: Entry)                       // asked for the lock
    | Locked(e: Entry)
    | SawHeight(e: Entry, height: nat)        // highest_state has read the highest height
    | Checked(e: Entry, next: SealedState)    // accepted, its nodes in memory
    | Flushed(e: Entry, next: SealedState)
    | InTx(e: Entry, next: SealedState)       // the SQL transaction runs on another thread
    | Committed(e: Entry)                     // not yet rebased and notified
    | Returned(ok: bool)
    | ApplierPanic

  /** A get_state_or_wait call. */
  datatype Waiter =
    | Listening(height: nat, notified: bool)  // listener registered, store not looked up yet
    | Asleep(height: nat, notified: bool)
    | Reading(height: nat, block: Block)      // block found, stake rows and nodes not read yet
    | Got(height: nat, state: SealedState)
    | WaiterPanic

  datatype Node = Node(
    chain: seq<Entry>,          // every commit so far, in order
    db: Db,
    mem: Forest,                // Merkle nodes inserted
    disk: Forest,               // Merkle nodes flushed
    lock: Option<nat>,
    appliers: map<nat, Applier>,
    waiters: map<nat, Waiter>,
    orphans: seq<Entry>,        // SQL transactions whose apply_block future was dropped
    unannounced: set<nat>       // heights committed by a call that was dropped before it could notify
  )

  datatype Step =
    | Arrive(p: nat, e: Entry)
    | Acquire(p: nat)
    | ReadHeight(p: nat)
    | Check(p: nat)
    | Flush(p: nat)
    | Begin(p: nat)
    | Commit(p: nat)
    | Finish(p: nat)
    | Cancel(p: nat)
    | OrphanCommit(i: nat)
    | Listen(w: nat, height: nat)
    | Look(w: nat)
    | FinishRead(w: nat)
    | Wake(w: nat)
    | Crash(keep: nat, kept: Forest)

  function Init(cfg: Config): Node {
    Node([], DbOf(cfg, []), map[], map[], None, map[], map[], [], {})
  }

  predicate Holds(a: Applier) {
    a.Locked? || a.SawHeight? || a.Checked? || a.Flushed? || a.InTx? || a.Committed?
  }

  /** `max(height)` over the history table, 0 when it is empty. */
  ghost function Highest(db: Db): (h: nat)
    ensures h == 0 || h in db.history
    ensures forall k :: k in db.history ==> k <= h
  {
    MaxOf(db.history.Keys)
  }

  ghost function MaxOf(s: set<nat>): (m: nat)
    ensures m == 0 || m in s
    ensures forall k :: k in s ==> k <= m
  {
    if s == {} then 0
    else
      var k :| k in s;
      assert s == s - {k} + {k};
      var rest := MaxOf(s - {k});
      if rest > k then rest else k
  }

  ghost predicate Within(a: Forest, b: Forest) {
    forall k :: k in a ==> k in b && b[k] == a[k]
  }

  /** The state highest_state rebuilds at the height it read. */
  function StateFromDb(cfg: Config, s: Node, h: nat): Option<SealedState> {
    if h == 0 then Some(cfg.genesis)
    else if h in s.db.history then FromBlock(cfg, s.db.history[h], BatchStakes(cfg, s.db.stakes, h), s.mem)
    else None
  }

  /** One step; None when it is not enabled. */
  ghost function Next(cfg: Config, s: Node, step: Step): Option<Node> {
    match step
    case Arrive(p, e) => if p in s.appliers && !s.appliers[p].Returned? then None else Some(Put(s, p, Waiting(e)))
    case Acquire(p) =>
      if p in s.appliers && s.appliers[p].Waiting? && s.lock.None? then
        Some(Put(s, p, Locked(s.appliers[p].e)).(lock := Some(p)))
      else None
    case ReadHeight(p) =>
      if p in s.appliers && s.appliers[p].Locked? then Some(Put(s, p, SawHeight(s.appliers[p].e, Highest(s.db))))
      else None
    case Check(p) => if p in s.appliers && s.appliers[p].SawHeight? then Some(AfterCheck(cfg, s, p)) else None
    case Flush(p) =>
      if p in s.appliers && s.appliers[p].Checked? then
        Some(Put(s, p, Flushed(s.appliers[p].e, s.appliers[p].next)).(disk := s.mem))
      else None
    case Begin(p) =>
      if p in s.appliers && s.appliers[p].Flushed? then Some(Put(s, p, InTx(s.appliers[p].e, s.appliers[p].next)))
      else None
    case Commit(p) => if p in s.appliers && s.appliers[p].InTx? then Some(AfterCommit(s, p)) else None
    case Finish(p) =>
      if p in s.appliers && s.appliers[p].Committed? then
        Some(Put(s, p, Returned(true)).(lock := None, waiters := NotifyAll(s.waiters)))
      else None
    case Cancel(p) => if p in s.appliers && !s.appliers[p].Returned? then Some(AfterCancel(s, p)) else None
    case OrphanCommit(i) => if i < |s.orphans| then Some(AfterOrphan(s, i)) else None
    case Listen(w, h) => if w in s.waiters && !s.waiters[w].Got? then None else Some(PutW(s, w, Listening(h, false)))
    case Look(w) =>
      if w in s.waiters && s.waiters[w].Listening? then
        var h := s.waiters[w].height;
        Some(PutW(s, w, if h in s.db.history then Reading(h, s.db.history[h]) else Asleep(h, s.waiters[w].notified)))
      else None
    case FinishRead(w) =>
      if w in s.waiters && s.waiters[w].Reading? then
        var h := s.waiters[w].height;
        match FromBlock(cfg, s.waiters[w].block, BatchStakes(cfg, s.db.stakes, h), s.mem)
        case None => Some(PutW(s, w, WaiterPanic))
        case Some(state) => Some(PutW(s, w, Got(h, state)))
      else None
    case Wake(w) =>
      if w in s.waiters && s.waiters[w].Asleep? && s.waiters[w].notified then
        Some(PutW(s, w, Listening(s.waiters[w].height, false)))
      else None
    case Crash(keep, kept) =>
      if keep <= |s.chain| && Within(s.disk, kept) && Within(kept, s.mem)
          && TableAt(cfg, Blocks(s.chain[..keep])).Some? then
        Some(Node(s.chain[..keep], DbOf(cfg, s.chain[..keep]), kept, kept, None, map[], map[], [], {}))
      else None
  }

  function Put(s: Node, p: nat, a: Applier): Node {
    s.(appliers := s.appliers[p := a])
  }

  function PutW(s: Node, w: nat, x: Waiter): Node {
    s.(waiters := s.waiters[w := x])
  }

  /** The checks of apply_block against the state at the height that was read. */
  function AfterCheck(cfg: Config, s: Node, p: nat): (t: Node)
    requires p in s.appliers && s.appliers[p].SawHeight?
    ensures p in t.appliers
  {
    var SawHeight(e, h) := s.appliers[p];
    match StateFromDb(cfg, s, h)
    case None => Put(s, p, ApplierPanic).(lock := None)
    case Some(top) =>
      var next := NextState(cfg, top, e.block);
      if e.block.header.height == top.block.header.height + 1 && VotesPass(cfg, AsCoded, top, e) && next.Some? then
        Put(s, p, Checked(e, next.value)).(mem := s.mem[e.block.header.stateRoot := next.value.contents])
      else Put(s, p, Returned(false)).(lock := None)
  }

  function AfterCommit(s: Node, p: nat): Node
    requires p in s.appliers && s.appliers[p].InTx?
  {
    var e := s.appliers[p].e;
    match CommitTx(s.db, e)
    case None => Put(s, p, Returned(false)).(lock := None)
    case Some(db) => Put(s, p, Committed(e)).(db := db, chain := s.chain + [e])
  }

  /** Dropping the future releases the lock; a transaction already running goes on alone. */
  function AfterCancel(s: Node, p: nat): Node
    requires p in s.appliers
  {
    var a := s.appliers[p];
    s.(appliers := s.appliers - {p},
       lock := if Holds(a) then None else s.lock,
       orphans := if a.InTx? then s.orphans + [a.e] else s.orphans,
       unannounced := if a.Committed? then s.unannounced + {a.e.block.header.height} else s.unannounced)
  }

  function AfterOrphan(s: Node, i: nat): Node
    requires i < |s.orphans|
  {
    var e := s.orphans[i];
    var rest := s.orphans[..i] + s.orphans[i + 1..];
    match CommitTx(s.db, e)
    case None => s.(orphans := rest)
    case Some(db) =>
      s.(orphans := rest, db := db, chain := s.chain + [e], unannounced := s.unannounced + {e.block.header.height})
  }

  function NotifyAll(ws: map<nat, Waiter>): map<nat, Waiter> {
    map w | w in ws ::
      match ws[w]
      case Listening(h, _) => Listening(h, true)
      case Asleep(h, _) => Asleep(h, true)
      case other => other
  }

  ghost function Run(cfg: Config, start: Node, steps: seq<Step>): Option<Node> {
    if |steps| == 0 then Some(start)
    else
      match Run(cfg, start, steps[..|steps| - 1])
      case None => None
      case Some(s) => Next(cfg, s, steps[|steps| - 1])
  }

  // ---- The invariant ----

  /** Accepted on top of the blocks below its height, whatever has been committed since. */
  ghost predicate Pending(cfg: Config, chain: seq<Entry>, e: Entry, next: SealedState, nodes: Forest) {
    var n := e.block.header.height - 1;
    && 0 <= n <= |chain|
    && Acceptable(cfg, AsCoded, Blocks(chain)[..n], e)
    && Some(next) == NextState(cfg, StateAt(cfg, Blocks(chain)[..n]).value, e.block)
    && e.block.header.stateRoot in nodes
  }

  ghost predicate ApplierOk(cfg: Config, s: Node, a: Applier) {
    match a
    case SawHeight(e, h) => h <= |s.chain|
    case Checked(e, next) => Pending(cfg, s.chain, e, next, s.mem)
    case Flushed(e, next) => Pending(cfg, s.chain, e, next, s.disk)
    case InTx(e, next) => Pending(cfg, s.chain, e, next, s.disk)
    case Committed(e) => 1 <= e.block.header.height <= |s.chain| && s.chain[e.block.header.height - 1] == e
    case ApplierPanic => false
    case _ => true
  }

  /** Someone will still announce this height, or its announcer was dropped. */
  ghost predicate Pledged(s: Node, height: nat) {
    || height in s.unannounced
    || exists p :: p in s.appliers && s.appliers[p].Committed? && s.appliers[p].e.block.header.height == height
  }

  ghost predicate WaiterOk(cfg: Config, s: Node, x: Waiter) {
    match x
    case Listening(_, _) => true
    case Asleep(h, notified) => !notified && 1 <= h <= |s.chain| ==> Pledged(s, h)
    case Reading(h, b) => 1 <= h <= |s.chain| && b == s.chain[h - 1].block
    case Got(h, state) => 1 <= h <= |s.chain| && StateAt(cfg, Blocks(s.chain)[..h]) == Some(state)
    case WaiterPanic => false
  }

  ghost predicate Durable(cfg: Config, s: Node) {
    && StoreInv(cfg, s.chain, s.db, s.disk, map[])
    && Sound(cfg, s.mem) && Within(s.disk, s.mem)
  }

  ghost predicate OrphanOk(cfg: Config, s: Node, e: Entry) {
    exists next :: Pending(cfg, s.chain, e, next, s.disk)
  }

  ghost predicate Inv(cfg: Config, s: Node) {
    && Durable(cfg, s)
    && (forall p :: p in s.appliers ==> (Holds(s.appliers[p]) <==> s.lock == Some(p)))
    && (s.lock.Some? ==> s.lock.value in s.appliers)
    && (forall p :: p in s.appliers ==> ApplierOk(cfg, s, s.appliers[p]))
    && (forall w :: w in s.waiters ==> WaiterOk(cfg, s, s.waiters[w]))
    && (forall i :: 0 <= i < |s.orphans| ==> OrphanOk(cfg, s, s.orphans[i]))
  }
}
