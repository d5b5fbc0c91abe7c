/**
 * The worker pool of worker.c as a transition system: one dispatcher thread and one worker thread per slot, whose steps
 * are the lock regions of the code. Flag writes and the delivery of SIGINT are single steps.
 */
module WorkerPool {
  /** A function pointer and its argument. */
  datatype Job = Job(func: nat, arg: nat)

  /** The flags word, without FLAG_DONE. */
  datatype Flags = Flags(busy: bool, kill: bool)

  const NO_FLAGS := Flags(false, false)

  /**
   * Where a worker is: about to lock its slot (Top), asleep in the condition wait, woken and about to look at the flags
   * again, running the work item, back from it and about to clear FLAG_BUSY, or killed.
   */
  datatype WorkerPc = Top | Sleeping | Woken | Running | Returned | Dead

  /** A slot with its worker; ticket counts the job among all accepted ones and is known to the proofs only. */
  datatype Slot = Slot(flags: Flags, pc: WorkerPc, job: Job, ticket: nat)

  /**
   * Where the dispatcher is: between calls, at slot x of a sweep of worker_exec, at slot x of a scan of worker_wait that
   * has counted busy slots, at slot x of the first loop of worker_killbusy or past its busy test, or at slot x of the
   * second loop. A sweep or scan that has passed the last slot stands at x == count.
   */
  datatype DispatcherPc =
    | Idle
    | Exec(job: Job, x: nat)
    | Wait(x: nat, busy: nat)
    | Kill(x: nat)
    | KillHit(x: nat)
    | Renew(x: nat)

  /** A work item that ran to completion. */
  datatype Ran = Ran(ticket: nat, job: Job)

  /** accepted, ran and killed record the history: worker_exec calls that returned, items completed, items abandoned. */
  datatype State = State(slots: seq<Slot>, d: DispatcherPc, accepted: seq<Job>, ran: seq<Ran>, killed: seq<nat>)

  /** What happens next: a worker moves, the dispatcher starts a call or moves on in one, or a wait times out. */
  datatype Action =
    | Worker(i: nat)
    | StartExec(job: Job)
    | StartWait
    | StartKill
    | Advance
    | TimeOut

  /** worker_create_pool. */
  function Init(count: nat): State {
    State(seq(count, _ => Slot(NO_FLAGS, Top, Job(0, 0), 0)), Idle, [], [], [])
  }

  // ---------------------------------------------------------------------------------------------
  // The steps

  /** One lock region of the worker of slot i; the work item is read from the slot when it runs. */
  function MoveWorker(s: State, i: nat): State
    requires i < |s.slots|
  {
    var w := s.slots[i];
    match w.pc
    case Top => s.(slots := s.slots[i := w.(pc := if w.flags.busy then Running else Sleeping)])
    case Sleeping => s.(slots := s.slots[i := w.(pc := Woken)])
    case Woken => s.(slots := s.slots[i := w.(pc := if w.flags.busy then Running else Sleeping)])
    case Running => s.(slots := s.slots[i := w.(pc := Returned)], ran := s.ran + [Ran(w.ticket, w.job)])
    case Returned => s.(slots := s.slots[i := w.(pc := Top, flags := w.flags.(busy := false))])
    case Dead => s
  }

  /** The slot after worker_exec has put a job in it and signalled its condition. */
  function Assigned(w: Slot, job: Job, ticket: nat): Slot {
    Slot(w.flags.(busy := true), if w.pc == Sleeping then Woken else w.pc, job, ticket)
  }

  /** The job of the slot has been accepted and has not run. */
  predicate Pending(w: Slot) {
    w.flags.busy && w.pc != Returned && w.pc != Dead
  }

  /** One lock region of the dispatcher. */
  function MoveDispatcher(s: State): State {
    var n := |s.slots|;
    match s.d
    case Idle => s
    case Exec(job, x) =>
      if x >= n then s.(d := Exec(job, 0))
      else if s.slots[x].flags.busy then s.(d := Exec(job, x + 1))
      else s.(slots := s.slots[x := Assigned(s.slots[x], job, |s.accepted|)], accepted := s.accepted + [job], d := Idle)
    case Wait(x, busy) =>
      if x < n then s.(d := Wait(x + 1, if s.slots[x].flags.busy then busy + 1 else busy))
      else if busy == 0 then s.(d := Idle)
      else s.(d := Wait(0, 0))
    case Kill(x) =>
      if x >= n then s.(d := Renew(0))
      else if s.slots[x].flags.busy then s.(d := KillHit(x))
      else s.(d := Kill(x + 1))
    case KillHit(x) =>
      if x >= n then s
      else
        var w := s.slots[x];
        s.(slots := s.slots[x := w.(pc := Dead, flags := w.flags.(kill := true))], d := Kill(x + 1),
           killed := if Pending(w) then s.killed + [w.ticket] else s.killed)
    case Renew(x) =>
      if x >= n then s.(d := Idle)
      else if s.slots[x].flags.kill then s.(slots := s.slots[x := s.slots[x].(pc := Top, flags := NO_FLAGS)], d := Renew(x + 1))
      else s.(d := Renew(x + 1))
  }

  /** An action that is not possible changes nothing. */
  function Do(s: State, a: Action): State {
    match a
    case Worker(i) => if i < |s.slots| then MoveWorker(s, i) else s
    case StartExec(job) => if s.d == Idle then s.(d := Exec(job, 0)) else s
    case StartWait => if s.d == Idle then s.(d := Wait(0, 0)) else s
    case StartKill => if s.d == Idle then s.(d := Kill(0)) else s
    case Advance => MoveDispatcher(s)
    case TimeOut => if s.d.Wait? && s.d.x >= |s.slots| then s.(d := Idle) else s
  }

  function Run(s: State, actions: seq<Action>): State
    decreases |actions|
  {
    if actions == [] then s else Run(Do(s, actions[0]), actions[1..])
  }

  // ---------------------------------------------------------------------------------------------
  // What every run keeps

  /** The dispatcher is in worker_killbusy. */
  predicate Killing(d: DispatcherPc) {
    d.Kill? || d.KillHit? || d.Renew?
  }

  /** What is true of one slot in every reachable state; above all, that no worker sleeps while its slot is busy. */
  predicate SlotOk(w: Slot, accepted: seq<Job>) {
    (w.flags.busy ==> w.pc != Sleeping && w.ticket < |accepted| && accepted[w.ticket] == w.job) &&
    (w.pc == Running || w.pc == Returned ==> w.flags.busy) &&
    (w.flags.kill <==> w.pc == Dead)
  }

  /** How far the two loops of worker_killbusy, or a scan of worker_wait, have got. */
  predicate DispatcherOk(slots: seq<Slot>, d: DispatcherPc) {
    match d
    case Wait(x, busy) => x <= |slots| && (busy == 0 ==> forall i | 0 <= i < x :: !slots[i].flags.busy)
    case Kill(x) =>
      x <= |slots| && (forall i | 0 <= i < x :: slots[i].flags.busy ==> slots[i].flags.kill) &&
      forall i | x <= i < |slots| :: !slots[i].flags.kill
    case KillHit(x) =>
      x < |slots| && (forall i | 0 <= i < x :: slots[i].flags.busy ==> slots[i].flags.kill) &&
      forall i | x <= i < |slots| :: !slots[i].flags.kill
    case Renew(x) =>
      x <= |slots| && (forall i | 0 <= i < |slots| :: slots[i].flags.busy ==> slots[i].flags.kill) &&
      forall i | 0 <= i < x :: slots[i].flags == NO_FLAGS
    case _ => true
  }

  ghost predicate ControlInv(s: State) {
    (forall i | 0 <= i < |s.slots| :: SlotOk(s.slots[i], s.accepted)) &&
    (!Killing(s.d) ==> forall i | 0 <= i < |s.slots| :: !s.slots[i].flags.kill) &&
    DispatcherOk(s.slots, s.d)
  }

  lemma ControlKept(s: State, a: Action)
    requires ControlInv(s)
    ensures ControlInv(Do(s, a))
  {
    match a
    case Worker(i) => if i < |s.slots| { ControlKeptByWorker(s, i); }
    case Advance => ControlKeptByDispatcher(s);
    case _ =>
  }

  lemma ControlKeptByWorker(s: State, i: nat)
    requires ControlInv(s) && i < |s.slots|
    ensures ControlInv(MoveWorker(s, i))
  {
    var w, t := s.slots[i], MoveWorker(s, i);
    assert SlotOk(t.slots[i], t.accepted);
    assert forall k | 0 <= k < |s.slots| && k != i :: t.slots[k] == s.slots[k];
  }

  lemma SlotsKeptByDispatcher(s: State, i: nat)
    requires ControlInv(s) && i < |s.slots|
    ensures SlotOk(MoveDispatcher(s).slots[i], MoveDispatcher(s).accepted)
  {
    assert SlotOk(s.slots[i], s.accepted);
  }

  lemma ControlKeptByDispatcher(s: State)
    requires ControlInv(s)
    ensures ControlInv(MoveDispatcher(s))
  {
    var t := MoveDispatcher(s);
    forall i | 0 <= i < |t.slots| ensures SlotOk(t.slots[i], t.accepted) {
      SlotsKeptByDispatcher(s, i);
    }
  }

  // ---------------------------------------------------------------------------------------------
  // Conservation of jobs

  /** How often ticket k is pending in a slot. */
  function PendingCount(slots: seq<Slot>, k: nat): nat {
    if slots == [] then 0
    else PendingCount(slots[1..], k) + Holds(slots[0], k)
  }

  function Holds(w: Slot, k: nat): nat {
    if Pending(w) && w.ticket == k then 1 else 0
  }

  /** How often the job of ticket k has run. */
  function RanCount(ran: seq<Ran>, k: nat): nat {
    if ran == [] then 0 else RanCount(ran[..|ran| - 1], k) + if ran[|ran| - 1].ticket == k then 1 else 0
  }

  function KilledCount(killed: seq<nat>, k: nat): nat {
    if killed == [] then 0 else KilledCount(killed[..|killed| - 1], k) + if killed[|killed| - 1] == k then 1 else 0
  }

  /** In how many places the job of ticket k is: run, waiting in a slot, or abandoned. */
  function Places(s: State, k: nat): nat {
    RanCount(s.ran, k) + PendingCount(s.slots, k) + KilledCount(s.killed, k)
  }

  lemma {:induction false} PendingAfterUpdate(slots: seq<Slot>, i: nat, w: Slot, k: nat)
    requires i < |slots|
    ensures PendingCount(slots[i := w], k) == PendingCount(slots, k) - Holds(slots[i], k) + Holds(w, k)
  {
    var u := slots[i := w];
    if i == 0 {
      assert u[1..] == slots[1..];
    } else {
      assert u[1..] == slots[1..][i - 1 := w];
      PendingAfterUpdate(slots[1..], i - 1, w, k);
    }
  }

  lemma RanAppend(ran: seq<Ran>, r: Ran, k: nat)
    ensures RanCount(ran + [r], k) == RanCount(ran, k) + if r.ticket == k then 1 else 0
  {
    assert (ran + [r])[..|ran|] == ran;
  }

  lemma KilledAppend(killed: seq<nat>, ticket: nat, k: nat)
    ensures KilledCount(killed + [ticket], k) == KilledCount(killed, k) + if ticket == k then 1 else 0
  {
    assert (killed + [ticket])[..|killed|] == killed;
  }

  /** A worker's move changes where a job is, but not in how many places. */
  lemma PlacesKeptByWorker(s: State, i: nat, k: nat)
    requires ControlInv(s) && i < |s.slots|
    ensures Places(MoveWorker(s, i), k) == Places(s, k)
  {
    var w := s.slots[i];
    assert SlotOk(w, s.accepted);
    if w.pc != Dead {
      PendingAfterUpdate(s.slots, i, MoveWorker(s, i).slots[i], k);
    }
    if w.pc == Running {
      RanAppend(s.ran, Ran(w.ticket, w.job), k);
    }
  }

  /** The dispatcher's moves place each job when they accept it, and never again. */
  lemma PlacesKeptByDispatcher(s: State, k: nat)
    requires ControlInv(s)
    ensures var t := MoveDispatcher(s);
            Places(t, k) == Places(s, k) + if |s.accepted| == k < |t.accepted| then 1 else 0
  {
    var t := MoveDispatcher(s);
    var x := if s.d.Idle? then 0 else s.d.x;
    if x < |s.slots| {
      assert SlotOk(s.slots[x], s.accepted);
      PendingAfterUpdate(s.slots, x, t.slots[x], k);
      assert s.slots[x := t.slots[x]] == t.slots;
      if s.d.KillHit? {
        KilledAppend(s.killed, s.slots[x].ticket, k);
      }
    }
  }

  /** Every accepted job is in exactly one place, and what ran is what was accepted. */
  ghost predicate JobsInv(s: State) {
    (forall k: nat :: Places(s, k) == if k < |s.accepted| then 1 else 0) &&
    forall k | 0 <= k < |s.ran| :: s.ran[k].ticket < |s.accepted| && s.ran[k].job == s.accepted[s.ran[k].ticket]
  }

  lemma JobsKept(s: State, a: Action)
    requires ControlInv(s) && JobsInv(s)
    ensures JobsInv(Do(s, a))
  {
    var t := Do(s, a);
    forall k: nat ensures Places(t, k) == if k < |t.accepted| then 1 else 0 {
      assert Places(s, k) == if k < |s.accepted| then 1 else 0;
      if a.Worker? && a.i < |s.slots| {
        PlacesKeptByWorker(s, a.i, k);
      } else if a.Advance? {
        PlacesKeptByDispatcher(s, k);
      }
    }
    if a.Worker? && a.i < |s.slots| {
      assert SlotOk(s.slots[a.i], s.accepted);
    }
  }

  lemma {:induction false} NothingPending(slots: seq<Slot>, k: nat)
    requires forall i | 0 <= i < |slots| :: !Pending(slots[i])
    ensures PendingCount(slots, k) == 0
  {
    if slots != [] {
      NothingPending(slots[1..], k);
    }
  }

  lemma InitHolds(count: nat)
    ensures ControlInv(Init(count)) && JobsInv(Init(count))
  {
    forall k: nat ensures Places(Init(count), k) == 0 {
      NothingPending(Init(count).slots, k);
    }
  }

  lemma {:induction false} RunKeeps(s: State, actions: seq<Action>)
    requires ControlInv(s) && JobsInv(s)
    ensures ControlInv(Run(s, actions)) && JobsInv(Run(s, actions))
    decreases |actions|
  {
    if actions != [] {
      ControlKept(s, actions[0]);
      JobsKept(s, actions[0]);
      RunKeeps(Do(s, actions[0]), actions[1..]);
    }
  }

  // ---------------------------------------------------------------------------------------------
  // The guarantees over all runs

  function Reached(count: nat, actions: seq<Action>): State {
    Run(Init(count), actions)
  }

  /** In every interleaving an accepted job is in exactly one place, and each completed item is one that was accepted. */
  lemma JobsAreConserved(count: nat, actions: seq<Action>, k: nat)
    ensures var s := Reached(count, actions);
            RanCount(s.ran, k) + PendingCount(s.slots, k) + KilledCount(s.killed, k) == if k < |s.accepted| then 1 else 0
    ensures var s := Reached(count, actions);
            forall r | r in s.ran :: r.ticket < |s.accepted| && r.job == s.accepted[r.ticket]
  {
    InitHolds(count);
    RunKeeps(Init(count), actions);
    var s := Reached(count, actions);
    assert Places(s, k) == if k < |s.accepted| then 1 else 0;
  }

  /** Only worker_killbusy abandons jobs. */
  lemma {:induction false} NoKillNoLoss(s: State, actions: seq<Action>)
    requires !Killing(s.d) && StartKill !in actions
    ensures Run(s, actions).killed == s.killed && !Killing(Run(s, actions).d)
    decreases |actions|
  {
    if actions != [] {
      assert actions[0] in actions && forall a | a in actions[1..] :: a in actions;
      NoKillNoLoss(Do(s, actions[0]), actions[1..]);
    }
  }

  /** How many slots hold a job that has not run. */
  function PendingSlots(slots: seq<Slot>): nat {
    if slots == [] then 0 else PendingSlots(slots[1..]) + if Pending(slots[0]) then 1 else 0
  }

  lemma {:induction false} PendingSlotsAfterUpdate(slots: seq<Slot>, i: nat, w: Slot)
    requires i < |slots|
    ensures PendingSlots(slots[i := w]) ==
            PendingSlots(slots) - (if Pending(slots[i]) then 1 else 0) + (if Pending(w) then 1 else 0)
  {
    var u := slots[i := w];
    if i == 0 {
      assert u[1..] == slots[1..];
    } else {
      assert u[1..] == slots[1..][i - 1 := w];
      PendingSlotsAfterUpdate(slots[1..], i - 1, w);
    }
  }

  /** The books balance: accepted jobs are the completed, the pending and the abandoned ones. */
  predicate Balanced(s: State) {
    |s.accepted| == |s.ran| + PendingSlots(s.slots) + |s.killed|
  }

  lemma BalanceKept(s: State, a: Action)
    requires ControlInv(s) && Balanced(s)
    ensures Balanced(Do(s, a))
  {
    var t := Do(s, a);
    var x := match a case Worker(i) => i case Advance => (if s.d.Idle? then 0 else s.d.x) case _ => 0;
    if x < |s.slots| {
      assert SlotOk(s.slots[x], s.accepted);
      PendingSlotsAfterUpdate(s.slots, x, t.slots[x]);
      assert s.slots[x := t.slots[x]] == t.slots;
    }
  }

  lemma {:induction false} RunBalances(s: State, actions: seq<Action>)
    requires ControlInv(s) && Balanced(s)
    ensures Balanced(Run(s, actions))
    decreases |actions|
  {
    if actions != [] {
      ControlKept(s, actions[0]);
      BalanceKept(s, actions[0]);
      RunBalances(Do(s, actions[0]), actions[1..]);
    }
  }

  lemma {:induction false} NoPendingSlots(slots: seq<Slot>)
    ensures PendingSlots(slots) == 0 <==> forall i | 0 <= i < |slots| :: !Pending(slots[i])
  {
    if slots != [] {
      NoPendingSlots(slots[1..]);
      if forall i | 0 <= i < |slots[1..]| :: !Pending(slots[1..][i]) {
        assert forall i | 1 <= i < |slots| :: slots[i] == slots[1..][i - 1];
      }
    }
  }

  /** Without worker_killbusy, the accepted jobs are those that completed and those that busy slots still hold. */
  lemma AcceptedIsRanPlusPending(count: nat, actions: seq<Action>)
    requires StartKill !in actions
    ensures var s := Reached(count, actions); |s.accepted| == |s.ran| + PendingSlots(s.slots)
  {
    InitHolds(count);
    NoPendingSlots(Init(count).slots);
    RunBalances(Init(count), actions);
    NoKillNoLoss(Init(count), actions);
  }

  /** No wake-up is lost: the worker of a busy slot is never asleep in the condition wait. */
  lemma NoLostWakeup(count: nat, actions: seq<Action>, i: nat)
    requires i < |Reached(count, actions).slots|
    ensures var w := Reached(count, actions).slots[i]; w.flags.busy ==> w.pc != Sleeping
  {
    InitHolds(count);
    RunKeeps(Init(count), actions);
    assert SlotOk(Reached(count, actions).slots[i], Reached(count, actions).accepted);
  }

  /** How many moves the worker of a slot needs to be done with its job. */
  function MovesLeft(w: Slot): nat {
    if !w.flags.busy || w.pc == Dead then 0
    else if w.pc == Running then 2
    else if w.pc == Returned then 1
    else 3
  }

  /**
   * A busy slot is served: each move of its own worker brings it closer to being free, and nothing but a kill holds it
   * up or changes its job.
   */
  lemma BusySlotProgresses(s: State, a: Action, i: nat)
    requires ControlInv(s) && i < |s.slots| && s.slots[i].flags.busy && s.slots[i].pc != Dead
    ensures var w, w' := s.slots[i], Do(s, a).slots[i];
            if a == Worker(i) then MovesLeft(w') == MovesLeft(w) - 1 && w'.job == w.job
            else w' == w || (s.d == KillHit(i) && w'.pc == Dead)
  {
    assert SlotOk(s.slots[i], s.accepted);
  }

  /** When worker_wait returns, unless by its time-out, every job accepted so far has completed or was killed. */
  lemma WaitMeansDone(count: nat, actions: seq<Action>, k: nat)
    requires var s := Reached(count, actions); s.d.Wait? && Do(s, Advance).d == Idle && k < |s.accepted|
    ensures var s := Reached(count, actions);
            RanCount(s.ran, k) + KilledCount(s.killed, k) == 1 && |s.ran| + |s.killed| == |s.accepted| &&
            (StartKill !in actions ==> RanCount(s.ran, k) == 1) && forall i | 0 <= i < |s.slots| :: !s.slots[i].flags.busy
  {
    InitHolds(count);
    RunKeeps(Init(count), actions);
    NoPendingSlots(Init(count).slots);
    RunBalances(Init(count), actions);
    var s := Reached(count, actions);
    NothingPending(s.slots, k);
    NoPendingSlots(s.slots);
    assert Places(s, k) == 1;
    if StartKill !in actions {
      NoKillNoLoss(Init(count), actions);
    }
  }

  // ---------------------------------------------------------------------------------------------
  // The client: pack_update_all (pack.c), round after round

  /** Which call comes next: the exec for pack number k, the wait, the kill, or the next round. */
  datatype Phase = Submit(k: nat) | Await | Cleanup | Finished

  /** The pool, the client, the slots that have been given a job in this round, and how many rounds came before it. */
  datatype Client = Client(pool: State, phase: Phase, used: set<nat>, round: nat)

  /** A worker moves, or the client's thread does; timeout lets a wait with busy slots end. */
  datatype ClientAction = WorkerMoves(i: nat) | ClientMoves(timeout: bool)

  /** The next call of the client, once the previous one has returned. */
  function NextCall(c: Client, packs: seq<Job>): Client {
    match c.phase
    case Submit(k) =>
      if k < |packs| then c.(pool := Do(c.pool, StartExec(packs[k])), phase := Submit(k + 1))
      else c.(pool := Do(c.pool, StartWait), phase := Await)
    case Await => c.(pool := Do(c.pool, StartKill), phase := Cleanup)
    case Cleanup => c.(phase := Finished)
    case Finished => c.(phase := Submit(0), used := {}, round := c.round + 1)
  }

  function ClientDo(c: Client, packs: seq<Job>, a: ClientAction): Client {
    match a
    case WorkerMoves(i) => c.(pool := Do(c.pool, Worker(i)))
    case ClientMoves(timeout) =>
      if c.pool.d == Idle then NextCall(c, packs)
      else
        var next := Do(c.pool, if timeout && c.pool.d.Wait? && c.pool.d.x >= |c.pool.slots| then TimeOut else Advance);
        c.(pool := next, used := if c.pool.d.Exec? && next.d == Idle then c.used + {c.pool.d.x} else c.used)
  }

  function ClientRun(c: Client, packs: seq<Job>, actions: seq<ClientAction>): Client
    decreases |actions|
  {
    if actions == [] then c else ClientRun(ClientDo(c, packs, actions[0]), packs, actions[1..])
  }

  /** The pool before the first round. */
  function ClientInit(count: nat): Client {
    Client(Init(count), Submit(0), {}, 0)
  }

  /** No flag is set in any slot. */
  predicate AllIdle(slots: seq<Slot>) {
    forall i | 0 <= i < |slots| :: slots[i].flags == NO_FLAGS
  }

  /** How many jobs of this round have been handed over or are being handed over. */
  function Started(c: Client): nat {
    if c.phase.Submit? then c.phase.k else 0
  }

  ghost predicate ClientInv(c: Client, packs: seq<Job>) {
    ControlInv(c.pool) && |packs| <= |c.pool.slots| &&
    (c.phase.Submit? ==>
       c.phase.k <= |packs| && (c.pool.d == Idle || (c.pool.d.Exec? && c.phase.k > 0)) &&
       |c.used| <= (if c.pool.d == Idle then c.phase.k else c.phase.k - 1) &&
       (forall i | 0 <= i < |c.pool.slots| && i !in c.used :: !c.pool.slots[i].flags.busy) &&
       (c.pool.d.Exec? ==> c.pool.d.x < |c.pool.slots| && forall i | 0 <= i < c.pool.d.x :: i in c.used)) &&
    (c.phase == Await ==> c.pool.d == Idle || c.pool.d.Wait?) &&
    (c.phase == Cleanup ==> Killing(c.pool.d) || (c.pool.d == Idle && AllIdle(c.pool.slots))) &&
    (c.phase == Finished ==> c.pool.d == Idle && AllIdle(c.pool.slots))
  }

  /** The n first indices. */
  function Below(n: nat): (r: set<nat>)
    ensures |r| == n && forall i | i in r :: i < n
  {
    if n == 0 then {} else Below(n - 1) + {n - 1}
  }

  lemma {:induction false} BelowWithin(n: nat, used: set<nat>)
    requires forall i: nat | i < n :: i in used
    ensures Below(n) <= used
  {
    if n > 0 {
      BelowWithin(n - 1, used);
    }
  }

  /** Fewer than all slots have been used, so they cannot all have been. */
  lemma NotAllUsed(used: set<nat>, n: nat)
    requires forall i: nat | i < n :: i in used
    ensures |used| >= n
  {
    BelowWithin(n, used);
    assert used == Below(n) + (used - Below(n));
  }

  lemma ClientInitHolds(count: nat, packs: seq<Job>)
    requires |packs| <= count
    ensures ClientInv(ClientInit(count), packs)
  {
    InitHolds(count);
  }

  lemma ClientKeeps(c: Client, packs: seq<Job>, a: ClientAction)
    requires ClientInv(c, packs)
    ensures ClientInv(ClientDo(c, packs, a), packs)
  {
    match a
    case WorkerMoves(i) =>
      ControlKept(c.pool, Worker(i));
      FlagsOnlyFall(c.pool, i);
    case ClientMoves(timeout) =>
      if c.pool.d == Idle {
      } else if timeout && c.pool.d.Wait? && c.pool.d.x >= |c.pool.slots| {
        ControlKept(c.pool, TimeOut);
      } else {
        ControlKept(c.pool, Advance);
        if c.phase.Submit? {
          ExecKeeps(c, packs);
        }
      }
  }

  /** A worker's move sets no flag. */
  lemma FlagsOnlyFall(s: State, i: nat)
    requires ControlInv(s)
    ensures var t := Do(s, Worker(i));
            t.d == s.d && |t.slots| == |s.slots| &&
            (forall k | 0 <= k < |s.slots| :: t.slots[k].flags.busy ==> s.slots[k].flags.busy) &&
            (forall k | 0 <= k < |s.slots| :: t.slots[k].flags.kill == s.slots[k].flags.kill)
  {
  }

  /** A sweep of worker_exec passes only slots used in this round, so it meets a free one before the last. */
  lemma ExecKeeps(c: Client, packs: seq<Job>)
    requires ClientInv(c, packs) && c.phase.Submit? && c.pool.d.Exec?
    requires ControlInv(MoveDispatcher(c.pool))
    ensures ClientInv(ClientDo(c, packs, ClientMoves(false)), packs)
  {
    var x, n := c.pool.d.x, |c.pool.slots|;
    if c.pool.slots[x].flags.busy {
      assert x in c.used;
      if x + 1 == n {
        NotAllUsed(c.used, n);
      }
    } else {
      assert |c.used + {x}| <= |c.used| + 1;
    }
  }

  lemma {:induction false} ClientRunKeeps(c: Client, packs: seq<Job>, actions: seq<ClientAction>)
    requires ClientInv(c, packs)
    ensures ClientInv(ClientRun(c, packs, actions), packs)
    decreases |actions|
  {
    if actions != [] {
      ClientKeeps(c, packs, actions[0]);
      ClientRunKeeps(ClientDo(c, packs, actions[0]), packs, actions[1..]);
    }
  }

  /**
   * With as many slots as packs, in every interleaving of any number of rounds: no sweep of worker_exec ever passes the
   * last slot, and a round ends, after worker_killbusy, with every flags word zero.
   */
  lemma UpdateRounds(count: nat, packs: seq<Job>, actions: seq<ClientAction>)
    requires |packs| <= count
    ensures var c := ClientRun(ClientInit(count), packs, actions);
            (c.pool.d.Exec? ==> c.pool.d.x < |c.pool.slots|) &&
            (c.phase == Finished ==> AllIdle(c.pool.slots))
  {
    ClientInitHolds(count, packs);
    ClientRunKeeps(ClientInit(count), packs, actions);
  }

  lemma {:induction false} ClientRunKeepsJobs(c: Client, packs: seq<Job>, actions: seq<ClientAction>)
    requires ControlInv(c.pool) && JobsInv(c.pool)
    ensures ControlInv(ClientRun(c, packs, actions).pool) && JobsInv(ClientRun(c, packs, actions).pool)
    decreases |actions|
  {
    if actions != [] {
      var next := ClientDo(c, packs, actions[0]);
      if next.pool != c.pool {
        var step := PoolAction(c, packs, actions[0]);
        ControlKept(c.pool, step);
        JobsKept(c.pool, step);
      }
      ClientRunKeepsJobs(next, packs, actions[1..]);
    }
  }

  /** The step of the pool behind a step of the client. */
  lemma PoolAction(c: Client, packs: seq<Job>, a: ClientAction) returns (step: Action)
    requires ClientDo(c, packs, a).pool != c.pool
    ensures ClientDo(c, packs, a).pool == Do(c.pool, step)
  {
    match a
    case WorkerMoves(i) => step := Worker(i);
    case ClientMoves(timeout) =>
      if c.pool.d == Idle {
        step := if c.phase == Await then StartKill else if c.phase.k < |packs| then StartExec(packs[c.phase.k]) else StartWait;
      } else {
        step := if timeout && c.pool.d.Wait? && c.pool.d.x >= |c.pool.slots| then TimeOut else Advance;
      }
  }

  /** The packs, once for every round. */
  function Repeated(packs: seq<Job>, rounds: nat): (r: seq<Job>)
    ensures |r| == rounds * |packs|
    decreases rounds
  {
    if rounds == 0 then [] else Repeated(packs, rounds - 1) + packs
  }

  lemma {:induction false} RepeatedAt(packs: seq<Job>, rounds: nat, r: nat, j: nat)
    requires r < rounds && j < |packs|
    ensures 0 <= r * |packs| + j < rounds * |packs| && Repeated(packs, rounds)[r * |packs| + j] == packs[j]
    decreases rounds
  {
    if r < rounds - 1 {
      RepeatedAt(packs, rounds - 1, r, j);
    }
  }

  /** What the pool has been given: all packs in each round before this one, and those of this round up to where it is. */
  ghost predicate HandedOver(c: Client, packs: seq<Job>) {
    if c.phase.Submit? then
      c.phase.k <= |packs| &&
      if c.pool.d.Exec? then
        c.phase.k > 0 && c.pool.d.job == packs[c.phase.k - 1] &&
        c.pool.accepted == Repeated(packs, c.round) + packs[..c.phase.k - 1]
      else c.pool.accepted == Repeated(packs, c.round) + packs[..c.phase.k]
    else c.pool.accepted == Repeated(packs, c.round + 1)
  }

  lemma AcceptsNext(base: seq<Job>, packs: seq<Job>, k: nat)
    requires 0 < k <= |packs|
    ensures base + packs[..k - 1] + [packs[k - 1]] == base + packs[..k]
  {
  }

  lemma HandedOverByExec(c: Client, packs: seq<Job>, timeout: bool)
    requires ClientInv(c, packs) && HandedOver(c, packs) && c.phase.Submit? && c.pool.d.Exec?
    ensures HandedOver(ClientDo(c, packs, ClientMoves(timeout)), packs)
  {
    AcceptsNext(Repeated(packs, c.round), packs, c.phase.k);
  }

  lemma HandedOverByNextCall(c: Client, packs: seq<Job>)
    requires HandedOver(c, packs) && c.pool.d == Idle
    ensures HandedOver(NextCall(c, packs), packs)
  {
    assert packs[..|packs|] == packs;
    assert Repeated(packs, c.round + 1) + packs[..0] == Repeated(packs, c.round + 1);
  }

  lemma OnlyExecAccepts(s: State)
    requires !s.d.Exec?
    ensures MoveDispatcher(s).accepted == s.accepted
  {
  }

  lemma HandedOverKept(c: Client, packs: seq<Job>, a: ClientAction)
    requires ClientInv(c, packs) && HandedOver(c, packs)
    ensures HandedOver(ClientDo(c, packs, a), packs)
  {
    if a.ClientMoves? {
      if c.pool.d == Idle {
        HandedOverByNextCall(c, packs);
      } else if c.phase.Submit? {
        HandedOverByExec(c, packs, a.timeout);
      } else {
        OnlyExecAccepts(c.pool);
      }
    }
  }

  lemma {:induction false} RunKeepsHandedOver(c: Client, packs: seq<Job>, actions: seq<ClientAction>)
    requires ClientInv(c, packs) && HandedOver(c, packs)
    ensures HandedOver(ClientRun(c, packs, actions), packs)
    decreases |actions|
  {
    if actions != [] {
      ClientKeeps(c, packs, actions[0]);
      HandedOverKept(c, packs, actions[0]);
      RunKeepsHandedOver(ClientDo(c, packs, actions[0]), packs, actions[1..]);
    }
  }

  /**
   * In every interleaving the jobs accepted are the packs in their order, once for every round: all of them in the rounds
   * before, and in this round those handed over so far, the last of which may still be looking for a slot.
   */
  lemma EveryPackInItsTurn(count: nat, packs: seq<Job>, actions: seq<ClientAction>)
    requires |packs| <= count
    ensures var c := ClientRun(ClientInit(count), packs, actions);
            (!c.phase.Submit? ==> c.pool.accepted == Repeated(packs, c.round + 1)) &&
            (c.phase.Submit? && c.pool.d == Idle ==>
               c.phase.k <= |packs| && c.pool.accepted == Repeated(packs, c.round) + packs[..c.phase.k]) &&
            (c.phase.Submit? && c.pool.d != Idle ==>
               0 < c.phase.k <= |packs| && c.pool.accepted == Repeated(packs, c.round) + packs[..c.phase.k - 1])
  {
    ClientInitHolds(count, packs);
    ClientRunKeeps(ClientInit(count), packs, actions);
    assert Repeated(packs, 0) + packs[..0] == [];
    RunKeepsHandedOver(ClientInit(count), packs, actions);
  }

  /** When a round is over, every job handed over in it or before has either completed once or been killed once. */
  lemma RoundSettlesJobs(count: nat, packs: seq<Job>, actions: seq<ClientAction>, k: nat)
    requires |packs| <= count
    requires var c := ClientRun(ClientInit(count), packs, actions); c.phase == Finished && k < |c.pool.accepted|
    ensures var c := ClientRun(ClientInit(count), packs, actions); RanCount(c.pool.ran, k) + KilledCount(c.pool.killed, k) == 1
  {
    InitHolds(count);
    UpdateRounds(count, packs, actions);
    ClientRunKeepsJobs(ClientInit(count), packs, actions);
    var s := ClientRun(ClientInit(count), packs, actions).pool;
    NothingPending(s.slots, k);
    assert Places(s, k) == 1;
  }

  /** When a round is over, each pack has in each round so far been updated once or killed once. */
  lemma RoundUpdatesEveryPack(count: nat, packs: seq<Job>, actions: seq<ClientAction>, r: nat, j: nat)
    requires |packs| <= count
    requires var c := ClientRun(ClientInit(count), packs, actions); c.phase == Finished && r <= c.round && j < |packs|
    ensures var c := ClientRun(ClientInit(count), packs, actions);
            var k: nat := r * |packs| + j;
            k < |c.pool.accepted| && c.pool.accepted[k] == packs[j] &&
            RanCount(c.pool.ran, k) + KilledCount(c.pool.killed, k) == 1 &&
            forall x | x in c.pool.ran && x.ticket == k :: x.job == packs[j]
  {
    var c := ClientRun(ClientInit(count), packs, actions);
    EveryPackInItsTurn(count, packs, actions);
    RepeatedAt(packs, c.round + 1, r, j);
    RoundSettlesJobs(count, packs, actions, r * |packs| + j);
    InitHolds(count);
    ClientRunKeepsJobs(ClientInit(count), packs, actions);
  }

  // ---------------------------------------------------------------------------------------------
  // Rounds without a time-out

  predicate NoneBusy(slots: seq<Slot>) {
    forall i | 0 <= i < |slots| :: !slots[i].flags.busy
  }

  /** Nothing has been killed, and nothing is left to be killed once the wait has returned. */
  ghost predicate Unhurried(c: Client) {
    c.pool.killed == [] && !c.pool.d.KillHit? &&
    (c.phase == Cleanup || (c.phase == Await && c.pool.d == Idle) ==> NoneBusy(c.pool.slots))
  }

  lemma UnhurriedKept(c: Client, packs: seq<Job>, a: ClientAction)
    requires ClientInv(c, packs) && Unhurried(c) && a != ClientMoves(true)
    ensures Unhurried(ClientDo(c, packs, a))
  {
    if a.WorkerMoves? {
      FlagsOnlyFall(c.pool, a.i);
    }
  }

  lemma {:induction false} RunKeepsUnhurried(c: Client, packs: seq<Job>, actions: seq<ClientAction>)
    requires ClientInv(c, packs) && Unhurried(c) && ClientMoves(true) !in actions
    ensures Unhurried(ClientRun(c, packs, actions))
    decreases |actions|
  {
    if actions != [] {
      assert actions[0] in actions && forall a | a in actions[1..] :: a in actions;
      ClientKeeps(c, packs, actions[0]);
      UnhurriedKept(c, packs, actions[0]);
      RunKeepsUnhurried(ClientDo(c, packs, actions[0]), packs, actions[1..]);
    }
  }

  lemma {:induction false} NoneKilled(k: nat)
    ensures KilledCount([], k) == 0
  {
  }

  /** As long as no wait times out nothing is killed, so each round updates every pack exactly once. */
  lemma WithoutTimeOutAllAreUpdated(count: nat, packs: seq<Job>, actions: seq<ClientAction>, r: nat, j: nat)
    requires |packs| <= count && ClientMoves(true) !in actions
    requires var c := ClientRun(ClientInit(count), packs, actions); c.phase == Finished && r <= c.round && j < |packs|
    ensures var c := ClientRun(ClientInit(count), packs, actions);
            c.pool.killed == [] && RanCount(c.pool.ran, r * |packs| + j) == 1
  {
    ClientInitHolds(count, packs);
    RunKeepsUnhurried(ClientInit(count), packs, actions);
    RoundUpdatesEveryPack(count, packs, actions, r, j);
    NoneKilled(r * |packs| + j);
  }

  // ---------------------------------------------------------------------------------------------
  // Every round ends

  /** A bound on the steps of the client that are left in its round, if its wait does not go on beyond one scan. */
  function StepsLeft(c: Client, packs: seq<Job>): int {
    var n, d := |c.pool.slots|, c.pool.d;
    match c.phase
    case Submit(k) =>
      4 * n + 6 + (|packs| - k) * (n + 2) + if d.Exec? then 1 + n - d.x else 0
    case Await => 3 * n + 4 + if d.Wait? then 1 + n - d.x else 0
    case Cleanup =>
      if d.Kill? then n + 3 + 2 * (n - d.x)
      else if d.KillHit? then n + 2 + 2 * (n - d.x)
      else if d.Renew? then 2 + n - d.x
      else 1
    case Finished => 0
  }

  lemma MoreToSubmit(left: nat, n: nat)
    requires left > 0
    ensures left * (n + 2) == (left - 1) * (n + 2) + n + 2
  {
  }

  lemma NoneLeftToSubmit(left: nat, n: nat)
    ensures left * (n + 2) >= 0
  {
  }

  lemma SubmitGoesOn(c: Client, packs: seq<Job>, timeout: bool)
    requires ClientInv(c, packs) && c.phase.Submit?
    ensures 0 <= StepsLeft(ClientDo(c, packs, ClientMoves(timeout)), packs) < StepsLeft(c, packs)
  {
    var n, next := |c.pool.slots|, ClientDo(c, packs, ClientMoves(timeout));
    ClientKeeps(c, packs, ClientMoves(timeout));
    NoneLeftToSubmit(|packs| - c.phase.k, n);
    if c.phase.k < |packs| {
      MoreToSubmit(|packs| - c.phase.k, n);
      NoneLeftToSubmit(|packs| - c.phase.k - 1, n);
    }
  }

  /** The scan of worker_wait is over and has counted busy slots, so it starts again unless its time is over. */
  predicate WaitsAgain(c: Client, timeout: bool) {
    c.pool.d.Wait? && c.pool.d.x >= |c.pool.slots| && c.pool.d.busy > 0 && !timeout
  }

  /** No step of a worker holds the client up, and each step of its own but one more scan takes it closer to the end of its round. */
  lemma RoundsGoOn(c: Client, packs: seq<Job>, a: ClientAction)
    requires ClientInv(c, packs) && c.phase != Finished
    ensures a.WorkerMoves? ==> StepsLeft(ClientDo(c, packs, a), packs) == StepsLeft(c, packs)
    ensures a.ClientMoves? && !WaitsAgain(c, a.timeout) ==>
              0 <= StepsLeft(ClientDo(c, packs, a), packs) < StepsLeft(c, packs)
  {
    if a.ClientMoves? && c.phase.Submit? {
      SubmitGoesOn(c, packs, a.timeout);
    }
  }

  function Advances(n: nat): seq<Action> {
    if n == 0 then [] else [Advance] + Advances(n - 1)
  }

  /** One scan is enough when no slot is busy. */
  lemma {:induction false} QuietWaitReturns(s: State, x: nat)
    requires NoneBusy(s.slots) && s.d == Wait(x, 0) && x <= |s.slots|
    ensures Run(s, Advances(|s.slots| - x + 1)) == s.(d := Idle)
    decreases |s.slots| - x
  {
    if x < |s.slots| {
      QuietWaitReturns(MoveDispatcher(s), x + 1);
      assert Advances(|s.slots| - x + 1)[1..] == Advances(|s.slots| - x);
    } else {
      assert Advances(1)[1..] == [];
      assert Run(MoveDispatcher(s), []) == MoveDispatcher(s);
    }
  }
}
