/**
 The recursive spin lock of src/core/qp_ipc_core.c as interleaved steps: any number of threads of one process,
 each reading or writing one shared field at a time.
 */
module SpinLock {
  import opened Common

  type Tid = n: nat | 0 < n witness 1

  datatype Op = Lock | TryLock | Unlock

  /** Where a thread is; the name says what its next step does. */
  datatype Pc =
    | Idle
    // qp_lock_lock and qp_lock_trylock
    | ReadCounter(try: bool) | ReadThread(try: bool) | ReadProcess(try: bool) | AddAgain
    | Swap(try: bool) | WriteThread | WriteProcess | AddFirst
    // qp_lock_unlock
    | CheckCounter | CheckThread | CheckProcess | Subtract | Recheck | ClearThread | ClearProcess | SwapBack

  /** What the last operation returned. */
  datatype Result = Running | Success | Error

  /** `depth`: how often this thread has locked without unlocking, which the source leaves to its callers to know. */
  datatype Local = Local(pc: Pc, depth: nat, result: Result)

  /** `process` is the process id once published, else 0. */
  datatype State = State(spin: nat, thread: nat, process: nat, counter: nat, locals: map<Tid, Local>)

  const PID: nat := 1

  function Goto(s: State, t: Tid, pc: Pc): (r: State)
    requires t in s.locals
  {
    s.(locals := s.locals[t := s.locals[t].(pc := pc, result := Running)])
  }

  function Return(s: State, t: Tid, depth: nat, result: Result): (r: State)
    requires t in s.locals
  {
    s.(locals := s.locals[t := Local(Idle, depth, result)])
  }

  function Begin(op: Op): (r: Pc) {
    match op case Lock => ReadCounter(false) case TryLock => ReadCounter(true) case Unlock => CheckCounter
  }

  /** The next step of thread `t`; `op` is what it calls if it is idle. */
  function Step(s: State, t: Tid, op: Op): (r: State)
    requires t in s.locals
  {
    var me := s.locals[t];
    match me.pc
    case Idle => Goto(s, t, Begin(op))
    case ReadCounter(try) => Goto(s, t, if s.counter != 0 then ReadThread(try) else Swap(try))
    case ReadThread(try) => Goto(s, t, if s.thread == t then ReadProcess(try) else Swap(try))
    case ReadProcess(try) => Goto(s, t, if s.process == PID then AddAgain else Swap(try))
    case AddAgain => Return(s.(counter := s.counter + 1), t, me.depth + 1, Success)
    case Swap(try) =>
      if s.spin == 0 then Goto(s.(spin := 1), t, WriteThread)
      else if try then Return(s, t, me.depth, Error)
      else Goto(s, t, Swap(false))
    case WriteThread => Goto(s.(thread := t), t, WriteProcess)
    case WriteProcess => Goto(s.(process := PID), t, AddFirst)
    case AddFirst => Return(s.(counter := s.counter + 1), t, me.depth + 1, Success)
    case CheckCounter => if s.counter < 1 then Return(s, t, me.depth, Error) else Goto(s, t, CheckThread)
    case CheckThread => if s.thread == t then Goto(s, t, CheckProcess) else Return(s, t, me.depth, Error)
    case CheckProcess => if s.process == PID then Goto(s, t, Subtract) else Return(s, t, me.depth, Error)
    case Subtract =>
      var u := s.(counter := if s.counter == 0 then 0 else s.counter - 1);  // never 0 here: see `Inv`
      var left := if me.depth == 0 then 0 else me.depth - 1;
      u.(locals := u.locals[t := Local(Recheck, left, Running)])
    case Recheck => if s.counter != 0 then Return(s, t, me.depth, Success) else Goto(s, t, ClearThread)
    case ClearThread => Goto(s.(thread := 0), t, ClearProcess)
    case ClearProcess => Goto(s.(process := 0), t, SwapBack)
    case SwapBack => if s.spin == 1 then Return(s.(spin := 0), t, me.depth, Success) else Return(s, t, me.depth, Error)
  }

  /** A fresh lock, any number of threads. */
  predicate Init(s: State) {
    && s.spin == 0 && s.thread == 0 && s.process == 0 && s.counter == 0
    && forall t <- s.locals :: s.locals[t] == Local(Idle, 0, Success)
  }

  /** A schedule: whose step is next, and what that thread calls if it is idle. */
  type Schedule = seq<(Tid, Op)>

  predicate Fits(s: State, sched: Schedule) { forall e <- sched :: e.0 in s.locals }

  function Run(s: State, sched: Schedule): (r: State)
    requires Fits(s, sched)
    decreases |sched|
  {
    if sched == [] then s
    else
      var u := Step(s, sched[0].0, sched[0].1);
      assert u.locals.Keys == s.locals.Keys;
      Run(u, sched[1..])
  }

  // ---------- the invariant ----------

  /** Between winning the swap and swapping back. */
  predicate Holds(me: Local) {
    || 0 < me.depth
    || me.pc.WriteThread? || me.pc.WriteProcess? || me.pc.AddFirst?
    || me.pc.Recheck? || me.pc.ClearThread? || me.pc.ClearProcess? || me.pc.SwapBack?
  }

  /** A thread's place fits its depth. */
  predicate LocalOk(me: Local) {
    && (me.pc.ReadProcess? || me.pc.AddAgain? || me.pc.CheckProcess? || me.pc.Subtract? ==> 0 < me.depth)
    && (me.pc.Swap? || me.pc.WriteThread? || me.pc.WriteProcess? || me.pc.AddFirst? ==> me.depth == 0)
    && (me.pc.ClearThread? || me.pc.ClearProcess? || me.pc.SwapBack? ==> me.depth == 0)
  }

  /** What the shared fields show while `t` is at `me`. */
  predicate Published(s: State, t: Tid, me: Local) {
    && s.spin == 1 && s.counter == me.depth
    && s.thread == (if me.pc.WriteThread? || me.pc.ClearProcess? || me.pc.SwapBack? then 0 else t)
    && s.process == (if me.pc.WriteThread? || me.pc.WriteProcess? || me.pc.SwapBack? then 0 else PID)
  }

  predicate Free(s: State) { s.spin == 0 && s.thread == 0 && s.process == 0 && s.counter == 0 }

  /** `holder` holds the lock, and nobody else does. */
  ghost predicate Inv(s: State, holder: Option<Tid>) {
    && (forall t <- s.locals :: LocalOk(s.locals[t]) && (Holds(s.locals[t]) <==> holder == Some(t)))
    && (if holder.Some? then holder.value in s.locals && Published(s, holder.value, s.locals[holder.value])
        else Free(s))
  }

  /** Who holds the lock after a step of `t`. */
  ghost function NextHolder(s: State, t: Tid, op: Op, holder: Option<Tid>): (r: Option<Tid>)
    requires t in s.locals
  {
    if Holds(Step(s, t, op).locals[t]) then Some(t) else if holder == Some(t) then None else holder
  }

  /** A thread that does not hold the lock: only winning the swap changes anything shared. */
  lemma OutsiderSteps(s: State, t: Tid, op: Op, holder: Option<Tid>)
    requires Inv(s, holder) && t in s.locals && holder != Some(t)
    ensures var u := Step(s, t, op);
            && LocalOk(u.locals[t])
            && if Holds(u.locals[t]) then holder == None && Published(u, t, u.locals[t])
               else u == s.(locals := u.locals)
  {
    var me := s.locals[t];
    assert LocalOk(me) && !Holds(me);
  }

  lemma HolderSteps(s: State, t: Tid, op: Op)
    requires Inv(s, Some(t))
    ensures var u := Step(s, t, op);
            LocalOk(u.locals[t]) && if Holds(u.locals[t]) then Published(u, t, u.locals[t]) else Free(u)
  {
    var me := s.locals[t];
    assert LocalOk(me) && Holds(me) && Published(s, t, me);
  }

  lemma OnlyOneMoves(s: State, t: Tid, op: Op)
    requires t in s.locals
    ensures Step(s, t, op).locals == s.locals[t := Step(s, t, op).locals[t]]
  {
  }

  lemma StepKeepsInv(s: State, t: Tid, op: Op, holder: Option<Tid>)
    requires Inv(s, holder) && t in s.locals
    ensures Inv(Step(s, t, op), NextHolder(s, t, op, holder)) && Step(s, t, op).locals.Keys == s.locals.Keys
  {
    OnlyOneMoves(s, t, op);
    if holder == Some(t) {
      HolderSteps(s, t, op);
    } else {
      OutsiderSteps(s, t, op, holder);
    }
    hide Step, LocalOk, Published;
  }

  // ---------- over all runs ----------

  ghost predicate Reachable(s: State) {
    exists s0: State, sched: Schedule :: Init(s0) && Fits(s0, sched) && Run(s0, sched) == s
  }

  lemma {:induction false} RunKeepsInv(s: State, sched: Schedule, holder: Option<Tid>)
    requires Inv(s, holder) && Fits(s, sched)
    ensures exists h :: Inv(Run(s, sched), h)
    decreases |sched|
  {
    if sched == [] {
      assert Inv(Run(s, sched), holder);
    } else {
      var t, op := sched[0].0, sched[0].1;
      assert sched[0] in sched;
      StepKeepsInv(s, t, op, holder);
      var u, rest := Step(s, t, op), sched[1..];
      RunKeepsInv(u, rest, NextHolder(s, t, op, holder));
      var h :| Inv(Run(u, rest), h);
      assert Run(s, sched) == Run(u, rest);
    }
  }

  lemma ReachableInv(s: State)
    requires Reachable(s)
    ensures exists h :: Inv(s, h)
  {
    var s0: State, sched: Schedule :| Init(s0) && Fits(s0, sched) && Run(s0, sched) == s;
    assert Inv(s0, None);
    RunKeepsInv(s0, sched, None);
  }

  /** Mutual exclusion: at most one thread is between a successful lock and its last unlock. */
  lemma MutualExclusion(s: State, t: Tid, u: Tid)
    requires Reachable(s) && t in s.locals && u in s.locals && Holds(s.locals[t]) && Holds(s.locals[u])
    ensures t == u
  {
    ReachableInv(s);
    var h :| Inv(s, h);
    assert h == Some(t) && h == Some(u);
  }

  /** Between operations the counter is the owner's depth, and the lock is free exactly when nobody is the owner. */
  lemma CounterIsDepth(s: State)
    requires Reachable(s) && forall t <- s.locals :: s.locals[t].pc == Idle
    ensures forall t <- s.locals :: 0 < s.locals[t].depth ==>
              s.counter == s.locals[t].depth && s.thread == t && s.process == PID && s.spin == 1
    ensures (forall t <- s.locals :: s.locals[t].depth == 0) ==> Free(s)
  {
    ReachableInv(s);
    var h :| Inv(s, h);
    forall t <- s.locals | 0 < s.locals[t].depth
      ensures s.counter == s.locals[t].depth && s.thread == t && s.process == PID && s.spin == 1
    {
      assert Holds(s.locals[t]) && h == Some(t);
    }
  }

  /** The re-entrant shortcut is taken only by the owner; no other thread gets that far. */
  lemma ShortcutIsOwners(s: State, t: Tid)
    requires Reachable(s) && t in s.locals && s.locals[t].pc in {ReadProcess(false), ReadProcess(true), AddAgain}
    ensures 0 < s.locals[t].depth && s.thread == t && s.counter == s.locals[t].depth
  {
    ReachableInv(s);
    var h :| Inv(s, h);
    assert LocalOk(s.locals[t]) && h == Some(t);
  }

  /** And the owner always takes it: it never spins on its own lock. */
  lemma OwnerNeverSpins(s: State, t: Tid, op: Op)
    requires Reachable(s) && t in s.locals && 0 < s.locals[t].depth
    ensures !Step(s, t, op).locals[t].pc.Swap?
  {
    ReachableInv(s);
    var h :| Inv(s, h);
    assert LocalOk(s.locals[t]) && Holds(s.locals[t]);
    HolderSteps(s, t, op);
    assert Published(s, t, s.locals[t]);
  }

  /** The owner's last release always succeeds, and frees the lock. */
  lemma ReleaseSucceeds(s: State, t: Tid, op: Op)
    requires Reachable(s) && t in s.locals && s.locals[t].pc == SwapBack
    ensures var u := Step(s, t, op); u.locals[t] == Local(Idle, 0, Success) && Free(u)
  {
    ReachableInv(s);
    var h :| Inv(s, h);
    assert LocalOk(s.locals[t]) && Holds(s.locals[t]) && Published(s, t, s.locals[t]);
  }

  /** A trylock fails only while another thread holds the lock, and a waiting lock gets it as soon as none does. */
  lemma SwapFailsOnlyIfHeld(s: State, t: Tid, op: Op)
    requires Reachable(s) && t in s.locals && s.locals[t].pc.Swap?
    ensures Step(s, t, op).locals[t].pc != WriteThread <==> exists u <- s.locals :: u != t && Holds(s.locals[u])
  {
    ReachableInv(s);
    var h :| Inv(s, h);
    assert LocalOk(s.locals[t]) && !Holds(s.locals[t]);
    if h.Some? {
      assert Holds(s.locals[h.value]) && Published(s, h.value, s.locals[h.value]);
    }
  }

  /** Unlocking is refused to every thread but the owner, and never to the owner. */
  lemma UnlockIsOwners(s: State, t: Tid, op: Op)
    requires Reachable(s) && t in s.locals
    requires (s.locals[t].pc.CheckCounter? || s.locals[t].pc.CheckThread? || s.locals[t].pc.CheckProcess?)
    ensures Step(s, t, op).locals[t].result == Error ==> s.locals[t].depth == 0
    ensures Step(s, t, op).locals[t].pc in {CheckProcess, Subtract} ==> 0 < s.locals[t].depth
  {
    ReachableInv(s);
    var h :| Inv(s, h);
    assert LocalOk(s.locals[t]);
    assert Holds(s.locals[t]) ==> Published(s, t, s.locals[t]);
    if h.Some? {
      assert Published(s, h.value, s.locals[h.value]);
    }
  }

  // ---------- what the lock is: an owner and a depth ----------

  datatype Abstract = Abstract(owner: Option<Tid>, depth: nat)

  function AbstractOf(s: State, holder: Option<Tid>): (r: Abstract) {
    Abstract(holder, if holder.Some? && holder.value in s.locals then s.locals[holder.value].depth else 0)
  }

  /** One step of thread `t` on the lock it means. */
  predicate AbstractStep(a: Abstract, b: Abstract, t: Tid) {
    || a == b
    || (a == Abstract(None, 0) && b == Abstract(Some(t), 0))
    || (a.owner == Some(t) && b.owner == Some(t) && b.depth == a.depth + 1)
    || (a.owner == Some(t) && b.owner == Some(t) && a.depth == b.depth + 1)
    || (a == Abstract(Some(t), 0) && b == Abstract(None, 0))
  }

  /**
   Every step of the code is a step of the lock it means, or none; and when a call returns, the thread owns that lock,
   to its depth, if and only if its depth is not 0.
   */
  lemma StepRefines(s: State, t: Tid, op: Op, holder: Option<Tid>)
    requires Inv(s, holder) && t in s.locals
    ensures var u, next := Step(s, t, op), NextHolder(s, t, op, holder);
            && AbstractStep(AbstractOf(s, holder), AbstractOf(u, next), t)
            && (u.locals[t].pc.Idle? ==>
                  if 0 < u.locals[t].depth then AbstractOf(u, next) == Abstract(Some(t), u.locals[t].depth)
                  else AbstractOf(u, next).owner != Some(t))
  {
    OnlyOneMoves(s, t, op);
    var me := s.locals[t];
    assert LocalOk(me) && (Holds(me) <==> holder == Some(t));
    if holder == Some(t) {
      HolderSteps(s, t, op);
    } else {
      OutsiderSteps(s, t, op, holder);
    }
  }

  // ---------- what a call returns ----------

  predicate Unlocking(pc: Pc) {
    || pc.CheckCounter? || pc.CheckThread? || pc.CheckProcess? || pc.Subtract?
    || pc.Recheck? || pc.ClearThread? || pc.ClearProcess? || pc.SwapBack?
  }

  /** An attempt to lock that may still give up. */
  predicate Trying(pc: Pc) { (pc.ReadCounter? || pc.ReadThread? || pc.ReadProcess? || pc.Swap?) && pc.try }

  /** The thread's depth when the call that it is in began. */
  function DepthBefore(me: Local): (depth: nat) {
    if me.pc.Recheck? || me.pc.ClearThread? || me.pc.ClearProcess? || me.pc.SwapBack? then me.depth + 1 else me.depth
  }

  /** A call stays the call it began as. */
  lemma CallGoesOn(s: State, t: Tid, op: Op)
    requires Reachable(s) && t in s.locals && !Step(s, t, op).locals[t].pc.Idle?
    ensures var me, after := s.locals[t], Step(s, t, op).locals[t];
            if me.pc.Idle?
            then (Unlocking(after.pc) <==> op.Unlock?) && (Trying(after.pc) <==> op.TryLock?)
                 && DepthBefore(after) == me.depth
            else (Unlocking(after.pc) <==> Unlocking(me.pc)) && (Trying(after.pc) ==> Trying(me.pc))
                 && DepthBefore(after) == DepthBefore(me)
  {
    hide Published, Holds, Free;
    assert LocalOk(s.locals[t]) by {
      ReachableInv(s);
      var h :| Inv(s, h);
    }
  }

  /**
   What a call returns is what it did. A lock succeeds, one level deeper; only an attempt fails, with nothing changed
   and while another thread is inside. An unlock succeeds, one level up, if the thread had locked, and fails otherwise.
   */
  lemma CallReturns(s: State, t: Tid, op: Op)
    requires Reachable(s) && t in s.locals && !s.locals[t].pc.Idle? && Step(s, t, op).locals[t].pc.Idle?
    ensures var me, after, before := s.locals[t], Step(s, t, op).locals[t], DepthBefore(s.locals[t]);
            if Unlocking(me.pc)
            then if 0 < before then after == Local(Idle, before - 1, Success) else after == Local(Idle, 0, Error)
            else || after == Local(Idle, before + 1, Success)
                 || (Trying(me.pc) && after == Local(Idle, before, Error)
                     && exists u <- s.locals :: u != t && Holds(s.locals[u]))
  {
    ReachableInv(s);
    var h :| Inv(s, h);
    var me := s.locals[t];
    assert LocalOk(me) && (Holds(me) <==> h == Some(t));
    assert Holds(me) ==> Published(s, t, me);
    if h.Some? {
      assert Published(s, h.value, s.locals[h.value]) && Holds(s.locals[h.value]);
    }
  }
}
