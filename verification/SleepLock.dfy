/** Sleep locks over sleep and wakeup (kernel/sleeplock.c, kernel/proc.c), as the
    interleaved steps of any number of processes.  acquire and release of spinlocks are
    atomic; everything between them is not. */
module SleepLock {

  datatype Option = None | Some(who: nat)

  /** Where a process is in acquiresleep, releasesleep, sleep or wakeup. */
  datatype Pc =
    | Idle
    | WantLk       // acquiresleep: acquire(&lk->lk)
    | Test         // while (lk->locked)
    | Take         // lk->locked = 1; lk->pid = myproc()->pid
    | Leave        // release(&lk->lk)
    | SleepLk      // sleep: acquire(&p->lock)
    | DropLk       // release(lk)
    | SetChan      // p->chan = chan
    | SetState     // p->state = SLEEPING
    | Switch       // sched(): the scheduler releases p->lock
    | Off          // switched out, until the scheduler runs the process again
    | Tidy         // p->chan = 0
    | DropOwn      // release(&p->lock)
    | Relock       // acquire(lk)
    | GiveLk       // releasesleep: acquire(&lk->lk)
    | Clear        // lk->locked = 0; lk->pid = 0
    | Scan(q: nat) // wakeup: the q-th process is next
    | Check(q: nat) // its lock is held: test its state
    | Unlock(q: nat) // release(&p->lock)

  datatype RunState = Running | Runnable | Sleeping

  /** chan says whether p->chan is this sleep lock; lock is the holder of p->lock, which
      is the process itself while the scheduler has it; has is whether the process has
      the sleep lock. */
  datatype Proc = Proc(pc: Pc, state: RunState, chan: bool, lock: Option, has: bool)

  datatype State = State(lk: Option, locked: bool, pid: nat, ps: seq<Proc>)

  /** Step: the process goes on.  Dispatch: the scheduler runs it.  Kill: kkill wakes it.
      Acquire, Release: an idle process calls acquiresleep, or releasesleep. */
  datatype Event = Step(p: nat) | Dispatch(p: nat) | Kill(p: nat) | Acquire(p: nat) | Release(p: nat)

  predicate Enabled(s: State, e: Event) {
    e.p < |s.ps| && Ready(s, e.p, s.ps[e.p], e)
  }

  predicate Ready(s: State, p: nat, x: Proc, e: Event) {
    match e
    case Step(_) =>
      (match x.pc
       case Idle => false
       case Off => false
       case WantLk => s.lk == None
       case Relock => s.lk == None
       case GiveLk => s.lk == None
       case SleepLk => x.lock == None
       case Scan(q) => q < |s.ps| && q != p ==> s.ps[q].lock == None
       case _ => true)
    case Dispatch(_) => x.pc == Off && x.state == Runnable && x.lock == None
    case Kill(_) => x.lock == None
    case Acquire(_) => x.pc == Idle && !x.has
    case Release(_) => x.pc == Idle && x.has
  }

  function SetPc(s: State, p: nat, pc: Pc): State
    requires p < |s.ps|
  {
    s.(ps := s.ps[p := s.ps[p].(pc := pc)])
  }

  function After(s: State, e: Event): State
    requires Enabled(s, e)
  {
    var p, x := e.p, s.ps[e.p];
    match e
    case Step(_) => StepOf(s, p, x)
    case Dispatch(_) => s.(ps := s.ps[p := x.(pc := Tidy, state := Running, lock := Some(p))])
    case Kill(_) => if x.state == Sleeping then s.(ps := s.ps[p := x.(state := Runnable)]) else s
    case Acquire(_) => SetPc(s, p, WantLk)
    case Release(_) => SetPc(s, p, GiveLk)
  }

  function StepOf(s: State, p: nat, x: Proc): State
    requires p < |s.ps| && x == s.ps[p] && Ready(s, p, x, Step(p))
  {
    match x.pc
    case Idle => s
    case Off => s
    case WantLk => SetPc(s.(lk := Some(p)), p, Test)
    case Relock => SetPc(s.(lk := Some(p)), p, Test)
    case Test => SetPc(s, p, if s.locked then SleepLk else Take)
    case Take => s.(locked := true, pid := p, ps := s.ps[p := x.(pc := Leave, has := true)])
    case Leave => SetPc(s.(lk := None), p, Idle)
    case SleepLk => s.(ps := s.ps[p := x.(pc := DropLk, lock := Some(p))])
    case DropLk => SetPc(s.(lk := None), p, SetChan)
    case SetChan => s.(ps := s.ps[p := x.(pc := SetState, chan := true)])
    case SetState => s.(ps := s.ps[p := x.(pc := Switch, state := Sleeping)])
    case Switch => s.(ps := s.ps[p := x.(pc := Off, lock := None)])
    case Tidy => s.(ps := s.ps[p := x.(pc := DropOwn, chan := false)])
    case DropOwn => s.(ps := s.ps[p := x.(pc := Relock, lock := None)])
    case GiveLk => SetPc(s.(lk := Some(p)), p, Clear)
    case Clear => s.(locked := false, pid := 0, ps := s.ps[p := x.(pc := Scan(0), has := false)])
    case Scan(q) =>
      if q >= |s.ps| then SetPc(s, p, Leave)
      else if q == p then SetPc(s, p, Scan(q + 1))
      else
        var t := s.(ps := s.ps[q := s.ps[q].(lock := Some(p))]);
        SetPc(t, p, Check(q))
    case Check(q) =>
      if q < |s.ps| && q != p && s.ps[q].state == Sleeping && s.ps[q].chan
      then SetPc(s.(ps := s.ps[q := s.ps[q].(state := Runnable)]), p, Unlock(q))
      else SetPc(s, p, Unlock(q))
    case Unlock(q) =>
      if q < |s.ps| && q != p
      then SetPc(s.(ps := s.ps[q := s.ps[q].(lock := None)]), p, Scan(q + 1))
      else SetPc(s, p, Scan(q + 1))
  }

  // ----- the invariant

  predicate HoldsLk(pc: Pc) {
    pc.Test? || pc.Take? || pc.Leave? || pc.SleepLk? || pc.DropLk? || pc.Clear? || pc.Scan? || pc.Check? || pc.Unlock?
  }

  predicate HoldsOwn(pc: Pc) {
    pc.DropLk? || pc.SetChan? || pc.SetState? || pc.Switch? || pc.Tidy? || pc.DropOwn?
  }

  /** Has released lk in sleep and has not been woken since. */
  predicate Waiting(x: Proc) {
    x.pc.SetChan? || x.pc.SetState? || x.pc.Switch? || (x.pc.Off? && x.state == Sleeping)
  }

  /** The holder of lk is in wakeup and still has to look at q. */
  predicate Pending(s: State, q: nat) {
    s.lk.Some? && s.lk.who < |s.ps| && s.lk.who != q &&
        var pc := s.ps[s.lk.who].pc; ((pc.Scan? || pc.Check?) && pc.q <= q) || (pc.Unlock? && pc.q < q)
  }

  /** What holds of one process. */
  predicate ProcOk(s: State, p: nat, x: Proc) {
    && (HoldsLk(x.pc) <==> s.lk == Some(p))
    && (HoldsOwn(x.pc) ==> x.lock == Some(p))
    && (x.pc.Check? || x.pc.Unlock? ==> x.pc.q < |s.ps| && x.pc.q != p && s.ps[x.pc.q].lock == Some(p))
    && (x.state == Sleeping ==> x.pc.Switch? || x.pc.Off?)
    && (x.pc.Switch? ==> x.state == Sleeping)
    && (x.pc.SetState? || x.pc.Switch? || x.pc.Off? ==> x.chan)
    && (x.pc.Take? ==> !s.locked)
    && (x.pc.SleepLk? || x.pc.DropLk? ==> s.locked)
    && (x.has ==> s.locked && s.pid == p && (x.pc.Idle? || x.pc.Leave? || x.pc.GiveLk? || x.pc.Clear?))
    && (x.pc.GiveLk? || x.pc.Clear? ==> x.has)
    && (x.pc.Scan? || x.pc.Check? || x.pc.Unlock? ==> !s.locked)
  }

  ghost predicate Inv(s: State) {
    && (s.lk.Some? ==> s.lk.who < |s.ps|)
    && (s.locked ==> s.pid < |s.ps| && s.ps[s.pid].has)
    && (forall p: nat {:trigger ProcOk(s, p, s.ps[p])} :: p < |s.ps| ==> ProcOk(s, p, s.ps[p]))
    && (forall q: nat {:trigger Pending(s, q)} :: q < |s.ps| && Waiting(s.ps[q]) ==> s.locked || Pending(s, q))
  }

  function Init(n: nat): State {
    State(None, false, 0, seq(n, i => Proc(Idle, Running, false, None, false)))
  }

  lemma {:induction false} InitOk(n: nat)
    ensures Inv(Init(n)) && LocksOk(Init(n))
  {
    var s := Init(n);
    forall p: nat | p < |s.ps| ensures ProcOk(s, p, s.ps[p]) {
    }
  }

  /** The steps of wakeup. */
  lemma {:induction false} WakeupKeeps(s: State, p: nat)
    requires Inv(s) && Enabled(s, Step(p)) && var pc := s.ps[p].pc; pc.Scan? || pc.Check? || pc.Unlock?
    ensures Inv(After(s, Step(p)))
  {
    var t, x := After(s, Step(p)), s.ps[p];
    assert ProcOk(s, p, x);
    forall q: nat | q < |t.ps| ensures ProcOk(t, q, t.ps[q]) {
      assert ProcOk(s, q, s.ps[q]);
    }
    forall q: nat | q < |t.ps| && Waiting(t.ps[q]) ensures t.locked || Pending(t, q) {
      assert ProcOk(s, q, s.ps[q]);
      assert Waiting(s.ps[q]);
      assert s.locked || Pending(s, q);
    }
  }

  /** The steps of acquiresleep, sleep and releasesleep. */
  lemma {:induction false} OwnStepKeeps(s: State, p: nat)
    requires Inv(s) && Enabled(s, Step(p)) && var pc := s.ps[p].pc; !pc.Scan? && !pc.Check? && !pc.Unlock?
    ensures Inv(After(s, Step(p)))
  {
    var t, x := After(s, Step(p)), s.ps[p];
    assert ProcOk(s, p, x);
    forall q: nat | q < |t.ps| ensures ProcOk(t, q, t.ps[q]) {
      OwnStepProc(s, p, q);
    }
    forall q: nat | q < |t.ps| && Waiting(t.ps[q]) ensures t.locked || Pending(t, q) {
      assert Waiting(s.ps[q]) ==> s.locked || Pending(s, q);
    }
  }

  lemma {:induction false} OwnStepProc(s: State, p: nat, q: nat)
    requires Inv(s) && Enabled(s, Step(p)) && q < |s.ps| && var pc := s.ps[p].pc; !pc.Scan? && !pc.Check? && !pc.Unlock?
    ensures var t := After(s, Step(p)); q < |t.ps| && ProcOk(t, q, t.ps[q])
  {
    if q == p {
      OwnStepSelf(s, p);
    } else {
      OwnStepElse(s, p, q);
    }
  }

  lemma {:induction false} OwnStepSelf(s: State, p: nat)
    requires Inv(s) && Enabled(s, Step(p)) && var pc := s.ps[p].pc; !pc.Scan? && !pc.Check? && !pc.Unlock?
    ensures var t := After(s, Step(p)); p < |t.ps| && ProcOk(t, p, t.ps[p])
  {
    assert ProcOk(s, p, s.ps[p]);
  }

  lemma {:induction false} OwnStepElse(s: State, p: nat, q: nat)
    requires Inv(s) && Enabled(s, Step(p)) && q < |s.ps| && q != p
    requires var pc := s.ps[p].pc; !pc.Scan? && !pc.Check? && !pc.Unlock?
    ensures var t := After(s, Step(p)); q < |t.ps| && ProcOk(t, q, t.ps[q])
  {
    var t := After(s, Step(p));
    assert ProcOk(s, p, s.ps[p]) && ProcOk(s, q, s.ps[q]);
    assert t.ps[q] == s.ps[q];
  }

  lemma {:induction false} OtherKeeps(s: State, e: Event)
    requires Inv(s) && Enabled(s, e) && !e.Step?
    ensures Inv(After(s, e))
  {
    var t, p := After(s, e), e.p;
    assert ProcOk(s, p, s.ps[p]);
    forall q: nat | q < |t.ps| ensures ProcOk(t, q, t.ps[q]) {
      assert ProcOk(s, q, s.ps[q]);
    }
    forall q: nat | q < |t.ps| && Waiting(t.ps[q]) ensures t.locked || Pending(t, q) {
      assert Waiting(s.ps[q]) ==> s.locked || Pending(s, q);
    }
  }

  lemma {:induction false} StepKeeps(s: State, e: Event)
    requires Inv(s) && Enabled(s, e)
    ensures Inv(After(s, e)) && |After(s, e).ps| == |s.ps|
  {
    if !e.Step? {
      OtherKeeps(s, e);
    } else {
      var pc := s.ps[e.p].pc;
      if pc.Scan? || pc.Check? || pc.Unlock? {
        WakeupKeeps(s, e.p);
      } else {
        OwnStepKeeps(s, e.p);
      }
    }
  }

  // ----- who has the processes' own locks

  /** A process's own lock is held by the process itself, at the right places, or by a wakeup
      that is looking at it; and a process that is switched out is not running. */
  predicate LockOk(s: State, p: nat, x: Proc) {
    && (x.lock.Some? ==>
          if x.lock.who == p then HoldsOwn(x.pc)
          else x.lock.who < |s.ps| && var y := s.ps[x.lock.who].pc; (y.Check? || y.Unlock?) && y.q == p)
    && (x.pc.Off? ==> x.state != Running)
  }

  ghost predicate LocksOk(s: State) {
    forall p: nat {:trigger LockOk(s, p, s.ps[p])} :: p < |s.ps| ==> LockOk(s, p, s.ps[p])
  }

  lemma {:induction false} StepKeepsLocks(s: State, e: Event)
    requires Inv(s) && LocksOk(s) && Enabled(s, e)
    ensures LocksOk(After(s, e))
  {
    var t, p := After(s, e), e.p;
    forall q: nat | q < |t.ps| ensures LockOk(t, q, t.ps[q]) {
      if !e.Step? {
        OtherLock(s, e, q);
      } else if q == p {
        OwnLock(s, p);
      } else if s.ps[p].pc.Scan? || s.ps[p].pc.Check? || s.ps[p].pc.Unlock? {
        WakeupLock(s, p, q);
      } else {
        ElseLock(s, p, q);
      }
    }
  }

  lemma {:induction false} OtherLock(s: State, e: Event, q: nat)
    requires Inv(s) && LocksOk(s) && Enabled(s, e) && !e.Step? && q < |s.ps|
    ensures var t := After(s, e); q < |t.ps| && LockOk(t, q, t.ps[q])
  {
    assert LockOk(s, q, s.ps[q]);
    assert ProcOk(s, q, s.ps[q]);
  }

  lemma {:induction false} OwnLock(s: State, p: nat)
    requires Inv(s) && LocksOk(s) && Enabled(s, Step(p))
    ensures var t := After(s, Step(p)); p < |t.ps| && LockOk(t, p, t.ps[p])
  {
    assert LockOk(s, p, s.ps[p]) && ProcOk(s, p, s.ps[p]);
  }

  lemma {:induction false} ElseLock(s: State, p: nat, q: nat)
    requires Inv(s) && LocksOk(s) && Enabled(s, Step(p)) && q < |s.ps| && q != p
    requires var pc := s.ps[p].pc; !pc.Scan? && !pc.Check? && !pc.Unlock?
    ensures var t := After(s, Step(p)); q < |t.ps| && LockOk(t, q, t.ps[q])
  {
    assert LockOk(s, q, s.ps[q]);
    assert After(s, Step(p)).ps[q] == s.ps[q];
  }

  lemma {:induction false} WakeupLock(s: State, p: nat, q: nat)
    requires Inv(s) && LocksOk(s) && Enabled(s, Step(p)) && q < |s.ps| && q != p
    requires var pc := s.ps[p].pc; pc.Scan? || pc.Check? || pc.Unlock?
    ensures var t := After(s, Step(p)); q < |t.ps| && LockOk(t, q, t.ps[q])
  {
    assert LockOk(s, q, s.ps[q]);
    assert ProcOk(s, p, s.ps[p]);
  }

  // ----- every run

  ghost predicate Legal(s: State, es: seq<Event>)
    decreases |es|
  {
    es == [] || (Enabled(s, es[0]) && Legal(After(s, es[0]), es[1..]))
  }

  ghost function Run(s: State, es: seq<Event>): State
    requires Legal(s, es)
    decreases |es|
  {
    if es == [] then s else Run(After(s, es[0]), es[1..])
  }

  lemma {:induction false} RunKeeps(s: State, es: seq<Event>)
    requires Inv(s) && LocksOk(s) && Legal(s, es)
    ensures Inv(Run(s, es)) && LocksOk(Run(s, es)) && |Run(s, es).ps| == |s.ps|
    decreases |es|
  {
    if es != [] {
      StepKeeps(s, es[0]);
      StepKeepsLocks(s, es[0]);
      RunKeeps(After(s, es[0]), es[1..]);
    }
  }

  /** At most one process has the sleep lock, and it is the one that lk->pid names. */
  lemma {:induction false} MutualExclusion(n: nat, es: seq<Event>, p: nat, q: nat)
    requires Legal(Init(n), es)
    ensures var s := Run(Init(n), es);
            && (p < |s.ps| && q < |s.ps| && s.ps[p].has && s.ps[q].has ==> p == q)
            && (p < |s.ps| ==> (s.ps[p].has <==> s.locked && s.pid == p))
  {
    InitOk(n);
    RunKeeps(Init(n), es);
    var s := Run(Init(n), es);
    assert p < |s.ps| ==> ProcOk(s, p, s.ps[p]);
    assert q < |s.ps| ==> ProcOk(s, q, s.ps[q]);
  }

  /** When a wakeup has been through all processes, nobody who had released lk in an
      earlier sleep is still asleep from that call. */
  lemma {:induction false} NoLostWakeup(n: nat, es: seq<Event>, r: nat, q: nat)
    requires Legal(Init(n), es)
    requires var s := Run(Init(n), es); r < |s.ps| && q < |s.ps| && s.ps[r].pc.Scan? && s.ps[r].pc.q >= |s.ps|
    ensures !Waiting(Run(Init(n), es).ps[q])
  {
    InitOk(n);
    RunKeeps(Init(n), es);
    var s := Run(Init(n), es);
    assert ProcOk(s, r, s.ps[r]);
    assert !Pending(s, q);
  }

  /** Nobody sleeps on the lock while it is free and its spinlock is released. */
  lemma {:induction false} FreeMeansAwake(n: nat, es: seq<Event>, q: nat)
    requires Legal(Init(n), es)
    requires var s := Run(Init(n), es); q < |s.ps| && !s.locked && s.lk == None
    ensures !Waiting(Run(Init(n), es).ps[q])
  {
    InitOk(n);
    RunKeeps(Init(n), es);
    var s := Run(Init(n), es);
    assert !Pending(s, q);
  }

  /** sleep and wakeup give back every process's own lock: outside its two places in wakeup, no
      process holds another's. */
  lemma {:induction false} LocksGivenBack(n: nat, es: seq<Event>, r: nat, q: nat)
    requires Legal(Init(n), es)
    requires var s := Run(Init(n), es); r < |s.ps| && q < |s.ps| && r != q && s.ps[q].lock == Some(r)
    ensures var pc := Run(Init(n), es).ps[r].pc; (pc.Check? || pc.Unlock?) && pc.q == q
  {
    InitOk(n);
    RunKeeps(Init(n), es);
    var s := Run(Init(n), es);
    assert LockOk(s, q, s.ps[q]);
  }

  /** Something can happen without a new call: a step of some process, or the scheduler runs one. */
  ghost predicate CanGoOn(s: State) {
    exists p: nat {:trigger s.ps[p]} :: p < |s.ps| && (Enabled(s, Step(p)) || Enabled(s, Dispatch(p)))
  }

  /** No deadlock: as long as any process is inside acquiresleep or releasesleep, something can go
      on, unless all that are inside wait for a process that has the lock and is outside. */
  lemma {:induction false} NoDeadlock(n: nat, es: seq<Event>, p: nat)
    requires Legal(Init(n), es)
    requires var s := Run(Init(n), es); p < |s.ps| && !s.ps[p].pc.Idle?
    ensures var s := Run(Init(n), es);
            CanGoOn(s) || (s.locked && s.pid < |s.ps| && s.ps[s.pid].has && s.ps[s.pid].pc.Idle?)
  {
    InitOk(n);
    RunKeeps(Init(n), es);
    var s := Run(Init(n), es);
    if s.lk.Some? {
      HolderGoesOn(s, s.lk.who);
    } else {
      OthersGoOn(s, p);
    }
  }

  lemma {:induction false} HolderGoesOn(s: State, h: nat)
    requires Inv(s) && LocksOk(s) && s.lk == Some(h)
    ensures CanGoOn(s)
  {
    var x := s.ps[h];
    assert ProcOk(s, h, x) && LockOk(s, h, x);
    assert x.lock.Some? && x.lock.who < |s.ps| ==> ProcOk(s, x.lock.who, s.ps[x.lock.who]);
    if x.pc.Scan? && x.pc.q < |s.ps| && x.pc.q != h {
      var y := s.ps[x.pc.q];
      assert LockOk(s, x.pc.q, y) && ProcOk(s, x.pc.q, y);
      assert y.lock.Some? && y.lock.who < |s.ps| ==> ProcOk(s, y.lock.who, s.ps[y.lock.who]);
      assert y.lock.Some? ==> Enabled(s, Step(x.pc.q));
      assert y.lock == None ==> Enabled(s, Step(h));
    } else {
      assert Enabled(s, Step(h));
    }
  }

  lemma {:induction false} OthersGoOn(s: State, p: nat)
    requires Inv(s) && LocksOk(s) && s.lk == None && p < |s.ps| && !s.ps[p].pc.Idle?
    ensures CanGoOn(s) || (s.locked && s.pid < |s.ps| && s.ps[s.pid].has && s.ps[s.pid].pc.Idle?)
  {
    var x := s.ps[p];
    assert ProcOk(s, p, x) && LockOk(s, p, x);
    assert x.lock.Some? && x.lock.who < |s.ps| ==> ProcOk(s, x.lock.who, s.ps[x.lock.who]);
    if x.pc.Off? {
      assert x.state == Runnable ==> Enabled(s, Dispatch(p));
      assert !Pending(s, p);
      assert s.locked ==> ProcOk(s, s.pid, s.ps[s.pid]);
    } else {
      assert Enabled(s, Step(p));
    }
  }
}
