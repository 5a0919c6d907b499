/** The state machine of a process and its time accounting (kernel/proc.c): how long it
    has waited for a CPU and slept, in clock ticks since it was born. */
module Accounting {
  datatype RunState = UNUSED | USED | SLEEPING | RUNNABLE | RUNNING | ZOMBIE

  /** The fields of struct proc that the transitions read and write, and two counters the
      kernel does not keep: ticks spent running and being set up, with the tick at which
      the interval that is going on began. */
  datatype Proc = Proc(
    state: RunState, pid: nat, chan: nat, killed: bool,
    start_time: nat, wait_ticks: nat, sleep_ticks: nat, wait_start: nat, sleep_start: nat, context_switches: nat,
    runTicks: nat, setupTicks: nat, since: nat)

  predicate Live(p: Proc) {
    p.state != UNUSED
  }

  /** Who a process is: what only its birth, kkill and freeproc write. */
  function Identity(p: Proc): (nat, bool, nat) {
    (p.pid, p.killed, p.start_time)
  }

  /** What the kernel has counted of a process so far. */
  function Totals(p: Proc): (nat, nat, nat) {
    (p.wait_ticks, p.sleep_ticks, p.context_switches)
  }

  /** Every tick of a live process is counted once: the intervals that are over add up to
      the time from its birth to the start of the one that is going on. */
  predicate Accounted(p: Proc, ticks: nat) {
    Live(p) ==>
      && p.start_time <= p.since <= ticks
      && p.wait_ticks + p.sleep_ticks + p.runTicks + p.setupTicks == p.since - p.start_time
      && (p.state == RUNNABLE ==> p.since == p.wait_start)
      && (p.state == SLEEPING ==> p.since == p.sleep_start)
      && (p.state == USED ==> p.since == p.start_time)
  }

  /** Hence what the kernel reports never exceeds the age of the process, and with the
      time running, in set-up and in the interval that is going on it is the age. */
  lemma {:induction false} AgeBound(p: Proc, ticks: nat)
    requires Live(p) && Accounted(p, ticks)
    ensures p.wait_ticks + p.sleep_ticks <= ticks - p.start_time
    ensures p.wait_ticks + p.sleep_ticks + p.runTicks + p.setupTicks + (ticks - p.since) == ticks - p.start_time
    ensures p.state == RUNNABLE ==> p.wait_start <= ticks
    ensures p.state == SLEEPING ==> p.sleep_start <= ticks
  {
  }

  class ProcTable {
    var proc: seq<Proc>
    var ticks: nat
    var nextpid: nat

    ghost predicate Valid()
      reads this
    {
      forall i {:trigger proc[i]} :: 0 <= i < |proc| ==> Accounted(proc[i], ticks)
    }

    /** procinit */
    constructor (n: nat)
      ensures Valid() && |proc| == n && ticks == 0 && nextpid == 1
      ensures forall i {:trigger proc[i]} :: 0 <= i < n ==> proc[i].state == UNUSED
    {
      proc := seq(n, i => Proc(UNUSED, 0, 0, false, 0, 0, 0, 0, 0, 0, 0, 0, 0));
      ticks, nextpid := 0, 1;
    }

    /** Only process i has changed. */
    twostate predicate Only(i: nat)
      reads this
    {
      |proc| == |old(proc)| && ticks == old(ticks) && forall j {:trigger proc[j]} :: 0 <= j < |proc| && j != i ==>
          proc[j] == old(proc)[j]
    }

    /** clockintr, on one CPU */
    method Tick()
      requires Valid()
      modifies this`ticks
      ensures Valid() && ticks == old(ticks) + 1
    {
      ticks := ticks + 1;
    }

    /** allocproc: the first unused entry, newly born; -1 if there is none. */
    method Allocproc() returns (i: int)
      requires Valid()
      modifies this`proc, this`nextpid
      ensures Valid() && |proc| == |old(proc)|
      ensures i == -1 ==>
              proc == old(proc) && nextpid == old(nextpid) && forall j {:trigger proc[j]} :: 0 <= j < |proc| ==>
              proc[j].state != UNUSED
      ensures i != -1 ==>
                && 0 <= i < |proc| && old(proc)[i].state == UNUSED && Only(i)
                && (forall j {:trigger proc[j]} :: 0 <= j < i ==> old(proc)[j].state != UNUSED)
                && proc[i].state == USED && proc[i].start_time == ticks
                && proc[i].wait_ticks == proc[i].sleep_ticks == proc[i].context_switches == 0
                && proc[i].pid == old(nextpid) && nextpid == old(nextpid) + 1
                && proc[i].killed == old(proc)[i].killed && proc[i].chan == old(proc)[i].chan
    {
      var k := 0;
      while k < |proc|
        invariant 0 <= k <= |proc| && proc == old(proc) && nextpid == old(nextpid)
        invariant forall j {:trigger proc[j]} :: 0 <= j < k ==> proc[j].state != UNUSED
      {
        if proc[k].state == UNUSED {
          var pid := nextpid;
          nextpid := nextpid + 1;
          proc := proc[k := proc[k].(state := USED, pid := pid, start_time := ticks, sleep_ticks := 0, wait_ticks := 0,
                                     context_switches := 0, wait_start := ticks, sleep_start := 0,
                                     runTicks := 0, setupTicks := 0, since := ticks)];
          return k;
        }
        k := k + 1;
      }
      return -1;
    }

    /** The end of kfork, and of userinit: the new process starts waiting for a CPU. */
    method Start(i: nat)
      requires Valid() && i < |proc| && proc[i].state == USED
      modifies this`proc
      ensures Valid() && Only(i) && proc[i].state == RUNNABLE && proc[i].setupTicks == ticks - old(proc)[i].start_time
      ensures Totals(proc[i]) == old(Totals(proc[i])) && Identity(proc[i]) == old(Identity(proc[i])) &&
              proc[i].chan == old(proc)[i].chan
    {
      var p := proc[i];
      proc := proc[i := p.(state := RUNNABLE, wait_start := ticks, setupTicks := p.setupTicks + (ticks - p.since),
          since := ticks)];
    }

    /** The scheduler runs a process: the wait is over. */
    method Dispatch(i: nat)
      requires Valid() && i < |proc| && proc[i].state == RUNNABLE
      modifies this`proc
      ensures Valid() && Only(i) && proc[i].state == RUNNING &&
              proc[i].context_switches == old(proc)[i].context_switches + 1
      ensures old(proc)[i].wait_start <= ticks &&
              proc[i].wait_ticks == old(proc)[i].wait_ticks + (ticks - old(proc)[i].wait_start)
      ensures proc[i].sleep_ticks == old(proc)[i].sleep_ticks && Identity(proc[i]) == old(Identity(proc[i])) &&
              proc[i].chan == old(proc)[i].chan
    {
      var p := proc[i];
      proc := proc[i := p.(state := RUNNING, context_switches := p.context_switches + 1,
          wait_ticks := p.wait_ticks + (ticks - p.wait_start), since := ticks)];
    }

    /** yield */
    method Yield(i: nat)
      requires Valid() && i < |proc| && proc[i].state == RUNNING
      modifies this`proc
      ensures Valid() && Only(i) && proc[i].state == RUNNABLE
      ensures Totals(proc[i]) == old(Totals(proc[i])) && Identity(proc[i]) == old(Identity(proc[i])) &&
              proc[i].chan == old(proc)[i].chan
    {
      var p := proc[i];
      proc := proc[i := p.(state := RUNNABLE, wait_start := ticks, runTicks := p.runTicks + (ticks - p.since),
          since := ticks)];
    }

    /** sleep, up to sched. */
    method Sleep(i: nat, chan: nat)
      requires Valid() && i < |proc| && proc[i].state == RUNNING
      modifies this`proc
      ensures Valid() && Only(i) && proc[i].state == SLEEPING && proc[i].chan == chan
      ensures Totals(proc[i]) == old(Totals(proc[i])) && Identity(proc[i]) == old(Identity(proc[i]))
    {
      var p := proc[i];
      proc := proc[i := p.(chan := chan, state := SLEEPING, sleep_start := ticks,
          runTicks := p.runTicks + (ticks - p.since), since := ticks)];
    }

    /** A sleeping process starts waiting for a CPU. */
    function Woken(p: Proc): (q: Proc)
      requires p.state == SLEEPING && Accounted(p, ticks)
      reads this`ticks
      ensures Accounted(q, ticks) && q.state == RUNNABLE && q.sleep_ticks - p.sleep_ticks == ticks - p.sleep_start >= 0
      ensures q.wait_ticks == p.wait_ticks && q.start_time == p.start_time && q.pid == p.pid
      ensures q.killed == p.killed && q.chan == p.chan && q.context_switches == p.context_switches
      ensures q.runTicks == p.runTicks && q.setupTicks == p.setupTicks && q.wait_start == ticks
    {
      p.(state := RUNNABLE, sleep_ticks := p.sleep_ticks + (ticks - p.sleep_start), wait_start := ticks, since := ticks)
    }

    /** wakeup, by process `me`: all that sleep on chan, and no others. */
    method Wakeup(chan: nat, me: int)
      requires Valid()
      modifies this`proc
      ensures Valid() && |proc| == |old(proc)| && ticks == old(ticks)
      ensures forall j {:trigger proc[j]} :: 0 <= j < |proc| ==>
                var p := old(proc)[j];
                proc[j] == if j != me && p.state == SLEEPING && p.chan == chan then old(Woken(proc[j])) else p
    {
      var k := 0;
      while k < |proc|
        invariant 0 <= k <= |proc| == |old(proc)| && Valid() && ticks == old(ticks)
        invariant forall j {:trigger proc[j]} :: 0 <= j < |proc| ==>
                    var p := old(proc)[j];
                    proc[j] == if j < k && j != me && p.state == SLEEPING && p.chan == chan then old(Woken(proc[j]))
                        else p
      {
        if k != me && proc[k].state == SLEEPING && proc[k].chan == chan {
          proc := proc[k := Woken(proc[k])];
        }
        k := k + 1;
      }
    }

    /** kkill: 0, or -1 if there is no such process. */
    method Kill(pid: nat) returns (ret: int, ghost i: nat)
      requires Valid()
      modifies this`proc
      ensures Valid() && |proc| == |old(proc)| && ticks == old(ticks) && (ret == 0 || ret == -1)
      ensures ret == -1 ==> proc == old(proc) && forall j {:trigger proc[j]} :: 0 <= j < |proc| ==> proc[j].pid != pid
      ensures ret == 0 ==>
                && i < |proc| && Only(i) && old(proc)[i].pid == pid
                && (forall j {:trigger proc[j]} :: 0 <= j < i ==> proc[j].pid != pid)
                && proc[i] == if old(proc)[i].state == SLEEPING then old(Woken(proc[i])).(killed := true)
                    else old(proc)[i].(killed := true)
    {
      var k := 0;
      while k < |proc|
        invariant 0 <= k <= |proc| && proc == old(proc)
        invariant forall j {:trigger proc[j]} :: 0 <= j < k ==> proc[j].pid != pid
      {
        if proc[k].pid == pid {
          proc := proc[k := proc[k].(killed := true)];
          if proc[k].state == SLEEPING {
            proc := proc[k := Woken(proc[k])];
          }
          return 0, k;
        }
        k := k + 1;
      }
      return -1, 0;
    }

    /** kexit */
    method Exit(i: nat)
      requires Valid() && i < |proc| && proc[i].state == RUNNING
      modifies this`proc
      ensures Valid() && Only(i) && proc[i].state == ZOMBIE
      ensures Totals(proc[i]) == old(Totals(proc[i])) && Identity(proc[i]) == old(Identity(proc[i])) &&
              proc[i].chan == old(proc)[i].chan
    {
      var p := proc[i];
      proc := proc[i := p.(state := ZOMBIE, runTicks := p.runTicks + (ticks - p.since), since := ticks)];
    }

    /** freeproc */
    method Freeproc(i: nat)
      requires Valid() && i < |proc|
      modifies this`proc
      ensures Valid() && Only(i) && proc[i].state == UNUSED
      ensures proc[i].pid == proc[i].chan == 0 && !proc[i].killed
    {
      proc := proc[i := proc[i].(pid := 0, chan := 0, killed := false, state := UNUSED)];
    }
  }
}
