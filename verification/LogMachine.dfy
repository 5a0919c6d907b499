/** The machine that commits and recovers one block write at a time (kernel/log.c), and may
    crash between any two of them, any number of times, including inside recovery. */
module LogMachine {
  import opened Disk
  import opened LogDisk

  /** The position of the header write, the commit point. */
  function CommitPoint(t: Txn): nat { |t.blocks| }

  datatype Phase =
    | Idle
    | Committing(base: Image, txn: Txn, done: nat)
    | Down
    | Recovering(base: Image, done: nat)

  /** `committed` lists the transactions whose header write has reached the disk. */
  datatype State = State(disk: Image, phase: Phase, committed: seq<Txn>)

  datatype Event =
    | Begin(txn: Txn)   // commit() starts
    | WriteNext         // the next block write completes
    | Finish            // commit() or recovery returns
    | Crash
    | Boot

  ghost predicate Enabled(l: Layout, s: State, e: Event) {
    match e
    case Begin(t) => s.phase.Idle? && t.Valid(l) && DiskOk(l, s.disk)
    case Crash => true
    case Boot => s.phase.Down? && DiskOk(l, s.disk)
    case WriteNext =>
      (match s.phase
       case Committing(d, t, k) =>
         DiskOk(l, d) && t.Valid(l) && k < |CommitWrites(l, d, t)| && CommitWrites(l, d, t)[k].bno < |s.disk|
       case Recovering(d, k) =>
         DiskOk(l, d) && k < |RecoverWrites(l, d)| && RecoverWrites(l, d)[k].bno < |s.disk|
       case _ => false)
    case Finish =>
      (match s.phase
       case Committing(d, t, k) => DiskOk(l, d) && t.Valid(l) && k == |CommitWrites(l, d, t)|
       case Recovering(d, k) => DiskOk(l, d) && k == |RecoverWrites(l, d)|
       case _ => false)
  }

  /** The next write of commit(); the one at the commit point commits. */
  ghost function CommitStep(l: Layout, s: State, w: Write): State
    requires s.phase.Committing? && w.bno < |s.disk|
  {
    State(s.disk[w.bno := w.data], Committing(s.phase.base, s.phase.txn, s.phase.done + 1),
          if s.phase.done == CommitPoint(s.phase.txn) then s.committed + [s.phase.txn] else s.committed)
  }

  ghost function RecoverStep(l: Layout, s: State, w: Write): State
    requires s.phase.Recovering? && w.bno < |s.disk|
  {
    s.(disk := s.disk[w.bno := w.data], phase := Recovering(s.phase.base, s.phase.done + 1))
  }

  ghost function Next(l: Layout, s: State, e: Event): State
    requires Enabled(l, s, e)
  {
    match e
    case Begin(t) => s.(phase := Committing(s.disk, t, 0))
    case Crash => s.(phase := Down)
    case Boot => s.(phase := Recovering(s.disk, 0))
    case WriteNext =>
      if s.phase.Committing? then CommitStep(l, s, CommitWrites(l, s.phase.base, s.phase.txn)[s.phase.done])
      else RecoverStep(l, s, RecoverWrites(l, s.phase.base)[s.phase.done])
    case Finish => s.(phase := Idle)
  }

  /** A freshly made file system that has not been booted yet. */
  ghost predicate Initial(l: Layout, s: State) {
    Erased(l, s.disk) && s.phase.Down? && s.committed == []
  }

  ghost predicate Legal(l: Layout, s: State, es: seq<Event>)
    decreases |es|
  {
    es != [] ==> Enabled(l, s, es[0]) && Legal(l, Next(l, s, es[0]), es[1..])
  }

  ghost function Exec(l: Layout, s: State, es: seq<Event>): State
    requires Legal(l, s, es)
    decreases |es|
  {
    if es == [] then s else Exec(l, Next(l, s, es[0]), es[1..])
  }

  /** The home blocks after a list of transactions, each applied as a whole. */
  ghost function Replay(l: Layout, d: Image, ts: seq<Txn>): (r: Image)
    requires |d| == l.size && forall i :: 0 <= i < |ts| ==> ts[i].Valid(l)
    ensures |r| == |d|
  {
    if ts == [] then d
    else Install(l, Replay(l, d, ts[..|ts| - 1]), ts[|ts| - 1])
  }

  /** Recovering the disk d would give the initial homes plus the transactions ts. */
  ghost predicate Holds(l: Layout, init: Image, ts: seq<Txn>, d: Image) {
    && |init| == l.size
    && (forall i :: 0 <= i < |ts| ==> ts[i].Valid(l))
    && DiskOk(l, d)
    && SameHomes(l, Recover(l, d), Replay(l, init, ts))
  }

  /** d, after the first k writes of committing t to base. */
  ghost predicate MidCommit(l: Layout, base: Image, t: Txn, k: nat, d: Image) {
    && Erased(l, base) && t.Valid(l) && k <= |CommitWrites(l, base, t)|
    && InRange(base, CommitWrites(l, base, t))
    && d == Apply(base, CommitWrites(l, base, t)[..k])
  }

  /** d, after the first k writes of recovering base. */
  ghost predicate MidRecovery(l: Layout, base: Image, k: nat, d: Image) {
    && DiskOk(l, base) && k <= |RecoverWrites(l, base)|
    && InRange(base, RecoverWrites(l, base))
    && d == Apply(base, RecoverWrites(l, base)[..k])
  }

  ghost predicate Inv(l: Layout, init: Image, s: State) {
    && Holds(l, init, s.committed, s.disk)
    && match s.phase
       case Idle => Erased(l, s.disk)
       case Down => true
       case Committing(base, t, k) =>
         && MidCommit(l, base, t, k, s.disk)
         && (k > CommitPoint(t) ==> s.committed != [] && s.committed[|s.committed| - 1] == t)
       case Recovering(base, k) => MidRecovery(l, base, k, s.disk)
  }
}
