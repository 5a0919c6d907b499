/** Crash safety of the write-ahead log (kernel/log.c).

    A transaction is committed by a fixed sequence of single-block writes, and
    recovery performs another one.  The machine below takes these writes one at
    a time and may crash between any two of them, any number of times, including
    inside recovery.  CrashAtomicity says what recovery would reconstruct at
    every moment of every run. */
module LogCrash {
  import opened Disk
  import opened LogDisk
  import opened LogMachine

  /** Install means: logged blocks get their new contents, the rest stays. */
  lemma {:induction false} InstallAt(l: Layout, d: Image, t: Txn)
    requires |d| == l.size && t.Valid(l)
    ensures forall i :: 0 <= i < |t.blocks| ==> Install(l, d, t)[t.blocks[i]] == t.data[i]
    ensures forall b: nat :: b < |d| && b !in t.blocks ==> Install(l, d, t)[b] == d[b]
  {
    var ws := HomeWrites(t);
    assert InRange(d, ws) by {
      forall i | 0 <= i < |t.blocks| ensures t.blocks[i] < |d| { assert l.Home(t.blocks[i]); }
    }
    forall i | 0 <= i < |t.blocks| ensures Apply(d, ws)[t.blocks[i]] == t.data[i] {
      assert ws[i] == Write(t.blocks[i], t.data[i]);
      ApplyHit(d, ws, i);
    }
    forall b: nat | b < |d| && b !in t.blocks ensures Apply(d, ws)[b] == d[b] {
      ApplyMiss(d, ws, b);
    }
  }

  lemma {:induction false} InstallSameHomes(l: Layout, d: Image, e: Image, t: Txn)
    requires t.Valid(l) && SameHomes(l, d, e)
    ensures SameHomes(l, Install(l, d, t), Install(l, e, t))
  {
    InstallAt(l, d, t);
    InstallAt(l, e, t);
    forall b: nat | l.Home(b) ensures Install(l, d, t)[b] == Install(l, e, t)[b] {
      if b in t.blocks {
        var i :| 0 <= i < |t.blocks| && t.blocks[i] == b;
      }
    }
  }

  /** Recovery erases the log and installs exactly what was logged. */
  lemma {:induction false} RecoverMeaning(l: Layout, d: Image)
    requires DiskOk(l, d)
    ensures Erased(l, Recover(l, d))
    ensures SameHomes(l, Recover(l, d), Install(l, d, Logged(l, d)))
  {
    RecoverInRange(l, d);
    var t := Logged(l, d);
    var h := PutHead(d[l.start], []);
    assert RecoverWrites(l, d) == HomeWrites(t) + [Write(l.start, h)];
    ApplyAppend(d, HomeWrites(t), Write(l.start, h));
    HeadRoundTrip(l, d[l.start], []);
  }

  /** Recovering a disk whose log is erased changes no home block. */
  lemma {:induction false} RecoverErased(l: Layout, d: Image)
    requires Erased(l, d)
    ensures SameHomes(l, Recover(l, d), d)
  {
    RecoverMeaning(l, d);
    InstallAt(l, d, Logged(l, d));
  }

  /** Recovery is idempotent. */
  lemma {:induction false} RecoverIdempotent(l: Layout, d: Image)
    requires DiskOk(l, d)
    ensures DiskOk(l, Recover(l, d))
    ensures SameHomes(l, Recover(l, Recover(l, d)), Recover(l, d))
  {
    RecoverMeaning(l, d);
    RecoverErased(l, Recover(l, d));
  }

  /** Two disks with the same header, the same log blocks where the header
      counts them, and homes that differ at most where the log will overwrite
      them, recover to the same homes. */
  lemma {:induction false} RecoverDependsOn(l: Layout, d: Image, e: Image)
    requires DiskOk(l, d) && |e| == |d| && e[l.start] == d[l.start]
    requires forall b: nat :: l.start < b <= l.start + d[l.start][0] ==> e[b] == d[b]
    requires forall b: nat :: l.Home(b) && b !in Logged(l, d).blocks ==> e[b] == d[b]
    ensures DiskOk(l, e) && Logged(l, e) == Logged(l, d)
    ensures SameHomes(l, Recover(l, e), Recover(l, d))
  {
    var t := Logged(l, d);
    LoggedIs(l, e, t);
    RecoverMeaning(l, d);
    RecoverMeaning(l, e);
    InstallAt(l, d, t);
    InstallAt(l, e, t);
    forall b: nat | l.Home(b) ensures Install(l, d, t)[b] == Install(l, e, t)[b] {
      if b in t.blocks {
        var i :| 0 <= i < |t.blocks| && t.blocks[i] == b;
      }
    }
  }

  /** A crash after any k writes of recovery loses nothing: recovering again
      reaches the same homes. */
  lemma {:induction false} RecoverPrefix(l: Layout, d: Image, k: nat, e: Image)
    requires DiskOk(l, d) && k <= |RecoverWrites(l, d)| && InRange(d, RecoverWrites(l, d))
    requires e == Apply(d, RecoverWrites(l, d)[..k])
    ensures DiskOk(l, e) && SameHomes(l, Recover(l, e), Recover(l, d))
  {
    var ws := RecoverWrites(l, d);
    var t := Logged(l, d);
    var n := |t.blocks|;
    if k == n + 1 {
      assert ws[..k] == ws;
      RecoverIdempotent(l, d);
    } else {
      assert ws[..k] == HomeWrites(t)[..k];
      forall b: nat | b < |d| && b !in t.blocks ensures e[b] == d[b] {
        ApplyMiss(d, ws[..k], b);
      }
      HomesMissLog(l, t.blocks);
      RecoverDependsOn(l, d, e);
    }
  }

  lemma {:induction false} HomesMissLog(l: Layout, blocks: seq<nat>)
    requires l.Valid() && Loggable(l, blocks)
    ensures forall b: nat :: l.start <= b <= l.start + LOGBLOCKS ==> b !in blocks
  {
    assert forall b :: b in blocks ==> l.Home(b);
  }

  // ----- a crash inside commit

  /** A crash after k writes of commit: recovery yields the old homes as long as
      the header has not been written, and the new ones from then on. */
  lemma {:induction false} CommitPrefix(l: Layout, d: Image, t: Txn, k: nat, e: Image)
    requires Erased(l, d) && t.Valid(l) && k <= |CommitWrites(l, d, t)| && InRange(d, CommitWrites(l, d, t))
    requires e == Apply(d, CommitWrites(l, d, t)[..k])
    ensures DiskOk(l, e) && SameHomes(l, Recover(l, e), if k <= CommitPoint(t) then d else Install(l, d, t))
  {
    if |t.blocks| == 0 {
      assert CommitWrites(l, d, t)[..k] == [];
      RecoverErased(l, d);
    } else if k <= CommitPoint(t) {
      BeforeCommitPoint(l, d, t, k, e);
    } else {
      AfterCommitPoint(l, d, t, k, e);
    }
  }

  lemma {:induction false} BeforeCommitPoint(l: Layout, d: Image, t: Txn, k: nat, e: Image)
    requires Erased(l, d) && t.Valid(l) && 0 < |t.blocks| && k <= |t.blocks| && InRange(d, CommitWrites(l, d, t))
    requires e == Apply(d, CommitWrites(l, d, t)[..k])
    ensures DiskOk(l, e) && SameHomes(l, Recover(l, e), d)
  {
    var ws := CommitWrites(l, d, t)[..k];
    assert forall i :: 0 <= i < k ==> ws[i] == LogWrites(l, t)[i];
    ApplyMiss(d, ws, l.start);
    forall b: nat | l.Home(b) ensures e[b] == d[b] {
      ApplyMiss(d, ws, b);
    }
    RecoverErased(l, e);
  }

  /** The disk c right after the header write, w. */
  lemma {:induction false} AtCommitPoint(l: Layout, d: Image, t: Txn, w: Write, c: Image)
    requires Erased(l, d) && t.Valid(l) && w == Write(l.start, PutHead(d[l.start], t.blocks))
    requires InRange(d, LogWrites(l, t) + [w]) && c == Apply(d, LogWrites(l, t) + [w])
    ensures DiskOk(l, c) && Logged(l, c) == t && c[l.start] == w.data
    ensures forall b: nat :: l.Home(b) ==> c[b] == d[b]
  {
    LogWritesMeaning(l, d, t);
    ApplyAppend(d, LogWrites(l, t), w);
    HeadRoundTrip(l, d[l.start], t.blocks);
    LoggedIs(l, c, t);
  }

  lemma {:induction false} LoggedIs(l: Layout, c: Image, t: Txn)
    requires DiskOk(l, c) && |t.blocks| == |t.data| && GetHead(l, c[l.start]) == t.blocks
    requires forall i {:trigger t.data[i]} :: 0 <= i < |t.data| ==> c[l.start + 1 + i] == t.data[i]
    ensures Logged(l, c) == t
  {
    assert c[l.start + 1..l.start + 1 + |t.data|] == t.data;
  }

  lemma {:induction false} LogWritesMeaning(l: Layout, d: Image, t: Txn)
    requires l.Valid() && |d| == l.size && t.Valid(l)
    ensures InRange(d, LogWrites(l, t))
    ensures forall i {:trigger t.data[i]} :: 0 <= i < |t.data| ==>
            Apply(d, LogWrites(l, t))[l.start + 1 + i] == t.data[i]
    ensures forall b: nat :: b < |d| && !(l.start < b <= l.start + |t.data|) ==> Apply(d, LogWrites(l, t))[b] == d[b]
  {
    var ws := LogWrites(l, t);
    forall i | 0 <= i < |t.data| ensures Apply(d, ws)[l.start + 1 + i] == t.data[i] {
      assert ws[i] == Write(l.start + 1 + i, t.data[i]);
      ApplyHit(d, ws, i);
    }
    forall b: nat | b < |d| && !(l.start < b <= l.start + |t.data|) ensures Apply(d, ws)[b] == d[b] {
      ApplyMiss(d, ws, b);
    }
  }

  /** What commit writes: a up to the commit point, then b. */
  lemma {:induction false} CommitHalves(l: Layout, d: Image, t: Txn, w: Write) returns (a: seq<Write>, b: seq<Write>)
    requires DiskOk(l, d) && t.Valid(l) && 0 < |t.blocks| && w == Write(l.start, PutHead(d[l.start], t.blocks))
    ensures CommitWrites(l, d, t) == a + b && a == LogWrites(l, t) + [w] && |a| == |t.blocks| + 1
    ensures b == HomeWrites(t) + [Write(l.start, PutHead(w.data, []))] && InRange(d, a) && InRange(d, b)
  {
    a, b := LogWrites(l, t) + [w], HomeWrites(t) + [Write(l.start, PutHead(w.data, []))];
    assert CommitWrites(l, d, t) == a + b;
    CommitInRange(l, d, t);
    forall i | 0 <= i < |a| ensures a[i].bno < |d| {
      assert (a + b)[i] == a[i];
    }
    forall i | 0 <= i < |b| ensures b[i].bno < |d| {
      assert (a + b)[|a| + i] == b[i];
    }
  }

  /** From the commit point on, commit does what recovery would do, and a crash after
      any j of those writes loses nothing. */
  lemma {:induction false} AfterPoint(l: Layout, d: Image, t: Txn, c: Image, b: seq<Write>, j: nat, e: Image)
    requires t.Valid(l) && |d| == l.size && DiskOk(l, c) && Logged(l, c) == t && b == RecoverWrites(l, c) && j <= |b|
    requires (forall b: nat :: l.Home(b) ==> c[b] == d[b]) && InRange(c, b) && e == Apply(c, b[..j])
    ensures DiskOk(l, e) && SameHomes(l, Recover(l, e), Install(l, d, t))
  {
    RecoverPrefix(l, c, j, e);
    RecoveredInstall(l, d, t, c);
    SameHomesThen(l, Recover(l, e), Recover(l, c), Install(l, d, t));
  }

  lemma {:induction false} SameHomesThen(l: Layout, d: Image, e: Image, f: Image)
    requires SameHomes(l, d, e) && SameHomes(l, e, f)
    ensures SameHomes(l, d, f)
  {
  }

  lemma {:induction false} AfterCommitPoint(l: Layout, d: Image, t: Txn, k: nat, e: Image)
    requires Erased(l, d) && t.Valid(l) && 0 < |t.blocks| < k <= |CommitWrites(l, d, t)| &&
             InRange(d, CommitWrites(l, d, t))
    requires e == Apply(d, CommitWrites(l, d, t)[..k])
    ensures DiskOk(l, e) && SameHomes(l, Recover(l, e), Install(l, d, t))
  {
    var w := Write(l.start, PutHead(d[l.start], t.blocks));
    var a, b := CommitHalves(l, d, t, w);
    var c, j := Apply(d, a), k - |a|;
    AtCommitPoint(l, d, t, w, c);
    ApplyParts(d, a, b, CommitWrites(l, d, t), k, j, c, e);
    AfterPoint(l, d, t, c, b, j, e);
  }

  lemma {:induction false} RecoveredInstall(l: Layout, d: Image, t: Txn, c: Image)
    requires t.Valid(l) && |d| == l.size && DiskOk(l, c) && Logged(l, c) == t
    requires forall b: nat :: l.Home(b) ==> c[b] == d[b]
    ensures Erased(l, Recover(l, c)) && SameHomes(l, Recover(l, c), Install(l, d, t))
  {
    RecoverMeaning(l, c);
    InstallSameHomes(l, c, d, t);
  }

  /** A commit that runs to its end erases the log and installs its blocks. */
  lemma {:induction false} CommitComplete(l: Layout, d: Image, t: Txn)
    requires Erased(l, d) && t.Valid(l)
    ensures InRange(d, CommitWrites(l, d, t))
    ensures var e := Apply(d, CommitWrites(l, d, t));
            Erased(l, e) && SameHomes(l, e, Install(l, d, t))
  {
    CommitInRange(l, d, t);
    var ws := CommitWrites(l, d, t);
    if |t.blocks| == 0 {
      InstallAt(l, d, t);
    } else {
      var w := Write(l.start, PutHead(d[l.start], t.blocks));
      var a, b := CommitHalves(l, d, t, w);
      var c := Apply(d, a);
      AtCommitPoint(l, d, t, w, c);
      ApplyConcat(d, a, b);
      RecoveredInstall(l, d, t, c);
    }
  }

  // ----- the machine

  lemma {:induction false} ReplayAppend(l: Layout, d: Image, ts: seq<Txn>, t: Txn)
    requires |d| == l.size && t.Valid(l) && forall i :: 0 <= i < |ts| ==> ts[i].Valid(l)
    ensures forall i :: 0 <= i < |ts + [t]| ==> (ts + [t])[i].Valid(l)
    ensures Replay(l, d, ts + [t]) == Install(l, Replay(l, d, ts), t)
  {
    assert (ts + [t])[..|ts|] == ts;
  }

  lemma {:induction false} CommitStepKeepsInv(l: Layout, init: Image, s: State, w: Write)
    requires Inv(l, init, s) && s.phase.Committing?
    requires s.phase.done < |CommitWrites(l, s.phase.base, s.phase.txn)| &&
             w == CommitWrites(l, s.phase.base, s.phase.txn)[s.phase.done]
    ensures w.bno < |s.disk| && Inv(l, init, CommitStep(l, s, w))
  {
    var base, t, k := s.phase.base, s.phase.txn, s.phase.done;
    CommitWriteFits(l, base, t, k, s.disk, w);
    var ts := if k == CommitPoint(t) then s.committed + [t] else s.committed;
    MidCommitStep(l, base, t, k, s.disk, init, s.committed, w, s.disk[w.bno := w.data], ts, k + 1);
  }

  lemma {:induction false} CommitWriteFits(l: Layout, base: Image, t: Txn, k: nat, d: Image, w: Write)
    requires MidCommit(l, base, t, k, d) && k < |CommitWrites(l, base, t)| && w == CommitWrites(l, base, t)[k]
    ensures w.bno < |d|
  {
  }

  lemma {:induction false} MidCommitStep(l: Layout, base: Image, t: Txn, k: nat, d: Image, init: Image, ts: seq<Txn>,
                                         w: Write, e: Image, ts': seq<Txn>, k': nat)
    requires MidCommit(l, base, t, k, d) && k < |CommitWrites(l, base, t)| && Holds(l, init, ts, d) && k' == k + 1
    requires w == CommitWrites(l, base, t)[k] && w.bno < |d| && e == d[w.bno := w.data]
    requires ts' == if k == CommitPoint(t) then ts + [t] else ts
    ensures MidCommit(l, base, t, k', e) && Holds(l, init, ts', e)
  {
    ApplyPrefixStep(base, CommitWrites(l, base, t), k);
    CommitPrefix(l, base, t, k, d);
    CommitPrefix(l, base, t, k', e);
    if k == CommitPoint(t) {
      CommitHolds(l, base, t, d, init, ts, e);
    } else {
      HoldsStill(l, init, ts, d, e, if k < CommitPoint(t) then base else Install(l, base, t));
    }
  }

  lemma {:induction false} HoldsStill(l: Layout, init: Image, ts: seq<Txn>, d: Image, e: Image, homes: Image)
    requires Holds(l, init, ts, d) && DiskOk(l, e)
    requires SameHomes(l, Recover(l, d), homes) && SameHomes(l, Recover(l, e), homes)
    ensures Holds(l, init, ts, e)
  {
  }

  /** The header write adds the transaction to what recovery would give. */
  lemma {:induction false} CommitHolds(l: Layout, base: Image, t: Txn, d: Image, init: Image, ts: seq<Txn>, e: Image)
    requires Holds(l, init, ts, d) && t.Valid(l) && SameHomes(l, Recover(l, d), base)
    requires DiskOk(l, e) && SameHomes(l, Recover(l, e), Install(l, base, t))
    ensures Holds(l, init, ts + [t], e)
  {
    ReplayAppend(l, init, ts, t);
    InstallSameHomes(l, base, Replay(l, init, ts), t);
  }

  lemma {:induction false} RecoverStepKeepsInv(l: Layout, init: Image, s: State, w: Write)
    requires Inv(l, init, s) && s.phase.Recovering?
    requires s.phase.done < |RecoverWrites(l, s.phase.base)| && w == RecoverWrites(l, s.phase.base)[s.phase.done]
    ensures w.bno < |s.disk| && Inv(l, init, RecoverStep(l, s, w))
  {
    var base, k := s.phase.base, s.phase.done;
    assert w.bno < |base|;
    MidRecoveryStep(l, base, k, s.disk, init, s.committed, w, s.disk[w.bno := w.data], k + 1);
  }

  lemma {:induction false} MidRecoveryStep(l: Layout, base: Image, k: nat, d: Image, init: Image, ts: seq<Txn>,
                                           w: Write, e: Image, k': nat)
    requires MidRecovery(l, base, k, d) && k < |RecoverWrites(l, base)| && Holds(l, init, ts, d) && k' == k + 1
    requires w == RecoverWrites(l, base)[k] && w.bno < |d| && e == d[w.bno := w.data]
    ensures MidRecovery(l, base, k', e) && Holds(l, init, ts, e)
  {
    ApplyPrefixStep(base, RecoverWrites(l, base), k);
    RecoverPrefix(l, base, k, d);
    RecoverPrefix(l, base, k', e);
    HoldsStill(l, init, ts, d, e, Recover(l, base));
  }

  lemma {:induction false} BeginKeepsInv(l: Layout, init: Image, s: State, t: Txn)
    requires Inv(l, init, s) && s.phase.Idle? && t.Valid(l)
    ensures Inv(l, init, s.(phase := Committing(s.disk, t, 0)))
  {
    CommitInRange(l, s.disk, t);
    assert Apply(s.disk, CommitWrites(l, s.disk, t)[..0]) == s.disk;
  }

  lemma {:induction false} BootKeepsInv(l: Layout, init: Image, s: State)
    requires Inv(l, init, s) && s.phase.Down?
    ensures Inv(l, init, s.(phase := Recovering(s.disk, 0)))
  {
    RecoverInRange(l, s.disk);
    assert Apply(s.disk, RecoverWrites(l, s.disk)[..0]) == s.disk;
  }

  lemma {:induction false} FinishKeepsInv(l: Layout, init: Image, s: State)
    requires Inv(l, init, s) && Enabled(l, s, Finish)
    ensures Inv(l, init, s.(phase := Idle))
  {
    if s.phase.Committing? {
      var ws := CommitWrites(l, s.phase.base, s.phase.txn);
      assert ws[..|ws|] == ws;
      CommitComplete(l, s.phase.base, s.phase.txn);
    } else {
      var ws := RecoverWrites(l, s.phase.base);
      assert ws[..|ws|] == ws;
      RecoverMeaning(l, s.phase.base);
    }
  }

  lemma {:induction false} StepKeepsInv(l: Layout, init: Image, s: State, e: Event)
    requires Inv(l, init, s) && Enabled(l, s, e)
    ensures Inv(l, init, Next(l, s, e))
    ensures s.committed <= Next(l, s, e).committed
  {
    match e
    case Begin(t) => BeginKeepsInv(l, init, s, t);
    case Crash =>
    case Boot => BootKeepsInv(l, init, s);
    case Finish => FinishKeepsInv(l, init, s);
    case WriteNext =>
      if s.phase.Committing? {
        CommitStepKeepsInv(l, init, s, CommitWrites(l, s.phase.base, s.phase.txn)[s.phase.done]);
      } else {
        RecoverStepKeepsInv(l, init, s, RecoverWrites(l, s.phase.base)[s.phase.done]);
      }
  }

  lemma {:induction false} RunKeepsInv(l: Layout, init: Image, s: State, es: seq<Event>)
    requires Inv(l, init, s) && Legal(l, s, es)
    ensures Inv(l, init, Exec(l, s, es))
    ensures s.committed <= Exec(l, s, es).committed
    decreases |es|
  {
    if es != [] {
      StepKeepsInv(l, init, s, es[0]);
      RunKeepsInv(l, init, Next(l, s, es[0]), es[1..]);
    }
  }

  lemma {:induction false} InitialInv(l: Layout, s: State)
    requires Initial(l, s)
    ensures Inv(l, s.disk, s)
  {
    RecoverErased(l, s.disk);
  }

  /** Crash atomicity: at every moment of every run, recovering now would give
      exactly the home blocks of the committed transactions applied one after
      the other, each of them whole. */
  lemma {:induction false} CrashAtomicity(l: Layout, s: State, es: seq<Event>)
    requires Initial(l, s) && Legal(l, s, es)
    ensures var f := Exec(l, s, es);
            && DiskOk(l, f.disk)
            && (forall i :: 0 <= i < |f.committed| ==> f.committed[i].Valid(l))
            && SameHomes(l, Recover(l, f.disk), Replay(l, s.disk, f.committed))
            && (f.phase.Idle? ==> SameHomes(l, f.disk, Replay(l, s.disk, f.committed)))
  {
    InitialInv(l, s);
    RunKeepsInv(l, s.disk, s, es);
    var f := Exec(l, s, es);
    if f.phase.Idle? {
      RecoverErased(l, f.disk);
    }
  }

  lemma {:induction false} ExecConcat(l: Layout, s: State, es: seq<Event>, fs: seq<Event>)
    requires Legal(l, s, es) && Legal(l, Exec(l, s, es), fs)
    ensures Legal(l, s, es + fs)
    ensures Exec(l, s, es + fs) == Exec(l, Exec(l, s, es), fs)
    decreases |es|
  {
    if es == [] {
      assert es + fs == fs;
    } else {
      assert (es + fs)[1..] == es[1..] + fs;
      ExecConcat(l, Next(l, s, es[0]), es[1..], fs);
    }
  }

  /** Durability: a transaction whose header write completed is among the
      committed ones then and after whatever happens later, at the same place. */
  lemma {:induction false} Durability(l: Layout, s: State, es: seq<Event>, fs: seq<Event>)
    requires Initial(l, s) && Legal(l, s, es) && Legal(l, Exec(l, s, es), fs)
    ensures var m := Exec(l, s, es);
            && Legal(l, s, es + fs) && Exec(l, s, es + fs) == Exec(l, m, fs)
            && m.committed <= Exec(l, m, fs).committed
            && (m.phase.Committing? && m.phase.done > CommitPoint(m.phase.txn) ==>
                  m.committed != [] && m.committed[|m.committed| - 1] == m.phase.txn)
  {
    InitialInv(l, s);
    RunKeepsInv(l, s.disk, s, es);
    RunKeepsInv(l, s.disk, Exec(l, s, es), fs);
    ExecConcat(l, s, es, fs);
  }

  /** Recovery always gets going and always gets through: from a machine that
      is down, booting and writing reaches Idle with the log erased, whatever
      the crash left on the disk. */
  lemma {:induction false} RecoveryTerminates(l: Layout, s: State, es: seq<Event>) returns (fs: seq<Event>)
    requires Initial(l, s) && Legal(l, s, es) && Exec(l, s, es).phase.Down?
    ensures Legal(l, Exec(l, s, es), fs)
    ensures var m := Exec(l, s, es);
            var f := Exec(l, m, fs);
            DiskOk(l, m.disk) && f.phase.Idle? && f.disk == Recover(l, m.disk)
  {
    InitialInv(l, s);
    RunKeepsInv(l, s.disk, s, es);
    var m := Exec(l, s, es);
    StepKeepsInv(l, s.disk, m, Boot);
    var b := Next(l, m, Boot);
    var rest := FinishRecovery(l, s.disk, b);
    fs := [Boot] + rest;
    assert fs[1..] == rest;
  }

  lemma {:induction false} FinishRecovery(l: Layout, init: Image, s: State) returns (fs: seq<Event>)
    requires Inv(l, init, s) && s.phase.Recovering?
    ensures Legal(l, s, fs)
    ensures Exec(l, s, fs).phase.Idle? && Exec(l, s, fs).disk == Recover(l, s.phase.base)
    decreases |RecoverWrites(l, s.phase.base)| - s.phase.done
  {
    var ws := RecoverWrites(l, s.phase.base);
    if s.phase.done == |ws| {
      fs := [Finish];
      assert ws[..|ws|] == ws;
      assert fs[1..] == [];
    } else {
      StepKeepsInv(l, init, s, WriteNext);
      var rest := FinishRecovery(l, init, Next(l, s, WriteNext));
      fs := [WriteNext] + rest;
      assert fs[1..] == rest;
    }
  }
}
