/** Log space reservation (begin_op, log_write and end_op of kernel/log.c) over
    all interleavings of file system operations.  Each call runs under log.lock
    and is one step. */
module Reservation {
  import opened LogCalls
  import L = LogDisk

  const LOGBLOCKS: nat := L.LOGBLOCKS

  /** What one process is doing; `added` counts the entries its operation has
      appended to the log so far. */
  datatype Op = Out | In(added: nat)

  /** log.lh.block, log.outstanding and log.committing, and who is inside. */
  datatype State = State(blocks: seq<nat>, outstanding: int, committing: bool, ops: seq<Op>)

  datatype Outcome = Ok(s: State) | Sleep | Panic

  datatype Event =
    | BeginOp(p: nat)
    | LogWrite(p: nat, b: nat)
    | EndOp(p: nat)
    | CommitDone

  /** One pass of the loop in begin_op. */
  function Begin(s: State, p: nat): Outcome
    requires p < |s.ops|
  {
    if s.committing then Sleep
    else if |s.blocks| + (s.outstanding + 1) * MAXOPBLOCKS > LOGBLOCKS then Sleep
    else Ok(s.(outstanding := s.outstanding + 1, ops := s.ops[p := In(0)]))
  }

  /** log_write of block b: the size test comes before absorption. */
  function Log(s: State, p: nat, b: nat): Outcome
    requires p < |s.ops| && s.ops[p].In?
  {
    if |s.blocks| >= LOGBLOCKS then Panic
    else if s.outstanding < 1 then Panic
    else if b in s.blocks then Ok(s)
    else Ok(s.(blocks := s.blocks + [b], ops := s.ops[p := In(s.ops[p].added + 1)]))
  }

  /** end_op up to the point where it releases log.lock. */
  function End(s: State, p: nat): Outcome
    requires p < |s.ops|
  {
    if s.committing then Panic
    else Ok(s.(outstanding := s.outstanding - 1, committing := s.outstanding - 1 == 0, ops := s.ops[p := Out]))
  }

  /** The last part of end_op, after commit() has emptied the log. */
  function Done(s: State): Outcome {
    Ok(s.(blocks := [], committing := false))
  }

  /** The calls a file system operation may make: it begins once, logs while it
      is inside and has added fewer than MAXOPBLOCKS entries, and ends once. */
  predicate Allowed(s: State, e: Event) {
    match e
    case BeginOp(p) => p < |s.ops| && s.ops[p].Out?
    case LogWrite(p, b) => p < |s.ops| && s.ops[p].In? && s.ops[p].added < MAXOPBLOCKS
    case EndOp(p) => p < |s.ops| && s.ops[p].In?
    case CommitDone => s.committing
  }

  function Step(s: State, e: Event): Outcome
    requires Allowed(s, e)
  {
    match e
    case BeginOp(p) => Begin(s, p)
    case LogWrite(p, b) => Log(s, p, b)
    case EndOp(p) => End(s, p)
    case CommitDone => Done(s)
  }

  // ----- the invariant

  function Count(ops: seq<Op>): nat {
    if ops == [] then 0 else (if ops[0].In? then 1 else 0) + Count(ops[1..])
  }

  /** What the operations inside may still append. */
  function Unspent(ops: seq<Op>): int {
    if ops == [] then 0
    else (if ops[0].In? then MAXOPBLOCKS - ops[0].added else 0) + Unspent(ops[1..])
  }

  ghost predicate Inv(s: State) {
    && (forall i, j :: 0 <= i < j < |s.blocks| ==> s.blocks[i] != s.blocks[j])
    && s.outstanding == Count(s.ops)
    && |s.blocks| + Unspent(s.ops) <= LOGBLOCKS
    && (forall p :: 0 <= p < |s.ops| && s.ops[p].In? ==> s.ops[p].added <= MAXOPBLOCKS)
    && (s.committing ==> s.outstanding == 0)
    && (s.outstanding == 0 && !s.committing ==> s.blocks == [])
  }

  lemma {:induction false} SumsUpdate(ops: seq<Op>, p: nat, o: Op)
    requires p < |ops|
    ensures Count(ops[p := o]) == Count(ops) - (if ops[p].In? then 1 else 0) + (if o.In? then 1 else 0)
    ensures Unspent(ops[p := o]) ==
            Unspent(ops) - (if ops[p].In? then MAXOPBLOCKS - ops[p].added else 0)
                         + (if o.In? then MAXOPBLOCKS - o.added else 0)
  {
    if p == 0 {
      assert ops[p := o][1..] == ops[1..];
    } else {
      assert ops[p := o][1..] == ops[1..][p - 1 := o];
      SumsUpdate(ops[1..], p - 1, o);
    }
  }

  /** Budgets still held are not negative, and one operation's is part of the sum. */
  lemma {:induction false} SumsBound(ops: seq<Op>, p: nat)
    requires p < |ops|
    requires forall i :: 0 <= i < |ops| && ops[i].In? ==> ops[i].added <= MAXOPBLOCKS
    ensures Unspent(ops) >= (if ops[p].In? then MAXOPBLOCKS - ops[p].added else 0) >= 0
    ensures Count(ops) >= if ops[p].In? then 1 else 0
  {
    if p > 0 {
      SumsBound(ops[1..], p - 1);
    } else if |ops| > 1 {
      SumsBound(ops[1..], 0);
    }
  }

  /** The operations inside never have more than MAXOPBLOCKS each left to spend. */
  lemma {:induction false} UnspentBound(ops: seq<Op>)
    ensures Unspent(ops) <= MAXOPBLOCKS * Count(ops)
  {
    if ops != [] {
      UnspentBound(ops[1..]);
    }
  }

  lemma {:induction false} StepKeepsInv(s: State, e: Event)
    requires Inv(s) && Allowed(s, e)
    ensures !Step(s, e).Panic?
    ensures Step(s, e).Ok? ==> Inv(Step(s, e).s) && |Step(s, e).s.ops| == |s.ops|
  {
    match e
    case BeginOp(p) =>
      UnspentBound(s.ops);
      SumsUpdate(s.ops, p, In(0));
      if Begin(s, p).Ok? {
        SumsBound(Begin(s, p).s.ops, p);
      }
    case LogWrite(p, b) =>
      SumsBound(s.ops, p);
      SumsUpdate(s.ops, p, In(s.ops[p].added + 1));
    case EndOp(p) =>
      SumsBound(s.ops, p);
      SumsUpdate(s.ops, p, Out);
    case CommitDone =>
  }

  // ----- every run

  /** The states a run goes through; a sleeping begin_op changes nothing and is
      tried again later. */
  ghost predicate Legal(s: State, es: seq<Event>)
    decreases |es|
  {
    es != [] ==> Allowed(s, es[0]) && (Step(s, es[0]).Panic? || Legal(After(s, es[0]), es[1..]))
  }

  function After(s: State, e: Event): State
    requires Allowed(s, e) && !Step(s, e).Panic?
  {
    if Step(s, e).Ok? then Step(s, e).s else s
  }

  ghost predicate Panics(s: State, es: seq<Event>)
    requires Legal(s, es)
    decreases |es|
  {
    es != [] && (Step(s, es[0]).Panic? || Panics(After(s, es[0]), es[1..]))
  }

  ghost function Exec(s: State, es: seq<Event>): State
    requires Legal(s, es) && !Panics(s, es)
    decreases |es|
  {
    if es == [] then s else Exec(After(s, es[0]), es[1..])
  }

  ghost predicate Initial(s: State) {
    s.blocks == [] && s.outstanding == 0 && !s.committing && forall p :: 0 <= p < |s.ops| ==> s.ops[p].Out?
  }

  lemma {:induction false} SumsZero(ops: seq<Op>)
    requires forall p :: 0 <= p < |ops| ==> ops[p].Out?
    ensures Count(ops) == 0 && Unspent(ops) == 0
  {
    if ops != [] {
      SumsZero(ops[1..]);
    }
  }

  lemma {:induction false} RunKeepsInv(s: State, es: seq<Event>)
    requires Inv(s) && Legal(s, es)
    ensures !Panics(s, es)
    ensures Inv(Exec(s, es))
    decreases |es|
  {
    if es != [] {
      StepKeepsInv(s, es[0]);
      RunKeepsInv(After(s, es[0]), es[1..]);
    }
  }

  /** Reservation is sound: whatever the operations do and however they
      interleave, no call panics, the log has room for everything the operations
      inside may still add, its entries are distinct, and nobody is inside
      during a commit. */
  lemma {:induction false} ReservationSafety(s: State, es: seq<Event>)
    requires Initial(s) && Legal(s, es)
    ensures !Panics(s, es)
    ensures var f := Exec(s, es);
            && |f.blocks| + Unspent(f.ops) <= LOGBLOCKS
            && (forall i, j :: 0 <= i < j < |f.blocks| ==> f.blocks[i] != f.blocks[j])
            && f.outstanding == Count(f.ops)
            && (f.committing ==> f.outstanding == 0)
  {
    SumsZero(s.ops);
    RunKeepsInv(s, es);
  }

  /** begin_op does not starve on an idle log: once nobody is inside and no
      commit is under way, it is admitted. */
  lemma {:induction false} IdleAdmits(s: State, es: seq<Event>, p: nat)
    requires Initial(s) && Legal(s, es) && !Panics(s, es)
    requires p < |Exec(s, es).ops|
    ensures var f := Exec(s, es);
            f.outstanding == 0 && !f.committing ==> Begin(f, p).Ok?
  {
    SumsZero(s.ops);
    RunKeepsInv(s, es);
  }

  /** begin_op is admitted exactly when no commit is under way and, with what is logged, a full
      reservation for every operation inside and the new one fits into the log. */
  lemma {:induction false} AdmittedIffFits(s: State, es: seq<Event>, p: nat)
    requires Initial(s) && Legal(s, es) && !Panics(s, es)
    requires p < |Exec(s, es).ops|
    ensures var f := Exec(s, es);
            && (Begin(f, p).Ok? <==> !f.committing && |f.blocks| + (Count(f.ops) + 1) * MAXOPBLOCKS <= LOGBLOCKS)
            && !Begin(f, p).Panic?
  {
    SumsZero(s.ops);
    RunKeepsInv(s, es);
  }

  /** At most LOGBLOCKS / MAXOPBLOCKS operations are ever inside at once. */
  lemma {:induction false} AdmissionBound(s: State, p: nat)
    requires p < |s.ops| && Begin(s, p).Ok?
    ensures Begin(s, p).s.outstanding <= LOGBLOCKS / MAXOPBLOCKS
  {
    assert MAXOPBLOCKS * (s.outstanding + 1) <= LOGBLOCKS;
  }

  // ----- operations that count blocks, not entries

  /** ws lists what each operation inside has passed to log_write: all of it is in the log, and
      it has added no more entries than it has passed different blocks. */
  ghost predicate Tracks(s: State, ws: seq<seq<nat>>) {
    && |ws| == |s.ops|
    && forall p :: 0 <= p < |s.ops| && s.ops[p].In? ==> s.ops[p].added <= |Elems(ws[p])| && forall b :: b in ws[p] ==>
        b in s.blocks
  }

  /** What file system code may do, which cannot see who added an entry: an operation calls
      log_write as long as it has passed fewer than MAXOPBLOCKS different blocks to it. */
  ghost predicate Behaved(s: State, ws: seq<seq<nat>>, e: Event) {
    match e
    case BeginOp(p) => p < |s.ops| && s.ops[p].Out?
    case LogWrite(p, b) => p < |s.ops| && s.ops[p].In? && p < |ws| && |Elems(ws[p])| < MAXOPBLOCKS
    case EndOp(p) => p < |s.ops| && s.ops[p].In?
    case CommitDone => s.committing
  }

  ghost function Passed(s: State, ws: seq<seq<nat>>, e: Event): seq<seq<nat>>
    requires Allowed(s, e) && |ws| == |s.ops|
  {
    match e
    case BeginOp(p) => if Begin(s, p).Ok? then ws[p := []] else ws
    case LogWrite(p, b) => ws[p := ws[p] + [b]]
    case _ => ws
  }

  ghost predicate Disciplined(s: State, ws: seq<seq<nat>>, es: seq<Event>)
    requires |ws| == |s.ops|
    decreases |es|
  {
    es != [] ==>
      && Behaved(s, ws, es[0])
      && (Allowed(s, es[0]) && !Step(s, es[0]).Panic? ==> Disciplined(After(s, es[0]), Passed(s, ws, es[0]), es[1..]))
  }

  lemma {:induction false} StepKeepsTracks(s: State, ws: seq<seq<nat>>, e: Event)
    requires Inv(s) && Tracks(s, ws) && Behaved(s, ws, e)
    ensures Allowed(s, e) && !Step(s, e).Panic? && Tracks(After(s, e), Passed(s, ws, e))
  {
    StepKeepsInv(s, e);
    if e.LogWrite? {
      LogTracks(s, ws, e.p, e.b);
    } else if e.CommitDone? {
      NobodyInside(s.ops);
    }
  }

  lemma {:induction false} LogTracks(s: State, ws: seq<seq<nat>>, p: nat, b: nat)
    requires Inv(s) && Tracks(s, ws) && p < |s.ops| && s.ops[p].In? && Log(s, p, b).Ok?
    ensures Tracks(Log(s, p, b).s, ws[p := ws[p] + [b]])
  {
    assert Elems(ws[p] + [b]) == Elems(ws[p]) + {b};
  }

  lemma {:induction false} NobodyInside(ops: seq<Op>)
    requires Count(ops) == 0
    ensures forall p :: 0 <= p < |ops| ==> ops[p].Out?
  {
    if ops != [] {
      NobodyInside(ops[1..]);
      forall p | 0 <= p < |ops| ensures ops[p].Out? {
        assert p > 0 ==> ops[p] == ops[1..][p - 1];
      }
    }
  }

  lemma {:induction false} DisciplinedFrom(s: State, ws: seq<seq<nat>>, es: seq<Event>)
    requires Inv(s) && Tracks(s, ws) && Disciplined(s, ws, es)
    ensures Legal(s, es)
    decreases |es|
  {
    if es != [] {
      StepKeepsTracks(s, ws, es[0]);
      StepKeepsInv(s, es[0]);
      DisciplinedFrom(After(s, es[0]), Passed(s, ws, es[0]), es[1..]);
    }
  }

  /** Counting the different blocks it passes is enough for an operation to stay within its
      reservation, whatever the others do: no such run panics. */
  lemma {:induction false} BlockBudgetSuffices(s: State, ws: seq<seq<nat>>, es: seq<Event>)
    requires Initial(s) && |ws| == |s.ops| && Disciplined(s, ws, es)
    ensures Legal(s, es) && !Panics(s, es)
  {
    SumsZero(s.ops);
    DisciplinedFrom(s, ws, es);
    RunKeepsInv(s, es);
  }

  // ----- the limit on added entries is exact

  /** In a state that satisfies the invariant, log_write panics exactly when the
      log is full, even for a block that is already in it. */
  lemma {:induction false} LogPanicsIffFull(s: State, p: nat, b: nat)
    requires Inv(s) && p < |s.ops| && s.ops[p].In?
    ensures Log(s, p, b).Panic? <==> |s.blocks| == LOGBLOCKS
  {
    SumsBound(s.ops, p);
  }

  /** f is s after operation p has appended k new blocks, with the smallest numbers unused. */
  ghost predicate Filled(s: State, p: nat, k: nat, f: State) {
    && Inv(f) && |f.blocks| == |s.blocks| + k && p < |s.ops|
    && (forall i :: 0 <= i < |f.blocks| ==> f.blocks[i] < |f.blocks|)
    && f.ops == s.ops[p := In(k)] && f.outstanding == s.outstanding && f.committing == s.committing
  }

  /** A run in which operation p does that. */
  lemma {:induction false} Fill(s: State, p: nat, k: nat) returns (es: seq<Event>)
    requires p < |s.ops| && s.ops[p] == In(0) && k <= MAXOPBLOCKS && Filled(s, p, 0, s)
    ensures Legal(s, es) && !Panics(s, es) && Filled(s, p, k, Exec(s, es))
    decreases k
  {
    if k == 0 {
      es := [];
    } else {
      var pre := Fill(s, p, k - 1);
      var m := Exec(s, pre);
      var e := LogWrite(p, |m.blocks|);
      FillStep(s, p, k, m, e);
      ExecOne(m, e);
      ExecConcat(s, pre, [e]);
      es := pre + [e];
    }
  }

  lemma {:induction false} FillStep(s: State, p: nat, k: nat, m: State, e: Event)
    requires 0 < k <= MAXOPBLOCKS && Filled(s, p, k - 1, m) && e == LogWrite(p, |m.blocks|)
    ensures Allowed(m, e) && !Step(m, e).Panic? && Filled(s, p, k, After(m, e))
  {
    StepKeepsInv(m, e);
  }

  lemma {:induction false} ExecOne(s: State, e: Event)
    requires Allowed(s, e) && !Step(s, e).Panic?
    ensures Legal(s, [e]) && !Panics(s, [e]) && Exec(s, [e]) == After(s, e)
  {
    assert [e][1..] == [];
    assert Legal(After(s, e), []) && Exec(After(s, e), []) == After(s, e);
  }

  lemma {:induction false} ExecConcat(s: State, es: seq<Event>, fs: seq<Event>)
    requires Legal(s, es) && !Panics(s, es) && Legal(Exec(s, es), fs) && !Panics(Exec(s, es), fs)
    ensures Legal(s, es + fs) && !Panics(s, es + fs)
    ensures Exec(s, es + fs) == Exec(Exec(s, es), fs)
    decreases |es|
  {
    if es == [] {
      assert es + fs == fs;
    } else {
      assert (es + fs)[1..] == es[1..] + fs;
      ExecConcat(After(s, es[0]), es[1..], fs);
    }
  }

  /** "Fewer than" cannot be relaxed to "at most": three operations can each
      add their MAXOPBLOCKS entries, and then a log_write that would add nothing
      (the block is already logged) panics. */
  lemma {:induction false} FullBudgetCanPanic() returns (s: State, es: seq<Event>, p: nat, b: nat)
    ensures Initial(s) && Legal(s, es) && !Panics(s, es)
    ensures var f := Exec(s, es);
            && p < |f.ops| && f.ops[p] == In(MAXOPBLOCKS) && b in f.blocks
            && Log(f, p, b).Panic?
  {
    s := State([], 0, false, [Out, Out, Out]);
    SumsZero(s.ops);
    var begins := [BeginOp(0), BeginOp(1), BeginOp(2)];
    assert Legal(s, begins) by { BeginThree(s, begins); }
    RunKeepsInv(s, begins);
    BeginThree(s, begins);
    var s3 := Exec(s, begins);
    var fill := FillThree(s3);
    ExecConcat(s, begins, fill);
    es := begins + fill;
    var f := Exec(s, es);
    p, b := 0, f.blocks[0];
  }

  lemma {:induction false} FillThree(s: State) returns (es: seq<Event>)
    requires s == State([], 3, false, [In(0), In(0), In(0)]) && Inv(s)
    ensures Legal(s, es) && !Panics(s, es)
    ensures var f := Exec(s, es); |f.blocks| == LOGBLOCKS && |f.ops| == 3 && f.ops[0] == In(MAXOPBLOCKS)
  {
    var f0 := Fill(s, 0, MAXOPBLOCKS);
    var s1 := Exec(s, f0);
    var f1 := Fill(s1, 1, MAXOPBLOCKS);
    var s2 := Exec(s1, f1);
    var f2 := Fill(s2, 2, MAXOPBLOCKS);
    ExecConcat(s1, f1, f2);
    ExecConcat(s, f0, f1 + f2);
    es := f0 + (f1 + f2);
  }

  lemma {:induction false} BeginThree(s: State, es: seq<Event>)
    requires s == State([], 0, false, [Out, Out, Out]) && es == [BeginOp(0), BeginOp(1), BeginOp(2)]
    ensures Legal(s, es) && !Panics(s, es)
    ensures Exec(s, es) == State([], 3, false, [In(0), In(0), In(0)])
  {
    var s1 := After(s, es[0]);
    var s2 := After(s1, es[1]);
    var s3 := After(s2, es[2]);
    assert es[1..][0] == es[1] && es[1..][1..] == es[2..] && es[2..][0] == es[2] && es[2..][1..] == [];
    assert Legal(s3, []) && !Panics(s3, []) && Exec(s3, []) == s3;
    assert Legal(s2, es[2..]) && !Panics(s2, es[2..]) && Exec(s2, es[2..]) == s3;
    assert Legal(s1, es[1..]) && !Panics(s1, es[1..]) && Exec(s1, es[1..]) == s3;
  }
}
