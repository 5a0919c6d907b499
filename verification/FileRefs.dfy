/** Reference counts of open files, the descriptors that hold the references, and the ends of
    pipes (kernel/file.h, kernel/proc.h, kernel/pipe.c): what holds of them, and what one
    change keeps. */
module FileRefs {
  const NOFILE: nat := 16

  datatype FileType = FD_NONE | FD_PIPE | FD_INODE | FD_DEVICE

  datatype File = File(ref: nat, ftype: FileType, readable: bool, writable: bool, pipe: nat)

  /** A process table entry: NOFILE descriptors, each NONE or the number of a file. */
  datatype Proc = Proc(used: bool, ofile: seq<int>)

  const NONE: int := -1

  /** A pipe whose page is allocated, and the files that are its two ends. */
  datatype Ends = Ends(readopen: bool, writeopen: bool, rf: nat, wf: nat)

  // ----- counting

  /** All descriptors of all processes. */
  ghost function Slots(procs: seq<Proc>): multiset<int> {
    if procs == [] then multiset{} else Slots(procs[..|procs| - 1]) + multiset(procs[|procs| - 1].ofile)
  }

  lemma {:induction false} SlotsUpdate(procs: seq<Proc>, p: nat, q: Proc)
    requires p < |procs|
    ensures multiset(procs[p].ofile) <= Slots(procs)
    ensures Slots(procs[p := q]) == Slots(procs) - multiset(procs[p].ofile) + multiset(q.ofile)
  {
    var n := |procs| - 1;
    var a, b, x, y := Slots(procs[..n]), multiset(procs[n].ofile), multiset(procs[p].ofile), multiset(q.ofile);
    if p == n {
      assert procs[p := q][..n] == procs[..n];
      Swap(a, b, y);
    } else {
      SlotsUpdate(procs[..n], p, q);
      assert procs[p := q][..n] == procs[..n][p := q];
      Shuffle(a, b, x, y);
    }
  }

  lemma {:induction false} Swap(a: multiset<int>, b: multiset<int>, y: multiset<int>)
    ensures b <= a + b && a + y == a + b - b + y
  {
  }

  lemma {:induction false} Shuffle(a: multiset<int>, b: multiset<int>, x: multiset<int>, y: multiset<int>)
    requires x <= a
    ensures x <= a + b && a - x + y + b == a + b - x + y
  {
  }

  /** Descriptor fd of process p set to f. */
  function Slotted(procs: seq<Proc>, p: nat, fd: int, f: int): seq<Proc> {
    if p < |procs| && 0 <= fd < |procs[p].ofile| then procs[p := procs[p].(ofile := procs[p].ofile[fd := f])] else procs
  }

  /** One descriptor changes from what it was to f. */
  lemma {:induction false} SlotChange(procs: seq<Proc>, p: nat, fd: nat, f: int)
    requires p < |procs| && fd < |procs[p].ofile|
    ensures procs[p].ofile[fd] in Slots(procs)
    ensures Slots(Slotted(procs, p, fd, f)) == Slots(procs) - multiset{procs[p].ofile[fd]} + multiset{f}
  {
    var o := procs[p].ofile;
    SlotsUpdate(procs, p, procs[p].(ofile := o[fd := f]));
    assert o[fd] in multiset(o);
    assert multiset(o[fd := f]) == multiset(o) - multiset{o[fd]} + multiset{f};
  }

  // ----- the invariant

  ghost predicate Shaped(files: seq<File>, procs: seq<Proc>) {
    forall p {:trigger procs[p]} :: 0 <= p < |procs| ==>
      && |procs[p].ofile| == NOFILE
      && forall fd {:trigger procs[p].ofile[fd]} :: 0 <= fd < NOFILE ==>
          procs[p].ofile[fd] == NONE || (procs[p].used && 0 <= procs[p].ofile[fd] < |files|)
  }

  /** Every reference is a descriptor, or in the hands of a system call that is under way. */
  ghost predicate Counted(files: seq<File>, slots: multiset<int>, held: multiset<int>) {
    forall f {:trigger files[f]} :: 0 <= f < |files| ==>
        files[f].ref == slots[f] + held[f] && (files[f].ref == 0 ==> files[f].ftype == FD_NONE)
  }

  /** The end of a pipe is open exactly while its file is. */
  ghost predicate PipesOk(files: seq<File>, pipes: map<nat, Ends>) {
    && (forall f {:trigger files[f]} :: 0 <= f < |files| && files[f].ref > 0 && files[f].ftype == FD_PIPE ==>
          && files[f].pipe in pipes
          && var e := pipes[files[f].pipe]; if files[f].writable then e.writeopen && e.wf == f
              else e.readopen && e.rf == f)
    && (forall i {:trigger pipes[i]} :: i in pipes ==>
          && (pipes[i].readopen || pipes[i].writeopen)
          && (pipes[i].readopen ==> EndOf(files, pipes[i].rf, i, false))
          && (pipes[i].writeopen ==> EndOf(files, pipes[i].wf, i, true)))
  }

  ghost predicate EndOf(files: seq<File>, f: nat, i: nat, writable: bool) {
    f < |files| && files[f].ref > 0 && files[f].ftype == FD_PIPE && files[f].pipe == i && files[f].writable == writable
  }

  /** A file that has lost a reference; a pipe that has lost an end. */
  function Closed(f: File): File {
    if f.ref > 1 then f.(ref := f.ref - 1) else f.(ref := 0, ftype := FD_NONE)
  }

  function EndClosed(pipes: map<nat, Ends>, i: nat, writable: bool): map<nat, Ends>
    requires i in pipes
  {
    var e := if writable then pipes[i].(writeopen := false) else pipes[i].(readopen := false);
    if e.readopen || e.writeopen then pipes[i := e] else pipes - {i}
  }

  /** The pipes after the file has been closed once. */
  function PipesAfter(pipes: map<nat, Ends>, f: File): map<nat, Ends> {
    if f.ref <= 1 && f.ftype == FD_PIPE && f.pipe in pipes then EndClosed(pipes, f.pipe, f.writable) else pipes
  }

  /** The two ends of a pipe, one to be read and one to be written. */
  function WithEnds(files: seq<File>, rf: nat, wf: nat, page: nat): seq<File>
    requires rf < |files| && wf < |files|
  {
    files[rf := files[rf].(ftype := FD_PIPE, readable := true, writable := false, pipe := page)]
         [wf := files[wf].(ftype := FD_PIPE, readable := false, writable := true, pipe := page)]
  }

  /** The same files are open, with the same counts. */
  ghost predicate SameOpen(files0: seq<File>, files: seq<File>) {
    |files| == |files0| && forall g {:trigger files[g]} :: 0 <= g < |files| ==>
      files[g].ref == files0[g].ref && (files[g].ref > 0 ==> files[g] == files0[g])
  }

  /** The files that are open were open, and are what they were but for their counts. */
  ghost predicate SameFiles(files0: seq<File>, files: seq<File>) {
    |files| == |files0| && forall g {:trigger files[g]} :: 0 <= g < |files| && files[g].ref > 0 ==>
      files0[g].ref > 0 && files[g] == files0[g].(ref := files[g].ref)
  }

  /** There are not two files that are not in use. */
  ghost predicate FilesScarce(files: seq<File>) {
    forall g, h {:trigger files[g], files[h]} :: 0 <= g < h < |files| ==> files[g].ref > 0 || files[h].ref > 0
  }

  /** The lowest empty descriptor. */
  ghost predicate FirstEmpty(ofile: seq<int>, fd: int) {
    && 0 <= fd < |ofile| && ofile[fd] == NONE
    && forall d {:trigger ofile[d]} :: 0 <= d < fd ==> ofile[d] != NONE
  }

  /** There are not two empty descriptors below the limit. */
  ghost predicate FdsScarce(ofile: seq<int>, cur: nat) {
    cur <= |ofile| && forall d, e {:trigger ofile[d], ofile[e]} :: 0 <= d < e < cur ==>
        ofile[d] != NONE || ofile[e] != NONE
  }

  ghost predicate InvOf(files: seq<File>, procs: seq<Proc>, pipes: map<nat, Ends>, held: multiset<int>) {
    Shaped(files, procs) && Counted(files, Slots(procs), held) && PipesOk(files, pipes)
  }

  /** The count of a file changes; it was free, or stays open. */
  lemma {:induction false} RefPipes(files: seq<File>, pipes: map<nat, Ends>, f: nat, n: nat)
    requires PipesOk(files, pipes) && f < |files| && 0 < n && (files[f].ref > 0 || files[f].ftype == FD_NONE)
    ensures PipesOk(files[f := files[f].(ref := n)], pipes)
  {
    var files' := files[f := files[f].(ref := n)];
    forall g | 0 <= g < |files'| && files'[g].ref > 0 && files'[g].ftype == FD_PIPE
      ensures files'[g].pipe in pipes && var e := pipes[files'[g].pipe]; if files'[g].writable then e.writeopen &&
              e.wf == g else e.readopen && e.rf == g
    {
      assert files[g].ref > 0 && files[g].ftype == FD_PIPE;
    }
    forall i | i in pipes
      ensures (pipes[i].readopen || pipes[i].writeopen) &&
              (pipes[i].readopen ==> EndOf(files', pipes[i].rf, i, false)) &&
              (pipes[i].writeopen ==> EndOf(files', pipes[i].wf, i, true))
    {
    }
  }

  lemma {:induction false} MoreCounted(files: seq<File>, slots: multiset<int>, held: multiset<int>, f: nat, n: nat)
    requires Counted(files, slots, held) && f < |files| && n == files[f].ref + 1
    ensures Counted(files[f := files[f].(ref := n)], slots, held + multiset{f})
  {
  }

  lemma {:induction false} LessCounted(files: seq<File>, slots: multiset<int>, held: multiset<int>, f: nat, n: nat)
    requires Counted(files, slots, held) && f < |files| && held[f] > 0 && files[f].ref == n + 1 && 0 < n
    ensures Counted(files[f := files[f].(ref := n)], slots, held - multiset{f})
  {
  }

  lemma {:induction false} SameShape(files: seq<File>, files': seq<File>, procs: seq<Proc>)
    requires Shaped(files, procs) && |files'| == |files|
    ensures Shaped(files', procs)
  {
    forall p | 0 <= p < |procs|
      ensures |procs[p].ofile| == NOFILE
      ensures forall fd {:trigger procs[p].ofile[fd]} :: 0 <= fd < NOFILE ==>
              procs[p].ofile[fd] == NONE || (procs[p].used && 0 <= procs[p].ofile[fd] < |files'|)
    {
    }
  }

  /** The child np of p has its first i descriptors; no other process has changed. */
  ghost predicate Copied(proc0: seq<Proc>, procs: seq<Proc>, p: nat, np: nat, i: nat) {
    && p < |procs| == |proc0| && np < |procs| && p != np && |proc0[p].ofile| == |procs[np].ofile| == NOFILE
    && procs[np].used && proc0[p].used && (forall q {:trigger procs[q]} :: 0 <= q < |procs| && q != np ==>
        procs[q] == proc0[q])
    && (forall d {:trigger procs[np].ofile[d]} :: 0 <= d < NOFILE ==>
        procs[np].ofile[d] == if d < i then proc0[p].ofile[d] else NONE)
  }

  lemma {:induction false} AllCopied(proc0: seq<Proc>, procs: seq<Proc>, p: nat, np: nat)
    requires Copied(proc0, procs, p, np, NOFILE)
    ensures procs == proc0[np := Proc(true, proc0[p].ofile)]
  {
    assert procs[np].ofile == proc0[p].ofile;
  }

  lemma {:induction false} NoSlots(proc: seq<Proc>)
    requires forall p {:trigger proc[p]} :: 0 <= p < |proc| ==>
             forall fd {:trigger proc[p].ofile[fd]} :: 0 <= fd < |proc[p].ofile| ==> proc[p].ofile[fd] == NONE
    ensures forall f: int {:trigger Slots(proc)[f]} :: 0 <= f ==> Slots(proc)[f] == 0
  {
    if proc != [] {
      NoSlots(proc[..|proc| - 1]);
      var o := proc[|proc| - 1].ofile;
      forall f: int | 0 <= f ensures multiset(o)[f] == 0 {
        assert f !in o;
      }
    }
  }

  lemma {:induction false} PlainCloses(files: seq<File>, pipes: map<nat, Ends>, f: nat)
    requires PipesOk(files, pipes) && f < |files| && files[f].ftype != FD_PIPE
    ensures PipesOk(files[f := files[f].(ref := 0, ftype := FD_NONE)], pipes)
  {
    var files' := files[f := files[f].(ref := 0, ftype := FD_NONE)];
    forall i | i in pipes
      ensures (pipes[i].readopen || pipes[i].writeopen) &&
              (pipes[i].readopen ==> EndOf(files', pipes[i].rf, i, false)) &&
              (pipes[i].writeopen ==> EndOf(files', pipes[i].wf, i, true))
    {
    }
  }

  lemma {:induction false} LastReference(files: seq<File>, slots: multiset<int>, held: multiset<int>, f: nat)
    requires Counted(files, slots, held) && f < |files| && files[f].ref == 1 && held[f] > 0
    ensures Counted(files[f := files[f].(ref := 0, ftype := FD_NONE)], slots, held - multiset{f})
  {
  }

  lemma {:induction false} EndCloses(files: seq<File>, pipes: map<nat, Ends>, f: nat, files': seq<File>,
                                     pipes': map<nat, Ends>)
    requires PipesOk(files, pipes) && f < |files| && files[f].ref > 0 && files[f].ftype == FD_PIPE &&
             files' == files[f := files[f].(ref := 0, ftype := FD_NONE)]
    requires pipes' == EndClosed(pipes, files[f].pipe, files[f].writable)
    ensures PipesOk(files', pipes')
  {
    forall g | 0 <= g < |files'| && files'[g].ref > 0 && files'[g].ftype == FD_PIPE
      ensures files'[g].pipe in pipes' && var e := pipes'[files'[g].pipe]; if files'[g].writable then e.writeopen &&
              e.wf == g else e.readopen && e.rf == g
    {
      assert files[g] == files'[g];
    }
    forall i | i in pipes'
      ensures (pipes'[i].readopen || pipes'[i].writeopen) &&
              (pipes'[i].readopen ==> EndOf(files', pipes'[i].rf, i, false)) &&
              (pipes'[i].writeopen ==> EndOf(files', pipes'[i].wf, i, true))
    {
      assert i in pipes && (pipes[i].readopen || pipes[i].writeopen);
    }
  }

  lemma {:induction false} PlaceCounted(files: seq<File>, slots: multiset<int>, held: multiset<int>, f: nat)
    requires Counted(files, slots, held) && held[f] > 0
    ensures Counted(files, slots - multiset{NONE} + multiset{f as int}, held - multiset{f as int})
  {
  }

  lemma {:induction false} TakeCounted(files: seq<File>, slots: multiset<int>, held: multiset<int>, f: nat)
    requires Counted(files, slots, held) && slots[f] > 0
    ensures Counted(files, slots - multiset{f as int} + multiset{NONE}, held + multiset{f as int})
  {
  }

  lemma {:induction false} NewShape(files: seq<File>, procs: seq<Proc>, p: nat, fd: nat, f: int)
    requires Shaped(files, procs) && p < |procs| && fd < NOFILE && |procs[p].ofile| == NOFILE &&
             (f == NONE || (procs[p].used && 0 <= f < |files|))
    ensures Shaped(files, Slotted(procs, p, fd, f))
  {
    var procs' := Slotted(procs, p, fd, f);
    forall r | 0 <= r < |procs'|
      ensures |procs'[r].ofile| == NOFILE
      ensures forall d {:trigger procs'[r].ofile[d]} :: 0 <= d < NOFILE ==>
              procs'[r].ofile[d] == NONE || (procs'[r].used && 0 <= procs'[r].ofile[d] < |files|)
    {
      assert |procs[r].ofile| == NOFILE;
    }
  }

  lemma {:induction false} SetPlain(files: seq<File>, slots: multiset<int>, pipes: map<nat, Ends>, f: nat, t: FileType,
                                    readable: bool, writable: bool)
    requires Counted(files, slots, multiset{}) && PipesOk(files, pipes) && f < |files| && files[f].ref > 0 &&
             files[f].ftype != FD_PIPE && t != FD_PIPE
    ensures var files' := files[f := files[f].(ftype := t, readable := readable, writable := writable)];
            Counted(files', slots, multiset{}) && PipesOk(files', pipes)
  {
    var files' := files[f := files[f].(ftype := t, readable := readable, writable := writable)];
    forall i | i in pipes
      ensures (pipes[i].readopen || pipes[i].writeopen) &&
              (pipes[i].readopen ==> EndOf(files', pipes[i].rf, i, false)) &&
              (pipes[i].writeopen ==> EndOf(files', pipes[i].wf, i, true))
    {
    }
  }

  lemma {:induction false} NewPipe(files: seq<File>, slots: multiset<int>, held: multiset<int>, pipes: map<nat, Ends>,
                                   rf: nat, wf: nat, page: nat)
    requires Counted(files, slots, held) && PipesOk(files, pipes) && page !in pipes && rf < |files| && wf < |files| &&
             rf != wf
    requires files[rf].ref > 0 && files[wf].ref > 0 && files[rf].ftype != FD_PIPE && files[wf].ftype != FD_PIPE
    ensures var files' := WithEnds(files, rf, wf, page);
            Counted(files', slots, held) && PipesOk(files', pipes[page := Ends(true, true, rf, wf)])
  {
    var files' := WithEnds(files, rf, wf, page);
    var pipes' := pipes[page := Ends(true, true, rf, wf)];
    forall g | 0 <= g < |files'| && files'[g].ref > 0 && files'[g].ftype == FD_PIPE
      ensures files'[g].pipe in pipes' && var e := pipes'[files'[g].pipe]; if files'[g].writable then e.writeopen &&
              e.wf == g else e.readopen && e.rf == g
    {
      if g != rf && g != wf {
        assert files[g] == files'[g];
      }
    }
    forall i | i in pipes'
      ensures (pipes'[i].readopen || pipes'[i].writeopen) &&
              (pipes'[i].readopen ==> EndOf(files', pipes'[i].rf, i, false)) &&
              (pipes'[i].writeopen ==> EndOf(files', pipes'[i].wf, i, true))
    {
      if i != page {
        assert pipes[i] == pipes'[i];
      }
    }
  }

  lemma {:induction false} SlotBack(procs: seq<Proc>, p: nat, fd: nat, f: int, procs': seq<Proc>)
    requires p < |procs| && fd < |procs[p].ofile| && procs[p].ofile[fd] == NONE
    requires procs' == Slotted(Slotted(procs, p, fd, f), p, fd, NONE)
    ensures procs' == procs
  {
    assert procs[p].ofile[fd := f][fd := NONE] == procs[p].ofile;
  }

  lemma {:induction false} TwoBack(procs: seq<Proc>, p: nat, fd0: nat, fd1: nat, rf: int, wf: int, procs1: seq<Proc>,
                                   procs2: seq<Proc>)
    requires p < |procs| && fd0 < |procs[p].ofile| && fd1 < |procs[p].ofile| && fd0 != fd1
    requires procs[p].ofile[fd0] == NONE && procs[p].ofile[fd1] == NONE
    requires procs1 == Slotted(Slotted(procs, p, fd0, rf), p, fd1, wf) && procs2 == Slotted(procs1, p, fd0, NONE)
    ensures p < |procs1| && fd0 < |procs1[p].ofile| == |procs[p].ofile| && procs1[p].ofile[fd0] == rf
    ensures p < |procs2| && fd1 < |procs2[p].ofile| == |procs[p].ofile| && procs2[p].ofile[fd1] == wf
    ensures Slotted(procs2, p, fd1, NONE) == procs
  {
    assert procs[p].ofile[fd0 := rf][fd1 := wf][fd0 := NONE][fd1 := NONE] == procs[p].ofile;
  }

  lemma {:induction false} UseShape(files: seq<File>, procs: seq<Proc>, p: nat, used: bool)
    requires Shaped(files, procs) && p < |procs| && |procs[p].ofile| == NOFILE
    requires used || forall d {:trigger procs[p].ofile[d]} :: 0 <= d < NOFILE ==> procs[p].ofile[d] == NONE
    ensures Shaped(files, procs[p := procs[p].(used := used)])
  {
    var procs' := procs[p := procs[p].(used := used)];
    forall r | 0 <= r < |procs'|
      ensures |procs'[r].ofile| == NOFILE
      ensures forall d {:trigger procs'[r].ofile[d]} :: 0 <= d < NOFILE ==>
              procs'[r].ofile[d] == NONE || (procs'[r].used && 0 <= procs'[r].ofile[d] < |files|)
    {
      assert |procs[r].ofile| == NOFILE;
      forall d | 0 <= d < NOFILE ensures procs'[r].ofile[d] == NONE ||
          (procs'[r].used && 0 <= procs'[r].ofile[d] < |files|) {
        assert procs'[r].ofile[d] == procs[r].ofile[d];
      }
    }
  }

  /** A new descriptor and one more reference keep the counts right. */
  lemma {:induction false} DupState(files: seq<File>, procs: seq<Proc>, pipes: map<nat, Ends>, p: nat, fd: nat, f: nat)
    requires InvOf(files, procs, pipes, multiset{}) && p < |procs| && procs[p].used && fd < NOFILE &&
             |procs[p].ofile| == NOFILE
    requires procs[p].ofile[fd] == NONE && f < |files| && files[f].ref > 0
    ensures InvOf(files[f := files[f].(ref := files[f].ref + 1)], Slotted(procs, p, fd, f), pipes, multiset{})
  {
    var n := files[f].ref + 1;
    var files', held := files[f := files[f].(ref := n)], multiset{} + multiset{f as int};
    RefPipes(files, pipes, f, n);
    MoreCounted(files, Slots(procs), multiset{}, f, n);
    SameShape(files, files', procs);
    SlotChange(procs, p, fd, f);
    PlaceCounted(files', Slots(procs), held, f);
    NewShape(files', procs, p, fd, f);
    assert held - multiset{f as int} == multiset{};
  }

  /** A new pipe whose two ends are closed again leaves nothing behind. */
  lemma {:induction false} PipeBack(files0: seq<File>, pipes0: map<nat, Ends>, rf: nat, wf: nat, page: nat,
                                    files: seq<File>, pipes: map<nat, Ends>)
    requires rf < |files0| && wf < |files0| && rf != wf && page !in pipes0 && files0[rf].ref == files0[wf].ref == 0
    requires var files1 := WithEnds(files0[rf := files0[rf].(ref := 1)][wf := files0[wf].(ref := 1)], rf, wf, page);
             var pipes1 := pipes0[page := Ends(true, true, rf, wf)];
             && files == files1[rf := Closed(files1[rf])][wf := Closed(files1[wf])]
             && pipes == PipesAfter(PipesAfter(pipes1, files1[rf]), files1[wf])
    ensures SameOpen(files0, files) && pipes == pipes0
  {
  }

  /** If all files are in use after one has been taken, there were not two. */
  lemma {:induction false} OneLeft(files0: seq<File>, files: seq<File>, f: nat)
    requires f < |files0| && files == files0[f := files0[f].(ref := 1)]
    requires forall g {:trigger files[g]} :: 0 <= g < |files| ==> files[g].ref > 0
    ensures FilesScarce(files0)
  {
    forall g, h | 0 <= g < h < |files0| ensures files0[g].ref > 0 || files0[h].ref > 0 {
      assert files[g].ref > 0 && files[h].ref > 0;
    }
  }

  /** Two new files that are closed again. */
  lemma {:induction false} FreshBack(files0: seq<File>, rf: nat, wf: nat, files: seq<File>)
    requires rf < |files0| && wf < |files0| && rf != wf && files0[rf].ref == files0[wf].ref == 0
    requires files0[rf].ftype == files0[wf].ftype == FD_NONE
    requires files == files0[rf := files0[rf].(ref := 1)][wf := files0[wf].(ref := 1)]
    ensures files[rf := Closed(files[rf])][wf := Closed(files[wf])] == files0
  {
  }
}
