/** Open files (kernel/file.c, kernel/sysfile.c, kernel/proc.c, kernel/pipe.c): reference
    counts, the descriptors of processes, and the ends of pipes. */
module FileTable {
  import opened FileRefs

  class Ftable {
    var file: seq<File>
    var proc: seq<Proc>
    var pipes: map<nat, Ends>

    ghost predicate Inv(held: multiset<int>)
      reads this
    {
      InvOf(file, proc, pipes, held)
    }

    constructor (nfile: nat, nproc: nat)
      ensures Inv(multiset{}) && |file| == nfile && |proc| == nproc && pipes == map[]
    {
      file := seq(nfile, i => File(0, FD_NONE, false, false, 0));
      proc := seq(nproc, i => Proc(false, seq(NOFILE, j => NONE)));
      pipes := map[];
      new;
      NoSlots(proc);
    }

    /** filealloc: a file with one reference, in the caller's hands; or NONE. */
    method Filealloc(ghost held: multiset<int>) returns (f: int)
      requires Inv(held)
      modifies this`file
      ensures |file| == |old(file)|
      ensures f == NONE ==> file == old(file) && forall g {:trigger file[g]} :: 0 <= g < |file| ==> file[g].ref > 0
      ensures f != NONE ==>
              0 <= f < |file| && old(file)[f].ref == 0 && file == old(file)[f := old(file)[f].(ref := 1)] &&
              held[f] == 0 && Inv(held + multiset{f})
    {
      var k := 0;
      while k < |file|
        invariant 0 <= k <= |file| && file == old(file)
        invariant forall g {:trigger file[g]} :: 0 <= g < k ==> file[g].ref > 0
      {
        if file[k].ref == 0 {
          AddRef(k, held);
          return k;
        }
        k := k + 1;
      }
      return NONE;
    }

    /** filedup: the caller has a reference more; false is panic("filedup"). */
    method Filedup(f: nat, ghost held: multiset<int>) returns (ok: bool)
      requires Inv(held) && f < |file|
      modifies this`file
      ensures ok <==> old(file)[f].ref >= 1
      ensures if ok then file == old(file)[f := old(file)[f].(ref := old(file)[f].ref + 1)] && Inv(held + multiset{f})
              else file == old(file)
    {
      if file[f].ref < 1 {
        return false;
      }
      AddRef(f, held);
      return true;
    }

    /** f->ref++ */
    method AddRef(f: nat, ghost held: multiset<int>)
      requires Inv(held) && f < |file|
      modifies this`file
      ensures Inv(held + multiset{f}) && file == old(file)[f := old(file)[f].(ref := old(file)[f].ref + 1)]
    {
      var n := file[f].ref + 1;
      RefPipes(file, pipes, f, n);
      MoreCounted(file, Slots(proc), held, f, n);
      SameShape(file, file[f := file[f].(ref := n)], proc);
      file := file[f := file[f].(ref := n)];
    }

    /** --f->ref > 0 */
    method DropRef(f: nat, ghost held: multiset<int>)
      requires Inv(held) && f < |file| && file[f].ref > 1 && held[f] > 0
      modifies this`file
      ensures Inv(held - multiset{f}) && file == old(file)[f := old(file)[f].(ref := old(file)[f].ref - 1)]
    {
      var n := file[f].ref - 1;
      RefPipes(file, pipes, f, n);
      LessCounted(file, Slots(proc), held, f, n);
      SameShape(file, file[f := file[f].(ref := n)], proc);
      file := file[f := file[f].(ref := n)];
    }

    /** f->ref = 0; f->type = FD_NONE; and the end of a pipe is closed. */
    method LastClose(f: nat, ghost held: multiset<int>)
      requires Inv(held) && f < |file| && file[f].ref == 1 && held[f] > 0
      modifies this`file, this`pipes
      ensures Inv(held - multiset{f}) && file == old(file)[f := Closed(old(file)[f])]
      ensures pipes == PipesAfter(old(pipes), old(file)[f])
    {
      var ff := file[f];
      LastReference(file, Slots(proc), held, f);
      SameShape(file, file[f := ff.(ref := 0, ftype := FD_NONE)], proc);
      if ff.ftype == FD_PIPE {
        file := file[f := ff.(ref := 0, ftype := FD_NONE)];
        var freed := Pipeclose(ff.pipe, ff.writable);
        EndCloses(old(file), old(pipes), f, file, pipes);
      } else {
        PlainCloses(file, pipes, f);
        file := file[f := ff.(ref := 0, ftype := FD_NONE)];
      }
    }

    /** pipeclose: the page is freed when the second end closes. */
    method Pipeclose(i: nat, writable: bool) returns (freed: bool)
      requires i in pipes
      modifies this`pipes
      ensures freed <==> (if writable then !old(pipes)[i].readopen else !old(pipes)[i].writeopen)
      ensures pipes == EndClosed(old(pipes), i, writable)
    {
      pipes := pipes[i := if writable then pipes[i].(writeopen := false) else pipes[i].(readopen := false)];
      freed := !pipes[i].readopen && !pipes[i].writeopen;
      if freed {
        pipes := pipes - {i};
      }
    }

    /** fileclose of a reference in the caller's hands; false is panic("fileclose"). */
    method Fileclose(f: nat, ghost held: multiset<int>) returns (ok: bool)
      requires Inv(held) && f < |file| && held[f] > 0
      modifies this`file, this`pipes
      ensures ok && Inv(held - multiset{f}) && |file| == |old(file)|
      ensures old(file)[f].ref > 0 && file == old(file)[f := Closed(old(file)[f])]
      ensures pipes == PipesAfter(old(pipes), old(file)[f])
    {
      if file[f].ref < 1 {
        return false;
      }
      if file[f].ref > 1 {
        DropRef(f, held);
      } else {
        LastClose(f, held);
      }
      return true;
    }

    // ----- descriptors

    /** ofile[fd] = f, with the reference that the caller has. */
    method PutSlot(p: nat, fd: nat, f: nat, ghost held: multiset<int>)
      requires Inv(held) && p < |proc| && fd < NOFILE && proc[p].used && |proc[p].ofile| == NOFILE &&
               proc[p].ofile[fd] == NONE && f < |file| && held[f] > 0
      modifies this`proc
      ensures Inv(held - multiset{f}) && proc == Slotted(old(proc), p, fd, f)
    {
      SlotChange(proc, p, fd, f);
      PlaceCounted(file, Slots(proc), held, f);
      NewShape(file, proc, p, fd, f);
      proc := Slotted(proc, p, fd, f);
    }

    /** ofile[fd] = 0: the reference is the caller's. */
    method TakeSlot(p: nat, fd: nat, ghost held: multiset<int>) returns (f: nat)
      requires Inv(held) && p < |proc| && fd < NOFILE && |proc[p].ofile| == NOFILE && proc[p].ofile[fd] != NONE
      modifies this`proc
      ensures f == old(proc)[p].ofile[fd] && f < |file| && Inv(held + multiset{f as int}) &&
              proc == Slotted(old(proc), p, fd, NONE)
    {
      assert 0 <= proc[p].ofile[fd] < |file|;
      f := proc[p].ofile[fd];
      SlotChange(proc, p, fd, NONE);
      TakeCounted(file, Slots(proc), held, f);
      NewShape(file, proc, p, fd, NONE);
      proc := Slotted(proc, p, fd, NONE);
    }

    /** The search of fdalloc: the first empty descriptor below nofile_cur, or -1. */
    method FindFd(p: nat, cur: nat) returns (fd: int)
      requires p < |proc| && |proc[p].ofile| == NOFILE && cur <= NOFILE
      ensures -1 <= fd < cur
      ensures fd == -1 ==> forall d {:trigger proc[p].ofile[d]} :: 0 <= d < cur ==> proc[p].ofile[d] != NONE
      ensures fd != -1 ==> proc[p].ofile[fd] == NONE && forall d {:trigger proc[p].ofile[d]} :: 0 <= d < fd ==>
              proc[p].ofile[d] != NONE
    {
      fd := 0;
      while fd < cur
        invariant 0 <= fd <= cur && forall d {:trigger proc[p].ofile[d]} :: 0 <= d < fd ==> proc[p].ofile[d] != NONE
      {
        if proc[p].ofile[fd] == NONE {
          return;
        }
        fd := fd + 1;
      }
      return -1;
    }

    /** fdalloc: takes over the caller's reference if there is a descriptor for it. */
    method Fdalloc(p: nat, f: nat, cur: nat, ghost held: multiset<int>) returns (fd: int)
      requires Inv(held) && p < |proc| && proc[p].used && cur <= NOFILE && f < |file| && held[f] > 0
      modifies this`proc
      ensures -1 <= fd < cur && |proc| == |old(proc)|
      ensures fd == -1 ==> proc == old(proc)
      ensures |old(proc)[p].ofile| == NOFILE
      ensures forall d {:trigger old(proc)[p].ofile[d]} :: 0 <= d < (if fd == -1 then cur else fd) ==>
                old(proc)[p].ofile[d] != NONE
      ensures fd != -1 ==>
              old(proc)[p].ofile[fd] == NONE && Inv(held - multiset{f}) &&
              proc == Slotted(old(proc), p, fd, f)
    {
      assert |proc[p].ofile| == NOFILE;
      fd := FindFd(p, cur);
      if fd != -1 {
        PutSlot(p, fd, f, held);
      }
    }

    // ----- system calls: before and after each, every reference is a descriptor

    /** argfd */
    method Argfd(p: nat, fd: int) returns (f: int)
      requires Inv(multiset{}) && p < |proc|
      ensures f == NONE || (0 <= fd < NOFILE && |proc[p].ofile| == NOFILE && f == proc[p].ofile[fd] &&
              0 <= f < |file| && proc[p].used && file[f].ref > 0)
      ensures f == NONE <==> fd < 0 || fd >= NOFILE || (|proc[p].ofile| == NOFILE && proc[p].ofile[fd] == NONE)
    {
      assert |proc[p].ofile| == NOFILE;
      if fd < 0 || fd >= NOFILE {
        return NONE;
      }
      f := proc[p].ofile[fd];
      if f != NONE {
        SlotChange(proc, p, fd, NONE);
        assert file[f].ref == Slots(proc)[f] + 0;
      }
    }

    /** sys_dup */
    method Dup(p: nat, fd0: int, cur: nat) returns (fd: int)
      requires Inv(multiset{}) && p < |proc| && cur <= NOFILE
      modifies this`file, this`proc
      ensures Inv(multiset{}) && |file| == |old(file)| && |proc| == |old(proc)|
      ensures |old(proc)[p].ofile| == NOFILE
      ensures fd == -1 ==> file == old(file) && proc == old(proc)
      ensures fd == -1 <==>
                || fd0 < 0 || fd0 >= NOFILE || old(proc)[p].ofile[fd0] == NONE
                || forall d {:trigger old(proc)[p].ofile[d]} :: 0 <= d < cur ==> old(proc)[p].ofile[d] != NONE
      ensures fd != -1 ==>
                var f := old(proc)[p].ofile[fd0];
                && 0 <= fd < cur && 0 <= f < |file| && FirstEmpty(old(proc)[p].ofile, fd)
                && proc == Slotted(old(proc), p, fd, f)
                && file == old(file)[f := old(file)[f].(ref := old(file)[f].ref + 1)]
    {
      var f := Argfd(p, fd0);
      if f == NONE {
        return -1;
      }
      fd := FindFd(p, cur);
      if fd == -1 {
        return;
      }
      DupSlot(p, fd, f);
    }

    /** ofile[fd] = f; filedup(f) */
    method DupSlot(p: nat, fd: nat, f: nat)
      requires Inv(multiset{}) && p < |proc| && proc[p].used && fd < NOFILE && |proc[p].ofile| == NOFILE &&
               proc[p].ofile[fd] == NONE && f < |file| && file[f].ref > 0
      modifies this`file, this`proc
      ensures Inv(multiset{}) && proc == Slotted(old(proc), p, fd, f)
      ensures file == old(file)[f := old(file)[f].(ref := old(file)[f].ref + 1)]
    {
      DupState(file, proc, pipes, p, fd, f);
      proc, file := Slotted(proc, p, fd, f), file[f := file[f].(ref := file[f].ref + 1)];
    }

    /** sys_close */
    method Close(p: nat, fd: int) returns (ret: int)
      requires Inv(multiset{}) && p < |proc|
      modifies this`file, this`proc, this`pipes
      ensures Inv(multiset{}) && |file| == |old(file)| && |proc| == |old(proc)| && (ret == 0 || ret == -1)
      ensures ret == -1 <==>
              fd < 0 || fd >= NOFILE || (|old(proc)[p].ofile| == NOFILE && old(proc)[p].ofile[fd] == NONE)
      ensures ret == -1 ==> file == old(file) && proc == old(proc) && pipes == old(pipes)
      ensures ret == 0 ==>
                && 0 <= fd < NOFILE && |old(proc)[p].ofile| == NOFILE && 0 <= old(proc)[p].ofile[fd] < |file|
                && proc == Slotted(old(proc), p, fd, NONE)
                && var f := old(proc)[p].ofile[fd];
                   file == old(file)[f := Closed(old(file)[f])] && pipes == PipesAfter(old(pipes), old(file)[f])
    {
      var f := Argfd(p, fd);
      if f == NONE {
        return -1;
      }
      var g := TakeSlot(p, fd, multiset{});
      ghost var held := multiset{} + multiset{g as int};
      assert held - multiset{g as int} == multiset{};
      var ok := Fileclose(g, held);
      ret := 0;
    }

    /** sys_open, once the inode has been found: a descriptor for a new file, or -1. */
    method Open(p: nat, cur: nat, device: bool, readable: bool, writable: bool) returns (fd: int)
      requires Inv(multiset{}) && p < |proc| && proc[p].used && cur <= NOFILE
      modifies this`file, this`proc, this`pipes
      ensures Inv(multiset{}) && |file| == |old(file)| && |proc| == |old(proc)| && -1 <= fd < cur
      ensures |old(proc)[p].ofile| == |proc[p].ofile| == NOFILE && pipes == old(pipes)
      ensures fd == -1 ==> proc == old(proc) && file == old(file)
      ensures fd == -1 <==>
                || (forall g {:trigger old(file)[g]} :: 0 <= g < |file| ==> old(file)[g].ref > 0)
                || forall d {:trigger old(proc)[p].ofile[d]} :: 0 <= d < cur ==> old(proc)[p].ofile[d] != NONE
      ensures fd != -1 ==>
                && FirstEmpty(old(proc)[p].ofile, fd)
                && var f := proc[p].ofile[fd];
                   && 0 <= f < |file| && old(file)[f].ref == 0 && proc == Slotted(old(proc), p, fd, f)
                   && file == old(file)[f := old(file)[f].(ref := 1, ftype := if device then FD_DEVICE else FD_INODE,
                                                           readable := readable, writable := writable)]
    {
      var f := Filealloc(multiset{});
      if f == NONE {
        return -1;
      }
      ghost var held := multiset{} + multiset{f};
      assert held - multiset{f} == multiset{};
      fd := Fdalloc(p, f, cur, held);
      if fd == -1 {
        var ok := Fileclose(f, held);
        return;
      }
      SetMode(f, if device then FD_DEVICE else FD_INODE, readable, writable);
    }

    /** f->type, f->readable and f->writable. */
    method SetMode(f: nat, ftype: FileType, readable: bool, writable: bool)
      requires Inv(multiset{}) && f < |file| && file[f].ref > 0 && file[f].ftype != FD_PIPE && ftype != FD_PIPE
      modifies this`file
      ensures Inv(multiset{})
      ensures file == old(file)[f := old(file)[f].(ftype := ftype, readable := readable, writable := writable)]
    {
      var g := file[f].(ftype := ftype, readable := readable, writable := writable);
      SetPlain(file, Slots(proc), pipes, f, ftype, readable, writable);
      SameShape(file, file[f := g], proc);
      file := file[f := g];
    }

    /** pipealloc; `page` is the page that kalloc returns if it does. */
    method Pipealloc(kallocOk: bool, page: nat) returns (ok: bool, rf: int, wf: int)
      requires Inv(multiset{}) && page !in pipes
      modifies this`file, this`pipes
      ensures |file| == |old(file)|
      ensures !ok ==> Inv(multiset{}) && pipes == old(pipes) && file == old(file)
      ensures !ok <==> !kallocOk || FilesScarce(old(file))
      ensures ok ==>
                && 0 <= rf < |file| && 0 <= wf < |file| && rf != wf && old(file)[rf].ref == old(file)[wf].ref == 0
                && Inv(multiset{rf, wf})
                && file == WithEnds(old(file)[rf := old(file)[rf].(ref := 1)][wf := old(file)[wf].(ref := 1)],
                                    rf, wf, page)
                && pipes == old(pipes)[page := Ends(true, true, rf, wf)]
    {
      ok, rf, wf := TwoFiles();
      if !ok {
        return;
      }
      if !kallocOk {
        FreshBack(old(file), rf, wf, file);
        CloseBoth(rf, wf);
        return false, rf, wf;
      }
      MakePipe(rf, wf, page, multiset{rf, wf});
    }

    /** Two calls of filealloc; if the second fails, the first file is closed. */
    method TwoFiles() returns (ok: bool, rf: int, wf: int)
      requires Inv(multiset{})
      modifies this`file, this`pipes
      ensures |file| == |old(file)| && pipes == old(pipes) && (!ok <==> FilesScarce(old(file)))
      ensures !ok ==> Inv(multiset{}) && file == old(file)
      ensures ok ==>
                && 0 <= rf < |file| && 0 <= wf < |file| && rf != wf && old(file)[rf].ref == old(file)[wf].ref == 0
                && Inv(multiset{rf, wf})
                && file == old(file)[rf := old(file)[rf].(ref := 1)][wf := old(file)[wf].(ref := 1)]
                && file[rf].ftype == file[wf].ftype == FD_NONE
    {
      ok, wf := false, NONE;
      rf := Filealloc(multiset{});
      if rf == NONE {
        return;
      }
      assert multiset{} + multiset{rf} == multiset{rf} && file[rf].ftype == FD_NONE;
      ok, wf := SecondFile(rf, old(file));
    }

    method SecondFile(rf: nat, ghost file0: seq<File>) returns (ok: bool, wf: int)
      requires Inv(multiset{rf}) && rf < |file0| && file0[rf].ref == 0 && file == file0[rf := file0[rf].(ref := 1)] &&
               file[rf].ftype == FD_NONE
      modifies this`file, this`pipes
      ensures |file| == |file0| && pipes == old(pipes) && (!ok <==> FilesScarce(file0))
      ensures !ok ==> Inv(multiset{}) && file == file0
      ensures ok ==>
                && 0 <= wf < |file| && rf != wf && file0[wf].ref == 0 && Inv(multiset{rf, wf})
                && file == file0[rf := file0[rf].(ref := 1)][wf := file0[wf].(ref := 1)]
                && file[rf].ftype == file[wf].ftype == FD_NONE
    {
      ghost var file1 := file;
      wf := Filealloc(multiset{rf});
      ok := wf != NONE;
      if !ok {
        OneLeft(file0, file1, rf);
        assert multiset{rf as int} - multiset{rf as int} == multiset{};
        var closed := Fileclose(rf, multiset{rf});
      } else {
        assert multiset{rf as int} + multiset{wf} == multiset{rf as int, wf};
      }
    }

    /** The fields of the two ends. */
    method MakePipe(rf: nat, wf: nat, page: nat, ghost held: multiset<int>)
      requires Inv(held) && page !in pipes && rf < |file| && wf < |file| && rf != wf
      requires file[rf].ref > 0 && file[wf].ref > 0 && file[rf].ftype != FD_PIPE && file[wf].ftype != FD_PIPE
      modifies this`file, this`pipes
      ensures Inv(held) && file == WithEnds(old(file), rf, wf, page)
      ensures pipes == old(pipes)[page := Ends(true, true, rf, wf)]
    {
      NewPipe(file, Slots(proc), held, pipes, rf, wf, page);
      SameShape(file, WithEnds(file, rf, wf, page), proc);
      file := WithEnds(file, rf, wf, page);
      pipes := pipes[page := Ends(true, true, rf, wf)];
    }

    /** sys_pipe; copyOk is whether both descriptors can be copied out. */
    method SysPipe(p: nat, cur: nat, kallocOk: bool, page: nat, copyOk: bool) returns (ret: int, fd0: int, fd1: int)
      requires Inv(multiset{}) && p < |proc| && proc[p].used && cur <= NOFILE && page !in pipes
      modifies this`file, this`proc, this`pipes
      ensures Inv(multiset{}) && |file| == |old(file)| && |proc| == |old(proc)|
      ensures ret == -1 ==> proc == old(proc) && pipes == old(pipes) && SameOpen(old(file), file)
      ensures ret == -1 || ret == 0
      ensures ret == -1 <==> !kallocOk || !copyOk || FilesScarce(old(file)) || FdsScarce(old(proc)[p].ofile, cur)
      ensures ret == 0 ==>
                && 0 <= fd0 < cur && 0 <= fd1 < cur && fd0 != fd1 && page in pipes
                && var rf, wf := pipes[page].rf, pipes[page].wf;
                   && rf < |file| && wf < |file| && rf != wf && old(file)[rf].ref == old(file)[wf].ref == 0
                   && file == WithEnds(old(file)[rf := old(file)[rf].(ref := 1)][wf := old(file)[wf].(ref := 1)],
                                       rf, wf, page)
                   && pipes == old(pipes)[page := Ends(true, true, rf, wf)]
                   && FirstEmpty(old(proc)[p].ofile, fd0) && FirstEmpty(old(proc)[p].ofile[fd0 := rf], fd1)
                   && proc == Slotted(Slotted(old(proc), p, fd0, rf), p, fd1, wf)
    {
      fd0, fd1 := -1, -1;
      var ok, rf, wf := Pipealloc(kallocOk, page);
      if !ok {
        return -1, fd0, fd1;
      }
      ghost var file1, pipes1 := file, pipes;
      ok, fd0, fd1 := TwoFds(p, rf, wf, cur);
      if !ok {
        CloseBoth(rf, wf);
        PipeBack(old(file), old(pipes), rf, wf, page, file, pipes);
        return -1, fd0, fd1;
      }
      if !copyOk {
        UndoFds(p, fd0, fd1, rf, wf, old(proc));
        CloseBoth(rf, wf);
        PipeBack(old(file), old(pipes), rf, wf, page, file, pipes);
        return -1, fd0, fd1;
      }
      ret := 0;
    }

    /** Descriptors for both ends, or for neither. */
    method TwoFds(p: nat, rf: nat, wf: nat, cur: nat) returns (ok: bool, fd0: int, fd1: int)
      requires Inv(multiset{rf, wf}) && rf < |file| && wf < |file| && rf != wf && p < |proc| && proc[p].used &&
               cur <= NOFILE
      modifies this`proc
      ensures |proc| == |old(proc)|
      ensures !ok ==> Inv(multiset{rf, wf}) && proc == old(proc)
      ensures !ok <==> FdsScarce(old(proc)[p].ofile, cur)
      ensures ok ==>
                && 0 <= fd0 < cur && 0 <= fd1 < cur && fd0 != fd1 && Inv(multiset{}) && |old(proc)[p].ofile| == NOFILE
                && old(proc)[p].ofile[fd0] == NONE && old(proc)[p].ofile[fd1] == NONE
                && FirstEmpty(old(proc)[p].ofile, fd0) && FirstEmpty(old(proc)[p].ofile[fd0 := rf], fd1)
                && proc == Slotted(Slotted(old(proc), p, fd0, rf), p, fd1, wf)
    {
      ok, fd1 := false, -1;
      assert multiset{rf as int, wf as int} - multiset{rf as int} == multiset{wf as int};
      fd0 := Fdalloc(p, rf, cur, multiset{rf, wf});
      if fd0 == -1 {
        return;
      }
      ok, fd1 := SecondFd(p, rf, wf, cur, fd0, old(proc));
    }

    /** The second of the two, or the first is given back. */
    method SecondFd(p: nat, rf: nat, wf: nat, cur: nat, fd0: nat, ghost proc0: seq<Proc>) returns (ok: bool, fd1: int)
      requires Inv(multiset{wf}) && wf < |file| && p < |proc| == |proc0| && proc[p].used && cur <= NOFILE &&
               fd0 < NOFILE
      requires |proc0[p].ofile| == NOFILE && proc0[p].ofile[fd0] == NONE && fd0 < cur
      requires proc == Slotted(proc0, p, fd0, rf)
      modifies this`proc
      ensures !ok ==> Inv(multiset{rf, wf}) && proc == proc0
      ensures !ok <==> FdsScarce(proc0[p].ofile, cur)
      ensures ok ==>
                && 0 <= fd1 < cur && fd0 != fd1 && Inv(multiset{}) && proc0[p].ofile[fd1] == NONE
                && FirstEmpty(proc0[p].ofile[fd0 := rf], fd1)
                && proc == Slotted(Slotted(proc0, p, fd0, rf), p, fd1, wf)
    {
      assert multiset{wf as int} - multiset{wf as int} == multiset{};
      fd1 := Fdalloc(p, wf, cur, multiset{wf});
      ok := fd1 != -1;
      if !ok {
        var g := TakeSlot(p, fd0, multiset{wf});
        assert multiset{wf as int} + multiset{g as int} == multiset{rf as int, wf as int};
        SlotBack(proc0, p, fd0, rf, proc);
      }
    }

    /** p->ofile[fd0] = 0; p->ofile[fd1] = 0 */
    method UndoFds(p: nat, fd0: nat, fd1: nat, rf: nat, wf: nat, ghost proc0: seq<Proc>)
      requires Inv(multiset{}) && p < |proc0| && fd0 < NOFILE && fd1 < NOFILE && fd0 != fd1 &&
               |proc0[p].ofile| == NOFILE
      requires proc0[p].ofile[fd0] == NONE && proc0[p].ofile[fd1] == NONE &&
               proc == Slotted(Slotted(proc0, p, fd0, rf), p, fd1, wf)
      modifies this`proc
      ensures Inv(multiset{rf, wf}) && proc == proc0
    {
      TwoBack(proc0, p, fd0, fd1, rf, wf, proc, Slotted(proc, p, fd0, NONE));
      ghost var proc1 := proc;
      var g := TakeSlot(p, fd0, multiset{});
      assert proc == Slotted(proc1, p, fd0, NONE);
      var h := TakeSlot(p, fd1, multiset{} + multiset{g as int});
      assert multiset{} + multiset{g as int} + multiset{h as int} == multiset{rf as int, wf as int};
    }

    /** fileclose(rf); fileclose(wf) */
    method CloseBoth(rf: nat, wf: nat)
      requires Inv(multiset{rf, wf}) && rf < |file| && wf < |file| && rf != wf
      modifies this`file, this`pipes
      ensures Inv(multiset{}) && file == old(file)[rf := Closed(old(file)[rf])][wf := Closed(old(file)[wf])]
      ensures pipes == PipesAfter(PipesAfter(old(pipes), old(file)[rf]), old(file)[wf])
    {
      assert multiset{rf as int, wf as int} - multiset{rf as int} == multiset{wf as int} &&
             multiset{wf as int} - multiset{wf as int} == multiset{};
      var ok := Fileclose(rf, multiset{rf, wf});
      ok := Fileclose(wf, multiset{wf});
    }

    /** The part of kfork that copies the descriptors to the new process np. */
    method Fork(p: nat, np: nat)
      requires Inv(multiset{}) && p < |proc| && np < |proc| && p != np && proc[p].used && !proc[np].used
      modifies this`file, this`proc
      ensures Inv(multiset{}) && SameFiles(old(file), file) && proc == old(proc)[np := Proc(true, old(proc)[p].ofile)]
    {
      UseProc(np);
      var i := 0;
      while i < NOFILE
        invariant 0 <= i <= NOFILE && Inv(multiset{}) && SameFiles(old(file), file) && Copied(old(proc), proc, p, np, i)
      {
        ForkSlot(old(proc), p, np, i);
        i := i + 1;
      }
      AllCopied(old(proc), proc, p, np);
    }

    /** One turn of kfork's loop over the descriptors. */
    method ForkSlot(ghost proc0: seq<Proc>, p: nat, np: nat, i: nat)
      requires Inv(multiset{}) && Copied(proc0, proc, p, np, i) && i < NOFILE
      modifies this`file, this`proc
      ensures Inv(multiset{}) && SameFiles(old(file), file) && Copied(proc0, proc, p, np, i + 1)
    {
      var f := Argfd(p, i);
      if f != NONE {
        DupSlot(np, i, f);
      }
    }

    /** allocproc: an unused entry, which has no descriptors, is in use. */
    method UseProc(np: nat)
      requires Inv(multiset{}) && np < |proc| && !proc[np].used
      modifies this`proc
      ensures Inv(multiset{}) && proc == old(proc)[np := old(proc)[np].(used := true)] && |proc[np].ofile| == NOFILE
      ensures forall d {:trigger proc[np].ofile[d]} :: 0 <= d < NOFILE ==> proc[np].ofile[d] == NONE
    {
      var q := proc[np].(used := true);
      SlotsUpdate(proc, np, q);
      assert Slots(proc[np := q]) == Slots(proc);
      UseShape(file, proc, np, true);
      proc := proc[np := q];
    }

    /** kexit closes every descriptor; the entry can be freed then. */
    method Exit(p: nat)
      requires Inv(multiset{}) && p < |proc|
      modifies this`file, this`proc, this`pipes
      ensures Inv(multiset{}) && SameFiles(old(file), file) && |proc| == |old(proc)| && !proc[p].used
      ensures forall q {:trigger proc[q]} :: 0 <= q < |proc| && q != p ==> proc[q] == old(proc)[q]
    {
      assert |proc[p].ofile| == NOFILE;
      var fd := 0;
      while fd < NOFILE
        invariant 0 <= fd <= NOFILE && Inv(multiset{}) && SameFiles(old(file), file) && |proc| == |old(proc)| &&
                  |proc[p].ofile| == NOFILE
        invariant forall d {:trigger proc[p].ofile[d]} :: 0 <= d < fd ==> proc[p].ofile[d] == NONE
        invariant forall q {:trigger proc[q]} :: 0 <= q < |proc| && q != p ==> proc[q] == old(proc)[q]
      {
        Shut(p, fd);
        fd := fd + 1;
      }
      FreeEntry(p);
    }

    /** Close a descriptor, if it is open. */
    method Shut(p: nat, fd: nat)
      requires Inv(multiset{}) && p < |proc| && fd < NOFILE && |proc[p].ofile| == NOFILE
      modifies this`file, this`proc, this`pipes
      ensures Inv(multiset{}) && SameFiles(old(file), file) && proc == Slotted(old(proc), p, fd, NONE)
    {
      var ret := Close(p, fd);
      if ret == -1 {
        assert proc[p].ofile[fd := NONE] == proc[p].ofile;
      }
    }

    /** freeproc, of an entry without descriptors. */
    method FreeEntry(p: nat)
      requires Inv(multiset{}) && p < |proc| && |proc[p].ofile| == NOFILE && forall d {:trigger proc[p].ofile[d]} ::
               0 <= d < NOFILE ==> proc[p].ofile[d] == NONE
      modifies this`proc
      ensures Inv(multiset{}) && proc == old(proc)[p := old(proc)[p].(used := false)]
    {
      var q := proc[p].(used := false);
      SlotsUpdate(proc, p, q);
      assert Slots(proc[p := q]) == Slots(proc);
      UseShape(file, proc, p, false);
      proc := proc[p := q];
    }
  }
}
