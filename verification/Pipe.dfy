/** Pipes (kernel/pipe.c): a ring of PIPESIZE bytes and two 32-bit counters that wrap
    round.  A reader or writer holds the pipe's lock from one sleep to the next, so that a
    run of any readers and writers is a sequence of the methods here. */
module Pipes {
  import opened Bytes

  const PIPESIZE: nat := 512

  lemma {:induction false} SlotOf32(x: nat)
    ensures Rem(Rem(x, WORD), 512) == Rem(x, 512)
  {
    QuotRem(x, WORD);
    QuotRem(Rem(x, WORD), 512);
    QuotUnique(x, 512, 0x80_0000 * Quot(x, WORD) + Quot(Rem(x, WORD), 512), Rem(Rem(x, WORD), 512));
  }

  /** 32-bit counters no more than PIPESIZE apart tell how far apart they are. */
  lemma {:induction false} CountersTell(r: nat, w: nat)
    requires r <= w <= r + 512
    ensures Rem(r, WORD) < WORD
    ensures Rem(r, WORD) == Rem(w, WORD) <==> r == w
    ensures Rem(w, WORD) == Plus32(Rem(r, WORD), 512) <==> w == r + 512
  {
    QuotRem(r, WORD);
    QuotRem(w, WORD);
  }

  /** a + b in 32 bits */
  function Plus32(a: nat, b: nat): (c: nat)
    requires a < WORD && b < WORD
    ensures c < WORD
  {
    if a + b < WORD then a + b else a + b - WORD
  }

  /** How a turn of the loop of pipewrite ends. */
  datatype Outcome = Refused | Full | Fault | Done

  class Pipe {
    var data: seq<Byte>
    var nread: nat
    var nwrite: nat
    var readopen: bool
    var writeopen: bool
    ghost var accepted: seq<Byte>
    ghost var consumed: seq<Byte>

    /** What has come out is the beginning of what went in; the rest is in the ring. */
    ghost predicate Valid()
      reads this
    {
      && |data| == PIPESIZE && |consumed| <= |accepted| <= |consumed| + PIPESIZE && consumed <= accepted
      && nread == Rem(|consumed|, WORD) && nwrite == Rem(|accepted|, WORD)
      && forall k: nat {:trigger Held(data, accepted, k)} :: |consumed| <= k < |accepted| ==> Held(data, accepted, k)
    }

    static ghost predicate Held(data: seq<Byte>, accepted: seq<Byte>, k: nat) {
      Rem(k, 512) < |data| && k < |accepted| && data[Rem(k, 512)] == accepted[k]
    }

    /** The contents of the ring, oldest byte first. */
    ghost function Contents(): seq<Byte>
      requires Valid()
      reads this
    {
      accepted[|consumed|..]
    }

    /** pipealloc */
    constructor (page: seq<Byte>)
      requires |page| == PIPESIZE
      ensures Valid() && readopen && writeopen && accepted == [] && consumed == []
    {
      data, readopen, writeopen := page, true, true;
      nread, nwrite := 0, 0;
      accepted, consumed := [], [];
    }

    /** pi->data[pi->nwrite++ % PIPESIZE] = ch */
    method Put(ch: Byte)
      requires Valid() && |accepted| < |consumed| + PIPESIZE
      modifies this`data, this`nwrite, this`accepted
      ensures Valid() && accepted == old(accepted) + [ch]
    {
      SlotOf32(|accepted|);
      QuotRem(nwrite, 512);
      RemNext(|accepted|, WORD);
      data := data[Rem(nwrite, 512) := ch];
      nwrite := Plus32(nwrite, 1);
      accepted := accepted + [ch];
      forall k: nat | |consumed| <= k < |accepted| ensures Held(data, accepted, k) {
        QuotRem(k, 512);
        if k < |old(accepted)| {
          assert Held(old(data), old(accepted), k);
          RemDiffer(k, |old(accepted)|, 512);
        }
      }
    }

    /** ch = pi->data[pi->nread % PIPESIZE]; ... pi->nread++ */
    method Get() returns (ch: Byte)
      requires Valid() && |consumed| < |accepted|
      modifies this`nread, this`consumed
      ensures Valid() && consumed == old(consumed) + [ch] && ch == old(Contents())[0] &&
              Contents() == old(Contents())[1..]
    {
      SlotOf32(|consumed|);
      RemNext(|consumed|, WORD);
      assert Held(data, accepted, |consumed|);
      ch := data[Rem(nread, 512)];
      nread := Plus32(nread, 1);
      consumed := consumed + [ch];
      forall k: nat | |consumed| <= k < |accepted| ensures Held(data, accepted, k) {
        assert Held(data, accepted, k);
      }
    }

    /** pipewrite from one acquisition of the lock to the next sleep or return; i counts what
        has been written.  `good` is how many bytes of src copyin can deliver, and the process
        is killed when it has written `alive` bytes, or before if that is less than i0. */
    method Write(src: seq<Byte>, i0: nat, good: nat, alive: nat) returns (o: Outcome, i: nat)
      requires Valid() && i0 <= |src|
      modifies this`data, this`nwrite, this`accepted
      ensures Valid() && i0 <= i <= |src| && accepted == old(accepted) + src[i0..i]
      ensures i == i0 || (readopen && i <= alive && i <= good)
      ensures o == if i == |src| then Done
                   else if !readopen || alive <= i then Refused
                   else if |Contents()| == PIPESIZE then Full else Fault
      ensures o == Fault ==> good <= i
    {
      i := i0;
      while i < |src|
        invariant i0 <= i <= |src| && Valid() && accepted == old(accepted) + src[i0..i]
        invariant i == i0 || (readopen && i <= alive && i <= good)
      {
        if !readopen || i >= alive {
          return Refused, i;
        }
        CountersTell(|consumed|, |accepted|);
        QuotRem(|consumed|, WORD);
        if nwrite == Plus32(nread, PIPESIZE) {
          return Full, i;
        }
        if i >= good {
          return Fault, i;
        }
        Put(src[i]);
        assert src[i0..i + 1] == src[i0..i] + [src[i]];
        i := i + 1;
      }
      o := Done;
    }

    /** The test of piperead's waiting loop: sleep, unless there are bytes or no writer. */
    method MustWait() returns (yes: bool)
      requires Valid()
      ensures yes <==> Contents() == [] && writeopen
    {
      CountersTell(|consumed|, |accepted|);
      yes := nread == nwrite && writeopen;
    }

    /** The copying loop of piperead.  `good` is how many bytes copyout can take. */
    method Read(n: int, good: nat) returns (ret: int, out: seq<Byte>)
      requires Valid()
      modifies this`nread, this`consumed
      ensures Valid() && consumed == old(consumed) + out
      ensures out == old(Contents())[..Least(Least(if n < 0 then 0 else n, |old(Contents())|), good)]
      ensures ret == if out == [] && 0 < n && old(Contents()) != [] then -1 else |out|
    {
      ghost var c := Contents();
      out := [];
      var i := 0;
      while i < n
        invariant 0 <= i && (i <= n || i == 0) && i == |out| <= good && i <= |c| && Valid()
        invariant out == c[..i] && consumed == old(consumed) + out && Contents() == c[i..]
      {
        CountersTell(|consumed|, |accepted|);
        if nread == nwrite {
          break;
        }
        if i >= good {
          if i == 0 {
            i := -1;
          }
          return i, out;
        }
        var ch := Get();
        out := out + [ch];
        i := i + 1;
      }
      ret := i;
    }

    static function Least(a: nat, b: nat): nat {
      if a < b then a else b
    }
  }
}
