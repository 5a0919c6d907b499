/** The disk: an array of blocks that only ever changes one whole block at a
    time.  A block is seen as its BSIZE/4 = 256 words of 32 bits, which is how
    the log header is laid out. */
module Disk {
  const WORDS: nat := 256

  type Block = b: seq<int> | |b| == WORDS witness seq(WORDS, i => 0)

  type Image = seq<Block>

  datatype Write = Write(bno: nat, data: Block)

  predicate InRange(d: Image, ws: seq<Write>) {
    forall i :: 0 <= i < |ws| ==> ws[i].bno < |d|
  }

  /** The disk after the writes `ws`, performed in order. */
  function Apply(d: Image, ws: seq<Write>): (r: Image)
    requires InRange(d, ws)
    ensures |r| == |d|
  {
    if ws == [] then d
    else
      var last := ws[|ws| - 1];
      Apply(d, ws[..|ws| - 1])[last.bno := last.data]
  }

  lemma {:induction false} ApplyAppend(d: Image, ws: seq<Write>, w: Write)
    requires InRange(d, ws) && w.bno < |d|
    ensures InRange(d, ws + [w])
    ensures Apply(d, ws + [w]) == Apply(d, ws)[w.bno := w.data]
  {
    assert (ws + [w])[..|ws|] == ws;
  }

  /** A crash image: all but the last of the first k+1 writes. */
  lemma {:induction false} ApplyPrefixStep(d: Image, ws: seq<Write>, k: nat)
    requires InRange(d, ws) && k < |ws|
    ensures Apply(d, ws[..k + 1]) == Apply(d, ws[..k])[ws[k].bno := ws[k].data]
  {
    assert ws[..k + 1] == ws[..k] + [ws[k]];
    ApplyAppend(d, ws[..k], ws[k]);
  }

  lemma {:induction false} ApplyConcat(d: Image, xs: seq<Write>, ys: seq<Write>)
    requires InRange(d, xs) && InRange(d, ys)
    ensures InRange(d, xs + ys)
    ensures Apply(d, xs + ys) == Apply(Apply(d, xs), ys)
  {
    if ys == [] {
      assert xs + ys == xs;
    } else {
      var n := |ys| - 1;
      assert (xs + ys)[..|xs + ys| - 1] == xs + ys[..n];
      ApplyConcat(d, xs, ys[..n]);
    }
  }

  /** The writes a, then the first j of the writes b. */
  lemma {:induction false} ApplyParts(d: Image, a: seq<Write>, b: seq<Write>, ws: seq<Write>, k: nat, j: nat, c: Image,
                                      e: Image)
    requires InRange(d, a) && InRange(d, b) && InRange(d, ws) && ws == a + b && j <= |b| && k == |a| + j
    requires c == Apply(d, a) && e == Apply(d, ws[..k])
    ensures e == Apply(c, b[..j])
  {
    assert ws[..k] == a + b[..j];
    ApplyConcat(d, a, b[..j]);
  }

  /** A block nobody writes keeps its contents. */
  lemma {:induction false} ApplyMiss(d: Image, ws: seq<Write>, b: nat)
    requires InRange(d, ws) && b < |d|
    requires forall i :: 0 <= i < |ws| ==> ws[i].bno != b
    ensures Apply(d, ws)[b] == d[b]
  {
    if ws != [] {
      ApplyMiss(d, ws[..|ws| - 1], b);
    }
  }

  /** A written block holds what the last write to it stored. */
  lemma {:induction false} ApplyHit(d: Image, ws: seq<Write>, i: nat)
    requires InRange(d, ws) && i < |ws|
    requires forall j :: i < j < |ws| ==> ws[j].bno != ws[i].bno
    ensures Apply(d, ws)[ws[i].bno] == ws[i].data
  {
    if i < |ws| - 1 {
      ApplyHit(d, ws[..|ws| - 1], i);
    }
  }
}
