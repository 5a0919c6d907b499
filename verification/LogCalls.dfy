/** The log_write calls of one file system operation, as the list of the blocks it passes
    (kernel/log.c, kernel/param.h). */
module LogCalls {
  const MAXOPBLOCKS: nat := 10

  ghost function Elems(calls: seq<nat>): set<nat> {
    set b | b in calls
  }

  /** When an operation calls log_write, it has passed fewer than MAXOPBLOCKS different blocks
      to it before. */
  ghost predicate WithinBudget(calls: seq<nat>) {
    forall k: nat :: k < |calls| ==> |Elems(calls[..k])| < MAXOPBLOCKS
  }

  /** From calls0 on, only blocks of s have been passed. */
  ghost predicate Adds(calls0: seq<nat>, calls: seq<nat>, s: set<nat>) {
    && calls0 <= calls
    && forall k :: |calls0| <= k < |calls| ==> calls[k] in s
  }

  lemma {:induction false} AddsNone(calls: seq<nat>, s: set<nat>)
    ensures Adds(calls, calls, s)
  {
  }

  lemma {:induction false} AddsOne(calls0: seq<nat>, calls: seq<nat>, b: nat, s: set<nat>)
    requires calls == calls0 + [b] && b in s
    ensures Adds(calls0, calls, s)
  {
  }

  lemma {:induction false} AddsTwo(calls0: seq<nat>, calls: seq<nat>, b: nat, c: nat, s: set<nat>)
    requires calls == calls0 + [b, c] && b in s && c in s
    ensures Adds(calls0, calls, s)
  {
  }

  lemma {:induction false} AddsThen(a: seq<nat>, b: seq<nat>, c: seq<nat>, s: set<nat>, t: set<nat>, u: set<nat>)
    requires Adds(a, b, s) && Adds(b, c, t) && s <= u && t <= u
    ensures Adds(a, c, u)
  {
    forall k | |a| <= k < |c| ensures c[k] in u {
      assert k < |b| ==> c[k] == b[k];
    }
  }

  /** An operation passes few blocks, and one more at the end. */
  lemma {:induction false} LastCall(calls: seq<nat>, most: seq<nat>, last: nat, s: set<nat>)
    requires Adds([], most, s) && calls == most + [last] && |s| < MAXOPBLOCKS
    ensures WithinBudget(calls)
  {
    forall k: nat | k < |calls| ensures |Elems(calls[..k])| < MAXOPBLOCKS {
      SubsetCard(Elems(calls[..k]), s);
    }
  }

  lemma {:induction false} UnionBound(a: set<nat>, b: set<nat>)
    ensures |a + b| <= |a| + |b|
  {
    assert a + b == a + (b - a);
    assert |b - a| <= |b| by { SubsetCard(b - a, b); }
  }

  lemma {:induction false} SubsetCard(a: set<nat>, b: set<nat>)
    requires a <= b
    ensures |a| <= |b|
  {
    if a != {} {
      var x :| x in a;
      SubsetCard(a - {x}, b - {x});
    }
  }
}
