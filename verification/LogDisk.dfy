/** The log on disk (kernel/log.c): its layout, its header block, and the sequences of block
    writes that commit a transaction and that recover one. */
module LogDisk {
  import opened Disk

  const LOGBLOCKS: nat := 30

  /** Where the log lives: the header at `start`, then LOGBLOCKS data blocks. */
  datatype Layout = Layout(start: nat, size: nat) {
    predicate Valid() {
      start + LOGBLOCKS < size
    }

    /** A block outside the log area. */
    predicate Home(b: int) {
      0 <= b < size && !(start <= b <= start + LOGBLOCKS)
    }
  }

  /** The block numbers logged and, position by position, their new contents. */
  datatype Txn = Txn(blocks: seq<nat>, data: seq<Block>) {
    predicate Valid(l: Layout) {
      && |blocks| == |data| <= LOGBLOCKS
      && Loggable(l, blocks)
    }
  }

  predicate Loggable(l: Layout, blocks: seq<int>) {
    && (forall i :: 0 <= i < |blocks| ==> l.Home(blocks[i]))
    && (forall i, j :: 0 <= i < j < |blocks| ==> blocks[i] != blocks[j])
  }

  // ----- the header block

  /** The header block after write_head: the count, the numbers, and whatever
      the words beyond them held before. */
  function PutHead(h: Block, blocks: seq<nat>): Block
    requires |blocks| <= LOGBLOCKS
  {
    [|blocks|] + blocks + h[1 + |blocks|..]
  }

  predicate HeadOk(l: Layout, h: Block) {
    && 0 <= h[0] <= LOGBLOCKS
    && Loggable(l, h[1..1 + h[0]])
  }

  /** The block numbers read_head takes from a header block. */
  function GetHead(l: Layout, h: Block): (blocks: seq<nat>)
    requires HeadOk(l, h)
    ensures |blocks| == h[0] <= LOGBLOCKS && Loggable(l, blocks)
    ensures forall i :: 0 <= i < h[0] ==> blocks[i] == h[1 + i]
  {
    var named := h[1..1 + h[0]];
    assert forall i :: 0 <= i < h[0] ==> l.Home(named[i]);
    seq(h[0], i requires 0 <= i < h[0] => named[i])
  }

  lemma {:induction false} HeadRoundTrip(l: Layout, h: Block, blocks: seq<nat>)
    requires |blocks| <= LOGBLOCKS && Loggable(l, blocks)
    ensures HeadOk(l, PutHead(h, blocks))
    ensures GetHead(l, PutHead(h, blocks)) == blocks
  {
    assert PutHead(h, blocks)[1..1 + |blocks|] == blocks;
  }

  // ----- the writes of commit and of recovery

  ghost predicate DiskOk(l: Layout, d: Image) {
    && l.Valid()
    && |d| == l.size
    && HeadOk(l, d[l.start])
  }

  /** The log is empty: nothing to redo. */
  ghost predicate Erased(l: Layout, d: Image) {
    DiskOk(l, d) && d[l.start][0] == 0
  }

  function LogWrites(l: Layout, t: Txn): (ws: seq<Write>)
    requires |t.blocks| == |t.data|
  {
    seq(|t.data|, i requires 0 <= i < |t.data| => Write(l.start + 1 + i, t.data[i]))
  }

  function HomeWrites(t: Txn): (ws: seq<Write>)
    requires |t.blocks| == |t.data|
  {
    seq(|t.data|, i requires 0 <= i < |t.data| => Write(t.blocks[i], t.data[i]))
  }

  /** Everything commit() writes, in order. */
  function CommitWrites(l: Layout, d: Image, t: Txn): (ws: seq<Write>)
    requires DiskOk(l, d) && t.Valid(l)
  {
    if |t.blocks| == 0 then []
    else
      var full := PutHead(d[l.start], t.blocks);
      LogWrites(l, t) + [Write(l.start, full)] + HomeWrites(t) + [Write(l.start, PutHead(full, []))]
  }

  /** The transaction a recovering kernel finds in the log. */
  function Logged(l: Layout, d: Image): (t: Txn)
    requires DiskOk(l, d)
    ensures t.Valid(l)
  {
    var blocks := GetHead(l, d[l.start]);
    Txn(blocks, d[l.start + 1..l.start + 1 + |blocks|])
  }

  /** Everything recover_from_log() writes, in order. */
  function RecoverWrites(l: Layout, d: Image): (ws: seq<Write>)
    requires DiskOk(l, d)
  {
    HomeWrites(Logged(l, d)) + [Write(l.start, PutHead(d[l.start], []))]
  }

  function Recover(l: Layout, d: Image): (r: Image)
    requires DiskOk(l, d)
    ensures |r| == |d|
  {
    RecoverInRange(l, d);
    Apply(d, RecoverWrites(l, d))
  }

  lemma {:induction false} RecoverInRange(l: Layout, d: Image)
    requires DiskOk(l, d)
    ensures InRange(d, RecoverWrites(l, d))
  {
    var t := Logged(l, d);
    forall i | 0 <= i < |t.blocks| ensures t.blocks[i] < |d| {
      assert l.Home(t.blocks[i]);
    }
  }

  lemma {:induction false} CommitInRange(l: Layout, d: Image, t: Txn)
    requires DiskOk(l, d) && t.Valid(l)
    ensures InRange(d, CommitWrites(l, d, t))
  {
    forall i | 0 <= i < |t.blocks| ensures t.blocks[i] < |d| {
      assert l.Home(t.blocks[i]);
    }
  }

  // ----- what the home blocks hold

  ghost predicate SameHomes(l: Layout, d: Image, e: Image) {
    && |d| == |e| == l.size
    && forall b: nat :: l.Home(b) ==> d[b] == e[b]
  }

  /** The home blocks with a transaction's contents in place. */
  ghost function Install(l: Layout, d: Image, t: Txn): (r: Image)
    requires |d| == l.size && t.Valid(l)
    ensures |r| == |d|
  {
    assert InRange(d, HomeWrites(t)) by {
      forall i | 0 <= i < |t.blocks| ensures t.blocks[i] < |d| { assert l.Home(t.blocks[i]); }
    }
    Apply(d, HomeWrites(t))
  }
}
