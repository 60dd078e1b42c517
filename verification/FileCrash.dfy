/** filewrite over the log: whatever moment the machine crashes at, the recovered disk is a consistent file system that
    holds the first so many chunks of the write and nothing of the next one. */
module FileCrash {
  import opened Common
  import opened DiskFormat
  import opened BlockMap
  import opened InodeBlocks
  import opened FileSystem
  import opened FileContents
  import RL = RedoLog
  import LogCode

  // ---- Histories made of whole operations ----

  lemma {:induction false} ReplayThen(c: seq<RL.Block>, a: seq<RL.Event>, b: seq<RL.Event>)
    ensures RL.Replay(c, a + b) == RL.Replay(RL.Replay(c, a), b)
    decreases |b|
  {
    if b == [] {
      assert a + b == a;
    } else {
      var n := |b| - 1;
      assert (a + b)[..|a + b| - 1] == a + b[..n];
      ReplayThen(c, a, b[..n]);
    }
  }

  predicate WritesOf(op: nat, ws: seq<RL.Event>) {
    forall i :: 0 <= i < |ws| ==> ws[i].Wrote? && ws[i].op == op
  }

  /** One operation alone: it begins, writes, and ends, and its writes turn `before` into `after`. */
  ghost predicate IsOperation(tx: seq<RL.Event>, op: nat, before: seq<RL.Block>, after: seq<RL.Block>) {
    && |tx| >= 2 && tx[0] == RL.Began(op) && tx[|tx| - 1] == RL.Ended(op) && WritesOf(op, tx[1..|tx| - 1])
    && RL.Replay(before, tx) == after
  }

  ghost function Flat(txs: seq<seq<RL.Event>>): seq<RL.Event> {
    if txs == [] then [] else Flat(txs[..|txs| - 1]) + txs[|txs| - 1]
  }

  /** Operation k turns image k into image k + 1. */
  ghost predicate OneByOne(txs: seq<seq<RL.Event>>, images: seq<seq<RL.Block>>) {
    |images| == |txs| + 1 && forall k: nat :: k < |txs| ==> IsOperation(txs[k], k, images[k], images[k + 1])
  }

  lemma {:induction false} FlatReplays(txs: seq<seq<RL.Event>>, images: seq<seq<RL.Block>>)
    requires OneByOne(txs, images)
    ensures RL.Replay(images[0], Flat(txs)) == images[|txs|]
  {
    if txs != [] {
      var n := |txs| - 1;
      FlatReplays(txs[..n], images[..n + 1]);
      ReplayThen(images[0], Flat(txs[..n]), txs[n]);
    }
  }

  /** A part of an operation from its beginning leaves it open until its end. */
  lemma {:induction false} PartOpen(h: seq<RL.Event>, tx: seq<RL.Event>, op: nat, p: nat)
    requires RL.Open(h) == {} && |tx| >= 2 && tx[0] == RL.Began(op) && tx[|tx| - 1] == RL.Ended(op)
    requires WritesOf(op, tx[1..|tx| - 1]) && p <= |tx|
    ensures RL.Open(h + tx[..p]) == if 0 < p < |tx| then {op} else {}
  {
    if p == 0 {
      assert h + tx[..p] == h;
    } else {
      PartOpen(h, tx, op, p - 1);
      var g := h + tx[..p];
      assert g[..|g| - 1] == h + tx[..p - 1] && g[|g| - 1] == tx[p - 1];
      if 1 < p < |tx| { assert tx[p - 1] == tx[1..|tx| - 1][p - 2]; }
    }
  }

  lemma {:induction false} FlatClosed(txs: seq<seq<RL.Event>>, images: seq<seq<RL.Block>>)
    requires OneByOne(txs, images)
    ensures RL.Open(Flat(txs)) == {}
  {
    if txs != [] {
      var n := |txs| - 1;
      FlatClosed(txs[..n], images[..n + 1]);
      assert IsOperation(txs[n], n, images[n], images[n + 1]);
      PartOpen(Flat(txs[..n]), txs[n], n, |txs[n]|);
      assert txs[n][..|txs[n]|] == txs[n];
    }
  }

  /** A prefix in which nothing is open consists of whole operations, so it leads to one of the images. */
  lemma {:induction false} ClosedPrefix(txs: seq<seq<RL.Event>>, images: seq<seq<RL.Block>>, h: seq<RL.Event>) returns (j: nat)
    requires OneByOne(txs, images) && h <= Flat(txs) && RL.Open(h) == {}
    ensures j <= |txs| && RL.Replay(images[0], h) == images[j]
  {
    if txs == [] {
      j := 0;
    } else {
      var n := |txs| - 1;
      var init := Flat(txs[..n]);
      if |h| <= |init| {
        assert h <= init;
        j := ClosedPrefix(txs[..n], images[..n + 1], h);
      } else {
        var p := |h| - |init|;
        assert h == init + txs[n][..p];
        FlatClosed(txs[..n], images[..n + 1]);
        assert IsOperation(txs[n], n, images[n], images[n + 1]);
        PartOpen(init, txs[n], n, p);
        assert h == Flat(txs);
        FlatReplays(txs, images);
        j := |txs|;
      }
    }
  }

  /** After a crash at any moment of a run of these operations, the disk that recovery will show is one of the images. */
  lemma CrashShowsImage(g: RL.Geometry, txs: seq<seq<RL.Event>>, images: seq<seq<RL.Block>>, s: RL.State) returns (j: nat)
    requires OneByOne(txs, images) && RL.Reachable(g, images[0], s) && (RL.Safe(g) || !s.spilled) && s.hist <= Flat(txs)
    ensures j < |images| && RL.Shape(g, s) && RL.Shows(g, s.disk, images[j])
    ensures RL.Head(s.disk[g.start]) == [] ==> RL.SameHome(g, s.disk, images[j])
  {
    hide RL.Reachable;
    RL.CrashAtomicity(g, images[0], s);
    var h := s.hist[..s.durable];
    assert h <= Flat(txs);
    j := ClosedPrefix(txs, images, h);
  }

  ghost function Writes(op: nat, ws: seq<(nat, RL.Block)>): (r: seq<RL.Event>)
    ensures |r| == |ws| && WritesOf(op, r)
  {
    if ws == [] then [] else
    var n := |ws| - 1;
    Writes(op, ws[..n]) + [RL.Wrote(op, ws[n].0, ws[n].1)]
  }

  /** The history of one operation that logs the given blocks. */
  ghost function Operation(op: nat, ws: seq<(nat, RL.Block)>): seq<RL.Event> {
    [RL.Began(op)] + Writes(op, ws) + [RL.Ended(op)]
  }

  /** log_write by the only process there is. */
  method LogOne(log: LogCode.Log, op: nat, b: nat, data: RL.Block, ghost i: nat) returns (panicked: bool)
    requires log.Valid() && log.stage.Idle? && log.passed == {} && log.ops.Keys == {op} && log.ops[op] <= i && |log.lh| <= i
    requires i < MAXOPBLOCKS && MAXOPBLOCKS + 1 < log.g.size && RL.Home(log.g, b)
    modifies log
    ensures !panicked && log.Valid() && log.stage.Idle? && log.passed == {} && log.c0 == old(log.c0)
    ensures log.ops.Keys == {op} && log.ops[op] <= i + 1 && |log.lh| <= i + 1
    ensures log.hist == old(log.hist) + [RL.Wrote(op, b, data)]
  {
    hide LogCode.Log.OnTrack;
    assert op in log.ops;
    panicked := log.LogTest(op);
    log.LogAppend(op, b, data);
    assert log.passed == {};
  }

  method LogAll(log: LogCode.Log, op: nat, ws: seq<(nat, RL.Block)>) returns (panicked: bool)
    requires log.Valid() && log.stage.Idle? && log.passed == {} && log.ops == map[op := 0] && log.lh == []
    requires |ws| <= MAXOPBLOCKS && MAXOPBLOCKS + 1 < log.g.size && forall i :: 0 <= i < |ws| ==> RL.Home(log.g, ws[i].0)
    modifies log
    ensures !panicked && log.Valid() && log.stage.Idle? && log.passed == {} && log.c0 == old(log.c0)
    ensures log.ops.Keys == {op} && |log.lh| <= |ws| && log.hist == old(log.hist) + Writes(op, ws)
  {
    hide LogCode.Log.Valid, RL.Home;
    panicked := false;
    var i := 0;
    while i < |ws|
      invariant 0 <= i <= |ws| && !panicked && log.Valid() && log.stage.Idle? && log.passed == {} && log.c0 == old(log.c0)
      invariant log.ops.Keys == {op} && log.ops[op] <= i && |log.lh| <= i
      invariant log.hist == old(log.hist) + Writes(op, ws[..i])
    {
      panicked := LogOne(log, op, ws[i].0, ws[i].1, i);
      assert ws[..i + 1][..i] == ws[..i];
      i := i + 1;
    }
    assert ws[..|ws|] == ws;
  }

  /** log.c run by one process alone: begin_op, a log_write for each block, end_op.  With at most MAXOPBLOCKS blocks and a
      log of a few more, no test stops it; the history grows by exactly this operation, and all of it is on disk. */
  method RunOperation(log: LogCode.Log, op: nat, ws: seq<(nat, RL.Block)>) returns (panicked: bool)
    requires log.Valid() && log.stage.Idle? && log.ops == map[] && log.lh == [] && log.passed == {}
    requires |ws| <= MAXOPBLOCKS && MAXOPBLOCKS + 1 < log.g.size && forall i :: 0 <= i < |ws| ==> RL.Home(log.g, ws[i].0)
    modifies log
    ensures !panicked && log.Valid() && log.stage.Idle? && log.ops == map[] && log.lh == [] && log.passed == {}
    ensures log.hist == old(log.hist) + Operation(op, ws) && log.durable == |log.hist| && log.c0 == old(log.c0)
    ensures RL.Safe(log.g) || !log.spilled ==> RL.SameHome(log.g, log.disk, RL.Replay(log.c0, log.hist))
  {
    hide LogCode.Log.OnTrack, RL.SameHome, RL.Safe, RL.Home, Writes, RL.Replay;
    var admitted := log.BeginOp(op);
    assert log.ops == map[op := 0];
    panicked := LogAll(log, op, ws);
    assert op in log.ops;
    panicked := log.EndOp(op);
    assert log.ops == map[] by { assert log.ops.Keys == {}; }
  }

  // ---- File systems as images ----

  /** All blocks of the disk, with the inode blocks in their place. */
  ghost function ImageOf(sb: Super, x: Snapshot): (r: seq<Block>)
    ensures |r| == |x.blocks|
    ensures forall b :: 0 <= b < |r| ==>
              r[b] == if sb.inodestart <= b < sb.inodestart + |x.table| then x.table[b - sb.inodestart] else x.blocks[b]
  {
    seq(|x.blocks|, b requires 0 <= b < |x.blocks| =>
      if sb.inodestart <= b < sb.inodestart + |x.table| then x.table[b - sb.inodestart] else x.blocks[b])
  }

  /** The inode blocks of an image. */
  ghost function TableOf(sb: Super, image: seq<Block>): seq<Block>
    requires sb.inodestart + sb.ninodes / IPB + 1 <= |image|
  {
    image[sb.inodestart..sb.inodestart + sb.ninodes / IPB + 1]
  }

  /** The image, mounted, is a file system with its blocks owned; `ino` has contents c, and the other files are as in d0. */
  ghost predicate Holds(sb: Super, image: seq<Block>, d0: Disk, ino: nat, c: seq<byte>)
    requires Shape(sb, d0) && ino < sb.ninodes
  {
    && SuperOk(sb) && |image| == sb.size && TableOk(TableOf(sb, image), sb.ninodes)
    && var d := Disk(image, Inodes(TableOf(sb, image), sb.ninodes));
       && (exists owner :: Own(sb, d, owner, {})) && Shape(sb, d)
       && Content(sb, d, ino) == c
       && forall n :: 0 <= n < sb.ninodes && n != ino ==> Content(sb, d, n) == Content(sb, d0, n)
  }

  lemma TableBack(sb: Super, x: Snapshot)
    requires SuperOk(sb) && |x.blocks| == sb.size && |x.inodes| == sb.ninodes && Saved(x.table, x.meta, x.inodes)
    ensures TableOf(sb, ImageOf(sb, x)) == x.table && Inodes(x.table, sb.ninodes) == x.inodes
  {
    hide Get;
    forall n: nat | n < sb.ninodes
      ensures Inodes(x.table, sb.ninodes)[n] == x.inodes[n]
    {
      assert n / IPB < |x.table| && At(x.table, n) == Dinode(x.meta[n], x.inodes[n]);
    }
  }

  lemma SameBits(sb: Super, blocks: seq<Block>, blocks': seq<Block>, taken: set<nat>)
    requires SuperOk(sb) && |blocks| == |blocks'| == sb.size
    requires (forall b :: 0 <= b < sb.size ==> |blocks[b]| == BSIZE) && forall b :: 0 <= b < sb.size ==> |blocks'[b]| == BSIZE
    requires (forall b: nat :: sb.bmapstart <= b < sb.size ==> blocks'[b] == blocks[b]) && BitsMatch(sb, blocks, taken)
    ensures BitsMatch(sb, blocks', taken)
  {
    hide Bit;
    forall b: nat | b < sb.size
      ensures BBlock(sb, b) < sb.size && (Used(sb, blocks', b) <==> Used(sb, blocks, b))
    {
      BBlockLow(sb, b);
    }
  }

  /** Bitmap and data do not lie among the inode blocks. */
  lemma ImageOwn(sb: Super, x: Snapshot)
    requires Own(sb, DiskOf(x), x.owner, {}) && TableOk(x.table, sb.ninodes)
    ensures Own(sb, Disk(ImageOf(sb, x), x.inodes), x.owner, {})
    ensures forall s :: SlotOk(sb, s) ==> Ref(sb, Disk(ImageOf(sb, x), x.inodes), s) == Ref(sb, DiskOf(x), s)
    ensures forall b: nat :: DataStart(sb) <= b < sb.size ==> ImageOf(sb, x)[b] == x.blocks[b]
  {
    hide BitsMatch, Used;
    var image := ImageOf(sb, x);
    var d, d' := DiskOf(x), Disk(image, x.inodes);
    assert forall b: nat :: sb.bmapstart <= b < sb.size ==> image[b] == x.blocks[b];
    assert Shape(sb, d');
    forall s | SlotOk(sb, s)
      ensures Ref(sb, d', s) == Ref(sb, d, s)
    {
      assert SlotOk(sb, Indirect(s.ino));
    }
    SameBits(sb, d.blocks, image, x.owner.Keys + {});
  }

  lemma ImageContent(sb: Super, x: Snapshot, n: nat)
    requires Own(sb, DiskOf(x), x.owner, {}) && TableOk(x.table, sb.ninodes) && Shape(sb, DiskOf(x)) && n < sb.ninodes
    ensures Shape(sb, Disk(ImageOf(sb, x), x.inodes))
    ensures Content(sb, Disk(ImageOf(sb, x), x.inodes), n) == Content(sb, DiskOf(x), n)
  {
    hide Own;
    ImageOwn(sb, x);
    OwnFacts(sb, DiskOf(x), x.owner, {});
    OwnFacts(sb, Disk(ImageOf(sb, x), x.inodes), x.owner, {});
    forall k: nat
      ensures ByteAt(sb, Disk(ImageOf(sb, x), x.inodes), n, k) == ByteAt(sb, DiskOf(x), n, k)
    {
      if k < MAXBYTES { assert SlotOk(sb, DataSlot(n, k / BSIZE)); }
    }
  }

  lemma TableBackSizes(table: seq<Block>, meta: seq<Meta>, inodes: seq<Inode>)
    requires Saved(table, meta, inodes)
    ensures TableOk(table, |inodes|)
  {
  }

  lemma IntactHolds(sb: Super, x0: Snapshot, x: Snapshot, ino: nat, c: seq<byte>)
    requires Shape(sb, DiskOf(x0)) && ino < sb.ninodes && Intact(sb, x0, x, ino, c)
    ensures Holds(sb, ImageOf(sb, x), DiskOf(x0), ino, c)
  {
    hide Own, Saved, Content, NoHoles;
    assert TableOk(x.table, sb.ninodes) by { TableBackSizes(x.table, x.meta, x.inodes); }
    TableBack(sb, x);
    ImageOwn(sb, x);
    ImageContent(sb, x, ino);
    forall n | 0 <= n < sb.ninodes && n != ino
      ensures Content(sb, Disk(ImageOf(sb, x), x.inodes), n) == Content(sb, DiskOf(x0), n)
    {
      assert SameFile(sb, DiskOf(x0), DiskOf(x), n);
      ImageContent(sb, x, n);
    }
  }

  // ---- A transaction of the file system as an operation of the log ----

  /** One log_write for each block of a set, with its contents in `image`. */
  ghost function WriteAll(op: nat, bs: set<nat>, image: seq<RL.Block>): (ws: seq<RL.Event>)
    requires forall b :: b in bs ==> b < |image|
    ensures WritesOf(op, ws) && |ws| == |bs|
  {
    if bs == {} then [] else
    var b :| b in bs;
    WriteAll(op, bs - {b}, image) + [RL.Wrote(op, b, image[b])]
  }

  lemma {:induction false} WriteAllReplays(op: nat, bs: set<nat>, image: seq<RL.Block>, c: seq<RL.Block>, x: nat)
    requires (forall b :: b in bs ==> b < |image|) && |c| == |image| && x < |c|
    ensures RL.Replay(c, WriteAll(op, bs, image))[x] == if x in bs then image[x] else c[x]
  {
    if bs != {} {
      var ws := WriteAll(op, bs, image);
      var b :| b in bs && ws == WriteAll(op, bs - {b}, image) + [RL.Wrote(op, b, image[b])];
      WriteAllReplays(op, bs - {b}, image, c, x);
      assert ws[..|ws| - 1] == WriteAll(op, bs - {b}, image);
    }
  }

  /** The changed blocks of an image are among those logged. */
  lemma ImageCovered(sb: Super, x: Snapshot, y: Snapshot)
    requires OneTransaction(sb, x, y)
    ensures |ImageOf(sb, x)| == |ImageOf(sb, y)|
    ensures forall b: nat :: b < |ImageOf(sb, x)| && ImageOf(sb, x)[b] != ImageOf(sb, y)[b] ==> b in y.logged
  {
    forall b: nat | b < |ImageOf(sb, x)| && ImageOf(sb, x)[b] != ImageOf(sb, y)[b]
      ensures b in y.logged
    {
      if sb.inodestart <= b < sb.inodestart + |x.table| {
        assert x.table[b - sb.inodestart] != y.table[b - sb.inodestart];
      } else {
        assert x.blocks[b] != y.blocks[b];
      }
    }
  }

  lemma ReplayTx(op: nat, ws: seq<RL.Event>, c: seq<RL.Block>)
    ensures RL.Replay(c, [RL.Began(op)] + ws + [RL.Ended(op)]) == RL.Replay(c, ws)
  {
    var tx := [RL.Began(op)] + ws + [RL.Ended(op)];
    assert tx[..|tx| - 1] == [RL.Began(op)] + ws;
    ReplayThen(c, [RL.Began(op)], ws);
    assert RL.Replay(c, [RL.Began(op)]) == c;
  }

  lemma WritesMake(op: nat, bs: set<nat>, before: seq<RL.Block>, after: seq<RL.Block>)
    requires |before| == |after| && (forall b :: b in bs ==> b < |after|)
    requires forall b: nat :: b < |after| && before[b] != after[b] ==> b in bs
    ensures IsOperation([RL.Began(op)] + WriteAll(op, bs, after) + [RL.Ended(op)], op, before, after)
  {
    var ws := WriteAll(op, bs, after);
    var tx := [RL.Began(op)] + ws + [RL.Ended(op)];
    hide WriteAll, RL.Replay;
    assert tx[1..|tx| - 1] == ws;
    ReplayTx(op, ws, before);
    forall b: nat | b < |after|
      ensures RL.Replay(before, ws)[b] == after[b]
    {
      WriteAllReplays(op, bs, after, before, b);
    }
    assert RL.Replay(before, ws) == after;
  }

  /** The blocks a transaction gave to log_write, written within one operation and its allowance, make the next image. */
  lemma TransactionFits(sb: Super, x: Snapshot, y: Snapshot, op: nat) returns (tx: seq<RL.Event>)
    requires OneTransaction(sb, x, y)
    ensures |ImageOf(sb, x)| == |ImageOf(sb, y)| && IsOperation(tx, op, ImageOf(sb, x), ImageOf(sb, y))
    ensures |tx| <= MAXOPBLOCKS + 2
  {
    ImageCovered(sb, x, y);
    hide ImageOf, WriteAll, IsOperation, Covered;
    var before, after := ImageOf(sb, x), ImageOf(sb, y);
    var bs := set b | b in y.logged && b < |after|;
    SubsetSize(bs, y.logged);
    WritesMake(op, bs, before, after);
    tx := [RL.Began(op)] + WriteAll(op, bs, after) + [RL.Ended(op)];
  }

  // ---- filewrite ----

  ghost function Images(sb: Super, xs: seq<Snapshot>): (r: seq<seq<Block>>)
    ensures |r| == |xs| && forall k :: 0 <= k < |xs| ==> r[k] == ImageOf(sb, xs[k])
  {
    seq(|xs|, k requires 0 <= k < |xs| => ImageOf(sb, xs[k]))
  }

  /** The transactions of filewrite are operations of the log, one after the other, each within its allowance. */
  lemma {:induction false} ChunksAreOperations(sb: Super, xs: seq<Snapshot>) returns (txs: seq<seq<RL.Event>>)
    requires |xs| > 0 && forall k: nat :: k < |xs| - 1 ==> OneTransaction(sb, xs[k], xs[k + 1])
    ensures OneByOne(txs, Images(sb, xs)) && forall k: nat :: k < |txs| ==> |txs[k]| <= MAXOPBLOCKS + 2
  {
    hide OneTransaction, IsOperation;
    if |xs| == 1 {
      txs := [];
    } else {
      var n := |xs| - 1;
      var less := ChunksAreOperations(sb, xs[..n]);
      var tx := TransactionFits(sb, xs[n - 1], xs[n], n - 1);
      txs := less + [tx];
    }
  }

  /** Crash safety of filewrite: in every run in which the transactions of one filewrite are the operations of the log, with
      crashes anywhere, the disk that recovery shows (with an empty log, the disk itself) is a consistent file system in
      which the file holds the first j chunks of the write, for some j, and every other file is as it was. */
  lemma FilewriteCrashes(g: RL.Geometry, sb: Super, xs: seq<Snapshot>, ino: nat, off: nat, data: seq<byte>,
                         txs: seq<seq<RL.Event>>, s: RL.State) returns (j: nat)
    requires Chunked(sb, xs, ino, off, data) && OneByOne(txs, Images(sb, xs))
    requires RL.Reachable(g, Images(sb, xs)[0], s) && (RL.Safe(g) || !s.spilled) && s.hist <= Flat(txs)
    ensures j < |xs| && RL.Shape(g, s) && RL.Shows(g, s.disk, Images(sb, xs)[j])
    ensures RL.Head(s.disk[g.start]) == [] ==> RL.SameHome(g, s.disk, Images(sb, xs)[j])
    ensures Shape(sb, DiskOf(xs[0])) && ino < sb.ninodes && off <= xs[0].inodes[ino].size
    ensures Holds(sb, Images(sb, xs)[j], DiskOf(xs[0]), ino,
                  Splice(Content(sb, DiskOf(xs[0]), ino), off, data[..Min(j * CHUNK, |data|)]))
  {
    hide RL.Reachable, RL.Shows, RL.SameHome, OneByOne, Flat, Holds, Intact, OneTransaction, Content, Splice;
    j := CrashShowsImage(g, txs, Images(sb, xs), s);
    IntactHolds(sb, xs[0], xs[j], ino, Splice(Content(sb, DiskOf(xs[0]), ino), off, data[..Min(j * CHUNK, |data|)]));
  }
}
