/** The block cache of the file system library: one array of buffers, threaded by an LRU chain and by
    hash chains. A buffer pointer is an index into the array. */
module BlockCache {
  import opened Chains
  import opened BufferPool
  import opened YieldInterface
  import opened CacheSpec
  import opened Requests
  import opened ShellSort

  function Blocks(b: seq<Buf>): (r: seq<Block>)
    ensures |r| == |b| && forall i :: 0 <= i < |b| ==> r[i] == b[i].blk
  {
    seq(|b|, i requires 0 <= i < |b| => b[i].blk)
  }

  /** Free buffers, and only they, are on the LRU chain; every buffer is on the hash chain of its
      block number; distinct valid buffers hold distinct blocks. */
  ghost predicate Indexed(b: seq<Buf>, lru: seq<int>, chains: seq<seq<int>>) {
    && |b| == |chains| > 0
    && (forall i :: 0 <= i < |b| ==> (i in lru <==> b[i].blk.count == 0))
    && (forall i {:trigger b[i].hash} :: 0 <= i < |b| ==> i in chains[BufHash(b[i].blk.blocknr, |b|)])
    && Unique(Blocks(b))
  }

  const MINBUFS: nat := 6

  /** A buffer as lmfs_buf_pool leaves it. */
  const FREE: Block := Block(NO_DEV, NO_BLOCK, [], false, 0, false)

  ghost predicate FreshBufs(b: seq<Buf>, lru: seq<int>) {
    && |b| == |lru| > 0
    && (forall i :: 0 <= i < |b| ==> lru[i] == i)
    && (forall i :: 0 <= i < |b| ==> b[i].blk == FREE)
    && (forall i :: 0 <= i < |b| ==> b[i].next == b[i].hash == if i == |b| - 1 then NULL else i + 1)
    && (forall i :: 0 <= i < |b| ==> b[i].prev == i - 1)
  }

  predicate FreshTable(h: seq<int>) {
    forall c :: 0 <= c < |h| ==> h[c] == if c == 0 then 0 else NULL
  }

  lemma FreshLru(b: seq<Buf>, lru: seq<int>)
    requires FreshBufs(b, lru)
    ensures LruLinked(b, 0, |b| - 1, lru)
  {
  }

  lemma FreshHash(b: seq<Buf>, h: seq<int>, lru: seq<int>, chains: seq<seq<int>>)
    requires FreshBufs(b, lru) && |h| == |chains| == |b|
    requires FreshTable(h)
    requires forall c :: 0 <= c < |h| ==> chains[c] == if c == 0 then lru else []
    ensures HashLinked(b, h, chains)
  {
    assert BufHash(NO_BLOCK, |b|) == 0;
  }

  lemma FreshIndexed(b: seq<Buf>, lru: seq<int>, chains: seq<seq<int>>)
    requires FreshBufs(b, lru) && |chains| == |b| && chains[0] == lru
    ensures Indexed(b, lru, chains)
  {
    forall i | 0 <= i < |b|
      ensures i in lru
    {
      assert lru[i] == i;
    }
    assert BufHash(NO_BLOCK, |b|) == 0;
  }

  class Cache {
    var buf: array<Buf>
    var bufHash: array<int>
    var front: int
    var rear: int
    var bufsInUse: int
    var vmcache: bool
    var rdwtErr: int
    const blockSize: nat
    const nrIoReqs: nat

    /** The disks, VM's blocks of this process, and the answers the devices will give; once the answers
        run out the devices work. */
    var disk: map<Id, Data>
    var vm: map<Id, Data>
    var answers: seq<Answer>

    ghost var lru: seq<int>
    ghost var chains: seq<seq<int>>

    ghost predicate Linked()
      reads this, buf, bufHash
    {
      && blockSize > 0 && nrIoReqs > 0
      && LruLinked(buf[..], front, rear, lru)
      && HashLinked(buf[..], bufHash[..], chains)
    }

    ghost predicate Valid()
      reads this, buf, bufHash
    {
      && Linked()
      && Indexed(buf[..], lru, chains)
      && bufsInUse == buf.Length - |lru|
    }

    ghost function Snap(): Pool
      reads this, buf
    {
      Pool(Blocks(buf[..]), lru, vm, disk)
    }

    /** lmfs_buf_pool of a cache that has no buffers yet: no buffer holds a block, all are free, on the
        LRU chain in order of address and on the hash chain of NO_BLOCK. */
    constructor (bufs: nat, fsBlockSize: nat, ioReqs: nat, useVm: bool, disks: map<Id, Data>, script: seq<Answer>)
      requires bufs >= MINBUFS && fsBlockSize > 0 && ioReqs > 0
      ensures Valid() && fresh(buf) && fresh(bufHash) && buf.Length == bufs && bufsInUse == 0
      ensures Snap() == Pool(seq(bufs, i => FREE), seq(bufs, i => i), map[], disks)
      ensures vmcache == useVm && answers == script && blockSize == fsBlockSize && nrIoReqs == ioReqs
    {
      buf := new Buf[bufs]((i: int) => Buf(FREE, i + 1, i - 1, 0));
      bufHash := new int[bufs](i => NULL);
      front, rear, bufsInUse := 0, bufs - 1, 0;
      vmcache, rdwtErr, blockSize, nrIoReqs := useVm, 0, fsBlockSize, ioReqs;
      disk, vm, answers := disks, map[], script;
      lru := seq(bufs, i => i);
      chains := seq(bufs, c => if c == 0 then seq(bufs, i => i) else []);
      new;
      LinkFresh();
      FreshLru(buf[..], lru);
      FreshHash(buf[..], bufHash[..], lru, chains);
      FreshIndexed(buf[..], lru, chains);
      assert Snap().blocks == seq(bufs, i => FREE);
    }

    /** Ends the LRU chain at the last buffer and makes the hash chain of NO_BLOCK a copy of it. */
    method LinkFresh()
      requires buf.Length == bufHash.Length == |lru| == rear + 1 > 0 && front == 0
      requires forall i :: 0 <= i < buf.Length ==> buf[i] == Buf(FREE, i + 1, i - 1, 0) && bufHash[i] == NULL
      requires forall i :: 0 <= i < buf.Length ==> lru[i] == i
      modifies buf, bufHash
      ensures FreshBufs(buf[..], lru) && FreshTable(bufHash[..])
    {
      buf[rear] := buf[rear].(next := NULL);
      var bp := 0;
      while bp < buf.Length
        modifies buf
        invariant 0 <= bp <= buf.Length
        invariant forall i :: 0 <= i < buf.Length ==>
          buf[i].blk == FREE && buf[i].prev == i - 1 && buf[i].next == if i == rear then NULL else i + 1
        invariant forall i :: 0 <= i < bp ==> buf[i].hash == buf[i].next
      {
        buf[bp] := buf[bp].(hash := buf[bp].next);
        bp := bp + 1;
      }
      bufHash[0] := front;
    }

    /** rm_lru */
    method RmLru(bp: int)
      requires Linked() && bp in lru
      modifies this`front, this`rear, this`bufsInUse, this`lru, buf
      ensures Linked()
      ensures lru == Without(old(lru), bp) && |lru| == |old(lru)| - 1 && bufsInUse == old(bufsInUse) + 1
      ensures SameButLru(old(buf[..]), buf[..])
    {
      ghost var b := buf[..];
      bufsInUse := bufsInUse + 1;
      Bypass(bp);
      HashKept(b, buf[..], bufHash[..], chains);
      lru := Without(lru, bp);
    }

    /** The neighbours of bp, or the ends of the chain, point past it. */
    method Bypass(bp: int)
      requires LruLinked(buf[..], front, rear, lru) && bp in lru
      modifies this`front, this`rear, buf
      ensures LruLinked(buf[..], front, rear, Without(lru, bp)) && |Without(lru, bp)| == |lru| - 1
      ensures SameButLru(old(buf[..]), buf[..])
    {
      ghost var k :| 0 <= k < |lru| && lru[k] == bp;
      ghost var b := buf[..];
      var next, prev := buf[bp].next, buf[bp].prev;
      if prev != NULL {
        buf[prev] := buf[prev].(next := next);
      } else {
        front := next;
      }
      if next != NULL {
        buf[next] := buf[next].(prev := prev);
      } else {
        rear := prev;
      }
      assert buf[..] == Bypassed(b, bp);
      BypassRemoves(b, old(front), old(rear), lru, k);
    }

    /** lmfs_put_block; `oneShot` is the ONE_SHOT bit of the block type. */
    method PutBlock(bp: int, oneShot: bool)
      requires Valid()
      requires bp == NULL || (0 <= bp < buf.Length && buf[bp].blk.count > 0)
      modifies this`front, this`rear, this`bufsInUse, this`lru, buf
      ensures Valid()
      ensures Snap() == if bp == NULL then old(Snap()) else PutSpec(old(Snap()), bp, oneShot)
    {
      if bp == NULL {
        return;
      }
      ghost var b := buf[..];
      GiveBack(bp, oneShot);
      PutDone(b, buf[..], bp, oneShot, old(lru), lru, chains, vm, disk);
    }

    /** One use less. */
    method GiveBack(bp: int, oneShot: bool)
      requires Linked() && 0 <= bp < buf.Length && buf[bp].blk.count > 0 && bp !in lru
      modifies this`front, this`rear, this`bufsInUse, this`lru, buf
      ensures Linked() && UseGiven(old(buf[..]), buf[..], bp, oneShot, old(lru), lru)
      ensures bufsInUse + |lru| == old(bufsInUse) + |old(lru)|
    {
      SetBlk(bp, buf[bp].blk.(count := buf[bp].blk.count - 1));
      Release(bp, oneShot);
    }

    /** A buffer with no more uses goes on the LRU chain. */
    method Release(bp: int, oneShot: bool)
      requires Linked() && 0 <= bp < buf.Length && bp !in lru
      modifies this`front, this`rear, this`bufsInUse, this`lru, buf
      ensures Linked() && SameButLru(old(buf[..]), buf[..])
      ensures lru == if old(buf[bp].blk.count) != 0 then old(lru)
                     else if old(buf[bp].blk.dev) == DEV_RAM || oneShot then [bp] + old(lru) else old(lru) + [bp]
      ensures bufsInUse + |lru| == old(bufsInUse) + |old(lru)|
    {
      if buf[bp].blk.count == 0 {
        bufsInUse := bufsInUse - 1;
        Enqueue(bp, buf[bp].blk.dev == DEV_RAM || oneShot);
      }
    }

    /** Overwrites what buffer bp holds, under the same block number. */
    method SetBlk(bp: int, blk: Block)
      requires Linked() && 0 <= bp < buf.Length && blk.blocknr == buf[bp].blk.blocknr
      modifies buf
      ensures Linked() && buf[..] == old(buf[..])[bp := old(buf[bp]).(blk := blk)]
    {
      ghost var b := buf[..];
      buf[bp] := buf[bp].(blk := blk);
      LruKept(b, buf[..], front, rear, lru);
      HashKept(b, buf[..], bufHash[..], chains);
    }

    method Enqueue(bp: int, first: bool)
      requires Linked() && 0 <= bp < buf.Length && bp !in lru
      modifies this`front, this`rear, this`lru, buf
      ensures Linked() && SameButLru(old(buf[..]), buf[..])
      ensures lru == if first then [bp] + old(lru) else old(lru) + [bp]
    {
      if first {
        PushFront(bp);
      } else {
        PushRear(bp);
      }
    }

    method PushFront(bp: int)
      requires Linked() && 0 <= bp < buf.Length && bp !in lru
      modifies this`front, this`rear, this`lru, buf
      ensures Linked() && lru == [bp] + old(lru) && SameButLru(old(buf[..]), buf[..])
    {
      ghost var b := buf[..];
      buf[bp] := buf[bp].(prev := NULL, next := front);
      if front == NULL {
        rear := bp;
      } else {
        buf[front] := buf[front].(prev := bp);
      }
      PushedFront(b, old(front), old(rear), lru, bp, buf[..]);
      HashKept(b, buf[..], bufHash[..], chains);
      front := bp;
      lru := [bp] + lru;
    }

    method PushRear(bp: int)
      requires Linked() && 0 <= bp < buf.Length && bp !in lru
      modifies this`front, this`rear, this`lru, buf
      ensures Linked() && lru == old(lru) + [bp] && SameButLru(old(buf[..]), buf[..])
    {
      ghost var b := buf[..];
      buf[bp] := buf[bp].(prev := rear, next := NULL);
      if rear == NULL {
        front := bp;
      } else {
        buf[rear] := buf[rear].(next := bp);
      }
      PushedBack(b, old(front), old(rear), lru, bp, buf[..]);
      HashKept(b, buf[..], bufHash[..], chains);
      rear := bp;
      lru := lru + [bp];
    }

    // -------------------------------------------------------------- lmfs_get_block

    /** The search of the hash chain. */
    method FindInHash(dev: nat, block: nat) returns (bp: int)
      requires Valid()
      ensures bp == NULL ==> !Held(Blocks(buf[..]), Id(dev, block))
      ensures bp != NULL ==> 0 <= bp < buf.Length && buf[bp].blk.Name() == Id(dev, block)
    {
      ghost var c := BufHash(block, buf.Length);
      ghost var k := 0;
      bp := bufHash[BufHash(block, buf.Length)];
      while bp != NULL
        invariant 0 <= k <= |chains[c]| && bp == At(chains[c], k)
        invariant forall j :: 0 <= j < k ==> buf[chains[c][j]].blk.Name() != Id(dev, block)
        decreases |chains[c]| - k
      {
        if buf[bp].blk.blocknr == block && buf[bp].blk.dev == dev {
          return;
        }
        bp := buf[bp].hash;
        k := k + 1;
      }
      NotOnChain(buf[..], lru, chains, Id(dev, block));
    }

    /** The choice of the buffer to evict, with memory behind it. NULL stands for the two panics. */
    method TakeOldest(allocOk: bool) returns (bp: int)
      requires Valid()
      modifies buf
      ensures Valid() && bp == Victim(old(Snap()).blocks, lru, allocOk)
      ensures bp == NULL ==> Snap() == old(Snap())
      ensures bp != NULL ==> bp in lru && 0 <= bp < buf.Length && Snap() == WithMemory(old(Snap()), bp)
    {
      bp := front;
      if bp == NULL {
        return;
      }
      if !buf[bp].blk.hasData && !allocOk {
        bp := NextWithData();
        if bp == NULL {
          return;
        }
      }
      GiveMemory(bp);
    }

    method GiveMemory(bp: int)
      requires Valid() && 0 <= bp < buf.Length
      modifies buf
      ensures Valid() && Snap() == WithMemory(old(Snap()), bp)
    {
      ghost var b := buf[..];
      SetBlk(bp, buf[bp].blk.(hasData := true));
      Counted(b, buf[..], bp, lru, lru, chains);
      assert Blocks(buf[..]) == Blocks(b)[bp := buf[bp].blk];
    }

    /** The first buffer of the LRU chain that has memory. */
    method NextWithData() returns (bp: int)
      requires Linked()
      ensures bp == FirstWithData(Blocks(buf[..]), lru)
    {
      bp := front;
      ghost var k := 0;
      assert lru[0..] == lru;
      while bp != NULL && !buf[bp].blk.hasData
        invariant 0 <= k <= |lru| && bp == At(lru, k)
        invariant FirstWithData(Blocks(buf[..]), lru) == FirstWithData(Blocks(buf[..]), lru[k..])
        decreases |lru| - k
      {
        assert lru[k..][1..] == lru[k + 1..];
        bp := buf[bp].next;
        k := k + 1;
      }
    }

    /** Takes bp off its hash chain. */
    method Unhash(bp: int)
      requires Linked() && 0 <= bp < buf.Length && bp in chains[BufHash(buf[bp].blk.blocknr, buf.Length)]
      modifies this`chains, buf, bufHash
      ensures Linked() && SameButHash(old(buf[..]), buf[..])
      ensures var c := BufHash(old(buf[bp].blk.blocknr), buf.Length);
              chains == old(chains)[c := Without(old(chains)[c], bp)]
    {
      ghost var b, h := buf[..], bufHash[..];
      var c := BufHash(buf[bp].blk.blocknr, buf.Length);
      ghost var m :| 0 <= m < |chains[c]| && chains[c][m] == bp;
      var prev := bufHash[c];
      if prev == bp {
        assert m == 0;
        bufHash[c] := buf[bp].hash;
      } else {
        ghost var k := 0;
        while buf[prev].hash != NULL && buf[prev].hash != bp
          invariant 0 <= k < m && prev == chains[c][k]
          decreases m - k
        {
          prev := buf[prev].hash;
          k := k + 1;
        }
        assert k + 1 == m;
        buf[prev] := buf[prev].(hash := buf[bp].hash);
      }
      Unhashed(b, buf[..], h, bufHash[..], chains, c, m);
      LruKept(b, buf[..], front, rear, lru);
      chains := chains[c := Without(chains[c], bp)];
    }

    /** Gives bp, which is on no chain, its new identity: clean, used once more, and hashed. */
    method Rename(bp: int, dev: nat, block: nat)
      requires Linked() && 0 <= bp < buf.Length && bp !in lru
      requires forall d :: 0 <= d < |chains| ==> bp !in chains[d]
      modifies this`chains, buf, bufHash
      ensures Linked()
      ensures forall i :: 0 <= i < buf.Length && i != bp ==> buf[i] == old(buf[i])
      ensures var was := old(buf[bp].blk); buf[bp].blk == Block(dev, block, was.data, false, was.count + 1, was.hasData)
      ensures var c := BufHash(block, buf.Length); chains == old(chains)[c := [bp] + old(chains)[c]]
    {
      ghost var b, h := buf[..], bufHash[..];
      var c := BufHash(block, buf.Length);
      var was := buf[bp].blk;
      var blk := Block(dev, block, was.data, false, was.count + 1, was.hasData);
      buf[bp] := buf[bp].(blk := blk, hash := bufHash[c]);
      bufHash[c] := bp;
      Hashed(b, buf[..], h, chains, bp, blk, c);
      LruKept(b, buf[..], front, rear, lru);
      chains := chains[c := [bp] + chains[c]];
    }

    // -------------------------------------------------------------- lmfs_rw_scattered, WRITING

    /** The length of the batch: consecutive blocks, at most nrIoReqs of them. */
    method BatchLength(bufq: array<int>, off: nat, size: nat) returns (j: nat)
      requires nrIoReqs > 0 && off < size <= bufq.Length && InBuffers(buf[..], bufq[..], size)
      ensures 1 <= j <= nrIoReqs && off + j <= size
      ensures InBuffers(buf[..], bufq[..size], size) && Consecutive(Blocks(buf[..]), bufq[..size], off, j)
      ensures j < nrIoReqs && off + j < size ==> buf[bufq[off + j]].blk.blocknr != buf[bufq[off]].blk.blocknr + j
      ensures j == RunLength(Numbers(Blocks(buf[..]), bufq[off..size]), nrIoReqs)
    {
      j := 0;
      while j < nrIoReqs && off + j < size
        invariant j <= nrIoReqs && off + j <= size && RunUpTo(buf[..], bufq[..], off, j, size)
      {
        if buf[bufq[off + j]].blk.blocknr != buf[bufq[off]].blk.blocknr + j {
          break;
        }
        j := j + 1;
      }
      BatchIsRun(buf[..], bufq[..], off, size, nrIoReqs, j);
    }

    /** The device's next answer to a request for `bytes` bytes. */
    method NextAnswer(bytes: nat) returns (a: Answer)
      modifies this`answers
      ensures a == DeviceAnswer(old(answers), bytes) && answers == Later(old(answers))
    {
      if answers == [] {
        return Answer(bytes, map[]);
      }
      a := answers[0];
      answers := answers[1..];
      if a.r > bytes {
        a := a.(r := bytes);
      }
    }

    /** bdev_scatter of the j buffers from `off` on, at the position of the first. */
    method Scatter(dev: nat, bufq: array<int>, off: nat, j: nat, size: nat) returns (r: int)
      requires blockSize > 0 && j > 0 && off + j <= size <= bufq.Length && InBuffers(buf[..], bufq[..size], size)
      requires Consecutive(Blocks(buf[..]), bufq[..size], off, j)
      modifies this`disk, this`answers
      ensures Whole(r, blockSize) == Acked(old(answers), j, blockSize) <= j && answers == Later(old(answers))
      ensures Landed(disk, dev, Blocks(buf[..]), bufq[..size], off, Whole(r, blockSize))
      ensures OutsideSame(old(disk), disk, dev, buf[bufq[off]].blk.blocknr, j)
    {
      ghost var script := answers;
      var a := NextAnswer(j * blockSize);
      AckedIs(a, script, j, blockSize);
      r := a.r;
      var datas := Payload(Blocks(buf[..]), bufq[..size], off, j);
      ScatterLands(disk, dev, Blocks(buf[..]), bufq[..size], off, j, Whole(r, blockSize), a.torn);
      assert bufq[off] == bufq[..size][off];
      disk := Scattered(disk, dev, buf[bufq[off]].blk.blocknr, datas, Whole(r, blockSize), a.torn);
    }

    /** Each acknowledged buffer of the batch becomes clean. */
    method CleanAcked(bufq: array<int>, off: nat, j: nat, size: nat, bytes: int) returns (i: nat)
      requires Linked() && off + j <= size <= bufq.Length && InBuffers(buf[..], bufq[..size], size)
      requires NoDup(bufq[..size]) && Whole(bytes, blockSize) <= j
      modifies buf
      ensures Linked() && i == Whole(bytes, blockSize) && Cleaned(old(buf[..]), buf[..], bufq[..size], off, i)
      ensures i == 0 ==> buf[..] == old(buf[..])
    {
      var r := bytes;
      i := 0;
      ghost var b, q := buf[..], bufq[..size];
      while i < j && r >= blockSize
        invariant Linked() && i <= j && Harvested(b, buf[..], q, off, i, bytes, r, blockSize)
      {
        CleanNext(bufq[off + i], b, q, off, i, bytes, r);
        r := r - blockSize;
        i := i + 1;
      }
      HarvestDone(b, buf[..], q, off, i, bytes, r, blockSize, j);
    }

    method CleanNext(bp: int, ghost b: seq<Buf>, ghost q: seq<int>, ghost off: nat, ghost i: nat, ghost bytes: int,
                     ghost r: int)
      requires Linked() && off + i < |q| && NoDup(q) && InBuffers(b, q, |q|) && bp == q[off + i]
      requires Harvested(b, buf[..], q, off, i, bytes, r, blockSize) && r >= blockSize
      modifies buf
      ensures Linked() && Harvested(b, buf[..], q, off, i + 1, bytes, r - blockSize, blockSize)
    {
      ghost var b1 := buf[..];
      MarkClean(bp);
      CleanOne(b, q, off, i, b1, buf[..]);
    }

    /** lmfs_markclean */
    method MarkClean(bp: int)
      requires Linked() && 0 <= bp < buf.Length
      modifies buf
      ensures Linked() && buf[..] == old(buf[..])[bp := old(buf[bp]).(blk := old(buf[bp].blk).(dirty := false))]
    {
      SetBlk(bp, buf[bp].blk.(dirty := false));
    }

    /** The harvest of a write: each acknowledged buffer becomes clean; if none is, the first one loses
        its identity and VM forgets its blocks. */
    method MarkWritten(bufq: array<int>, off: nat, j: nat, size: nat, bytes: int) returns (i: nat)
      requires Linked() && j > 0 && off + j <= size <= bufq.Length && InBuffers(buf[..], bufq[..size], size)
      requires NoDup(bufq[..size]) && Whole(bytes, blockSize) <= j
      modifies this`vm, buf
      ensures Linked() && i == Whole(bytes, blockSize)
      ensures i > 0 ==> vm == old(vm) && Cleaned(old(buf[..]), buf[..], bufq[..size], off, i)
      ensures i == 0 ==> vm == map[] && buf[..] == Lost(old(buf[..]), bufq[off])
    {
      assert bufq[..size][off] == bufq[off];
      i := CleanAcked(bufq, off, j, size, bytes);
      if i == 0 {
        SetBlk(bufq[off], buf[bufq[off]].blk.(dev := NO_DEV));
        vm := map[];
      }
    }

    /** The next batch of the queue goes to the device. */
    method SendBatch(dev: nat, bufq: array<int>, off: nat, size: nat, ghost blocks: seq<Block>) returns (j: nat, r: int)
      requires nrIoReqs > 0 && blockSize > 0 && off < size <= bufq.Length && InBuffers(buf[..], bufq[..size], size)
      requires SameNumbers(blocks, Blocks(buf[..]), bufq[..size])
      modifies this`disk, this`answers
      ensures 1 <= j && off + j <= size && Whole(r, blockSize) <= j
      ensures Consecutive(Blocks(buf[..]), bufq[..size], off, j)
      ensures Landed(disk, dev, Blocks(buf[..]), bufq[..size], off, Whole(r, blockSize))
      ensures OutsideSame(old(disk), disk, dev, buf[bufq[off]].blk.blocknr, j)
      ensures BatchSent(blocks, bufq[..size], off, Whole(r, blockSize), old(answers), answers, nrIoReqs, blockSize)
    {
      j := BatchLength(bufq, off, size);
      r := Scatter(dev, bufq, off, j, size);
      assert bufq[off..size] == bufq[..size][off..];
      NumbersSame(blocks, Blocks(buf[..]), bufq[..size], off);
    }

    /** One batch of the queue: it extends what has been written since `p` by i > 0 buffers, or the
        device gave up. */
    method WriteBatch(dev: nat, bufq: array<int>, off: nat, size: nat, ghost p: Pool) returns (i: nat)
      requires Linked() && off < size <= bufq.Length && InBuffers(buf[..], bufq[..size], size)
      requires NoDup(bufq[..size]) && Ascending(p.blocks, bufq[..size])
      requires WrittenSoFar(p, dev, bufq[..size], off, Snap())
      modifies this`disk, this`answers, this`vm, buf
      ensures Linked() && SameLinks(old(buf[..]), buf[..]) && off + i <= size
      ensures if i == 0 then Written(p, dev, bufq[..size], off, Snap())
              else WrittenSoFar(p, dev, bufq[..size], off + i, Snap())
      ensures BatchSent(p.blocks, bufq[..size], off, i, old(answers), answers, nrIoReqs, blockSize)
    {
      ghost var m, b, q := Snap(), buf[..], bufq[..size];
      QueueKept(p, dev, q, off, m);
      var j, r := SendBatch(dev, bufq, off, size, p.blocks);
      ghost var m1 := Snap();
      i := MarkWritten(bufq, off, j, size, r);
      if i == 0 {
        AfterLost(p, dev, q, off, m, b, m1, buf[..], Snap(), j);
      } else {
        AfterBatch(p, dev, q, off, j, i, m, b, buf[..], Snap());
      }
    }

    /** The queue was sent up to `off` since p, whose script of answers was script0. */
    ghost predicate Sending(dev: nat, q: seq<int>, off: nat, p: Pool, script0: seq<Answer>)
      reads this, buf, bufHash
    {
      && Linked() && WrittenSoFar(p, dev, q, off, Snap())
      && Remaining(p.blocks, q, script0, off, answers, nrIoReqs, blockSize)
    }

    /** That is all that was written. */
    ghost predicate Finished(dev: nat, q: seq<int>, done: nat, p: Pool, script0: seq<Answer>)
      reads this, buf, bufHash
    {
      && Linked() && Written(p, dev, q, done, Snap())
      && Sent(p.blocks, q, done, script0, answers, nrIoReqs, blockSize)
    }

    /** One round of the loop: it goes on unless nothing was written. */
    method WriteMore(dev: nat, bufq: array<int>, off: nat, size: nat, ghost q: seq<int>, ghost p: Pool,
                     ghost script0: seq<Answer>)
      returns (more: bool, off': nat)
      requires off < size <= bufq.Length && q == bufq[..size] && InBuffers(buf[..], q, size)
      requires NoDup(q) && Ascending(p.blocks, q) && Sending(dev, q, off, p, script0)
      modifies this`disk, this`answers, this`vm, buf
      ensures Linked() && SameLinks(old(buf[..]), buf[..])
      ensures more ==> off < off' <= size && WrittenSoFar(p, dev, q, off', Snap())
      ensures more ==> Remaining(p.blocks, q, script0, off', answers, nrIoReqs, blockSize)
      ensures !more ==> Written(p, dev, q, off, Snap())
      ensures !more ==> Sent(p.blocks, q, off, script0, answers, nrIoReqs, blockSize)
    {
      ghost var script := answers;
      var i := WriteBatch(dev, bufq, off, size, p);
      off', more := off + i, i > 0;
      RemainingNext(p.blocks, q, script0, off, script, nrIoReqs, blockSize, i, off', answers);
    }

    /** Writes out the sorted queue, batch by batch, until the device makes no progress. */
    method WriteScattered(dev: nat, bufq: array<int>, size: nat) returns (ghost done: nat)
      requires Linked() && size <= bufq.Length && InBuffers(buf[..], bufq[..size], size)
      requires NoDup(bufq[..size]) && Ascending(Blocks(buf[..]), bufq[..size])
      modifies this`disk, this`answers, this`vm, buf
      ensures Linked() && SameLinks(old(buf[..]), buf[..])
      ensures Written(old(Snap()), dev, bufq[..size], done, Snap())
      ensures Sent(old(Snap()).blocks, bufq[..size], done, old(answers), answers, nrIoReqs, blockSize)
    {
      done := WriteBatches(dev, bufq, size, bufq[..size], Snap(), answers);
    }

    /** Its loop. */
    method WriteBatches(dev: nat, bufq: array<int>, size: nat, ghost q: seq<int>, ghost p: Pool,
                        ghost script0: seq<Answer>)
      returns (ghost done: nat)
      requires Linked() && size <= bufq.Length && q == bufq[..size] && InBuffers(buf[..], q, size)
      requires p == Snap() && script0 == answers && NoDup(q) && Ascending(p.blocks, q)
      modifies this`disk, this`answers, this`vm, buf
      ensures SameLinks(old(buf[..]), buf[..]) && Finished(dev, q, done, p, script0)
    {
      ghost var b := buf[..];
      var off := 0;
      RemainingStarts(p.blocks, q, answers, nrIoReqs, blockSize);
      while off < size
        invariant off <= size && SameLinks(b, buf[..]) && Sending(dev, q, off, p, script0)
      {
        ghost var at := off;
        var more;
        more, off := WriteMore(dev, bufq, off, size, q, p, script0);
        if !more {
          return at;
        }
      }
      WrittenAll(p, dev, q, Snap());
      RemainingEnds(p.blocks, q, script0, answers, nrIoReqs, blockSize);
      done := size;
    }

    // -------------------------------------------------------------- flushall

    /** Sorts the queue and writes it out. */
    method RwScatteredWriting(dev: nat, bufq: array<int>, size: nat) returns (ghost done: nat)
      requires Linked() && size <= bufq.Length && InBuffers(buf[..], bufq[..size], size)
      requires bufq != bufHash && NoDup(bufq[..size]) && DistinctBlocks(buf[..], bufq[..size])
      modifies this`disk, this`answers, this`vm, buf, bufq
      ensures Linked() && SameLinks(old(buf[..]), buf[..])
      ensures NoDup(bufq[..size]) && Ascending(Blocks(old(buf[..])), bufq[..size])
      ensures forall x :: x in bufq[..size] <==> x in old(bufq[..size])
      ensures Written(old(Snap()), dev, bufq[..size], done, Snap())
      ensures Sent(old(Snap()).blocks, bufq[..size], done, old(answers), answers, nrIoReqs, blockSize)
    {
      ghost var q := bufq[..];
      SizedInBuffers(buf[..], bufq[..], size);
      Sort(buf, bufq, size);
      SortedQueue(buf[..], q, bufq[..], size);
      done := WriteScattered(dev, bufq, size);
    }

    /** The list of the dirty buffers of a device. */
    method CollectDirty(dev: nat) returns (dirty: array<int>, ndirty: nat)
      ensures fresh(dirty) && ndirty <= dirty.Length
      ensures Collected(Blocks(buf[..]), dev, buf.Length, dirty[..ndirty])
    {
      dirty := new int[buf.Length];
      ndirty := 0;
      ghost var blocks, q := Blocks(buf[..]), [];
      var bp := 0;
      while bp < buf.Length
        invariant 0 <= ndirty <= bp <= buf.Length == dirty.Length
        invariant q == dirty[..ndirty] && Collected(blocks, dev, bp, q)
      {
        if buf[bp].blk.dirty && buf[bp].blk.dev == dev {
          dirty[ndirty] := bp;
          ndirty := ndirty + 1;
          q := q + [bp];
        }
        bp := bp + 1;
      }
    }

    /** flushall: `queue` is what was sent to the device and `done` how many of it were written. */
    method FlushDev(dev: nat) returns (ghost queue: seq<int>, ghost done: nat)
      requires Linked() && Unique(Blocks(buf[..])) && dev != NO_DEV
      modifies this`disk, this`answers, this`vm, buf
      ensures Linked() && SameLinks(old(buf[..]), buf[..])
      ensures Flushed(old(Snap()), dev, queue, done, Snap(), old(answers), answers, nrIoReqs, blockSize)
    {
      var dirty, ndirty := CollectDirty(dev);
      ghost var b, q := buf[..], dirty[..ndirty];
      CollectedQueue(b, dev, q);
      done := RwScatteredWriting(dev, dirty, ndirty);
      queue := dirty[..ndirty];
      SortedIsQueue(b, dev, q, queue);
    }

    // -------------------------------------------------------------- lmfs_get_block, continued

    /** The block asked for was found in buffer bp. */
    method Hit(bp: int)
      requires Valid() && 0 <= bp < buf.Length
      modifies this`front, this`rear, this`bufsInUse, this`lru, buf
      ensures Valid() && Snap() == HitSpec(old(Snap()), bp)
    {
      ghost var b := buf[..];
      if buf[bp].blk.count == 0 {
        RmLru(bp);
      }
      SetBlk(bp, buf[bp].blk.(count := buf[bp].blk.count + 1));
      HitDone(b, buf[..], bp, old(lru), lru, chains, vm, disk);
    }

    /** Takes the victim off both chains. */
    method Detach(bp: int)
      requires Valid() && bp in lru
      modifies this`front, this`rear, this`bufsInUse, this`lru, this`chains, buf, bufHash
      ensures Linked() && InTransit(buf[..], lru, chains, bp) && bufsInUse == buf.Length - |lru|
      ensures lru == Without(old(lru), bp) && Blocks(buf[..]) == Blocks(old(buf[..]))
    {
      ghost var b, chains0 := buf[..], chains;
      RmLru(bp);
      OnOwnChain(b, buf[..], old(lru), chains, bp);
      Unhash(bp);
      Removed(b, buf[..], old(lru), chains0, lru, chains, bp);
    }

    /** Flushes the device of a dirty victim and says under which name VM may have its contents. */
    method FlushVictim(bp: int) returns (yieldid: Option<Id>, ghost queue: seq<int>, ghost done: nat)
      requires Linked() && InTransit(buf[..], lru, chains, bp)
      modifies this`disk, this`answers, this`vm, buf
      ensures Linked() && InTransit(buf[..], lru, chains, bp)
      ensures FlushedVictim(old(Snap()), bp, queue, done, Snap())
      ensures yieldid == if old(buf[bp].blk.dev) != NO_DEV then Some(Snap().blocks[bp].Name()) else None
      ensures FlushAnswered(old(Snap()).blocks, bp, queue, done, old(answers), answers, nrIoReqs, blockSize)
    {
      yieldid, queue, done := None, [], 0;
      if buf[bp].blk.dev != NO_DEV {
        if buf[bp].blk.dirty {
          ghost var b, p := buf[..], Snap();
          queue, done := FlushDev(buf[bp].blk.dev);
          FlushInTransit(b, buf[..], p, p.blocks[bp].dev, queue, done, Snap(), chains, bp);
        }
        yieldid := Some(buf[bp].blk.Name());
      }
    }

    /** The victim takes the identity of the block wanted. */
    method Claim(bp: int, dev: nat, block: nat)
      requires Linked() && InTransit(buf[..], lru, chains, bp) && bufsInUse == buf.Length - |lru|
      requires !Held(Blocks(buf[..]), Id(dev, block)) && dev != NO_DEV
      modifies this`chains, buf, bufHash
      ensures Valid() && Snap() == Renamed(old(Snap()), bp, Id(dev, block))
    {
      ghost var b := buf[..];
      Rename(bp, dev, block);
      RenameDone(b, buf[..], lru, old(chains), chains, bp, Id(dev, block));
    }

    /** Replaces the contents of a buffer, and its device by NO_DEV if asked. */
    method Refill(bp: int, data: Data, unname: bool)
      requires Valid() && 0 <= bp < buf.Length
      modifies buf
      ensures Valid()
      ensures var blk := old(Snap()).blocks[bp];
              Snap() == old(Snap()).(blocks := old(Snap()).blocks[bp :=
                blk.(data := data, dev := if unname then NO_DEV else blk.dev)])
    {
      ghost var b := buf[..];
      SetBlk(bp, buf[bp].blk.(data := data, dev := if unname then NO_DEV else buf[bp].blk.dev));
      RefillDone(b, buf[..], lru, chains, bp);
    }

    /** read_block */
    method ReadBlock(bp: int) returns (a: Answer)
      requires Valid() && 0 <= bp < buf.Length
      modifies this`answers, this`rdwtErr, buf
      ensures Valid() && Snap() == ReadSpec(old(Snap()), bp, a, blockSize)
      ensures a == DeviceAnswer(old(answers), blockSize) && answers == Later(old(answers))
      ensures a.r == blockSize ==> rdwtErr == old(rdwtErr)
      ensures a.r != blockSize ==> rdwtErr == if a.r < 0 then a.r else END_OF_FILE
    {
      a := NextAnswer(blockSize);
      if a.r == blockSize {
        Refill(bp, Lookup(disk, buf[bp].blk.Name()), false);
      } else {
        Refill(bp, if 0 in a.torn then a.torn[0] else buf[bp].blk.data, true);
        rdwtErr := if a.r < 0 then a.r else END_OF_FILE;
      }
    }

    /** The combined call to VM: yields the victim's contents and asks for the block wanted. */
    method AskVm(bp: int, yieldid: Option<Id>, accepted: bool) returns (ok: bool)
      requires Valid() && 0 <= bp < buf.Length
      modifies this`vm, buf
      ensures Valid()
      ensures (Snap(), ok) == VmSpec(old(Snap()), bp, vmcache, yieldid, accepted)
    {
      ok := false;
      if vmcache {
        var y := YieldGetBlock(vm, yieldid, Some(buf[bp].blk.Name()), buf[bp].blk.data, accepted, BLANK);
        vm := y.store;
        Refill(bp, y.data, false);
        ok := y.ok;
      } else {
        assert Snap().blocks == Snap().blocks[bp := Snap().blocks[bp]];
      }
    }

    /** Fills the buffer from VM, else from the disk unless prefetching. */
    method Fetch(bp: int, mode: Mode, yieldid: Option<Id>, accepted: bool) returns (ghost a: Answer)
      requires Valid() && 0 <= bp < buf.Length
      modifies this`vm, this`answers, this`rdwtErr, buf
      ensures Valid()
      ensures Snap() == Fetched(old(Snap()), bp, mode, vmcache, yieldid, accepted, a, blockSize)
      ensures ReadAnswered(NeedsDisk(old(Snap()), bp, mode, vmcache, yieldid, accepted), a, old(answers), answers,
                           blockSize)
    {
      a := Answer(blockSize, map[]);
      if mode != NO_READ {
        var ok := AskVm(bp, yieldid, accepted);
        if !ok {
          if mode == PREFETCH {
            Refill(bp, buf[bp].blk.data, true);
          } else {
            a := ReadBlock(bp);
          }
        }
      } else if vmcache {
        vm := vm - {buf[bp].blk.Name()};
      }
    }

    /** Takes the victim out of the cache, flushed. */
    method MakeRoom(bp: int) returns (yieldid: Option<Id>, ghost queue: seq<int>, ghost done: nat)
      requires Valid() && bp in lru
      modifies this`front, this`rear, this`bufsInUse, this`lru, this`chains, buf, bufHash
      modifies this`disk, this`vm, this`answers
      ensures Linked() && InTransit(buf[..], lru, chains, bp) && bufsInUse == buf.Length - |lru|
      ensures FlushedVictim(old(Snap()).(lru := Without(old(lru), bp)), bp, queue, done, Snap())
      ensures |Snap().blocks| == |old(Snap()).blocks|
      ensures yieldid == if old(buf[bp].blk.dev) != NO_DEV then Some(Snap().blocks[bp].Name()) else None
      ensures FlushAnswered(old(Snap()).blocks, bp, queue, done, old(answers), answers, nrIoReqs, blockSize)
    {
      ghost var p := Snap();
      Detach(bp);
      assert Snap() == p.(lru := lru);
      assert buf[bp].blk == p.blocks[bp];
      yieldid, queue, done := FlushVictim(bp);
    }

    /** The victim bp gives up its block and takes the number of the one wanted. */
    method Reuse(bp: int, dev: nat, block: nat)
      returns (yieldid: Option<Id>, ghost queue: seq<int>, ghost done: nat, ghost flushed: Pool)
      requires Valid() && bp in lru && dev != NO_DEV && !Held(Blocks(buf[..]), Id(dev, block))
      modifies this`front, this`rear, this`bufsInUse, this`lru, this`chains, buf, bufHash
      modifies this`disk, this`vm, this`answers
      ensures Valid()
      ensures FlushedVictim(old(Snap()).(lru := Without(old(lru), bp)), bp, queue, done, flushed)
      ensures |flushed.blocks| == |old(Snap()).blocks| && Snap() == Renamed(flushed, bp, Id(dev, block))
      ensures yieldid == YieldName(old(Snap()), bp, flushed)
      ensures FlushAnswered(old(Snap()).blocks, bp, queue, done, old(answers), answers, nrIoReqs, blockSize)
    {
      ghost var p := Snap();
      yieldid, queue, done := MakeRoom(bp);
      flushed := Snap();
      FlushedUnheld(p.(lru := Without(p.lru, bp)), bp, queue, done, flushed, Id(dev, block));
      Claim(bp, dev, block);
    }

    /** The victim bp makes room for the block wanted. */
    method Replace(bp: int, dev: nat, block: nat, mode: Mode, accepted: bool)
      returns (ghost queue: seq<int>, ghost done: nat, ghost flushed: Pool, ghost a: Answer, ghost mid: seq<Answer>)
      requires Valid() && bp in lru && dev != NO_DEV && !Held(Blocks(buf[..]), Id(dev, block))
      modifies this`front, this`rear, this`bufsInUse, this`lru, this`chains, buf, bufHash
      modifies this`disk, this`vm, this`answers, this`rdwtErr
      ensures Valid()
      ensures Replaced(old(Snap()), bp, Id(dev, block), mode, vmcache, accepted, queue, done, flushed, a, blockSize,
                       Snap())
      ensures |flushed.blocks| == |old(Snap()).blocks|
      ensures FlushAnswered(old(Snap()).blocks, bp, queue, done, old(answers), mid, nrIoReqs, blockSize)
      ensures ReadAnswered(NeedsDisk(Renamed(flushed, bp, Id(dev, block)), bp, mode, vmcache,
                                     YieldName(old(Snap()), bp, flushed), accepted), a, mid, answers, blockSize)
    {
      var yieldid;
      yieldid, queue, done, flushed := Reuse(bp, dev, block);
      mid := answers;
      a := Fetch(bp, mode, yieldid, accepted);
    }

    /** The block is in no buffer: evict one, or panic. */
    method Miss(dev: nat, block: nat, mode: Mode, allocOk: bool, accepted: bool) returns (bp: int, ghost g: GetLabel)
      requires Valid() && dev != NO_DEV && !Held(Blocks(buf[..]), Id(dev, block))
      modifies this`front, this`rear, this`bufsInUse, this`lru, this`chains, buf, bufHash
      modifies this`disk, this`vm, this`answers, this`rdwtErr
      ensures Valid()
      ensures g == GetLabel(Id(dev, block), mode, vmcache, allocOk, accepted, g.queue, g.done, g.flushed, g.read)
      ensures MissStep(old(Snap()), g, blockSize, Snap(), bp)
      ensures GetAsked(old(Snap()), bp, g, old(answers), answers, nrIoReqs, blockSize)
      ensures old(answers) == [] ==> answers == [] && g.done == |g.queue| && g.read.r == blockSize
    {
      g := GetLabel(Id(dev, block), mode, vmcache, allocOk, accepted, [], 0, Snap(), Answer(blockSize, map[]));
      ghost var p := Snap();
      bp := TakeOldest(allocOk);
      if bp != NULL {
        MemoryUnheld(p, bp, Id(dev, block));
        g := ReplaceOldest(bp, dev, block, mode, allocOk, accepted, p);
      }
    }

    /** The victim, which has memory now, is replaced. */
    method ReplaceOldest(bp: int, dev: nat, block: nat, mode: Mode, allocOk: bool, accepted: bool, ghost p: Pool)
      returns (ghost g: GetLabel)
      requires Valid() && bp in lru && dev != NO_DEV && !Held(Blocks(buf[..]), Id(dev, block))
      requires 0 <= bp < |p.blocks| && Snap() == WithMemory(p, bp)
      modifies this`front, this`rear, this`bufsInUse, this`lru, this`chains, buf, bufHash
      modifies this`disk, this`vm, this`answers, this`rdwtErr
      ensures Valid()
      ensures g == GetLabel(Id(dev, block), mode, vmcache, allocOk, accepted, g.queue, g.done, g.flushed, g.read)
      ensures Replaced(WithMemory(p, bp), bp, g.id, mode, vmcache, accepted, g.queue, g.done, g.flushed, g.read,
                       blockSize, Snap())
      ensures MissAsked(p, bp, g, old(answers), answers, nrIoReqs, blockSize)
      ensures old(answers) == [] ==> answers == [] && g.done == |g.queue| && g.read.r == blockSize
    {
      ghost var script, p1 := answers, Snap();
      ghost var queue, done, flushed, read, mid := Replace(bp, dev, block, mode, accepted);
      g := GetLabel(Id(dev, block), mode, vmcache, allocOk, accepted, queue, done, flushed, read);
      AskedWithMemory(p, p1, bp, g, script, mid, answers, nrIoReqs, blockSize);
    }

    /** lmfs_get_block. `allocOk` and `accepted` are the answers of the memory allocator and of VM to
        the requests it may make; NULL stands for its panics. */
    method GetBlock(dev: nat, block: nat, mode: Mode, allocOk: bool, accepted: bool)
      returns (bp: int, ghost g: GetLabel)
      requires Valid() && dev != NO_DEV
      modifies this`front, this`rear, this`bufsInUse, this`lru, this`chains, buf, bufHash
      modifies this`disk, this`vm, this`answers, this`rdwtErr
      ensures Valid()
      ensures g == GetLabel(Id(dev, block), mode, vmcache, allocOk, accepted, g.queue, g.done, g.flushed, g.read)
      ensures GetStep(old(Snap()), g, blockSize, Snap(), bp)
      ensures GetAsked(old(Snap()), bp, g, old(answers), answers, nrIoReqs, blockSize)
      ensures old(answers) == [] ==> answers == [] && g.done == |g.queue| && g.read.r == blockSize
    {
      ghost var p := Snap();
      bp := FindInHash(dev, block);
      if bp != NULL {
        g := GetLabel(Id(dev, block), mode, vmcache, allocOk, accepted, [], 0, p, Answer(blockSize, map[]));
        assert p.blocks[bp].Name() == g.id;
        Hit(bp);
      } else {
        bp, g := Miss(dev, block, mode, allocOk, accepted);
      }
    }

    /** The owner of a buffer overwrites it and calls lmfs_markdirty. */
    method Overwrite(bp: int, data: Data)
      requires Valid() && 0 <= bp < buf.Length && buf[bp].blk.count > 0
      modifies buf
      ensures Valid()
      ensures Snap() == var p := old(Snap()); p.(blocks := p.blocks[bp := p.blocks[bp].(data := data, dirty := true)])
    {
      ghost var b := buf[..];
      SetBlk(bp, buf[bp].blk.(data := data, dirty := true));
      ContentsDone(b, buf[..], lru, chains);
      assert Blocks(buf[..]) == Blocks(b)[bp := buf[bp].blk];
    }

    /** lmfs_invalidate */
    method Invalidate(device: nat)
      requires Valid()
      modifies this`vm, buf
      ensures Valid() && Snap() == InvalidateSpec(old(Snap()), device)
    {
      ghost var b := buf[..];
      var bp := 0;
      while bp < buf.Length
        invariant 0 <= bp <= buf.Length && Linked()
        invariant DisownedUpTo(b, buf[..], device, bp)
      {
        if buf[bp].blk.dev == device {
          SetBlk(bp, buf[bp].blk.(dev := NO_DEV));
        }
        bp := bp + 1;
      }
      vm := map[];
      DisownedDone(b, buf[..], device, lru, chains);
    }

    /** One turn of the loop of lmfs_flushall. */
    method FlushIfDirty(bp: int) returns (ghost queue: seq<int>, ghost done: nat)
      requires Valid() && 0 <= bp < buf.Length
      modifies this`disk, this`answers, this`vm, buf
      ensures Valid() && Snap().lru == old(Snap()).lru
      ensures Turn(Moment(old(Snap()), old(answers)), bp, queue, done, Moment(Snap(), answers), nrIoReqs, blockSize)
    {
      queue, done := [], 0;
      if buf[bp].blk.dev != NO_DEV && buf[bp].blk.dirty {
        ghost var b, p := buf[..], Snap();
        queue, done := FlushDev(buf[bp].blk.dev);
        FlushIndexed(b, buf[..], p, p.blocks[bp].dev, queue, done, Snap(), chains);
      }
    }

    /** lmfs_flushall: whatever the devices answer, each buffer that is valid and dirty at its turn has
        its device flushed. What is dirty in the end is on a device that gave up; on working devices
        nothing valid is. */
    method FlushAll() returns (ghost path: seq<Moment>, ghost queues: seq<seq<int>>, ghost dones: seq<nat>)
      requires Valid()
      modifies this`disk, this`answers, this`vm, buf
      ensures Valid()
      ensures FlushPath(path, queues, dones, nrIoReqs, blockSize) && |queues| == buf.Length
      ensures path[0] == Moment(old(Snap()), old(answers)) && path[|queues|] == Moment(Snap(), answers)
      ensures forall i :: DirtyAt(Snap(), i) ==> GivenUp(path, queues, dones, i, Snap().blocks[i].dev)
      ensures old(answers) == [] ==> answers == [] && CleanUpTo(Snap().blocks, |Snap().blocks|)
    {
      path, queues, dones := [Moment(Snap(), answers)], [], [];
      var bp := 0;
      while bp < buf.Length
        invariant 0 <= bp <= buf.Length && Valid() && |queues| == bp
        invariant FlushPath(path, queues, dones, nrIoReqs, blockSize)
        invariant path[0] == Moment(old(Snap()), old(answers)) && path[bp] == Moment(Snap(), answers)
      {
        ghost var queue, done := FlushIfDirty(bp);
        PathExtends(path, queues, dones, nrIoReqs, blockSize, queue, done, Moment(Snap(), answers));
        path, queues, dones := path + [Moment(Snap(), answers)], queues + [queue], dones + [done];
        bp := bp + 1;
      }
      AllFlushed(path, queues, dones, nrIoReqs, blockSize);
    }

    // -------------------------------------------------------------- lmfs_rw_scattered, READING

    /** What the device delivers: whole blocks first, then perhaps parts of others. */
    method Receive(a: Answer, dev: nat, bufq: array<int>, j: nat, size: nat, acked: nat)
      requires Linked() && 0 < j <= size <= bufq.Length && InBuffers(buf[..], bufq[..size], size)
      requires NoDup(bufq[..size]) && Consecutive(Blocks(buf[..]), bufq[..size], 0, j)
      modifies buf
      ensures Linked() && GatheredUpTo(old(buf[..]), buf[..], dev, bufq[..size], acked, j, disk)
    {
      ghost var b, q := buf[..], bufq[..size];
      var first := buf[bufq[0]].blk.blocknr;
      var k := 0;
      while k < j
        invariant 0 <= k <= j && Linked() && GatheredUpTo(b, buf[..], dev, q, acked, k, disk)
      {
        var bp := bufq[k];
        assert bp == q[k];
        ghost var b1 := buf[..];
        if k < acked {
          SetBlk(bp, buf[bp].blk.(data := Lookup(disk, Id(dev, first + k))));
        } else if k in a.torn {
          SetBlk(bp, buf[bp].blk.(data := a.torn[k]));
        }
        GatherOne(b, b1, buf[..], dev, q, acked, k, disk, j);
        k := k + 1;
      }
    }

    /** bdev_gather into the first j buffers of the queue, from the position of the first. */
    method Gather(dev: nat, bufq: array<int>, j: nat, size: nat) returns (r: int)
      requires Valid() && 0 < j <= size <= bufq.Length && InBuffers(buf[..], bufq[..size], size)
      requires NoDup(bufq[..size]) && Consecutive(Blocks(buf[..]), bufq[..size], 0, j)
      modifies this`answers, buf
      ensures Valid() && Whole(r, blockSize) == Acked(old(answers), j, blockSize) <= j && answers == Later(old(answers))
      ensures Gathered(old(Snap()), dev, bufq[..size], Whole(r, blockSize), Snap().blocks)
      ensures Snap() == old(Snap()).(blocks := Snap().blocks)
    {
      ghost var b, p, script := buf[..], Snap(), answers;
      var a := NextAnswer(j * blockSize);
      AckedIs(a, script, j, blockSize);
      r := a.r;
      var acked := Whole(r, blockSize);
      Receive(a, dev, bufq, j, size, acked);
      GatherDone(b, buf[..], dev, bufq[..size], acked, j, p, lru, chains);
    }

    /** A buffer is named a block of dev if it was filled, and released. */
    method PutFilled(bp: int, dev: nat, filled: bool)
      requires Valid() && 0 <= bp < buf.Length && buf[bp].blk.count > 0
      requires filled ==> !Held(Blocks(buf[..]), Id(dev, buf[bp].blk.blocknr))
      modifies this`front, this`rear, this`bufsInUse, this`lru, buf
      ensures Valid() && Snap() == ReadOne(old(Snap()), dev, bp, filled)
    {
      if filled {
        ghost var b := buf[..];
        SetBlk(bp, buf[bp].blk.(dev := dev));
        NameDone(b, buf[..], lru, chains, bp);
      }
      PutBlock(bp, false);
    }

    /** Releases the queue from `off` on, the first `filled` of it as valid blocks. */
    method PutQueue(dev: nat, bufq: array<int>, off: nat, size: nat, filled: nat)
      requires Valid() && bufq != bufHash && off <= size <= bufq.Length
      requires Fillable(Snap(), dev, bufq[off..size])
      modifies this`front, this`rear, this`bufsInUse, this`lru, buf
      ensures Valid() && Snap() == ReadBack(old(Snap()), dev, bufq[off..size], filled)
    {
      PutAll(dev, bufq, off, size, filled, ReadBack(Snap(), dev, bufq[off..size], filled));
    }

    method PutAll(dev: nat, bufq: array<int>, off: nat, size: nat, filled: nat, ghost goal: Pool)
      requires Valid() && bufq != bufHash && off <= size <= bufq.Length
      requires Filling(Snap(), dev, bufq[off..size], filled, goal)
      modifies this`front, this`rear, this`bufsInUse, this`lru, buf
      ensures Valid() && Snap() == goal
    {
      var i, left := off, filled;
      ghost var q := bufq[off..size];
      while i < size
        invariant off <= i <= size && q == bufq[i..size] && Putting(dev, q, left, goal)
      {
        left := PutFront(dev, bufq[i], q, left, goal);
        q := q[1..];
        i := i + 1;
      }
      FillingDone(Snap(), dev, q, left, goal);
    }

    /** Releasing what is left of the queue leads to `goal`. */
    ghost predicate Putting(dev: nat, q: seq<int>, left: nat, goal: Pool)
      reads this, buf, bufHash
    {
      Valid() && Filling(Snap(), dev, q, left, goal)
    }

    /** The front buffer of what is left of the queue is released. */
    method PutFront(dev: nat, bp: int, ghost q: seq<int>, left: nat, ghost goal: Pool) returns (left': nat)
      requires q != [] && bp == q[0] && Putting(dev, q, left, goal)
      modifies this`front, this`rear, this`bufsInUse, this`lru, buf
      ensures Putting(dev, q[1..], left', goal)
    {
      ReadBackStep(Snap(), dev, q, left);
      PutFilled(bp, dev, left > 0);
      left' := if left > 0 then left - 1 else 0;
    }

    /** The batch at the front of the sorted queue is read; if nothing arrives, VM forgets its blocks. */
    method GatherFront(dev: nat, bufq: array<int>, size: nat) returns (done: nat)
      requires Valid() && 0 < size <= bufq.Length && InBuffers(buf[..], bufq[..size], size)
      requires Fillable(Snap(), dev, bufq[..size])
      modifies this`answers, this`vm, buf
      ensures Valid()
      ensures Gathered(old(Snap()), dev, bufq[..size], done, Snap().blocks)
      ensures Snap() == AfterGather(old(Snap()), Snap().blocks, bufq[..size], done)
      ensures RunRead(old(Snap()).blocks, bufq[..size], done, old(answers), answers, nrIoReqs, blockSize)
    {
      assert bufq[0..size] == bufq[..size];
      var j := BatchLength(bufq, 0, size);
      RunIsLongest(Numbers(Blocks(buf[..]), bufq[..size]), nrIoReqs, j);
      var r := Gather(dev, bufq, j, size);
      done := Whole(r, blockSize);
      if r < blockSize {
        vm := map[];
      }
    }

    method ReadSorted(dev: nat, bufq: array<int>, size: nat) returns (ghost done: nat, ghost gathered: seq<Block>)
      requires Valid() && bufq != bufHash && 0 < size <= bufq.Length && InBuffers(buf[..], bufq[..size], size)
      requires Fillable(Snap(), dev, bufq[..size])
      modifies this`front, this`rear, this`bufsInUse, this`lru, this`answers, this`vm, buf
      ensures Valid()
      ensures Gathered(old(Snap()), dev, bufq[..size], done, gathered)
      ensures Snap() == ReadBack(AfterGather(old(Snap()), gathered, bufq[..size], done), dev, bufq[..size], done)
      ensures RunRead(old(Snap()).blocks, bufq[..size], done, old(answers), answers, nrIoReqs, blockSize)
    {
      ghost var p, q := Snap(), bufq[..size];
      var filled := GatherFront(dev, bufq, size);
      done, gathered := filled, Snap().blocks;
      GatheredFillable(p, dev, q, filled, gathered);
      assert bufq[0..size] == q;
      PutQueue(dev, bufq, 0, size, filled);
    }

    /** lmfs_rw_scattered with READING: only the first batch is read, and every buffer is released. */
    method RwScatteredReading(dev: nat, bufq: array<int>, size: nat)
      returns (ghost done: nat, ghost gathered: seq<Block>)
      requires Valid() && bufq != bufHash && size <= bufq.Length && Fillable(Snap(), dev, bufq[..size])
      modifies this`front, this`rear, this`bufsInUse, this`lru, this`answers, this`vm, buf, bufq
      ensures Valid()
      ensures multiset(bufq[..size]) == multiset(old(bufq[..size])) && Fillable(old(Snap()), dev, bufq[..size])
      ensures Ascending(old(Snap()).blocks, bufq[..size])
      ensures Gathered(old(Snap()), dev, bufq[..size], done, gathered)
      ensures Snap() == ReadBack(AfterGather(old(Snap()), gathered, bufq[..size], done), dev, bufq[..size], done)
      ensures RunRead(old(Snap()).blocks, bufq[..size], done, old(answers), answers, nrIoReqs, blockSize)
      ensures ReadIn(old(Snap()), dev, bufq[..size], done, Snap())
    {
      ghost var p := Snap();
      SortQueue(dev, bufq, size);
      assert Snap() == p;
      done, gathered := 0, Snap().blocks;
      if size > 0 {
        done, gathered := ReadSorted(dev, bufq, size);
      }
      QueueRead(p, dev, bufq[..size], done, gathered);
    }

    method SortQueue(dev: nat, bufq: array<int>, size: nat)
      requires Valid() && bufq != bufHash && size <= bufq.Length && Fillable(Snap(), dev, bufq[..size])
      modifies bufq
      ensures Valid() && Fillable(Snap(), dev, bufq[..size]) && InBuffers(buf[..], bufq[..size], size)
      ensures Ascending(Snap().blocks, bufq[..size])
      ensures multiset(bufq[..size]) == multiset(old(bufq[..size]))
    {
      ghost var q, p, b := bufq[..], Snap(), buf[..];
      FillableDistinct(b, p, dev, q[..size]);
      SizedInBuffers(b, q, size);
      Sort(buf, bufq, size);
      SortedQueue(b, q, bufq[..], size);
      SortedFillable(p, dev, q, bufq[..], size);
    }
  }

  /** The j buffers of q from `off` on have consecutive numbers. */
  ghost predicate RunUpTo(b: seq<Buf>, q: seq<int>, off: nat, j: nat, size: nat) {
    && off < size <= |q| && off + j <= size && InBuffers(b, q, size)
    && forall k :: off <= k < off + j ==> b[q[k]].blk.blocknr == b[q[off]].blk.blocknr + (k - off)
  }

  lemma BatchIsRun(b: seq<Buf>, q: seq<int>, off: nat, size: nat, nr: nat, j: nat)
    requires RunUpTo(b, q, off, j, size) && j <= nr && nr > 0
    requires j < nr && off + j < size ==> b[q[off + j]].blk.blocknr != b[q[off]].blk.blocknr + j
    ensures j >= 1 && InBuffers(b, q[..size], size) && Consecutive(Blocks(b), q[..size], off, j)
    ensures j == RunLength(Numbers(Blocks(b), q[off..size]), nr)
  {
    var nums := Numbers(Blocks(b), q[off..size]);
    forall k {:trigger nums[k]} | 0 <= k < |nums|
      ensures nums[k] == b[q[off + k]].blk.blocknr
    {
    }
    RunIsLongest(nums, nr, j);
  }

  ghost predicate GatheredUpTo(b: seq<Buf>, b': seq<Buf>, dev: nat, q: seq<int>, acked: nat, n: nat,
                               disk: map<Id, Data>) {
    && |b'| == |b| && n <= |q| && (forall k :: 0 <= k < |q| ==> 0 <= q[k] < |b|)
    && (forall i :: 0 <= i < |b| ==> b'[i] == b[i].(blk := b[i].blk.(data := b'[i].blk.data)))
    && (forall i :: 0 <= i < |b| && i !in q ==> b'[i] == b[i])
    && (forall k :: 0 <= k < n && k < acked ==> b'[q[k]].blk.data == Lookup(disk, Id(dev, b[q[k]].blk.blocknr)))
  }

  lemma GatherOne(b: seq<Buf>, b1: seq<Buf>, b2: seq<Buf>, dev: nat, q: seq<int>, acked: nat, k: nat,
                  disk: map<Id, Data>, j: nat)
    requires GatheredUpTo(b, b1, dev, q, acked, k, disk) && NoDup(q) && k < j <= |q|
    requires Consecutive(Blocks(b), q, 0, j) && |b2| == |b1|
    requires b2 == b1[q[k] := b1[q[k]].(blk := b1[q[k]].blk.(data := b2[q[k]].blk.data))]
    requires k < acked ==> b2[q[k]].blk.data == Lookup(disk, Id(dev, b[q[0]].blk.blocknr + k))
    ensures GatheredUpTo(b, b2, dev, q, acked, k + 1, disk)
  {
    assert q[k] in q;
  }

  lemma GatherDone(b: seq<Buf>, b': seq<Buf>, dev: nat, q: seq<int>, acked: nat, j: nat, p: Pool,
                   lru: seq<int>, chains: seq<seq<int>>)
    requires Indexed(b, lru, chains) && p.blocks == Blocks(b) && p.lru == lru
    requires GatheredUpTo(b, b', dev, q, acked, j, p.disk) && acked <= j
    ensures Indexed(b', lru, chains) && Gathered(p, dev, q, acked, Blocks(b'))
  {
    ContentsDone(b, b', lru, chains);
  }

  lemma NameDone(b: seq<Buf>, b': seq<Buf>, lru: seq<int>, chains: seq<seq<int>>, v: int)
    requires Indexed(b, lru, chains) && 0 <= v < |b| == |b'|
    requires b' == b[v := b[v].(blk := b[v].blk.(dev := b'[v].blk.dev))]
    requires !Held(Blocks(b), b'[v].blk.Name())
    ensures Indexed(b', lru, chains) && Blocks(b') == Blocks(b)[v := b'[v].blk]
  {
    assert Blocks(b') == Blocks(b)[v := b'[v].blk];
    forall i {:trigger b'[i].hash} | 0 <= i < |b|
      ensures i in chains[BufHash(b'[i].blk.blocknr, |b|)]
    {
      assert b[i].hash == b'[i].hash;
    }
    forall i, j | 0 <= i < j < |b| && Blocks(b')[i].dev != NO_DEV
      ensures Blocks(b')[i].Name() != Blocks(b')[j].Name()
    {
      assert Blocks(b)[i].Name() != b'[v].blk.Name() && Blocks(b)[j].Name() != b'[v].blk.Name();
    }
  }

  lemma FillableDistinct(b: seq<Buf>, p: Pool, dev: nat, q: seq<int>)
    requires p.blocks == Blocks(b) && Fillable(p, dev, q)
    ensures DistinctBlocks(b, q) && InBuffers(b, q, |q|) && NoDup(q)
  {
    forall x, y | x in q && y in q && x != y
      ensures b[x].blk.blocknr != b[y].blk.blocknr
    {
      var k :| 0 <= k < |q| && q[k] == x;
      var l :| 0 <= l < |q| && q[l] == y;
      assert k < l || l < k;
    }
  }

  lemma SortedFillable(p: Pool, dev: nat, q: seq<int>, q': seq<int>, size: nat)
    requires Permutes(q, q', size) && Fillable(p, dev, q[..size])
    requires NoDup(q'[..size]) && Ascending(p.blocks, q'[..size]) && forall x :: x in q'[..size] <==> x in q[..size]
    ensures Fillable(p, dev, q'[..size]) && multiset(q'[..size]) == multiset(q[..size])
  {
    PermutesPrefix(q, q', size);
    var s, s' := q[..size], q'[..size];
    forall k | 0 <= k < |s'|
      ensures p.blocks[s'[k]].count > 0 && p.blocks[s'[k]].dev == NO_DEV
      ensures !Held(p.blocks, Id(dev, p.blocks[s'[k]].blocknr))
    {
      assert s'[k] in s;
      var m :| 0 <= m < |s| && s[m] == s'[k];
    }
  }

  /** Contents may change freely, devices only to NO_DEV; everything stays indexed. */
  lemma ContentsDone(b: seq<Buf>, b': seq<Buf>, lru: seq<int>, chains: seq<seq<int>>)
    requires Indexed(b, lru, chains) && |b'| == |b|
    requires forall i :: 0 <= i < |b| ==>
              b'[i].blk == b[i].blk.(data := b'[i].blk.data, dirty := b'[i].blk.dirty, dev := b'[i].blk.dev)
    requires forall i :: 0 <= i < |b| ==> b'[i].blk.dev in {b[i].blk.dev, NO_DEV}
    ensures Indexed(b', lru, chains)
  {
    forall i {:trigger b'[i].hash} | 0 <= i < |b|
      ensures i in chains[BufHash(b'[i].blk.blocknr, |b|)]
    {
      assert b[i].hash == b[i].hash;
    }
  }

  ghost predicate DisownedUpTo(b: seq<Buf>, b': seq<Buf>, dev: nat, n: nat) {
    && |b'| == |b|
    && (forall i :: 0 <= i < n && i < |b| ==>
          b'[i] == if b[i].blk.dev == dev then b[i].(blk := b[i].blk.(dev := NO_DEV)) else b[i])
    && (forall i :: n <= i < |b| ==> b'[i] == b[i])
  }

  lemma DisownedDone(b: seq<Buf>, b': seq<Buf>, dev: nat, lru: seq<int>, chains: seq<seq<int>>)
    requires Indexed(b, lru, chains) && DisownedUpTo(b, b', dev, |b|)
    ensures Indexed(b', lru, chains) && Blocks(b') == Disowned(Blocks(b), dev)
  {
    ContentsDone(b, b', lru, chains);
  }

  lemma FlushIndexed(b: seq<Buf>, b': seq<Buf>, p: Pool, dev: nat, q: seq<int>, done: nat, p': Pool,
                     chains: seq<seq<int>>)
    requires Indexed(b, p.lru, chains) && |b'| == |b|
    requires p.blocks == Blocks(b) && p'.blocks == Blocks(b')
    requires WriteQueue(p.blocks, dev, q) && Written(p, dev, q, done, p')
    ensures Indexed(b', p.lru, chains)
  {
    FlushNames(p, dev, q, done, p');
    forall i | 0 <= i < |b|
      ensures b'[i].blk == b[i].blk.(data := b'[i].blk.data, dirty := b'[i].blk.dirty, dev := b'[i].blk.dev)
      ensures b'[i].blk.dev in {b[i].blk.dev, NO_DEV}
    {
      assert p'.blocks[i] == p.blocks[i].(dirty := p'.blocks[i].dirty, dev := p'.blocks[i].dev);
    }
    ContentsDone(b, b', p.lru, chains);
  }

  const END_OF_FILE: int := -104

  /** Only buffer v is off the chains, and it is free. */
  ghost predicate InTransit(b: seq<Buf>, lru: seq<int>, chains: seq<seq<int>>, v: int) {
    && |b| == |chains| > 0 && 0 <= v < |b| && v !in lru && b[v].blk.count == 0
    && (forall i :: 0 <= i < |b| && i != v ==> (i in lru <==> b[i].blk.count == 0))
    && (forall d :: 0 <= d < |chains| ==> v !in chains[d])
    && (forall i {:trigger b[i].hash} :: 0 <= i < |b| && i != v ==> i in chains[BufHash(b[i].blk.blocknr, |b|)])
    && Unique(Blocks(b))
  }

  lemma HitDone(b: seq<Buf>, b': seq<Buf>, bp: int, lru: seq<int>, lru': seq<int>,
                chains: seq<seq<int>>, vm: map<Id, Data>, disk: map<Id, Data>)
    requires Indexed(b, lru, chains) && 0 <= bp < |b| == |b'|
    requires forall i :: 0 <= i < |b| && i != bp ==> b'[i].blk == b[i].blk
    requires b'[bp].blk == b[bp].blk.(count := b[bp].blk.count + 1)
    requires lru' == if b[bp].blk.count == 0 then Without(lru, bp) else lru
    ensures Indexed(b', lru', chains)
    ensures Pool(Blocks(b'), lru', vm, disk) == HitSpec(Pool(Blocks(b), lru, vm, disk), bp)
  {
    WithoutMembers(lru, bp);
    Counted(b, b', bp, lru, lru', chains);
    HitShown(b, b', bp, lru, lru', vm, disk);
  }

  lemma HitShown(b: seq<Buf>, b': seq<Buf>, bp: int, lru: seq<int>, lru': seq<int>, vm: map<Id, Data>,
                 disk: map<Id, Data>)
    requires 0 <= bp < |b| == |b'|
    requires forall i :: 0 <= i < |b| && i != bp ==> b'[i].blk == b[i].blk
    requires b'[bp].blk == b[bp].blk.(count := b[bp].blk.count + 1)
    requires lru' == if b[bp].blk.count == 0 then Without(lru, bp) else lru
    ensures Pool(Blocks(b'), lru', vm, disk) == HitSpec(Pool(Blocks(b), lru, vm, disk), bp)
  {
    OneBlock(b, b', bp);
  }

  lemma OneBlock(b: seq<Buf>, b': seq<Buf>, bp: int)
    requires 0 <= bp < |b| == |b'|
    requires forall i :: 0 <= i < |b| && i != bp ==> b'[i].blk == b[i].blk
    ensures Blocks(b') == Blocks(b)[bp := b'[bp].blk]
  {
  }

  lemma OnOwnChain(b: seq<Buf>, b': seq<Buf>, lru: seq<int>, chains: seq<seq<int>>, bp: int)
    requires Indexed(b, lru, chains) && SameButLru(b, b') && 0 <= bp < |b|
    ensures bp in chains[BufHash(b'[bp].blk.blocknr, |b|)]
  {
    assert b[bp].hash == b'[bp].hash;
  }

  lemma Removed(b: seq<Buf>, b': seq<Buf>, lru: seq<int>, chains: seq<seq<int>>,
                lru': seq<int>, chains': seq<seq<int>>, v: int)
    requires Indexed(b, lru, chains) && v in lru && 0 <= v < |b| == |b'|
    requires forall i :: 0 <= i < |b| ==> b'[i].blk == b[i].blk
    requires lru' == Without(lru, v)
    requires var c := BufHash(b[v].blk.blocknr, |b|); chains' == chains[c := Without(chains[c], v)]
    requires forall d, k :: 0 <= d < |chains| && 0 <= k < |chains[d]| ==>
               0 <= chains[d][k] < |b| && BufHash(b[chains[d][k]].blk.blocknr, |b|) == d
    ensures InTransit(b', lru', chains', v)
    ensures Blocks(b') == Blocks(b)
  {
    WithoutMembers(lru, v);
    var c := BufHash(b[v].blk.blocknr, |b|);
    WithoutMembers(chains[c], v);
    assert Blocks(b') == Blocks(b);
    forall i {:trigger b'[i].hash} | 0 <= i < |b| && i != v
      ensures i in chains'[BufHash(b'[i].blk.blocknr, |b|)]
    {
      assert b[i].hash == b[i].hash;
    }
  }

  lemma FlushInTransit(b: seq<Buf>, b': seq<Buf>, p: Pool, dev: nat, q: seq<int>, done: nat, p': Pool,
                       chains: seq<seq<int>>, v: int)
    requires InTransit(b, p.lru, chains, v) && SameLinks(b, b')
    requires p.blocks == Blocks(b) && p'.blocks == Blocks(b')
    requires WriteQueue(p.blocks, dev, q) && Written(p, dev, q, done, p')
    ensures InTransit(b', p'.lru, chains, v)
  {
    FlushNames(p, dev, q, done, p');
    forall i | 0 <= i < |b|
      ensures b'[i].blk.count == b[i].blk.count
    {
      assert p'.blocks[i] == p.blocks[i].(dirty := p'.blocks[i].dirty, dev := p'.blocks[i].dev);
    }
    forall i {:trigger b'[i].hash} | 0 <= i < |b| && i != v
      ensures i in chains[BufHash(b'[i].blk.blocknr, |b|)]
    {
      assert b[i].hash == b'[i].hash;
    }
  }

  lemma RenameDone(b: seq<Buf>, b': seq<Buf>, lru: seq<int>, chains: seq<seq<int>>, chains': seq<seq<int>>,
                   v: int, id: Id)
    requires InTransit(b, lru, chains, v) && |b'| == |b| && !Held(Blocks(b), id) && id.dev != NO_DEV
    requires forall i :: 0 <= i < |b| && i != v ==> b'[i] == b[i]
    requires b'[v].blk == Block(id.dev, id.block, b[v].blk.data, false, b[v].blk.count + 1, b[v].blk.hasData)
    requires var c := BufHash(id.block, |b|); c < |chains| && chains' == chains[c := [v] + chains[c]]
    ensures Indexed(b', lru, chains')
    ensures Blocks(b') == Blocks(b)[v := b'[v].blk]
  {
    assert Blocks(b') == Blocks(b)[v := b'[v].blk];
    forall i {:trigger b'[i].hash} | 0 <= i < |b|
      ensures i in chains'[BufHash(b'[i].blk.blocknr, |b|)]
    {
      assert b[i].hash == b[i].hash;
    }
    forall i, j | 0 <= i < j < |b| && Blocks(b')[i].dev != NO_DEV
      ensures Blocks(b')[i].Name() != Blocks(b')[j].Name()
    {
      assert Blocks(b)[i].Name() != id && Blocks(b)[j].Name() != id;
    }
  }

  lemma RefillDone(b: seq<Buf>, b': seq<Buf>, lru: seq<int>, chains: seq<seq<int>>, v: int)
    requires Indexed(b, lru, chains) && 0 <= v < |b| == |b'|
    requires b' == b[v := b[v].(blk := b[v].blk.(data := b'[v].blk.data, dev := b'[v].blk.dev))]
    requires b'[v].blk.dev in {b[v].blk.dev, NO_DEV}
    ensures Indexed(b', lru, chains)
    ensures Blocks(b') == Blocks(b)[v := b'[v].blk]
  {
    assert Blocks(b') == Blocks(b)[v := b'[v].blk];
    forall i {:trigger b'[i].hash} | 0 <= i < |b|
      ensures i in chains[BufHash(b'[i].blk.blocknr, |b|)]
    {
      assert b[i].hash == b'[i].hash;
    }
  }

  lemma SortedIsQueue(b: seq<Buf>, dev: nat, q: seq<int>, q': seq<int>)
    requires Collected(Blocks(b), dev, |b|, q) && NoDup(q') && Ascending(Blocks(b), q')
    requires forall x :: x in q' <==> x in q
    ensures WriteQueue(Blocks(b), dev, q')
  {
  }

  /** q lists, in order, the dirty buffers of dev among the first n. */
  ghost predicate Collected(blocks: seq<Block>, dev: nat, n: nat, q: seq<int>) {
    && n <= |blocks| && NoDup(q)
    && (forall k :: 0 <= k < |q| ==> 0 <= q[k] < n)
    && (forall i :: 0 <= i < n ==> (i in q <==> DirtyOn(blocks[i], dev)))
  }

  lemma CollectedQueue(b: seq<Buf>, dev: nat, q: seq<int>)
    requires Collected(Blocks(b), dev, |b|, q) && Unique(Blocks(b)) && dev != NO_DEV
    ensures InBuffers(b, q, |q|) && DistinctBlocks(b, q)
  {
    forall x, y | x in q && y in q && x != y
      ensures b[x].blk.blocknr != b[y].blk.blocknr
    {
      assert Blocks(b)[x].Name() != Blocks(b)[y].Name();
    }
  }

  /** No two buffers of q carry the same block number. */
  ghost predicate DistinctBlocks(b: seq<Buf>, q: seq<int>) {
    && (forall k :: 0 <= k < |q| ==> 0 <= q[k] < |b|)
    && (forall x, y :: x in q && y in q && x != y ==> b[x].blk.blocknr != b[y].blk.blocknr)
  }

  lemma SizedInBuffers(b: seq<Buf>, q: seq<int>, size: nat)
    requires size <= |q| && InBuffers(b, q[..size], size)
    ensures InBuffers(b, q, size)
  {
    assert forall k :: 0 <= k < size ==> q[k] == q[..size][k];
  }

  lemma SortedQueue(b: seq<Buf>, q: seq<int>, q': seq<int>, size: nat)
    requires Permutes(q, q', size) && InBuffers(b, q', size) && KeySorted(b, q', size)
    requires NoDup(q[..size]) && DistinctBlocks(b, q[..size])
    ensures NoDup(q'[..size]) && Ascending(Blocks(b), q'[..size]) && InBuffers(b, q'[..size], size)
    ensures forall x :: x in q'[..size] <==> x in q[..size]
  {
    PermutesPrefix(q, q', size);
    PermutedNoDup(q[..size], q'[..size]);
    var s := q'[..size];
    forall j, k | 0 <= j < k < |s|
      ensures Blocks(b)[s[j]].blocknr < Blocks(b)[s[k]].blocknr
    {
      assert s[j] in s && s[k] in s;
      assert Key(b, q'[j]) <= Key(b, q'[k]);
    }
  }

  /** What is still to be written is as it was. */
  lemma QueueKept(p: Pool, dev: nat, q: seq<int>, off: nat, m: Pool)
    requires WrittenSoFar(p, dev, q, off, m) && Ascending(p.blocks, q)
    ensures forall k :: 0 <= k < |q| ==> 0 <= q[k] < |m.blocks| && m.blocks[q[k]].blocknr == p.blocks[q[k]].blocknr
    ensures forall k :: off <= k < |q| ==> m.blocks[q[k]] == p.blocks[q[k]]
  {
  }

  lemma AfterBatch(p: Pool, dev: nat, q: seq<int>, off: nat, j: nat, i: nat, m: Pool, b: seq<Buf>, b': seq<Buf>,
                   m': Pool)
    requires WrittenSoFar(p, dev, q, off, m) && Ascending(p.blocks, q) && NoDup(q) && i <= j
    requires m.blocks == Blocks(b) && m'.blocks == Blocks(b') && m'.lru == m.lru && m'.vm == m.vm
    requires forall k :: 0 <= k < |q| ==> 0 <= q[k] < |m.blocks|
    requires Consecutive(m.blocks, q, off, j) && Cleaned(b, b', q, off, i)
    requires Landed(m'.disk, dev, m.blocks, q, off, i)
    requires OutsideSame(m.disk, m'.disk, dev, m.blocks[q[off]].blocknr, j)
    ensures WrittenSoFar(p, dev, q, off + i, m')
    ensures SameLinks(b, b')
  {
    QueueKept(p, dev, q, off, m);
    BatchWritten(p, dev, q, off, j, i, m, m');
    forall x | 0 <= x < |b|
      ensures b'[x] == b[x].(blk := b'[x].blk) && b'[x].blk.blocknr == b[x].blk.blocknr
    {
      if x in q[off..off + i] {
        var k :| off <= k < off + i && q[k] == x;
      }
    }
  }

  lemma AfterLost(p: Pool, dev: nat, q: seq<int>, off: nat, m: Pool, b: seq<Buf>, m1: Pool, b': seq<Buf>, m': Pool,
                  j: nat)
    requires WrittenSoFar(p, dev, q, off, m) && Ascending(p.blocks, q) && NoDup(q) && off < |q|
    requires forall k :: 0 <= k < |q| ==> 0 <= q[k] < |m.blocks|
    requires m.blocks == Blocks(b) && b' == Lost(b, q[off]) && m'.blocks == Blocks(b')
    requires m1 == m.(disk := m1.disk) && m' == m1.(blocks := m'.blocks, vm := map[])
    requires Consecutive(m.blocks, q, off, j) && OutsideSame(m.disk, m1.disk, dev, m.blocks[q[off]].blocknr, j)
    ensures Written(p, dev, q, off, m') && SameLinks(b, b')
  {
    QueueKept(p, dev, q, off, m);
    BatchWritten(p, dev, q, off, j, 0, m, m1);
    assert m'.blocks == m1.blocks[q[off] := m1.blocks[q[off]].(dev := NO_DEV)];
    WrittenPart(p, dev, q, off, m1, m');
  }

  function Lost(b: seq<Buf>, i: int): seq<Buf>
    requires 0 <= i < |b|
  {
    b[i := b[i].(blk := b[i].blk.(dev := NO_DEV))]
  }

  /** Exactly the i buffers of q from `off` on became clean. */
  ghost predicate Cleaned(b: seq<Buf>, b': seq<Buf>, q: seq<int>, off: nat, i: nat) {
    && |b'| == |b| && off + i <= |q|
    && (forall k :: off <= k < off + i ==> 0 <= q[k] < |b| && b'[q[k]] == b[q[k]].(blk := b[q[k]].blk.(dirty := false)))
    && (forall x :: 0 <= x < |b| && x !in q[off..off + i] ==> b'[x] == b[x])
  }

  /** i buffers are clean, and their bytes have been subtracted from `bytes`, leaving r. */
  ghost predicate Harvested(b: seq<Buf>, b': seq<Buf>, q: seq<int>, off: nat, i: nat, bytes: int, r: int,
                            blockSize: nat)
  {
    Cleaned(b, b', q, off, i) && blockSize > 0 && Whole(bytes, blockSize) == i + Whole(r, blockSize)
  }

  lemma HarvestDone(b: seq<Buf>, b': seq<Buf>, q: seq<int>, off: nat, i: nat, bytes: int, r: int, blockSize: nat,
                    j: nat)
    requires Harvested(b, b', q, off, i, bytes, r, blockSize) && (i == j || r < blockSize)
    requires Whole(bytes, blockSize) <= j
    ensures i == Whole(bytes, blockSize) && (i == 0 ==> b' == b)
  {
  }

  lemma CleanOne(b: seq<Buf>, q: seq<int>, off: nat, i: nat, b1: seq<Buf>, b2: seq<Buf>)
    requires NoDup(q) && Cleaned(b, b1, q, off, i) && off + i < |q| && 0 <= q[off + i] < |b|
    requires var x := q[off + i]; b2 == b1[x := b1[x].(blk := b1[x].blk.(dirty := false))]
    ensures Cleaned(b, b2, q, off, i + 1)
  {
    assert q[off..off + i + 1] == q[off..off + i] + [q[off + i]];
    assert q[off + i] !in q[off..off + i];
  }

  lemma NotOnChain(b: seq<Buf>, lru: seq<int>, chains: seq<seq<int>>, id: Id)
    requires Indexed(b, lru, chains)
    requires BufHash(id.block, |b|) < |b|
    requires forall i :: i in chains[BufHash(id.block, |b|)] ==> 0 <= i < |b| && b[i].blk.Name() != id
    ensures !Held(Blocks(b), id)
  {
    forall i | 0 <= i < |b|
      ensures Blocks(b)[i].Name() != id
    {
      assert b[i].hash == b[i].hash;
    }
  }

  /** Buffer bp has one use less and, without uses, is on the LRU chain. */
  ghost predicate UseGiven(b: seq<Buf>, b': seq<Buf>, bp: int, oneShot: bool, lru: seq<int>, lru': seq<int>) {
    && 0 <= bp < |b| && b[bp].blk.count > 0
    && SameButLru(b[bp := b[bp].(blk := b[bp].blk.(count := b[bp].blk.count - 1))], b')
    && lru' == if b[bp].blk.count > 1 then lru
               else if b[bp].blk.dev == DEV_RAM || oneShot then [bp] + lru else lru + [bp]
  }

  lemma PutDone(b: seq<Buf>, b': seq<Buf>, bp: int, oneShot: bool, lru: seq<int>, lru': seq<int>,
                chains: seq<seq<int>>, vm: map<Id, Data>, disk: map<Id, Data>)
    requires Indexed(b, lru, chains) && UseGiven(b, b', bp, oneShot, lru, lru')
    ensures Indexed(b', lru', chains)
    ensures Pool(Blocks(b'), lru', vm, disk) == PutSpec(Pool(Blocks(b), lru, vm, disk), bp, oneShot)
  {
    Counted(b, b', bp, lru, lru', chains);
    assert Blocks(b') == Blocks(b)[bp := b'[bp].blk];
  }

  /** Membership of the chains when only the count of buffer i, and its place on the LRU chain, change. */
  lemma Counted(b: seq<Buf>, b': seq<Buf>, i: int, lru: seq<int>, lru': seq<int>, chains: seq<seq<int>>)
    requires Indexed(b, lru, chains) && |b'| == |b| && 0 <= i < |b|
    requires forall j :: 0 <= j < |b| && j != i ==> b'[j].blk == b[j].blk
    requires b'[i].blk == b[i].blk.(count := b'[i].blk.count, hasData := b'[i].blk.hasData)
    requires forall j :: 0 <= j < |b| && j != i ==> (j in lru' <==> j in lru)
    requires i in lru' <==> b'[i].blk.count == 0
    ensures Indexed(b', lru', chains)
  {
    assert forall j :: 0 <= j < |b| ==> Blocks(b')[j].Name() == Blocks(b)[j].Name();
    forall j {:trigger b'[j].hash} | 0 <= j < |b|
      ensures j in chains[BufHash(b'[j].blk.blocknr, |b|)]
    {
      assert b[j].hash == b[j].hash;
    }
  }
}
