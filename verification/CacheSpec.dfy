/** The block cache without its pointers: what each operation does to the buffers, the LRU order,
    VM's second-level cache and the disk. */
module CacheSpec {
  import opened Chains
  import opened BufferPool
  import opened YieldInterface

  const DEV_RAM: nat := 0x0100

  const BLANK: Data := []

  /** `only_search` of lmfs_get_block. */
  datatype Mode = NORMAL | PREFETCH | NO_READ

  /** One answer of a device: the byte count or negative error it returns, and what the blocks it
      does not acknowledge may have been left with. */
  datatype Answer = Answer(r: int, torn: map<nat, Data>)

  datatype Pool = Pool(blocks: seq<Block>, lru: seq<int>, vm: map<Id, Data>, disk: map<Id, Data>)

  function Lookup(disk: map<Id, Data>, id: Id): Data {
    if id in disk then disk[id] else BLANK
  }

  /** The number of whole blocks among the first r bytes. */
  function Whole(r: int, blockSize: nat): nat
    requires blockSize > 0
    decreases if r < 0 then 0 else r
  {
    if r < blockSize then 0 else 1 + Whole(r - blockSize, blockSize)
  }

  /** Only blocks first .. first + n - 1 of dev may differ. */
  ghost predicate OutsideSame(disk: map<Id, Data>, disk': map<Id, Data>, dev: nat, first: nat, n: nat) {
    forall id: Id :: !(id.dev == dev && first <= id.block < first + n) ==> Lookup(disk', id) == Lookup(disk, id)
  }

  /** The disk after a device answered a scattered write of `datas` from block `first` on. */
  function Scattered(disk: map<Id, Data>, dev: nat, first: nat, datas: seq<Data>, acked: nat,
                     torn: map<nat, Data>): (d: map<Id, Data>)
    ensures OutsideSame(disk, d, dev, first, |datas|)
  {
    map id | id in disk.Keys + (set b | first <= b < first + |datas| :: Id(dev, b)) ::
      if id.dev == dev && first <= id.block < first + |datas| then
        var k := id.block - first;
        if k < acked then datas[k] else if k in torn then torn[k] else Lookup(disk, id)
      else Lookup(disk, id)
  }

  /** Distinct valid buffers hold distinct blocks. */
  ghost predicate Unique(blocks: seq<Block>) {
    forall i, j :: 0 <= i < j < |blocks| && blocks[i].dev != NO_DEV ==> blocks[i].Name() != blocks[j].Name()
  }

  // ---------------------------------------------------------------- lmfs_put_block

  function PutSpec(p: Pool, bp: int, oneShot: bool): Pool
    requires 0 <= bp < |p.blocks| && p.blocks[bp].count > 0
  {
    var blk := p.blocks[bp].(count := p.blocks[bp].count - 1);
    var p1 := p.(blocks := p.blocks[bp := blk]);
    if blk.count != 0 then p1
    else if blk.dev == DEV_RAM || oneShot then p1.(lru := [bp] + p.lru)
    else p1.(lru := p.lru + [bp])
  }

  /** The last use makes a buffer the next to be evicted if its block is not likely to be wanted again,
      else the last; an earlier one leaves it out of the chain. The order of the others stays. */
  lemma PutPlaces(p: Pool, bp: int, oneShot: bool, p': Pool)
    requires 0 <= bp < |p.blocks| && p.blocks[bp].count > 0 && bp !in p.lru && p' == PutSpec(p, bp, oneShot)
    ensures p.blocks[bp].count > 1 ==> p'.lru == p.lru
    ensures p.blocks[bp].count == 1 ==> |p'.lru| == |p.lru| + 1 && Without(p'.lru, bp) == p.lru
    ensures p.blocks[bp].count == 1 ==>
              (p'.lru[0] == bp <==> p.lru == [] || p.blocks[bp].dev == DEV_RAM || oneShot)
    ensures p.blocks[bp].count == 1 && p'.lru[0] != bp ==> p'.lru[|p.lru|] == bp
  {
    if p.blocks[bp].count == 1 {
      WithoutAbsent(p.lru, bp);
      WithoutLast(p.lru, bp);
    }
  }

  lemma {:induction false} WithoutLast(s: seq<int>, x: int)
    requires x !in s
    ensures Without(s + [x], x) == s
  {
    if s != [] {
      assert (s + [x])[1..] == s[1..] + [x];
      WithoutLast(s[1..], x);
    }
  }

  // ---------------------------------------------------------------- flushall

  predicate DirtyOn(blk: Block, dev: nat) {
    blk.dirty && blk.dev == dev
  }

  /** q lists exactly the dirty buffers of dev, by increasing block number. */
  ghost predicate WriteQueue(blocks: seq<Block>, dev: nat, q: seq<int>) {
    && NoDup(q)
    && (forall k :: 0 <= k < |q| ==> 0 <= q[k] < |blocks|)
    && (forall i :: 0 <= i < |blocks| ==> (i in q <==> DirtyOn(blocks[i], dev)))
    && SortedBy(blocks, q)
  }

  ghost predicate SortedBy(blocks: seq<Block>, q: seq<int>) {
    && (forall k :: 0 <= k < |q| ==> 0 <= q[k] < |blocks|)
    && (forall j, k :: 0 <= j < k < |q| ==> blocks[q[j]].blocknr <= blocks[q[k]].blocknr)
  }

  /** The first `done` buffers of q are on the disk and clean. If the device gave up before the end,
      the next buffer lost its identity and VM forgot its blocks; the rest is as before. */
  ghost predicate Written(p: Pool, dev: nat, q: seq<int>, done: nat, p': Pool) {
    && done <= |q| && |p'.blocks| == |p.blocks|
    && (forall k :: 0 <= k < |q| ==> 0 <= q[k] < |p.blocks|)
    && p'.lru == p.lru
    && p'.vm == (if done < |q| then map[] else p.vm)
    && (forall k :: 0 <= k < done ==> p'.blocks[q[k]] == p.blocks[q[k]].(dirty := false))
    && (done < |q| ==> p'.blocks[q[done]] == p.blocks[q[done]].(dev := NO_DEV))
    && (forall k :: done < k < |q| ==> p'.blocks[q[k]] == p.blocks[q[k]])
    && (forall i :: 0 <= i < |p.blocks| && i !in q ==> p'.blocks[i] == p.blocks[i])
    && (forall k :: 0 <= k < done ==> Lookup(p'.disk, Id(dev, p.blocks[q[k]].blocknr)) == p.blocks[q[k]].data)
    && (forall id :: (forall k :: 0 <= k < |q| ==> id != Id(dev, p.blocks[q[k]].blocknr)) ==>
          Lookup(p'.disk, id) == Lookup(p.disk, id))
  }

  /** On a working device a flush cleans exactly the buffers of the device. */
  lemma FlushCleans(p: Pool, dev: nat, q: seq<int>, p': Pool)
    requires WriteQueue(p.blocks, dev, q) && Written(p, dev, q, |q|, p')
    ensures forall i :: 0 <= i < |p.blocks| ==>
              p'.blocks[i] == p.blocks[i].(dirty := p.blocks[i].dirty && p.blocks[i].dev != dev)
  {
    forall i | 0 <= i < |p.blocks|
      ensures p'.blocks[i] == p.blocks[i].(dirty := p.blocks[i].dirty && p.blocks[i].dev != dev)
    {
      if i in q {
        var k :| 0 <= k < |q| && q[k] == i;
        assert p'.blocks[q[k]] == p.blocks[q[k]].(dirty := false);
      }
    }
  }

  /** Whatever the device answers, a flush changes nothing but dirt, and may unname one buffer. */
  lemma FlushNames(p: Pool, dev: nat, q: seq<int>, done: nat, p': Pool)
    requires Written(p, dev, q, done, p') && NoDup(q)
    ensures forall i :: 0 <= i < |p.blocks| ==>
              p'.blocks[i] == p.blocks[i].(dirty := p'.blocks[i].dirty, dev := p'.blocks[i].dev) &&
              p'.blocks[i].dev in {p.blocks[i].dev, NO_DEV}
    ensures Unique(p.blocks) ==> Unique(p'.blocks)
  {
    forall i | 0 <= i < |p.blocks|
      ensures p'.blocks[i] == p.blocks[i].(dirty := p'.blocks[i].dirty, dev := p'.blocks[i].dev)
      ensures p'.blocks[i].dev in {p.blocks[i].dev, NO_DEV}
    {
      if i in q {
        var k :| 0 <= k < |q| && q[k] == i;
        assert p'.blocks[q[k]].dev in {p.blocks[q[k]].dev, NO_DEV};
      }
    }
  }

  /** A device that gives up costs one buffer its identity: of the dirty blocks of the device those before
      it are written and clean, and those after it are as they were. */
  lemma FlushPartly(p: Pool, dev: nat, q: seq<int>, done: nat, p': Pool, i: int)
    requires WriteQueue(p.blocks, dev, q) && Written(p, dev, q, done, p') && done < |q| && Unique(p.blocks)
    requires dev != NO_DEV && 0 <= i < |p.blocks| && DirtyOn(p.blocks[i], dev)
    ensures p'.blocks[q[done]].dev == NO_DEV && p'.vm == map[]
    ensures p.blocks[i].blocknr < p.blocks[q[done]].blocknr ==>
              !p'.blocks[i].dirty && Lookup(p'.disk, p.blocks[i].Name()) == p.blocks[i].data
    ensures p.blocks[i].blocknr > p.blocks[q[done]].blocknr ==> p'.blocks[i] == p.blocks[i]
    ensures p.blocks[i].blocknr == p.blocks[q[done]].blocknr <==> i == q[done]
  {
    assert i in q && q[done] in q;
    assert DirtyOn(p.blocks[q[done]], dev);
    var k :| 0 <= k < |q| && q[k] == i;
    assert k < done ==> Lookup(p'.disk, Id(dev, p.blocks[q[k]].blocknr)) == p.blocks[q[k]].data;
  }

  /** The first `done` buffers of q are on the disk and clean, and nothing else happened yet. */
  ghost predicate WrittenSoFar(p: Pool, dev: nat, q: seq<int>, done: nat, p': Pool) {
    && done <= |q| && |p'.blocks| == |p.blocks|
    && (forall k :: 0 <= k < |q| ==> 0 <= q[k] < |p.blocks|)
    && p'.lru == p.lru && p'.vm == p.vm
    && (forall k :: 0 <= k < done ==> p'.blocks[q[k]] == p.blocks[q[k]].(dirty := false))
    && (forall k :: done <= k < |q| ==> p'.blocks[q[k]] == p.blocks[q[k]])
    && (forall i :: 0 <= i < |p.blocks| && i !in q ==> p'.blocks[i] == p.blocks[i])
    && (forall k :: 0 <= k < done ==> Lookup(p'.disk, Id(dev, p.blocks[q[k]].blocknr)) == p.blocks[q[k]].data)
    && (forall id :: (forall k :: 0 <= k < |q| ==> id != Id(dev, p.blocks[q[k]].blocknr)) ==>
          Lookup(p'.disk, id) == Lookup(p.disk, id))
  }

  /** Block numbers increase strictly along q. */
  ghost predicate Ascending(blocks: seq<Block>, q: seq<int>) {
    && (forall k :: 0 <= k < |q| ==> 0 <= q[k] < |blocks|)
    && (forall j, k :: 0 <= j < k < |q| ==> blocks[q[j]].blocknr < blocks[q[k]].blocknr)
  }

  /** The j buffers of q from `off` on hold consecutive blocks. */
  ghost predicate Consecutive(blocks: seq<Block>, q: seq<int>, off: nat, j: nat)
    requires forall k :: 0 <= k < |q| ==> 0 <= q[k] < |blocks|
  {
    off < |q| && off + j <= |q| &&
    forall k :: off <= k < off + j ==> blocks[q[k]].blocknr == blocks[q[off]].blocknr + (k - off)
  }

  /** The n buffers of q from `off` on are on the disk, each at its own block number. */
  ghost predicate Landed(disk: map<Id, Data>, dev: nat, blocks: seq<Block>, q: seq<int>, off: nat, n: nat) {
    off + n <= |q| && forall k :: off <= k < off + n ==>
      0 <= q[k] < |blocks| && Lookup(disk, Id(dev, blocks[q[k]].blocknr)) == blocks[q[k]].data
  }

  /** The contents of the j buffers of q from `off` on. */
  function Payload(blocks: seq<Block>, q: seq<int>, off: nat, j: nat): (d: seq<Data>)
    requires off + j <= |q| && forall k :: off <= k < off + j ==> 0 <= q[k] < |blocks|
    ensures |d| == j
  {
    seq(j, k requires 0 <= k < j => blocks[q[off + k]].data)
  }

  /** Since the batch is consecutive, writing it from the position of its first block on puts every
      acknowledged buffer where it belongs. */
  lemma ScatterLands(disk: map<Id, Data>, dev: nat, blocks: seq<Block>, q: seq<int>, off: nat, j: nat,
                     acked: nat, torn: map<nat, Data>)
    requires forall k :: 0 <= k < |q| ==> 0 <= q[k] < |blocks|
    requires acked <= j && Consecutive(blocks, q, off, j)
    ensures Landed(Scattered(disk, dev, blocks[q[off]].blocknr, Payload(blocks, q, off, j), acked, torn),
                   dev, blocks, q, off, acked)
  {
    var first, datas := blocks[q[off]].blocknr, Payload(blocks, q, off, j);
    var disk' := Scattered(disk, dev, first, datas, acked, torn);
    forall k | off <= k < off + acked
      ensures Lookup(disk', Id(dev, blocks[q[k]].blocknr)) == blocks[q[k]].data
    {
      assert datas[k - off] == blocks[q[k]].data;
      assert blocks[q[k]].blocknr == first + (k - off);
    }
  }

  /** A batch of consecutive blocks, each written where it belongs, extends what is written so far. */
  lemma BatchWritten(p: Pool, dev: nat, q: seq<int>, off: nat, j: nat, acked: nat, m: Pool, m': Pool)
    requires WrittenSoFar(p, dev, q, off, m) && Ascending(p.blocks, q) && Consecutive(p.blocks, q, off, j)
    requires acked <= j
    requires |m'.blocks| == |m.blocks| && m'.lru == m.lru && m'.vm == m.vm
    requires forall k :: off <= k < off + acked ==> m'.blocks[q[k]] == m.blocks[q[k]].(dirty := false)
    requires forall i :: 0 <= i < |m.blocks| && i !in q[off..off + acked] ==> m'.blocks[i] == m.blocks[i]
    requires Landed(m'.disk, dev, p.blocks, q, off, acked)
    requires OutsideSame(m.disk, m'.disk, dev, p.blocks[q[off]].blocknr, j)
    ensures WrittenSoFar(p, dev, q, off + acked, m')
  {
    var first := p.blocks[q[off]].blocknr;
    forall k | 0 <= k < |q| && !(off <= k < off + acked)
      ensures q[k] !in q[off..off + acked]
    {
    }
    forall k | 0 <= k < off + acked
      ensures Lookup(m'.disk, Id(dev, p.blocks[q[k]].blocknr)) == p.blocks[q[k]].data
    {
      if k >= off {
        assert p.blocks[q[k]].blocknr == first + (k - off);
      } else {
        assert p.blocks[q[k]].blocknr < first;
      }
    }
    forall id | forall k :: 0 <= k < |q| ==> id != Id(dev, p.blocks[q[k]].blocknr)
      ensures !(id.dev == dev && first <= id.block < first + j)
    {
      var k := off + (id.block - first);
      assert off <= k < off + j ==> p.blocks[q[k]].blocknr == id.block;
    }
  }

  lemma WrittenAll(p: Pool, dev: nat, q: seq<int>, p': Pool)
    requires WrittenSoFar(p, dev, q, |q|, p')
    ensures Written(p, dev, q, |q|, p')
  {
  }

  /** The device gave up at the next buffer of q: it loses its identity and VM forgets its blocks. */
  lemma WrittenPart(p: Pool, dev: nat, q: seq<int>, done: nat, m: Pool, p': Pool)
    requires WrittenSoFar(p, dev, q, done, m) && NoDup(q) && done < |q|
    requires p' == m.(blocks := m.blocks[q[done] := m.blocks[q[done]].(dev := NO_DEV)], vm := map[])
    ensures Written(p, dev, q, done, p')
  {
  }

  // ---------------------------------------------------------------- lmfs_get_block

  function HitSpec(p: Pool, i: int): Pool
    requires 0 <= i < |p.blocks|
  {
    p.(blocks := p.blocks[i := p.blocks[i].(count := p.blocks[i].count + 1)],
       lru := if p.blocks[i].count == 0 then Without(p.lru, i) else p.lru)
  }

  /** The buffer to evict: the front of the chain if it has memory or gets some, else the first one
      on the chain that has memory, else none. */
  function Victim(blocks: seq<Block>, lru: seq<int>, allocOk: bool): int
    requires forall k :: 0 <= k < |lru| ==> 0 <= lru[k] < |blocks|
  {
    if lru == [] then NULL
    else if allocOk then lru[0]
    else FirstWithData(blocks, lru)
  }

  function FirstWithData(blocks: seq<Block>, lru: seq<int>): (r: int)
    requires forall k :: 0 <= k < |lru| ==> 0 <= lru[k] < |blocks|
    ensures r == NULL || (r in lru && 0 <= r < |blocks| && blocks[r].hasData)
  {
    if lru == [] then NULL
    else if blocks[lru[0]].hasData then lru[0]
    else FirstWithData(blocks, lru[1..])
  }

  /** If no memory is to be had, the victim is the first buffer of the chain that has some; without one
      there is no victim. */
  lemma {:induction false} FirstWithDataExact(blocks: seq<Block>, lru: seq<int>)
    requires forall k :: 0 <= k < |lru| ==> 0 <= lru[k] < |blocks|
    ensures FirstWithData(blocks, lru) == NULL <==> forall k :: 0 <= k < |lru| ==> !blocks[lru[k]].hasData
    ensures FirstWithData(blocks, lru) != NULL ==>
              exists k :: 0 <= k < |lru| && lru[k] == FirstWithData(blocks, lru) && blocks[lru[k]].hasData
                          && forall j :: 0 <= j < k ==> !blocks[lru[j]].hasData
  {
    if lru != [] && !blocks[lru[0]].hasData {
      var rest := lru[1..];
      FirstWithDataExact(blocks, rest);
      if FirstWithData(blocks, rest) != NULL {
        var k :| 0 <= k < |rest| && rest[k] == FirstWithData(blocks, rest) && blocks[rest[k]].hasData
          && forall j :: 0 <= j < k ==> !blocks[rest[j]].hasData;
        assert lru[k + 1] == rest[k];
        assert forall j :: 0 < j < k + 1 ==> lru[j] == rest[j - 1];
      } else {
        assert forall k :: 0 < k < |lru| ==> lru[k] == rest[k - 1];
      }
    }
  }

  /** The victim has memory. */
  function WithMemory(p: Pool, v: int): Pool
    requires 0 <= v < |p.blocks|
  {
    p.(blocks := p.blocks[v := p.blocks[v].(hasData := true)])
  }

  /** The victim is clean, in use, and named after the block wanted. */
  function Renamed(p: Pool, v: int, id: Id): Pool
    requires 0 <= v < |p.blocks|
  {
    var was := p.blocks[v];
    p.(blocks := p.blocks[v := Block(id.dev, id.block, was.data, false, was.count + 1, was.hasData)])
  }

  /** read_block: anything but a full block invalidates the buffer. */
  function ReadSpec(p: Pool, v: int, answer: Answer, blockSize: nat): Pool
    requires 0 <= v < |p.blocks|
  {
    var blk := p.blocks[v];
    p.(blocks := p.blocks[v :=
      if answer.r == blockSize then blk.(data := Lookup(p.disk, blk.Name()))
      else blk.(dev := NO_DEV, data := if 0 in answer.torn then answer.torn[0] else blk.data)])
  }

  /** The combined call to VM, if VM's cache is used at all. */
  function VmSpec(p: Pool, v: int, vmcache: bool, yieldid: Option<Id>, accepted: bool): (Pool, bool)
    requires 0 <= v < |p.blocks|
  {
    var blk := p.blocks[v];
    var y := if vmcache then YieldGetBlock(p.vm, yieldid, Some(blk.Name()), blk.data, accepted, BLANK)
             else YieldGet(p.vm, blk.data, false);
    (p.(vm := y.store, blocks := p.blocks[v := blk.(data := y.data)]), y.ok)
  }

  /** Filling the renamed victim: from VM, else from the disk unless prefetching; a block that will
      be overwritten is only forgotten by VM. */
  function Fetched(p: Pool, v: int, mode: Mode, vmcache: bool, yieldid: Option<Id>, accepted: bool,
                   answer: Answer, blockSize: nat): Pool
    requires 0 <= v < |p.blocks|
  {
    if mode == NO_READ then
      if vmcache then p.(vm := p.vm - {p.blocks[v].Name()}) else p
    else
      var (p1, ok) := VmSpec(p, v, vmcache, yieldid, accepted);
      if ok then p1
      else if mode == PREFETCH then p1.(blocks := p1.blocks[v := p1.blocks[v].(dev := NO_DEV)])
      else ReadSpec(p1, v, answer, blockSize)
  }

  /** What lmfs_get_block was asked, and what its environment answered: the allocator, VM, the device
      while flushing (which queue, how much of it) and the device while reading. */
  datatype GetLabel = GetLabel(id: Id, mode: Mode, vmcache: bool, allocOk: bool, accepted: bool,
                               queue: seq<int>, done: nat, flushed: Pool, read: Answer)

  ghost predicate Held(blocks: seq<Block>, id: Id) {
    exists i :: 0 <= i < |blocks| && blocks[i].Name() == id
  }

  /** The victim was flushed if it was dirty, together with every dirty buffer of its device. */
  ghost predicate FlushedVictim(p: Pool, v: int, queue: seq<int>, done: nat, p': Pool)
    requires 0 <= v < |p.blocks|
  {
    if p.blocks[v].dev != NO_DEV && p.blocks[v].dirty then
      WriteQueue(p.blocks, p.blocks[v].dev, queue) && Written(p, p.blocks[v].dev, queue, done, p')
    else p' == p && queue == [] && done == 0
  }

  lemma FlushedUnheld(p: Pool, v: int, queue: seq<int>, done: nat, p': Pool, id: Id)
    requires 0 <= v < |p.blocks| && FlushedVictim(p, v, queue, done, p') && !Held(p.blocks, id) && id.dev != NO_DEV
    ensures |p'.blocks| == |p.blocks| && !Held(p'.blocks, id)
  {
    if p' != p {
      FlushNames(p, p.blocks[v].dev, queue, done, p');
      forall i | 0 <= i < |p'.blocks|
        ensures p'.blocks[i].Name() != id
      {
        assert p.blocks[i].Name() != id;
      }
    }
  }

  /** What eviction of v and filling it with block id come to: `flushed` is the state in between. */
  ghost predicate Replaced(p: Pool, v: int, id: Id, mode: Mode, vmcache: bool, accepted: bool, queue: seq<int>,
                           done: nat, flushed: Pool, read: Answer, blockSize: nat, p': Pool)
    requires 0 <= v < |p.blocks|
  {
    FlushedVictim(p.(lru := Without(p.lru, v)), v, queue, done, flushed) && |flushed.blocks| == |p.blocks| &&
    var yieldid := if p.blocks[v].dev != NO_DEV then Some(flushed.blocks[v].Name()) else None;
    p' == Fetched(Renamed(flushed, v, id), v, mode, vmcache, yieldid, accepted, read, blockSize)
  }

  ghost predicate GetStep(p: Pool, g: GetLabel, blockSize: nat, p': Pool, bp: int)
    requires forall k :: 0 <= k < |p.lru| ==> 0 <= p.lru[k] < |p.blocks|
  {
    if Held(p.blocks, g.id) then
      0 <= bp < |p.blocks| && p.blocks[bp].Name() == g.id && p' == HitSpec(p, bp)
    else MissStep(p, g, blockSize, p', bp)
  }

  ghost predicate MissStep(p: Pool, g: GetLabel, blockSize: nat, p': Pool, bp: int)
    requires forall k :: 0 <= k < |p.lru| ==> 0 <= p.lru[k] < |p.blocks|
  {
    bp == Victim(p.blocks, p.lru, g.allocOk) &&
    if bp == NULL then p' == p
    else Replaced(WithMemory(p, bp), bp, g.id, g.mode, g.vmcache, g.accepted, g.queue, g.done, g.flushed, g.read,
                  blockSize, p')
  }

  lemma MemoryUnheld(p: Pool, v: int, id: Id)
    requires 0 <= v < |p.blocks| && !Held(p.blocks, id)
    ensures !Held(WithMemory(p, v).blocks, id)
  {
    forall i | 0 <= i < |p.blocks|
      ensures WithMemory(p, v).blocks[i].Name() != id
    {
      assert p.blocks[i].Name() != id;
    }
  }

  ghost predicate OthersSame(p: Pool, v: int, p': Pool) {
    0 <= v < |p.blocks| == |p'.blocks| && forall i :: 0 <= i < |p.blocks| && i != v ==> p'.blocks[i] == p.blocks[i]
  }

  /** Filling touches the contents and the device of the one buffer, and VM. */
  lemma FetchedShape(p: Pool, v: int, mode: Mode, vmcache: bool, yieldid: Option<Id>, accepted: bool,
                     answer: Answer, blockSize: nat, p': Pool)
    requires 0 <= v < |p.blocks| && answer.r == blockSize
    requires p' == Fetched(p, v, mode, vmcache, yieldid, accepted, answer, blockSize)
    ensures OthersSame(p, v, p') && p'.disk == p.disk && p'.lru == p.lru
    ensures p'.blocks[v] == p.blocks[v].(data := p'.blocks[v].data, dev := p'.blocks[v].dev)
    ensures p'.blocks[v].dev == p.blocks[v].dev || (mode == PREFETCH && p'.blocks[v].dev == NO_DEV)
  {
  }

  // ---------------------------------------------------------------- lmfs_invalidate

  function Disowned(blocks: seq<Block>, dev: nat): (r: seq<Block>)
    ensures |r| == |blocks|
    ensures forall i :: 0 <= i < |r| ==> r[i] == if blocks[i].dev == dev then blocks[i].(dev := NO_DEV) else blocks[i]
  {
    seq(|blocks|, i requires 0 <= i < |blocks| => if blocks[i].dev == dev then blocks[i].(dev := NO_DEV) else blocks[i])
  }

  function InvalidateSpec(p: Pool, dev: nat): Pool {
    p.(blocks := Disowned(p.blocks, dev), vm := map[])
  }

  /** Afterwards neither level has a block of the device; the buffers keep everything but their device. */
  lemma InvalidatedGone(p: Pool, dev: nat, p': Pool)
    requires p' == InvalidateSpec(p, dev) && dev != NO_DEV
    ensures forall id: Id {:trigger Held(p'.blocks, id)} :: id.dev == dev ==> !Held(p'.blocks, id) && id !in p'.vm
    ensures forall id: Id {:trigger Held(p'.blocks, id)} :: id.dev != dev && id.dev != NO_DEV ==>
              (Held(p'.blocks, id) <==> Held(p.blocks, id))
    ensures p'.disk == p.disk && p'.lru == p.lru
  {
    forall id: Id | id.dev != dev && id.dev != NO_DEV
      ensures Held(p'.blocks, id) <==> Held(p.blocks, id)
    {
      if Held(p.blocks, id) {
        var i :| 0 <= i < |p.blocks| && p.blocks[i].Name() == id;
        assert p'.blocks[i].Name() == id;
      }
      if Held(p'.blocks, id) {
        var i :| 0 <= i < |p'.blocks| && p'.blocks[i].Name() == id;
        assert p.blocks[i].Name() == id;
      }
    }
  }

  // ---------------------------------------------------------------- lmfs_rw_scattered, READING

  /** Distinct buffers in use that can be given back. */
  ghost predicate InUse(blocks: seq<Block>, q: seq<int>) {
    NoDup(q) && forall k :: 0 <= k < |q| ==> 0 <= q[k] < |blocks| && blocks[q[k]].count > 0
  }

  /** A scattered read of q filled its first `done` buffers from the disk; what it left in the others
      of q is unknown. */
  ghost predicate Gathered(p: Pool, dev: nat, q: seq<int>, done: nat, blocks: seq<Block>)
    requires forall k :: 0 <= k < |q| ==> 0 <= q[k] < |p.blocks|
  {
    && done <= |q| && |blocks| == |p.blocks|
    && (forall i :: 0 <= i < |blocks| ==> blocks[i] == p.blocks[i].(data := blocks[i].data))
    && (forall i :: 0 <= i < |blocks| && i !in q ==> blocks[i] == p.blocks[i])
    && (forall k :: 0 <= k < done ==> blocks[q[k]].data == Lookup(p.disk, Id(dev, p.blocks[q[k]].blocknr)))
  }

  /** A transfer that fills nothing makes VM forget its blocks. */
  function AfterGather(p: Pool, blocks: seq<Block>, q: seq<int>, done: nat): Pool {
    p.(blocks := blocks, vm := if done == 0 && q != [] then map[] else p.vm)
  }

  /** The first `done` buffers of q become valid blocks of dev; every buffer of q is released, in order. */
  ghost function ReadBack(p: Pool, dev: nat, q: seq<int>, done: nat): Pool
    requires InUse(p.blocks, q)
    decreases |q|
  {
    if q == [] then p
    else ReadBack(ReadOne(p, dev, q[0], done > 0), dev, q[1..], if done > 0 then done - 1 else 0)
  }

  function ReadOne(p: Pool, dev: nat, i: int, filled: bool): (p': Pool)
    requires 0 <= i < |p.blocks| && p.blocks[i].count > 0
    ensures p'.blocks == p.blocks[i := ReadBlk(p.blocks[i], dev, filled)]
    ensures p'.disk == p.disk && p'.vm == p.vm
  {
    PutSpec(if filled then p.(blocks := p.blocks[i := p.blocks[i].(dev := dev)]) else p, i, false)
  }

  function ReadBlk(was: Block, dev: nat, filled: bool): Block
    requires was.count > 0
  {
    was.(dev := if filled then dev else was.dev, count := was.count - 1)
  }

  /** Every buffer of q is released exactly once, the first `done` of them valid; no other changes. */
  lemma {:induction false} ReadBackEffect(p: Pool, dev: nat, q: seq<int>, done: nat)
    requires InUse(p.blocks, q)
    ensures ReadEffect(p, dev, q, done, ReadBack(p, dev, q, done))
    decreases |q|
  {
    if q != [] {
      var p1, rest := ReadOne(p, dev, q[0], done > 0), q[1..];
      assert q[0] !in rest;
      assert forall k :: 0 <= k < |rest| ==> rest[k] == q[k + 1] && p1.blocks[rest[k]] == p.blocks[q[k + 1]];
      ReadBackEffect(p1, dev, rest, if done > 0 then done - 1 else 0);
      var p' := ReadBack(p, dev, q, done);
      forall k | 0 <= k < |q|
        ensures p'.blocks[q[k]] == ReadBlk(p.blocks[q[k]], dev, k < done)
      {
        if k > 0 {
          assert q[k] == rest[k - 1];
        }
      }
    }
  }

  /** The buffers of q with one use left, in order. */
  function LastUses(blocks: seq<Block>, q: seq<int>): seq<int>
    requires forall k :: 0 <= k < |q| ==> 0 <= q[k] < |blocks|
  {
    if q == [] then [] else (if blocks[q[0]].count == 1 then [q[0]] else []) + LastUses(blocks, q[1..])
  }

  lemma {:induction false} LastUsesSame(blocks: seq<Block>, blocks': seq<Block>, q: seq<int>)
    requires |blocks'| == |blocks| && forall k :: 0 <= k < |q| ==> 0 <= q[k] < |blocks|
    requires forall k :: 0 <= k < |q| ==> blocks'[q[k]] == blocks[q[k]]
    ensures LastUses(blocks', q) == LastUses(blocks, q)
  {
    if q != [] {
      LastUsesSame(blocks, blocks', q[1..]);
    }
  }

  /** Blocks read ahead become the last to be evicted, in the order of the queue. */
  lemma {:induction false} ReadBackOrder(p: Pool, dev: nat, q: seq<int>, done: nat)
    requires InUse(p.blocks, q) && dev != DEV_RAM && forall k :: 0 <= k < |q| ==> p.blocks[q[k]].dev == NO_DEV
    ensures ReadBack(p, dev, q, done).lru == p.lru + LastUses(p.blocks, q)
    decreases |q|
  {
    if q != [] {
      var p1, rest := ReadOne(p, dev, q[0], done > 0), q[1..];
      ReadOneRest(p, dev, q, done > 0);
      ReadBackOrder(p1, dev, rest, if done > 0 then done - 1 else 0);
      LastUsesSame(p.blocks, p1.blocks, rest);
    }
  }

  lemma ReadOneRest(p: Pool, dev: nat, q: seq<int>, filled: bool)
    requires InUse(p.blocks, q) && q != [] && dev != DEV_RAM && p.blocks[q[0]].dev == NO_DEV
    ensures var p1 := ReadOne(p, dev, q[0], filled);
            && InUse(p1.blocks, q[1..]) && |p1.blocks| == |p.blocks|
            && (forall k {:trigger q[1..][k]} :: 0 <= k < |q| - 1 ==>
                  q[1..][k] == q[k + 1] && p1.blocks[q[k + 1]] == p.blocks[q[k + 1]])
            && p1.lru == p.lru + if p.blocks[q[0]].count == 1 then [q[0]] else []
  {
  }

  ghost predicate ReadEffect(p: Pool, dev: nat, q: seq<int>, done: nat, p': Pool)
    requires InUse(p.blocks, q)
  {
    && |p'.blocks| == |p.blocks| && p'.disk == p.disk && p'.vm == p.vm
    && (forall k :: 0 <= k < |q| ==> p'.blocks[q[k]] == ReadBlk(p.blocks[q[k]], dev, k < done))
    && (forall i :: 0 <= i < |p.blocks| && i !in q ==> p'.blocks[i] == p.blocks[i])
  }

  /** A queue of nameless buffers in use, to be filled with blocks of dev that no buffer holds. */
  ghost predicate Fillable(p: Pool, dev: nat, q: seq<int>) {
    && dev != NO_DEV && InUse(p.blocks, q)
    && (forall k :: 0 <= k < |q| ==> p.blocks[q[k]].dev == NO_DEV)
    && (forall k :: 0 <= k < |q| ==> !Held(p.blocks, Id(dev, p.blocks[q[k]].blocknr)))
    && (forall j, k :: 0 <= j < k < |q| ==> p.blocks[q[j]].blocknr != p.blocks[q[k]].blocknr)
  }

  lemma ReadOneFillable(p: Pool, dev: nat, q: seq<int>, filled: bool)
    requires Fillable(p, dev, q) && q != []
    ensures Fillable(ReadOne(p, dev, q[0], filled), dev, q[1..])
  {
    var p', rest := ReadOne(p, dev, q[0], filled), q[1..];
    forall k | 0 <= k < |rest|
      ensures p'.blocks[rest[k]] == p.blocks[rest[k]] && rest[k] == q[k + 1] && q[0] != q[k + 1]
      ensures !Held(p'.blocks, Id(dev, p'.blocks[rest[k]].blocknr))
    {
      var id := Id(dev, p.blocks[q[k + 1]].blocknr);
      assert !Held(p.blocks, id);
      forall i | 0 <= i < |p'.blocks|
        ensures p'.blocks[i].Name() != id
      {
        assert p.blocks[i].Name() != id;
        assert p.blocks[q[0]].blocknr != p.blocks[q[k + 1]].blocknr;
      }
    }
  }

  lemma ReadBackStep(p: Pool, dev: nat, q: seq<int>, done: nat)
    requires Fillable(p, dev, q) && q != []
    ensures Fillable(ReadOne(p, dev, q[0], done > 0), dev, q[1..])
    ensures ReadBack(p, dev, q, done) == ReadBack(ReadOne(p, dev, q[0], done > 0), dev, q[1..],
                                                  if done > 0 then done - 1 else 0)
    ensures !Held(p.blocks, Id(dev, p.blocks[q[0]].blocknr))
  {
    ReadOneFillable(p, dev, q, done > 0);
  }

  /** Releasing what is left of a queue leads to `goal`. */
  ghost predicate Filling(p: Pool, dev: nat, q: seq<int>, left: nat, goal: Pool) {
    Fillable(p, dev, q) && ReadBack(p, dev, q, left) == goal
  }

  lemma FillingDone(p: Pool, dev: nat, q: seq<int>, left: nat, goal: Pool)
    requires Filling(p, dev, q, left, goal) && q == []
    ensures p == goal
  {
  }

  lemma GatheredFillable(p: Pool, dev: nat, q: seq<int>, done: nat, blocks: seq<Block>)
    requires Fillable(p, dev, q) && Gathered(p, dev, q, done, blocks)
    ensures Fillable(AfterGather(p, blocks, q, done), dev, q)
  {
    forall k | 0 <= k < |q|
      ensures !Held(blocks, Id(dev, blocks[q[k]].blocknr))
    {
      var id := Id(dev, p.blocks[q[k]].blocknr);
      assert !Held(p.blocks, id);
      forall i | 0 <= i < |blocks|
        ensures blocks[i].Name() != id
      {
        assert p.blocks[i].Name() != id;
      }
    }
  }

  // ---------------------------------------------------------------- lmfs_flushall

  predicate CleanUpTo(blocks: seq<Block>, n: nat) {
    n <= |blocks| && forall i :: 0 <= i < n ==> blocks[i].dev == NO_DEV || !blocks[i].dirty
  }
}
