/** A file system's use of the block cache over working devices: reads and whole-block writes answer
    as a plain disk does, and after lmfs_flushall the disk itself is that disk. */
module CacheClient {
  import opened Chains
  import opened BufferPool
  import opened YieldInterface
  import opened CacheSpec
  import opened Requests
  import opened CacheCoherence
  import opened CacheRuns
  import opened BlockCache

  /** Between two commands no buffer is in use. */
  predicate AllFree(p: Pool) {
    forall i :: 0 <= i < |p.blocks| ==> p.blocks[i].count == 0
  }

  /** The cache stands for the disk `ideal`. */
  ghost predicate Standing(p: Pool, ideal: map<Id, Data>) {
    AllFree(p) && Coherent(p, {}, ideal)
  }

  /** The cache works: its structure is sound, its devices answer, and VM has nothing if it is off. */
  ghost predicate Working(c: Cache)
    reads c, c.buf, c.bufHash
  {
    c.Valid() && c.answers == [] && (c.vmcache || c.vm == map[])
  }

  ghost predicate Ready(c: Cache, ideal: map<Id, Data>)
    reads c, c.buf, c.bufHash
  {
    Working(c) && Standing(c.Snap(), ideal)
  }

  /** Buffer bp alone is in use; its contents are owed if it is pending. */
  ghost predicate Holding(p: Pool, bp: int, pending: set<int>, ideal: map<Id, Data>) {
    && 0 <= bp < |p.blocks| && Coherent(p, pending, ideal) && pending <= {bp}
    && forall i :: 0 <= i < |p.blocks| ==> p.blocks[i].count == if i == bp then 1 else 0
  }

  ghost predicate CountsFrom(p: Pool, bp: int, p': Pool) {
    |p'.blocks| == |p.blocks| &&
    forall i :: 0 <= i < |p.blocks| ==> p'.blocks[i].count == p.blocks[i].count + if i == bp then 1 else 0
  }

  /** A get takes one buffer into use, and wakes no VM cache that is off. */
  lemma GetCounts(p: Pool, g: GetLabel, blockSize: nat, p': Pool, bp: int)
    requires LruFree(p) && GetStep(p, g, blockSize, p', bp) && bp != NULL
    requires g.done == |g.queue| && g.read.r == blockSize
    ensures CountsFrom(p, bp, p')
    ensures !g.vmcache && p.vm == map[] ==> p'.vm == map[]
  {
    if !Held(p.blocks, g.id) {
      assert bp in p.lru;
      var p1 := WithMemory(p, bp).(lru := Without(p.lru, bp));
      EvictCounts(p1, bp, g);
      RefilledShape(g.flushed, bp, g, blockSize, p');
    }
  }

  lemma EvictCounts(p: Pool, v: int, g: GetLabel)
    requires 0 <= v < |p.blocks| && FlushedVictim(p, v, g.queue, g.done, g.flushed) && g.done == |g.queue|
    ensures |g.flushed.blocks| == |p.blocks| && g.flushed.vm == p.vm
    ensures forall i :: 0 <= i < |p.blocks| ==> g.flushed.blocks[i].count == p.blocks[i].count
  {
    if p.blocks[v].dev != NO_DEV && p.blocks[v].dirty {
      FlushCleans(p, p.blocks[v].dev, g.queue, g.flushed);
    }
  }

  lemma GetHolds(p: Pool, g: GetLabel, blockSize: nat, p': Pool, bp: int, ideal: map<Id, Data>)
    requires Standing(p, ideal) && LruFree(p) && GetStep(p, g, blockSize, p', bp) && bp != NULL
    requires g.done == |g.queue| && g.read.r == blockSize && (g.vmcache || p.vm == map[]) && g.id.dev != NO_DEV
    ensures g.vmcache || p'.vm == map[]
    ensures Holding(p', bp, if g.mode == NO_READ && !Held(p.blocks, g.id) then {bp} else {}, ideal)
    ensures g.mode != PREFETCH ==> p'.blocks[bp].Name() == g.id
    ensures g.mode == NORMAL ==> p'.blocks[bp].data == Lookup(ideal, g.id)
  {
    GetCoherent(p, g, blockSize, p', bp, {}, ideal);
    GetCounts(p, g, blockSize, p', bp);
    assert {} + {bp} == {bp};
  }

  lemma PutStands(p: Pool, bp: int, oneShot: bool, p': Pool, ideal: map<Id, Data>)
    requires Holding(p, bp, {}, ideal) && p' == PutSpec(p, bp, oneShot)
    ensures Standing(p', ideal) && p'.vm == p.vm
    ensures forall id :: Held(p'.blocks, id) <==> Held(p.blocks, id)
  {
    OnlyCounts(p, p', {}, ideal);
    SameHeld(p, p');
  }

  lemma OverwriteHolds(p: Pool, bp: int, pending: set<int>, data: Data, p': Pool, ideal: map<Id, Data>)
    requires Holding(p, bp, pending, ideal) && p.blocks[bp].dev != NO_DEV
    requires p' == p.(blocks := p.blocks[bp := p.blocks[bp].(data := data, dirty := true)])
    ensures Holding(p', bp, {}, ideal[p.blocks[bp].Name() := data]) && p'.vm == p.vm
  {
    assert pending - {bp} == {};
    WriteCoherent(State(p, pending), bp, data, State(p', {}), ideal);
  }

  lemma LruReady(c: Cache)
    requires c.Valid() && AllFree(c.Snap())
    ensures LruFree(c.Snap()) && c.Snap().lru != []
  {
    assert c.buf[0].blk == c.Snap().blocks[0];
    assert 0 in c.lru;
  }

  /** One of the two levels has the block. */
  ghost predicate InEither(p: Pool, id: Id) {
    Held(p.blocks, id) || id in p.vm
  }

  /** lmfs_get_block on behalf of a command. */
  method Acquire(c: Cache, dev: nat, block: nat, mode: Mode, accepted: bool, ghost ideal: map<Id, Data>)
    returns (bp: int, ghost pending: set<int>)
    requires Ready(c, ideal) && dev != NO_DEV
    modifies c, c.buf, c.bufHash
    ensures c.buf == old(c.buf) && c.bufHash == old(c.bufHash) && Working(c)
    ensures Holding(c.Snap(), bp, pending, ideal) && (mode != NO_READ ==> pending == {})
    ensures mode != PREFETCH ==> c.Snap().blocks[bp].Name() == Id(dev, block)
    ensures mode == NORMAL ==> c.Snap().blocks[bp].data == Lookup(ideal, Id(dev, block))
    ensures mode == PREFETCH ==>
              (Held(c.Snap().blocks, Id(dev, block)) <==> InEither(old(c.Snap()), Id(dev, block)))
  {
    ghost var p := c.Snap();
    LruReady(c);
    ghost var g;
    bp, g := c.GetBlock(dev, block, mode, true, accepted);
    GetHolds(p, g, c.blockSize, c.Snap(), bp, ideal);
    if mode == PREFETCH {
      PrefetchExactly(p, g, c.blockSize, c.Snap(), bp, {}, ideal);
    }
    pending := if mode == NO_READ && !Held(p.blocks, g.id) then {bp} else {};
  }

  /** lmfs_put_block at the end of a command. */
  method Release(c: Cache, bp: int, oneShot: bool, ghost ideal: map<Id, Data>)
    requires Working(c) && Holding(c.Snap(), bp, {}, ideal)
    modifies c, c.buf
    ensures c.buf == old(c.buf) && c.bufHash == old(c.bufHash) && Ready(c, ideal)
    ensures forall id :: Held(c.Snap().blocks, id) <==> Held(old(c.Snap()).blocks, id)
  {
    ghost var p := c.Snap();
    assert p.blocks[bp] == c.buf[bp].blk;
    c.PutBlock(bp, oneShot);
    PutStands(p, bp, oneShot, c.Snap(), ideal);
  }

  /** Reads a block through the cache. */
  method Read(c: Cache, dev: nat, block: nat, accepted: bool, oneShot: bool, ghost ideal: map<Id, Data>)
    returns (data: Data)
    requires Ready(c, ideal) && dev != NO_DEV
    modifies c, c.buf, c.bufHash
    ensures c.buf == old(c.buf) && c.bufHash == old(c.bufHash)
    ensures Ready(c, ideal) && data == Lookup(ideal, Id(dev, block))
  {
    ghost var pending;
    var bp;
    bp, pending := Acquire(c, dev, block, NORMAL, accepted, ideal);
    assert c.Snap().blocks[bp] == c.buf[bp].blk;
    data := c.buf[bp].blk.data;
    Release(c, bp, oneShot, ideal);
  }

  /** The owner of the buffer fills it. */
  method Fill(c: Cache, bp: int, data: Data, ghost pending: set<int>, ghost ideal: map<Id, Data>)
    requires Working(c) && Holding(c.Snap(), bp, pending, ideal) && c.Snap().blocks[bp].dev != NO_DEV
    modifies c.buf
    ensures Working(c) && Holding(c.Snap(), bp, {}, ideal[old(c.Snap()).blocks[bp].Name() := data])
  {
    ghost var p := c.Snap();
    assert p.blocks[bp] == c.buf[bp].blk;
    c.Overwrite(bp, data);
    OverwriteHolds(p, bp, pending, data, c.Snap(), ideal);
  }

  /** Overwrites a whole block through the cache, without reading it first. */
  method Write(c: Cache, dev: nat, block: nat, data: Data, accepted: bool, oneShot: bool, ghost ideal: map<Id, Data>)
    requires Ready(c, ideal) && dev != NO_DEV
    modifies c, c.buf, c.bufHash
    ensures c.buf == old(c.buf) && c.bufHash == old(c.bufHash)
    ensures Ready(c, ideal[Id(dev, block) := data])
  {
    ghost var pending;
    var bp;
    bp, pending := Acquire(c, dev, block, NO_READ, accepted, ideal);
    Fill(c, bp, data, pending, ideal);
    Release(c, bp, oneShot, ideal[Id(dev, block) := data]);
  }

  /** Flushing keeps the ideal disk; what is left clean is on the real one. */
  lemma {:induction false} PathCoherent(path: seq<Moment>, queues: seq<seq<int>>, dones: seq<nat>, nr: nat,
                                        blockSize: nat, k: nat, ideal: map<Id, Data>)
    requires FlushPath(path, queues, dones, nr, blockSize) && k < |path| && path[0].script == []
    requires Standing(path[0].pool, ideal)
    ensures Standing(path[k].pool, ideal) && path[k].pool.vm == path[0].pool.vm
  {
    if k > 0 {
      PathCoherent(path, queues, dones, nr, blockSize, k - 1, ideal);
      WorkingPath(path, queues, dones, nr, blockSize, k - 1);
      assert TurnAt(path, queues, dones, nr, blockSize, k - 1);
      TurnCoherent(path[k - 1], k - 1, queues[k - 1], dones[k - 1], path[k], nr, blockSize, ideal);
    }
  }

  lemma TurnCoherent(m: Moment, i: nat, q: seq<int>, done: nat, m': Moment, nr: nat, blockSize: nat,
                     ideal: map<Id, Data>)
    requires Turn(m, i, q, done, m', nr, blockSize) && (DirtyAt(m.pool, i) ==> done == |q|)
    requires Standing(m.pool, ideal)
    ensures Standing(m'.pool, ideal) && m'.pool.vm == m.pool.vm
  {
    if DirtyAt(m.pool, i) {
      FlushCoherent(m.pool, m.pool.blocks[i].dev, q, m'.pool, {}, ideal);
    }
  }

  lemma CleanIsOnDisk(p: Pool, ideal: map<Id, Data>, id: Id)
    requires Coherent(p, {}, ideal) && CleanUpTo(p.blocks, |p.blocks|) && id.dev != NO_DEV
    ensures Lookup(p.disk, id) == Lookup(ideal, id)
  {
    if Held(p.blocks, id) {
      var i :| 0 <= i < |p.blocks| && p.blocks[i].Name() == id;
      assert ValidAt(p, i);
    }
  }

  /** After lmfs_flushall the real disk is the ideal one. */
  method Sync(c: Cache, ghost ideal: map<Id, Data>)
    requires Ready(c, ideal)
    modifies c, c.buf
    ensures c.buf == old(c.buf) && c.bufHash == old(c.bufHash)
    ensures Ready(c, ideal)
    ensures forall id: Id {:trigger Lookup(c.disk, id)} :: id.dev != NO_DEV ==> Lookup(c.disk, id) == Lookup(ideal, id)
  {
    ghost var path, queues, dones := c.FlushAll();
    PathCoherent(path, queues, dones, c.nrIoReqs, c.blockSize, |queues|, ideal);
    forall id: Id | id.dev != NO_DEV
      ensures Lookup(c.disk, id) == Lookup(ideal, id)
    {
      CleanIsOnDisk(c.Snap(), ideal, id);
    }
  }

  /** Gets a block with PREFETCH, which takes it from either level of the cache but not from the disk:
      the pool has it afterwards exactly if either level had it before. */
  method Prefetch(c: Cache, dev: nat, block: nat, accepted: bool, oneShot: bool, ghost ideal: map<Id, Data>)
    requires Ready(c, ideal) && dev != NO_DEV
    modifies c, c.buf, c.bufHash
    ensures c.buf == old(c.buf) && c.bufHash == old(c.bufHash) && Ready(c, ideal)
    ensures Held(c.Snap().blocks, Id(dev, block)) <==> InEither(old(c.Snap()), Id(dev, block))
  {
    ghost var pending;
    var bp;
    bp, pending := Acquire(c, dev, block, PREFETCH, accepted, ideal);
    Release(c, bp, oneShot, ideal);
  }

  /** VM takes blocks away from its level. */
  method Reclaimed(c: Cache, ids: set<Id>, ghost ideal: map<Id, Data>)
    requires Ready(c, ideal)
    modifies c`vm
    ensures Ready(c, ideal)
  {
    ghost var p := c.Snap();
    c.vm := c.vm - ids;
    assert c.Snap() == p.(vm := p.vm - ids);
  }

  lemma DropStands(p: Pool, dev: nat, p': Pool, ideal: map<Id, Data>)
    requires Standing(p, ideal) && p' == InvalidateSpec(p, dev)
    requires forall id: Id {:trigger Lookup(p.disk, id)} :: id.dev != NO_DEV ==> Lookup(p.disk, id) == Lookup(ideal, id)
    ensures Standing(p', ideal) && p'.vm == map[]
  {
    InvalidateCoherent(State(p, {}), dev, State(p', {}), ideal);
  }

  /** Unmounting a device: its buffers are flushed and then invalidated. */
  method Drop(c: Cache, dev: nat, ghost ideal: map<Id, Data>)
    requires Ready(c, ideal)
    modifies c, c.buf
    ensures c.buf == old(c.buf) && c.bufHash == old(c.bufHash) && Ready(c, ideal)
  {
    Sync(c, ideal);
    ghost var p := c.Snap();
    c.Invalidate(dev);
    DropStands(p, dev, c.Snap(), ideal);
  }

  // ---------------------------------------------------------------- whole programs

  datatype Command =
    | ReadBlock(dev: nat, block: nat, accepted: bool, oneShot: bool)
    | WriteBlock(dev: nat, block: nat, data: Data, accepted: bool, oneShot: bool)
    | SyncAll
    | PrefetchBlock(dev: nat, block: nat, accepted: bool, oneShot: bool)
    | DropDevice(device: nat)
    | Reclaiming(ids: set<Id>)

  /** What a command does to a plain disk. */
  function Effect(cmd: Command, ideal: map<Id, Data>): map<Id, Data> {
    match cmd
    case WriteBlock(dev, block, data, _, _) => ideal[Id(dev, block) := data]
    case _ => ideal
  }

  /** What a plain disk answers: a read the current contents, the other commands nothing. */
  function Reply(cmd: Command, ideal: map<Id, Data>): Data {
    match cmd
    case ReadBlock(dev, block, _, _) => Lookup(ideal, Id(dev, block))
    case _ => BLANK
  }

  function DiskAfter(cmds: seq<Command>, ideal: map<Id, Data>): map<Id, Data> {
    if cmds == [] then ideal else DiskAfter(cmds[1..], Effect(cmds[0], ideal))
  }

  function Replies(cmds: seq<Command>, ideal: map<Id, Data>): seq<Data> {
    if cmds == [] then [] else [Reply(cmds[0], ideal)] + Replies(cmds[1..], Effect(cmds[0], ideal))
  }

  predicate Proper(cmd: Command) {
    cmd.ReadBlock? || cmd.WriteBlock? || cmd.PrefetchBlock? ==> cmd.dev != NO_DEV
  }

  method Execute(c: Cache, cmd: Command, ghost ideal: map<Id, Data>) returns (answer: Data)
    requires Ready(c, ideal) && Proper(cmd)
    modifies c, c.buf, c.bufHash
    ensures c.buf == old(c.buf) && c.bufHash == old(c.bufHash)
    ensures Ready(c, Effect(cmd, ideal)) && answer == Reply(cmd, ideal)
  {
    answer := BLANK;
    match cmd {
      case ReadBlock(dev, block, accepted, oneShot) =>
        answer := Read(c, dev, block, accepted, oneShot, ideal);
      case WriteBlock(dev, block, data, accepted, oneShot) =>
        Write(c, dev, block, data, accepted, oneShot, ideal);
      case SyncAll =>
        Sync(c, ideal);
      case PrefetchBlock(dev, block, accepted, oneShot) =>
        Prefetch(c, dev, block, accepted, oneShot, ideal);
      case DropDevice(device) =>
        Drop(c, device, ideal);
      case Reclaiming(ids) =>
        Reclaimed(c, ids, ideal);
    }
  }

  /** Any program of commands, whatever its hits, evictions, yields and write-backs, gets the answers
      of a plain disk. */
  method Run(c: Cache, cmds: seq<Command>, ghost ideal: map<Id, Data>) returns (out: seq<Data>)
    requires Ready(c, ideal) && forall k :: 0 <= k < |cmds| ==> Proper(cmds[k])
    modifies c, c.buf, c.bufHash
    ensures c.buf == old(c.buf) && c.bufHash == old(c.bufHash)
    ensures Ready(c, DiskAfter(cmds, ideal)) && out == Replies(cmds, ideal)
  {
    out := [];
    if cmds != [] {
      var answer := Execute(c, cmds[0], ideal);
      var rest := Run(c, cmds[1..], Effect(cmds[0], ideal));
      out := [answer] + rest;
    }
  }

  /** A new cache over working devices stands for what is on them. */
  method Start(bufs: nat, fsBlockSize: nat, ioReqs: nat, useVm: bool, disks: map<Id, Data>) returns (c: Cache)
    requires bufs >= MINBUFS && fsBlockSize > 0 && ioReqs > 0
    ensures fresh(c) && fresh(c.buf) && fresh(c.bufHash) && Ready(c, disks)
  {
    c := new Cache(bufs, fsBlockSize, ioReqs, useVm, disks, []);
    assert forall i :: 0 <= i < |c.Snap().blocks| ==> c.Snap().blocks[i] == FREE;
  }
}
