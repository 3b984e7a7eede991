/** Whole runs of the two-level cache over a working device. */
module CacheRuns {
  import opened Chains
  import opened BufferPool
  import opened YieldInterface
  import opened CacheSpec
  import opened CacheCoherence

  datatype Op =
    | Get(g: GetLabel, bp: int)
    | Put(bp: int, oneShot: bool)
    | Write(bp: int, data: Data)
    | Flush(dev: nat, queue: seq<int>)
    | Invalidate(dev: nat)
    | ReadAhead(dev: nat, queue: seq<int>, done: nat, gathered: seq<Block>)
    | Reclaim(ids: set<Id>)

  /** `pending`: buffers got with NO_READ whose contents are still to be supplied. */
  datatype State = State(pool: Pool, pending: set<int>)

  ghost predicate GetOp(s: State, g: GetLabel, bp: int, blockSize: nat, s': State) {
    && LruFree(s.pool) && g.id.dev != NO_DEV && (g.vmcache || s.pool.vm == map[])
    && g.done == |g.queue| && g.read.r == blockSize
    && GetStep(s.pool, g, blockSize, s'.pool, bp) && bp != NULL
    && s'.pending == if g.mode == NO_READ && !Held(s.pool.blocks, g.id) then s.pending + {bp} else s.pending
  }

  /** A buffer is released only once its contents have been supplied. */
  predicate PutOp(s: State, bp: int, oneShot: bool, s': State) {
    && 0 <= bp < |s.pool.blocks| && s.pool.blocks[bp].count > 0 && bp !in s.pending
    && s' == State(PutSpec(s.pool, bp, oneShot), s.pending)
  }

  /** The owner of a buffer overwrites it and calls lmfs_markdirty. */
  predicate WriteOp(s: State, bp: int, data: Data, s': State) {
    && 0 <= bp < |s.pool.blocks| && s.pool.blocks[bp].count > 0
    && s' == State(s.pool.(blocks := s.pool.blocks[bp := s.pool.blocks[bp].(data := data, dirty := true)]),
                   s.pending - {bp})
  }

  ghost predicate FlushOp(s: State, dev: nat, q: seq<int>, s': State) {
    dev != NO_DEV && WriteQueue(s.pool.blocks, dev, q) && Written(s.pool, dev, q, |q|, s'.pool) &&
      s'.pending == s.pending
  }

  predicate InvalidateOp(s: State, dev: nat, s': State) {
    && s'.pool == InvalidateSpec(s.pool, dev)
    && s'.pending == set i | i in s.pending && 0 <= i < |s.pool.blocks| && s.pool.blocks[i].dev != dev
  }

  /** Read-ahead fills nameless buffers with blocks that neither level of the cache has. */
  ghost predicate ReadAheadOp(s: State, dev: nat, q: seq<int>, done: nat, gathered: seq<Block>, s': State) {
    && dev != NO_DEV && InUse(s.pool.blocks, q) && done <= |q|
    && (forall k :: 0 <= k < |q| ==> s.pool.blocks[q[k]].dev == NO_DEV && !s.pool.blocks[q[k]].dirty)
    && (forall k :: 0 <= k < |q| ==> !Held(s.pool.blocks, Id(dev, s.pool.blocks[q[k]].blocknr)))
    && (forall k :: 0 <= k < |q| ==> Id(dev, s.pool.blocks[q[k]].blocknr) !in s.pool.vm)
    && (forall j, k :: 0 <= j < k < |q| ==> s.pool.blocks[q[j]].blocknr != s.pool.blocks[q[k]].blocknr)
    && Gathered(s.pool, dev, q, done, gathered)
    && s' == State(ReadBack(AfterGather(s.pool, gathered, q, done), dev, q, done), s.pending)
  }

  ghost predicate Step(s: State, op: Op, blockSize: nat, s': State) {
    match op
    case Get(g, bp) => GetOp(s, g, bp, blockSize, s')
    case Put(bp, oneShot) => PutOp(s, bp, oneShot, s')
    case Write(bp, data) => WriteOp(s, bp, data, s')
    case Flush(dev, q) => FlushOp(s, dev, q, s')
    case Invalidate(dev) => InvalidateOp(s, dev, s')
    case ReadAhead(dev, q, done, gathered) => ReadAheadOp(s, dev, q, done, gathered, s')
    case Reclaim(ids) => s' == State(s.pool.(vm := s.pool.vm - ids), s.pending)
  }

  /** The ideal disk: writes reach it at once; invalidating a device leaves what was on the real one. */
  function Ideal(s: State, op: Op, ideal: map<Id, Data>): map<Id, Data> {
    match op
    case Write(bp, data) =>
      if ValidAt(s.pool, bp) then ideal[s.pool.blocks[bp].Name() := data] else ideal
    case Invalidate(dev) =>
      map id | id in ideal.Keys + s.pool.disk.Keys ::
        if id.dev == dev then Lookup(s.pool.disk, id) else Lookup(ideal, id)
    case _ => ideal
  }

  lemma WriteCoherent(s: State, bp: int, data: Data, s': State, ideal: map<Id, Data>)
    requires Coherent(s.pool, s.pending, ideal) && WriteOp(s, bp, data, s')
    ensures Coherent(s'.pool, s'.pending, Ideal(s, Write(bp, data), ideal))
  {
    SameHeld(s.pool, s'.pool);
    if ValidAt(s.pool, bp) {
      assert Held(s.pool.blocks, s.pool.blocks[bp].Name());
    }
  }

  lemma InvalidateCoherent(s: State, dev: nat, s': State, ideal: map<Id, Data>)
    requires Coherent(s.pool, s.pending, ideal) && InvalidateOp(s, dev, s')
    ensures Coherent(s'.pool, s'.pending, Ideal(s, Invalidate(dev), ideal))
  {
    IdealFalls(s, dev, ideal);
    DeviceDropped(s.pool, s'.pool, s.pending, s'.pending, dev, ideal, Ideal(s, Invalidate(dev), ideal));
  }

  lemma IdealFalls(s: State, dev: nat, ideal: map<Id, Data>)
    ensures forall id {:trigger Lookup(Ideal(s, Invalidate(dev), ideal), id)} ::
              Lookup(Ideal(s, Invalidate(dev), ideal), id)
              == if id.dev == dev then Lookup(s.pool.disk, id) else Lookup(ideal, id)
  {
  }

  lemma DeviceDropped(p: Pool, p': Pool, pending: set<int>, pending': set<int>, dev: nat, ideal: map<Id, Data>,
                      ideal': map<Id, Data>)
    requires Coherent(p, pending, ideal) && p' == InvalidateSpec(p, dev)
    requires pending' == set i | i in pending && 0 <= i < |p.blocks| && p.blocks[i].dev != dev
    requires forall id {:trigger Lookup(ideal', id)} ::
               Lookup(ideal', id) == if id.dev == dev then Lookup(p.disk, id) else Lookup(ideal, id)
    ensures Coherent(p', pending', ideal')
  {
    forall id: Id | id.dev != NO_DEV && id.dev != dev && Held(p.blocks, id)
      ensures Held(p'.blocks, id)
    {
      var i :| 0 <= i < |p.blocks| && p.blocks[i].Name() == id;
      assert p'.blocks[i].Name() == id;
    }
  }

  /** Buffer i of q was read: it now holds, clean, what the disk has. */
  predicate JustRead(p: Pool, dev: nat, p': Pool, i: int)
    requires 0 <= i < |p.blocks| == |p'.blocks|
  {
    && p.blocks[i].dev == NO_DEV && !p'.blocks[i].dirty && p'.blocks[i].count + 1 == p.blocks[i].count
    && p'.blocks[i].Name() == Id(dev, p.blocks[i].blocknr)
    && p'.blocks[i].data == Lookup(p.disk, p'.blocks[i].Name())
  }

  /** Valid buffers are unchanged; of the others some, with new and distinct names, were just read. */
  ghost predicate ReadShape(p: Pool, dev: nat, p': Pool) {
    && |p'.blocks| == |p.blocks| && (p'.vm == p.vm || p'.vm == map[]) && p'.disk == p.disk
    && (forall i :: ValidAt(p, i) ==> p'.blocks[i] == p.blocks[i])
    && (forall i :: ValidAt(p', i) && !ValidAt(p, i) ==> JustRead(p, dev, p', i))
    && (forall i :: ValidAt(p', i) && !ValidAt(p, i) ==>
          !Held(p.blocks, p'.blocks[i].Name()) && p'.blocks[i].Name() !in p.vm)
    && (forall i, j :: i < j && ValidAt(p', i) && !ValidAt(p, i) && ValidAt(p', j) && !ValidAt(p, j) ==>
          p'.blocks[i].Name() != p'.blocks[j].Name())
  }

  lemma ReadAheadShape(s: State, dev: nat, q: seq<int>, done: nat, gathered: seq<Block>, s': State)
    requires ReadAheadOp(s, dev, q, done, gathered, s')
    ensures ReadShape(s.pool, dev, s'.pool)
  {
    var p, p' := s.pool, s'.pool;
    ReadBackEffect(AfterGather(p, gathered, q, done), dev, q, done);
    forall i | ValidAt(p', i) && !ValidAt(p, i)
      ensures JustRead(p, dev, p', i) && i in q
      ensures !Held(p.blocks, p'.blocks[i].Name()) && p'.blocks[i].Name() !in p.vm
    {
      assert i in q;
      var k :| 0 <= k < |q| && q[k] == i;
      assert p'.blocks[i] == ReadBlk(gathered[i], dev, k < done);
    }
    forall i, j | i < j && ValidAt(p', i) && !ValidAt(p, i) && ValidAt(p', j) && !ValidAt(p, j)
      ensures p'.blocks[i].Name() != p'.blocks[j].Name()
    {
      QueueDistinct(p, q, i, j);
    }
  }

  lemma QueueDistinct(p: Pool, q: seq<int>, i: int, j: int)
    requires InUse(p.blocks, q) && i in q && j in q && i != j
    requires forall j, k :: 0 <= j < k < |q| ==> p.blocks[q[j]].blocknr != p.blocks[q[k]].blocknr
    ensures 0 <= i < |p.blocks| && 0 <= j < |p.blocks| && p.blocks[i].blocknr != p.blocks[j].blocknr
  {
    var k :| 0 <= k < |q| && q[k] == i;
    var l :| 0 <= l < |q| && q[l] == j;
    assert k < l || l < k;
  }

  lemma ReadShapeCoherent(p: Pool, dev: nat, p': Pool, pending: set<int>, ideal: map<Id, Data>)
    requires Coherent(p, pending, ideal) && ReadShape(p, dev, p')
    ensures Coherent(p', pending, ideal)
  {
    forall id: Id | Held(p.blocks, id) && id.dev != NO_DEV
      ensures Held(p'.blocks, id)
    {
      var i :| 0 <= i < |p.blocks| && p.blocks[i].Name() == id;
      assert p'.blocks[i].Name() == id;
    }
    forall i | ValidAt(p', i) && ValidAt(p, i)
      ensures Held(p.blocks, p'.blocks[i].Name())
    {
    }
  }

  /** Every step keeps the two-level cache coherent with the ideal disk. */
  lemma StepCoherent(s: State, op: Op, blockSize: nat, s': State, ideal: map<Id, Data>)
    requires Coherent(s.pool, s.pending, ideal) && Step(s, op, blockSize, s')
    ensures Coherent(s'.pool, s'.pending, Ideal(s, op, ideal))
  {
    match op
    case Get(g, bp) => GetCoherent(s.pool, g, blockSize, s'.pool, bp, s.pending, ideal);
    case Put(bp, oneShot) => OnlyCounts(s.pool, s'.pool, s.pending, ideal);
    case Write(bp, data) => WriteCoherent(s, bp, data, s', ideal);
    case Flush(dev, q) => FlushCoherent(s.pool, dev, q, s'.pool, s.pending, ideal);
    case Invalidate(dev) => InvalidateCoherent(s, dev, s', ideal);
    case ReadAhead(dev, q, done, gathered) =>
      ReadAheadShape(s, dev, q, done, gathered, s');
      ReadShapeCoherent(s.pool, dev, s'.pool, s.pending, ideal);
    case Reclaim(ids) =>
  }

  // ---------------------------------------------------------------- runs

  ghost predicate IsRun(states: seq<State>, ops: seq<Op>, blockSize: nat) {
    && |states| == |ops| + 1
    && (forall i {:trigger StepAt(states, ops, blockSize, i)} :: 0 <= i < |ops| ==> StepAt(states, ops, blockSize, i))
  }

  ghost predicate StepAt(states: seq<State>, ops: seq<Op>, blockSize: nat, i: nat)
    requires i < |ops| < |states|
  {
    Step(states[i], ops[i], blockSize, states[i + 1])
  }

  /** A pool fresh from lmfs_buf_pool: no buffer is valid, VM has forgotten its blocks. */
  predicate Fresh(s: State) {
    && (forall i :: 0 <= i < |s.pool.blocks| ==> s.pool.blocks[i].dev == NO_DEV && s.pool.blocks[i].count == 0)
    && s.pool.vm == map[] && s.pending == {}
  }

  /** What a reader of block id is owed after n steps: the data of the last write to it, or, if its
      device was invalidated since, what the disk had then, or else the initial contents. */
  function LastWritten(states: seq<State>, ops: seq<Op>, n: nat, id: Id): Data
    requires n <= |ops| < |states|
  {
    if n == 0 then Lookup(states[0].pool.disk, id)
    else
      match ops[n - 1]
      case Write(bp, data) =>
        if ValidAt(states[n - 1].pool, bp) && states[n - 1].pool.blocks[bp].Name() == id then data
        else LastWritten(states, ops, n - 1, id)
      case Invalidate(dev) =>
        if id.dev == dev then Lookup(states[n - 1].pool.disk, id) else LastWritten(states, ops, n - 1, id)
      case _ => LastWritten(states, ops, n - 1, id)
  }

  function IdealAfter(states: seq<State>, ops: seq<Op>, n: nat): map<Id, Data>
    requires n <= |ops| < |states|
  {
    if n == 0 then states[0].pool.disk
    else Ideal(states[n - 1], ops[n - 1], IdealAfter(states, ops, n - 1))
  }

  lemma {:induction false} IdealIsLastWritten(states: seq<State>, ops: seq<Op>, n: nat, id: Id)
    requires n <= |ops| < |states|
    ensures Lookup(IdealAfter(states, ops, n), id) == LastWritten(states, ops, n, id)
  {
    if n > 0 {
      IdealIsLastWritten(states, ops, n - 1, id);
    }
  }

  ghost predicate CoherentAt(states: seq<State>, ops: seq<Op>, n: nat)
    requires n <= |ops| < |states|
  {
    Coherent(states[n].pool, states[n].pending, IdealAfter(states, ops, n))
  }

  lemma CoherentNext(states: seq<State>, ops: seq<Op>, blockSize: nat, n: nat)
    requires IsRun(states, ops, blockSize) && n < |ops| && CoherentAt(states, ops, n)
    ensures CoherentAt(states, ops, n + 1)
  {
    assert StepAt(states, ops, blockSize, n);
    StepCoherent(states[n], ops[n], blockSize, states[n + 1], IdealAfter(states, ops, n));
  }

  lemma FreshCoherent(states: seq<State>, ops: seq<Op>)
    requires |ops| < |states| && Fresh(states[0])
    ensures CoherentAt(states, ops, 0)
  {
  }

  lemma {:induction false} RunCoherent(states: seq<State>, ops: seq<Op>, blockSize: nat, n: nat)
    requires IsRun(states, ops, blockSize) && Fresh(states[0]) && n <= |ops|
    ensures CoherentAt(states, ops, n)
  {
    if n == 0 {
      FreshCoherent(states, ops);
    } else {
      RunCoherent(states, ops, blockSize, n - 1);
      CoherentNext(states, ops, blockSize, n - 1);
    }
  }

  /** In every reachable state no block is both validly buffered and yielded, and every yielded copy
      equals the disk. */
  lemma LevelsExclusive(states: seq<State>, ops: seq<Op>, blockSize: nat, n: nat)
    requires IsRun(states, ops, blockSize) && Fresh(states[0]) && n <= |ops|
    ensures Unique(states[n].pool.blocks)
    ensures forall i :: ValidAt(states[n].pool, i) ==> states[n].pool.blocks[i].Name() !in states[n].pool.vm
    ensures forall id :: id in states[n].pool.vm ==> states[n].pool.vm[id] == Lookup(states[n].pool.disk, id)
  {
    RunCoherent(states, ops, blockSize, n);
  }

  /** In every run a NORMAL get returns the last contents written, whatever was evicted, yielded,
      fetched back, flushed, prefetched or reclaimed in between. So does a PREFETCH get that returns a
      named buffer. */
  lemma GetReturnsLastWritten(states: seq<State>, ops: seq<Op>, blockSize: nat, n: nat)
    requires IsRun(states, ops, blockSize) && Fresh(states[0]) && n < |ops|
    requires ops[n].Get? && ops[n].bp !in states[n].pending
    requires ops[n].g.mode == NORMAL || (ops[n].g.mode == PREFETCH && ValidAt(states[n + 1].pool, ops[n].bp))
    ensures 0 <= ops[n].bp < |states[n + 1].pool.blocks|
    ensures states[n + 1].pool.blocks[ops[n].bp].Name() == ops[n].g.id
    ensures states[n + 1].pool.blocks[ops[n].bp].data == LastWritten(states, ops, n, ops[n].g.id)
  {
    RunCoherent(states, ops, blockSize, n);
    assert StepAt(states, ops, blockSize, n);
    var ideal := IdealAfter(states, ops, n);
    GetCoherent(states[n].pool, ops[n].g, blockSize, states[n + 1].pool, ops[n].bp, states[n].pending, ideal);
    IdealIsLastWritten(states, ops, n, ops[n].g.id);
  }

  /** A PREFETCH get returns a valid buffer exactly if one of the two levels had the block. */
  lemma PrefetchServed(states: seq<State>, ops: seq<Op>, blockSize: nat, n: nat)
    requires IsRun(states, ops, blockSize) && Fresh(states[0]) && n < |ops|
    requires ops[n].Get? && ops[n].g.mode == PREFETCH
    ensures ValidAt(states[n + 1].pool, ops[n].bp) <==>
              Held(states[n].pool.blocks, ops[n].g.id) || ops[n].g.id in states[n].pool.vm
  {
    RunCoherent(states, ops, blockSize, n);
    assert StepAt(states, ops, blockSize, n);
    PrefetchExactly(states[n].pool, ops[n].g, blockSize, states[n + 1].pool, ops[n].bp, states[n].pending,
                    IdealAfter(states, ops, n));
  }

  /** Once nothing is dirty or pending, the disk itself holds the last contents written. */
  lemma SyncedDisk(states: seq<State>, ops: seq<Op>, blockSize: nat, n: nat, id: Id)
    requires IsRun(states, ops, blockSize) && Fresh(states[0]) && n <= |ops| && id.dev != NO_DEV
    requires states[n].pending == {}
    requires forall i :: ValidAt(states[n].pool, i) ==> !states[n].pool.blocks[i].dirty
    ensures Lookup(states[n].pool.disk, id) == LastWritten(states, ops, n, id)
  {
    RunCoherent(states, ops, blockSize, n);
    IdealIsLastWritten(states, ops, n, id);
    var p := states[n].pool;
    if Held(p.blocks, id) {
      var i :| 0 <= i < |p.blocks| && p.blocks[i].Name() == id;
      assert ValidAt(p, i);
    }
  }
}
