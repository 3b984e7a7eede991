/** The two-level cache refines a plain disk: relation between the buffers, VM's blocks, the real
    disk, and the ideal disk that every write reaches at once. */
module CacheCoherence {
  import opened Chains
  import opened BufferPool
  import opened YieldInterface
  import opened CacheSpec
  import opened Requests

  predicate ValidAt(p: Pool, i: int) {
    0 <= i < |p.blocks| && p.blocks[i].dev != NO_DEV
  }

  /** `ideal` is what a reader must see. `pending` are the buffers got with NO_READ that were not in
      the cache and that their owner has not overwritten yet. */
  ghost predicate Coherent(p: Pool, pending: set<int>, ideal: map<Id, Data>) {
    && Unique(p.blocks)
    && (forall i :: ValidAt(p, i) && i !in pending ==> p.blocks[i].data == Lookup(ideal, p.blocks[i].Name()))
    && (forall i :: ValidAt(p, i) && !p.blocks[i].dirty && i !in pending ==>
          p.blocks[i].data == Lookup(p.disk, p.blocks[i].Name()))
    && (forall id: Id :: id.dev != NO_DEV && !Held(p.blocks, id) ==> Lookup(p.disk, id) == Lookup(ideal, id))
    && (forall id :: id in p.vm ==> id.dev != NO_DEV && !Held(p.blocks, id) && p.vm[id] == Lookup(p.disk, id))
    && (forall i :: i in pending ==> ValidAt(p, i) && p.blocks[i].count > 0 && !p.blocks[i].dirty)
  }

  /** Same buffers under the same names with the same contents. */
  predicate SameNames(p: Pool, p': Pool) {
    |p'.blocks| == |p.blocks| &&
    forall i :: 0 <= i < |p.blocks| ==> p'.blocks[i].Name() == p.blocks[i].Name()
  }

  lemma SameHeld(p: Pool, p': Pool)
    requires SameNames(p, p')
    ensures forall id :: Held(p.blocks, id) <==> Held(p'.blocks, id)
    ensures Unique(p.blocks) ==> Unique(p'.blocks)
  {
    forall id
      ensures Held(p.blocks, id) <==> Held(p'.blocks, id)
    {
      if Held(p.blocks, id) {
        var i :| 0 <= i < |p.blocks| && p.blocks[i].Name() == id;
        assert p'.blocks[i].Name() == id;
      }
      if Held(p'.blocks, id) {
        var i :| 0 <= i < |p'.blocks| && p'.blocks[i].Name() == id;
        assert p.blocks[i].Name() == id;
      }
    }
  }

  /** Counts, LRU order and memory are invisible to coherence. */
  lemma OnlyCounts(p: Pool, p': Pool, pending: set<int>, ideal: map<Id, Data>)
    requires Coherent(p, pending, ideal)
    requires |p'.blocks| == |p.blocks| && p'.vm == p.vm && p'.disk == p.disk
    requires forall i :: 0 <= i < |p.blocks| ==>
               p'.blocks[i] == p.blocks[i].(count := p'.blocks[i].count, hasData := p'.blocks[i].hasData)
    requires forall i :: i in pending ==> 0 <= i < |p'.blocks| && p'.blocks[i].count > 0
    ensures Coherent(p', pending, ideal)
  {
    SameHeld(p, p');
  }

  /** A flush on a working device keeps the ideal disk and cleans the whole device. */
  lemma FlushCoherent(p: Pool, dev: nat, q: seq<int>, p': Pool, pending: set<int>, ideal: map<Id, Data>)
    requires Coherent(p, pending, ideal) && dev != NO_DEV
    requires WriteQueue(p.blocks, dev, q) && Written(p, dev, q, |q|, p')
    ensures Coherent(p', pending, ideal)
    ensures forall i :: 0 <= i < |p'.blocks| ==>
              p'.blocks[i] == p.blocks[i].(dirty := p.blocks[i].dirty && p.blocks[i].dev != dev)
  {
    FlushCleans(p, dev, q, p');
    SameHeld(p, p');
    forall i | ValidAt(p', i) && !p'.blocks[i].dirty && i !in pending
      ensures p'.blocks[i].data == Lookup(p'.disk, p'.blocks[i].Name())
    {
      if i in q {
        var k :| 0 <= k < |q| && q[k] == i;
      } else {
        NotQueued(p, dev, q, i);
      }
    }
    forall id: Id | id.dev != NO_DEV && !Held(p'.blocks, id)
      ensures Lookup(p'.disk, id) == Lookup(p.disk, id)
    {
      Unnamed(p, dev, q, id);
    }
    forall id | id in p'.vm
      ensures Lookup(p'.disk, id) == Lookup(p.disk, id)
    {
      Unnamed(p, dev, q, id);
    }
  }

  lemma NotQueued(p: Pool, dev: nat, q: seq<int>, i: int)
    requires Unique(p.blocks) && dev != NO_DEV && WriteQueue(p.blocks, dev, q)
    requires ValidAt(p, i) && i !in q
    ensures forall k :: 0 <= k < |q| ==> p.blocks[i].Name() != Id(dev, p.blocks[q[k]].blocknr)
  {
    forall k | 0 <= k < |q|
      ensures p.blocks[i].Name() != Id(dev, p.blocks[q[k]].blocknr)
    {
      assert q[k] in q;
      assert DirtyOn(p.blocks[q[k]], dev);
    }
  }

  lemma Unnamed(p: Pool, dev: nat, q: seq<int>, id: Id)
    requires WriteQueue(p.blocks, dev, q) && !Held(p.blocks, id)
    ensures forall k :: 0 <= k < |q| ==> id != Id(dev, p.blocks[q[k]].blocknr)
  {
    forall k | 0 <= k < |q|
      ensures id != Id(dev, p.blocks[q[k]].blocknr)
    {
      assert q[k] in q;
      assert DirtyOn(p.blocks[q[k]], dev);
      assert p.blocks[q[k]].Name() == Id(dev, p.blocks[q[k]].blocknr);
    }
  }

  /** The buffers of the LRU chain are buffers, and free. */
  ghost predicate LruFree(p: Pool) {
    forall k :: 0 <= k < |p.lru| ==> 0 <= p.lru[k] < |p.blocks| && p.blocks[p.lru[k]].count == 0
  }

  /** The state between eviction and renaming: victim v is clean if it is valid. */
  lemma EvictCoherent(p: Pool, v: int, g: GetLabel, pending: set<int>, ideal: map<Id, Data>)
    requires Coherent(p, pending, ideal)
    requires 0 <= v < |p.blocks| && p.blocks[v].count == 0
    requires FlushedVictim(p, v, g.queue, g.done, g.flushed) && g.done == |g.queue|
    ensures Coherent(g.flushed, pending, ideal) && SameNames(p, g.flushed)
    ensures g.flushed.blocks[v].count == 0 && (ValidAt(g.flushed, v) ==> !g.flushed.blocks[v].dirty)
    ensures g.flushed.blocks[v].Name() == p.blocks[v].Name()
  {
    if p.blocks[v].dev != NO_DEV && p.blocks[v].dirty {
      FlushCoherent(p, p.blocks[v].dev, g.queue, g.flushed, pending, ideal);
    }
  }

  lemma HeldElsewhere(p: Pool, v: int, p': Pool, id: Id)
    requires OthersSame(p, v, p')
    ensures Held(p'.blocks, id) ==> Held(p.blocks, id) || id == p'.blocks[v].Name()
    ensures Held(p.blocks, id) ==> Held(p'.blocks, id) || id == p.blocks[v].Name()
  {
    if Held(p'.blocks, id) && id != p'.blocks[v].Name() {
      var i :| 0 <= i < |p'.blocks| && p'.blocks[i].Name() == id;
      assert p.blocks[i].Name() == id;
    }
    if Held(p.blocks, id) && id != p.blocks[v].Name() {
      var i :| 0 <= i < |p.blocks| && p.blocks[i].Name() == id;
      assert p'.blocks[i].Name() == id;
    }
  }

  /** VM holds a copy of the disk, of a block it held before or of the victim. */
  predicate VmMayHold(p: Pool, v: int, p': Pool, id: Id)
    requires 0 <= v < |p.blocks| == |p'.blocks| && id in p'.vm
  {
    && id.dev != NO_DEV && p'.vm[id] == Lookup(p.disk, id)
    && (id in p.vm || id == p.blocks[v].Name())
    && (ValidAt(p', v) ==> id != p'.blocks[v].Name())
  }

  /** Giving a clean victim another identity, or none, keeps coherence when VM ends up with nothing
      but copies of the disk of blocks that no buffer holds. */
  lemma RenameCoherent(p: Pool, v: int, p': Pool, pending: set<int>, pending': set<int>, ideal: map<Id, Data>)
    requires Coherent(p, pending, ideal)
    requires OthersSame(p, v, p') && p'.disk == p.disk
    requires p.blocks[v].count == 0 && (ValidAt(p, v) ==> !p.blocks[v].dirty)
    requires ValidAt(p', v) ==> !Held(p.blocks, p'.blocks[v].Name())
    requires p'.blocks[v].count > 0 && !p'.blocks[v].dirty
    requires pending' == pending || (pending' == pending + {v} && ValidAt(p', v))
    requires ValidAt(p', v) && v !in pending' ==> p'.blocks[v].data == Lookup(p.disk, p'.blocks[v].Name())
    requires forall id :: id in p'.vm ==> VmMayHold(p, v, p', id)
    ensures Coherent(p', pending', ideal)
  {
    forall id: Id | id.dev != NO_DEV && !Held(p'.blocks, id)
      ensures Lookup(p'.disk, id) == Lookup(ideal, id)
    {
      HeldElsewhere(p, v, p', id);
    }
    forall id | id in p'.vm
      ensures !Held(p'.blocks, id)
    {
      HeldElsewhere(p, v, p', id);
    }
    forall i, j | 0 <= i < j < |p'.blocks| && p'.blocks[i].dev != NO_DEV
      ensures p'.blocks[i].Name() != p'.blocks[j].Name()
    {
      assert i != v ==> Held(p.blocks, p.blocks[i].Name());
      assert j != v ==> Held(p.blocks, p.blocks[j].Name());
    }
  }

  /** The victim `v` of `f`, renamed after g.id and filled. */
  function Refilled(f: Pool, v: int, valid: bool, g: GetLabel, blockSize: nat): Pool
    requires 0 <= v < |f.blocks|
  {
    var yieldid := if valid then Some(f.blocks[v].Name()) else None;
    Fetched(Renamed(f, v, g.id), v, g.mode, g.vmcache, yieldid, g.accepted, g.read, blockSize)
  }

  lemma RefilledShape(f: Pool, v: int, g: GetLabel, blockSize: nat, p': Pool)
    requires 0 <= v < |f.blocks| && p' == Refilled(f, v, ValidAt(f, v), g, blockSize)
    requires g.read.r == blockSize
    ensures OthersSame(f, v, p') && p'.disk == f.disk
    ensures p'.blocks[v].count == f.blocks[v].count + 1 && !p'.blocks[v].dirty
    ensures p'.blocks[v].Name() == g.id || (g.mode == PREFETCH && p'.blocks[v].dev == NO_DEV)
  {
    var yieldid := if ValidAt(f, v) then Some(f.blocks[v].Name()) else None;
    FetchedShape(Renamed(f, v, g.id), v, g.mode, g.vmcache, yieldid, g.accepted, g.read, blockSize, p');
  }

  lemma RefilledVm(f: Pool, v: int, g: GetLabel, blockSize: nat, p': Pool, pending: set<int>, ideal: map<Id, Data>)
    requires Coherent(f, pending, ideal) && 0 <= v < |f.blocks| && f.blocks[v].count == 0
    requires ValidAt(f, v) ==> !f.blocks[v].dirty
    requires !Held(f.blocks, g.id) && g.id.dev != NO_DEV
    requires p' == Refilled(f, v, ValidAt(f, v), g, blockSize)
    requires g.read.r == blockSize && (g.vmcache || f.vm == map[])
    ensures |p'.blocks| == |f.blocks|
    ensures forall id :: id in p'.vm ==> VmMayHold(f, v, p', id)
  {
    RefilledShape(f, v, g, blockSize, p');
    forall id | id in p'.vm
      ensures VmMayHold(f, v, p', id)
    {
      RefilledVmHolds(f, v, g, blockSize, p', pending, ideal, id);
    }
  }

  lemma RefilledVmHolds(f: Pool, v: int, g: GetLabel, blockSize: nat, p': Pool, pending: set<int>, ideal: map<Id, Data>,
                        id: Id)
    requires Coherent(f, pending, ideal) && 0 <= v < |f.blocks| == |p'.blocks| && f.blocks[v].count == 0
    requires ValidAt(f, v) ==> !f.blocks[v].dirty
    requires !Held(f.blocks, g.id) && g.id.dev != NO_DEV
    requires p' == Refilled(f, v, ValidAt(f, v), g, blockSize)
    requires g.read.r == blockSize && (g.vmcache || f.vm == map[]) && id in p'.vm
    ensures VmMayHold(f, v, p', id)
  {
    var yieldid := if ValidAt(f, v) then Some(f.blocks[v].Name()) else None;
    var (p1, ok) := VmSpec(Renamed(f, v, g.id), v, g.vmcache, yieldid, g.accepted);
    assert p1.blocks[v].dev == g.id.dev;
    if g.mode == NO_READ {
      assert p'.blocks[v].Name() == g.id;
    } else if ok {
      assert p' == p1;
    }
  }

  lemma RefilledData(f: Pool, v: int, g: GetLabel, blockSize: nat, p': Pool, pending: set<int>, ideal: map<Id, Data>)
    requires Coherent(f, pending, ideal) && 0 <= v < |f.blocks|
    requires !Held(f.blocks, g.id) && g.id.dev != NO_DEV
    requires p' == Refilled(f, v, ValidAt(f, v), g, blockSize)
    requires g.read.r == blockSize && (g.vmcache || f.vm == map[])
    ensures |p'.blocks| == |f.blocks|
    ensures p'.blocks[v].data == Lookup(f.disk, g.id) || g.mode == NO_READ || p'.blocks[v].dev == NO_DEV
  {
  }

  lemma RefillCoherent(f: Pool, v: int, g: GetLabel, blockSize: nat, p': Pool, pending: set<int>, ideal: map<Id, Data>)
    requires Coherent(f, pending, ideal) && 0 <= v < |f.blocks| && f.blocks[v].count == 0
    requires ValidAt(f, v) ==> !f.blocks[v].dirty
    requires !Held(f.blocks, g.id) && g.id.dev != NO_DEV
    requires p' == Refilled(f, v, ValidAt(f, v), g, blockSize)
    requires g.read.r == blockSize && (g.vmcache || f.vm == map[])
    ensures |p'.blocks| == |f.blocks|
    ensures Coherent(p', if g.mode == NO_READ then pending + {v} else pending, ideal)
    ensures g.mode != PREFETCH || ValidAt(p', v) ==> p'.blocks[v].Name() == g.id
    ensures g.mode != NO_READ && ValidAt(p', v) ==> p'.blocks[v].data == Lookup(ideal, g.id)
  {
    RefilledShape(f, v, g, blockSize, p');
    RefilledVm(f, v, g, blockSize, p', pending, ideal);
    RefilledData(f, v, g, blockSize, p', pending, ideal);
    RenameCoherent(f, v, p', pending, if g.mode == NO_READ then pending + {v} else pending, ideal);
  }

  lemma VictimEvicted(p: Pool, v: int, g: GetLabel, pending: set<int>, ideal: map<Id, Data>)
    requires Coherent(p, pending, ideal) && 0 <= v < |p.blocks| && p.blocks[v].count == 0
    requires FlushedVictim(WithMemory(p, v).(lru := Without(p.lru, v)), v, g.queue, g.done, g.flushed) &&
              g.done == |g.queue|
    ensures |g.flushed.blocks| == |p.blocks| && g.flushed.blocks[v].count == 0
    ensures Coherent(g.flushed, pending, ideal)
    ensures ValidAt(g.flushed, v) ==> !g.flushed.blocks[v].dirty
    ensures g.flushed.blocks[v].Name() == p.blocks[v].Name()
    ensures forall id :: Held(g.flushed.blocks, id) <==> Held(p.blocks, id)
    ensures p.vm == map[] ==> g.flushed.vm == map[]
  {
    var p1 := WithMemory(p, v).(lru := Without(p.lru, v));
    OnlyCounts(p, p1, pending, ideal);
    EvictCoherent(p1, v, g, pending, ideal);
    SameHeld(p, p1);
    SameHeld(p1, g.flushed);
  }

  /** lmfs_get_block on a working device: the ideal disk does not change, and a NORMAL get returns
      its contents. */
  lemma GetCoherent(p: Pool, g: GetLabel, blockSize: nat, p': Pool, bp: int, pending: set<int>, ideal: map<Id, Data>)
    requires Coherent(p, pending, ideal) && LruFree(p) && g.id.dev != NO_DEV
    requires GetStep(p, g, blockSize, p', bp) && bp != NULL
    requires g.done == |g.queue| && g.read.r == blockSize && (g.vmcache || p.vm == map[])
    ensures 0 <= bp < |p.blocks| == |p'.blocks|
    ensures Coherent(p', if g.mode == NO_READ && !Held(p.blocks, g.id) then pending + {bp} else pending, ideal)
    ensures g.mode != PREFETCH || ValidAt(p', bp) ==> p'.blocks[bp].Name() == g.id
    ensures (g.mode == NORMAL || (g.mode == PREFETCH && ValidAt(p', bp))) && bp !in pending ==>
              p'.blocks[bp].data == Lookup(ideal, g.id)
  {
    if Held(p.blocks, g.id) {
      OnlyCounts(p, p', pending, ideal);
    } else {
      assert bp in p.lru;
      VictimEvicted(p, bp, g, pending, ideal);
      RefillCoherent(g.flushed, bp, g, blockSize, p', pending, ideal);
    }
  }

  // ---------------------------------------------------------------- what a get delivers

  /** VM has the block wanted, also after the flush of the victim: one that fails makes it forget. */
  predicate InVm(p: Pool, g: GetLabel) {
    g.vmcache && g.done == |g.queue| && g.id in p.vm
  }

  /** The flush of the victim may empty VM, but reads no other block. */
  lemma FlushLeaves(p: Pool, v: int, g: GetLabel)
    requires 0 <= v < |p.blocks| && !Held(p.blocks, g.id) && g.id.dev != NO_DEV
    requires FlushedVictim(WithMemory(p, v).(lru := Without(p.lru, v)), v, g.queue, g.done, g.flushed)
    ensures |g.flushed.blocks| == |p.blocks| && g.flushed.blocks[v].Name() != g.id
    ensures g.flushed.vm == if g.done == |g.queue| then p.vm else map[]
    ensures g.flushed.blocks[v].count == p.blocks[v].count && g.flushed.blocks[v].data == p.blocks[v].data
    ensures g.done == |g.queue| ==> g.flushed.blocks[v].Name() == p.blocks[v].Name()
    ensures Lookup(g.flushed.disk, g.id) == Lookup(p.disk, g.id)
  {
    var p1 := WithMemory(p, v).(lru := Without(p.lru, v));
    MemoryUnheld(p, v, g.id);
    assert p1.blocks[v].Name() != g.id;
    if p.blocks[v].dev != NO_DEV && p.blocks[v].dirty {
      Unnamed(p1, p.blocks[v].dev, g.queue, g.id);
      FlushNames(p1, p.blocks[v].dev, g.queue, g.done, g.flushed);
      if g.done == |g.queue| {
        FlushCleans(p1, p.blocks[v].dev, g.queue, g.flushed);
      }
    }
  }

  lemma FetchDelivers(f: Pool, v: int, yieldid: Option<Id>, g: GetLabel, blockSize: nat, p': Pool)
    requires 0 <= v < |f.blocks| && g.id.dev != NO_DEV && yieldid != Some(g.id)
    requires p' == Fetched(Renamed(f, v, g.id), v, g.mode, g.vmcache, yieldid, g.accepted, g.read, blockSize)
    ensures |p'.blocks| == |f.blocks| && p'.blocks[v].count == f.blocks[v].count + 1 && !p'.blocks[v].dirty
    ensures var served := g.vmcache && g.id in f.vm;
            && (ValidAt(p', v) <==> g.mode == NO_READ || served || (g.mode == NORMAL && g.read.r == blockSize))
            && (ValidAt(p', v) ==> p'.blocks[v].Name() == g.id)
            && (g.mode != NO_READ && served ==> p'.blocks[v].data == f.vm[g.id])
            && (g.mode == NORMAL && !served && g.read.r == blockSize ==> p'.blocks[v].data == Lookup(f.disk, g.id))
  {
  }

  /** Whatever the devices answer, a buffer that is renamed to a block holds it validly after the get
      exactly if VM had it, the disk delivered it, or it is going to be overwritten. Its contents are
      VM's if VM had it, else the disk's. */
  lemma MissDelivers(p: Pool, g: GetLabel, blockSize: nat, p': Pool, bp: int)
    requires LruFree(p) && MissStep(p, g, blockSize, p', bp) && bp != NULL
    requires !Held(p.blocks, g.id) && g.id.dev != NO_DEV
    ensures 0 <= bp < |p.blocks| == |p'.blocks| && p'.blocks[bp].count == 1 && !p'.blocks[bp].dirty
    ensures ValidAt(p', bp) <==> g.mode == NO_READ || InVm(p, g) || (g.mode == NORMAL && g.read.r == blockSize)
    ensures ValidAt(p', bp) ==> p'.blocks[bp].Name() == g.id
    ensures g.mode != NO_READ && InVm(p, g) ==> p'.blocks[bp].data == p.vm[g.id]
    ensures g.mode == NORMAL && !InVm(p, g) && g.read.r == blockSize ==> p'.blocks[bp].data == Lookup(p.disk, g.id)
  {
    assert bp in p.lru;
    FlushLeaves(p, bp, g);
    FetchDelivers(g.flushed, bp, YieldName(p, bp, g.flushed), g, blockSize, p');
  }

  /** The disk is read for a block exactly if it is wanted and neither level has it. */
  lemma ReadsExactly(p: Pool, g: GetLabel, blockSize: nat, p': Pool, bp: int)
    requires LruFree(p) && MissStep(p, g, blockSize, p', bp) && bp != NULL
    requires !Held(p.blocks, g.id) && g.id.dev != NO_DEV
    ensures 0 <= bp < |p.blocks| == |g.flushed.blocks|
    ensures MissReads(p, bp, g) <==> g.mode == NORMAL && !InVm(p, g)
  {
    assert bp in p.lru;
    FlushLeaves(p, bp, g);
  }

  lemma FetchYields(f: Pool, v: int, yieldid: Option<Id>, g: GetLabel, blockSize: nat, p': Pool, id: Id)
    requires 0 <= v < |f.blocks| && g.id.dev != NO_DEV && yieldid != Some(g.id)
    requires p' == Fetched(Renamed(f, v, g.id), v, g.mode, g.vmcache, yieldid, g.accepted, g.read, blockSize)
    ensures var gains := g.vmcache && g.mode != NO_READ && g.accepted && yieldid == Some(id);
            && (id in p'.vm <==> (id in f.vm && !(g.vmcache && id == g.id)) || gains)
            && (id in p'.vm ==> p'.vm[id] == if id in f.vm then f.vm[id] else f.blocks[v].data)
  {
  }

  /** Whether the victim goes to VM. */
  predicate Yields(p: Pool, v: int, g: GetLabel)
    requires 0 <= v < |p.blocks|
  {
    g.vmcache && g.mode != NO_READ && g.accepted && p.blocks[v].dev != NO_DEV
  }

  /** After a complete flush VM has lost the block wanted, and gained the victim's if the call was made
      and accepted; nothing else. */
  lemma MissYields(p: Pool, g: GetLabel, blockSize: nat, p': Pool, bp: int, id: Id)
    requires LruFree(p) && MissStep(p, g, blockSize, p', bp) && bp != NULL && g.done == |g.queue|
    requires !Held(p.blocks, g.id) && g.id.dev != NO_DEV
    ensures 0 <= bp < |p.blocks|
    ensures id in p'.vm <==>
              (id in p.vm && !(g.vmcache && id == g.id)) || (Yields(p, bp, g) && id == p.blocks[bp].Name())
    ensures id in p'.vm ==> p'.vm[id] == if id in p.vm then p.vm[id] else p.blocks[bp].data
  {
    assert bp in p.lru;
    FlushLeaves(p, bp, g);
    FetchYields(g.flushed, bp, YieldName(p, bp, g.flushed), g, blockSize, p', id);
  }

  /** A PREFETCH get returns a valid buffer exactly if one of the two levels had the block; then it is
      that block, with the contents a reader must see. */
  lemma PrefetchExactly(p: Pool, g: GetLabel, blockSize: nat, p': Pool, bp: int, pending: set<int>,
                        ideal: map<Id, Data>)
    requires Coherent(p, pending, ideal) && LruFree(p) && g.id.dev != NO_DEV
    requires GetStep(p, g, blockSize, p', bp) && bp != NULL && g.mode == PREFETCH
    requires g.done == |g.queue| && g.read.r == blockSize && (g.vmcache || p.vm == map[])
    ensures ValidAt(p', bp) <==> Held(p.blocks, g.id) || (g.vmcache && g.id in p.vm)
    ensures ValidAt(p', bp) ==> p'.blocks[bp].Name() == g.id
    ensures ValidAt(p', bp) && bp !in pending ==> p'.blocks[bp].data == Lookup(ideal, g.id)
    ensures Held(p'.blocks, g.id) <==> ValidAt(p', bp)
  {
    GetCoherent(p, g, blockSize, p', bp, pending, ideal);
    if !Held(p.blocks, g.id) {
      MissDelivers(p, g, blockSize, p', bp);
      MissHolds(p, g, blockSize, p', bp, pending, ideal);
    }
  }

  /** Only the victim can hold the block after a miss. */
  lemma MissHolds(p: Pool, g: GetLabel, blockSize: nat, p': Pool, bp: int, pending: set<int>, ideal: map<Id, Data>)
    requires Coherent(p, pending, ideal) && LruFree(p) && g.id.dev != NO_DEV
    requires MissStep(p, g, blockSize, p', bp) && bp != NULL && !Held(p.blocks, g.id)
    requires g.done == |g.queue| && g.read.r == blockSize
    ensures 0 <= bp < |p'.blocks| && (Held(p'.blocks, g.id) ==> p'.blocks[bp].Name() == g.id)
  {
    assert bp in p.lru;
    VictimEvicted(p, bp, g, pending, ideal);
    RefilledShape(g.flushed, bp, g, blockSize, p');
    HeldElsewhere(g.flushed, bp, p', g.id);
  }
}
