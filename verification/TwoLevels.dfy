/** The block cache and VM together: the buffers in a process's pages, the yielded blocks in VM's, and
    runs in which other processes make requests of their own. */
module TwoLevels {
  import opened BufferPool
  import opened Chains
  import opened CacheSpec
  import opened CacheCoherence
  import opened VmCalls
  import opened YieldInterface
  import opened YieldMemory
  import opened YieldedBlocks
  import C = CacheRuns
  import Y = YieldRuns

  /** Buffer i of process `owner` has the n pages from at[i] on. */
  datatype Layout = Layout(owner: int, pages: nat, at: seq<nat>)

  ghost predicate LayoutOk(lay: Layout) {
    && lay.pages >= 1
    && forall i, j :: 0 <= i < j < |lay.at| ==> lay.at[i] + lay.pages <= lay.at[j] || lay.at[j] + lay.pages <= lay.at[i]
  }

  /** The pages of buffer i are its own, and hold `data`. */
  ghost predicate Holds(m: Mem, lay: Layout, i: nat, data: Data)
    requires i < |lay.at|
  {
    && OwnPages(m, lay.owner, lay.at[i], lay.pages)
    && Contents(m, lay.owner, lay.at[i], lay.pages) == Bytes(data, lay.pages)
  }

  /** Every buffer that has memory holds in its pages what the cache says it holds. */
  ghost predicate BuffersHold(blocks: seq<Block>, m: Mem, lay: Layout) {
    && |lay.at| == |blocks|
    && forall i {:trigger blocks[i]} :: 0 <= i < |blocks| && blocks[i].hasData ==> Holds(m, lay, i, blocks[i].data)
  }

  // ---------------------------------------------------------------- steps on memory

  lemma HoldsKept(m: Mem, m': Mem, lay: Layout, i: nat, data: Data)
    requires i < |lay.at| && Holds(m, lay, i, data)
    requires forall k {:trigger Addr(lay.owner, k)} :: lay.at[i] <= k < lay.at[i] + lay.pages ==>
               KeptPage(m, m', Addr(lay.owner, k))
    ensures Holds(m', lay, i, data)
  {
    var owner, v, n := lay.owner, lay.at[i], lay.pages;
    forall k | v <= k < v + n
      ensures Mapped(m', owner, k, 1) && BlockAt(m', owner, k) == BlockAt(m, owner, k)
      ensures PageOf(m', BlockAt(m', owner, k).phys) == PageOf(m, BlockAt(m, owner, k).phys)
    {
      assert KeptPage(m, m', Addr(owner, k));
    }
    forall j, k | v <= j < k < v + n
      ensures !Shared(m'.space, Addr(owner, j), Addr(owner, k))
    {
      assert KeptPage(m, m', Addr(owner, j)) && KeptPage(m, m', Addr(owner, k));
      assert !Shared(m.space, Addr(owner, j), Addr(owner, k));
    }
    assert Contents(m', owner, v, n) == Contents(m, owner, v, n);
  }

  /** What leaves all pages but those of buffer i alone leaves the other buffers alone. */
  lemma OtherBuffers(blocks: seq<Block>, m: Mem, m': Mem, lay: Layout, i: nat, j: nat)
    requires LayoutOk(lay) && BuffersHold(blocks, m, lay) && i < |blocks| && j < |blocks| && i != j && blocks[j].hasData
    requires PagesKept(m, m', lay.owner, lay.at[i], lay.pages)
    ensures Holds(m', lay, j, blocks[j].data)
  {
    forall k {:trigger Addr(lay.owner, k)} | lay.at[j] <= k < lay.at[j] + lay.pages
      ensures KeptPage(m, m', Addr(lay.owner, k))
    {
      assert Addr(lay.owner, k) in m.space && !Among(Addr(lay.owner, k), lay.owner, lay.at[i], lay.pages);
    }
    HoldsKept(m, m', lay, j, blocks[j].data);
  }

  /** A process stores `data` to consecutive pages, one after the other. */
  function Filled(m: Mem, owner: int, v: nat, data: seq<Page>): Mem
    decreases |data|
  {
    if data == [] then m else Filled(Y.Touched(m, Addr(owner, v), data[0]), owner, v + 1, data[1..])
  }

  /** The first of several own pages touched: the others are still own pages. */
  lemma FirstTouched(m: Mem, owner: int, v: nat, n: nat, page: Page, m1: Mem)
    requires n > 0 && OwnPages(m, owner, v, n) && m1 == Y.Touched(m, Addr(owner, v), page)
    ensures m1 == m.(contents := m1.contents) && OwnPages(m1, owner, v + 1, n - 1)
    ensures PageOf(m1, BlockAt(m, owner, v).phys) == page
    ensures forall p :: p != BlockAt(m, owner, v).phys ==> PageOf(m1, p) == PageOf(m, p)
  {
    assert Addr(owner, v) in m.space;
    forall k | v + 1 <= k < v + n
      ensures Mapped(m1, owner, k, 1) && BlockAt(m1, owner, k) == BlockAt(m, owner, k)
    {
      assert Addr(owner, k) in m.space;
    }
    forall j, k | v + 1 <= j < k < v + n
      ensures !Shared(m1.space, Addr(owner, j), Addr(owner, k))
    {
      assert !Shared(m.space, Addr(owner, j), Addr(owner, k));
    }
  }

  /** They are in other frames. */
  lemma FirstFrame(m: Mem, owner: int, v: nat, n: nat, m1: Mem)
    requires n > 0 && OwnPages(m, owner, v, n) && Injective(m) && m1 == m.(contents := m1.contents)
    ensures Mapped(m1, owner, v + 1, n - 1) && BlockAt(m, owner, v).phys !in OldFrames(m1, owner, v + 1, n - 1)
    ensures OldFrames(m, owner, v, n) == OldFrames(m1, owner, v + 1, n - 1) + {BlockAt(m, owner, v).phys}
  {
    assert Addr(owner, v) in m.space;
    forall k | v + 1 <= k < v + n
      ensures Mapped(m1, owner, k, 1) && BlockAt(m1, owner, k) == BlockAt(m, owner, k)
      ensures BlockAt(m, owner, k).phys != BlockAt(m, owner, v).phys
    {
      OtherFrame(m, owner, v, n, m1, k);
    }
  }

  lemma OtherFrame(m: Mem, owner: int, v: nat, n: nat, m1: Mem, k: nat)
    requires OwnPages(m, owner, v, n) && Injective(m) && m1 == m.(contents := m1.contents) && v + 1 <= k < v + n
    ensures Mapped(m, owner, v, 1) && Mapped(m, owner, k, 1) && Mapped(m1, owner, k, 1)
    ensures BlockAt(m1, owner, k) == BlockAt(m, owner, k) && BlockAt(m, owner, k).phys != BlockAt(m, owner, v).phys
  {
    assert Addr(owner, v) in m.space && Addr(owner, k) in m.space && !Shared(m.space, Addr(owner, v), Addr(owner, k));
  }

  /** The pages from v on hold `data`, and nothing else has changed. */
  ghost predicate FilledIn(m: Mem, m': Mem, owner: int, v: nat, data: seq<Page>)
    requires Mapped(m, owner, v, |data|)
  {
    && m' == m.(contents := m'.contents)
    && (forall k {:trigger BlockAt(m, owner, k)} :: v <= k < v + |data| ==>
          PageOf(m', BlockAt(m, owner, k).phys) == data[k - v])
    && (forall p :: p !in OldFrames(m, owner, v, |data|) ==> PageOf(m', p) == PageOf(m, p))
  }

  lemma {:induction false} FilledPages(m: Mem, owner: int, v: nat, data: seq<Page>, m': Mem)
    requires OwnPages(m, owner, v, |data|) && Injective(m) && m' == Filled(m, owner, v, data)
    ensures FilledIn(m, m', owner, v, data)
    decreases |data|
  {
    if data != [] {
      var m1 := Y.Touched(m, Addr(owner, v), data[0]);
      FirstTouched(m, owner, v, |data|, data[0], m1);
      FirstFrame(m, owner, v, |data|, m1);
      FilledPages(m1, owner, v + 1, data[1..], m');
      FilledFrom(m, m1, m', owner, v, data);
    }
  }

  lemma FilledFrom(m: Mem, m1: Mem, m': Mem, owner: int, v: nat, data: seq<Page>)
    requires data != [] && OwnPages(m, owner, v, |data|) && m1 == m.(contents := m1.contents)
    requires Mapped(m1, owner, v + 1, |data| - 1) && FilledIn(m1, m', owner, v + 1, data[1..])
    requires PageOf(m1, BlockAt(m, owner, v).phys) == data[0]
    requires forall p :: p != BlockAt(m, owner, v).phys ==> PageOf(m1, p) == PageOf(m, p)
    requires BlockAt(m, owner, v).phys !in OldFrames(m1, owner, v + 1, |data| - 1)
    requires OldFrames(m, owner, v, |data|) == OldFrames(m1, owner, v + 1, |data| - 1) + {BlockAt(m, owner, v).phys}
    ensures FilledIn(m, m', owner, v, data)
  {
    forall k {:trigger BlockAt(m, owner, k)} | v <= k < v + |data|
      ensures PageOf(m', BlockAt(m, owner, k).phys) == data[k - v]
    {
      if k > v {
        assert BlockAt(m1, owner, k) == BlockAt(m, owner, k) && data[1..][k - (v + 1)] == data[k - v];
      }
    }
  }

  /** Filling a buffer gives it the contents, and changes no other page and no yielded block. */
  lemma FillHolds(s: Y.State, universe: set<nat>, lay: Layout, i: nat, before: Data, data: Data, m': Mem)
    requires Y.Inv(s, universe) && i < |lay.at| && Holds(s.m, lay, i, before)
    requires m' == Filled(s.m, lay.owner, lay.at[i], Bytes(data, lay.pages))
    ensures Y.Inv(s.(m := m'), universe) && Holds(m', lay, i, data)
    ensures PagesKept(s.m, m', lay.owner, lay.at[i], lay.pages) && NodesKept(s.nodes, s.m, m')
  {
    var m, owner, v, n := s.m, lay.owner, lay.at[i], lay.pages;
    FilledPages(m, owner, v, Bytes(data, n), m');
    FilledOwn(m, owner, v, n, m', Bytes(data, n));
    FilledOthers(s.nodes, m, universe, owner, v, n, m');
    SameOwners(s, universe, m');
  }

  lemma SameOwners(s: Y.State, universe: set<nat>, m': Mem)
    requires Y.Inv(s, universe) && m' == s.m.(contents := m'.contents)
    ensures Y.Inv(s.(m := m'), universe)
  {
    SameFrames(s.m, m', 0, 0, 0);
  }

  lemma FilledOwn(m: Mem, owner: int, v: nat, n: nat, m': Mem, data: seq<Page>)
    requires OwnPages(m, owner, v, n) && m' == m.(contents := m'.contents) && |data| == n
    requires forall k {:trigger BlockAt(m, owner, k)} :: v <= k < v + n ==>
               PageOf(m', BlockAt(m, owner, k).phys) == data[k - v]
    ensures OwnPages(m', owner, v, n) && Contents(m', owner, v, n) == data
  {
    SameFrames(m, m', owner, v, n);
    forall k | 0 <= k < n
      ensures Contents(m', owner, v, n)[k] == data[k]
    {
      assert BlockAt(m', owner, v + k) == BlockAt(m, owner, v + k);
    }
  }

  lemma FilledOthers(nodes: seq<Node>, m: Mem, universe: set<nat>, owner: int, v: nat, n: nat, m': Mem)
    requires MemOk(m) && OwnedOnce(nodes, m, universe) && OwnPages(m, owner, v, n) && m' == m.(contents := m'.contents)
    requires forall p :: p !in OldFrames(m, owner, v, n) ==> PageOf(m', p) == PageOf(m, p)
    ensures PagesKept(m, m', owner, v, n) && NodesKept(nodes, m, m')
  {
    forall a | a in m.space && !Among(a, owner, v, n)
      ensures KeptPage(m, m', a)
    {
      OtherBlock(m, owner, v, n, a);
    }
    forall p | p in OldFrames(m, owner, v, n)
      ensures InBlock(m, p)
    {
    }
  }

  /** The phys block and the frame that a new page gets. */
  datatype Frame = Frame(ref: nat, frame: nat)

  /** Consecutive new pages, cleared. */
  function MapAll(m: Mem, owner: int, v: nat, frames: seq<Frame>): Mem
    decreases |frames|
  {
    if frames == [] then m else MapAll(NextMapped(m, owner, v, frames[0]), owner, v + 1, frames[1..])
  }

  function NextMapped(m: Mem, owner: int, v: nat, f: Frame): Mem {
    Y.PageMapped(m, Addr(owner, v), f.ref, true, f.frame, ZERO_PAGE)
  }

  /** Each of them can be mapped. */
  predicate CanMap(m: Mem, owner: int, v: nat, frames: seq<Frame>)
    decreases |frames|
  {
    frames != [] ==>
      && Addr(owner, v) !in m.space && frames[0].ref !in m.blocks && frames[0].frame in m.free
      && CanMap(NextMapped(m, owner, v, frames[0]), owner, v + 1, frames[1..])
  }

  ghost predicate FreshPage(m: Mem, a: Addr) {
    a in m.space && m.space[a].ref in m.blocks && m.blocks[m.space[a].ref].refcount == 1 &&
    PageOf(m, m.blocks[m.space[a].ref].phys) == ZERO_PAGE
  }

  /** Every mapped page is kept, and so are the pages of yielded blocks. */
  ghost predicate AllKept(nodes: seq<Node>, m: Mem, m': Mem) {
    && (forall a {:trigger KeptPage(m, m', a)} :: a in m.space ==> KeptPage(m, m', a))
    && NodesKept(nodes, m, m')
  }

  ghost predicate NodesKept(nodes: seq<Node>, m: Mem, m': Mem) {
    forall p :: InNode(nodes, p) ==> PageOf(m', p) == PageOf(m, p)
  }

  lemma KeptTwice(nodes: seq<Node>, m: Mem, m1: Mem, m2: Mem)
    requires AllKept(nodes, m, m1) && AllKept(nodes, m1, m2)
    ensures AllKept(nodes, m, m2)
  {
    forall a | a in m.space
      ensures KeptPage(m, m2, a)
    {
      assert KeptPage(m, m1, a) && KeptPage(m1, m2, a);
    }
  }

  ghost predicate FreshPages(m: Mem, owner: int, v: nat, n: nat) {
    forall k {:trigger Addr(owner, k)} :: v <= k < v + n ==> FreshPage(m, Addr(owner, k))
  }

  lemma FreshFirst(m: Mem, m': Mem, nodes: seq<Node>, owner: int, v: nat, n: nat)
    requires FreshPage(m, Addr(owner, v)) && AllKept(nodes, m, m') && FreshPages(m', owner, v + 1, n)
    ensures FreshPages(m', owner, v, n + 1)
  {
    assert KeptPage(m, m', Addr(owner, v));
  }

  lemma NextKept(s: Y.State, universe: set<nat>, owner: int, v: nat, f: Frame, m1: Mem)
    requires Y.Inv(s, universe) && CanMap(s.m, owner, v, [f]) && m1 == NextMapped(s.m, owner, v, f)
    ensures Y.Inv(s.(m := m1), universe) && FreshPage(m1, Addr(owner, v)) && AllKept(s.nodes, s.m, m1)
  {
    Y.PageMappedInv(s, Addr(owner, v), f.ref, true, f.frame, ZERO_PAGE, universe);
    forall a | a in s.m.space
      ensures KeptPage(s.m, m1, a)
    {
      assert InBlock(s.m, s.m.blocks[s.m.space[a].ref].phys);
    }
  }

  lemma NothingKept(nodes: seq<Node>, m: Mem)
    requires MemOk(m)
    ensures AllKept(nodes, m, m)
  {
  }

  lemma {:induction false} MapAllPages(s: Y.State, universe: set<nat>, owner: int, v: nat, frames: seq<Frame>, m': Mem)
    requires Y.Inv(s, universe) && CanMap(s.m, owner, v, frames) && m' == MapAll(s.m, owner, v, frames)
    ensures Y.Inv(s.(m := m'), universe) && AllKept(s.nodes, s.m, m') && FreshPages(m', owner, v, |frames|)
    decreases |frames|
  {
    if frames == [] {
      assert s.(m := m') == s;
      NothingKept(s.nodes, m');
    } else {
      var m1 := NextMapped(s.m, owner, v, frames[0]);
      NextKept(s, universe, owner, v, frames[0], m1);
      MapAllPages(s.(m := m1), universe, owner, v + 1, frames[1..], m');
      FreshFirst(m1, m', s.nodes, owner, v, |frames| - 1);
      KeptTwice(s.nodes, s.m, m1, m');
    }
  }

  /** A buffer that gets memory holds cleared pages of its own. */
  lemma MapHolds(s: Y.State, universe: set<nat>, lay: Layout, i: nat, frames: seq<Frame>, m': Mem)
    requires Y.Inv(s, universe) && i < |lay.at| && |frames| == lay.pages
    requires CanMap(s.m, lay.owner, lay.at[i], frames) && m' == MapAll(s.m, lay.owner, lay.at[i], frames)
    ensures Y.Inv(s.(m := m'), universe) && Holds(m', lay, i, BLANK)
    ensures PagesKept(s.m, m', lay.owner, lay.at[i], lay.pages) && NodesKept(s.nodes, s.m, m')
  {
    var owner, v, n := lay.owner, lay.at[i], lay.pages;
    MapAllPages(s, universe, owner, v, frames, m');
    forall k | v <= k < v + n
      ensures Mapped(m', owner, k, 1) && BlockAt(m', owner, k).refcount == 1
      ensures PageOf(m', BlockAt(m', owner, k).phys) == ZERO_PAGE
    {
      assert FreshPage(m', Addr(owner, k));
    }
    OwnAll(m', owner, v, n);
    assert Contents(m', owner, v, n) == Clear(n);
  }

  // ---------------------------------------------------------------- the two levels

  datatype Joint = Joint(c: C.State, v: Y.State)

  /** A step of the cache, with the frames for a victim without memory, the answers of VM's allocators
      and of VM to the call, and VM as the call leaves it; or a request that is not the cache's. */
  datatype Label =
    | Cache(op: C.Op, frames: seq<Frame>, slabOk: bool, grant: Option<nat>, r: Status, called: Y.State, maxBytes: nat)
    | Other(q: Y.Request, r: Status)

  /** A buffer without memory is nameless and blank, and not in use. */
  ghost predicate Memoryless(blocks: seq<Block>) {
    forall i {:trigger blocks[i]} :: 0 <= i < |blocks| && !blocks[i].hasData ==>
      blocks[i].data == BLANK && blocks[i].dev == NO_DEV && blocks[i].count == 0
  }

  ghost predicate NamesFit(blocks: seq<Block>) {
    forall i {:trigger blocks[i]} :: 0 <= i < |blocks| && blocks[i].dev != NO_DEV ==> Fits(blocks[i].Name())
  }

  /** VM's blocks and the cache's pages are what the cache takes them for. */
  ghost predicate Joined(j: Joint, lay: Layout, universe: set<nat>) {
    && Mirrors(j.v, universe, lay.owner, lay.pages, j.c.pool.vm) && BuffersHold(j.c.pool.blocks, j.v.m, lay)
    && Memoryless(j.c.pool.blocks) && NamesFit(j.c.pool.blocks)
  }

  predicate BufferPage(lay: Layout, a: Addr) {
    exists i :: 0 <= i < |lay.at| && Among(a, lay.owner, lay.at[i], lay.pages)
  }

  /** A request of another process, or what any process does to pages that are no buffer's. */
  predicate Outside(q: Y.Request, lay: Layout) {
    Foreign(q, lay.owner) &&
    match q
    case Touch(a, _) => !BufferPage(lay, a)
    case MapPage(a, _, _, _, _) => !BufferPage(lay, a)
    case UnmapPage(a) => !BufferPage(lay, a)
    case _ => true
  }

  function FillBuffer(v: Y.State, lay: Layout, i: nat, data: Data): Y.State
    requires i < |lay.at|
  {
    v.(m := Filled(v.m, lay.owner, lay.at[i], Bytes(data, lay.pages)))
  }

  /** The victim's memory: there, or new. */
  predicate HasPages(v: Y.State, lay: Layout, blk: Block, i: nat, frames: seq<Frame>, a: Y.State)
    requires i < |lay.at|
  {
    if blk.hasData then a == v
    else |frames| == lay.pages && CanMap(v.m, lay.owner, lay.at[i], frames)
         && a == v.(m := MapAll(v.m, lay.owner, lay.at[i], frames))
  }

  /** The name under which a valid victim is yielded. */
  function YieldId(blk: Block): Option<Id> {
    if blk.dev != NO_DEV then Some(blk.Name()) else None
  }

  function GetCall(lay: Layout, blk: Block, i: nat, id: Id, slabOk: bool, grant: Option<nat>): Y.Request
    requires i < |lay.at|
  {
    Call(lay.owner, YieldId(blk), Some(id), lay.at[i] * VM_PAGE_SIZE, lay.pages, slabOk, grant)
  }

  /** What a miss asks of VM, after the victim `blk` has its memory. */
  ghost predicate Asked(a: Y.State, lay: Layout, blk: Block, i: nat, g: GetLabel, l: Label)
    requires l.Cache? && i < |lay.at|
  {
    if !g.vmcache then l.called == a
    else if g.mode == NO_READ then Y.Step(a, Y.Forget(lay.owner, BlockKey(lay.owner, g.id).id), l.r, l.called)
    else
      var q := GetCall(lay, blk, i, g.id, l.slabOk, l.grant);
      Y.Step(a, q, l.r, l.called) && g.accepted == Y.Accepts(a.m, q)
  }

  /** VM delivered the block, or it will not be read. */
  predicate Served(g: GetLabel, l: Label)
    requires l.Cache?
  {
    g.mode != NORMAL || (g.vmcache && l.r == OK)
  }

  ghost predicate VmGet(p: Pool, v: Y.State, lay: Layout, g: GetLabel, bp: int, l: Label, v': Y.State)
    requires l.Cache?
  {
    if Held(p.blocks, g.id) then v' == v
    else
      && 0 <= bp < |p.blocks| == |lay.at| && Fits(g.id)
      && (exists a :: HasPages(v, lay, p.blocks[bp], bp, l.frames, a) && Asked(a, lay, p.blocks[bp], bp, g, l))
      && v' == if Served(g, l) then l.called else FillBuffer(l.called, lay, bp, Lookup(g.flushed.disk, g.id))
  }

  /** A scattered read leaves in the buffers of q what it gathered. */
  function FillAll(v: Y.State, lay: Layout, q: seq<int>, blocks: seq<Block>): Y.State
    requires forall k :: 0 <= k < |q| ==> 0 <= q[k] < |blocks| == |lay.at|
    decreases |q|
  {
    if q == [] then v else FillAll(FillBuffer(v, lay, q[0], blocks[q[0]].data), lay, q[1..], blocks)
  }

  ghost predicate VmReadAhead(p: Pool, v: Y.State, lay: Layout, dev: nat, q: seq<int>, done: nat, blocks: seq<Block>,
                              l: Label, v': Y.State)
    requires l.Cache?
  {
    && |blocks| == |lay.at| == |p.blocks|
    && (forall k :: 0 <= k < |q| ==> 0 <= q[k] < |blocks|)
    && (forall k :: 0 <= k < |q| ==> Fits(Id(dev, p.blocks[q[k]].blocknr)))
    && l.called == FillAll(v, lay, q, blocks)
    && if done == 0 && q != [] then Y.Step(l.called, Y.ForgetAll(lay.owner), l.r, v') else v' == l.called
  }

  /** What a step of the cache does to VM and to the buffers' pages. */
  ghost predicate VmPart(p: Pool, v: Y.State, lay: Layout, l: Label, v': Y.State)
    requires l.Cache?
  {
    match l.op
    case Get(g, bp) => VmGet(p, v, lay, g, bp, l, v')
    case Put(_, _) => v' == v
    case Write(bp, data) => 0 <= bp < |lay.at| && v' == FillBuffer(v, lay, bp, data)
    case Flush(_, _) => v' == v
    case Invalidate(_) => Y.Step(v, Y.ForgetAll(lay.owner), l.r, v')
    case ReadAhead(dev, q, done, gathered) => VmReadAhead(p, v, lay, dev, q, done, gathered, l, v')
    case Reclaim(ids) =>
      Y.Step(v, Y.Reclaim(l.maxBytes), l.r, v') && ids == Reclaimed(v.nodes, l.maxBytes, lay.owner, p.vm)
  }

  ghost predicate Step(j: Joint, l: Label, lay: Layout, blockSize: nat, j': Joint) {
    match l
    case Cache(op, _, _, _, _, _, _) => C.Step(j.c, op, blockSize, j'.c) && VmPart(j.c.pool, j.v, lay, l, j'.v)
    case Other(q, r) => j'.c == j.c && Outside(q, lay) && !Y.Stops(j.v, q) && Y.Step(j.v, q, r, j'.v)
  }

  // ---------------------------------------------------------------- every step keeps them joined

  /** A change of memory that spares VM's pages leaves what VM holds. */
  lemma SameStore(s: Y.State, universe: set<nat>, lay: Layout, vm: map<Id, Data>, m': Mem)
    requires Mirrors(s, universe, lay.owner, lay.pages, vm) && Y.Inv(s.(m := m'), universe) &&
              NodesKept(s.nodes, s.m, m')
    ensures Mirrors(s.(m := m'), universe, lay.owner, lay.pages, vm)
  {
    var store :| StoreIs(s.nodes, s.m, store) && Stands(vm, store, lay.owner, lay.pages);
    StoreKept(s.nodes, s.nodes, s.m, m', store, store);
    StoreMirrors(s.(m := m'), universe, lay.owner, lay.pages, vm, store);
  }

  /** Same contents in the same buffers. */
  predicate SameContents(blocks: seq<Block>, blocks': seq<Block>) {
    |blocks'| == |blocks| &&
    forall i {:trigger blocks'[i]} :: 0 <= i < |blocks| ==>
      blocks'[i].data == blocks[i].data && blocks'[i].hasData == blocks[i].hasData
  }

  predicate SameButOne(blocks: seq<Block>, blocks': seq<Block>, i: nat) {
    |blocks'| == |blocks| &&
    forall j {:trigger blocks'[j]} :: 0 <= j < |blocks| && j != i ==>
      blocks'[j].data == blocks[j].data && blocks'[j].hasData == blocks[j].hasData
  }

  /** One buffer gets other contents, in its own pages. */
  lemma OneReplaced(blocks: seq<Block>, blocks': seq<Block>, m: Mem, m': Mem, lay: Layout, i: nat)
    requires LayoutOk(lay) && BuffersHold(blocks, m, lay) && i < |blocks| && SameButOne(blocks, blocks', i)
    requires PagesKept(m, m', lay.owner, lay.at[i], lay.pages) && Holds(m', lay, i, blocks'[i].data)
    ensures BuffersHold(blocks', m', lay)
  {
    forall j {:trigger blocks'[j]} | 0 <= j < |blocks'| && blocks'[j].hasData
      ensures Holds(m', lay, j, blocks'[j].data)
    {
      if j != i {
        OtherBuffers(blocks, m, m', lay, i, j);
      }
    }
  }

  /** The page is mapped, and its block is mapped nowhere else. */
  predicate OncePage(m: Mem, a: Addr) {
    a in m.space && m.space[a].ref in m.blocks && m.blocks[m.space[a].ref].refcount == 1
  }

  /** All buffers keep their contents and their pages. */
  lemma NoneReplaced(blocks: seq<Block>, blocks': seq<Block>, m: Mem, m': Mem, lay: Layout)
    requires BuffersHold(blocks, m, lay) && SameContents(blocks, blocks')
    requires MemOk(m)
    requires forall a {:trigger KeptPage(m, m', a)} :: OncePage(m, a) && BufferPage(lay, a) ==> KeptPage(m, m', a)
    ensures BuffersHold(blocks', m', lay)
  {
    forall j {:trigger blocks'[j]} | 0 <= j < |blocks'| && blocks'[j].hasData
      ensures Holds(m', lay, j, blocks'[j].data)
    {
      assert Holds(m, lay, j, blocks[j].data);
      forall k {:trigger Addr(lay.owner, k)} | lay.at[j] <= k < lay.at[j] + lay.pages
        ensures KeptPage(m, m', Addr(lay.owner, k))
      {
        assert Among(Addr(lay.owner, k), lay.owner, lay.at[j], lay.pages);
        assert OncePage(m, Addr(lay.owner, k)) by {
          assert BlockAt(m, lay.owner, k).refcount == 1;
        }
      }
      HoldsKept(m, m', lay, j, blocks[j].data);
    }
  }

  lemma FillJoined(v: Y.State, universe: set<nat>, lay: Layout, vm: map<Id, Data>, i: nat, before: Data, data: Data,
                   v': Y.State)
    requires Mirrors(v, universe, lay.owner, lay.pages, vm) && i < |lay.at| && Holds(v.m, lay, i, before)
    requires v' == FillBuffer(v, lay, i, data)
    ensures Mirrors(v', universe, lay.owner, lay.pages, vm) && Holds(v'.m, lay, i, data)
    ensures PagesKept(v.m, v'.m, lay.owner, lay.at[i], lay.pages)
  {
    FillHolds(v, universe, lay, i, before, data, v'.m);
    SameStore(v, universe, lay, vm, v'.m);
  }

  lemma PagesJoined(v: Y.State, universe: set<nat>, lay: Layout, vm: map<Id, Data>, blk: Block, i: nat,
                    frames: seq<Frame>, a: Y.State)
    requires Mirrors(v, universe, lay.owner, lay.pages, vm) && i < |lay.at| && HasPages(v, lay, blk, i, frames, a)
    requires if blk.hasData then Holds(v.m, lay, i, blk.data) else blk.data == BLANK
    ensures Mirrors(a, universe, lay.owner, lay.pages, vm) && Holds(a.m, lay, i, blk.data)
    ensures PagesKept(v.m, a.m, lay.owner, lay.at[i], lay.pages)
  {
    if blk.hasData {
      NothingKept(v.nodes, v.m);
    } else {
      MapHolds(v, universe, lay, i, frames, a.m);
      SameStore(v, universe, lay, vm, a.m);
    }
  }

  // ---------------------------------------------------------------- a get

  /** What a miss asked of VM comes to, on the cache's side. */
  function GetOutcome(vm: map<Id, Data>, g: GetLabel, blk: Block): YieldGet<Id, Data> {
    if !g.vmcache then YieldGet(vm, blk.data, false)
    else if g.mode == NO_READ then YieldGet(vm - {g.id}, blk.data, false)
    else YieldGetBlock(vm, YieldId(blk), Some(g.id), blk.data, g.accepted, BLANK)
  }

  /** The flush of a victim's device changes nothing but dirt. */
  lemma VictimFlushed(p: Pool, bp: int, g: GetLabel)
    requires 0 <= bp < |p.blocks| && FlushedVictim(p, bp, g.queue, g.done, g.flushed) && g.done == |g.queue|
    ensures |g.flushed.blocks| == |p.blocks| && g.flushed.vm == p.vm
    ensures forall i {:trigger g.flushed.blocks[i]} :: 0 <= i < |p.blocks| ==>
              g.flushed.blocks[i] == p.blocks[i].(dirty := g.flushed.blocks[i].dirty)
  {
    if p.blocks[bp].dev != NO_DEV && p.blocks[bp].dirty {
      FlushCleans(p, p.blocks[bp].dev, g.queue, g.flushed);
    }
  }

  /** A victim `blk`, renamed and filled. */
  lemma RefilledOutcome(f: Pool, v: int, g: GetLabel, blk: Block, blockSize: nat, p': Pool)
    requires 0 <= v < |f.blocks| && g.read.r == blockSize && f.blocks[v] == blk.(dirty := f.blocks[v].dirty)
    requires p' == Fetched(Renamed(f, v, g.id), v, g.mode, g.vmcache, YieldId(blk), g.accepted, g.read, blockSize)
    ensures |p'.blocks| == |f.blocks|
    ensures var y := GetOutcome(f.vm, g, blk);
            && p'.vm == y.store
            && p'.blocks[v].data == if g.mode == NORMAL && !y.ok then Lookup(f.disk, g.id) else y.data
  {
  }

  /** A miss renames and fills the victim as the outcome says, and leaves the other buffers alone. */
  lemma MissFacts(p: Pool, g: GetLabel, blockSize: nat, p': Pool, bp: int)
    requires LruFree(p) && GetStep(p, g, blockSize, p', bp) && bp != NULL && !Held(p.blocks, g.id)
    requires g.done == |g.queue| && g.read.r == blockSize
    ensures 0 <= bp < |p.blocks| == |p'.blocks|
    ensures forall i {:trigger p'.blocks[i]} :: 0 <= i < |p.blocks| && i != bp ==>
              p'.blocks[i] == p.blocks[i].(dirty := p'.blocks[i].dirty)
    ensures p'.blocks[bp].hasData && (p'.blocks[bp].Name() == g.id || p'.blocks[bp].dev == NO_DEV)
    ensures var y := GetOutcome(p.vm, g, p.blocks[bp]);
            && p'.vm == y.store
            && p'.blocks[bp].data == if g.mode == NORMAL && !y.ok then Lookup(g.flushed.disk, g.id) else y.data
  {
    assert bp in p.lru;
    var p1 := WithMemory(p, bp).(lru := Without(p.lru, bp));
    VictimFlushed(p1, bp, g);
    FetchedShape(Renamed(g.flushed, bp, g.id), bp, g.mode, g.vmcache, YieldId(p1.blocks[bp]), g.accepted, g.read,
                 blockSize, p');
    RefilledOutcome(g.flushed, bp, g, p1.blocks[bp], blockSize, p');
  }

  /** The call of a miss does to VM and to the victim's pages what the outcome says. */
  lemma AskedJoined(a: Y.State, universe: set<nat>, lay: Layout, vm: map<Id, Data>, blk: Block, i: nat, g: GetLabel,
                    l: Label, y: YieldGet<Id, Data>)
    requires Mirrors(a, universe, lay.owner, lay.pages, vm) && LayoutOk(lay) && i < |lay.at|
    requires Holds(a.m, lay, i, blk.data)
    requires l.Cache? && Asked(a, lay, blk, i, g, l) && y == GetOutcome(vm, g, blk)
    requires Fits(g.id) && (blk.dev != NO_DEV ==> Fits(blk.Name()))
    ensures Mirrors(l.called, universe, lay.owner, lay.pages, y.store) && Holds(l.called.m, lay, i, y.data)
    ensures PagesKept(a.m, l.called.m, lay.owner, lay.at[i], lay.pages)
    ensures g.vmcache && g.mode != NO_READ ==> (l.r == OK <==> y.ok)
  {
    if !g.vmcache {
      NothingKept(a.nodes, a.m);
    } else if g.mode == NO_READ {
      var q := Y.Forget(lay.owner, BlockKey(lay.owner, g.id).id);
      ForgetMirrors(a, l.r, l.called, universe, lay.owner, lay.pages, vm, g.id);
      NamelessKeeps(a, q, l.r, l.called, universe);
      HoldsStays(a.m, l.called.m, lay, i, blk.data);
    } else {
      CallJoined(a, universe, lay, vm, blk, i, g, l, y);
    }
  }

  /** A request that names no page keeps all of them. */
  lemma NamelessKeeps(s: Y.State, q: Y.Request, r: Status, s': Y.State, universe: set<nat>)
    requires Y.Inv(s, universe) && Y.Step(s, q, r, s') && (q.Reclaim? || q.Forget? || q.ForgetAll?)
    ensures forall a {:trigger KeptPage(s.m, s'.m, a)} :: a in s.m.space ==> KeptPage(s.m, s'.m, a)
  {
    forall a | a in s.m.space
      ensures KeptPage(s.m, s'.m, a)
    {
      Y.StepKeepsPages(s, q, r, s', universe, a);
    }
  }

  lemma HoldsStays(m: Mem, m': Mem, lay: Layout, i: nat, data: Data)
    requires i < |lay.at| && Holds(m, lay, i, data)
    requires forall a {:trigger KeptPage(m, m', a)} :: a in m.space ==> KeptPage(m, m', a)
    ensures Holds(m', lay, i, data)
  {
    forall k {:trigger Addr(lay.owner, k)} | lay.at[i] <= k < lay.at[i] + lay.pages
      ensures KeptPage(m, m', Addr(lay.owner, k))
    {
      assert Addr(lay.owner, k) in m.space;
    }
    HoldsKept(m, m', lay, i, data);
  }

  lemma AddressOfPage(v: nat)
    ensures v * VM_PAGE_SIZE / VM_PAGE_SIZE == v && v * VM_PAGE_SIZE % VM_PAGE_SIZE == 0
  {
  }

  /** The combined call names the pages of the one buffer. */
  lemma CallFits(m: Mem, lay: Layout, blk: Block, i: nat, g: GetLabel, slabOk: bool, grant: Option<nat>, q: Y.Request)
    requires i < |lay.at| && lay.pages >= 1 && q == GetCall(lay, blk, i, g.id, slabOk, grant)
    requires Mapped(m, lay.owner, lay.at[i], lay.pages)
    ensures Y.Fit(m, q) && Y.PageData(m, q) == Contents(m, lay.owner, lay.at[i], lay.pages)
    ensures forall a :: Y.Names(m, q, a) <==> Among(a, lay.owner, lay.at[i], lay.pages)
  {
    AddressOfPage(lay.at[i]);
    AddressOfPage(lay.pages);
  }

  lemma CallJoined(a: Y.State, universe: set<nat>, lay: Layout, vm: map<Id, Data>, blk: Block, i: nat, g: GetLabel,
                   l: Label, y: YieldGet<Id, Data>)
    requires Mirrors(a, universe, lay.owner, lay.pages, vm) && LayoutOk(lay) && i < |lay.at|
    requires Holds(a.m, lay, i, blk.data) && g.vmcache && g.mode != NO_READ
    requires l.Cache? && Asked(a, lay, blk, i, g, l) && y == GetOutcome(vm, g, blk)
    requires Fits(g.id) && (blk.dev != NO_DEV ==> Fits(blk.Name()))
    ensures Mirrors(l.called, universe, lay.owner, lay.pages, y.store) && Holds(l.called.m, lay, i, y.data)
    ensures PagesKept(a.m, l.called.m, lay.owner, lay.at[i], lay.pages) && (l.r == OK <==> y.ok)
  {
    var q := GetCall(lay, blk, i, g.id, l.slabOk, l.grant);
    CallFits(a.m, lay, blk, i, g, l.slabOk, l.grant, q);
    YieldGetMirrors(a, q, l.r, l.called, universe, lay.owner, lay.pages, vm, YieldId(blk), Some(g.id), blk.data, y);
    forall b | b in a.m.space && !Among(b, lay.owner, lay.at[i], lay.pages)
      ensures KeptPage(a.m, l.called.m, b)
    {
      Y.StepKeepsPages(a, q, l.r, l.called, universe, b);
    }
    var w :| Y.CombinedStep(a, q, w, l.r, l.called);
    Y.CombinedCounts(a, q, w, l.r, l.called);
    StillOwn(a.m, l.called.m, lay.owner, lay.at[i], lay.pages);
    CallFits(l.called.m, lay, blk, i, g, l.slabOk, l.grant, q);
  }

  lemma StillOwn(m: Mem, m': Mem, owner: int, v: nat, n: nat)
    requires OwnPages(m, owner, v, n) && MemOk(m') && m'.space == m.space
    requires forall b :: b in m'.blocks ==> b in m.blocks && m'.blocks[b].refcount == m.blocks[b].refcount
    ensures OwnPages(m', owner, v, n)
  {
    forall k | v <= k < v + n
      ensures Mapped(m', owner, k, 1) && BlockAt(m', owner, k).refcount == 1
    {
      assert Addr(owner, k) in m.space && BlockAt(m, owner, k).refcount == 1;
    }
    forall j, k | v <= j < k < v + n
      ensures !Shared(m'.space, Addr(owner, j), Addr(owner, k))
    {
      assert !Shared(m.space, Addr(owner, j), Addr(owner, k));
    }
  }

  /** A miss on both levels: the pages of the victim end with what its buffer holds. */
  lemma MissJoined(j: Joint, l: Label, lay: Layout, universe: set<nat>, blockSize: nat, j': Joint)
    requires LayoutOk(lay) && Joined(j, lay, universe) && Step(j, l, lay, blockSize, j')
    requires l.Cache? && l.op.Get? && !Held(j.c.pool.blocks, l.op.g.id)
    ensures Mirrors(j'.v, universe, lay.owner, lay.pages, j'.c.pool.vm) && BuffersHold(j'.c.pool.blocks, j'.v.m, lay)
  {
    var p, p', g, bp := j.c.pool, j'.c.pool, l.op.g, l.op.bp;
    MissFacts(p, g, blockSize, p', bp);
    var blk := p.blocks[bp];
    var y := GetOutcome(p.vm, g, blk);
    var a :| HasPages(j.v, lay, blk, bp, l.frames, a) && Asked(a, lay, blk, bp, g, l);
    PagesJoined(j.v, universe, lay, p.vm, blk, bp, l.frames, a);
    AskedJoined(a, universe, lay, p.vm, blk, bp, g, l, y);
    var data := Lookup(g.flushed.disk, g.id);
    if !Served(g, l) {
      FillJoined(l.called, universe, lay, y.store, bp, y.data, data, j'.v);
      PagesKeptTwice(a.m, l.called.m, j'.v.m, lay.owner, lay.at[bp], lay.pages);
    }
    PagesKeptTwice(j.v.m, a.m, j'.v.m, lay.owner, lay.at[bp], lay.pages);
    OneReplaced(p.blocks, p'.blocks, j.v.m, j'.v.m, lay, bp);
  }

  lemma PagesKeptTwice(m: Mem, m1: Mem, m2: Mem, owner: int, v: nat, n: nat)
    requires PagesKept(m, m1, owner, v, n) && PagesKept(m1, m2, owner, v, n)
    ensures PagesKept(m, m2, owner, v, n)
  {
    forall a | a in m.space && !Among(a, owner, v, n)
      ensures KeptPage(m, m2, a)
    {
      assert KeptPage(m, m1, a) && KeptPage(m1, m2, a);
    }
  }

  // ---------------------------------------------------------------- the other operations

  lemma KeptBuffers(blocks: seq<Block>, blocks': seq<Block>, m: Mem, m': Mem, lay: Layout)
    requires BuffersHold(blocks, m, lay) && SameContents(blocks, blocks') && MemOk(m)
    requires forall a {:trigger KeptPage(m, m', a)} :: a in m.space ==> KeptPage(m, m', a)
    ensures BuffersHold(blocks', m', lay)
  {
    NoneReplaced(blocks, blocks', m, m', lay);
  }

  lemma WriteJoined(j: Joint, l: Label, lay: Layout, universe: set<nat>, blockSize: nat, j': Joint)
    requires LayoutOk(lay) && Joined(j, lay, universe) && Step(j, l, lay, blockSize, j') && l.Cache? && l.op.Write?
    ensures Mirrors(j'.v, universe, lay.owner, lay.pages, j'.c.pool.vm) && BuffersHold(j'.c.pool.blocks, j'.v.m, lay)
  {
    var p, bp := j.c.pool, l.op.bp;
    assert p.blocks[bp].hasData;
    FillJoined(j.v, universe, lay, p.vm, bp, p.blocks[bp].data, l.op.data, j'.v);
    OneReplaced(p.blocks, j'.c.pool.blocks, j.v.m, j'.v.m, lay, bp);
  }

  /** A request of the cache that frees blocks of VM. */
  lemma FreeJoined(p: Pool, p': Pool, v: Y.State, q: Y.Request, r: Status, v': Y.State, lay: Layout, universe: set<nat>)
    requires Mirrors(v, universe, lay.owner, lay.pages, p.vm) && BuffersHold(p.blocks, v.m, lay)
    requires SameContents(p.blocks, p'.blocks) && Y.Step(v, q, r, v')
    requires || (q == Y.ForgetAll(lay.owner) && p'.vm == map[])
             || (q.Reclaim? && p'.vm == p.vm - Reclaimed(v.nodes, q.maxBytes, lay.owner, p.vm))
    ensures Mirrors(v', universe, lay.owner, lay.pages, p'.vm) && BuffersHold(p'.blocks, v'.m, lay)
  {
    if q.Reclaim? {
      ReclaimMirrors(v, r, v', universe, lay.owner, lay.pages, p.vm, q.maxBytes);
    } else {
      ForgetAllMirrors(v, r, v', universe, lay.owner, lay.pages, p.vm);
    }
    NamelessKeeps(v, q, r, v', universe);
    KeptBuffers(p.blocks, p'.blocks, v.m, v'.m, lay);
  }

  /** What others do. */
  lemma OtherJoined(j: Joint, l: Label, lay: Layout, universe: set<nat>, blockSize: nat, j': Joint)
    requires Joined(j, lay, universe) && Step(j, l, lay, blockSize, j') && l.Other?
    ensures Joined(j', lay, universe)
  {
    var m, m', p := j.v.m, j'.v.m, j.c.pool;
    ForeignMirrors(j.v, l.q, l.r, j'.v, universe, lay.owner, lay.pages, p.vm);
    forall a | OncePage(m, a) && BufferPage(lay, a)
      ensures KeptPage(m, m', a)
    {
      OutsideUnnamed(m, l.q, lay, a);
      Y.StepKeepsPages(j.v, l.q, l.r, j'.v, universe, a);
    }
    NoneReplaced(p.blocks, p.blocks, m, m', lay);
  }

  lemma OutsideUnnamed(m: Mem, q: Y.Request, lay: Layout, a: Addr)
    requires MemOk(m) && Outside(q, lay) && OncePage(m, a) && BufferPage(lay, a)
    ensures !Y.Names(m, q, a)
  {
    if q.Touch? && q.a in m.space {
      assert !Shared(m.space, a, q.a);
    }
  }

  /** The buffers of q, filled with what was gathered. */
  function Refilled(blocks: seq<Block>, q: seq<int>, gathered: seq<Block>): (r: seq<Block>)
    requires |gathered| == |blocks|
    ensures |r| == |blocks|
    ensures forall i {:trigger r[i]} :: 0 <= i < |blocks| ==>
              r[i] == if i in q then blocks[i].(data := gathered[i].data) else blocks[i]
  {
    seq(|blocks|, i requires 0 <= i < |blocks| => if i in q then blocks[i].(data := gathered[i].data) else blocks[i])
  }

  lemma FillNext(v: Y.State, universe: set<nat>, lay: Layout, vm: map<Id, Data>, blocks: seq<Block>, i: nat, data: Data,
                 v1: Y.State)
    requires LayoutOk(lay) && Mirrors(v, universe, lay.owner, lay.pages, vm) && BuffersHold(blocks, v.m, lay)
    requires i < |blocks| && blocks[i].hasData && v1 == FillBuffer(v, lay, i, data)
    ensures Mirrors(v1, universe, lay.owner, lay.pages, vm)
    ensures BuffersHold(blocks[i := blocks[i].(data := data)], v1.m, lay)
  {
    FillJoined(v, universe, lay, vm, i, blocks[i].data, data, v1);
    OneReplaced(blocks, blocks[i := blocks[i].(data := data)], v.m, v1.m, lay, i);
  }

  lemma RefilledNext(blocks: seq<Block>, q: seq<int>, gathered: seq<Block>)
    requires |gathered| == |blocks| && q != [] && 0 <= q[0] < |blocks|
    ensures Refilled(blocks[q[0] := blocks[q[0]].(data := gathered[q[0]].data)], q[1..], gathered)
            == Refilled(blocks, q, gathered)
  {
  }

  lemma {:induction false} FillAllJoined(v: Y.State, universe: set<nat>, lay: Layout, vm: map<Id, Data>,
                                         blocks: seq<Block>, q: seq<int>, gathered: seq<Block>, v': Y.State)
    requires LayoutOk(lay) && Mirrors(v, universe, lay.owner, lay.pages, vm) && BuffersHold(blocks, v.m, lay)
    requires |gathered| == |blocks| && forall k :: 0 <= k < |q| ==> 0 <= q[k] < |blocks| && blocks[q[k]].hasData
    requires v' == FillAll(v, lay, q, gathered)
    ensures Mirrors(v', universe, lay.owner, lay.pages, vm) && BuffersHold(Refilled(blocks, q, gathered), v'.m, lay)
    decreases |q|
  {
    if q == [] {
      assert Refilled(blocks, q, gathered) == blocks;
    } else {
      var i, data := q[0], gathered[q[0]].data;
      var v1, blocks1 := FillBuffer(v, lay, i, data), blocks[i := blocks[i].(data := data)];
      FillNext(v, universe, lay, vm, blocks, i, data, v1);
      FillAllJoined(v1, universe, lay, vm, blocks1, q[1..], gathered, v');
      RefilledNext(blocks, q, gathered);
    }
  }

  lemma ReadAheadJoined(j: Joint, l: Label, lay: Layout, universe: set<nat>, blockSize: nat, j': Joint)
    requires LayoutOk(lay) && Joined(j, lay, universe) && Step(j, l, lay, blockSize, j') && l.Cache? && l.op.ReadAhead?
    ensures Mirrors(j'.v, universe, lay.owner, lay.pages, j'.c.pool.vm) && BuffersHold(j'.c.pool.blocks, j'.v.m, lay)
  {
    var p, p', q, gathered := j.c.pool, j'.c.pool, l.op.queue, l.op.gathered;
    forall k | 0 <= k < |q|
      ensures p.blocks[q[k]].hasData
    {
      assert p.blocks[q[k]].count > 0;
    }
    FillAllJoined(j.v, universe, lay, p.vm, p.blocks, q, gathered, l.called);
    ReadAheadContents(p, l.op.dev, q, l.op.done, gathered, p');
    var p1 := p.(blocks := Refilled(p.blocks, q, gathered));
    if l.op.done == 0 && q != [] {
      FreeJoined(p1, p', l.called, Y.ForgetAll(lay.owner), l.r, j'.v, lay, universe);
    } else {
      NothingKept(j'.v.nodes, j'.v.m);
      KeptBuffers(p1.blocks, p'.blocks, j'.v.m, j'.v.m, lay);
    }
  }

  lemma ReadAheadContents(p: Pool, dev: nat, q: seq<int>, done: nat, gathered: seq<Block>, p': Pool)
    requires InUse(p.blocks, q) && Gathered(p, dev, q, done, gathered)
    requires InUse(AfterGather(p, gathered, q, done).blocks, q)
    requires p' == ReadBack(AfterGather(p, gathered, q, done), dev, q, done)
    ensures SameContents(Refilled(p.blocks, q, gathered), p'.blocks)
    ensures p'.vm == if done == 0 && q != [] then map[] else p.vm
  {
    ReadBackEffect(AfterGather(p, gathered, q, done), dev, q, done);
    forall i {:trigger p'.blocks[i]} | 0 <= i < |p.blocks|
      ensures p'.blocks[i].data == Refilled(p.blocks, q, gathered)[i].data
      ensures p'.blocks[i].hasData == p.blocks[i].hasData
    {
      if i in q {
        var k :| 0 <= k < |q| && q[k] == i;
        assert p'.blocks[q[k]] == ReadBlk(gathered[q[k]], dev, k < done);
      }
    }
  }

  // ---------------------------------------------------------------- names and memory

  ghost predicate Regular(blocks: seq<Block>) {
    Memoryless(blocks) && NamesFit(blocks)
  }

  lemma GetRegular(p: Pool, g: GetLabel, blockSize: nat, p': Pool, bp: int)
    requires LruFree(p) && GetStep(p, g, blockSize, p', bp) && bp != NULL && Regular(p.blocks)
    requires g.done == |g.queue| && g.read.r == blockSize && g.id.dev != NO_DEV && (Held(p.blocks, g.id) || Fits(g.id))
    ensures Regular(p'.blocks)
    ensures Held(p.blocks, g.id) ==> SameContents(p.blocks, p'.blocks) && p'.vm == p.vm
  {
    if Held(p.blocks, g.id) {
      assert p.blocks[bp].dev != NO_DEV;
    } else {
      MissFacts(p, g, blockSize, p', bp);
    }
  }

  lemma FlushRegular(p: Pool, dev: nat, q: seq<int>, p': Pool)
    requires WriteQueue(p.blocks, dev, q) && Written(p, dev, q, |q|, p') && Regular(p.blocks)
    ensures Regular(p'.blocks) && SameContents(p.blocks, p'.blocks) && p'.vm == p.vm
  {
    FlushCleans(p, dev, q, p');
  }

  lemma ReadAheadRegular(p: Pool, dev: nat, q: seq<int>, done: nat, gathered: seq<Block>, p': Pool)
    requires InUse(p.blocks, q) && Gathered(p, dev, q, done, gathered) && Regular(p.blocks)
    requires InUse(AfterGather(p, gathered, q, done).blocks, q)
    requires p' == ReadBack(AfterGather(p, gathered, q, done), dev, q, done)
    requires forall k :: 0 <= k < |q| ==> Fits(Id(dev, p.blocks[q[k]].blocknr))
    ensures Regular(p'.blocks)
  {
    ReadBackEffect(AfterGather(p, gathered, q, done), dev, q, done);
    forall i {:trigger p'.blocks[i]} | 0 <= i < |p.blocks| && i in q
      ensures p'.blocks[i].hasData && (p'.blocks[i].dev != NO_DEV ==> Fits(p'.blocks[i].Name()))
    {
      var k :| 0 <= k < |q| && q[k] == i;
      assert p'.blocks[q[k]] == ReadBlk(gathered[q[k]], dev, k < done) && p.blocks[q[k]].count > 0;
    }
  }

  lemma CacheRegular(j: Joint, l: Label, lay: Layout, universe: set<nat>, blockSize: nat, j': Joint)
    requires Joined(j, lay, universe) && Step(j, l, lay, blockSize, j') && l.Cache?
    ensures Regular(j'.c.pool.blocks)
  {
    match l.op
    case Get(_, _) => GetCase(j, l, lay, blockSize, j');
    case Flush(dev, q) => FlushRegular(j.c.pool, dev, q, j'.c.pool);
    case ReadAhead(_, _, _, _) => ReadAheadCase(j, l, lay, blockSize, j');
    case _ => OtherCase(j, l, lay, blockSize, j');
  }

  lemma GetCase(j: Joint, l: Label, lay: Layout, blockSize: nat, j': Joint)
    requires Regular(j.c.pool.blocks) && Step(j, l, lay, blockSize, j') && l.Cache? && l.op.Get?
    ensures Regular(j'.c.pool.blocks)
  {
    GetRegular(j.c.pool, l.op.g, blockSize, j'.c.pool, l.op.bp);
  }

  lemma ReadAheadCase(j: Joint, l: Label, lay: Layout, blockSize: nat, j': Joint)
    requires Regular(j.c.pool.blocks) && Step(j, l, lay, blockSize, j') && l.Cache? && l.op.ReadAhead?
    ensures Regular(j'.c.pool.blocks)
  {
    ReadAheadRegular(j.c.pool, l.op.dev, l.op.queue, l.op.done, l.op.gathered, j'.c.pool);
  }

  lemma OtherCase(j: Joint, l: Label, lay: Layout, blockSize: nat, j': Joint)
    requires Regular(j.c.pool.blocks) && Step(j, l, lay, blockSize, j') && l.Cache?
    requires l.op.Put? || l.op.Write? || l.op.Invalidate? || l.op.Reclaim?
    ensures Regular(j'.c.pool.blocks)
  {
  }

  /** Steps of the cache that leave the contents of the buffers, and VM, as they are. */
  lemma QuietJoined(j: Joint, l: Label, lay: Layout, universe: set<nat>, blockSize: nat, j': Joint)
    requires Joined(j, lay, universe) && Step(j, l, lay, blockSize, j') && l.Cache?
    requires l.op.Put? || l.op.Flush? || (l.op.Get? && Held(j.c.pool.blocks, l.op.g.id))
    ensures Mirrors(j'.v, universe, lay.owner, lay.pages, j'.c.pool.vm) && BuffersHold(j'.c.pool.blocks, j'.v.m, lay)
  {
    var p, p' := j.c.pool, j'.c.pool;
    match l.op {
      case Get(g, bp) => GetRegular(p, g, blockSize, p', bp);
      case Flush(dev, q) => FlushRegular(p, dev, q, p');
      case _ =>
    }
    NothingKept(j.v.nodes, j.v.m);
    KeptBuffers(p.blocks, p'.blocks, j.v.m, j'.v.m, lay);
  }

  /** Every step of either side, and of any other process, keeps VM's blocks and the buffers' pages what
      the cache takes them for. */
  lemma StepJoined(j: Joint, l: Label, lay: Layout, universe: set<nat>, blockSize: nat, j': Joint)
    requires LayoutOk(lay) && Joined(j, lay, universe) && Step(j, l, lay, blockSize, j')
    ensures Joined(j', lay, universe)
  {
    if l.Other? {
      OtherJoined(j, l, lay, universe, blockSize, j');
    } else {
      CacheRegular(j, l, lay, universe, blockSize, j');
      CacheJoined(j, l, lay, universe, blockSize, j');
    }
  }

  lemma CacheJoined(j: Joint, l: Label, lay: Layout, universe: set<nat>, blockSize: nat, j': Joint)
    requires LayoutOk(lay) && Joined(j, lay, universe) && Step(j, l, lay, blockSize, j') && l.Cache?
    ensures Mirrors(j'.v, universe, lay.owner, lay.pages, j'.c.pool.vm) && BuffersHold(j'.c.pool.blocks, j'.v.m, lay)
  {
    var p, p' := j.c.pool, j'.c.pool;
    match l.op
    case Write(_, _) => WriteJoined(j, l, lay, universe, blockSize, j');
    case Invalidate(_) => FreeJoined(p, p', j.v, Y.ForgetAll(lay.owner), l.r, j'.v, lay, universe);
    case Reclaim(_) => FreeJoined(p, p', j.v, Y.Reclaim(l.maxBytes), l.r, j'.v, lay, universe);
    case ReadAhead(_, _, _, _) => ReadAheadJoined(j, l, lay, universe, blockSize, j');
    case Get(g, _) =>
      if Held(p.blocks, g.id) {
        QuietJoined(j, l, lay, universe, blockSize, j');
      } else {
        MissJoined(j, l, lay, universe, blockSize, j');
      }
    case _ => QuietJoined(j, l, lay, universe, blockSize, j');
  }

  // ---------------------------------------------------------------- runs

  /** A new cache, none of whose buffers has memory yet, and a VM that holds nothing. */
  ghost predicate Start(j: Joint, lay: Layout, universe: set<nat>) {
    && C.Fresh(j.c) && Y.Start(j.v, universe) && LayoutOk(lay) && |lay.at| == |j.c.pool.blocks|
    && forall i {:trigger j.c.pool.blocks[i]} :: 0 <= i < |j.c.pool.blocks| ==>
         !j.c.pool.blocks[i].hasData && j.c.pool.blocks[i].data == BLANK
  }

  ghost predicate IsRun(js: seq<Joint>, ls: seq<Label>, lay: Layout, blockSize: nat) {
    && |js| == |ls| + 1
    && (forall i {:trigger StepAt(js, ls, lay, blockSize, i)} :: 0 <= i < |ls| ==> StepAt(js, ls, lay, blockSize, i))
  }

  ghost predicate StepAt(js: seq<Joint>, ls: seq<Label>, lay: Layout, blockSize: nat, i: nat)
    requires i < |ls| < |js|
  {
    Step(js[i], ls[i], lay, blockSize, js[i + 1])
  }

  lemma StartJoined(j: Joint, lay: Layout, universe: set<nat>)
    requires Start(j, lay, universe)
    ensures Joined(j, lay, universe)
  {
    StartMirrors(j.v, universe, lay.owner, lay.pages);
  }

  lemma {:induction false} RunJoined(js: seq<Joint>, ls: seq<Label>, lay: Layout, universe: set<nat>, blockSize: nat,
                                     n: nat)
    requires IsRun(js, ls, lay, blockSize) && Start(js[0], lay, universe) && n <= |ls|
    ensures Joined(js[n], lay, universe)
  {
    if n == 0 {
      StartJoined(js[0], lay, universe);
    } else {
      RunJoined(js, ls, lay, universe, blockSize, n - 1);
      assert StepAt(js, ls, lay, blockSize, n - 1);
      StepJoined(js[n - 1], ls[n - 1], lay, universe, blockSize, js[n]);
    }
  }

  /** The cache's part of a run; what others do looks like a reclaim of nothing. */
  function CacheStates(js: seq<Joint>): (cs: seq<C.State>)
    ensures |cs| == |js| && forall i :: 0 <= i < |js| ==> cs[i] == js[i].c
  {
    seq(|js|, i requires 0 <= i < |js| => js[i].c)
  }

  function CacheOp(l: Label): C.Op {
    if l.Cache? then l.op else C.Reclaim({})
  }

  function CacheOps(ls: seq<Label>): (ops: seq<C.Op>)
    ensures |ops| == |ls| && forall i :: 0 <= i < |ls| ==> ops[i] == CacheOp(ls[i])
  {
    seq(|ls|, i requires 0 <= i < |ls| => CacheOp(ls[i]))
  }

  lemma CachePart(js: seq<Joint>, ls: seq<Label>, lay: Layout, blockSize: nat)
    requires IsRun(js, ls, lay, blockSize)
    ensures C.IsRun(CacheStates(js), CacheOps(ls), blockSize)
  {
    var cs, ops := CacheStates(js), CacheOps(ls);
    forall i {:trigger C.StepAt(cs, ops, blockSize, i)} | 0 <= i < |ops|
      ensures C.StepAt(cs, ops, blockSize, i)
    {
      assert StepAt(js, ls, lay, blockSize, i);
      assert js[i].c.pool.vm - {} == js[i].c.pool.vm;
    }
  }

  /** In every reachable state each block that VM really holds for the cache is validly buffered nowhere,
      and VM's own pages hold what the disk has of it; every buffer's pages hold its contents; and every
      physical page has one owner. */
  lemma RealLevels(js: seq<Joint>, ls: seq<Label>, lay: Layout, universe: set<nat>, blockSize: nat, n: nat)
    requires IsRun(js, ls, lay, blockSize) && Start(js[0], lay, universe) && n <= |ls|
    ensures BuffersHold(js[n].c.pool.blocks, js[n].v.m, lay) && OwnedOnce(js[n].v.nodes, js[n].v.m, universe)
    ensures forall x :: x in js[n].v.nodes && x.id.owner == lay.owner ==>
              exists id {:trigger BlockKey(lay.owner, id)} ::
                && BlockKey(lay.owner, id) == x.id
                && (forall i :: ValidAt(js[n].c.pool, i) ==> js[n].c.pool.blocks[i].Name() != id)
                && NodeContents(js[n].v.m, x) == Bytes(Lookup(js[n].c.pool.disk, id), lay.pages)
  {
    RunJoined(js, ls, lay, universe, blockSize, n);
    CachePart(js, ls, lay, blockSize);
    C.LevelsExclusive(CacheStates(js), CacheOps(ls), blockSize, n);
    var s, p := js[n].v, js[n].c.pool;
    var store :| StoreIs(s.nodes, s.m, store) && Stands(p.vm, store, lay.owner, lay.pages);
    forall x | x in s.nodes && x.id.owner == lay.owner
      ensures exists id {:trigger BlockKey(lay.owner, id)} ::
                && BlockKey(lay.owner, id) == x.id
                && (forall i :: ValidAt(p, i) ==> p.blocks[i].Name() != id)
                && NodeContents(s.m, x) == Bytes(Lookup(p.disk, id), lay.pages)
    {
      assert x.id in store;
      var id :| id in p.vm && BlockKey(lay.owner, id) == x.id;
    }
  }

  /** In every run a NORMAL get leaves in the pages of the buffer it returns the last contents written,
      whatever was evicted, yielded, fetched back or reclaimed, and whatever other processes did. */
  lemma RealGet(js: seq<Joint>, ls: seq<Label>, lay: Layout, universe: set<nat>, blockSize: nat, n: nat)
    requires IsRun(js, ls, lay, blockSize) && Start(js[0], lay, universe) && n < |ls|
    requires ls[n].Cache? && ls[n].op.Get? && ls[n].op.g.mode == NORMAL && ls[n].op.bp !in js[n].c.pending
    ensures 0 <= ls[n].op.bp < |lay.at| && Mapped(js[n + 1].v.m, lay.owner, lay.at[ls[n].op.bp], lay.pages)
    ensures Contents(js[n + 1].v.m, lay.owner, lay.at[ls[n].op.bp], lay.pages)
            == Bytes(C.LastWritten(CacheStates(js), CacheOps(ls), n, ls[n].op.g.id), lay.pages)
  {
    RunJoined(js, ls, lay, universe, blockSize, n + 1);
    CachePart(js, ls, lay, blockSize);
    C.GetReturnsLastWritten(CacheStates(js), CacheOps(ls), blockSize, n);
    var bp, blocks := ls[n].op.bp, js[n + 1].c.pool.blocks;
    assert StepAt(js, ls, lay, blockSize, n);
    assert blocks[bp].dev != NO_DEV;
    assert Holds(js[n + 1].v.m, lay, bp, blocks[bp].data);
  }

  /** VM's own list has a block of the cache under this name. */
  ghost predicate VmLists(v: Y.State, lay: Layout, id: Id) {
    Fits(id) && exists x :: x in v.nodes && x.id == BlockKey(lay.owner, id)
  }

  lemma ListsIffHolds(j: Joint, lay: Layout, universe: set<nat>, id: Id)
    requires Joined(j, lay, universe)
    ensures VmLists(j.v, lay, id) <==> id in j.c.pool.vm
  {
    var store :| StoreIs(j.v.nodes, j.v.m, store) && Stands(j.c.pool.vm, store, lay.owner, lay.pages);
    assert id in j.c.pool.vm ==> BlockKey(lay.owner, id) in store;
    if Fits(id) {
      KeyHeld(j.c.pool.vm, store, lay.owner, lay.pages, id);
    }
  }

  /** In every run a PREFETCH get returns a valid buffer exactly if some buffer, or VM's own list, had the
      block; then its pages hold the last contents written. */
  lemma RealPrefetch(js: seq<Joint>, ls: seq<Label>, lay: Layout, universe: set<nat>, blockSize: nat, n: nat)
    requires IsRun(js, ls, lay, blockSize) && Start(js[0], lay, universe) && n < |ls|
    requires ls[n].Cache? && ls[n].op.Get? && ls[n].op.g.mode == PREFETCH && ls[n].op.bp !in js[n].c.pending
    ensures ValidAt(js[n + 1].c.pool, ls[n].op.bp) <==>
              Held(js[n].c.pool.blocks, ls[n].op.g.id) || VmLists(js[n].v, lay, ls[n].op.g.id)
    ensures ValidAt(js[n + 1].c.pool, ls[n].op.bp) ==>
              && js[n + 1].c.pool.blocks[ls[n].op.bp].Name() == ls[n].op.g.id && ls[n].op.bp < |lay.at|
              && Mapped(js[n + 1].v.m, lay.owner, lay.at[ls[n].op.bp], lay.pages)
              && Contents(js[n + 1].v.m, lay.owner, lay.at[ls[n].op.bp], lay.pages)
                 == Bytes(C.LastWritten(CacheStates(js), CacheOps(ls), n, ls[n].op.g.id), lay.pages)
  {
    var cs, ops := CacheStates(js), CacheOps(ls);
    RunJoined(js, ls, lay, universe, blockSize, n);
    RunJoined(js, ls, lay, universe, blockSize, n + 1);
    CachePart(js, ls, lay, blockSize);
    ListsIffHolds(js[n], lay, universe, ls[n].op.g.id);
    C.PrefetchServed(cs, ops, blockSize, n);
    var bp, blocks := ls[n].op.bp, js[n + 1].c.pool.blocks;
    if ValidAt(js[n + 1].c.pool, bp) {
      C.GetReturnsLastWritten(cs, ops, blockSize, n);
      assert blocks[bp].dev != NO_DEV;
      assert Holds(js[n + 1].v.m, lay, bp, blocks[bp].data);
    }
  }
}
