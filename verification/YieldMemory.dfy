/** Physical pages under VM's second-level block cache: who owns them, and what a yield and a get
    do to them. */
module YieldMemory {
  import opened YieldInterface

  type Page = int

  /** The contents of a page handed out by alloc_mem with PAF_CLEAR. */
  const ZERO_PAGE: Page := 0

  datatype BlockId = BlockId(owner: int, id: nat)

  /** What a yielded block records: `pages` physical pages from `phys` on. */
  datatype Node = Node(id: BlockId, phys: nat, pages: nat)

  datatype PhysBlock = PhysBlock(phys: nat, refcount: nat)

  /** What map_lookup finds for a mapped page: its phys block, and whether its region is VR_ANON. */
  datatype Mapping = Mapping(ref: nat, anon: bool)

  datatype Addr = Addr(owner: int, vpage: nat)

  datatype Mem = Mem(space: map<Addr, Mapping>, blocks: map<nat, PhysBlock>, free: set<nat>, contents: map<nat, Page>)

  /** PANIC is a failed assertion of VM. */
  datatype Status = OK | EINVAL | EFAULT | ENOMEM | ESRCH | PANIC

  function Range(base: nat, n: nat): (s: set<nat>)
    ensures forall p :: p in s <==> base <= p < base + n
  {
    if n == 0 then {} else Range(base, n - 1) + {base + n - 1}
  }

  /** Two addresses are mapped to the same phys block. */
  predicate Shared(space: map<Addr, Mapping>, a: Addr, b: Addr) {
    a in space && b in space && a != b && space[a].ref == space[b].ref
  }

  /** Mapped blocks exist, and a block with one reference is mapped once. */
  ghost predicate MemOk(m: Mem) {
    && (forall a :: a in m.space ==> m.space[a].ref in m.blocks)
    && (forall a, b {:trigger Shared(m.space, a, b)} :: Shared(m.space, a, b) ==> m.blocks[m.space[a].ref].refcount > 1)
  }

  ghost predicate InNode(nodes: seq<Node>, p: nat) {
    exists i :: 0 <= i < |nodes| && p in Range(nodes[i].phys, nodes[i].pages)
  }

  ghost predicate InBlock(m: Mem, p: nat) {
    exists r :: r in m.blocks && m.blocks[r].phys == p
  }

  /** Every page is free, in a phys block or in a yielded node, and only one of these. */
  ghost predicate Partition(nodes: seq<Node>, m: Mem, universe: set<nat>) {
    && (forall p :: p in universe <==> p in m.free || InBlock(m, p) || InNode(nodes, p))
    && (forall p :: p in m.free ==> !InBlock(m, p) && !InNode(nodes, p))
    && (forall p :: InBlock(m, p) ==> !InNode(nodes, p))
  }

  /** No two phys blocks share a frame. */
  ghost predicate Injective(m: Mem) {
    forall r, s :: r in m.blocks && s in m.blocks && r != s ==> m.blocks[r].phys != m.blocks[s].phys
  }

  ghost predicate DisjointNodes(nodes: seq<Node>) {
    forall i, j :: 0 <= i < j < |nodes| ==> Range(nodes[i].phys, nodes[i].pages) !! Range(nodes[j].phys, nodes[j].pages)
  }

  /** Every physical page has exactly one owner: a phys block, a yielded node or the free pool. */
  ghost predicate OwnedOnce(nodes: seq<Node>, m: Mem, universe: set<nat>) {
    Partition(nodes, m, universe) && Injective(m) && DisjointNodes(nodes)
  }

  predicate Mapped(m: Mem, owner: int, v: nat, n: nat) {
    forall k :: v <= k < v + n ==> Addr(owner, k) in m.space && m.space[Addr(owner, k)].ref in m.blocks
  }

  function BlockAt(m: Mem, owner: int, v: nat): PhysBlock
    requires Mapped(m, owner, v, 1)
  {
    assert Addr(owner, v) in m.space;
    m.blocks[m.space[Addr(owner, v)].ref]
  }

  /** The contents of n mapped pages. */
  function Contents(m: Mem, owner: int, v: nat, n: nat): (d: seq<Page>)
    requires Mapped(m, owner, v, n)
    ensures |d| == n && forall k :: 0 <= k < n ==> d[k] == PageOf(m, BlockAt(m, owner, v + k).phys)
  {
    seq(n, k requires 0 <= k < n => PageOf(m, BlockAt(m, owner, v + k).phys))
  }

  function PageOf(m: Mem, p: nat): Page {
    if p in m.contents then m.contents[p] else ZERO_PAGE
  }

  /** n cleared pages. */
  function Clear(n: nat): (d: seq<Page>)
    ensures |d| == n && forall k :: 0 <= k < n ==> d[k] == ZERO_PAGE
  {
    seq(n, k => ZERO_PAGE)
  }

  function NodeContents(m: Mem, n: Node): (d: seq<Page>)
    ensures |d| == n.pages && forall k :: 0 <= k < n.pages ==> d[k] == PageOf(m, n.phys + k)
  {
    seq(n.pages, k requires 0 <= k < n.pages => PageOf(m, n.phys + k))
  }

  // ---------------------------------------------------------------- yieldblock

  /** The verdict of yieldblock on page v + k, given the frame of the page before it. */
  function YieldCheck(m: Mem, owner: int, v: nat, k: nat): Status
    requires MemOk(m)
  {
    var a := Addr(owner, v + k);
    if a !in m.space then EINVAL
    else if !m.space[a].anon then EFAULT
    else if m.blocks[m.space[a].ref].refcount != 1 then EFAULT
    else if k > 0 && Addr(owner, v + k - 1) in m.space &&
            m.blocks[m.space[a].ref].phys != m.blocks[m.space[Addr(owner, v + k - 1)].ref].phys + 1 then EINVAL
    else OK
  }

  /** The verdict of the whole scan: that of the first page that is refused. */
  function YieldScan(m: Mem, owner: int, v: nat, k: nat, n: nat): Status
    requires MemOk(m) && k <= n
    decreases n - k
  {
    if k == n then OK
    else if YieldCheck(m, owner, v, k) != OK then YieldCheck(m, owner, v, k)
    else YieldScan(m, owner, v, k + 1, n)
  }

  /** A scan that succeeds found n mapped pages, each mapped once, in physically contiguous frames. */
  ghost predicate Yieldable(m: Mem, owner: int, v: nat, n: nat)
    requires MemOk(m)
  {
    && Mapped(m, owner, v, n)
    && (forall k :: v <= k < v + n ==> m.space[Addr(owner, k)].anon && BlockAt(m, owner, k).refcount == 1)
    && (forall k :: v <= k < v + n ==> BlockAt(m, owner, k).phys == BlockAt(m, owner, v).phys + (k - v))
  }

  lemma {:induction false} ScanYieldable(m: Mem, owner: int, v: nat, k: nat, n: nat)
    requires MemOk(m) && k <= n
    requires Yieldable(m, owner, v, k)
    ensures YieldScan(m, owner, v, k, n) == OK <==> Yieldable(m, owner, v, n)
    decreases n - k
  {
    if k < n {
      if YieldCheck(m, owner, v, k) == OK {
        assert Yieldable(m, owner, v, k + 1) by {
          assert k > 0 ==> Addr(owner, v + k - 1) in m.space;
        }
        ScanYieldable(m, owner, v, k + 1, n);
      }
    }
  }

  /** The first n pages have the frames from `base` on. */
  ghost predicate Reframed(m: Mem, owner: int, v: nat, n: nat, base: nat, m': Mem)
    requires Mapped(m, owner, v, n)
  {
    && m'.space == m.space && m'.blocks.Keys == m.blocks.Keys && m'.contents == m.contents
    && (forall k :: v <= k < v + n ==>
          m'.blocks[m.space[Addr(owner, k)].ref] == BlockAt(m, owner, k).(phys := base + (k - v)))
    && (forall r :: r in m.blocks && (forall k :: v <= k < v + n ==> m.space[Addr(owner, k)].ref != r) ==>
          m'.blocks[r] == m.blocks[r])
  }

  ghost predicate Refreshed(m: Mem, owner: int, v: nat, n: nat, base: nat, m': Mem)
    requires Mapped(m, owner, v, n)
  {
    Reframed(m, owner, v, n, base, m') && m'.free == m.free
  }

  /** alloc_mem with PAF_CLEAR gave out n free frames from `base` on. */
  function Allocated(m: Mem, base: nat, n: nat): Mem {
    m.(free := m.free - Range(base, n), contents := m.contents + (map p | p in Range(base, n) :: ZERO_PAGE))
  }

  /** n mapped pages, each in a phys block of its own that nothing else refers to. */
  ghost predicate OwnPages(m: Mem, owner: int, v: nat, n: nat) {
    && Mapped(m, owner, v, n)
    && (forall k :: v <= k < v + n ==> BlockAt(m, owner, k).refcount == 1)
    && (forall j, k {:trigger Shared(m.space, Addr(owner, j), Addr(owner, k))} :: v <= j < k < v + n ==>
          !Shared(m.space, Addr(owner, j), Addr(owner, k)))
  }

  lemma YieldableOwn(m: Mem, owner: int, v: nat, n: nat)
    requires MemOk(m) && Yieldable(m, owner, v, n)
    ensures OwnPages(m, owner, v, n)
  {
    forall j, k | v <= j < k < v + n
      ensures !Shared(m.space, Addr(owner, j), Addr(owner, k))
    {
      assert BlockAt(m, owner, j).refcount == 1;
    }
  }

  /** The frames of contiguous pages are a range. */
  lemma ContiguousFrames(m: Mem, owner: int, v: nat, n: nat)
    requires MemOk(m) && Yieldable(m, owner, v, n) && n > 0
    ensures OldFrames(m, owner, v, n) == Range(BlockAt(m, owner, v).phys, n)
  {
    var base := BlockAt(m, owner, v).phys;
    forall p: nat
      ensures p in OldFrames(m, owner, v, n) <==> p in Range(base, n)
    {
      if p in Range(base, n) {
        assert BlockAt(m, owner, v + (p - base)).phys == p;
      }
    }
  }

  /** The frames of n mapped pages. */
  function OldFrames(m: Mem, owner: int, v: nat, n: nat): (f: set<nat>)
    requires Mapped(m, owner, v, n)
    ensures forall p :: p in f <==> exists k :: v <= k < v + n && BlockAt(m, owner, k).phys == p
  {
    if n == 0 then {}
    else
      assert Addr(owner, v + n - 1) in m.space;
      OldFrames(m, owner, v, n - 1) + {BlockAt(m, owner, v + n - 1).phys}
  }

  /** Giving own pages new frames exchanges their old frames for the new ones, and nothing else. */
  lemma FramesExchanged(m: Mem, owner: int, v: nat, n: nat, base: nat, m': Mem)
    requires OwnPages(m, owner, v, n) && Injective(m) && Reframed(m, owner, v, n, base, m')
    ensures forall p :: InBlock(m', p) <==> p in Range(base, n) || (InBlock(m, p) && p !in OldFrames(m, owner, v, n))
  {
    forall p: nat
      ensures InBlock(m', p) <==> p in Range(base, n) || (InBlock(m, p) && p !in OldFrames(m, owner, v, n))
    {
      if InBlock(m', p) {
        FrameAfter(m, owner, v, n, base, m', p);
      }
      if p in Range(base, n) {
        assert m'.blocks[m.space[Addr(owner, v + (p - base))].ref].phys == p;
      }
      if InBlock(m, p) && p !in OldFrames(m, owner, v, n) {
        FrameKept(m, owner, v, n, base, m', p);
      }
    }
  }

  lemma FrameKept(m: Mem, owner: int, v: nat, n: nat, base: nat, m': Mem, p: nat)
    requires OwnPages(m, owner, v, n) && Reframed(m, owner, v, n, base, m')
    requires InBlock(m, p) && p !in OldFrames(m, owner, v, n)
    ensures InBlock(m', p)
  {
    var r :| r in m.blocks && m.blocks[r].phys == p;
    forall k | v <= k < v + n
      ensures m.space[Addr(owner, k)].ref != r
    {
      assert BlockAt(m, owner, k).phys != p;
    }
    assert m'.blocks[r].phys == p;
  }

  lemma ExchangeInjective(m: Mem, owner: int, v: nat, n: nat, base: nat, m': Mem)
    requires OwnPages(m, owner, v, n) && Injective(m) && Reframed(m, owner, v, n, base, m')
    requires forall p :: p in Range(base, n) ==> !InBlock(m, p)
    ensures Injective(m')
  {
    forall r, s | r in m'.blocks && s in m'.blocks && r != s
      ensures m'.blocks[r].phys != m'.blocks[s].phys
    {
      WhichBlock(m, owner, v, n, base, m', r);
      WhichBlock(m, owner, v, n, base, m', s);
      assert InBlock(m, m.blocks[r].phys) && InBlock(m, m.blocks[s].phys);
    }
  }

  /** A block after the exchange is one of the pages, with its new frame, or as it was. */
  lemma WhichBlock(m: Mem, owner: int, v: nat, n: nat, base: nat, m': Mem, r: nat)
    requires Mapped(m, owner, v, n) && Reframed(m, owner, v, n, base, m') && r in m'.blocks
    ensures
      || (m'.blocks[r] == m.blocks[r] && forall k :: v <= k < v + n ==> m.space[Addr(owner, k)].ref != r)
      || exists k :: v <= k < v + n && m.space[Addr(owner, k)].ref == r && m'.blocks[r].phys == base + (k - v)
  {
  }

  lemma FrameAfter(m: Mem, owner: int, v: nat, n: nat, base: nat, m': Mem, p: nat)
    requires OwnPages(m, owner, v, n) && Injective(m) && Reframed(m, owner, v, n, base, m') && InBlock(m', p)
    ensures p in Range(base, n) || (InBlock(m, p) && p !in OldFrames(m, owner, v, n))
  {
    var r :| r in m'.blocks && m'.blocks[r].phys == p;
    WhichBlock(m, owner, v, n, base, m', r);
  }

  lemma AppendInNode(nodes: seq<Node>, x: Node, p: nat)
    ensures InNode(nodes + [x], p) <==> InNode(nodes, p) || p in Range(x.phys, x.pages)
  {
    if InNode(nodes, p) {
      var i :| 0 <= i < |nodes| && p in Range(nodes[i].phys, nodes[i].pages);
      assert (nodes + [x])[i] == nodes[i];
    }
    if p in Range(x.phys, x.pages) {
      assert (nodes + [x])[|nodes|] == x;
    }
  }

  lemma RemoveInNode(nodes: seq<Node>, i: nat, p: nat)
    requires i < |nodes|
    ensures InNode(nodes, p) <==> InNode(nodes[..i] + nodes[i + 1..], p) || p in Range(nodes[i].phys, nodes[i].pages)
  {
    var rest := nodes[..i] + nodes[i + 1..];
    if InNode(nodes, p) && p !in Range(nodes[i].phys, nodes[i].pages) {
      var j :| 0 <= j < |nodes| && p in Range(nodes[j].phys, nodes[j].pages);
      assert rest[if j < i then j else j - 1] == nodes[j];
    }
    if InNode(rest, p) {
      var j :| 0 <= j < |rest| && p in Range(rest[j].phys, rest[j].pages);
      assert rest[j] == nodes[if j < i then j else j + 1];
    }
  }

  /** A yield keeps one owner for every page: the old frames go to the node, the free ones to the
      process. It rests on the frames being contiguous. */
  lemma YieldConserves(nodes: seq<Node>, m: Mem, universe: set<nat>, owner: int, v: nat, n: nat, base: nat, m': Mem,
                       id: BlockId)
    requires OwnedOnce(nodes, m, universe) && MemOk(m) && n > 0
    requires Yieldable(m, owner, v, n) && Range(base, n) <= m.free
    requires Refreshed(Allocated(m, base, n), owner, v, n, base, m')
    ensures OwnedOnce(nodes + [Node(id, BlockAt(m, owner, v).phys, n)], m', universe)
  {
    var x := Node(id, BlockAt(m, owner, v).phys, n);
    YieldFrames(m, owner, v, n, base, m');
    forall p | p in Range(x.phys, n)
      ensures InBlock(m, p)
    {
      assert BlockAt(m, owner, v + (p - x.phys)).phys == p;
    }
    YieldPartition(nodes, x, m, m', universe, base);
    AppendDisjoint(nodes, x, m, universe);
  }

  lemma YieldFrames(m: Mem, owner: int, v: nat, n: nat, base: nat, m': Mem)
    requires MemOk(m) && Injective(m) && n > 0 && Yieldable(m, owner, v, n)
    requires forall p :: p in Range(base, n) ==> !InBlock(m, p)
    requires Refreshed(Allocated(m, base, n), owner, v, n, base, m')
    ensures forall p :: InBlock(m', p) <==>
              p in Range(base, n) || (InBlock(m, p) && p !in Range(BlockAt(m, owner, v).phys, n))
    ensures Injective(m')
  {
    var m1 := Allocated(m, base, n);
    YieldableOwn(m, owner, v, n);
    ContiguousFrames(m, owner, v, n);
    SameFrames(m, m1, owner, v, n);
    FramesExchanged(m1, owner, v, n, base, m');
    ExchangeInjective(m1, owner, v, n, base, m');
  }

  lemma YieldPartition(nodes: seq<Node>, x: Node, m: Mem, m': Mem, universe: set<nat>, base: nat)
    requires Partition(nodes, m, universe) && Range(base, x.pages) <= m.free && m'.free == m.free - Range(base, x.pages)
    requires forall p :: InBlock(m', p) <==>
              p in Range(base, x.pages) || (InBlock(m, p) && p !in Range(x.phys, x.pages))
    requires forall p :: p in Range(x.phys, x.pages) ==> InBlock(m, p)
    ensures Partition(nodes + [x], m', universe)
  {
    forall p: nat
      ensures InNode(nodes + [x], p) <==> InNode(nodes, p) || p in Range(x.phys, x.pages)
    {
      AppendInNode(nodes, x, p);
    }
  }

  lemma AppendDisjoint(nodes: seq<Node>, x: Node, m: Mem, universe: set<nat>)
    requires Partition(nodes, m, universe) && DisjointNodes(nodes)
    requires forall p :: p in Range(x.phys, x.pages) ==> InBlock(m, p)
    ensures DisjointNodes(nodes + [x])
  {
    forall i, p | 0 <= i < |nodes| && p in Range(nodes[i].phys, nodes[i].pages)
      ensures p !in Range(x.phys, x.pages)
    {
      assert InNode(nodes, p);
    }
  }

  /** Two memories with the same mappings and blocks have the same frames. */
  lemma SameFrames(m: Mem, m1: Mem, owner: int, v: nat, n: nat)
    requires m1.space == m.space && m1.blocks == m.blocks
    ensures Mapped(m, owner, v, n) ==>
              Mapped(m1, owner, v, n) && OldFrames(m1, owner, v, n) == OldFrames(m, owner, v, n)
    ensures OwnPages(m, owner, v, n) ==> OwnPages(m1, owner, v, n)
    ensures forall p :: InBlock(m1, p) <==> InBlock(m, p)
  {
    if Mapped(m, owner, v, n) {
      forall k | v <= k < v + n
        ensures BlockAt(m1, owner, k) == BlockAt(m, owner, k)
      {
      }
    }
  }

  // ---------------------------------------------------------------- getblock

  /** The first n pages have the frames from `base` on; the frames they had are free. */
  ghost predicate Got(m: Mem, owner: int, v: nat, n: nat, base: nat, m': Mem)
    requires Mapped(m, owner, v, n)
  {
    Reframed(m, owner, v, n, base, m') && m'.free == m.free + OldFrames(m, owner, v, n)
  }

  lemma GotFrames(m: Mem, owner: int, v: nat, n: nat, base: nat, m': Mem)
    requires Injective(m) && OwnPages(m, owner, v, n) && Got(m, owner, v, n, base, m')
    requires forall p :: p in Range(base, n) ==> !InBlock(m, p)
    ensures forall p :: InBlock(m', p) <==> p in Range(base, n) || (InBlock(m, p) && p !in OldFrames(m, owner, v, n))
    ensures Injective(m')
  {
    FramesExchanged(m, owner, v, n, base, m');
    ExchangeInjective(m, owner, v, n, base, m');
  }

  lemma NodeNotBlock(nodes: seq<Node>, m: Mem, universe: set<nat>, i: nat, n: nat)
    requires Partition(nodes, m, universe) && i < |nodes| && n <= nodes[i].pages
    ensures forall p :: p in Range(nodes[i].phys, n) ==> !InBlock(m, p)
  {
    forall p | p in Range(nodes[i].phys, n)
      ensures !InBlock(m, p)
    {
      assert p in Range(nodes[i].phys, nodes[i].pages);
      assert InNode(nodes, p);
    }
  }

  /** A successful get keeps one owner for every page: the node's frames go to the process, whose old
      frames become free. */
  lemma GetConserves(nodes: seq<Node>, m: Mem, universe: set<nat>, owner: int, v: nat, i: nat, m': Mem)
    requires OwnedOnce(nodes, m, universe) && i < |nodes|
    requires OwnPages(m, owner, v, nodes[i].pages) && Got(m, owner, v, nodes[i].pages, nodes[i].phys, m')
    ensures OwnedOnce(nodes[..i] + nodes[i + 1..], m', universe)
  {
    var x := nodes[i];
    NodeNotBlock(nodes, m, universe, i, x.pages);
    GotFrames(m, owner, v, x.pages, x.phys, m');
    GetPartition(nodes, i, m, m', universe, OldFrames(m, owner, v, x.pages));
  }

  /** Without node i its pages, and no others, are in no node. */
  lemma NodesWithout(nodes: seq<Node>, i: nat)
    requires DisjointNodes(nodes) && i < |nodes|
    ensures DisjointNodes(nodes[..i] + nodes[i + 1..])
    ensures forall p :: InNode(nodes[..i] + nodes[i + 1..], p) <==>
              InNode(nodes, p) && p !in Range(nodes[i].phys, nodes[i].pages)
  {
    var rest := nodes[..i] + nodes[i + 1..];
    forall j, k | 0 <= j < k < |rest|
      ensures Range(rest[j].phys, rest[j].pages) !! Range(rest[k].phys, rest[k].pages)
    {
      var j0, k0 := if j < i then j else j + 1, if k < i then k else k + 1;
      assert rest[j] == nodes[j0] && rest[k] == nodes[k0];
    }
    forall p: nat
      ensures InNode(rest, p) <==> InNode(nodes, p) && p !in Range(nodes[i].phys, nodes[i].pages)
    {
      RemoveInNode(nodes, i, p);
      if InNode(rest, p) {
        var j :| 0 <= j < |rest| && p in Range(rest[j].phys, rest[j].pages);
        var j0 := if j < i then j else j + 1;
        assert rest[j] == nodes[j0];
      }
    }
  }

  lemma GetPartition(nodes: seq<Node>, i: nat, m: Mem, m': Mem, universe: set<nat>, olds: set<nat>)
    requires Partition(nodes, m, universe) && DisjointNodes(nodes) && i < |nodes|
    requires m'.free == m.free + olds && forall p :: p in olds ==> InBlock(m, p)
    requires forall p :: InBlock(m', p) <==> p in Range(nodes[i].phys, nodes[i].pages) || (InBlock(m, p) && p !in olds)
    ensures Partition(nodes[..i] + nodes[i + 1..], m', universe) && DisjointNodes(nodes[..i] + nodes[i + 1..])
  {
    NodesWithout(nodes, i);
    PagesInNode(nodes, i);
  }

  lemma PagesInNode(nodes: seq<Node>, i: nat)
    requires i < |nodes|
    ensures forall p :: p in Range(nodes[i].phys, nodes[i].pages) ==> InNode(nodes, p)
  {
  }

  /** A get that stops after `moved` pages, because the next is not mapped, leaves its node in place.
      Pages then have one owner if and only if nothing was moved. */
  lemma PartialGetConserves(nodes: seq<Node>, m: Mem, universe: set<nat>, owner: int, v: nat, i: nat, moved: nat,
                            m': Mem)
    requires OwnedOnce(nodes, m, universe) && i < |nodes| && moved < nodes[i].pages
    requires OwnPages(m, owner, v, moved) && Got(m, owner, v, moved, nodes[i].phys, m')
    ensures OwnedOnce(nodes, m', universe) <==> moved == 0
  {
    if moved > 0 {
      var p := nodes[i].phys;
      assert m'.blocks[m.space[Addr(owner, v)].ref].phys == p;
      assert InBlock(m', p);
      assert p in Range(nodes[i].phys, nodes[i].pages);
      assert InNode(nodes, p);
    } else {
      assert forall r :: r in m.blocks ==> m'.blocks[r] == m.blocks[r];
      assert m'.blocks == m.blocks;
      SameFrames(m, m', owner, v, 0);
    }
  }

  /** A yielded block of frames 1 and 2, and a process of which page 0, in frame 0, is mapped and page
      1 is not. */
  const HALF_NODE := Node(BlockId(0, 7), 1, 2)
  const HALF_MEM := Mem(map[Addr(0, 0) := Mapping(0, true)], map[0 := PhysBlock(0, 1)], {}, map[])

  lemma HalfOwned()
    ensures MemOk(HALF_MEM) && OwnedOnce([HALF_NODE], HALF_MEM, {0, 1, 2})
  {
    forall p: nat
      ensures InNode([HALF_NODE], p) <==> p in Range(1, 2)
    {
      assert [HALF_NODE][0] == HALF_NODE;
    }
    forall p: nat
      ensures InBlock(HALF_MEM, p) <==> p == 0
    {
      assert HALF_MEM.blocks[0].phys == 0;
    }
  }

  /** A get of that block for pages 0 and 1 stops after page 0; frame 1 then belongs to the process and
      still to the block. */
  lemma PartialGetExample()
    ensures MemOk(HALF_MEM) && OwnedOnce([HALF_NODE], HALF_MEM, {0, 1, 2})
    ensures Addr(0, 0) in HALF_MEM.space && Addr(0, 1) !in HALF_MEM.space && OwnPages(HALF_MEM, 0, 0, 1)
    ensures var m' := HALF_MEM.(blocks := map[0 := PhysBlock(1, 1)], free := {0});
            Got(HALF_MEM, 0, 0, 1, HALF_NODE.phys, m') && !OwnedOnce([HALF_NODE], m', {0, 1, 2})
  {
    var m' := HALF_MEM.(blocks := map[0 := PhysBlock(1, 1)], free := {0});
    HalfOwned();
    assert BlockAt(HALF_MEM, 0, 0) == PhysBlock(0, 1) && OldFrames(HALF_MEM, 0, 0, 1) == {0};
    PartialGetConserves([HALF_NODE], HALF_MEM, {0, 1, 2}, 0, 0, 0, 1, m');
  }

  /** Freeing a node with its memory. */
  lemma FreeConserves(nodes: seq<Node>, m: Mem, universe: set<nat>, i: nat)
    requires OwnedOnce(nodes, m, universe) && i < |nodes|
    ensures OwnedOnce(nodes[..i] + nodes[i + 1..], Freed(m, nodes[i]), universe)
  {
    var m' := Freed(m, nodes[i]);
    SameFrames(m, m', 0, 0, 0);
    FreePartition(nodes, i, m, m', universe);
  }

  lemma FreePartition(nodes: seq<Node>, i: nat, m: Mem, m': Mem, universe: set<nat>)
    requires Partition(nodes, m, universe) && DisjointNodes(nodes) && i < |nodes|
    requires m'.free == m.free + Range(nodes[i].phys, nodes[i].pages)
    requires forall p :: InBlock(m', p) <==> InBlock(m, p)
    ensures Partition(nodes[..i] + nodes[i + 1..], m', universe) && DisjointNodes(nodes[..i] + nodes[i + 1..])
  {
    NodesWithout(nodes, i);
    PagesInNode(nodes, i);
  }

  // ---------------------------------------------------------------- freeing

  function Freed(m: Mem, x: Node): Mem {
    m.(free := m.free + Range(x.phys, x.pages))
  }

  function FreedAll(m: Mem, nodes: seq<Node>): Mem {
    if nodes == [] then m else Freed(FreedAll(m, nodes[..|nodes| - 1]), nodes[|nodes| - 1])
  }

  /** The nodes of other processes, in order. */
  function OthersIn(nodes: seq<Node>, owner: int): (r: seq<Node>)
    ensures forall x :: x in r <==> x in nodes && x.id.owner != owner
  {
    if nodes == [] then [] else (if nodes[0].id.owner == owner then [] else [nodes[0]]) + OthersIn(nodes[1..], owner)
  }

  /** The frames of a process's nodes. */
  function FramesIn(nodes: seq<Node>, owner: int): set<nat> {
    if nodes == [] then {}
    else (if nodes[0].id.owner == owner then Range(nodes[0].phys, nodes[0].pages) else {}) + FramesIn(nodes[1..], owner)
  }

  /** Freeing the n oldest nodes keeps one owner for every page. */
  lemma {:induction false} OldestConserve(nodes: seq<Node>, m: Mem, universe: set<nat>, n: nat)
    requires OwnedOnce(nodes, m, universe) && n <= |nodes|
    ensures OwnedOnce(nodes[n..], FreedAll(m, nodes[..n]), universe)
    ensures FreedAll(m, nodes[..n]).contents == m.contents
  {
    if n == 0 {
      assert nodes[0..] == nodes;
    } else {
      OldestConserve(nodes, m, universe, n - 1);
      FirstConserves(nodes[n - 1..], FreedAll(m, nodes[..n - 1]), universe);
      assert nodes[n - 1..][1..] == nodes[n..] && nodes[n - 1..][0] == nodes[n - 1];
      assert nodes[..n][..n - 1] == nodes[..n - 1];
    }
  }

  lemma FirstConserves(nodes: seq<Node>, m: Mem, universe: set<nat>)
    requires OwnedOnce(nodes, m, universe) && nodes != []
    ensures OwnedOnce(nodes[1..], Freed(m, nodes[0]), universe)
  {
    FreeConserves(nodes, m, universe, 0);
    assert nodes[..0] + nodes[1..] == nodes[1..];
  }

  /** Freeing every node of a process does, too. */
  lemma OwnedConserve(nodes: seq<Node>, m: Mem, universe: set<nat>, owner: int)
    requires OwnedOnce(nodes, m, universe)
    ensures OwnedOnce(OthersIn(nodes, owner), m.(free := m.free + FramesIn(nodes, owner)), universe)
  {
    var m' := m.(free := m.free + FramesIn(nodes, owner));
    OthersApart(nodes, owner);
    SameFrames(m, m', 0, 0, 0);
  }

  /** Without a process's nodes their frames, and no others, are in no node. */
  lemma {:induction false} OthersApart(nodes: seq<Node>, owner: int)
    requires DisjointNodes(nodes)
    ensures DisjointNodes(OthersIn(nodes, owner))
    ensures forall p :: p in FramesIn(nodes, owner) ==> InNode(nodes, p)
    ensures forall p :: InNode(OthersIn(nodes, owner), p) <==> InNode(nodes, p) && p !in FramesIn(nodes, owner)
  {
    if nodes != [] {
      var x, rest := nodes[0], nodes[1..];
      OthersApart(rest, owner);
      forall p: nat
        ensures InNode(nodes, p) <==> p in Range(x.phys, x.pages) || InNode(rest, p)
        ensures !(p in Range(x.phys, x.pages) && InNode(rest, p))
      {
        FirstInNode(nodes, p);
      }
      if x.id.owner != owner {
        FirstApart(x, OthersIn(rest, owner));
      } else {
        assert OthersIn(nodes, owner) == OthersIn(rest, owner);
      }
    }
  }

  lemma FirstInNode(nodes: seq<Node>, p: nat)
    requires DisjointNodes(nodes) && nodes != []
    ensures InNode(nodes, p) <==> p in Range(nodes[0].phys, nodes[0].pages) || InNode(nodes[1..], p)
    ensures !(p in Range(nodes[0].phys, nodes[0].pages) && InNode(nodes[1..], p))
  {
    var rest := nodes[1..];
    if InNode(rest, p) {
      var i :| 0 <= i < |rest| && p in Range(rest[i].phys, rest[i].pages);
      assert nodes[i + 1] == rest[i];
    }
    if InNode(nodes, p) && p !in Range(nodes[0].phys, nodes[0].pages) {
      var i :| 0 <= i < |nodes| && p in Range(nodes[i].phys, nodes[i].pages);
      assert rest[i - 1] == nodes[i];
    }
  }

  lemma FirstApart(x: Node, rest: seq<Node>)
    requires DisjointNodes(rest) && forall p :: p in Range(x.phys, x.pages) ==> !InNode(rest, p)
    ensures DisjointNodes([x] + rest)
    ensures forall p :: InNode([x] + rest, p) <==> p in Range(x.phys, x.pages) || InNode(rest, p)
  {
    var all := [x] + rest;
    forall i, j | 0 <= i < j < |all|
      ensures Range(all[i].phys, all[i].pages) !! Range(all[j].phys, all[j].pages)
    {
      PagesInNode(rest, j - 1);
    }
    forall p: nat
      ensures InNode(all, p) <==> p in Range(x.phys, x.pages) || InNode(rest, p)
    {
      FirstOrRest(x, rest, p);
    }
  }

  lemma FirstOrRest(x: Node, rest: seq<Node>, p: nat)
    ensures InNode([x] + rest, p) <==> p in Range(x.phys, x.pages) || InNode(rest, p)
  {
    var all := [x] + rest;
    if InNode(rest, p) {
      var i :| 0 <= i < |rest| && p in Range(rest[i].phys, rest[i].pages);
      assert all[i + 1] == rest[i];
    }
    if p in Range(x.phys, x.pages) {
      assert all[0] == x;
    }
  }

  // ---------------------------------------------------------------- contents

  /** What VM holds, by id, for all processes together. */
  ghost predicate StoreIs(nodes: seq<Node>, m: Mem, store: map<BlockId, seq<Page>>) {
    && (forall id :: id in store ==> exists x :: x in nodes && x.id == id)
    && (forall x :: x in nodes ==> x.id in store && store[x.id] == NodeContents(m, x))
  }

  ghost predicate DistinctIds(nodes: seq<Node>) {
    forall i, j :: 0 <= i < j < |nodes| ==> nodes[i].id != nodes[j].id
  }

  /** The page at `a` keeps its mapping, its block and its contents. */
  ghost predicate KeptPage(m: Mem, m': Mem, a: Addr) {
    && a in m.space && a in m'.space && m'.space[a] == m.space[a]
    && m.space[a].ref in m.blocks && m.space[a].ref in m'.blocks
    && m'.blocks[m.space[a].ref] == m.blocks[m.space[a].ref]
    && PageOf(m', m.blocks[m.space[a].ref].phys) == PageOf(m, m.blocks[m.space[a].ref].phys)
  }

  predicate Among(a: Addr, owner: int, v: nat, n: nat) {
    a.owner == owner && v <= a.vpage < v + n
  }

  /** Every mapped page of every process other than n pages from v on is kept. */
  ghost predicate PagesKept(m: Mem, m': Mem, owner: int, v: nat, n: nat) {
    forall a {:trigger KeptPage(m, m', a)} :: a in m.space && !Among(a, owner, v, n) ==> KeptPage(m, m', a)
  }

  /** A page that is not one of n own pages has another block than they. */
  lemma OtherBlock(m: Mem, owner: int, v: nat, n: nat, a: Addr)
    requires MemOk(m) && OwnPages(m, owner, v, n) && a in m.space && !Among(a, owner, v, n)
    ensures forall k :: v <= k < v + n ==> m.space[Addr(owner, k)].ref != m.space[a].ref
  {
    forall k | v <= k < v + n
      ensures m.space[Addr(owner, k)].ref != m.space[a].ref
    {
      assert BlockAt(m, owner, k).refcount == 1;
      assert !Shared(m.space, Addr(owner, k), a);
    }
  }

  /** A yield keeps every other page: its frame is not one that was free. */
  lemma YieldKeepsPages(nodes: seq<Node>, m: Mem, universe: set<nat>, owner: int, v: nat, n: nat, base: nat, m': Mem)
    requires OwnedOnce(nodes, m, universe) && MemOk(m)
    requires Yieldable(m, owner, v, n) && Range(base, n) <= m.free
    requires Refreshed(Allocated(m, base, n), owner, v, n, base, m')
    ensures PagesKept(m, m', owner, v, n)
  {
    YieldableOwn(m, owner, v, n);
    forall a | a in m.space && !Among(a, owner, v, n)
      ensures KeptPage(m, m', a)
    {
      OtherBlock(m, owner, v, n, a);
      assert InBlock(m, m.blocks[m.space[a].ref].phys);
    }
  }

  /** So does a get, also one that stops halfway. */
  lemma GetKeepsPages(m: Mem, owner: int, v: nat, n: nat, base: nat, m': Mem)
    requires MemOk(m) && OwnPages(m, owner, v, n) && Got(m, owner, v, n, base, m')
    ensures PagesKept(m, m', owner, v, n)
  {
    forall a | a in m.space && !Among(a, owner, v, n)
      ensures KeptPage(m, m', a)
    {
      OtherBlock(m, owner, v, n, a);
    }
  }

  /** A step that removes nodes, and changes no page of those that stay, leaves of the store what
      belongs to those. */
  lemma StoreKept(nodes: seq<Node>, nodes': seq<Node>, m: Mem, m': Mem, store: map<BlockId, seq<Page>>,
                  store': map<BlockId, seq<Page>>)
    requires StoreIs(nodes, m, store) && forall x :: x in nodes' <==> x in nodes && x.id in store'
    requires store'.Keys <= store.Keys && forall id :: id in store' ==> store'[id] == store[id]
    requires forall p :: InNode(nodes', p) ==> PageOf(m', p) == PageOf(m, p)
    ensures StoreIs(nodes', m', store')
  {
    forall x | x in nodes'
      ensures x.id in store' && store'[x.id] == NodeContents(m', x)
    {
      var i :| 0 <= i < |nodes'| && nodes'[i] == x;
      PagesInNode(nodes', i);
    }
    forall id | id in store'
      ensures exists x :: x in nodes' && x.id == id
    {
      var x :| x in nodes && x.id == id;
    }
  }

  /** After a yield the node holds what the process's pages held, and the pages are clear; what the
      other nodes hold, and the other pages, of any process, are untouched. */
  lemma YieldContents(nodes: seq<Node>, m: Mem, universe: set<nat>, id: BlockId, v: nat, n: nat, base: nat, m': Mem,
                      store: map<BlockId, seq<Page>>)
    requires OwnedOnce(nodes, m, universe) && MemOk(m) && n > 0
    requires Yieldable(m, id.owner, v, n) && Range(base, n) <= m.free
    requires Refreshed(Allocated(m, base, n), id.owner, v, n, base, m')
    requires StoreIs(nodes, m, store) && id !in store
    ensures Mapped(m', id.owner, v, n) && Contents(m', id.owner, v, n) == Clear(n)
    ensures StoreIs(nodes + [Node(id, BlockAt(m, id.owner, v).phys, n)], m', store[id := Contents(m, id.owner, v, n)])
    ensures PagesKept(m, m', id.owner, v, n)
  {
    YieldKeepsPages(nodes, m, universe, id.owner, v, n, base, m');
    var x := Node(id, BlockAt(m, id.owner, v).phys, n);
    PagesCleared(m, id.owner, v, n, base, m');
    forall p | InNode(nodes, p) || InBlock(m, p)
      ensures PageOf(m', p) == PageOf(m, p)
    {
    }
    NodeTakesContents(m, id.owner, v, n, m', x);
    StoreAppend(nodes, x, m, m', store);
  }

  lemma NewFrame(m: Mem, owner: int, v: nat, n: nat, base: nat, m': Mem, k: nat)
    requires Mapped(m, owner, v, n) && Reframed(m, owner, v, n, base, m') && v <= k < v + n
    ensures Mapped(m', owner, k, 1) && BlockAt(m', owner, k).phys == base + (k - v)
  {
    assert Addr(owner, k) in m.space;
  }

  lemma PagesCleared(m: Mem, owner: int, v: nat, n: nat, base: nat, m': Mem)
    requires Mapped(m, owner, v, n) && Refreshed(Allocated(m, base, n), owner, v, n, base, m')
    ensures Mapped(m', owner, v, n) && Contents(m', owner, v, n) == Clear(n)
  {
    var m1 := Allocated(m, base, n);
    forall k | 0 <= k < n
      ensures Contents(m', owner, v, n)[k] == ZERO_PAGE
    {
      NewFrame(m1, owner, v, n, base, m', v + k);
      assert base + k in Range(base, n);
    }
  }

  lemma NodeTakesContents(m: Mem, owner: int, v: nat, n: nat, m': Mem, x: Node)
    requires MemOk(m) && Yieldable(m, owner, v, n) && n > 0
    requires x.phys == BlockAt(m, owner, v).phys && x.pages == n
    requires forall p :: InBlock(m, p) ==> PageOf(m', p) == PageOf(m, p)
    ensures NodeContents(m', x) == Contents(m, owner, v, n)
  {
    forall k | 0 <= k < n
      ensures NodeContents(m', x)[k] == Contents(m, owner, v, n)[k]
    {
      assert BlockAt(m, owner, v + k).phys == x.phys + k;
      assert InBlock(m, x.phys + k);
    }
  }

  lemma StoreAppend(nodes: seq<Node>, x: Node, m: Mem, m': Mem, store: map<BlockId, seq<Page>>)
    requires StoreIs(nodes, m, store) && x.id !in store
    requires forall p :: InNode(nodes, p) ==> PageOf(m', p) == PageOf(m, p)
    ensures StoreIs(nodes + [x], m', store[x.id := NodeContents(m', x)])
  {
    StoreKept(nodes, nodes, m, m', store, store);
    var nodes', store' := nodes + [x], store[x.id := NodeContents(m', x)];
    assert x in nodes';
    forall id | id in store'
      ensures exists y :: y in nodes' && y.id == id
    {
      if id != x.id {
        var y :| y in nodes && y.id == id;
        assert y in nodes';
      }
    }
  }

  /** A get delivers exactly what the node held, and leaves the other nodes and the other pages, of any
      process, alone. */
  lemma GetContents(nodes: seq<Node>, m: Mem, owner: int, v: nat, i: nat, m': Mem, store: map<BlockId, seq<Page>>)
    requires i < |nodes| && DistinctIds(nodes) && StoreIs(nodes, m, store) && MemOk(m)
    requires OwnPages(m, owner, v, nodes[i].pages) && Got(m, owner, v, nodes[i].pages, nodes[i].phys, m')
    ensures Mapped(m', owner, v, nodes[i].pages)
    ensures nodes[i].id in store && Contents(m', owner, v, nodes[i].pages) == store[nodes[i].id]
    ensures StoreIs(nodes[..i] + nodes[i + 1..], m', store - {nodes[i].id})
    ensures PagesKept(m, m', owner, v, nodes[i].pages)
  {
    assert nodes[i] in nodes;
    GetKeepsPages(m, owner, v, nodes[i].pages, nodes[i].phys, m');
    GetDelivers(m, owner, v, nodes[i], m');
    StoreRemove(nodes, i, m, m', store);
  }

  lemma GetDelivers(m: Mem, owner: int, v: nat, x: Node, m': Mem)
    requires Mapped(m, owner, v, x.pages) && Got(m, owner, v, x.pages, x.phys, m')
    ensures Mapped(m', owner, v, x.pages) && Contents(m', owner, v, x.pages) == NodeContents(m, x)
  {
    forall k | v <= k < v + x.pages
      ensures Mapped(m', owner, k, 1) && BlockAt(m', owner, k).phys == x.phys + (k - v)
    {
      NewFrame(m, owner, v, x.pages, x.phys, m', k);
    }
    assert Contents(m', owner, v, x.pages) == NodeContents(m, x);
  }

  lemma StoreRemove(nodes: seq<Node>, i: nat, m: Mem, m': Mem, store: map<BlockId, seq<Page>>)
    requires i < |nodes| && DistinctIds(nodes) && StoreIs(nodes, m, store) && m'.contents == m.contents
    ensures StoreIs(nodes[..i] + nodes[i + 1..], m', store - {nodes[i].id})
  {
    DistinctWithout(nodes, i);
    StoreKept(nodes, nodes[..i] + nodes[i + 1..], m, m', store, store - {nodes[i].id});
  }

  lemma DistinctWithout(nodes: seq<Node>, i: nat)
    requires i < |nodes| && DistinctIds(nodes)
    ensures DistinctIds(nodes[..i] + nodes[i + 1..])
    ensures forall x :: x in nodes[..i] + nodes[i + 1..] <==> x in nodes && x.id != nodes[i].id
  {
    var rest := nodes[..i] + nodes[i + 1..];
    forall x
      ensures x in rest <==> x in nodes && x.id != nodes[i].id
    {
      if x in nodes && x.id != nodes[i].id {
        var j :| 0 <= j < |nodes| && nodes[j] == x;
        assert rest[if j < i then j else j - 1] == x;
      }
    }
    forall j, k | 0 <= j < k < |rest|
      ensures rest[j].id != rest[k].id
    {
      assert rest[j] == nodes[if j < i then j else j + 1] && rest[k] == nodes[if k < i then k else k + 1];
    }
  }
}
