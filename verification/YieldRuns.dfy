/** Whole runs of VM's second-level cache: requests of any number of processes, memory pressure, and
    what the processes do to their own pages in between. */
module YieldRuns {
  import opened Chains
  import opened YieldInterface
  import opened YieldMemory
  import opened YieldedBlocks

  /** A request to VM, or a step of a process on its own memory. The other arguments of a combined
      request are those of `Vm.YieldGet`. */
  datatype Request =
    | YieldAndGet(owner: int, yieldid: Option<nat>, getid: Option<nat>, vaddr: nat, len: nat, slabOk: bool,
                  grant: Option<nat>, inRegion: bool)
    | Reclaim(maxBytes: nat)
    | Forget(owner: int, id: nat)
    | ForgetAll(owner: int)
    | Touch(a: Addr, page: Page)
    | MapPage(a: Addr, ref: nat, anon: bool, frame: nat, page: Page)
    | UnmapPage(a: Addr)

  /** The yielded blocks from the oldest to the youngest, and memory. */
  datatype State = State(nodes: seq<Node>, m: Mem)

  /** A process stores to one of its pages. */
  function Touched(m: Mem, a: Addr, page: Page): Mem {
    if a in m.space && m.space[a].ref in m.blocks
    then m.(contents := m.contents[m.blocks[m.space[a].ref].phys := page])
    else m
  }

  /** A page gets a free frame, in a phys block of its own. */
  function PageMapped(m: Mem, a: Addr, ref: nat, anon: bool, frame: nat, page: Page): Mem {
    if a !in m.space && ref !in m.blocks && frame in m.free
    then Mem(m.space[a := Mapping(ref, anon)], m.blocks[ref := PhysBlock(frame, 1)], m.free - {frame},
             m.contents[frame := page])
    else m
  }

  /** A page mapped once gives its frame back. */
  function PageUnmapped(m: Mem, a: Addr): Mem {
    if a in m.space && m.space[a].ref in m.blocks && m.blocks[m.space[a].ref].refcount == 1
    then Mem(m.space - {a}, m.blocks - {m.space[a].ref}, m.free + {m.blocks[m.space[a].ref].phys}, m.contents)
    else m
  }

  ghost predicate CombinedStep(s: State, q: Request, w: Halves, r: Status, s': State)
    requires q.YieldAndGet?
  {
    var pages := q.len / VM_PAGE_SIZE;
    if q.len % VM_PAGE_SIZE != 0 || pages < 1 then r == EFAULT && s' == s
    else
      && YieldHalf(s.nodes, s.m, q.owner, q.yieldid, q.vaddr, pages, q.slabOk, q.grant, w.nodes, w.m)
      && GetHalf(w.nodes, w.m, q.owner, q.getid, q.vaddr, pages, q.inRegion, r, w.moved, w.i, s'.nodes, s'.m)
  }

  ghost predicate ForgetStep(s: State, id: BlockId, s': State) {
    || (s' == s && forall i :: 0 <= i < |s.nodes| ==> s.nodes[i].id != id)
    || (exists i :: 0 <= i < |s.nodes| && s.nodes[i].id == id &&
                    s' == State(s.nodes[..i] + s.nodes[i + 1..], Freed(s.m, s.nodes[i])))
  }

  ghost predicate Step(s: State, q: Request, r: Status, s': State) {
    match q
    case YieldAndGet(_, _, _, _, _, _, _, _) => exists w :: CombinedStep(s, q, w, r, s')
    case Reclaim(maxBytes) =>
      var n := Oldest(|s.nodes|, maxBytes);
      r == OK && s' == State(s.nodes[n..], FreedAll(s.m, s.nodes[..n]))
    case Forget(owner, id) => r == OK && ForgetStep(s, BlockId(owner, id), s')
    case ForgetAll(owner) =>
      r == OK && s' == State(OthersIn(s.nodes, owner), s.m.(free := s.m.free + FramesIn(s.nodes, owner)))
    case Touch(a, page) => r == OK && s' == s.(m := Touched(s.m, a, page))
    case MapPage(a, ref, anon, frame, page) => r == OK && s' == s.(m := PageMapped(s.m, a, ref, anon, frame, page))
    case UnmapPage(a) => r == OK && s' == s.(m := PageUnmapped(s.m, a))
  }

  /** The request is a get that stops after some of its pages. */
  ghost predicate Stops(s: State, q: Request) {
    && q.YieldAndGet? && q.len % VM_PAGE_SIZE == 0 && q.len >= VM_PAGE_SIZE
    && StopsHalfway(s.nodes, s.m, q.owner, q.getid, q.vaddr, q.len / VM_PAGE_SIZE)
  }

  ghost predicate Inv(s: State, universe: set<nat>) {
    MemOk(s.m) && DistinctIds(s.nodes) && OwnedOnce(s.nodes, s.m, universe)
  }

  // ---------------------------------------------------------------- one owner for every page

  lemma YieldHalfInv(s: State, q: Request, w: Halves, universe: set<nat>)
    requires q.YieldAndGet? && Inv(s, universe) && q.len % VM_PAGE_SIZE == 0 && q.len / VM_PAGE_SIZE >= 1
    requires YieldHalf(s.nodes, s.m, q.owner, q.yieldid, q.vaddr, q.len / VM_PAGE_SIZE, q.slabOk, q.grant, w.nodes, w.m)
    ensures Inv(State(w.nodes, w.m), universe)
    ensures Stops(State(w.nodes, w.m), q) <==> Stops(s, q)
  {
    var v, pages := q.vaddr / VM_PAGE_SIZE, q.len / VM_PAGE_SIZE;
    if w.nodes != s.nodes || w.m != s.m {
      var id := BlockId(q.owner, q.yieldid.value);
      YieldOwned(s.nodes, s.m, universe, id, v, pages, q.grant, w.nodes, w.m);
      RefreshedOk(s.m, q.owner, v, pages, q.grant.value, w.m);
    }
    YieldThenGet(s.nodes, s.m, q.owner, q.yieldid, q.getid, q.vaddr, pages, q.slabOk, q.grant, w.nodes, w.m);
  }

  lemma GetHalfInv(s: State, q: Request, w: Halves, r: Status, s': State, universe: set<nat>)
    requires q.YieldAndGet? && Inv(s, universe) && q.len % VM_PAGE_SIZE == 0 && q.len / VM_PAGE_SIZE >= 1
    requires GetHalf(s.nodes, s.m, q.owner, q.getid, q.vaddr, q.len / VM_PAGE_SIZE, q.inRegion, r, w.moved, w.i,
                     s'.nodes, s'.m)
    ensures MemOk(s'.m) && DistinctIds(s'.nodes)
    ensures OwnedOnce(s'.nodes, s'.m, universe) <==> !Stops(s, q)
  {
    var v, pages := q.vaddr / VM_PAGE_SIZE, q.len / VM_PAGE_SIZE;
    if q.getid.Some? {
      var id := BlockId(q.owner, q.getid.value);
      GetOwnership(s.nodes, s.m, universe, id, q.vaddr, pages, q.inRegion, r, w.moved, w.i, s'.nodes, s'.m);
      if r == OK {
        SameCounts(s.m, q.owner, v, pages, s.nodes[w.i].phys, s'.m);
        DistinctWithout(s.nodes, w.i);
      } else if r == EINVAL && s'.m != s.m {
        SameCounts(s.m, q.owner, v, w.moved, s.nodes[w.i].phys, s'.m);
      }
    }
  }

  /** A combined request keeps one owner for every page, unless it stops halfway; then it does not. */
  lemma CombinedConserves(s: State, q: Request, w: Halves, r: Status, s': State, universe: set<nat>)
    requires q.YieldAndGet? && Inv(s, universe) && CombinedStep(s, q, w, r, s')
    ensures MemOk(s'.m) && DistinctIds(s'.nodes)
    ensures OwnedOnce(s'.nodes, s'.m, universe) <==> !Stops(s, q)
  {
    if q.len % VM_PAGE_SIZE == 0 && q.len / VM_PAGE_SIZE >= 1 {
      YieldHalfInv(s, q, w, universe);
      GetHalfInv(State(w.nodes, w.m), q, w, r, s', universe);
    }
  }

  lemma {:induction false} OldestApart(nodes: seq<Node>, m: Mem, n: nat)
    requires DistinctIds(nodes) && MemOk(m) && n <= |nodes|
    ensures DistinctIds(nodes[n..]) && MemOk(FreedAll(m, nodes[..n]))
    ensures FreedAll(m, nodes[..n]).space == m.space && FreedAll(m, nodes[..n]).blocks == m.blocks
  {
    if n > 0 {
      OldestApart(nodes, m, n - 1);
      assert nodes[..n][..n - 1] == nodes[..n - 1];
    }
  }

  lemma {:induction false} OthersDistinct(nodes: seq<Node>, owner: int)
    requires DistinctIds(nodes)
    ensures DistinctIds(OthersIn(nodes, owner))
  {
    if nodes != [] {
      var rest := OthersIn(nodes[1..], owner);
      OthersDistinct(nodes[1..], owner);
      forall k | 0 <= k < |rest|
        ensures rest[k].id != nodes[0].id
      {
        assert rest[k] in nodes[1..];
      }
      assert OthersIn(nodes, owner) == rest || OthersIn(nodes, owner) == [nodes[0]] + rest;
    }
  }

  lemma FreeingConserves(s: State, q: Request, r: Status, s': State, universe: set<nat>)
    requires Inv(s, universe) && Step(s, q, r, s') && (q.Reclaim? || q.Forget? || q.ForgetAll?)
    ensures Inv(s', universe) && s'.m.contents == s.m.contents
  {
    match q
    case Reclaim(maxBytes) =>
      var n := Oldest(|s.nodes|, maxBytes);
      OldestConserve(s.nodes, s.m, universe, n);
      OldestApart(s.nodes, s.m, n);
    case Forget(owner, id) =>
      if s' != s {
        var i :| 0 <= i < |s.nodes| && s' == State(s.nodes[..i] + s.nodes[i + 1..], Freed(s.m, s.nodes[i]));
        FreeConserves(s.nodes, s.m, universe, i);
        DistinctWithout(s.nodes, i);
      }
    case ForgetAll(owner) =>
      OwnedConserve(s.nodes, s.m, universe, owner);
      OthersDistinct(s.nodes, owner);
    case _ =>
  }

  /** What a process does to its own pages touches no yielded block. */
  lemma OwnStepConserves(s: State, q: Request, r: Status, s': State, universe: set<nat>)
    requires Inv(s, universe) && Step(s, q, r, s') && (q.Touch? || q.MapPage? || q.UnmapPage?)
    ensures Inv(s', universe) && s'.nodes == s.nodes
    ensures forall p :: InNode(s.nodes, p) ==> PageOf(s'.m, p) == PageOf(s.m, p)
  {
    match q
    case Touch(a, page) => SameFrames(s.m, s'.m, 0, 0, 0);
    case MapPage(a, ref, anon, frame, page) =>
      if s' != s {
        PageMappedInv(s, a, ref, anon, frame, page, universe);
      }
    case UnmapPage(a) =>
      if s' != s {
        PageUnmappedInv(s, a, universe);
      }
    case _ =>
  }

  lemma PageMappedOk(m: Mem, a: Addr, ref: nat, anon: bool, frame: nat, page: Page)
    requires MemOk(m)
    ensures MemOk(PageMapped(m, a, ref, anon, frame, page))
  {
    var m' := PageMapped(m, a, ref, anon, frame, page);
    forall b, c | Shared(m'.space, b, c)
      ensures m'.blocks[m'.space[b].ref].refcount > 1
    {
      assert Shared(m.space, b, c);
    }
  }

  lemma PageUnmappedOk(m: Mem, a: Addr)
    requires MemOk(m)
    ensures MemOk(PageUnmapped(m, a))
  {
    var m' := PageUnmapped(m, a);
    forall b | b in m'.space
      ensures m'.space[b].ref in m'.blocks
    {
      assert m' != m && m.space[b].ref == m.space[a].ref ==> Shared(m.space, a, b);
    }
    forall b, c | Shared(m'.space, b, c)
      ensures m'.blocks[m'.space[b].ref].refcount > 1
    {
      assert Shared(m.space, b, c);
    }
  }

  lemma PageMappedInv(s: State, a: Addr, ref: nat, anon: bool, frame: nat, page: Page, universe: set<nat>)
    requires Inv(s, universe) && a !in s.m.space && ref !in s.m.blocks && frame in s.m.free
    ensures Inv(s.(m := PageMapped(s.m, a, ref, anon, frame, page)), universe)
  {
    var m' := PageMapped(s.m, a, ref, anon, frame, page);
    forall p: nat
      ensures InBlock(m', p) <==> InBlock(s.m, p) || p == frame
    {
      if InBlock(s.m, p) {
        var r :| r in s.m.blocks && s.m.blocks[r].phys == p;
        assert m'.blocks[r].phys == p;
      }
      assert m'.blocks[ref].phys == frame;
    }
    forall r, t | r in m'.blocks && t in m'.blocks && r != t
      ensures m'.blocks[r].phys != m'.blocks[t].phys
    {
      assert r != ref ==> InBlock(s.m, m'.blocks[r].phys);
      assert t != ref ==> InBlock(s.m, m'.blocks[t].phys);
    }
    PageMappedOk(s.m, a, ref, anon, frame, page);
  }

  lemma PageUnmappedInv(s: State, a: Addr, universe: set<nat>)
    requires Inv(s, universe) && a in s.m.space && s.m.blocks[s.m.space[a].ref].refcount == 1
    ensures Inv(s.(m := PageUnmapped(s.m, a)), universe)
  {
    var m' := PageUnmapped(s.m, a);
    var ref, frame := s.m.space[a].ref, s.m.blocks[s.m.space[a].ref].phys;
    assert InBlock(s.m, frame);
    forall p: nat
      ensures InBlock(m', p) <==> InBlock(s.m, p) && p != frame
    {
      if InBlock(s.m, p) && p != frame {
        var r :| r in s.m.blocks && s.m.blocks[r].phys == p;
        assert m'.blocks[r].phys == p;
      }
    }
    PageUnmappedOk(s.m, a);
  }

  /** Every step keeps one owner for every page, except exactly a get that stops halfway. */
  lemma StepConserves(s: State, q: Request, r: Status, s': State, universe: set<nat>)
    requires Inv(s, universe) && Step(s, q, r, s')
    ensures MemOk(s'.m) && DistinctIds(s'.nodes)
    ensures OwnedOnce(s'.nodes, s'.m, universe) <==> !Stops(s, q)
  {
    if q.YieldAndGet? {
      var w :| CombinedStep(s, q, w, r, s');
      CombinedConserves(s, q, w, r, s', universe);
    } else if q.Reclaim? || q.Forget? || q.ForgetAll? {
      FreeingConserves(s, q, r, s', universe);
    } else {
      OwnStepConserves(s, q, r, s', universe);
    }
  }

  // ---------------------------------------------------------------- what VM holds

  /** Whether yieldblock can accept the pages. */
  ghost predicate Accepts(m: Mem, q: Request)
    requires q.YieldAndGet?
  {
    var pages := q.len / VM_PAGE_SIZE;
    && MemOk(m) && q.vaddr % VM_PAGE_SIZE == 0 && YieldScan(m, q.owner, q.vaddr / VM_PAGE_SIZE, 0, pages) == OK
    && q.slabOk && q.grant.Some? && Range(q.grant.value, pages) <= m.free
  }

  function Key(owner: int, id: Option<nat>): Option<BlockId> {
    if id.None? then None else Some(BlockId(owner, id.value))
  }

  /** A combined request that can have an effect: whole pages, aligned and all mapped. */
  ghost predicate Fit(m: Mem, q: Request)
    requires q.YieldAndGet?
  {
    && q.len % VM_PAGE_SIZE == 0 && q.len >= VM_PAGE_SIZE && q.vaddr % VM_PAGE_SIZE == 0
    && Mapped(m, q.owner, q.vaddr / VM_PAGE_SIZE, q.len / VM_PAGE_SIZE)
  }

  /** The contents of the pages a combined request names. */
  function PageData(m: Mem, q: Request): seq<Page>
    requires q.YieldAndGet? && Fit(m, q)
  {
    Contents(m, q.owner, q.vaddr / VM_PAGE_SIZE, q.len / VM_PAGE_SIZE)
  }

  /** The block asked for, unless VM holds it in another size. */
  function Wanted(store: map<BlockId, seq<Page>>, q: Request): Option<BlockId>
    requires q.YieldAndGet?
  {
    var id := Key(q.owner, q.getid);
    if id.Some? && id.value in store && |store[id.value]| != q.len / VM_PAGE_SIZE then None else id
  }

  /** The combined request as the block cache sees it. */
  ghost function Outcome(m: Mem, q: Request, store: map<BlockId, seq<Page>>): YieldGet<BlockId, seq<Page>>
    requires q.YieldAndGet? && Fit(m, q)
  {
    YieldGetBlock(store, Key(q.owner, q.yieldid), Wanted(store, q), PageData(m, q), Accepts(m, q),
                  Clear(q.len / VM_PAGE_SIZE))
  }

  lemma HeldId(nodes: seq<Node>, m: Mem, store: map<BlockId, seq<Page>>, id: BlockId)
    requires StoreIs(nodes, m, store)
    ensures id in store <==> exists i :: 0 <= i < |nodes| && nodes[i].id == id
    ensures forall i :: 0 <= i < |nodes| && nodes[i].id == id ==> |store[id]| == nodes[i].pages
  {
    if id in store {
      var x :| x in nodes && x.id == id;
    }
    forall i | 0 <= i < |nodes| && nodes[i].id == id
      ensures id in store && |store[id]| == nodes[i].pages
    {
      assert nodes[i] in nodes;
    }
  }

  /** yieldblock accepts the pages exactly if they are acceptable and VM does not hold the block. */
  lemma VerdictAccepts(nodes: seq<Node>, m: Mem, q: Request, store: map<BlockId, seq<Page>>, id: BlockId)
    requires q.YieldAndGet? && MemOk(m) && StoreIs(nodes, m, store) && id.owner == q.owner && q.len >= VM_PAGE_SIZE
    ensures YieldVerdict(nodes, m, id, q.vaddr, q.len / VM_PAGE_SIZE, q.slabOk, q.grant) == OK <==>
              id !in store && Accepts(m, q)
  {
    HeldId(nodes, m, store, id);
  }

  /** The yield half as the interface describes it: the store and the pages after it. */
  lemma YieldHalfRefines(s: State, q: Request, w: Halves, universe: set<nat>, store: map<BlockId, seq<Page>>,
                         y: YieldGet<BlockId, seq<Page>>)
    requires q.YieldAndGet? && Inv(s, universe) && Fit(s.m, q) && StoreIs(s.nodes, s.m, store)
    requires y == YieldGetBlock(store, Key(q.owner, q.yieldid), None, PageData(s.m, q), Accepts(s.m, q),
                                Clear(q.len / VM_PAGE_SIZE))
    requires YieldHalf(s.nodes, s.m, q.owner, q.yieldid, q.vaddr, q.len / VM_PAGE_SIZE, q.slabOk, q.grant, w.nodes, w.m)
    ensures Fit(w.m, q) && StoreIs(w.nodes, w.m, y.store) && PageData(w.m, q) == y.data
  {
    var v, pages := q.vaddr / VM_PAGE_SIZE, q.len / VM_PAGE_SIZE;
    if q.yieldid.Some? {
      var id := BlockId(q.owner, q.yieldid.value);
      VerdictAccepts(s.nodes, s.m, q, store, id);
      if id !in store && Accepts(s.m, q) {
        YieldContents(s.nodes, s.m, universe, id, v, pages, q.grant.value, w.m, store);
      }
    }
  }

  lemma GetHalfRefines(s: State, q: Request, w: Halves, r: Status, s': State, store: map<BlockId, seq<Page>>,
                       y: YieldGet<BlockId, seq<Page>>, blank: seq<Page>)
    requires q.YieldAndGet? && MemOk(s.m) && DistinctIds(s.nodes) && Fit(s.m, q) && StoreIs(s.nodes, s.m, store)
    requires GetHalf(s.nodes, s.m, q.owner, q.getid, q.vaddr, q.len / VM_PAGE_SIZE, q.inRegion, r, w.moved, w.i,
                     s'.nodes, s'.m)
    requires y == YieldGetBlock(store, None, Wanted(store, q), PageData(s.m, q), false, blank)
    ensures Fit(s'.m, q) && StoreIs(s'.nodes, s'.m, y.store) && PageData(s'.m, q) == y.data && (r == OK <==> y.ok)
  {
    var v, pages := q.vaddr / VM_PAGE_SIZE, q.len / VM_PAGE_SIZE;
    if q.getid.Some? {
      HeldId(s.nodes, s.m, store, BlockId(q.owner, q.getid.value));
      if r == OK {
        GetContents(s.nodes, s.m, q.owner, v, w.i, s'.m, store);
        assert Wanted(store, q) == Some(s.nodes[w.i].id);
      } else {
        assert w.moved < pages ==> Addr(q.owner, v + w.moved) in s.m.space;
        assert s' == s;
      }
    }
  }

  /** The yield half does not change which block is wanted. */
  lemma SameWanted(store: map<BlockId, seq<Page>>, store': map<BlockId, seq<Page>>, id: Option<BlockId>,
                   data: seq<Page>, q: Request)
    requires q.YieldAndGet? && |data| == q.len / VM_PAGE_SIZE
    requires store' == store || (id.Some? && id.value !in store && store' == store[id.value := data])
    ensures Wanted(store', q) == Wanted(store, q)
  {
  }

  /** A combined request on mapped pages does, for the blocks of all processes and for the pages, what
      the interface function says, and answers success exactly if it delivers the block. */
  lemma CombinedRefines(s: State, q: Request, w: Halves, r: Status, s': State, universe: set<nat>,
                        store: map<BlockId, seq<Page>>, y: YieldGet<BlockId, seq<Page>>)
    requires q.YieldAndGet? && Inv(s, universe) && CombinedStep(s, q, w, r, s')
    requires Fit(s.m, q) && StoreIs(s.nodes, s.m, store) && y == Outcome(s.m, q, store)
    ensures StoreIs(s'.nodes, s'.m, y.store) && Fit(s'.m, q) && PageData(s'.m, q) == y.data && (r == OK <==> y.ok)
  {
    var blank := Clear(q.len / VM_PAGE_SIZE);
    var h := YieldGetBlock(store, Key(q.owner, q.yieldid), None, PageData(s.m, q), Accepts(s.m, q), blank);
    YieldHalfInv(s, q, w, universe);
    YieldHalfRefines(s, q, w, universe, store, h);
    SameWanted(store, h.store, Key(q.owner, q.yieldid), PageData(s.m, q), q);
    HalvesCompose(store, Key(q.owner, q.yieldid), Wanted(store, q), PageData(s.m, q), Accepts(s.m, q), blank);
    GetHalfRefines(State(w.nodes, w.m), q, w, r, s', h.store, y, blank);
  }

  /** Any other combined request, if it does not stop halfway, changes nothing. */
  lemma UnfitDoesNothing(s: State, q: Request, w: Halves, r: Status, s': State)
    requires q.YieldAndGet? && MemOk(s.m) && CombinedStep(s, q, w, r, s') && !Fit(s.m, q) && !Stops(s, q)
    ensures s' == s && r != OK
  {
    var v, pages := q.vaddr / VM_PAGE_SIZE, q.len / VM_PAGE_SIZE;
    if q.len % VM_PAGE_SIZE == 0 && pages >= 1 {
      if q.yieldid.Some? && q.vaddr % VM_PAGE_SIZE == 0 {
        ScanYieldable(s.m, q.owner, v, 0, pages);
      }
      if q.vaddr % VM_PAGE_SIZE == 0 && q.getid.Some? && r == EINVAL {
        assert Addr(q.owner, v) !in s.m.space;
        assert w.moved == 0;
        SamePages(s.m, q.owner, v, s.nodes[w.i].phys, s'.m);
      }
    }
  }

  lemma SamePages(m: Mem, owner: int, v: nat, base: nat, m': Mem)
    requires Got(m, owner, v, 0, base, m')
    ensures m' == m
  {
    assert m'.blocks == m.blocks;
  }

  function Ids(nodes: seq<Node>): (ids: set<BlockId>)
    ensures forall id :: id in ids <==> exists x :: x in nodes && x.id == id
  {
    set x | x in nodes :: x.id
  }

  /** What VM holds after a request. */
  ghost function StoreAfter(s: State, q: Request, store: map<BlockId, seq<Page>>): map<BlockId, seq<Page>>
  {
    match q
    case YieldAndGet(_, _, _, _, _, _, _, _) => if Fit(s.m, q) then Outcome(s.m, q, store).store else store
    case Reclaim(maxBytes) => store - Ids(s.nodes[..Oldest(|s.nodes|, maxBytes)])
    case Forget(owner, id) => store - {BlockId(owner, id)}
    case ForgetAll(owner) => map id | id in store && id.owner != owner :: store[id]
    case _ => store
  }

  lemma OldestStore(nodes: seq<Node>, n: nat)
    requires DistinctIds(nodes) && n <= |nodes|
    ensures forall x :: x in nodes[n..] <==> x in nodes && x.id !in Ids(nodes[..n])
  {
    var first, rest := nodes[..n], nodes[n..];
    assert nodes == first + rest;
    forall x, y | x in first && y in rest
      ensures x.id != y.id
    {
      var j :| 0 <= j < n && nodes[j] == x;
      var k :| 0 <= k < |rest| && rest[k] == y;
      assert nodes[n + k] == y;
    }
  }

  /** Every step changes what VM holds as `StoreAfter` says. */
  lemma StepStore(s: State, q: Request, r: Status, s': State, universe: set<nat>, store: map<BlockId, seq<Page>>,
                  store': map<BlockId, seq<Page>>)
    requires Inv(s, universe) && Step(s, q, r, s') && !Stops(s, q) && StoreIs(s.nodes, s.m, store)
    requires store' == StoreAfter(s, q, store)
    ensures StoreIs(s'.nodes, s'.m, store')
  {
    if q.YieldAndGet? {
      var w :| CombinedStep(s, q, w, r, s');
      if Fit(s.m, q) {
        CombinedRefines(s, q, w, r, s', universe, store, Outcome(s.m, q, store));
      } else {
        UnfitDoesNothing(s, q, w, r, s');
      }
    } else if q.Touch? || q.MapPage? || q.UnmapPage? {
      OwnStepConserves(s, q, r, s', universe);
      StoreKept(s.nodes, s.nodes, s.m, s'.m, store, store);
    } else {
      FreeingConserves(s, q, r, s', universe);
      FreeingStays(s, q, r, s', store);
      StoreKept(s.nodes, s'.nodes, s.m, s'.m, store, store');
    }
  }

  /** The blocks that stay when VM frees some. */
  lemma FreeingStays(s: State, q: Request, r: Status, s': State, store: map<BlockId, seq<Page>>)
    requires MemOk(s.m) && DistinctIds(s.nodes) && StoreIs(s.nodes, s.m, store)
    requires Step(s, q, r, s') && (q.Reclaim? || q.Forget? || q.ForgetAll?)
    ensures forall x :: x in s'.nodes <==> x in s.nodes && x.id in StoreAfter(s, q, store)
  {
    match q
    case Reclaim(maxBytes) => OldestStore(s.nodes, Oldest(|s.nodes|, maxBytes));
    case Forget(owner, id) => ForgetStays(s, BlockId(owner, id), s', store);
    case _ =>
  }

  lemma ForgetStays(s: State, id: BlockId, s': State, store: map<BlockId, seq<Page>>)
    requires DistinctIds(s.nodes) && StoreIs(s.nodes, s.m, store) && ForgetStep(s, id, s')
    ensures forall x :: x in s'.nodes <==> x in s.nodes && x.id in store - {id}
  {
    if s' != s {
      var i :| 0 <= i < |s.nodes| && s.nodes[i].id == id && s'.nodes == s.nodes[..i] + s.nodes[i + 1..];
      DistinctWithout(s.nodes, i);
    } else {
      HeldId(s.nodes, s.m, store, id);
    }
  }

  // ---------------------------------------------------------------- the pages of the processes

  /** The pages a request may change: those a combined request names; what a process touches, by
      whatever address it is mapped; what it maps or unmaps. */
  predicate Names(m: Mem, q: Request, a: Addr) {
    match q
    case YieldAndGet(owner, _, _, vaddr, len, _, _, _) => Among(a, owner, vaddr / VM_PAGE_SIZE, len / VM_PAGE_SIZE)
    case Touch(b, _) => a in m.space && b in m.space && m.space[a].ref == m.space[b].ref
    case MapPage(b, _, _, _, _) => a == b
    case UnmapPage(b) => a == b
    case _ => false
  }

  lemma CombinedKeepsPages(s: State, q: Request, w: Halves, r: Status, s': State, universe: set<nat>, a: Addr)
    requires q.YieldAndGet? && Inv(s, universe) && CombinedStep(s, q, w, r, s')
    requires a in s.m.space && !Names(s.m, q, a)
    ensures KeptPage(s.m, s'.m, a)
  {
    var v, pages := q.vaddr / VM_PAGE_SIZE, q.len / VM_PAGE_SIZE;
    if q.len % VM_PAGE_SIZE == 0 && pages >= 1 {
      YieldHalfInv(s, q, w, universe);
      if w.m != s.m {
        YieldKeepsPages(s.nodes, s.m, universe, q.owner, v, pages, q.grant.value, w.m);
      }
      assert KeptPage(s.m, w.m, a);
      if s'.m != w.m {
        GetKeepsPages(w.m, q.owner, v, if r == OK then pages else w.moved, w.nodes[w.i].phys, s'.m);
        assert KeptPage(w.m, s'.m, a);
      }
    }
  }

  lemma OwnKeepsPages(s: State, q: Request, r: Status, s': State, universe: set<nat>, a: Addr)
    requires Inv(s, universe) && Step(s, q, r, s') && (q.Touch? || q.MapPage? || q.UnmapPage?)
    requires a in s.m.space && !Names(s.m, q, a)
    ensures KeptPage(s.m, s'.m, a)
  {
    assert InBlock(s.m, s.m.blocks[s.m.space[a].ref].phys);
    if q.UnmapPage? && s' != s {
      assert !Shared(s.m.space, q.a, a);
    }
  }

  /** A step changes mapped pages only where its request names them, whatever else it does. */
  lemma StepKeepsPages(s: State, q: Request, r: Status, s': State, universe: set<nat>, a: Addr)
    requires Inv(s, universe) && Step(s, q, r, s') && a in s.m.space && !Names(s.m, q, a)
    ensures KeptPage(s.m, s'.m, a)
  {
    if q.YieldAndGet? {
      var w :| CombinedStep(s, q, w, r, s');
      CombinedKeepsPages(s, q, w, r, s', universe, a);
    } else if q.Reclaim? {
      FreedCounts(s.m, s.nodes[..Oldest(|s.nodes|, q.maxBytes)]);
      FreeingConserves(s, q, r, s', universe);
    } else if q.Forget? || q.ForgetAll? {
      FreeingConserves(s, q, r, s', universe);
    } else {
      OwnKeepsPages(s, q, r, s', universe, a);
    }
  }

  // ---------------------------------------------------------------- runs

  ghost predicate IsRun(states: seq<State>, reqs: seq<Request>, answers: seq<Status>) {
    && |states| == |reqs| + 1 && |answers| == |reqs|
    && (forall i {:trigger StepAt(states, reqs, answers, i)} :: 0 <= i < |reqs| ==> StepAt(states, reqs, answers, i))
  }

  ghost predicate StepAt(states: seq<State>, reqs: seq<Request>, answers: seq<Status>, i: nat)
    requires i < |reqs| < |states| && |answers| == |reqs|
  {
    Step(states[i], reqs[i], answers[i], states[i + 1])
  }

  ghost predicate Start(s: State, universe: set<nat>) {
    s.nodes == [] && Inv(s, universe)
  }

  /** None of the first n requests stops halfway. */
  ghost predicate Smooth(states: seq<State>, reqs: seq<Request>, n: nat)
    requires n <= |reqs| < |states|
  {
    forall i :: 0 <= i < n ==> !Stops(states[i], reqs[i])
  }

  lemma {:induction false} RunInv(states: seq<State>, reqs: seq<Request>, answers: seq<Status>, universe: set<nat>,
                                  n: nat)
    requires IsRun(states, reqs, answers) && Start(states[0], universe) && n <= |reqs| && Smooth(states, reqs, n)
    ensures Inv(states[n], universe)
  {
    if n > 0 {
      RunInv(states, reqs, answers, universe, n - 1);
      assert StepAt(states, reqs, answers, n - 1);
      StepConserves(states[n - 1], reqs[n - 1], answers[n - 1], states[n], universe);
    }
  }

  ghost predicate AllOwned(states: seq<State>, universe: set<nat>, n: nat)
    requires n < |states|
  {
    forall i :: 0 <= i <= n ==> OwnedOnce(states[i].nodes, states[i].m, universe)
  }

  lemma StopBreaks(states: seq<State>, reqs: seq<Request>, answers: seq<Status>, universe: set<nat>, k: nat)
    requires IsRun(states, reqs, answers) && Start(states[0], universe) && k < |reqs| && Smooth(states, reqs, k)
    ensures OwnedOnce(states[k + 1].nodes, states[k + 1].m, universe) <==> !Stops(states[k], reqs[k])
  {
    RunInv(states, reqs, answers, universe, k);
    assert StepAt(states, reqs, answers, k);
    StepConserves(states[k], reqs[k], answers[k], states[k + 1], universe);
  }

  lemma {:induction false} FirstStop(states: seq<State>, reqs: seq<Request>, n: nat) returns (k: nat)
    requires n <= |reqs| < |states| && !Smooth(states, reqs, n)
    ensures k < n && Smooth(states, reqs, k) && Stops(states[k], reqs[k])
  {
    k := n - 1;
    if !Smooth(states, reqs, n - 1) {
      k := FirstStop(states, reqs, n - 1);
    }
  }

  /** In every state of a run every physical page has exactly one owner, if and only if no get of the
      run stopped halfway. */
  lemma OneOwnerExactly(states: seq<State>, reqs: seq<Request>, answers: seq<Status>, universe: set<nat>, n: nat)
    requires IsRun(states, reqs, answers) && Start(states[0], universe) && n <= |reqs|
    ensures AllOwned(states, universe, n) <==> Smooth(states, reqs, n)
  {
    if Smooth(states, reqs, n) {
      forall i | 0 <= i <= n
        ensures OwnedOnce(states[i].nodes, states[i].m, universe)
      {
        RunInv(states, reqs, answers, universe, i);
      }
    } else {
      var k := FirstStop(states, reqs, n);
      StopBreaks(states, reqs, answers, universe, k);
    }
  }

  /** What VM holds after n requests, by what was asked of it. */
  ghost function Stored(states: seq<State>, reqs: seq<Request>, n: nat): map<BlockId, seq<Page>>
    requires n <= |reqs| < |states|
  {
    if n == 0 then map[] else StoreAfter(states[n - 1], reqs[n - 1], Stored(states, reqs, n - 1))
  }

  ghost predicate HoldsStored(states: seq<State>, reqs: seq<Request>, n: nat)
    requires n <= |reqs| < |states|
  {
    StoreIs(states[n].nodes, states[n].m, Stored(states, reqs, n))
  }

  lemma StoredNext(states: seq<State>, reqs: seq<Request>, answers: seq<Status>, universe: set<nat>, n: nat)
    requires n < |reqs| < |states| && |answers| == |reqs|
    requires Inv(states[n], universe) && StepAt(states, reqs, answers, n) && !Stops(states[n], reqs[n])
    requires HoldsStored(states, reqs, n)
    ensures HoldsStored(states, reqs, n + 1)
  {
    StepStore(states[n], reqs[n], answers[n], states[n + 1], universe, Stored(states, reqs, n),
              Stored(states, reqs, n + 1));
  }

  /** In every state of a run the yielded blocks, of all processes, and their bytes are those that the
      requests so far make of an empty store. */
  lemma {:induction false} RunStore(states: seq<State>, reqs: seq<Request>, answers: seq<Status>, universe: set<nat>,
                                    n: nat)
    requires IsRun(states, reqs, answers) && Start(states[0], universe) && n <= |reqs| && Smooth(states, reqs, n)
    ensures HoldsStored(states, reqs, n)
  {
    if n > 0 {
      RunStore(states, reqs, answers, universe, n - 1);
      RunInv(states, reqs, answers, universe, n - 1);
      StoredNext(states, reqs, answers, universe, n - 1);
    }
  }

  /** The request gives VM a block it does not hold, and does not take it back at once. */
  ghost predicate Yields(s: State, q: Request, id: BlockId) {
    && q.YieldAndGet? && Fit(s.m, q) && Accepts(s.m, q)
    && q.owner == id.owner && q.yieldid == Some(id.id) && q.getid != Some(id.id)
    && forall x :: x in s.nodes ==> x.id != id
  }

  /** The request neither delivers the block nor frees it. */
  ghost predicate Leaves(s: State, q: Request, r: Status, id: BlockId) {
    match q
    case YieldAndGet(owner, _, getid, _, _, _, _, _) => !(owner == id.owner && getid == Some(id.id) && r == OK)
    case Reclaim(maxBytes) => id !in Ids(s.nodes[..Oldest(|s.nodes|, maxBytes)])
    case Forget(owner, i) => BlockId(owner, i) != id
    case ForgetAll(owner) => owner != id.owner
    case _ => true
  }

  ghost predicate LeftAlone(states: seq<State>, reqs: seq<Request>, answers: seq<Status>, i: nat, k: nat, id: BlockId)
    requires k <= |reqs| < |states| && |answers| == |reqs|
  {
    forall j :: i <= j < k ==> Leaves(states[j], reqs[j], answers[j], id)
  }

  lemma LeavesStored(s: State, q: Request, r: Status, s': State, universe: set<nat>, store: map<BlockId, seq<Page>>,
                     store': map<BlockId, seq<Page>>, id: BlockId)
    requires Inv(s, universe) && Step(s, q, r, s') && !Stops(s, q) && StoreIs(s.nodes, s.m, store)
    requires store' == StoreAfter(s, q, store) && id in store && Leaves(s, q, r, id)
    ensures id in store' && store'[id] == store[id]
  {
    if q.YieldAndGet? && Fit(s.m, q) {
      var w :| CombinedStep(s, q, w, r, s');
      CombinedRefines(s, q, w, r, s', universe, store, Outcome(s.m, q, store));
      OutcomeKeeps(s.m, q, store, Outcome(s.m, q, store), id, r == OK);
    }
  }

  lemma OutcomeKeeps(m: Mem, q: Request, store: map<BlockId, seq<Page>>, y: YieldGet<BlockId, seq<Page>>, id: BlockId,
                     ok: bool)
    requires q.YieldAndGet? && Fit(m, q) && y == Outcome(m, q, store) && ok == y.ok
    requires id in store && !(q.owner == id.owner && q.getid == Some(id.id) && ok)
    ensures id in y.store && y.store[id] == store[id]
  {
    OthersKept(store, Key(q.owner, q.yieldid), Wanted(store, q), PageData(m, q), Accepts(m, q),
               Clear(q.len / VM_PAGE_SIZE), id);
  }

  lemma {:induction false} StaysStored(states: seq<State>, reqs: seq<Request>, answers: seq<Status>, universe: set<nat>,
                                       i: nat, k: nat, id: BlockId)
    requires IsRun(states, reqs, answers) && Start(states[0], universe) && i < k <= |reqs| && Smooth(states, reqs, k)
    requires Yields(states[i], reqs[i], id) && LeftAlone(states, reqs, answers, i + 1, k, id)
    ensures id in Stored(states, reqs, k) && Stored(states, reqs, k)[id] == PageData(states[i].m, reqs[i])
  {
    RunStore(states, reqs, answers, universe, k - 1);
    RunInv(states, reqs, answers, universe, k - 1);
    var store := Stored(states, reqs, k - 1);
    if k == i + 1 {
      HeldId(states[i].nodes, states[i].m, store, id);
      assert id !in store;
    } else {
      StaysStored(states, reqs, answers, universe, i, k - 1, id);
      assert StepAt(states, reqs, answers, k - 1);
      LeavesStored(states[k - 1], reqs[k - 1], answers[k - 1], states[k], universe, store, Stored(states, reqs, k), id);
    }
  }

  /** A block VM holds is delivered to pages of its size. */
  lemma StoredIsDelivered(s: State, q: Request, r: Status, s': State, universe: set<nat>,
                          store: map<BlockId, seq<Page>>, id: BlockId)
    requires Inv(s, universe) && Step(s, q, r, s') && StoreIs(s.nodes, s.m, store)
    requires q.YieldAndGet? && q.owner == id.owner && q.getid == Some(id.id) && Fit(s.m, q)
    requires id in store && |store[id]| == q.len / VM_PAGE_SIZE
    ensures r == OK && Fit(s'.m, q) && PageData(s'.m, q) == store[id]
  {
    var w :| CombinedStep(s, q, w, r, s');
    CombinedRefines(s, q, w, r, s', universe, store, Outcome(s.m, q, store));
    assert Wanted(store, q) == Some(id);
    Delivered(store, Key(q.owner, q.yieldid), id, PageData(s.m, q), Accepts(s.m, q),
              Clear(q.len / VM_PAGE_SIZE));
  }

  /** A block yielded by request i and neither delivered nor freed since is delivered by request k, if
      that asks for it, in its size, on mapped pages; and the pages then hold what they held at request
      i, whatever any process yielded, got, freed, mapped or wrote in between. */
  lemma GetReturnsYielded(states: seq<State>, reqs: seq<Request>, answers: seq<Status>, universe: set<nat>, i: nat,
                          k: nat, id: BlockId)
    requires IsRun(states, reqs, answers) && Start(states[0], universe) && i < k < |reqs| && Smooth(states, reqs, k + 1)
    requires Yields(states[i], reqs[i], id) && LeftAlone(states, reqs, answers, i + 1, k, id)
    requires reqs[k].YieldAndGet? && reqs[k].owner == id.owner && reqs[k].getid == Some(id.id)
    requires reqs[k].len == reqs[i].len && Fit(states[k].m, reqs[k])
    ensures answers[k] == OK && Fit(states[k + 1].m, reqs[k])
    ensures PageData(states[k + 1].m, reqs[k]) == PageData(states[i].m, reqs[i])
  {
    StaysStored(states, reqs, answers, universe, i, k, id);
    RunStore(states, reqs, answers, universe, k);
    RunInv(states, reqs, answers, universe, k);
    assert StepAt(states, reqs, answers, k);
    StoredIsDelivered(states[k], reqs[k], answers[k], states[k + 1], universe, Stored(states, reqs, k), id);
  }

  // ---------------------------------------------------------------- on the linked structure

  ghost function StateOf(vm: Vm): State
    reads vm
  {
    State(Infos(vm.lru), vm.mem)
  }

  /** The pages a get may fill are mapped once. */
  ghost predicate Ready(m: Mem, q: Request)
    requires MemOk(m)
  {
    q.YieldAndGet? && q.vaddr % VM_PAGE_SIZE == 0 ==>
      MappedOnce(m, q.owner, q.vaddr / VM_PAGE_SIZE, q.len / VM_PAGE_SIZE)
  }

  /** Requests served by the list, the index and the counters are steps. */
  method Serve(vm: Vm, q: Request) returns (r: Status)
    requires vm.Valid() && Ready(vm.mem, q)
    modifies vm, vm.lru, vm.buckets
    ensures vm.Valid() && Step(old(StateOf(vm)), q, r, StateOf(vm))
    ensures old(vm.Conserved()) ==> (vm.Conserved() <==> !Stops(old(StateOf(vm)), q))
    ensures forall k {:trigger vm.lru[k]} :: 0 <= k < |vm.lru| ==> vm.lru[k] in old(vm.lru) || fresh(vm.lru[k])
  {
    if q.YieldAndGet? {
      r := ServeCombined(vm, q);
    } else if q.Reclaim? || q.Forget? || q.ForgetAll? {
      r := ServeFree(vm, q);
    } else {
      r := ServeOwn(vm, q);
    }
  }

  method ServeCombined(vm: Vm, q: Request) returns (r: Status)
    requires vm.Valid() && q.YieldAndGet? && Ready(vm.mem, q)
    modifies vm, vm.lru, vm.buckets
    ensures vm.Valid() && Step(old(StateOf(vm)), q, r, StateOf(vm))
    ensures old(vm.Conserved()) ==> (vm.Conserved() <==> !Stops(old(StateOf(vm)), q))
    ensures forall k {:trigger vm.lru[k]} :: 0 <= k < |vm.lru| ==> vm.lru[k] in old(vm.lru) || fresh(vm.lru[k])
  {
    ghost var s, w := StateOf(vm), Halves([], vm.mem, 0, 0);
    r, w := vm.YieldGet(q.owner, q.yieldid, q.getid, q.vaddr, q.len, q.slabOk, q.grant, q.inRegion);
    assert CombinedStep(s, q, w, r, StateOf(vm));
  }

  /** VM frees blocks: under memory pressure, or because a process forgets them. */
  method ServeFree(vm: Vm, q: Request) returns (r: Status)
    requires vm.Valid() && (q.Reclaim? || q.Forget? || q.ForgetAll?)
    modifies vm, vm.lru, vm.buckets
    ensures vm.Valid() && Step(old(StateOf(vm)), q, r, StateOf(vm))
    ensures old(vm.Conserved()) ==> vm.Conserved()
    ensures Within(vm.lru, old(vm.lru))
  {
    ghost var l, m := vm.lru, vm.mem;
    r := OK;
    match q {
      case Reclaim(maxBytes) =>
        ghost var n;
        var freed;
        freed, n := vm.FreeYielded(maxBytes);
        InfosDrop(l, n);
      case Forget(owner, id) =>
        var node := vm.ForgetBlock(owner, id);
        if node != null {
          InfosForget(l, node, vm.lru, m);
        }
      case ForgetAll(owner) =>
        vm.ForgetBlocks(owner);
        InfosOfOthers(l, owner);
        OthersWithin(l, owner);
      case _ =>
    }
  }

  lemma InfosDrop(l: seq<Yielded>, n: nat)
    requires n <= |l|
    ensures Infos(l[n..]) == Infos(l)[n..] && Infos(l[..n]) == Infos(l)[..n]
  {
  }

  lemma InfosForget(l: seq<Yielded>, y: Yielded, l': seq<Yielded>, m: Mem)
    requires NoDup(l) && y in l && l' == Without(l, y)
    ensures ForgetStep(State(Infos(l), m), y.id, State(Infos(l'), Freed(m, Info(y)))) && Within(l', l)
  {
    var i :| 0 <= i < |l| && l[i] == y;
    InfosWithout(l, i);
    WithoutWithin(l, y);
    assert Infos(l)[i].id == y.id;
  }

  lemma {:induction false} OthersWithin(l: seq<Yielded>, owner: int)
    ensures Within(Others(l, owner), l)
  {
    if l != [] {
      OthersWithin(l[1..], owner);
    }
  }

  /** What a process does to its own pages. */
  method ServeOwn(vm: Vm, q: Request) returns (r: Status)
    requires vm.Valid() && (q.Touch? || q.MapPage? || q.UnmapPage?)
    modifies vm`mem
    ensures vm.Valid() && Step(old(StateOf(vm)), q, r, StateOf(vm))
    ensures old(vm.Conserved()) ==> vm.Conserved()
  {
    ghost var s := StateOf(vm);
    vm.IdsApart();
    r := OK;
    match q {
      case Touch(a, page) =>
        vm.mem := Touched(vm.mem, a, page);
      case MapPage(a, ref, anon, frame, page) =>
        vm.mem := PageMapped(vm.mem, a, ref, anon, frame, page);
      case UnmapPage(a) =>
        vm.mem := PageUnmapped(vm.mem, a);
      case _ =>
    }
    OwnStepOk(s, q, r, State(Infos(vm.lru), vm.mem), vm.universe);
  }

  lemma OwnStepOk(s: State, q: Request, r: Status, s': State, universe: set<nat>)
    requires MemOk(s.m) && DistinctIds(s.nodes) && Step(s, q, r, s') && (q.Touch? || q.MapPage? || q.UnmapPage?)
    ensures MemOk(s'.m)
    ensures OwnedOnce(s.nodes, s.m, universe) ==> OwnedOnce(s'.nodes, s'.m, universe)
  {
    if OwnedOnce(s.nodes, s.m, universe) {
      OwnStepConserves(s, q, r, s', universe);
    } else if q.MapPage? {
      PageMappedOk(s.m, q.a, q.ref, q.anon, q.frame, q.page);
    } else if q.UnmapPage? {
      PageUnmappedOk(s.m, q.a);
    }
  }

  /** No page is shared, so that every get finds its pages mapped once. */
  ghost predicate Unshared(m: Mem)
    requires MemOk(m)
  {
    forall a :: a in m.space ==> m.blocks[m.space[a].ref].refcount == 1
  }

  lemma UnsharedReady(m: Mem, q: Request)
    requires MemOk(m) && Unshared(m)
    ensures Ready(m, q)
  {
  }

  lemma StaysUnshared(s: State, q: Request, r: Status, s': State)
    requires MemOk(s.m) && MemOk(s'.m) && Unshared(s.m) && Step(s, q, r, s')
    ensures Unshared(s'.m)
  {
    if q.YieldAndGet? {
      var w :| CombinedStep(s, q, w, r, s');
      CombinedCounts(s, q, w, r, s');
    } else if q.Reclaim? {
      FreedCounts(s.m, s.nodes[..Oldest(|s.nodes|, q.maxBytes)]);
    }
  }

  lemma {:induction false} FreedCounts(m: Mem, nodes: seq<Node>)
    ensures FreedAll(m, nodes).space == m.space && FreedAll(m, nodes).blocks == m.blocks
  {
    if nodes != [] {
      FreedCounts(m, nodes[..|nodes| - 1]);
    }
  }

  /** A combined request changes neither mappings nor reference counts. */
  lemma CombinedCounts(s: State, q: Request, w: Halves, r: Status, s': State)
    requires q.YieldAndGet? && MemOk(s.m) && CombinedStep(s, q, w, r, s')
    ensures s'.m.space == s.m.space
    ensures forall b :: b in s'.m.blocks ==> b in s.m.blocks && s'.m.blocks[b].refcount == s.m.blocks[b].refcount
  {
    var v, pages := q.vaddr / VM_PAGE_SIZE, q.len / VM_PAGE_SIZE;
    if q.len % VM_PAGE_SIZE == 0 && pages >= 1 {
      if w.m != s.m {
        SameCounts(Allocated(s.m, q.grant.value, pages), q.owner, v, pages, q.grant.value, w.m);
      }
      if s'.m != w.m {
        SameCounts(w.m, q.owner, v, if r == OK then pages else w.moved, w.nodes[w.i].phys, s'.m);
      }
    }
  }

  /** Any sequence of requests served by a VM whose pages are not shared is a run. */
  method ServeAll(vm: Vm, reqs: seq<Request>) returns (answers: seq<Status>, ghost states: seq<State>)
    requires vm.Valid() && Unshared(vm.mem)
    modifies vm, vm.lru, vm.buckets
    ensures vm.Valid() && Unshared(vm.mem)
    ensures IsRun(states, reqs, answers) && states[0] == old(StateOf(vm)) && states[|reqs|] == StateOf(vm)
  {
    answers, states := [], [StateOf(vm)];
    var k := 0;
    while k < |reqs|
      invariant vm.Valid() && Unshared(vm.mem) && 0 <= k <= |reqs|
      invariant IsRun(states, reqs[..k], answers) && states[0] == old(StateOf(vm)) && states[k] == StateOf(vm)
      invariant forall k {:trigger vm.lru[k]} :: 0 <= k < |vm.lru| ==> vm.lru[k] in old(vm.lru) || fresh(vm.lru[k])
    {
      ghost var s := StateOf(vm);
      UnsharedReady(vm.mem, reqs[k]);
      var r := Serve(vm, reqs[k]);
      StaysUnshared(s, reqs[k], r, StateOf(vm));
      RunExtended(states, reqs, answers, k, r, StateOf(vm));
      answers, states := answers + [r], states + [StateOf(vm)];
      k := k + 1;
    }
    assert reqs[..k] == reqs;
  }

  lemma RunExtended(states: seq<State>, reqs: seq<Request>, answers: seq<Status>, k: nat, r: Status, s': State)
    requires k < |reqs| && IsRun(states, reqs[..k], answers) && Step(states[k], reqs[k], r, s')
    ensures IsRun(states + [s'], reqs[..k + 1], answers + [r])
  {
    forall i {:trigger StepAt(states + [s'], reqs[..k + 1], answers + [r], i)} | 0 <= i < k + 1
      ensures StepAt(states + [s'], reqs[..k + 1], answers + [r], i)
    {
      assert i < k ==> StepAt(states, reqs[..k], answers, i);
    }
  }
}
