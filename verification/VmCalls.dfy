/** The calls by which a file system's block cache uses VM: what they do to the blocks the cache
    believes VM holds for it. */
module VmCalls {
  import opened BufferPool
  import opened CacheSpec
  import opened YieldInterface
  import opened YieldMemory
  import opened YieldedBlocks
  import opened YieldRuns

  const WORD32: nat := 0x1_0000_0000

  /** make64(dev, block) of process `owner`. */
  function BlockKey(owner: int, id: Id): BlockId {
    BlockId(owner, id.dev + WORD32 * id.block)
  }

  /** The name fits the two halves of a 64-bit id. */
  predicate Fits(id: Id) {
    id.dev < WORD32 && id.block < WORD32
  }

  function KeyOf(owner: int, id: Option<Id>): Option<nat> {
    if id.None? then None else Some(BlockKey(owner, id.value).id)
  }

  /** The contents of a block of the cache as whole pages: blank contents are cleared pages. */
  function Bytes(data: Data, pages: nat): (d: seq<Page>)
    ensures |d| == pages && (|data| == pages ==> d == data) && (data == BLANK ==> d == Clear(pages))
  {
    seq(pages, k requires 0 <= k < pages => if k < |data| then data[k] else ZERO_PAGE)
  }

  /** The blocks `vm`, of the given size each, are what VM holds for the process. */
  ghost predicate Stands(vm: map<Id, Data>, store: map<BlockId, seq<Page>>, owner: int, pages: nat) {
    && (forall id {:trigger BlockKey(owner, id)} :: id in vm ==>
          Fits(id) && BlockKey(owner, id) in store && store[BlockKey(owner, id)] == Bytes(vm[id], pages))
    && (forall k :: k in store && k.owner == owner ==>
          exists id {:trigger BlockKey(owner, id)} :: id in vm && BlockKey(owner, id) == k)
  }

  ghost predicate Mirrors(s: State, universe: set<nat>, owner: int, pages: nat, vm: map<Id, Data>) {
    Inv(s, universe) && exists store :: StoreIs(s.nodes, s.m, store) && Stands(vm, store, owner, pages)
  }

  lemma StoreMirrors(s: State, universe: set<nat>, owner: int, pages: nat, vm: map<Id, Data>,
                     store: map<BlockId, seq<Page>>)
    requires Inv(s, universe) && StoreIs(s.nodes, s.m, store) && Stands(vm, store, owner, pages)
    ensures Mirrors(s, universe, owner, pages, vm)
  {
  }

  lemma KeysDiffer(owner: int, a: Id, b: Id)
    requires Fits(a) && Fits(b) && BlockKey(owner, a) == BlockKey(owner, b)
    ensures a == b
  {
  }

  lemma KeyHeld(vm: map<Id, Data>, store: map<BlockId, seq<Page>>, owner: int, pages: nat, id: Id)
    requires Stands(vm, store, owner, pages) && Fits(id)
    ensures id in vm <==> BlockKey(owner, id) in store
  {
    if BlockKey(owner, id) in store {
      var other :| other in vm && BlockKey(owner, other) == BlockKey(owner, id);
      KeysDiffer(owner, other, id);
    }
  }

  lemma AddedStands(vm: map<Id, Data>, store: map<BlockId, seq<Page>>, owner: int, pages: nat, id: Id, data: Data)
    requires Stands(vm, store, owner, pages) && Fits(id)
    ensures Stands(vm[id := data], store[BlockKey(owner, id) := Bytes(data, pages)], owner, pages)
  {
    var vm', store' := vm[id := data], store[BlockKey(owner, id) := Bytes(data, pages)];
    forall other | other in vm'
      ensures Fits(other) && BlockKey(owner, other) in store' &&
                store'[BlockKey(owner, other)] == Bytes(vm'[other], pages)
    {
      if other != id && BlockKey(owner, other) == BlockKey(owner, id) {
        KeysDiffer(owner, other, id);
      }
    }
    forall k | k in store' && k.owner == owner
      ensures exists other :: other in vm' && BlockKey(owner, other) == k
    {
      if k == BlockKey(owner, id) {
        assert id in vm';
      } else {
        var other :| other in vm && BlockKey(owner, other) == k;
        assert other in vm';
      }
    }
  }

  /** Blocks that leave both sides together. */
  lemma RemovedStands(vm: map<Id, Data>, store: map<BlockId, seq<Page>>, owner: int, pages: nat, ids: set<Id>,
                      store': map<BlockId, seq<Page>>)
    requires Stands(vm, store, owner, pages)
    requires forall id {:trigger BlockKey(owner, id)} :: id in vm ==> (BlockKey(owner, id) in store' <==> id !in ids)
    requires forall k :: k in store' && k.owner == owner ==> k in store && store'[k] == store[k]
    ensures Stands(vm - ids, store', owner, pages)
  {
    forall id | id in vm - ids
      ensures BlockKey(owner, id) in store' && store'[BlockKey(owner, id)] == Bytes((vm - ids)[id], pages)
    {
      assert id in vm && BlockKey(owner, id).owner == owner;
    }
    forall k | k in store' && k.owner == owner
      ensures exists id :: id in vm - ids && BlockKey(owner, id) == k
    {
      var id :| id in vm && BlockKey(owner, id) == k;
      assert id in vm - ids;
    }
  }

  lemma ForgottenStands(vm: map<Id, Data>, store: map<BlockId, seq<Page>>, owner: int, pages: nat, id: Id)
    requires Stands(vm, store, owner, pages) && Fits(id)
    ensures Stands(vm - {id}, store - {BlockKey(owner, id)}, owner, pages)
  {
    forall other | other in vm
      ensures BlockKey(owner, other) in store - {BlockKey(owner, id)} <==> other !in {id}
    {
      if BlockKey(owner, other) == BlockKey(owner, id) {
        KeysDiffer(owner, other, id);
      }
    }
    RemovedStands(vm, store, owner, pages, {id}, store - {BlockKey(owner, id)});
  }

  /** The interface function on the cache's names and on VM's ids. */
  lemma CallStands(vm: map<Id, Data>, store: map<BlockId, seq<Page>>, owner: int, pages: nat, yieldid: Option<Id>,
                   getid: Option<Id>, data: Data, accepted: bool, y: YieldGet<Id, Data>,
                   z: YieldGet<BlockId, seq<Page>>)
    requires Stands(vm, store, owner, pages)
    requires (yieldid.Some? ==> Fits(yieldid.value)) && (getid.Some? ==> Fits(getid.value))
    requires y == YieldGetBlock(vm, yieldid, getid, data, accepted, BLANK)
    requires z == YieldGetBlock(store, Key(owner, KeyOf(owner, yieldid)), Key(owner, KeyOf(owner, getid)),
                                Bytes(data, pages), accepted, Clear(pages))
    ensures Stands(y.store, z.store, owner, pages)
    ensures z.data == Bytes(y.data, pages) && z.ok == y.ok
  {
    var vm1, store1 := vm, store;
    if yieldid.Some? {
      KeyHeld(vm, store, owner, pages, yieldid.value);
      if accepted && yieldid.value !in vm {
        AddedStands(vm, store, owner, pages, yieldid.value, data);
        vm1, store1 := vm[yieldid.value := data], store[BlockKey(owner, yieldid.value) := Bytes(data, pages)];
      }
    }
    if getid.Some? {
      KeyHeld(vm1, store1, owner, pages, getid.value);
      ForgottenStands(vm1, store1, owner, pages, getid.value);
    }
  }

  // ---------------------------------------------------------------- steps of VM, seen by the cache

  /** vm_yield_block_get_block */
  function Call(owner: int, yieldid: Option<Id>, getid: Option<Id>, vaddr: nat, pages: nat, slabOk: bool,
                grant: Option<nat>): Request
  {
    YieldAndGet(owner, KeyOf(owner, yieldid), KeyOf(owner, getid), vaddr, pages * VM_PAGE_SIZE, slabOk, grant, true)
  }

  lemma PagesOfCall(pages: nat)
    ensures pages * VM_PAGE_SIZE / VM_PAGE_SIZE == pages && pages * VM_PAGE_SIZE % VM_PAGE_SIZE == 0
  {
  }

  /** The call on a buffer's pages does to VM and to the pages what the cache says it does to `vm` and
      to the buffer. */
  lemma YieldGetMirrors(s: State, q: Request, r: Status, s': State, universe: set<nat>, owner: int, pages: nat,
                        vm: map<Id, Data>, yieldid: Option<Id>, getid: Option<Id>, data: Data, y: YieldGet<Id, Data>)
    requires Mirrors(s, universe, owner, pages, vm) && Step(s, q, r, s')
    requires q.YieldAndGet? && q == Call(owner, yieldid, getid, q.vaddr, pages, q.slabOk, q.grant)
    requires (yieldid.Some? ==> Fits(yieldid.value)) && (getid.Some? ==> Fits(getid.value))
    requires Fit(s.m, q) && PageData(s.m, q) == Bytes(data, pages)
    requires y == YieldGetBlock(vm, yieldid, getid, data, Accepts(s.m, q), BLANK)
    ensures Mirrors(s', universe, owner, pages, y.store)
    ensures Fit(s'.m, q) && PageData(s'.m, q) == Bytes(y.data, pages) && (r == OK <==> y.ok)
  {
    PagesOfCall(pages);
    var store :| StoreIs(s.nodes, s.m, store) && Stands(vm, store, owner, pages);
    var z := Outcome(s.m, q, store);
    SizesAgree(vm, store, owner, pages, q, getid);
    CallStands(vm, store, owner, pages, yieldid, getid, data, Accepts(s.m, q), y, z);
    StepConserves(s, q, r, s', universe);
    var w :| CombinedStep(s, q, w, r, s');
    CombinedRefines(s, q, w, r, s', universe, store, z);
  }

  /** VM holds the cache's blocks in one size, so the one asked for is never of another. */
  lemma SizesAgree(vm: map<Id, Data>, store: map<BlockId, seq<Page>>, owner: int, pages: nat, q: Request,
                   getid: Option<Id>)
    requires Stands(vm, store, owner, pages) && q.YieldAndGet? && q.owner == owner && q.getid == KeyOf(owner, getid)
    requires getid.Some? ==> Fits(getid.value)
    requires q.len / VM_PAGE_SIZE == pages
    ensures Wanted(store, q) == Key(owner, KeyOf(owner, getid))
  {
    if getid.Some? {
      KeyHeld(vm, store, owner, pages, getid.value);
      if getid.value in vm {
        assert |Bytes(vm[getid.value], pages)| == pages;
      }
    }
  }

  /** vm_forgetblock */
  lemma ForgetMirrors(s: State, r: Status, s': State, universe: set<nat>, owner: int, pages: nat, vm: map<Id, Data>,
                      id: Id)
    requires Mirrors(s, universe, owner, pages, vm) && Fits(id) && Step(s, Forget(owner, BlockKey(owner, id).id), r, s')
    ensures Mirrors(s', universe, owner, pages, vm - {id})
  {
    var store :| StoreIs(s.nodes, s.m, store) && Stands(vm, store, owner, pages);
    var q := Forget(owner, BlockKey(owner, id).id);
    StepConserves(s, q, r, s', universe);
    StepStore(s, q, r, s', universe, store, StoreAfter(s, q, store));
    ForgottenStands(vm, store, owner, pages, id);
  }

  /** vm_forgetblocks */
  lemma ForgetAllMirrors(s: State, r: Status, s': State, universe: set<nat>, owner: int, pages: nat, vm: map<Id, Data>)
    requires Mirrors(s, universe, owner, pages, vm) && Step(s, ForgetAll(owner), r, s')
    ensures Mirrors(s', universe, owner, pages, map[])
  {
    var store :| StoreIs(s.nodes, s.m, store) && Stands(vm, store, owner, pages);
    var store' := StoreAfter(s, ForgetAll(owner), store);
    StepConserves(s, ForgetAll(owner), r, s', universe);
    StepStore(s, ForgetAll(owner), r, s', universe, store, store');
    AllForgotten(s, owner, store, store');
    NoneStands(store', owner, pages);
    StoreMirrors(s', universe, owner, pages, map[], store');
  }

  lemma AllForgotten(s: State, owner: int, store: map<BlockId, seq<Page>>, store': map<BlockId, seq<Page>>)
    requires store' == StoreAfter(s, ForgetAll(owner), store)
    ensures forall k :: k in store' ==> k.owner != owner
  {
  }

  lemma NoneStands(store: map<BlockId, seq<Page>>, owner: int, pages: nat)
    requires forall k :: k in store ==> k.owner != owner
    ensures Stands(map[], store, owner, pages)
  {
  }

  /** The cache's blocks among those that free_yielded frees. */
  function Reclaimed(nodes: seq<Node>, maxBytes: nat, owner: int, vm: map<Id, Data>): set<Id> {
    set id | id in vm && BlockKey(owner, id) in Ids(nodes[..Oldest(|nodes|, maxBytes)])
  }

  /** free_yielded takes away some of the cache's blocks, the oldest ones, and changes none. */
  lemma ReclaimMirrors(s: State, r: Status, s': State, universe: set<nat>, owner: int, pages: nat, vm: map<Id, Data>,
                       maxBytes: nat)
    requires Mirrors(s, universe, owner, pages, vm) && Step(s, Reclaim(maxBytes), r, s')
    ensures Mirrors(s', universe, owner, pages, vm - Reclaimed(s.nodes, maxBytes, owner, vm))
  {
    var store :| StoreIs(s.nodes, s.m, store) && Stands(vm, store, owner, pages);
    var store' := StoreAfter(s, Reclaim(maxBytes), store);
    StepConserves(s, Reclaim(maxBytes), r, s', universe);
    StepStore(s, Reclaim(maxBytes), r, s', universe, store, store');
    RemovedStands(vm, store, owner, pages, Reclaimed(s.nodes, maxBytes, owner, vm), store');
  }

  /** At its start VM holds nothing for the cache. */
  lemma StartMirrors(s: State, universe: set<nat>, owner: int, pages: nat)
    requires Start(s, universe)
    ensures Mirrors(s, universe, owner, pages, map[])
  {
    assert StoreIs(s.nodes, s.m, map[]);
    NoneStands(map[], owner, pages);
  }

  /** The request asks nothing of VM in the process's name. */
  predicate Foreign(q: Request, owner: int) {
    match q
    case YieldAndGet(o, _, _, _, _, _, _, _) => o != owner
    case Forget(o, _) => o != owner
    case ForgetAll(o) => o != owner
    case Reclaim(_) => false
    case _ => true
  }

  /** What other processes ask of VM, and what any process does to its own pages, is nothing to the
      cache. */
  lemma ForeignMirrors(s: State, q: Request, r: Status, s': State, universe: set<nat>, owner: int, pages: nat,
                       vm: map<Id, Data>)
    requires Mirrors(s, universe, owner, pages, vm) && Step(s, q, r, s') && Foreign(q, owner) && !Stops(s, q)
    ensures Mirrors(s', universe, owner, pages, vm)
  {
    var store :| StoreIs(s.nodes, s.m, store) && Stands(vm, store, owner, pages);
    var store' := StoreAfter(s, q, store);
    StepConserves(s, q, r, s', universe);
    StepStore(s, q, r, s', universe, store, store');
    ForeignStore(s, q, store, store', owner);
    OwnerStands(vm, store, store', owner, pages);
  }

  ghost predicate SameFor(store: map<BlockId, seq<Page>>, store': map<BlockId, seq<Page>>, owner: int) {
    forall k: BlockId :: k.owner == owner ==> (k in store' <==> k in store) && (k in store ==> store'[k] == store[k])
  }

  lemma ForeignStore(s: State, q: Request, store: map<BlockId, seq<Page>>, store': map<BlockId, seq<Page>>, owner: int)
    requires Foreign(q, owner) && store' == StoreAfter(s, q, store)
    ensures SameFor(store, store', owner)
  {
  }

  lemma OwnerStands(vm: map<Id, Data>, store: map<BlockId, seq<Page>>, store': map<BlockId, seq<Page>>, owner: int,
                    pages: nat)
    requires Stands(vm, store, owner, pages) && SameFor(store, store', owner)
    ensures Stands(vm, store', owner, pages)
  {
    forall id | id in vm
      ensures BlockKey(owner, id) in store' && store'[BlockKey(owner, id)] == Bytes(vm[id], pages)
    {
      assert BlockKey(owner, id).owner == owner;
    }
  }

  // ---------------------------------------------------------------- the calls themselves

  /** The linked structure is sound, and `held` is what it holds for the cache. */
  ghost predicate Serves(vm: Vm, owner: int, pages: nat, held: map<Id, Data>)
    reads vm, vm.lru, vm.buckets
  {
    vm.Valid() && Mirrors(StateOf(vm), vm.universe, owner, pages, held)
  }

  /** vm_yield_block_get_block on a buffer's pages, which hold `data`. */
  method YieldBlockGetBlock(vm: Vm, owner: int, yieldid: Option<Id>, getid: Option<Id>, vaddr: nat, pages: nat,
                            slabOk: bool, grant: Option<nat>, ghost held: map<Id, Data>, ghost data: Data)
    returns (ok: bool, ghost y: YieldGet<Id, Data>)
    requires Serves(vm, owner, pages, held)
    requires (yieldid.Some? ==> Fits(yieldid.value)) && (getid.Some? ==> Fits(getid.value))
    requires var q := Call(owner, yieldid, getid, vaddr, pages, slabOk, grant);
             Ready(vm.mem, q) && Fit(vm.mem, q) && PageData(vm.mem, q) == Bytes(data, pages)
    modifies vm, vm.lru, vm.buckets
    ensures var q := Call(owner, yieldid, getid, vaddr, pages, slabOk, grant);
            && y == YieldGetBlock(held, yieldid, getid, data, Accepts(old(vm.mem), q), BLANK)
            && Fit(vm.mem, q) && PageData(vm.mem, q) == Bytes(y.data, pages)
    ensures Serves(vm, owner, pages, y.store) && ok == y.ok
  {
    ghost var s := StateOf(vm);
    var q := Call(owner, yieldid, getid, vaddr, pages, slabOk, grant);
    y := YieldGetBlock(held, yieldid, getid, data, Accepts(vm.mem, q), BLANK);
    var r := Serve(vm, q);
    ok := r == OK;
    YieldGetMirrors(s, q, r, StateOf(vm), vm.universe, owner, pages, held, yieldid, getid, data, y);
  }

  /** vm_forgetblock */
  method ForgetBlock(vm: Vm, owner: int, id: Id, ghost pages: nat, ghost held: map<Id, Data>)
    requires Serves(vm, owner, pages, held) && Fits(id)
    modifies vm, vm.lru, vm.buckets
    ensures Serves(vm, owner, pages, held - {id})
  {
    ghost var s := StateOf(vm);
    var r := Serve(vm, Forget(owner, BlockKey(owner, id).id));
    ForgetMirrors(s, r, StateOf(vm), vm.universe, owner, pages, held, id);
  }

  /** vm_forgetblocks */
  method ForgetBlocks(vm: Vm, owner: int, ghost pages: nat, ghost held: map<Id, Data>)
    requires Serves(vm, owner, pages, held)
    modifies vm, vm.lru, vm.buckets
    ensures Serves(vm, owner, pages, map[])
  {
    ghost var s := StateOf(vm);
    var r := Serve(vm, ForgetAll(owner));
    ForgetAllMirrors(s, r, StateOf(vm), vm.universe, owner, pages, held);
  }

  /** VM runs out of memory: the cache's blocks among the oldest are gone. */
  method FreeMemory(vm: Vm, maxBytes: nat, ghost owner: int, ghost pages: nat, ghost held: map<Id, Data>)
    returns (ghost ids: set<Id>)
    requires Serves(vm, owner, pages, held)
    modifies vm, vm.lru, vm.buckets
    ensures ids == Reclaimed(old(Infos(vm.lru)), maxBytes, owner, held) && Serves(vm, owner, pages, held - ids)
  {
    ghost var s := StateOf(vm);
    ids := Reclaimed(s.nodes, maxBytes, owner, held);
    var r := Serve(vm, Reclaim(maxBytes));
    ReclaimMirrors(s, r, StateOf(vm), vm.universe, owner, pages, held, maxBytes);
  }
}
