/** The cache keeps exactly the most recently used blocks. */
module LruStack {
  import opened Chains
  import opened BufferPool
  import opened YieldInterface
  import opened CacheSpec

  /** No buffer is in use and all are on the LRU chain. */
  ghost predicate Quiet(p: Pool) {
    && Unique(p.blocks) && NoDup(p.lru)
    && (forall k :: 0 <= k < |p.lru| ==> 0 <= p.lru[k] < |p.blocks|)
    && (forall i :: 0 <= i < |p.blocks| ==> i in p.lru && p.blocks[i].count == 0)
    && |p.lru| == |p.blocks| > 0
  }

  /** The names of the buffers from the front of the LRU chain to its rear. */
  ghost function Order(p: Pool): (o: seq<Id>)
    requires forall k :: 0 <= k < |p.lru| ==> 0 <= p.lru[k] < |p.blocks|
    ensures |o| == |p.lru|
  {
    seq(|p.lru|, k requires 0 <= k < |p.lru| => p.blocks[p.lru[k]].Name())
  }

  /** A block is got, not merely prefetched, and put back for likely reuse; nothing fails. */
  ghost predicate Access(p: Pool, g: GetLabel, blockSize: nat, bp: int, mid: Pool, p': Pool) {
    && (forall k :: 0 <= k < |p.lru| ==> 0 <= p.lru[k] < |p.blocks|)
    && g.id.dev != NO_DEV && g.id.dev != DEV_RAM && g.mode != PREFETCH
    && g.allocOk && g.done == |g.queue| && g.read.r == blockSize
    && GetStep(p, g, blockSize, mid, bp) && bp != NULL
    && 0 <= bp < |mid.blocks| && mid.blocks[bp].count > 0
    && p' == PutSpec(mid, bp, false)
  }

  /** The order after id is used: id moves to the rear, pushing out the front if it is new. */
  function Used(o: seq<Id>, id: Id): seq<Id>
    requires o != []
  {
    (if id in o then Without(o, id) else o[1..]) + [id]
  }

  /** Only buffer bp changed its name, to id, or its count. */
  predicate OneNamed(p: Pool, bp: int, id: Id, p': Pool) {
    && 0 <= bp < |p.blocks| == |p'.blocks|
    && p'.blocks[bp].Name() == id
    && forall i :: 0 <= i < |p.blocks| && i != bp ==>
         p'.blocks[i].Name() == p.blocks[i].Name() && p'.blocks[i].count == p.blocks[i].count
  }

  lemma FlushKeepsNames(p: Pool, v: int, g: GetLabel)
    requires 0 <= v < |p.blocks| && FlushedVictim(p, v, g.queue, g.done, g.flushed) && g.done == |g.queue|
    ensures |g.flushed.blocks| == |p.blocks| && g.flushed.lru == p.lru
    ensures forall i :: 0 <= i < |p.blocks| ==> g.flushed.blocks[i] == p.blocks[i].(dirty := g.flushed.blocks[i].dirty)
  {
    if p.blocks[v].dev != NO_DEV && p.blocks[v].dirty {
      FlushCleans(p, p.blocks[v].dev, g.queue, g.flushed);
    }
  }

  lemma AccessNames(p: Pool, g: GetLabel, blockSize: nat, bp: int, mid: Pool, p': Pool)
    requires Quiet(p) && Access(p, g, blockSize, bp, mid, p')
    ensures OneNamed(p, bp, g.id, p') && p'.blocks[bp].count == 0
    ensures p'.lru == Without(p.lru, bp) + [bp]
    ensures if Held(p.blocks, g.id) then p.blocks[bp].Name() == g.id else bp == p.lru[0]
  {
    if !Held(p.blocks, g.id) {
      assert p.lru[0] == bp;
      MissNames(p, g, blockSize, mid);
    }
  }

  lemma MissNames(p: Pool, g: GetLabel, blockSize: nat, mid: Pool)
    requires Quiet(p) && g.id.dev != NO_DEV && g.mode != PREFETCH && g.done == |g.queue| && g.read.r == blockSize
    requires Replaced(WithMemory(p, p.lru[0]), p.lru[0], g.id, g.mode, g.vmcache, g.accepted, g.queue, g.done,
                      g.flushed, g.read, blockSize, mid)
    ensures OneNamed(p, p.lru[0], g.id, mid) && mid.blocks[p.lru[0]].count == 1
    ensures mid.lru == Without(p.lru, p.lru[0])
  {
    var v, f := p.lru[0], g.flushed;
    FlushKeepsNames(WithMemory(p, v).(lru := Without(p.lru, v)), v, g);
    var yieldid := if p.blocks[v].dev != NO_DEV then Some(f.blocks[v].Name()) else None;
    FetchedShape(Renamed(f, v, g.id), v, g.mode, g.vmcache, yieldid, g.accepted, g.read, blockSize, mid);
  }

  /** A block is held by a buffer of a quiet pool if and only if its name is in the order. */
  lemma HeldInOrder(p: Pool, id: Id)
    requires Quiet(p)
    ensures Held(p.blocks, id) <==> id in Order(p)
  {
    if Held(p.blocks, id) {
      var i :| 0 <= i < |p.blocks| && p.blocks[i].Name() == id;
      assert i in p.lru;
      var m :| 0 <= m < |p.lru| && p.lru[m] == i;
      assert Order(p)[m] == id;
    }
    if id in Order(p) {
      var m :| 0 <= m < |p.lru| && Order(p)[m] == id;
      assert p.blocks[p.lru[m]].Name() == id;
    }
  }

  /** Renaming the m-th buffer of the chain and moving it to the rear. */
  lemma MovedToRear(p: Pool, m: nat, id: Id, p': Pool)
    requires Quiet(p) && m < |p.lru| && OneNamed(p, p.lru[m], id, p') && p'.blocks[p.lru[m]].count == 0
    requires p'.lru == RemoveAt(p.lru, m) + [p.lru[m]]
    requires id.dev != NO_DEV && forall i :: 0 <= i < |p.blocks| && i != p.lru[m] ==> p.blocks[i].Name() != id
    ensures Quiet(p') && Order(p') == RemoveAt(Order(p), m) + [id]
  {
    StillUnique(p, p.lru[m], id, p');
    LruMoved(p.lru, m);
    forall i | 0 <= i < |p'.blocks|
      ensures i in p'.lru && p'.blocks[i].count == 0
    {
      assert i in p.lru;
    }
    var o, o' := Order(p), Order(p');
    forall k | 0 <= k < |p.lru| - 1
      ensures o'[k] == RemoveAt(o, m)[k]
    {
      var j := if k < m then k else k + 1;
      assert p'.lru[k] == p.lru[j] != p.lru[m];
    }
    assert o' == RemoveAt(o, m) + [id];
  }

  lemma StillUnique(p: Pool, v: int, id: Id, p': Pool)
    requires Unique(p.blocks) && OneNamed(p, v, id, p')
    requires id.dev != NO_DEV && forall i :: 0 <= i < |p.blocks| && i != v ==> p.blocks[i].Name() != id
    ensures Unique(p'.blocks)
  {
  }

  lemma LruMoved(lru: seq<int>, m: nat)
    requires NoDup(lru) && m < |lru|
    ensures NoDup(RemoveAt(lru, m) + [lru[m]])
    ensures forall x :: x in RemoveAt(lru, m) + [lru[m]] <==> x in lru
  {
    WithoutIsRemoveAt(lru, m);
  }

  /** One access turns the order of the names into Used of it, and the pool is quiet again. */
  lemma AccessOrder(p: Pool, g: GetLabel, blockSize: nat, bp: int, mid: Pool, p': Pool)
    requires Quiet(p) && Access(p, g, blockSize, bp, mid, p')
    ensures Quiet(p') && |p'.blocks| == |p.blocks|
    ensures Order(p') == Used(Order(p), g.id)
  {
    AccessNames(p, g, blockSize, bp, mid, p');
    assert bp in p.lru;
    var m :| 0 <= m < |p.lru| && p.lru[m] == bp && (bp == p.lru[0] ==> m == 0);
    UsedOrder(p, m, g.id, p');
  }

  /** The buffer that holds id, or the oldest, goes to the rear as holder of id. */
  lemma UsedOrder(p: Pool, m: nat, id: Id, p': Pool)
    requires Quiet(p) && m < |p.lru| && OneNamed(p, p.lru[m], id, p') && p'.blocks[p.lru[m]].count == 0
    requires p'.lru == Without(p.lru, p.lru[m]) + [p.lru[m]] && id.dev != NO_DEV
    requires if Held(p.blocks, id) then p.blocks[p.lru[m]].Name() == id else m == 0
    ensures Quiet(p') && |p'.blocks| == |p.blocks| && Order(p') == Used(Order(p), id)
  {
    var o := Order(p);
    HeldInOrder(p, id);
    WithoutIsRemoveAt(p.lru, m);
    MovedToRear(p, m, id, p');
    if id in o {
      assert o[m] == id;
      NamedOnce(p, m);
      WithoutOnce(o, m);
    }
  }

  lemma NamedOnce(p: Pool, m: nat)
    requires Quiet(p) && m < |p.lru|
    requires forall i :: 0 <= i < |p.blocks| && i != p.lru[m] ==> p.blocks[i].Name() != p.blocks[p.lru[m]].Name()
    ensures m < |Order(p)| && forall j :: 0 <= j < |Order(p)| && j != m ==> Order(p)[j] != Order(p)[m]
  {
    forall j | 0 <= j < |Order(p)| && j != m
      ensures Order(p)[j] != Order(p)[m]
    {
      assert p.lru[j] != p.lru[m];
    }
  }

  // ---------------------------------------------------------------- recency

  /** The distinct blocks of a trace, least recently used first. */
  function Recent(trace: seq<Id>): seq<Id> {
    if trace == [] then []
    else Without(Recent(trace[..|trace| - 1]), trace[|trace| - 1]) + [trace[|trace| - 1]]
  }

  lemma {:induction false} RecentDistinct(trace: seq<Id>)
    ensures NoDup(Recent(trace))
    ensures forall x :: x in Recent(trace) <==> x in trace
  {
    if trace != [] {
      var before, id := trace[..|trace| - 1], trace[|trace| - 1];
      assert trace == before + [id];
      RecentDistinct(before);
      WithoutMembers(Recent(before), id);
      AppendDistinct(Without(Recent(before), id), id);
    }
  }

  lemma AppendDistinct(s: seq<Id>, id: Id)
    requires NoDup(s) && id !in s
    ensures NoDup(s + [id])
  {
    forall i, j | 0 <= i < j < |s + [id]|
      ensures (s + [id])[i] != (s + [id])[j]
    {
      assert (s + [id])[i] == s[i];
      assert s[i] in s;
    }
  }

  function Min(a: nat, b: nat): nat {
    if a < b then a else b
  }

  /** o is padding followed by the last |o|, or all, of r. */
  ghost predicate TopOf(o: seq<Id>, r: seq<Id>) {
    var k := Min(|o|, |r|);
    o[|o| - k..] == r[|r| - k..] && forall j :: 0 <= j < |o| - k ==> o[j].dev == NO_DEV
  }

  lemma DistinctParts(a: seq<Id>, c: seq<Id>, m: nat)
    requires NoDup(a + c) && m < |c|
    ensures NoDup(c) && c[m] !in a
  {
    assert forall j :: 0 <= j < |c| ==> c[j] == (a + c)[|a| + j];
    forall j | 0 <= j < |a|
      ensures a[j] != c[m]
    {
      assert (a + c)[j] == a[j];
    }
  }

  lemma TopOfHit(pad: seq<Id>, a: seq<Id>, c: seq<Id>, id: Id)
    requires NoDup(a + c) && id in c && id !in pad
    ensures Without(pad + c, id) == pad + Without(c, id)
    ensures Without(a + c, id) == a + Without(c, id)
  {
    WithoutAppend(a, c, id);
    WithoutAppend(pad, c, id);
    WithoutAbsent(pad, id);
    var m :| 0 <= m < |c| && c[m] == id;
    DistinctParts(a, c, m);
    WithoutAbsent(a, id);
  }

  lemma TopOfSplit(pad: seq<Id>, a: seq<Id>, c: seq<Id>)
    requires pad == [] || a == []
    requires forall x :: x in pad ==> x.dev == NO_DEV
    ensures TopOf(pad + c, a + c)
  {
    assert (pad + c)[|pad|..] == c == (a + c)[|a|..];
    if Min(|pad + c|, |a + c|) != |c| {
      assert false;
    }
  }

  lemma TopOfUsed(o: seq<Id>, r: seq<Id>, id: Id)
    requires TopOf(o, r) && NoDup(r) && o != [] && id.dev != NO_DEV
    ensures TopOf(Used(o, id), Without(r, id) + [id])
  {
    var k := Min(|o|, |r|);
    var a, c, pad := r[..|r| - k], r[|r| - k..], o[..|o| - k];
    assert r == a + c && o == pad + c;
    assert pad == [] || a == [];
    UsedSplit(pad, a, c, id);
  }

  lemma UsedSplit(pad: seq<Id>, a: seq<Id>, c: seq<Id>, id: Id)
    requires pad + c != [] && (pad == [] || a == [])
    requires forall j :: 0 <= j < |pad| ==> pad[j].dev == NO_DEV
    requires NoDup(a + c) && id.dev != NO_DEV
    ensures TopOf(Used(pad + c, id), Without(a + c, id) + [id])
  {
    if id in c {
      TopOfHit(pad, a, c, id);
      assert pad + Without(c, id) + [id] == pad + (Without(c, id) + [id]);
      assert a + Without(c, id) + [id] == a + (Without(c, id) + [id]);
      TopOfSplit(pad, a, Without(c, id) + [id]);
    } else {
      assert id !in pad + c;
      WithoutAppend(a, c, id);
      WithoutAbsent(c, id);
      TopOfMiss(pad, a, Without(a, id), c, id);
    }
  }

  lemma TopOfMiss(pad: seq<Id>, a: seq<Id>, a': seq<Id>, c: seq<Id>, id: Id)
    requires pad + c != [] && (pad == [] || a == [])
    requires a == [] ==> a' == []
    requires forall x :: x in pad ==> x.dev == NO_DEV
    ensures TopOf((pad + c)[1..] + [id], a' + c + [id])
  {
    if pad == [] {
      assert (pad + c)[1..] + [id] == [] + (c[1..] + [id]);
      assert a' + c + [id] == (a' + [c[0]]) + (c[1..] + [id]);
      TopOfSplit([], a' + [c[0]], c[1..] + [id]);
    } else {
      assert (pad + c)[1..] + [id] == pad[1..] + (c + [id]);
      assert a' + c + [id] == [] + (c + [id]);
      TopOfSplit(pad[1..], [], c + [id]);
    }
  }

  // ---------------------------------------------------------------- runs

  /** A run of accesses to the blocks of `trace`. */
  ghost predicate AccessRun(pools: seq<Pool>, mids: seq<Pool>, labels: seq<GetLabel>, bps: seq<int>, blockSize: nat,
                            trace: seq<Id>) {
    && |pools| == |trace| + 1 && |mids| == |labels| == |bps| == |trace|
    && (forall i {:trigger AccessAt(pools, mids, labels, bps, blockSize, trace, i)} :: 0 <= i < |trace| ==>
          AccessAt(pools, mids, labels, bps, blockSize, trace, i))
  }

  ghost predicate AccessAt(pools: seq<Pool>, mids: seq<Pool>, labels: seq<GetLabel>, bps: seq<int>, blockSize: nat,
                           trace: seq<Id>, i: nat)
    requires i < |trace| == |mids| == |labels| == |bps| && |pools| == |trace| + 1
  {
    labels[i].id == trace[i] && Access(pools[i], labels[i], blockSize, bps[i], mids[i], pools[i + 1])
  }

  ghost predicate Empty(p: Pool) {
    Quiet(p) && forall i :: 0 <= i < |p.blocks| ==> p.blocks[i].dev == NO_DEV
  }

  /** The LRU stack property: after any sequence of accesses the cache holds exactly the |blocks| most
      recently used distinct blocks (all of them if there are fewer), in order of use. */
  lemma {:induction false} StackProperty(pools: seq<Pool>, mids: seq<Pool>, labels: seq<GetLabel>, bps: seq<int>,
                                         blockSize: nat, trace: seq<Id>, n: nat)
    requires AccessRun(pools, mids, labels, bps, blockSize, trace) && Empty(pools[0]) && n <= |trace|
    ensures Quiet(pools[n]) && |pools[n].blocks| == |pools[0].blocks|
    ensures TopOf(Order(pools[n]), Recent(trace[..n]))
  {
    if n > 0 {
      StackProperty(pools, mids, labels, bps, blockSize, trace, n - 1);
      var id := trace[n - 1];
      assert AccessAt(pools, mids, labels, bps, blockSize, trace, n - 1);
      AccessOrder(pools[n - 1], labels[n - 1], blockSize, bps[n - 1], mids[n - 1], pools[n]);
      assert trace[..n][..n - 1] == trace[..n - 1];
      RecentDistinct(trace[..n - 1]);
      TopOfUsed(Order(pools[n - 1]), Recent(trace[..n - 1]), id);
    }
  }

  /** A valid name is in the order if and only if it is among the recent ones that fit. */
  lemma InTop(o: seq<Id>, r: seq<Id>, id: Id)
    requires TopOf(o, r) && id.dev != NO_DEV
    ensures id in o <==> id in Newest(r, |o|)
  {
    var k := Min(|o|, |r|);
    assert o == o[..|o| - k] + o[|o| - k..];
  }

  /** A block is cached if and only if it is among the most recently used ones that fit. */
  lemma HeldIffRecent(p: Pool, r: seq<Id>, id: Id)
    requires Quiet(p) && TopOf(Order(p), r) && id.dev != NO_DEV
    ensures Held(p.blocks, id) <==> id in Newest(r, |p.blocks|)
  {
    HeldInOrder(p, id);
    InTop(Order(p), r, id);
  }

  /** The n most recently used of the blocks of r, or all if there are fewer. */
  function Newest(r: seq<Id>, n: nat): seq<Id> {
    r[|r| - Min(n, |r|)..]
  }

  /** The n-th access hits if and only if its block is among the most recently used that fit. */
  lemma HitIffRecent(pools: seq<Pool>, mids: seq<Pool>, labels: seq<GetLabel>, bps: seq<int>,
                     blockSize: nat, trace: seq<Id>, n: nat)
    requires AccessRun(pools, mids, labels, bps, blockSize, trace) && Empty(pools[0]) && n < |trace|
    ensures Held(pools[n].blocks, trace[n]) <==> trace[n] in Newest(Recent(trace[..n]), |pools[0].blocks|)
  {
    StackProperty(pools, mids, labels, bps, blockSize, trace, n);
    assert AccessAt(pools, mids, labels, bps, blockSize, trace, n);
    HeldIffRecent(pools[n], Recent(trace[..n]), trace[n]);
  }

  lemma NewestGrows(r: seq<Id>, m: nat, n: nat)
    requires m <= n
    ensures forall x :: x in Newest(r, m) ==> x in Newest(r, n)
  {
    var d := Min(n, |r|) - Min(m, |r|);
    assert Newest(r, m) == Newest(r, n)[d..];
  }

  /** Belady's inclusion: on the same accesses, a larger pool hits wherever a smaller pool hits. */
  lemma LargerPoolHits(pools: seq<Pool>, mids: seq<Pool>, labels: seq<GetLabel>, bps: seq<int>,
                       pools': seq<Pool>, mids': seq<Pool>, labels': seq<GetLabel>, bps': seq<int>,
                       blockSize: nat, trace: seq<Id>, n: nat)
    requires AccessRun(pools, mids, labels, bps, blockSize, trace) && Empty(pools[0])
    requires AccessRun(pools', mids', labels', bps', blockSize, trace) && Empty(pools'[0])
    requires |pools[0].blocks| <= |pools'[0].blocks| && n < |trace|
    requires Held(pools[n].blocks, trace[n])
    ensures Held(pools'[n].blocks, trace[n])
  {
    HitIffRecent(pools, mids, labels, bps, blockSize, trace, n);
    HitIffRecent(pools', mids', labels', bps', blockSize, trace, n);
    NewestGrows(Recent(trace[..n]), |pools[0].blocks|, |pools'[0].blocks|);
  }
}
