/** VM's second-level block cache: yielded blocks on an LRU list, in a hashed ordered index, and
    counted per process. */
module YieldedBlocks {
  import opened Chains
  import opened YieldInterface
  import opened YieldMemory

  const VM_PAGE_SIZE: nat := 4096
  const YIELD_HASHSIZE: nat := 65536

  /** yielded_block_cmp */
  function Cmp(id1: BlockId, id2: BlockId): int {
    if id1.owner < id2.owner then -1
    else if id1.owner > id2.owner then 1
    else if id1.id < id2.id then -1
    else if id1.id > id2.id then 1
    else 0
  }

  class Yielded {
    const id: BlockId
    const phys: nat
    const pages: nat
    var younger: Yielded?
    var older: Yielded?

    constructor (id: BlockId, phys: nat, pages: nat)
      ensures this.id == id && this.phys == phys && this.pages == pages && younger == null == older
    {
      this.id, this.phys, this.pages := id, phys, pages;
      younger, older := null, null;
    }
  }

  function Info(y: Yielded): Node {
    Node(y.id, y.phys, y.pages)
  }

  function Infos(s: seq<Yielded>): (r: seq<Node>)
    ensures |r| == |s| && forall i :: 0 <= i < |s| ==> r[i] == Info(s[i])
  {
    seq(|s|, i requires 0 <= i < |s| => Info(s[i]))
  }

  /** How many of the blocks belong to a process. */
  function CountOf(s: seq<Yielded>, owner: int): nat {
    if s == [] then 0 else CountOf(s[..|s| - 1], owner) + if s[|s| - 1].id.owner == owner then 1 else 0
  }

  ghost predicate SortedById(s: seq<Yielded>) {
    forall i, j {:trigger Cmp(s[i].id, s[j].id)} :: 0 <= i < j < |s| ==> Cmp(s[i].id, s[j].id) < 0
  }

  /** Bucket h lists, by id, exactly the blocks of `lru` that hash to h. */
  ghost predicate IndexOk(bs: seq<seq<Yielded>>, lru: seq<Yielded>, hash: BlockId -> nat) {
    && |bs| == YIELD_HASHSIZE
    && (forall h :: 0 <= h < |bs| ==> SortedById(bs[h]))
    && (forall h, y {:trigger y in bs[h]} :: 0 <= h < |bs| && y in bs[h] ==>
          y in lru && hash(y.id) % YIELD_HASHSIZE == h)
    && (forall y {:trigger y in lru} :: y in lru ==> y in bs[hash(y.id) % YIELD_HASHSIZE])
  }

  function CountIn(counts: map<int, nat>, owner: int): nat {
    if owner in counts then counts[owner] else 0
  }

  /** Each process's vm_yielded is the number of its blocks. */
  ghost predicate CountsOk(counts: map<int, nat>, lru: seq<Yielded>) {
    forall o :: CountIn(counts, o) == CountOf(lru, o)
  }

  // ---------------------------------------------------------------- lemmas on the index

  lemma {:induction false} CountAppend(s: seq<Yielded>, t: seq<Yielded>, o: int)
    ensures CountOf(s + t, o) == CountOf(s, o) + CountOf(t, o)
  {
    if t == [] {
      assert s + t == s;
    } else {
      assert (s + t)[..|s + t| - 1] == s + t[..|t| - 1];
      CountAppend(s, t[..|t| - 1], o);
    }
  }

  lemma CountRemove(s: seq<Yielded>, k: nat, o: int)
    requires k < |s|
    ensures CountOf(RemoveAt(s, k), o) == CountOf(s, o) - if s[k].id.owner == o then 1 else 0
  {
    assert s == (s[..k] + [s[k]]) + s[k + 1..];
    RemoveAtSlices(s, k);
    CountAppend(s[..k] + [s[k]], s[k + 1..], o);
    CountAppend(s[..k], [s[k]], o);
    CountAppend(s[..k], s[k + 1..], o);
  }

  lemma {:induction false} CountPositive(s: seq<Yielded>, o: int)
    ensures CountOf(s, o) > 0 <==> exists k :: 0 <= k < |s| && s[k].id.owner == o
  {
    if s != [] {
      CountPositive(s[..|s| - 1], o);
      if exists k :: 0 <= k < |s| && s[k].id.owner == o {
        var k :| 0 <= k < |s| && s[k].id.owner == o;
        assert k < |s| - 1 ==> s[..|s| - 1][k].id.owner == o;
      }
    }
  }

  /** Two blocks in the index never share an id. */
  lemma IdsDistinct(bs: seq<seq<Yielded>>, lru: seq<Yielded>, hash: BlockId -> nat, x: Yielded, y: Yielded)
    requires IndexOk(bs, lru, hash) && x in lru && y in lru && x.id == y.id
    ensures x == y
  {
    var b := bs[hash(x.id) % YIELD_HASHSIZE];
    var i :| 0 <= i < |b| && b[i] == x;
    var j :| 0 <= j < |b| && b[j] == y;
    if i != j {
      SortedIdsDiffer(b, i, j);
    }
  }

  lemma SortedIdsDiffer(b: seq<Yielded>, i: nat, j: nat)
    requires SortedById(b) && i < |b| && j < |b| && i != j
    ensures b[i].id != b[j].id
  {
    if i < j {
      assert Cmp(b[i].id, b[j].id) < 0;
    } else {
      assert Cmp(b[j].id, b[i].id) < 0;
    }
  }

  lemma RemovedDistinct(l: seq<Yielded>, k: nat)
    requires NoDup(l) && k < |l|
    ensures NoDup(RemoveAt(l, k)) && RemoveAt(l, k) == Without(l, l[k])
  {
    WithoutIsRemoveAt(l, k);
  }

  lemma RemovedSorted(b: seq<Yielded>, k: nat)
    requires SortedById(b) && k < |b|
    ensures SortedById(RemoveAt(b, k)) && NoDup(b)
    ensures forall y :: y in RemoveAt(b, k) <==> y in b && y != b[k]
  {
    forall i, j | 0 <= i < j < |b|
      ensures b[i] != b[j]
    {
      assert Cmp(b[i].id, b[j].id) < 0;
    }
    assert forall y :: y in RemoveAt(b, k) <==> y in b && y != b[k] by {
      WithoutIsRemoveAt(b, k);
    }
    forall i, j | 0 <= i < j < |b| - 1
      ensures Cmp(RemoveAt(b, k)[i].id, RemoveAt(b, k)[j].id) < 0
    {
      assert Cmp(b[if i < k then i else i + 1].id, b[if j < k then j else j + 1].id) < 0;
    }
  }

  /** Removing one block from its bucket and from the list. */
  lemma IndexRemove(bs: seq<seq<Yielded>>, lru: seq<Yielded>, hash: BlockId -> nat, h: nat, k: nat, m: nat)
    requires IndexOk(bs, lru, hash) && NoDup(lru) && h < |bs| && k < |bs[h]| && m < |lru| && lru[m] == bs[h][k]
    ensures IndexOk(bs[h := RemoveAt(bs[h], k)], RemoveAt(lru, m), hash)
  {
    RemovedSorted(bs[h], k);
    WithoutIsRemoveAt(lru, m);
    var x, bs', lru' := bs[h][k], bs[h := RemoveAt(bs[h], k)], RemoveAt(lru, m);
    assert x in bs[h] && hash(x.id) % YIELD_HASHSIZE == h;
    forall g, y | 0 <= g < |bs'| && y in bs'[g]
      ensures y in lru' && hash(y.id) % YIELD_HASHSIZE == g
    {
      assert y in bs[g];
    }
    forall y | y in lru'
      ensures y in bs'[hash(y.id) % YIELD_HASHSIZE]
    {
      assert y in lru && y != x;
    }
  }

  /** Inserting a block before position k of its bucket and at the young end of the list. */
  lemma IndexInsert(bs: seq<seq<Yielded>>, lru: seq<Yielded>, hash: BlockId -> nat, h: nat, k: nat, y: Yielded)
    requires IndexOk(bs, lru, hash) && h == hash(y.id) % YIELD_HASHSIZE && k <= |bs[h]|
    requires forall i :: 0 <= i < k ==> Cmp(bs[h][i].id, y.id) < 0
    requires forall i :: k <= i < |bs[h]| ==> Cmp(y.id, bs[h][i].id) < 0
    ensures IndexOk(bs[h := bs[h][..k] + [y] + bs[h][k..]], lru + [y], hash)
  {
    InsertedSorted(bs[h], k, y);
    var b := bs[h][..k] + [y] + bs[h][k..];
    var bs', lru' := bs[h := b], lru + [y];
    forall g, x | 0 <= g < |bs'| && x in bs'[g]
      ensures x in lru' && hash(x.id) % YIELD_HASHSIZE == g
    {
      assert x != y ==> x in bs[g];
    }
    forall x | x in lru'
      ensures x in bs'[hash(x.id) % YIELD_HASHSIZE]
    {
      assert x != y ==> x in lru;
    }
  }

  lemma InsertedSorted(b: seq<Yielded>, k: nat, y: Yielded)
    requires SortedById(b) && k <= |b|
    requires forall i :: 0 <= i < k ==> Cmp(b[i].id, y.id) < 0
    requires forall i :: k <= i < |b| ==> Cmp(y.id, b[i].id) < 0
    ensures SortedById(b[..k] + [y] + b[k..])
    ensures forall x :: x in b[..k] + [y] + b[k..] <==> x in b || x == y
  {
    assert b == b[..k] + b[k..];
    var b' := b[..k] + [y] + b[k..];
    forall i, j | 0 <= i < j < |b'|
      ensures Cmp(b'[i].id, b'[j].id) < 0
    {
      var i0, j0 := if i <= k then i else i - 1, if j <= k then j else j - 1;
      assert 0 <= i0 < j0 < |b| ==> Cmp(b[i0].id, b[j0].id) < 0;
    }
  }

  class Vm {
    var lruYoungest: Yielded?
    var lruOldest: Yielded?
    const buckets: array<seq<Yielded>>
    const hash: BlockId -> nat
    var vmYielded: map<int, nat>
    var mem: Mem

    /** The list from the oldest block to the youngest, and all physical pages. */
    ghost var lru: seq<Yielded>
    ghost const universe: set<nat>

    /** The pointers link exactly the blocks of `lru`. */
    ghost predicate Listed()
      reads this`lru, this`lruOldest, this`lruYoungest, lru
    {
      && NoDup(lru)
      && (forall k {:trigger lru[k].older} :: 0 <= k < |lru| ==> lru[k].older == if k > 0 then lru[k - 1] else null)
      && (forall k {:trigger lru[k].younger} :: 0 <= k < |lru| ==>
            lru[k].younger == if k + 1 < |lru| then lru[k + 1] else null)
      && lruOldest == (if lru == [] then null else lru[0])
      && lruYoungest == (if lru == [] then null else lru[|lru| - 1])
    }

    ghost predicate Valid()
      reads this, lru, buckets
    {
      Listed() && IndexedBy(lru) && CountsOk(vmYielded, lru) && MemOk(mem)
    }

    ghost predicate IndexedBy(l: seq<Yielded>)
      reads buckets
    {
      IndexOk(buckets[..], l, hash)
    }

    /** Every physical page has one owner. */
    ghost predicate Conserved()
      reads this
    {
      OwnedOnce(Infos(lru), mem, universe)
    }

    /** VM at its start: no block is yielded, and every page is in a phys block or free. */
    constructor (mem: Mem, hash: BlockId -> nat, ghost universe: set<nat>)
      requires MemOk(mem) && OwnedOnce([], mem, universe)
      ensures Valid() && Conserved() && fresh(buckets)
      ensures lru == [] && this.mem == mem && this.hash == hash && this.universe == universe
    {
      this.mem, this.hash, this.universe := mem, hash, universe;
      lruYoungest, lruOldest, vmYielded, lru := null, null, map[], [];
      buckets := new seq<Yielded>[YIELD_HASHSIZE](_ => []);
      new;
      assert Infos(lru) == [];
    }

    /** Two blocks of the list never share an id. */
    lemma IdsApart()
      requires Valid()
      ensures DistinctIds(Infos(lru))
    {
      forall i, j | 0 <= i < j < |lru| && lru[i].id == lru[j].id
        ensures false
      {
        IdsDistinct(buckets[..], lru, hash, lru[i], lru[j]);
      }
    }

    /** yielded_search with AVL_EQUAL */
    method Search(id: BlockId) returns (y: Yielded?)
      requires Valid()
      ensures y != null ==> y in lru && y.id == id
      ensures y == null ==> forall x :: x in lru ==> x.id != id
    {
      var b := buckets[hash(id) % YIELD_HASHSIZE];
      var k := 0;
      while k < |b|
        invariant 0 <= k <= |b| && forall i :: 0 <= i < k ==> b[i].id != id
      {
        if b[k].id == id {
          assert b[k] in b;
          return b[k];
        }
        k := k + 1;
      }
      y := null;
    }

    /** The position of a block in its bucket. */
    method Locate(y: Yielded) returns (k: nat)
      requires Valid() && y in lru
      ensures k < |buckets[hash(y.id) % YIELD_HASHSIZE]| && buckets[hash(y.id) % YIELD_HASHSIZE][k] == y
    {
      var b := buckets[hash(y.id) % YIELD_HASHSIZE];
      k := 0;
      while b[k] != y
        invariant 0 <= k < |b| && y in b[k..]
        decreases |b| - k
      {
        k := k + 1;
      }
    }

    /** The neighbours of a block, or the ends of the list, point past it. */
    method Splice(node: Yielded, ghost k: nat)
      requires Listed() && k < |lru| && lru[k] == node
      modifies this`lruYoungest, this`lruOldest, lru
      ensures forall m {:trigger lru[m].older} :: 0 <= m < |lru| && m != k ==>
        lru[m].older == if m == k + 1 then (if k > 0 then lru[k - 1] else null) else if m > 0 then lru[m - 1] else null
      ensures forall m {:trigger lru[m].younger} :: 0 <= m < |lru| && m != k ==>
        lru[m].younger == if m + 1 == k then (if k + 1 < |lru| then lru[k + 1] else null)
          else if m + 1 < |lru| then lru[m + 1] else null
      ensures lruOldest == if k > 0 then lru[0] else if k + 1 < |lru| then lru[k + 1] else null
      ensures lruYoungest == if k + 1 < |lru| then lru[|lru| - 1] else if k > 0 then lru[k - 1] else null
    {
      var younger, older := node.younger, node.older;
      if younger != null {
        younger.older := older;
      } else {
        lruYoungest := older;
      }
      if older != null {
        older.younger := younger;
      } else {
        lruOldest := younger;
      }
      assert forall m {:trigger lru[m].older} :: 0 <= m < |lru| && m != k ==>
        lru[m].older == if m == k + 1 then older else old(lru[m].older);
      assert forall m {:trigger lru[m].younger} :: 0 <= m < |lru| && m != k ==>
        lru[m].younger == if m + 1 == k then younger else old(lru[m].younger);
    }

    /** The list part of freeyieldednode. */
    method Unlink(node: Yielded)
      requires Listed() && node in lru
      modifies this`lruYoungest, this`lruOldest, this`lru, lru
      ensures Listed() && lru == Without(old(lru), node)
    {
      ghost var k :| 0 <= k < |lru| && lru[k] == node;
      ghost var l := lru;
      Splice(node, k);
      lru := RemoveAt(l, k);
      RemovedDistinct(l, k);
      Relinked(l, k);
    }

    /** The links that are right for the list without its k-th block. */
    lemma Relinked(l: seq<Yielded>, k: nat)
      requires k < |l| && lru == RemoveAt(l, k)
      requires forall m {:trigger l[m].older} :: 0 <= m < |l| && m != k ==>
        l[m].older == if m == k + 1 then (if k > 0 then l[k - 1] else null) else if m > 0 then l[m - 1] else null
      requires forall m {:trigger l[m].younger} :: 0 <= m < |l| && m != k ==>
        l[m].younger == if m + 1 == k then (if k + 1 < |l| then l[k + 1] else null)
          else if m + 1 < |l| then l[m + 1] else null
      ensures forall j {:trigger lru[j].older} :: 0 <= j < |lru| ==> lru[j].older == if j > 0 then lru[j - 1] else null
      ensures forall j {:trigger lru[j].younger} :: 0 <= j < |lru| ==>
        lru[j].younger == if j + 1 < |lru| then lru[j + 1] else null
    {
      forall j {:trigger lru[j]} | 0 <= j < |lru|
        ensures lru[j].older == if j > 0 then lru[j - 1] else null
        ensures lru[j].younger == if j + 1 < |lru| then lru[j + 1] else null
      {
        OneRelinked(l, k, j);
      }
    }

    lemma OneRelinked(l: seq<Yielded>, k: nat, j: nat)
      requires k < |l| && lru == RemoveAt(l, k) && j < |lru|
      requires forall m {:trigger l[m].older} :: 0 <= m < |l| && m != k ==>
        l[m].older == if m == k + 1 then (if k > 0 then l[k - 1] else null) else if m > 0 then l[m - 1] else null
      requires forall m {:trigger l[m].younger} :: 0 <= m < |l| && m != k ==>
        l[m].younger == if m + 1 == k then (if k + 1 < |l| then l[k + 1] else null)
          else if m + 1 < |l| then l[m + 1] else null
      ensures lru[j].older == if j > 0 then lru[j - 1] else null
      ensures lru[j].younger == if j + 1 < |lru| then lru[j + 1] else null
    {
      var m := if j < k then j else j + 1;
      assert lru[j] == l[m];
      assert l[m].older == l[m].older && l[m].younger == l[m].younger;
    }

    /** The index part of freeyieldednode: the block leaves its bucket, and its process's count. */
    method Unindex(node: Yielded)
      requires IndexedBy(lru) && NoDup(lru) && CountsOk(vmYielded, lru) && node in lru
      modifies this`vmYielded, buckets
      ensures IndexedBy(Without(lru, node)) && CountsOk(vmYielded, Without(lru, node))
      ensures var h := hash(node.id) % YIELD_HASHSIZE;
              buckets[..] == old(buckets[..])[h := Without(old(buckets[h]), node)]
    {
      ghost var m :| 0 <= m < |lru| && lru[m] == node;
      ghost var bs := buckets[..];
      var h := hash(node.id) % YIELD_HASHSIZE;
      var k := 0;
      var b := buckets[h];
      while b[k] != node
        invariant 0 <= k < |b| && node in b[k..]
        decreases |b| - k
      {
        k := k + 1;
      }
      buckets[h] := b[..k] + b[k + 1..];
      Unindexed(bs, buckets[..], lru, hash, h, k, m);
      CountDown(vmYielded, lru, m);
      vmYielded := vmYielded[node.id.owner := CountIn(vmYielded, node.id.owner) - 1];
    }

    lemma Unindexed(bs: seq<seq<Yielded>>, bs': seq<seq<Yielded>>, l: seq<Yielded>, hash: BlockId -> nat, h: nat,
                    k: nat, m: nat)
      requires IndexOk(bs, l, hash) && NoDup(l) && h < |bs| && k < |bs[h]| && m < |l| && l[m] == bs[h][k]
      requires bs' == bs[h := bs[h][..k] + bs[h][k + 1..]]
      ensures IndexOk(bs', Without(l, l[m]), hash) && Without(l, l[m]) == RemoveAt(l, m)
      ensures bs' == bs[h := Without(bs[h], bs[h][k])]
    {
      RemoveAtSlices(bs[h], k);
      assert Without(bs[h], bs[h][k]) == RemoveAt(bs[h], k) by {
        RemovedSorted(bs[h], k);
        WithoutIsRemoveAt(bs[h], k);
      }
      assert Without(l, l[m]) == RemoveAt(l, m) by {
        WithoutIsRemoveAt(l, m);
      }
      IndexRemove(bs, l, hash, h, k, m);
    }

    /** A block leaves the list, the index and the count. */
    method Detach(node: Yielded)
      requires Valid() && node in lru
      modifies this`lruYoungest, this`lruOldest, this`lru, this`vmYielded, lru, buckets
      ensures Valid() && lru == Without(old(lru), node)
      ensures var h := hash(node.id) % YIELD_HASHSIZE;
              buckets[..] == old(buckets[..])[h := Without(old(buckets[h]), node)]
    {
      Unindex(node);
      ghost var bs := buckets[..];
      Unlink(node);
      assert buckets[..] == bs;
    }

    /** freeyieldednode */
    method FreeNode(node: Yielded, freemem: bool) returns (bytes: nat)
      requires Valid() && node in lru
      modifies this`lruYoungest, this`lruOldest, this`lru, this`vmYielded, this`mem, lru, buckets
      ensures Valid() && bytes == VM_PAGE_SIZE
      ensures lru == Without(old(lru), node)
      ensures mem == if freemem then Freed(old(mem), Info(node)) else old(mem)
      ensures freemem && old(Conserved()) ==> Conserved()
      ensures var h := hash(node.id) % YIELD_HASHSIZE;
              buckets[..] == old(buckets[..])[h := Without(old(buckets[h]), node)]
    {
      ghost var l, m := lru, mem;
      bytes := RemoveNode(node, freemem);
      FreedConserved(l, node, m, universe);
    }

    method RemoveNode(node: Yielded, freemem: bool) returns (bytes: nat)
      requires Valid() && node in lru
      modifies this`lruYoungest, this`lruOldest, this`lru, this`vmYielded, this`mem, lru, buckets
      ensures Valid() && bytes == VM_PAGE_SIZE
      ensures lru == Without(old(lru), node)
      ensures mem == if freemem then Freed(old(mem), Info(node)) else old(mem)
      ensures var h := hash(node.id) % YIELD_HASHSIZE;
              buckets[..] == old(buckets[..])[h := Without(old(buckets[h]), node)]
    {
      bytes := VM_PAGE_SIZE;
      if freemem {
        mem := Freed(mem, Info(node));
      }
      Detach(node);
    }

    /** free_yielded: frees the oldest blocks until max_bytes are reckoned freed, a page for each. */
    method FreeYielded(maxBytes: nat) returns (freed: nat, ghost n: nat)
      requires Valid()
      modifies this`lruYoungest, this`lruOldest, this`lru, this`vmYielded, this`mem, lru, buckets
      ensures Valid() && n == Oldest(|old(lru)|, maxBytes) && freed == n * VM_PAGE_SIZE
      ensures lru == old(lru)[n..] && mem == FreedAll(old(mem), Infos(old(lru)[..n]))
      ensures old(Conserved()) ==> Conserved()
    {
      freed, n := 0, 0;
      ghost var l, m := lru, mem;
      while freed < maxBytes && lruOldest != null
        invariant Valid() && Taken(l, m, n, lru, mem) && Reckoned(n, freed, maxBytes)
        invariant old(Conserved()) ==> Conserved()
        decreases |lru|
      {
        freed, n := FreeNext(l, m, n, freed, maxBytes);
      }
      TakenDone(n, l, m, lru, mem, freed, maxBytes);
    }

    /** One round of free_yielded. */
    method FreeNext(ghost l: seq<Yielded>, ghost m: Mem, ghost n: nat, freed: nat, maxBytes: nat)
      returns (freed': nat, ghost n': nat)
      requires Valid() && lruOldest != null && freed < maxBytes
      requires Taken(l, m, n, lru, mem) && Reckoned(n, freed, maxBytes)
      modifies this`lruYoungest, this`lruOldest, this`lru, this`vmYielded, this`mem, lru, buckets
      ensures Valid() && Taken(l, m, n', lru, mem) && Reckoned(n', freed', maxBytes)
      ensures |lru| < |old(lru)| && (old(Conserved()) ==> Conserved())
    {
      ghost var s, m1 := lru, mem;
      var bytes := FreeOldest();
      TakenNext(l, m, n, s, m1, lru, mem);
      freed', n' := freed + bytes, n + 1;
    }

    method FreeOldest() returns (bytes: nat)
      requires Valid() && lruOldest != null
      modifies this`lruYoungest, this`lruOldest, this`lru, this`vmYielded, this`mem, lru, buckets
      ensures Valid() && bytes == VM_PAGE_SIZE && |old(lru)| > 0
      ensures lru == old(lru)[1..] && mem == Freed(old(mem), Info(old(lru)[0]))
      ensures old(Conserved()) ==> Conserved()
    {
      WithoutFirst(lru);
      bytes := FreeNode(lruOldest, true);
    }

    /** free_yielded_proc: frees every block of a process and no other, although the iterator of the
        bucket is restarted after each removal and the scan stops early once the count is zero. */
    method FreeYieldedProc(owner: int) returns (total: nat)
      requires Valid()
      modifies this`lruYoungest, this`lruOldest, this`lru, this`vmYielded, this`mem, lru, buckets
      ensures Valid() && lru == Others(old(lru), owner) && CountIn(vmYielded, owner) == 0
      ensures mem == old(mem).(free := old(mem).free + PagesOf(old(lru), owner))
      ensures total == VM_PAGE_SIZE * CountOf(old(lru), owner)
      ensures old(Conserved()) ==> Conserved()
    {
      total := 0;
      ghost var l, m := lru, mem;
      var h := 0;
      while h < YIELD_HASHSIZE && CountIn(vmYielded, owner) > 0
        invariant Valid() && 0 <= h <= YIELD_HASHSIZE
        invariant Within(lru, old(lru))
        invariant Progress(l, lru, owner, m, mem, total)
        invariant FromBucket(lru, owner, hash, h)
      {
        total := FreeInBucket(owner, h, total, l, m);
        h := h + 1;
      }
      ProcDone(l, lru, owner, m, mem, total, vmYielded, h, hash);
      ProcConserved(l, m, universe, owner);
    }

    /** Removes the block at one position of a bucket. */
    method FreeAt(h: nat, pos: nat, owner: int, total: nat, ghost l: seq<Yielded>, ghost m: Mem) returns (bytes: nat)
      requires Valid() && h < YIELD_HASHSIZE && pos < |buckets[h]| && buckets[h][pos].id.owner == owner
      requires Progress(l, lru, owner, m, mem, total)
      modifies this`lruYoungest, this`lruOldest, this`lru, this`vmYielded, this`mem, lru, buckets
      ensures Valid() && buckets[h] == RemoveAt(old(buckets[h]), pos)
      ensures Progress(l, lru, owner, m, mem, total + bytes)
      ensures Within(lru, old(lru))
    {
      ghost var b, s, m1 := buckets[h], lru, mem;
      var yb := buckets[h][pos];
      assert yb in b;
      RemovedSorted(b, pos);
      WithoutIsRemoveAt(b, pos);
      bytes := FreeNode(yb, true);
      WithoutWithin(s, yb);
      OneFreed(l, s, yb, owner, m, m1, total);
    }

    /** The iterator restarted at the block after the one removed is where the scan was. */
    method Restart(h: nat, next: Yielded, pos: nat) returns (k: nat)
      requires Valid() && h < YIELD_HASHSIZE && pos < |buckets[h]| && buckets[h][pos] == next
      ensures k == pos
    {
      assert next in buckets[h];
      RemovedSorted(buckets[h], pos);
      k := Locate(next);
    }

    /** One bucket of free_yielded_proc. */
    method FreeInBucket(owner: int, h: nat, total0: nat, ghost l: seq<Yielded>, ghost m: Mem) returns (total: nat)
      requires Valid() && h < YIELD_HASHSIZE
      requires Progress(l, lru, owner, m, mem, total0)
      requires FromBucket(lru, owner, hash, h)
      modifies this`lruYoungest, this`lruOldest, this`lru, this`vmYielded, this`mem, lru, buckets
      ensures Valid() && Within(lru, old(lru))
      ensures Progress(l, lru, owner, m, mem, total)
      ensures FromBucket(lru, owner, hash, h + 1)
    {
      total := total0;
      var pos := 0;
      while pos < |buckets[h]|
        invariant Valid() && 0 <= pos <= |buckets[h]|
        invariant Within(lru, old(lru))
        invariant Progress(l, lru, owner, m, mem, total)
        invariant NoneBefore(buckets[h], pos, owner)
        decreases |buckets[h]| - pos
      {
        var yb := buckets[h][pos];
        if yb.id.owner != owner {
          pos := pos + 1;
        } else {
          ghost var b := buckets[h];
          var bytes, more := FreeAndRestart(h, pos, owner, total, l, m);
          NoneRemoved(b, pos, owner);
          total := total + bytes;
          if !more {
            break;
          }
        }
      }
      BucketEmptied(buckets[..], old(lru), lru, owner, hash, h);
    }

    /** Removes the block at one position of a bucket and restarts the iterator at the next, if any. */
    method FreeAndRestart(h: nat, pos: nat, owner: int, total: nat, ghost l: seq<Yielded>, ghost m: Mem)
      returns (bytes: nat, more: bool)
      requires Valid() && h < YIELD_HASHSIZE && pos < |buckets[h]| && buckets[h][pos].id.owner == owner
      requires Progress(l, lru, owner, m, mem, total)
      modifies this`lruYoungest, this`lruOldest, this`lru, this`vmYielded, this`mem, lru, buckets
      ensures Valid() && buckets[h] == RemoveAt(old(buckets[h]), pos) && more == (pos < |buckets[h]|)
      ensures Progress(l, lru, owner, m, mem, total + bytes)
      ensures Within(lru, old(lru))
    {
      var next: Yielded? := if pos + 1 < |buckets[h]| then buckets[h][pos + 1] else null;
      bytes := FreeAt(h, pos, owner, total, l, m);
      more := next != null;
      if more {
        var restarted := Restart(h, next, pos);
        assert restarted == pos;
      }
    }

    // -------------------------------------------------------------- yieldblock

    /** The scan of yieldblock: the verdict of the first page refused. */
    method Scan(owner: int, v: nat, n: nat) returns (r: Status)
      requires MemOk(mem)
      ensures r == YieldScan(mem, owner, v, 0, n)
    {
      var p := 0;
      while p < n
        invariant 0 <= p <= n && YieldScan(mem, owner, v, 0, n) == YieldScan(mem, owner, v, p, n)
      {
        var a := Addr(owner, v + p);
        if a !in mem.space {
          return EINVAL;
        }
        if !mem.space[a].anon {
          return EFAULT;
        }
        if mem.blocks[mem.space[a].ref].refcount != 1 {
          return EFAULT;
        }
        if p > 0 {
          var before := Addr(owner, v + p - 1);
          if before in mem.space && mem.blocks[mem.space[a].ref].phys != mem.blocks[mem.space[before].ref].phys + 1 {
            return EINVAL;
          }
        }
        p := p + 1;
      }
      r := OK;
    }

    /** Gives n pages the frames from `base` on. */
    method Refresh(owner: int, v: nat, n: nat, base: nat)
      requires OwnPages(mem, owner, v, n)
      modifies this`mem
      ensures Refreshed(old(mem), owner, v, n, base, mem)
    {
      ghost var m := mem;
      var p := 0;
      while p < n
        invariant 0 <= p <= n && Mapped(m, owner, v, p) && Refreshed(m, owner, v, p, base, mem)
      {
        var ref := mem.space[Addr(owner, v + p)].ref;
        ghost var m1 := mem;
        mem := mem.(blocks := mem.blocks[ref := mem.blocks[ref].(phys := base + p)]);
        OneRefreshed(m, m1, mem, owner, v, p, n, base);
        p := p + 1;
      }
    }

    /** yielded_insert: the block enters its bucket, in order, and its process's count. */
    method Index(y: Yielded)
      requires IndexedBy(lru) && CountsOk(vmYielded, lru) && forall x :: x in lru ==> x.id != y.id
      modifies this`vmYielded, buckets
      ensures IndexedBy(lru + [y]) && CountsOk(vmYielded, lru + [y])
    {
      ghost var bs := buckets[..];
      var h := hash(y.id) % YIELD_HASHSIZE;
      var b := buckets[h];
      var k := 0;
      while k < |b| && Cmp(b[k].id, y.id) < 0
        invariant 0 <= k <= |b| && forall i :: 0 <= i < k ==> Cmp(b[i].id, y.id) < 0
      {
        k := k + 1;
      }
      Above(b, k, y, lru);
      buckets[h] := b[..k] + [y] + b[k..];
      IndexInsert(bs, lru, hash, h, k, y);
      CountUp(vmYielded, lru, y);
      vmYielded := vmYielded[y.id.owner := CountIn(vmYielded, y.id.owner) + 1];
    }

    /** The new block is the youngest of the list. */
    method Append(y: Yielded)
      requires Listed() && y !in lru && y.younger == null
      modifies this`lruYoungest, this`lruOldest, this`lru, y`older, lru
      ensures Listed() && lru == old(lru) + [y]
    {
      ghost var l := lru;
      if lruYoungest != null {
        lruYoungest.younger := y;
      } else {
        lruOldest := y;
      }
      y.older := lruYoungest;
      lruYoungest := y;
      lru := l + [y];
      assert forall m {:trigger l[m].older} :: 0 <= m < |l| ==> l[m].older == old(l[m].older);
      assert forall m {:trigger l[m].younger} :: 0 <= m < |l| ==>
        l[m].younger == if m + 1 == |l| then y else old(l[m].younger);
      forall j | 0 <= j < |lru|
        ensures lru[j].older == if j > 0 then lru[j - 1] else null
        ensures lru[j].younger == if j + 1 < |lru| then lru[j + 1] else null
      {
        if j < |l| {
          assert lru[j] == l[j];
          assert l[j].older == l[j].older && l[j].younger == l[j].younger;
        }
      }
    }

    /** Records a yielded block. */
    method Remember(y: Yielded)
      requires Valid() && y !in lru && y.younger == null && forall x :: x in lru ==> x.id != y.id
      modifies this`lruYoungest, this`lruOldest, this`lru, this`vmYielded, y`older, lru, buckets
      ensures Valid() && lru == old(lru) + [y]
    {
      Index(y);
      ghost var bs := buckets[..];
      Append(y);
      assert buckets[..] == bs;
    }

    /** yieldblock. `slabOk` and `grant` are the answers of the slab allocator and of alloc_mem. */
    method YieldBlock(owner: int, id: nat, vaddr: nat, pages: int, slabOk: bool, grant: Option<nat>) returns (r: Status)
      requires Valid()
      modifies this`lruYoungest, this`lruOldest, this`lru, this`vmYielded, this`mem, lru, buckets
      ensures Valid()
      ensures r == YieldVerdict(Infos(old(lru)), old(mem), BlockId(owner, id), vaddr, pages, slabOk, grant)
      ensures r != OK ==> lru == old(lru) && mem == old(mem)
      ensures r == OK ==>
                YieldDone(Infos(old(lru)), old(mem), BlockId(owner, id), vaddr / VM_PAGE_SIZE, pages, grant,
                          Infos(lru), mem)
      ensures r == OK ==> |lru| == |old(lru)| + 1 && lru[..|old(lru)|] == old(lru) && fresh(lru[|old(lru)|])
      ensures mem.space == old(mem).space
      ensures forall b :: b in mem.blocks ==>
                b in old(mem).blocks && mem.blocks[b].refcount == old(mem).blocks[b].refcount
      ensures old(Conserved()) ==> Conserved()
    {
      var y := Search(BlockId(owner, id));
      SearchVerdict(lru, BlockId(owner, id));
      if y != null {
        return EINVAL;
      }
      if vaddr % VM_PAGE_SIZE != 0 || pages < 1 {
        return EFAULT;
      }
      r := Scan(owner, vaddr / VM_PAGE_SIZE, pages);
      if r != OK {
        return;
      }
      if !slabOk || grant.None? || !(Range(grant.value, pages) <= mem.free) {
        return ENOMEM;
      }
      Exchange(BlockId(owner, id), vaddr / VM_PAGE_SIZE, pages, grant.value);
      SameCounts(Allocated(old(mem), grant.value, pages), owner, vaddr / VM_PAGE_SIZE, pages, grant.value, mem);
    }

    /** The part of yieldblock that cannot fail. */
    method Exchange(id: BlockId, v: nat, n: nat, base: nat)
      requires Valid() && n > 0 && YieldScan(mem, id.owner, v, 0, n) == OK && Range(base, n) <= mem.free
      requires forall x :: x in lru ==> x.id != id
      modifies this`lruYoungest, this`lruOldest, this`lru, this`vmYielded, this`mem, lru, buckets
      ensures Valid()
      ensures YieldDone(Infos(old(lru)), old(mem), id, v, n, Some(base), Infos(lru), mem)
      ensures |lru| == |old(lru)| + 1 && lru[..|old(lru)|] == old(lru) && fresh(lru[|old(lru)|])
      ensures old(Conserved()) ==> Conserved()
    {
      ghost var l, m := lru, mem;
      ScanYieldable(mem, id.owner, v, 0, n);
      Record(id, mem.blocks[mem.space[Addr(id.owner, v)].ref].phys, n);
      SwapFrames(id.owner, v, n, base);
      YieldOwned(Infos(l), m, universe, id, v, n, Some(base), Infos(lru), mem);
    }

    method Record(id: BlockId, phys: nat, n: nat)
      requires Valid() && forall x :: x in lru ==> x.id != id
      modifies this`lruYoungest, this`lruOldest, this`lru, this`vmYielded, lru, buckets
      ensures Valid() && Infos(lru) == Infos(old(lru)) + [Node(id, phys, n)]
      ensures |lru| == |old(lru)| + 1 && lru[..|old(lru)|] == old(lru) && fresh(lru[|old(lru)|])
    {
      ghost var l := lru;
      var newyb := new Yielded(id, phys, n);
      Remember(newyb);
      assert Infos(lru) == Infos(l) + [Info(newyb)];
    }

    /** The pages get cleared frames from the free pool. */
    method SwapFrames(owner: int, v: nat, n: nat, base: nat)
      requires MemOk(mem) && Yieldable(mem, owner, v, n) && Range(base, n) <= mem.free
      modifies this`mem
      ensures MemOk(mem) && Mapped(Allocated(old(mem), base, n), owner, v, n)
      ensures Refreshed(Allocated(old(mem), base, n), owner, v, n, base, mem)
    {
      ghost var m := mem;
      YieldableOwn(m, owner, v, n);
      SameFrames(m, Allocated(m, base, n), owner, v, n);
      mem := Allocated(mem, base, n);
      Refresh(owner, v, n, base);
      RefreshedOk(m, owner, v, n, base, mem);
    }

    // -------------------------------------------------------------- getblock

    /** Gives the pages of a process the frames from `base` on, freeing theirs, up to the first page
        that is not mapped. Pages are mapped once, so none needs to be cloned. */
    method TakeFrames(owner: int, v: nat, n: nat, base: nat) returns (moved: nat)
      requires MemOk(mem) && MappedOnce(mem, owner, v, n)
      modifies this`mem
      ensures MemOk(mem) && moved <= n && OwnPages(old(mem), owner, v, moved)
      ensures Got(old(mem), owner, v, moved, base, mem)
      ensures moved < n ==> Addr(owner, v + moved) !in old(mem).space
    {
      ghost var m := mem;
      moved := 0;
      NothingGot(m, owner, v, base);
      while moved < n && Addr(owner, v + moved) in mem.space
        invariant moved <= n && Mapped(m, owner, v, moved) && Got(m, owner, v, moved, base, mem)
      {
        var ref := mem.space[Addr(owner, v + moved)].ref;
        ghost var m1 := mem;
        mem := mem.(free := mem.free + {mem.blocks[ref].phys},
                    blocks := mem.blocks[ref := mem.blocks[ref].(phys := base + moved)]);
        OneTaken(m, m1, mem, owner, v, moved, n, base);
        moved := moved + 1;
      }
      SameCounts(m, owner, v, moved, base, mem);
      OwnAll(m, owner, v, moved);
    }

    /** getblock; `moved` counts the pages that received their frames. `inRegion` says whether vaddr
        lies in a region of the process, mapped or not: looking up an unaligned address there fails an
        assertion. */
    method GetBlock(owner: int, id: nat, vaddr: nat, pages: nat, inRegion: bool)
      returns (r: Status, ghost moved: nat, ghost i: nat)
      requires Valid() && pages >= 1
      requires vaddr % VM_PAGE_SIZE == 0 ==> MappedOnce(mem, owner, vaddr / VM_PAGE_SIZE, pages)
      modifies this`lruYoungest, this`lruOldest, this`lru, this`vmYielded, this`mem, lru, buckets
      ensures Valid() && Within(lru, old(lru))
      ensures GetResult(Infos(old(lru)), old(mem), BlockId(owner, id), vaddr, pages, inRegion, r, moved, i,
                        Infos(lru), mem)
      ensures old(Conserved()) ==>
                (Conserved() <==> !Halfway(Infos(old(lru)), old(mem), BlockId(owner, id), vaddr, pages))
    {
      ghost var l, m := lru, mem;
      IdsApart();
      r, moved, i := FindAndTake(owner, id, vaddr, pages, inRegion);
      GetOwnership(Infos(l), m, universe, BlockId(owner, id), vaddr, pages, inRegion, r, moved, i, Infos(lru), mem);
    }

    method FindAndTake(owner: int, id: nat, vaddr: nat, pages: nat, inRegion: bool)
      returns (r: Status, ghost moved: nat, ghost i: nat)
      requires Valid() && pages >= 1
      requires vaddr % VM_PAGE_SIZE == 0 ==> MappedOnce(mem, owner, vaddr / VM_PAGE_SIZE, pages)
      modifies this`lruYoungest, this`lruOldest, this`lru, this`vmYielded, this`mem, lru, buckets
      ensures Valid() && Within(lru, old(lru))
      ensures GetResult(Infos(old(lru)), old(mem), BlockId(owner, id), vaddr, pages, inRegion, r, moved, i,
                        Infos(lru), mem)
    {
      moved, i := 0, 0;
      var yb := Search(BlockId(owner, id));
      SearchVerdict(lru, BlockId(owner, id));
      if yb == null {
        return ESRCH, 0, 0;
      }
      ghost var l := lru;
      i :| 0 <= i < |l| && l[i] == yb;
      if yb.pages != pages {
        return EFAULT, 0, i;
      }
      if vaddr % VM_PAGE_SIZE != 0 {
        return if inRegion then PANIC else EINVAL, 0, i;
      }
      r, moved := TakeBlock(yb, i, vaddr, inRegion);
    }

    /** The part of getblock after the checks: frames move, and the block is forgotten unless a page
        was not mapped. */
    method TakeBlock(yb: Yielded, ghost i: nat, vaddr: nat, ghost inRegion: bool) returns (r: Status, ghost moved: nat)
      requires Valid() && i < |lru| && lru[i] == yb && vaddr % VM_PAGE_SIZE == 0
      requires MappedOnce(mem, yb.id.owner, vaddr / VM_PAGE_SIZE, yb.pages)
      modifies this`lruYoungest, this`lruOldest, this`lru, this`vmYielded, this`mem, lru, buckets
      ensures Valid() && r in {OK, EINVAL} && Within(lru, old(lru))
      ensures GetResult(Infos(old(lru)), old(mem), yb.id, vaddr, yb.pages, inRegion, r, moved, i, Infos(lru), mem)
    {
      ghost var l, m := lru, mem;
      var got := TakeFrames(yb.id.owner, vaddr / VM_PAGE_SIZE, yb.pages, yb.phys);
      moved := got;
      if got < yb.pages {
        GetStopped(l, m, i, vaddr, inRegion, moved, mem);
        return EINVAL, moved;
      }
      ForgetNode(yb, i);
      GetServed(l, m, i, vaddr, inRegion, lru, mem);
      r := OK;
    }

    /** freeyieldednode without freeing the memory. */
    method ForgetNode(yb: Yielded, ghost i: nat)
      requires Valid() && i < |lru| && lru[i] == yb
      modifies this`lruYoungest, this`lruOldest, this`lru, this`vmYielded, this`mem, lru, buckets
      ensures Valid() && mem == old(mem) && Within(lru, old(lru))
      ensures Infos(lru) == Infos(old(lru))[..i] + Infos(old(lru))[i + 1..]
    {
      ghost var l := lru;
      var bytes := FreeNode(yb, false);
      InfosWithout(l, i);
      WithoutWithin(l, yb);
    }

    // -------------------------------------------------------------- requests

    /** do_forgetblock; `node` is the block forgotten, if there was one. */
    method ForgetBlock(owner: int, id: nat) returns (node: Yielded?)
      requires Valid()
      modifies this`lruYoungest, this`lruOldest, this`lru, this`vmYielded, this`mem, lru, buckets
      ensures Valid()
      ensures node == null ==> lru == old(lru) && mem == old(mem) && forall x :: x in lru ==> x.id != BlockId(owner, id)
      ensures node != null ==> node in old(lru) && node.id == BlockId(owner, id)
      ensures node != null ==> var y: Yielded := node; lru == Without(old(lru), y) && mem == Freed(old(mem), Info(y))
      ensures old(Conserved()) ==> Conserved()
    {
      node := Search(BlockId(owner, id));
      if node != null {
        var y: Yielded := node;
        var bytes := FreeNode(y, true);
      }
    }

    /** do_forgetblocks */
    method ForgetBlocks(owner: int)
      requires Valid()
      modifies this`lruYoungest, this`lruOldest, this`lru, this`vmYielded, this`mem, lru, buckets
      ensures Valid() && lru == Others(old(lru), owner) && CountIn(vmYielded, owner) == 0
      ensures mem == old(mem).(free := old(mem).free + PagesOf(old(lru), owner))
      ensures old(Conserved()) ==> Conserved()
    {
      var total := FreeYieldedProc(owner);
    }

    /** do_yieldblockgetblock: the two halves of the request, the first of which may fail silently. */
    method YieldGet(owner: int, yieldid: Option<nat>, getid: Option<nat>, vaddr: nat, len: nat, slabOk: bool,
                    grant: Option<nat>, inRegion: bool)
      returns (r: Status, ghost w: Halves)
      requires Valid()
      requires vaddr % VM_PAGE_SIZE == 0 ==> MappedOnce(mem, owner, vaddr / VM_PAGE_SIZE, len / VM_PAGE_SIZE)
      modifies this`lruYoungest, this`lruOldest, this`lru, this`vmYielded, this`mem, lru, buckets
      ensures Valid()
      ensures len % VM_PAGE_SIZE != 0 || len < VM_PAGE_SIZE ==> r == EFAULT && lru == old(lru) && mem == old(mem)
      ensures len % VM_PAGE_SIZE == 0 && len >= VM_PAGE_SIZE ==>
        YieldHalf(Infos(old(lru)), old(mem), owner, yieldid, vaddr, len / VM_PAGE_SIZE, slabOk, grant, w.nodes, w.m)
      ensures len % VM_PAGE_SIZE == 0 && len >= VM_PAGE_SIZE ==>
        GetHalf(w.nodes, w.m, owner, getid, vaddr, len / VM_PAGE_SIZE, inRegion, r, w.moved, w.i, Infos(lru), mem)
      ensures len % VM_PAGE_SIZE == 0 && len >= VM_PAGE_SIZE && old(Conserved()) ==>
        (Conserved() <==> !StopsHalfway(Infos(old(lru)), old(mem), owner, getid, vaddr, len / VM_PAGE_SIZE))
      ensures forall k {:trigger lru[k]} :: 0 <= k < |lru| ==> lru[k] in old(lru) || fresh(lru[k])
    {
      var pages := len / VM_PAGE_SIZE;
      if len % VM_PAGE_SIZE != 0 || pages < 1 {
        return EFAULT, Halves([], mem, 0, 0);
      }
      r, w := GiveAndTake(owner, yieldid, getid, vaddr, pages, slabOk, grant, inRegion);
    }

    method GiveAndTake(owner: int, yieldid: Option<nat>, getid: Option<nat>, vaddr: nat, pages: nat, slabOk: bool,
                       grant: Option<nat>, inRegion: bool)
      returns (r: Status, ghost w: Halves)
      requires Valid() && pages >= 1
      requires vaddr % VM_PAGE_SIZE == 0 ==> MappedOnce(mem, owner, vaddr / VM_PAGE_SIZE, pages)
      modifies this`lruYoungest, this`lruOldest, this`lru, this`vmYielded, this`mem, lru, buckets
      ensures Valid()
      ensures YieldHalf(Infos(old(lru)), old(mem), owner, yieldid, vaddr, pages, slabOk, grant, w.nodes, w.m)
      ensures GetHalf(w.nodes, w.m, owner, getid, vaddr, pages, inRegion, r, w.moved, w.i, Infos(lru), mem)
      ensures old(Conserved()) ==>
                (Conserved() <==> !StopsHalfway(Infos(old(lru)), old(mem), owner, getid, vaddr, pages))
      ensures forall k {:trigger lru[k]} :: 0 <= k < |lru| ==> lru[k] in old(lru) || fresh(lru[k])
    {
      ghost var nodes, m := Infos(lru), mem;
      TryYield(owner, yieldid, vaddr, pages, slabOk, grant);
      w := Halves(Infos(lru), mem, 0, 0);
      YieldThenGet(nodes, m, owner, yieldid, getid, vaddr, pages, slabOk, grant, w.nodes, w.m);
      r := ESRCH;
      if getid.Some? {
        ghost var moved, i;
        r, moved, i := GetBlock(owner, getid.value, vaddr, pages, inRegion);
        w := w.(moved := moved, i := i);
      }
    }

    /** The first half: the answer of yieldblock is ignored. */
    method TryYield(owner: int, yieldid: Option<nat>, vaddr: nat, pages: nat, slabOk: bool, grant: Option<nat>)
      requires Valid()
      requires vaddr % VM_PAGE_SIZE == 0 ==> MappedOnce(mem, owner, vaddr / VM_PAGE_SIZE, pages)
      modifies this`lruYoungest, this`lruOldest, this`lru, this`vmYielded, this`mem, lru, buckets
      ensures Valid() &&
                YieldHalf(Infos(old(lru)), old(mem), owner, yieldid, vaddr, pages, slabOk, grant, Infos(lru), mem)
      ensures vaddr % VM_PAGE_SIZE == 0 ==> MappedOnce(mem, owner, vaddr / VM_PAGE_SIZE, pages)
      ensures forall k {:trigger lru[k]} :: 0 <= k < |lru| ==> lru[k] in old(lru) || fresh(lru[k])
      ensures old(Conserved()) ==> Conserved()
    {
      if yieldid.Some? {
        ghost var m := mem;
        var y := YieldBlock(owner, yieldid.value, vaddr, pages, slabOk, grant);
        if vaddr % VM_PAGE_SIZE == 0 {
          StillMappedOnce(m, mem, owner, vaddr / VM_PAGE_SIZE, pages, y == OK);
        }
      }
    }
  }

  /** The state between the halves of a combined request, and how far the get went. */
  datatype Halves = Halves(nodes: seq<Node>, m: Mem, moved: nat, i: nat)

  ghost predicate YieldHalf(nodes: seq<Node>, m: Mem, owner: int, yieldid: Option<nat>, vaddr: nat, pages: nat,
                            slabOk: bool, grant: Option<nat>, nodes': seq<Node>, m': Mem)
  {
    if yieldid.Some? && MemOk(m) &&
      YieldVerdict(nodes, m, BlockId(owner, yieldid.value), vaddr, pages, slabOk, grant) == OK
    then YieldDone(nodes, m, BlockId(owner, yieldid.value), vaddr / VM_PAGE_SIZE, pages, grant, nodes', m')
    else nodes' == nodes && m' == m
  }

  ghost predicate GetHalf(nodes: seq<Node>, m: Mem, owner: int, getid: Option<nat>, vaddr: nat, pages: nat,
                          inRegion: bool, r: Status, moved: nat, i: nat, nodes': seq<Node>, m': Mem)
  {
    if getid.Some?
    then GetResult(nodes, m, BlockId(owner, getid.value), vaddr, pages, inRegion, r, moved, i, nodes', m')
    else r == ESRCH && nodes' == nodes && m' == m
  }

  /** VM has the block, in the size asked for; of the pages for it the first is mapped but not all are. */
  ghost predicate Halfway(nodes: seq<Node>, m: Mem, id: BlockId, vaddr: nat, pages: nat) {
    var v := vaddr / VM_PAGE_SIZE;
    && vaddr % VM_PAGE_SIZE == 0 && (exists i :: 0 <= i < |nodes| && nodes[i].id == id && nodes[i].pages == pages)
    && Addr(id.owner, v) in m.space && !Mapped(m, id.owner, v, pages)
  }

  ghost predicate StopsHalfway(nodes: seq<Node>, m: Mem, owner: int, getid: Option<nat>, vaddr: nat, pages: nat) {
    getid.Some? && Halfway(nodes, m, BlockId(owner, getid.value), vaddr, pages)
  }

  /** A successful yield keeps one owner for every page. */
  lemma YieldOwned(nodes: seq<Node>, m: Mem, universe: set<nat>, id: BlockId, v: nat, n: nat, grant: Option<nat>,
                   nodes': seq<Node>, m': Mem)
    requires MemOk(m) && YieldDone(nodes, m, id, v, n, grant, nodes', m')
    ensures OwnedOnce(nodes, m, universe) ==> OwnedOnce(nodes', m', universe)
  {
    if OwnedOnce(nodes, m, universe) {
      YieldConserves(nodes, m, universe, id.owner, v, n, grant.value, m', id);
    }
  }

  /** After a get every page still has one owner, unless the get stopped halfway; then it has not. */
  lemma GetOwnership(nodes: seq<Node>, m: Mem, universe: set<nat>, id: BlockId, vaddr: nat, pages: nat, inRegion: bool,
                     r: Status, moved: nat, i: nat, nodes': seq<Node>, m': Mem)
    requires MemOk(m) && DistinctIds(nodes) && pages >= 1
    requires GetResult(nodes, m, id, vaddr, pages, inRegion, r, moved, i, nodes', m')
    ensures OwnedOnce(nodes, m, universe) ==>
              (OwnedOnce(nodes', m', universe) <==> !Halfway(nodes, m, id, vaddr, pages))
  {
    var v := vaddr / VM_PAGE_SIZE;
    if OwnedOnce(nodes, m, universe) && vaddr % VM_PAGE_SIZE == 0 {
      if r == OK {
        GetConserves(nodes, m, universe, id.owner, v, i, m');
      } else if r == EINVAL {
        PartialGetConserves(nodes, m, universe, id.owner, v, i, moved, m');
        assert moved > 0 ==> Addr(id.owner, v) in m.space;
      }
    }
  }

  /** The yield half does not change whether the get half stops halfway. */
  lemma YieldThenGet(nodes: seq<Node>, m: Mem, owner: int, yieldid: Option<nat>, getid: Option<nat>, vaddr: nat,
                     pages: nat, slabOk: bool, grant: Option<nat>, nodes': seq<Node>, m': Mem)
    requires MemOk(m) && MemOk(m')
    requires YieldHalf(nodes, m, owner, yieldid, vaddr, pages, slabOk, grant, nodes', m')
    ensures StopsHalfway(nodes', m', owner, getid, vaddr, pages) <==> StopsHalfway(nodes, m, owner, getid, vaddr, pages)
  {
    var v := vaddr / VM_PAGE_SIZE;
    if nodes' != nodes || m' != m {
      assert Mapped(m, owner, v, pages) && m'.space == m.space;
      assert Mapped(m', owner, v, pages);
    }
  }

  lemma StillMappedOnce(m: Mem, m': Mem, owner: int, v: nat, n: nat, yielded: bool)
    requires MemOk(m) && MemOk(m') && MappedOnce(m, owner, v, n)
    requires !yielded ==> m' == m
    requires yielded ==>
              && m'.space == m.space
              && forall r :: r in m'.blocks ==> r in m.blocks && m'.blocks[r].refcount == m.blocks[r].refcount
    ensures MappedOnce(m', owner, v, n)
  {
  }

  /** Every mapped page among the n has a phys block of its own with one reference. */
  ghost predicate MappedOnce(m: Mem, owner: int, v: nat, n: nat)
    requires MemOk(m)
  {
    forall k :: v <= k < v + n && Addr(owner, k) in m.space ==> m.blocks[m.space[Addr(owner, k)].ref].refcount == 1
  }

  /** What getblock answers and does. A page that is not mapped stops it halfway, with the block
      still in place. */
  ghost predicate GetResult(nodes: seq<Node>, m: Mem, id: BlockId, vaddr: nat, pages: nat, inRegion: bool, r: Status,
                            moved: nat, i: nat, nodes': seq<Node>, m': Mem)
  {
    var v, aligned := vaddr / VM_PAGE_SIZE, vaddr % VM_PAGE_SIZE == 0;
    match r
    case ESRCH => (forall j :: 0 <= j < |nodes| ==> nodes[j].id != id) && nodes' == nodes && m' == m
    case EFAULT => i < |nodes| && nodes[i].id == id && nodes[i].pages != pages && nodes' == nodes && m' == m
    case PANIC =>
      && i < |nodes| && nodes[i].id == id && nodes[i].pages == pages && !aligned && inRegion
      && nodes' == nodes && m' == m
    case EINVAL =>
      && i < |nodes| && nodes[i].id == id && nodes[i].pages == pages && nodes' == nodes
      && if aligned
         then
           && moved < pages && Addr(id.owner, v + moved) !in m.space
           && OwnPages(m, id.owner, v, moved) && Got(m, id.owner, v, moved, nodes[i].phys, m')
         else !inRegion && m' == m
    case OK =>
      && i < |nodes| && nodes[i].id == id && nodes[i].pages == pages && aligned
      && nodes' == nodes[..i] + nodes[i + 1..]
      && OwnPages(m, id.owner, v, pages) && Got(m, id.owner, v, pages, nodes[i].phys, m')
    case ENOMEM => false
  }

  lemma GetStopped(l: seq<Yielded>, m: Mem, i: nat, vaddr: nat, inRegion: bool, moved: nat, m': Mem)
    requires i < |l| && vaddr % VM_PAGE_SIZE == 0 && moved < l[i].pages
    requires Addr(l[i].id.owner, vaddr / VM_PAGE_SIZE + moved) !in m.space
    requires OwnPages(m, l[i].id.owner, vaddr / VM_PAGE_SIZE, moved)
    requires Got(m, l[i].id.owner, vaddr / VM_PAGE_SIZE, moved, l[i].phys, m')
    ensures GetResult(Infos(l), m, l[i].id, vaddr, l[i].pages, inRegion, EINVAL, moved, i, Infos(l), m')
  {
  }

  lemma GetServed(l: seq<Yielded>, m: Mem, i: nat, vaddr: nat, inRegion: bool, l': seq<Yielded>, m': Mem)
    requires i < |l| && vaddr % VM_PAGE_SIZE == 0
    requires OwnPages(m, l[i].id.owner, vaddr / VM_PAGE_SIZE, l[i].pages)
    requires Got(m, l[i].id.owner, vaddr / VM_PAGE_SIZE, l[i].pages, l[i].phys, m')
    requires Infos(l') == Infos(l)[..i] + Infos(l)[i + 1..]
    ensures GetResult(Infos(l), m, l[i].id, vaddr, l[i].pages, inRegion, OK, l[i].pages, i, Infos(l'), m')
  {
  }

  lemma NothingGot(m: Mem, owner: int, v: nat, base: nat)
    ensures OwnPages(m, owner, v, 0) && Got(m, owner, v, 0, base, m)
  {
  }

  lemma OneTaken(m: Mem, m1: Mem, m2: Mem, owner: int, v: nat, p: nat, n: nat, base: nat)
    requires MemOk(m) && MappedOnce(m, owner, v, n) && p < n
    requires Mapped(m, owner, v, p) && Got(m, owner, v, p, base, m1) && Addr(owner, v + p) in m.space
    requires var ref := m.space[Addr(owner, v + p)].ref;
             m2 == m1.(free := m1.free + {m1.blocks[ref].phys},
                       blocks := m1.blocks[ref := m1.blocks[ref].(phys := base + p)])
    ensures Mapped(m, owner, v, p + 1) && Got(m, owner, v, p + 1, base, m2)
  {
    assert Mapped(m, owner, v, p + 1);
    OwnAll(m, owner, v, p + 1);
    NotYetTaken(m, m1, owner, v, p, base);
    FreeNext(m, m1, owner, v, p);
    FrameNext(m, m1, m2, owner, v, p, base);
  }

  lemma FreeNext(m: Mem, m1: Mem, owner: int, v: nat, p: nat)
    requires Mapped(m, owner, v, p) && Mapped(m, owner, v + p, 1) && m1.free == m.free + OldFrames(m, owner, v, p)
    ensures Mapped(m, owner, v, p + 1)
    ensures m1.free + {BlockAt(m, owner, v + p).phys} == m.free + OldFrames(m, owner, v, p + 1)
  {
    var olds, frame := OldFrames(m, owner, v, p), BlockAt(m, owner, v + p).phys;
    assert m.free + (olds + {frame}) == (m.free + olds) + {frame};
  }

  /** The next page still has its own frame. */
  lemma NotYetTaken(m: Mem, m1: Mem, owner: int, v: nat, p: nat, base: nat)
    requires OwnPages(m, owner, v, p + 1) && Mapped(m, owner, v, p) && Reframed(m, owner, v, p, base, m1)
    requires Mapped(m, owner, v + p, 1)
    ensures m.space[Addr(owner, v + p)].ref in m1.blocks
    ensures m1.blocks[m.space[Addr(owner, v + p)].ref] == BlockAt(m, owner, v + p)
  {
    RefsDiffer(m, owner, v, p + 1, v + p);
  }

  /** The block of page p is none of those before it. */
  lemma RefsDiffer(m: Mem, owner: int, v: nat, n: nat, p: nat)
    requires OwnPages(m, owner, v, n) && v <= p < v + n
    ensures forall k :: v <= k < p ==> m.space[Addr(owner, k)].ref != m.space[Addr(owner, p)].ref
  {
    forall k | v <= k < p
      ensures m.space[Addr(owner, k)].ref != m.space[Addr(owner, p)].ref
    {
      assert !Shared(m.space, Addr(owner, k), Addr(owner, p));
    }
  }

  lemma OwnAll(m: Mem, owner: int, v: nat, n: nat)
    requires MemOk(m) && MappedOnce(m, owner, v, n) && Mapped(m, owner, v, n)
    ensures OwnPages(m, owner, v, n)
  {
    forall j, k | v <= j < k < v + n
      ensures !Shared(m.space, Addr(owner, j), Addr(owner, k))
    {
      assert BlockAt(m, owner, j).refcount == 1;
    }
  }

  lemma FrameNext(m: Mem, m1: Mem, m2: Mem, owner: int, v: nat, p: nat, base: nat)
    requires OwnPages(m, owner, v, p + 1) && Reframed(m, owner, v, p, base, m1)
    requires Mapped(m, owner, v + p, 1) && m.space[Addr(owner, v + p)].ref in m1.blocks
    requires m2 == var ref := m.space[Addr(owner, v + p)].ref;
                   m1.(free := m2.free, blocks := m1.blocks[ref := m1.blocks[ref].(phys := base + p)])
    ensures Reframed(m, owner, v, p + 1, base, m2)
  {
    var ref := m.space[Addr(owner, v + p)].ref;
    RefsDiffer(m, owner, v, p + 1, v + p);
    assert m1.blocks[ref] == m.blocks[ref];
    forall k | v <= k < v + p + 1
      ensures m2.blocks[m.space[Addr(owner, k)].ref] == BlockAt(m, owner, k).(phys := base + (k - v))
    {
    }
  }

  /** What yieldblock answers. */
  ghost function YieldVerdict(nodes: seq<Node>, m: Mem, id: BlockId, vaddr: nat, pages: int, slabOk: bool,
                              grant: Option<nat>): Status
    requires MemOk(m)
  {
    if exists i :: 0 <= i < |nodes| && nodes[i].id == id then EINVAL
    else if vaddr % VM_PAGE_SIZE != 0 || pages < 1 then EFAULT
    else
      var r := YieldScan(m, id.owner, vaddr / VM_PAGE_SIZE, 0, pages);
      if r != OK then r
      else if !slabOk || grant.None? || !(Range(grant.value, pages) <= m.free) then ENOMEM
      else OK
  }

  /** A block is taken exactly if VM has none under its id, its pages are whole, mapped, anonymous, mapped
      once and contiguous, and there are memory and frames for it; an id that VM has is refused first. */
  lemma VerdictExact(nodes: seq<Node>, m: Mem, id: BlockId, vaddr: nat, pages: int, slabOk: bool, grant: Option<nat>)
    requires MemOk(m)
    ensures YieldVerdict(nodes, m, id, vaddr, pages, slabOk, grant) == OK <==>
              && (forall i :: 0 <= i < |nodes| ==> nodes[i].id != id)
              && vaddr % VM_PAGE_SIZE == 0 && pages >= 1 && Yieldable(m, id.owner, vaddr / VM_PAGE_SIZE, pages)
              && slabOk && grant.Some? && Range(grant.value, pages) <= m.free
    ensures YieldVerdict(nodes, m, id, vaddr, pages, slabOk, grant) in {OK, EINVAL, EFAULT, ENOMEM}
  {
    if vaddr % VM_PAGE_SIZE == 0 && pages >= 1 {
      ScanYieldable(m, id.owner, vaddr / VM_PAGE_SIZE, 0, pages);
      ScanAnswers(m, id.owner, vaddr / VM_PAGE_SIZE, 0, pages);
    }
  }

  lemma {:induction false} ScanAnswers(m: Mem, owner: int, v: nat, k: nat, n: nat)
    requires MemOk(m) && k <= n
    ensures YieldScan(m, owner, v, k, n) in {OK, EINVAL, EFAULT}
    decreases n - k
  {
    if k < n {
      ScanAnswers(m, owner, v, k + 1, n);
    }
  }

  /** What a successful yieldblock does: the block is the youngest, made of the pages' frames, and
      the pages have the frames granted. */
  ghost predicate YieldDone(nodes: seq<Node>, m: Mem, id: BlockId, v: nat, n: nat, grant: Option<nat>,
                            nodes': seq<Node>, m': Mem)
    requires MemOk(m)
  {
    && n > 0 && grant.Some? && Yieldable(m, id.owner, v, n) && Range(grant.value, n) <= m.free
    && Mapped(Allocated(m, grant.value, n), id.owner, v, n)
    && Refreshed(Allocated(m, grant.value, n), id.owner, v, n, grant.value, m')
    && nodes' == nodes + [Node(id, BlockAt(m, id.owner, v).phys, n)]
  }

  lemma SearchVerdict(s: seq<Yielded>, id: BlockId)
    ensures (exists i :: 0 <= i < |s| && Infos(s)[i].id == id) <==> exists y :: y in s && y.id == id
  {
    if exists y :: y in s && y.id == id {
      var y :| y in s && y.id == id;
      var i :| 0 <= i < |s| && s[i] == y;
      assert Infos(s)[i].id == id;
    }
    if exists i :: 0 <= i < |s| && Infos(s)[i].id == id {
      var i :| 0 <= i < |s| && Infos(s)[i].id == id;
      assert s[i] in s && s[i].id == id;
    }
  }

  lemma RefreshedOk(m: Mem, owner: int, v: nat, n: nat, base: nat, m': Mem)
    requires MemOk(m) && Mapped(m, owner, v, n) && Reframed(Allocated(m, base, n), owner, v, n, base, m')
    ensures MemOk(m')
  {
    SameCounts(Allocated(m, base, n), owner, v, n, base, m');
  }

  lemma SameCounts(m: Mem, owner: int, v: nat, n: nat, base: nat, m': Mem)
    requires Mapped(m, owner, v, n) && Reframed(m, owner, v, n, base, m')
    ensures forall r :: r in m'.blocks ==> m'.blocks[r].refcount == m.blocks[r].refcount
  {
    forall r | r in m'.blocks
      ensures m'.blocks[r].refcount == m.blocks[r].refcount
    {
      if exists k :: v <= k < v + n && m.space[Addr(owner, k)].ref == r {
        var k :| v <= k < v + n && m.space[Addr(owner, k)].ref == r;
        assert m'.blocks[m.space[Addr(owner, k)].ref] == BlockAt(m, owner, k).(phys := base + (k - v));
      }
    }
  }

  lemma Above(b: seq<Yielded>, k: nat, y: Yielded, lru: seq<Yielded>)
    requires SortedById(b) && k <= |b| && (k < |b| ==> Cmp(b[k].id, y.id) >= 0)
    requires forall x :: x in b ==> x.id != y.id
    ensures forall i :: k <= i < |b| ==> Cmp(y.id, b[i].id) < 0
  {
    forall i | k <= i < |b|
      ensures Cmp(y.id, b[i].id) < 0
    {
      assert b[k].id != y.id && b[i].id != y.id;
      assert k < i ==> Cmp(b[k].id, b[i].id) < 0;
    }
  }

  lemma CountUp(counts: map<int, nat>, lru: seq<Yielded>, y: Yielded)
    requires CountsOk(counts, lru)
    ensures CountsOk(counts[y.id.owner := CountIn(counts, y.id.owner) + 1], lru + [y])
  {
    var counts' := counts[y.id.owner := CountIn(counts, y.id.owner) + 1];
    forall o
      ensures CountIn(counts', o) == CountOf(lru + [y], o)
    {
      assert (lru + [y])[..|lru|] == lru;
      assert CountIn(counts, o) == CountOf(lru, o);
    }
  }

  lemma OneRefreshed(m: Mem, m1: Mem, m2: Mem, owner: int, v: nat, p: nat, n: nat, base: nat)
    requires OwnPages(m, owner, v, n) && p < n && Mapped(m, owner, v, p) && Refreshed(m, owner, v, p, base, m1)
    requires Mapped(m, owner, v + p, 1) && m.space[Addr(owner, v + p)].ref in m1.blocks
    requires m2 == var ref := m.space[Addr(owner, v + p)].ref;
                   m1.(blocks := m1.blocks[ref := m1.blocks[ref].(phys := base + p)])
    ensures Mapped(m, owner, v, p + 1) && Refreshed(m, owner, v, p + 1, base, m2)
  {
    assert Mapped(m, owner, v, p + 1);
    FrameNext(m, m1, m2, owner, v, p, base);
  }

  /** Freeing a block with its memory keeps one owner for every page. */
  lemma FreedConserved(l: seq<Yielded>, node: Yielded, m: Mem, universe: set<nat>)
    requires NoDup(l) && node in l
    ensures OwnedOnce(Infos(l), m, universe) ==> OwnedOnce(Infos(Without(l, node)), Freed(m, Info(node)), universe)
  {
    var k :| 0 <= k < |l| && l[k] == node;
    InfosWithout(l, k);
    if OwnedOnce(Infos(l), m, universe) {
      FreeConserves(Infos(l), m, universe, k);
    }
  }

  lemma InfosWithout(l: seq<Yielded>, k: nat)
    requires NoDup(l) && k < |l|
    ensures Infos(Without(l, l[k])) == Infos(l)[..k] + Infos(l)[k + 1..]
  {
    WithoutIsRemoveAt(l, k);
    RemoveAtSlices(l, k);
  }

  lemma CountDown(counts: map<int, nat>, lru: seq<Yielded>, m: nat)
    requires CountsOk(counts, lru) && m < |lru|
    ensures CountIn(counts, lru[m].id.owner) > 0
    ensures CountsOk(counts[lru[m].id.owner := CountIn(counts, lru[m].id.owner) - 1], RemoveAt(lru, m))
  {
    var owner := lru[m].id.owner;
    assert CountIn(counts, owner) == CountOf(lru, owner);
    CountPositive(lru, owner);
    var counts' := counts[owner := CountIn(counts, owner) - 1];
    forall o
      ensures CountIn(counts', o) == CountOf(RemoveAt(lru, m), o)
    {
      CountRemove(lru, m, o);
      assert CountIn(counts, o) == CountOf(lru, o);
    }
  }

  /** How many blocks free_yielded frees: as many as there are, but no more than max_bytes ask for. */
  function Oldest(n: nat, maxBytes: nat): nat {
    var wanted := (maxBytes + VM_PAGE_SIZE - 1) / VM_PAGE_SIZE;
    if wanted < n then wanted else n
  }

  lemma OldestIs(n: nat, len: nat, maxBytes: nat)
    requires n <= len && (n > 0 ==> (n - 1) * VM_PAGE_SIZE < maxBytes)
    requires n * VM_PAGE_SIZE >= maxBytes || n == len
    ensures n == Oldest(len, maxBytes)
  {
  }

  lemma FreedNext(m: Mem, s: seq<Yielded>, n: nat)
    requires n < |s|
    ensures FreedAll(m, Infos(s[..n + 1])) == Freed(FreedAll(m, Infos(s[..n])), Info(s[n]))
  {
    assert Infos(s[..n + 1])[..n] == Infos(s[..n]);
  }

  /** The blocks of a process are in the buckets from h on. */
  ghost predicate FromBucket(l: seq<Yielded>, owner: int, hash: BlockId -> nat, h: nat) {
    forall y :: y in l && y.id.owner == owner ==> hash(y.id) % YIELD_HASHSIZE >= h
  }

  /** None of the first `pos` blocks of a bucket is the process's. */
  ghost predicate NoneBefore(bucket: seq<Yielded>, pos: nat, owner: int) {
    pos <= |bucket| && forall i :: 0 <= i < pos ==> bucket[i].id.owner != owner
  }

  lemma NoneRemoved(bucket: seq<Yielded>, pos: nat, owner: int)
    requires NoneBefore(bucket, pos, owner) && pos < |bucket|
    ensures NoneBefore(RemoveAt(bucket, pos), pos, owner)
  {
    RemoveAtSlices(bucket, pos);
  }

  lemma BucketEmptied(bs: seq<seq<Yielded>>, l: seq<Yielded>, l': seq<Yielded>, owner: int, hash: BlockId -> nat,
                      h: nat)
    requires IndexOk(bs, l', hash) && h < |bs| && NoneBefore(bs[h], |bs[h]|, owner)
    requires Within(l', l) && FromBucket(l, owner, hash, h)
    ensures FromBucket(l', owner, hash, h + 1)
  {
  }

  /** n blocks have been freed of the list l, in the memory m. */
  ghost predicate Taken(l: seq<Yielded>, m: Mem, n: nat, lru: seq<Yielded>, mem: Mem) {
    n <= |l| && lru == l[n..] && mem == FreedAll(m, Infos(l[..n]))
  }

  /** `freed` bytes have been reckoned for n blocks, and not all of them before the last. */
  predicate Reckoned(n: nat, freed: nat, maxBytes: nat) {
    freed == n * VM_PAGE_SIZE && (n > 0 ==> (n - 1) * VM_PAGE_SIZE < maxBytes)
  }

  lemma TakenNext(l: seq<Yielded>, m: Mem, n: nat, lru: seq<Yielded>, mem: Mem, lru': seq<Yielded>, mem': Mem)
    requires Taken(l, m, n, lru, mem) && |lru| > 0 && lru' == lru[1..] && mem' == Freed(mem, Info(lru[0]))
    ensures Taken(l, m, n + 1, lru', mem')
  {
    FreedNext(m, l, n);
  }

  lemma TakenDone(n: nat, l: seq<Yielded>, m: Mem, lru: seq<Yielded>, mem: Mem, freed: nat, maxBytes: nat)
    requires Taken(l, m, n, lru, mem) && Reckoned(n, freed, maxBytes) && (freed >= maxBytes || lru == [])
    ensures n == Oldest(|l|, maxBytes)
  {
    OldestIs(n, |l|, maxBytes);
  }

  /** The blocks of other processes, in order. */
  function Others(s: seq<Yielded>, owner: int): seq<Yielded> {
    if s == [] then [] else (if s[0].id.owner == owner then [] else [s[0]]) + Others(s[1..], owner)
  }

  /** The frames of a process's blocks. */
  function PagesOf(s: seq<Yielded>, owner: int): set<nat> {
    if s == [] then {}
    else (if s[0].id.owner == owner then Range(s[0].phys, s[0].pages) else {}) + PagesOf(s[1..], owner)
  }

  lemma WithoutFirst(s: seq<Yielded>)
    requires NoDup(s)
    ensures s != [] ==> Without(s, s[0]) == s[1..]
  {
    if s != [] {
      WithoutIsRemoveAt(s, 0);
      assert RemoveAt(s, 0) == s[1..];
    }
  }

  /** Every block of s is one of t. */
  ghost predicate Within(s: seq<Yielded>, t: seq<Yielded>) {
    forall k :: 0 <= k < |s| ==> s[k] in t
  }

  lemma WithoutWithin(s: seq<Yielded>, y: Yielded)
    ensures Within(Without(s, y), s)
  {
    WithoutMembers(s, y);
  }

  /** free_yielded_proc so far: only blocks of `owner` are gone, their frames are free, and they are
      in the total. */
  ghost predicate Progress(l: seq<Yielded>, lru: seq<Yielded>, owner: int, m: Mem, m': Mem, total: nat) {
    && Others(lru, owner) == Others(l, owner)
    && m' == m.(free := m'.free) && m'.free + PagesOf(lru, owner) == m.free + PagesOf(l, owner)
    && total + VM_PAGE_SIZE * CountOf(lru, owner) == VM_PAGE_SIZE * CountOf(l, owner)
  }

  lemma {:induction false} OthersSplit(s: seq<Yielded>, t: seq<Yielded>, owner: int)
    ensures Others(s + t, owner) == Others(s, owner) + Others(t, owner)
  {
    if s == [] {
      assert s + t == t;
    } else {
      assert (s + t)[1..] == s[1..] + t;
      OthersSplit(s[1..], t, owner);
    }
  }

  lemma {:induction false} PagesSplit(s: seq<Yielded>, t: seq<Yielded>, owner: int)
    ensures PagesOf(s + t, owner) == PagesOf(s, owner) + PagesOf(t, owner)
  {
    if s == [] {
      assert s + t == t;
    } else {
      assert (s + t)[1..] == s[1..] + t;
      PagesSplit(s[1..], t, owner);
    }
  }

  lemma RemoveOwned(s: seq<Yielded>, k: nat, owner: int)
    requires k < |s| && s[k].id.owner == owner
    ensures Others(RemoveAt(s, k), owner) == Others(s, owner)
    ensures PagesOf(s, owner) == PagesOf(RemoveAt(s, k), owner) + Range(s[k].phys, s[k].pages)
    ensures CountOf(s, owner) == CountOf(RemoveAt(s, k), owner) + 1
  {
    CountRemove(s, k, owner);
    RemoveAtSlices(s, k);
    assert s == s[..k] + ([s[k]] + s[k + 1..]);
    OthersSplit(s[..k], [s[k]] + s[k + 1..], owner);
    OthersSplit([s[k]], s[k + 1..], owner);
    OthersSplit(s[..k], s[k + 1..], owner);
    PagesSplit(s[..k], [s[k]] + s[k + 1..], owner);
    PagesSplit([s[k]], s[k + 1..], owner);
    PagesSplit(s[..k], s[k + 1..], owner);
    assert [s[k]][1..] == [];
    assert Others([s[k]], owner) == [] && PagesOf([s[k]], owner) == Range(s[k].phys, s[k].pages);
  }

  lemma OneFreed(l: seq<Yielded>, s: seq<Yielded>, y: Yielded, owner: int, m: Mem, m1: Mem, total: nat)
    requires NoDup(s) && y in s && y.id.owner == owner && Progress(l, s, owner, m, m1, total)
    ensures Progress(l, Without(s, y), owner, m, Freed(m1, Info(y)), total + VM_PAGE_SIZE)
  {
    var k :| 0 <= k < |s| && s[k] == y;
    WithoutIsRemoveAt(s, k);
    RemoveOwned(s, k, owner);
  }

  lemma {:induction false} NoneOwned(s: seq<Yielded>, owner: int)
    requires forall y :: y in s ==> y.id.owner != owner
    ensures Others(s, owner) == s && PagesOf(s, owner) == {}
  {
    if s != [] {
      NoneOwned(s[1..], owner);
    }
  }

  /** What the blocks of other processes record, and the frames of the process's own. */
  lemma {:induction false} InfosOfOthers(l: seq<Yielded>, owner: int)
    ensures Infos(Others(l, owner)) == OthersIn(Infos(l), owner) && PagesOf(l, owner) == FramesIn(Infos(l), owner)
  {
    if l != [] {
      InfosOfOthers(l[1..], owner);
      assert Infos(l)[1..] == Infos(l[1..]);
      if l[0].id.owner != owner {
        InfosFirst(l[0], Others(l[1..], owner));
      }
    }
  }

  lemma InfosFirst(y: Yielded, l: seq<Yielded>)
    ensures Infos([y] + l) == [Info(y)] + Infos(l)
  {
  }

  /** Freeing a process's blocks with their memory keeps one owner for every page. */
  lemma ProcConserved(l: seq<Yielded>, m: Mem, universe: set<nat>, owner: int)
    ensures OwnedOnce(Infos(l), m, universe) ==>
              OwnedOnce(Infos(Others(l, owner)), m.(free := m.free + PagesOf(l, owner)), universe)
  {
    if OwnedOnce(Infos(l), m, universe) {
      InfosOfOthers(l, owner);
      OwnedConserve(Infos(l), m, universe, owner);
    }
  }

  lemma ProcDone(l: seq<Yielded>, lru: seq<Yielded>, owner: int, m: Mem, m': Mem, total: nat,
                 counts: map<int, nat>, h: nat, hash: BlockId -> nat)
    requires Progress(l, lru, owner, m, m', total) && CountsOk(counts, lru)
    requires FromBucket(lru, owner, hash, h)
    requires h >= YIELD_HASHSIZE || CountIn(counts, owner) == 0
    ensures lru == Others(l, owner) && CountIn(counts, owner) == 0
    ensures m' == m.(free := m.free + PagesOf(l, owner)) && total == VM_PAGE_SIZE * CountOf(l, owner)
  {
    assert CountIn(counts, owner) == CountOf(lru, owner);
    CountPositive(lru, owner);
    forall y | y in lru
      ensures y.id.owner != owner
    {
      var k :| 0 <= k < |lru| && lru[k] == y;
    }
    NoneOwned(lru, owner);
  }
}
