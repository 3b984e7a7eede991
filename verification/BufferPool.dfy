/** The buffers of the block cache and their two kinds of chain, as values. */
module BufferPool {
  import opened Chains

  type Data = seq<int>

  datatype Id = Id(dev: nat, block: nat)

  const NO_DEV: nat := 0
  const NO_BLOCK: nat := 0

  /** What a buffer holds: the fields of `struct buf` other than its three links.
      `hasData` says that lmfs_bytes is fs_block_size rather than 0. */
  datatype Block = Block(dev: nat, blocknr: nat, data: Data, dirty: bool, count: nat, hasData: bool) {
    function Name(): Id { Id(dev, blocknr) }
  }

  datatype Buf = Buf(blk: Block, next: int, prev: int, hash: int)

  function BufHash(block: nat, n: nat): nat
    requires n > 0
  {
    block % n
  }

  /** next and prev of the buffers of `lru` link exactly that chain, from front to rear. */
  ghost predicate LruLinked(b: seq<Buf>, front: int, rear: int, lru: seq<int>) {
    && NoDup(lru)
    && (forall k :: 0 <= k < |lru| ==> 0 <= lru[k] < |b|)
    && (forall k {:trigger b[lru[k]].next} :: 0 <= k < |lru| ==> b[lru[k]].next == At(lru, k + 1))
    && (forall k {:trigger b[lru[k]].prev} :: 0 <= k < |lru| ==> b[lru[k]].prev == At(lru, k - 1))
    && front == At(lru, 0) && rear == At(lru, |lru| - 1)
  }

  /** Chain c starts at h[c] and links, through hash, buffers whose block number hashes to c. */
  ghost predicate HashLinked(b: seq<Buf>, h: seq<int>, chains: seq<seq<int>>) {
    && |b| == |h| == |chains| > 0
    && (forall c :: 0 <= c < |h| ==> h[c] == At(chains[c], 0) && NoDup(chains[c]))
    && (forall c, k :: 0 <= c < |h| && 0 <= k < |chains[c]| ==> 0 <= chains[c][k] < |b|)
    && (forall c, k {:trigger b[chains[c][k]].hash} :: 0 <= c < |h| && 0 <= k < |chains[c]| ==>
          b[chains[c][k]].hash == At(chains[c], k + 1))
    && (forall c, k {:trigger b[chains[c][k]].blk} :: 0 <= c < |h| && 0 <= k < |chains[c]| ==>
          BufHash(b[chains[c][k]].blk.blocknr, |b|) == c)
  }

  /** Only the LRU links may differ. */
  ghost predicate SameButLru(b: seq<Buf>, b': seq<Buf>) {
    |b| == |b'| && forall i :: 0 <= i < |b| ==> b'[i].blk == b[i].blk && b'[i].hash == b[i].hash
  }

  /** Only the hash links may differ. */
  ghost predicate SameButHash(b: seq<Buf>, b': seq<Buf>) {
    |b| == |b'| && forall i :: 0 <= i < |b| ==> b'[i] == b[i].(hash := b'[i].hash)
  }

  /** Only what the buffers hold may differ, and not their block numbers. */
  ghost predicate SameLinks(b: seq<Buf>, b': seq<Buf>) {
    |b| == |b'| && forall i :: 0 <= i < |b| ==>
      b'[i] == b[i].(blk := b'[i].blk) && b'[i].blk.blocknr == b[i].blk.blocknr
  }

  /** rm_lru's relinking: the neighbours of buffer i point past it. */
  function Bypassed(b: seq<Buf>, i: int): (r: seq<Buf>)
    requires 0 <= i < |b|
    requires b[i].prev == NULL || 0 <= b[i].prev < |b|
    requires b[i].next == NULL || 0 <= b[i].next < |b|
    ensures SameButLru(b, r)
  {
    var b1 := if b[i].prev != NULL then b[b[i].prev := b[b[i].prev].(next := b[i].next)] else b;
    if b[i].next != NULL then b1[b[i].next := b1[b[i].next].(prev := b[i].prev)] else b1
  }

  lemma BypassRemoves(b: seq<Buf>, front: int, rear: int, lru: seq<int>, k: nat)
    requires LruLinked(b, front, rear, lru) && k < |lru|
    ensures LruLinked(Bypassed(b, lru[k]),
                      if b[lru[k]].prev != NULL then front else b[lru[k]].next,
                      if b[lru[k]].next != NULL then rear else b[lru[k]].prev,
                      Without(lru, lru[k]))
    ensures |Without(lru, lru[k])| == |lru| - 1
  {
    var b', lru' := Bypassed(b, lru[k]), RemoveAt(lru, k);
    assert Without(lru, lru[k]) == lru' && NoDup(lru') by {
      WithoutIsRemoveAt(lru, k);
    }
    forall j | 0 <= j < |lru'|
      ensures b'[lru'[j]].next == At(lru', j + 1) && b'[lru'[j]].prev == At(lru', j - 1)
    {
      BypassedAt(b, lru[k], lru'[j]);
      var m := if j < k then j else j + 1;
      assert lru'[j] == lru[m] != lru[k];
      assert lru[m] == At(lru, k - 1) <==> m == k - 1;
      assert lru[m] == At(lru, k + 1) <==> m == k + 1;
    }
  }

  lemma BypassedAt(b: seq<Buf>, i: int, x: int)
    requires 0 <= i < |b| && 0 <= x < |b|
    requires b[i].prev == NULL || 0 <= b[i].prev < |b|
    requires b[i].next == NULL || 0 <= b[i].next < |b|
    ensures Bypassed(b, i)[x].next == if x == b[i].prev then b[i].next else b[x].next
    ensures Bypassed(b, i)[x].prev == if x == b[i].next then b[i].prev else b[x].prev
  {
  }

  lemma PushedFront(b: seq<Buf>, front: int, rear: int, lru: seq<int>, i: int, b': seq<Buf>)
    requires LruLinked(b, front, rear, lru) && 0 <= i < |b| && i !in lru
    requires b' == var b1 := b[i := b[i].(prev := NULL, next := front)];
                   if front == NULL then b1 else b1[front := b1[front].(prev := i)]
    ensures LruLinked(b', i, if front == NULL then i else rear, [i] + lru)
    ensures SameButLru(b, b')
  {
    var lru' := [i] + lru;
    forall j | 0 <= j < |lru'|
      ensures b'[lru'[j]].next == At(lru', j + 1) && b'[lru'[j]].prev == At(lru', j - 1)
    {
      if j > 0 {
        assert lru'[j] == lru[j - 1];
      }
    }
  }

  lemma PushedBack(b: seq<Buf>, front: int, rear: int, lru: seq<int>, i: int, b': seq<Buf>)
    requires LruLinked(b, front, rear, lru) && 0 <= i < |b| && i !in lru
    requires b' == var b1 := b[i := b[i].(prev := rear, next := NULL)];
                   if rear == NULL then b1 else b1[rear := b1[rear].(next := i)]
    ensures LruLinked(b', if rear == NULL then i else front, i, lru + [i])
    ensures SameButLru(b, b')
  {
    var lru' := lru + [i];
    forall j | 0 <= j < |lru'|
      ensures b'[lru'[j]].next == At(lru', j + 1) && b'[lru'[j]].prev == At(lru', j - 1)
    {
      if j < |lru| {
        assert lru'[j] == lru[j];
      }
    }
  }

  lemma HashKept(b: seq<Buf>, b': seq<Buf>, h: seq<int>, chains: seq<seq<int>>)
    requires HashLinked(b, h, chains) && |b| == |b'|
    requires forall i :: 0 <= i < |b| ==> b'[i].hash == b[i].hash && b'[i].blk.blocknr == b[i].blk.blocknr
    ensures HashLinked(b', h, chains)
  {
  }

  lemma LruKept(b: seq<Buf>, b': seq<Buf>, front: int, rear: int, lru: seq<int>)
    requires LruLinked(b, front, rear, lru) && |b| == |b'|
    requires forall i :: 0 <= i < |b| ==> b'[i].next == b[i].next && b'[i].prev == b[i].prev
    ensures LruLinked(b', front, rear, lru)
  {
  }

  /** No buffer is on two hash chains. */
  lemma OneChain(b: seq<Buf>, h: seq<int>, chains: seq<seq<int>>, c: nat, k: nat, d: nat, j: nat)
    requires HashLinked(b, h, chains) && c < |h| && k < |chains[c]| && d < |h| && j < |chains[d]|
    requires chains[c][k] == chains[d][j]
    ensures c == d && k == j
  {
    assert BufHash(b[chains[c][k]].blk.blocknr, |b|) == c;
    assert BufHash(b[chains[d][j]].blk.blocknr, |b|) == d;
  }

  /** Taking element k off hash chain c. */
  lemma Unhashed(b: seq<Buf>, b': seq<Buf>, h: seq<int>, h': seq<int>, chains: seq<seq<int>>, c: nat, k: nat)
    requires HashLinked(b, h, chains) && c < |h| && k < |chains[c]|
    requires |b'| == |b|
    requires var i := chains[c][k];
             if k == 0 then b' == b && h' == h[c := b[i].hash]
             else h' == h && var q := chains[c][k - 1]; b' == b[q := b[q].(hash := b[i].hash)]
    ensures HashLinked(b', h', chains[c := Without(chains[c], chains[c][k])])
    ensures SameButHash(b, b')
  {
    var chain' := RemoveAt(chains[c], k);
    assert Without(chains[c], chains[c][k]) == chain' && NoDup(chain') by {
      WithoutIsRemoveAt(chains[c], k);
    }
    var chains' := chains[c := chain'];
    forall d, j | 0 <= d < |h| && 0 <= j < |chains'[d]|
      ensures 0 <= chains'[d][j] < |b|
      ensures b'[chains'[d][j]].hash == At(chains'[d], j + 1)
      ensures BufHash(b'[chains'[d][j]].blk.blocknr, |b|) == d
    {
      var m := if d == c && j >= k then j + 1 else j;
      assert chains'[d][j] == chains[d][m];
      if k > 0 && chains[d][m] == chains[c][k - 1] {
        OneChain(b, h, chains, d, m, c, k - 1);
      }
    }
  }

  /** Naming buffer i anew and pushing it on the chain of its new block number. */
  lemma Hashed(b: seq<Buf>, b': seq<Buf>, h: seq<int>, chains: seq<seq<int>>, i: int, blk: Block, c: nat)
    requires HashLinked(b, h, chains) && 0 <= i < |b|
    requires forall d :: 0 <= d < |h| ==> i !in chains[d]
    requires c == BufHash(blk.blocknr, |b|)
    requires c < |h| && b' == b[i := b[i].(blk := blk, hash := h[c])]
    ensures HashLinked(b', h[c := i], chains[c := [i] + chains[c]])
  {
    var chains' := chains[c := [i] + chains[c]];
    forall d, j | 0 <= d < |h| && 0 <= j < |chains'[d]|
      ensures 0 <= chains'[d][j] < |b| && b'[chains'[d][j]].hash == At(chains'[d], j + 1)
      ensures BufHash(b'[chains'[d][j]].blk.blocknr, |b|) == d
    {
      if d == c && j > 0 {
        assert chains'[d][j] == chains[d][j - 1];
      } else if d != c {
        assert chains'[d][j] == chains[d][j] != i;
      }
    }
  }
}
