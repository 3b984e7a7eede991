/** The sort of the scattered writer's queue: a shell sort with gaps 1, 4, 13, 40, ... */
module ShellSort {
  import opened BufferPool

  function Key(b: seq<Buf>, i: int): int {
    if 0 <= i < |b| then b[i].blk.blocknr else 0
  }

  /** The first n pointers of q are in order. */
  ghost predicate KeySorted(b: seq<Buf>, q: seq<int>, n: nat)
    requires n <= |q|
  {
    forall j, k :: 0 <= j < k < n ==> Key(b, q[j]) <= Key(b, q[k])
  }

  /** All pairs among the first n are in order except those whose later element is at position h. */
  ghost predicate SortedExcept(b: seq<Buf>, q: seq<int>, n: nat, h: int)
    requires n <= |q|
  {
    forall j, k :: 0 <= j < k < n && k != h ==> Key(b, q[j]) <= Key(b, q[k])
  }

  /** The gaps that reach 1 by repeated division by 3. */
  predicate IsGap(g: nat) {
    g == 1 || (g % 3 == 1 && g / 3 > 0 && IsGap(g / 3))
  }

  function Swapped(q: seq<int>, i: nat, h: nat): (r: seq<int>)
    requires i < h < |q|
    ensures multiset(r) == multiset(q) && |r| == |q|
  {
    q[i := q[h]][h := q[i]]
  }

  /** Swapping the element at h with the larger one before it moves the exception down. */
  lemma SwapDown(b: seq<Buf>, q: seq<int>, n: nat, h: nat)
    requires 0 < h < n <= |q| && SortedExcept(b, q, n, h) && Key(b, q[h - 1]) > Key(b, q[h])
    ensures SortedExcept(b, Swapped(q, h - 1, h), n, h - 1)
  {
    var q' := Swapped(q, h - 1, h);
    forall j, k | 0 <= j < k < n && k != h - 1
      ensures Key(b, q'[j]) <= Key(b, q'[k])
    {
      var j0 := if j == h - 1 then h else if j == h then h - 1 else j;
      var k0 := if k == h then h - 1 else k;
      assert q'[j] == q[j0] && q'[k] == q[k0];
    }
  }

  lemma InOrder(b: seq<Buf>, q: seq<int>, n: nat, h: nat)
    requires h < n <= |q| && SortedExcept(b, q, n, h)
    requires h > 0 ==> Key(b, q[h - 1]) <= Key(b, q[h])
    ensures KeySorted(b, q, n)
  {
  }

  ghost predicate InBuffers(b: seq<Buf>, q: seq<int>, n: nat)
    requires n <= |q|
  {
    forall k :: 0 <= k < n ==> 0 <= q[k] < |b|
  }

  /** q' permutes the first n elements of q. */
  ghost predicate Permutes(q: seq<int>, q': seq<int>, n: nat) {
    n <= |q| == |q'| && multiset(q') == multiset(q) && forall k :: n <= k < |q| ==> q'[k] == q[k]
  }

  lemma SwapStep(b: seq<Buf>, q: seq<int>, q': seq<int>, size: nat, gap: nat, j: nat, i: nat)
    requires 0 < gap && i + gap <= j < size <= |q| && InBuffers(b, q, size)
    requires Key(b, q[i]) > Key(b, q[i + gap])
    requires q' == Swapped(q, i, i + gap)
    ensures InBuffers(b, q', size) && Permutes(q, q', size)
    ensures gap == 1 && SortedExcept(b, q, j + 1, i + gap) ==> SortedExcept(b, q', j + 1, i)
  {
    if gap == 1 && SortedExcept(b, q, j + 1, i + gap) {
      SwapDown(b, q, j + 1, i + 1);
    }
  }

  /** A permutation of the first n elements, said of the first n elements alone. */
  lemma PermutesPrefix(q: seq<int>, q': seq<int>, n: nat)
    requires Permutes(q, q', n)
    ensures multiset(q'[..n]) == multiset(q[..n]) && q'[n..] == q[n..]
  {
    assert q'[n..] == q[n..];
    assert q == q[..n] + q[n..] && multiset(q) == multiset(q[..n]) + multiset(q[n..]);
    assert q' == q'[..n] + q'[n..] && multiset(q') == multiset(q'[..n]) + multiset(q'[n..]);
    var rest := multiset(q[n..]);
    assert multiset(q[..n]) == (multiset(q[..n]) + rest) - rest;
    assert multiset(q'[..n]) == (multiset(q'[..n]) + rest) - rest;
  }

  /** Sorts the first `size` pointers of bufq by block number. */
  method Sort(buf: array<Buf>, bufq: array<int>, size: nat)
    requires size <= bufq.Length && InBuffers(buf[..], bufq[..], size)
    modifies bufq
    ensures InBuffers(buf[..], bufq[..], size) && KeySorted(buf[..], bufq[..], size)
    ensures Permutes(old(bufq[..]), bufq[..], size)
  {
    var gap := 4;
    while gap <= size
      invariant gap > 1 && IsGap(gap)
    {
      gap := 3 * gap + 1;
    }
    while gap != 1
      invariant gap > 0 && IsGap(gap)
      invariant InBuffers(buf[..], bufq[..], size)
      invariant gap == 1 ==> KeySorted(buf[..], bufq[..], size)
      invariant Permutes(old(bufq[..]), bufq[..], size)
      decreases gap
    {
      gap := gap / 3;
      GapPass(buf, bufq, size, gap);
    }
  }

  /** One pass: insertion sort of each of the interleaved sequences `gap` apart. */
  method GapPass(buf: array<Buf>, bufq: array<int>, size: nat, gap: nat)
    requires gap > 0 && size <= bufq.Length && InBuffers(buf[..], bufq[..], size)
    modifies bufq
    ensures InBuffers(buf[..], bufq[..], size)
    ensures gap == 1 ==> KeySorted(buf[..], bufq[..], size)
    ensures Permutes(old(bufq[..]), bufq[..], size)
  {
    var j := gap;
    while j < size
      invariant gap <= j && (size < gap ==> j == gap) && (size >= gap ==> j <= size)
      invariant InBuffers(buf[..], bufq[..], size)
      invariant gap == 1 && j <= size ==> KeySorted(buf[..], bufq[..], j)
      invariant Permutes(old(bufq[..]), bufq[..], size)
      decreases size - j
    {
      Insert(buf, bufq, size, gap, j);
      j := j + 1;
    }
  }

  /** Moves element j down by swaps `gap` apart until it is in order. */
  method Insert(buf: array<Buf>, bufq: array<int>, size: nat, gap: nat, j: nat)
    requires 0 < gap <= j < size <= bufq.Length && InBuffers(buf[..], bufq[..], size)
    requires gap == 1 ==> KeySorted(buf[..], bufq[..], j)
    modifies bufq
    ensures InBuffers(buf[..], bufq[..], size)
    ensures gap == 1 ==> KeySorted(buf[..], bufq[..], j + 1)
    ensures Permutes(old(bufq[..]), bufq[..], size)
  {
    var i := j - gap;
    while i >= 0 && Above(buf, bufq, i, i + gap)
      invariant 0 <= i + gap && i <= j - gap && i < j
      invariant InBuffers(buf[..], bufq[..], size)
      invariant gap == 1 ==> SortedExcept(buf[..], bufq[..], j + 1, i + 1)
      invariant Permutes(old(bufq[..]), bufq[..], size)
      decreases i + gap
    {
      SwapBack(buf, bufq, size, gap, j, i);
      i := i - gap;
    }
    if gap == 1 {
      InOrder(buf[..], bufq[..], j + 1, i + 1);
    }
  }

  predicate Above(buf: array<Buf>, bufq: array<int>, i: nat, h: nat)
    requires i < h < bufq.Length && 0 <= bufq[i] < buf.Length && 0 <= bufq[h] < buf.Length
    reads buf, bufq
    ensures Above(buf, bufq, i, h) <==> Key(buf[..], bufq[..][i]) > Key(buf[..], bufq[..][h])
  {
    buf[bufq[i]].blk.blocknr > buf[bufq[h]].blk.blocknr
  }

  method SwapBack(buf: array<Buf>, bufq: array<int>, size: nat, gap: nat, j: nat, i: nat)
    requires 0 < gap && i + gap <= j < size <= bufq.Length && InBuffers(buf[..], bufq[..], size)
    requires Key(buf[..], bufq[..][i]) > Key(buf[..], bufq[..][i + gap])
    modifies bufq
    ensures InBuffers(buf[..], bufq[..], size)
    ensures gap == 1 && SortedExcept(buf[..], old(bufq[..]), j + 1, i + gap) ==>
              SortedExcept(buf[..], bufq[..], j + 1, i)
    ensures Permutes(old(bufq[..]), bufq[..], size)
  {
    ghost var b, q := buf[..], bufq[..];
    Swap(bufq, i, i + gap);
    SwapStep(b, q, bufq[..], size, gap, j, i);
  }

  method Swap(bufq: array<int>, i: nat, h: nat)
    requires i < h < bufq.Length
    modifies bufq
    ensures bufq[..] == Swapped(old(bufq[..]), i, h)
  {
    var bp := bufq[i];
    bufq[i] := bufq[h];
    bufq[h] := bp;
  }
}
