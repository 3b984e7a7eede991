/** A linked list of key and data pairs, and its insertion sort through an array of node pointers
    with a pluggable comparator. */
module ListSort {
  import opened Chains
  import opened YieldInterface

  const INT_MAX: int := 0x7fff_ffff

  type Int32 = x: int | -INT_MAX - 1 <= x <= INT_MAX
  type Byte = x: int | 0 < x < 256 witness 1

  class Node<D> {
    const key: seq<Byte>
    const data: D
    var next: Node?<D>

    constructor (key: seq<Byte>, data: D)
      ensures this.key == key && this.data == data && next == null
    {
      this.key := key;
      this.data := data;
      next := null;
    }
  }

  // ---------------------------------------------------------------- comparators

  /** What a comparator answers on its n-th call; only a random one looks at n. */
  type Comparator<!D> = (nat, D, D) -> int

  /** Subtraction in a 32-bit int that wraps around. */
  function Wrap(x: int): (r: Int32)
    requires -2 * INT_MAX - 2 <= x <= 2 * INT_MAX + 1
  {
    if x > INT_MAX then x - 2 * INT_MAX - 2 else if x < -INT_MAX - 1 then x + 2 * INT_MAX + 2 else x
  }

  function IntInc(n: nat, a: Int32, b: Int32): int {
    Wrap(a - b)
  }

  function IntDec(n: nat, a: Int32, b: Int32): int {
    Wrap(b - a)
  }

  function Strcmp(a: seq<Byte>, b: seq<Byte>): int {
    if a == [] && b == [] then 0
    else if a == [] then -b[0]
    else if b == [] then a[0]
    else if a[0] != b[0] then a[0] - b[0]
    else Strcmp(a[1..], b[1..])
  }

  function CharInc(n: nat, a: seq<Byte>, b: seq<Byte>): int {
    Strcmp(a, b)
  }

  function CharDec(n: nat, a: seq<Byte>, b: seq<Byte>): int {
    Strcmp(b, a)
  }

  // ---------------------------------------------------------------- the outcome of the sort

  function Answer<D>(c: Comparator<D>, n: nat, x: Node<D>, y: Node<D>): int {
    c(n, x.data, y.data)
  }

  /** Where the scan from the right stops: before the run of nodes it answers `>= 0` for. */
  function Slot<D>(c: Comparator<D>, calls: nat, s: seq<Node<D>>, n: nat, x: Node<D>): (p: nat)
    requires n <= |s|
    ensures p <= n
    decreases n
  {
    if n == 0 || Answer(c, calls, s[n - 1], x) < 0 then n else Slot(c, calls + 1, s, n - 1, x)
  }

  /** What the answers were on the way to the slot. */
  lemma {:induction false} SlotAnswers<D>(c: Comparator<D>, calls: nat, s: seq<Node<D>>, n: nat, x: Node<D>, k: nat)
    requires k < n <= |s|
    ensures var p := Slot(c, calls, s, n, x);
            if k < p then Answer(c, calls + (n - p), s[p - 1], x) < 0
            else Answer(c, calls + (n - 1 - k), s[k], x) >= 0
    decreases n
  {
    if Answer(c, calls, s[n - 1], x) >= 0 && k < n - 1 {
      SlotAnswers(c, calls + 1, s, n - 1, x, k);
    }
  }

  function Inserted<T>(s: seq<T>, p: nat, x: T): (r: seq<T>)
    requires p <= |s|
    ensures |r| == |s| + 1
    ensures forall k {:trigger r[k]} :: 0 <= k < |r| ==> r[k] == if k < p then s[k] else if k == p then x else s[k - 1]
  {
    seq(|s| + 1, k requires 0 <= k <= |s| => if k < p then s[k] else if k == p then x else s[k - 1])
  }

  lemma InsertedCounts<T>(s: seq<T>, p: nat, x: T)
    requires p <= |s|
    ensures multiset(Inserted(s, p, x)) == multiset(s) + multiset{x}
  {
    assert Inserted(s, p, x) == s[..p] + [x] + s[p..];
    assert s == s[..p] + s[p..];
  }

  datatype Outcome<!D> = Outcome(nodes: seq<Node<D>>, calls: nat)

  /** The nodes of s inserted one after the other, and how often the comparator was called. */
  function Sorted<D>(c: Comparator<D>, s: seq<Node<D>>): (o: Outcome<D>)
    ensures |o.nodes| == |s| && multiset(o.nodes) == multiset(s)
  {
    if |s| <= 1 then Outcome(s, 0)
    else
      var n := |s| - 1;
      var r := Sorted(c, s[..n]);
      var p := Slot(c, r.calls, r.nodes, n, s[n]);
      InsertedCounts(r.nodes, p, s[n]);
      assert s == s[..n] + [s[n]];
      Outcome(Inserted(r.nodes, p, s[n]), r.calls + n - p + if p > 0 then 1 else 0)
  }

  predicate Leq<D>(c: Comparator<D>, x: Node<D>, y: Node<D>) {
    Answer(c, 0, x, y) <= 0
  }

  /** The comparator answers as an order on the data of s does, call after call. */
  ghost predicate Orders<D>(c: Comparator<D>, s: seq<Node<D>>) {
    && (forall n: nat, x, y {:trigger Answer(c, n, x, y)} :: x in s && y in s ==>
          Agree(Answer(c, n, x, y), Answer(c, 0, x, y)))
    && (forall x, y {:trigger Leq(c, x, y)} {:trigger Leq(c, y, x)} :: x in s && y in s ==>
          (Leq(c, y, x) <==> Answer(c, 0, x, y) >= 0))
    && (forall x, y, z {:trigger Leq(c, x, y), Leq(c, y, z)} :: x in s && y in s && z in s ==>
          Leq(c, x, y) && Leq(c, y, z) ==> Leq(c, x, z))
  }

  /** Two answers of the same sign. */
  predicate Agree(a: int, b: int) {
    (a < 0 <==> b < 0) && (a > 0 <==> b > 0)
  }

  function Index<T(==)>(s: seq<T>, x: T): (i: nat)
    requires x in s
    ensures i < |s| && s[i] == x
  {
    if s[0] == x then 0 else 1 + Index(s[1..], x)
  }

  /** x may stand before y: it is smaller, or it is equal and came later in the original list. */
  ghost predicate Precedes<D>(c: Comparator<D>, original: seq<Node<D>>, x: Node<D>, y: Node<D>)
    requires x in original && y in original
  {
    Answer(c, 0, x, y) < 0 || (Answer(c, 0, x, y) == 0 && Index(original, x) > Index(original, y))
  }

  /** r is in order, and equal data come in the reverse of the original order. */
  ghost predicate Arranged<D>(c: Comparator<D>, original: seq<Node<D>>, r: seq<Node<D>>) {
    && (forall x :: x in r ==> x in original)
    && forall j, k {:trigger Precedes(c, original, r[j], r[k])} :: 0 <= j < k < |r| ==>
      Precedes(c, original, r[j], r[k])
  }

  /** Under a comparator that orders the data, the outcome is in order and reverses equal data. */
  lemma {:induction false} SortArranges<D>(c: Comparator<D>, original: seq<Node<D>>, i: nat)
    requires NoDup(original) && Orders(c, original) && i <= |original|
    ensures Arranged(c, original, Sorted(c, original[..i]).nodes)
    ensures forall x :: x in Sorted(c, original[..i]).nodes ==> x in original[..i]
  {
    var s := original[..i];
    MembersOf(Sorted(c, s).nodes, s);
    if i > 1 {
      var n := i - 1;
      assert s[..n] == original[..n];
      SortArranges(c, original, n);
      var r := Sorted(c, s[..n]);
      InsertArranges(c, original, r.nodes, r.calls, n);
    }
  }

  lemma MembersOf<T>(a: seq<T>, b: seq<T>)
    requires multiset(a) == multiset(b)
    ensures forall x :: x in a <==> x in b
  {
    forall x
      ensures x in a <==> x in b
    {
      assert x in a <==> x in multiset(a);
      assert x in b <==> x in multiset(b);
    }
  }

  /** Everything before the slot may precede the new node, and it may precede everything after. */
  lemma SlotDivides<D>(c: Comparator<D>, original: seq<Node<D>>, r: seq<Node<D>>, calls: nat, i: nat, k: nat)
    requires NoDup(original) && Orders(c, original) && i < |original| && |r| == i && k < i
    requires Arranged(c, original, r) && forall x :: x in r ==> x in original[..i]
    ensures r[k] in original
    ensures if k < Slot(c, calls, r, i, original[i]) then Precedes(c, original, r[k], original[i])
            else Precedes(c, original, original[i], r[k])
  {
    var x := original[i];
    var p := Slot(c, calls, r, i, x);
    assert x in original && r[k] in original[..i];
    SlotAnswers(c, calls, r, i, x, k);
    if k < p {
      var y := r[p - 1];
      assert y in original[..i];
      assert Agree(Answer(c, calls + (i - p), y, x), Answer(c, 0, y, x));
      assert Leq(c, y, x) && !Leq(c, x, y);
      if k < p - 1 {
        assert Precedes(c, original, r[k], y);
        assert Leq(c, r[k], y);
        assert Leq(c, x, r[k]) ==> Leq(c, x, y);
        assert !Leq(c, x, r[k]);
      }
    } else {
      assert Agree(Answer(c, calls + (i - 1 - k), r[k], x), Answer(c, 0, r[k], x));
      assert Leq(c, x, r[k]);
      assert Index(original, r[k]) < i == Index(original, x);
    }
  }

  lemma InsertArranges<D>(c: Comparator<D>, original: seq<Node<D>>, r: seq<Node<D>>, calls: nat, i: nat)
    requires NoDup(original) && Orders(c, original) && i < |original| && |r| == i
    requires Arranged(c, original, r) && forall x :: x in r ==> x in original[..i]
    ensures Arranged(c, original, Inserted(r, Slot(c, calls, r, i, original[i]), original[i]))
  {
    var x := original[i];
    var p := Slot(c, calls, r, i, x);
    var r' := Inserted(r, p, x);
    assert forall k :: 0 <= k < |r'| ==> r'[k] == if k < p then r[k] else if k == p then x else r[k - 1];
    forall j, k | 0 <= j < k < |r'|
      ensures r'[j] in original && r'[k] in original && Precedes(c, original, r'[j], r'[k])
    {
      if j == p {
        SlotDivides(c, original, r, calls, i, k - 1);
      } else if k == p {
        SlotDivides(c, original, r, calls, i, j);
      } else {
        assert Precedes(c, original, r[if j < p then j else j - 1], r[if k < p then k else k - 1]);
      }
    }
    assert forall y :: y in r' ==> y == x || y in r;
  }

  // ---------------------------------------------------------------- the comparators of the table

  /** The subtraction tells the order of two ints exactly when their difference fits in an int. */
  lemma IntIncExact(n: nat, a: Int32, b: Int32)
    ensures Agree(IntInc(n, a, b), a - b) <==> -INT_MAX - 1 <= a - b <= INT_MAX
  {
  }

  /** All differences fit. */
  ghost predicate Close(s: seq<Node<Int32>>) {
    forall x, y :: x in s && y in s ==> x.data - y.data <= INT_MAX
  }

  lemma IntOrders(s: seq<Node<Int32>>)
    requires Close(s)
    ensures Orders(IntInc, s) && Orders(IntDec, s)
  {
  }

  /** With close ints, int_inc gives an ascending list and int_dec a descending one; equal ints come
      in reverse order of input. */
  lemma IntSorts(s: seq<Node<Int32>>, j: nat, k: nat)
    requires NoDup(s) && Close(s) && j < k < |s|
    ensures var r := Sorted(IntInc, s).nodes;
            && r[j] in s && r[k] in s
            && (r[j].data < r[k].data || (r[j].data == r[k].data && Index(s, r[j]) > Index(s, r[k])))
    ensures var r := Sorted(IntDec, s).nodes;
            && r[j] in s && r[k] in s
            && (r[j].data > r[k].data || (r[j].data == r[k].data && Index(s, r[j]) > Index(s, r[k])))
  {
    IntOrders(s);
    assert s[..|s|] == s;
    SortArranges(IntInc, s, |s|);
    SortArranges(IntDec, s, |s|);
    var up, down := Sorted(IntInc, s).nodes, Sorted(IntDec, s).nodes;
    assert Precedes(IntInc, s, up[j], up[k]) && Precedes(IntDec, s, down[j], down[k]);
  }

  /** A list of two ints comes out ascending exactly when the difference of the first and the second
      fits in an int or they are equal. */
  lemma IntPair(x: Node<Int32>, y: Node<Int32>)
    ensures var r := Sorted(IntInc, [x, y]).nodes;
            |r| == 2 && (r[0].data <= r[1].data <==> -INT_MAX - 1 <= x.data - y.data <= INT_MAX)
  {
    var s := [x, y];
    assert s[..1] == [x];
    assert Sorted(IntInc, [x]) == Outcome([x], 0);
    var p := Slot(IntInc, 0, [x], 1, y);
    assert Sorted(IntInc, s).nodes == Inserted([x], p, y);
    assert Inserted([x], 0, y) == [y, x] && Inserted([x], 1, y) == [x, y];
  }

  ghost predicate Ascending(r: seq<Node<Int32>>) {
    forall j, k :: 0 <= j < k < |r| ==> r[j].data <= r[k].data
  }

  ghost predicate Descending(r: seq<Node<Int32>>) {
    forall j, k :: 0 <= j < k < |r| ==> r[j].data >= r[k].data
  }

  /** x comes before y in r. */
  ghost predicate Before(r: seq<Node<Int32>>, x: Node<Int32>, y: Node<Int32>) {
    exists j, k :: 0 <= j < k < |r| && r[j] == x && r[k] == y
  }

  lemma InsertedBefore(r: seq<Node<Int32>>, p: nat, z: Node<Int32>, x: Node<Int32>, y: Node<Int32>)
    requires p <= |r| && Before(r, x, y)
    ensures Before(Inserted(r, p, z), x, y)
  {
    var j, k :| 0 <= j < k < |r| && r[j] == x && r[k] == y;
    var r' := Inserted(r, p, z);
    assert r'[if j < p then j else j + 1] == x && r'[if k < p then k else k + 1] == y;
  }

  /** If the second node of the input was put behind the first, it stays behind it. */
  lemma {:induction false} StaysBefore(c: Comparator<Int32>, t: seq<Node<Int32>>, i: nat)
    requires 2 <= i <= |t| && Answer(c, 0, t[0], t[1]) < 0
    ensures Before(Sorted(c, t[..i]).nodes, t[0], t[1])
  {
    var s, n := t[..i], i - 1;
    assert s[..n] == t[..n] && s[n] == t[n];
    var r := Sorted(c, s[..n]);
    if i == 2 {
      assert t[..1] == [t[0]] && r == Outcome([t[0]], 0);
      assert Slot(c, 0, r.nodes, 1, t[1]) == 1;
      var r' := Sorted(c, s).nodes;
      assert r'[0] == t[0] && r'[1] == t[1];
    } else {
      StaysBefore(c, t, n);
      InsertedBefore(r.nodes, Slot(c, r.calls, r.nodes, n, s[n]), s[n], t[0], t[1]);
    }
  }

  /** Any two nodes of a list can come first. */
  lemma Fronted(s: seq<Node<Int32>>, x: Node<Int32>, y: Node<Int32>) returns (t: seq<Node<Int32>>)
    requires x in s && y in s && x != y
    ensures multiset(t) == multiset(s) && |t| >= 2 && t[0] == x && t[1] == y
  {
    var i: nat :| i < |s| && s[i] == x;
    var r := s[..i] + s[i + 1..];
    TakenOut(s, i);
    assert y in multiset(r) by {
      assert y in multiset(s);
    }
    var j: nat :| j < |r| && r[j] == y;
    TakenOut(r, j);
    t := [x, y] + (r[..j] + r[j + 1..]);
  }

  lemma TakenOut(s: seq<Node<Int32>>, i: nat)
    requires i < |s|
    ensures multiset(s) == multiset{s[i]} + multiset(s[..i] + s[i + 1..])
  {
    assert s == s[..i] + ([s[i]] + s[i + 1..]);
  }

  lemma CloseMembers(s: seq<Node<Int32>>, t: seq<Node<Int32>>)
    requires Close(s) && forall x :: x in t ==> x in s
    ensures Close(t)
  {
  }

  lemma PairArranged(t: seq<Node<Int32>>, up: seq<Node<Int32>>, down: seq<Node<Int32>>, j: nat, k: nat)
    requires NoDup(t) && Close(t) && up == Sorted(IntInc, t).nodes && down == Sorted(IntDec, t).nodes && j < k < |t|
    ensures up[j].data <= up[k].data && down[j].data >= down[k].data
  {
    IntSorts(t, j, k);
  }

  lemma CloseArranged(t: seq<Node<Int32>>, up: seq<Node<Int32>>, down: seq<Node<Int32>>)
    requires NoDup(t) && Close(t) && up == Sorted(IntInc, t).nodes && down == Sorted(IntDec, t).nodes
    ensures Ascending(up) && Descending(down)
  {
    CloseAscends(t, up, down);
    CloseDescends(t, up, down);
  }

  lemma CloseAscends(t: seq<Node<Int32>>, up: seq<Node<Int32>>, down: seq<Node<Int32>>)
    requires NoDup(t) && Close(t) && up == Sorted(IntInc, t).nodes && down == Sorted(IntDec, t).nodes
    ensures Ascending(up)
  {
    forall j: nat, k: nat | j < k < |up|
      ensures up[j].data <= up[k].data
    {
      PairArranged(t, up, down, j, k);
    }
  }

  lemma CloseDescends(t: seq<Node<Int32>>, up: seq<Node<Int32>>, down: seq<Node<Int32>>)
    requires NoDup(t) && Close(t) && up == Sorted(IntInc, t).nodes && down == Sorted(IntDec, t).nodes
    ensures Descending(down)
  {
    forall j: nat, k: nat | j < k < |down|
      ensures down[j].data >= down[k].data
    {
      PairArranged(t, up, down, j, k);
    }
  }

  /** Two ints whose difference does not fit come out in the wrong order if they are given in it. */
  lemma FarArranged(s: seq<Node<Int32>>, x: Node<Int32>, y: Node<Int32>)
    returns (t: seq<Node<Int32>>, u: seq<Node<Int32>>)
    requires x in s && y in s && x.data - y.data > INT_MAX
    ensures multiset(t) == multiset(s) && !Ascending(Sorted(IntInc, t).nodes)
    ensures multiset(u) == multiset(s) && !Descending(Sorted(IntDec, u).nodes)
  {
    t := Fronted(s, x, y);
    StaysBefore(IntInc, t, |t|);
    assert t[..|t|] == t;
    u := Fronted(s, y, x);
    StaysBefore(IntDec, u, |u|);
    assert u[..|u|] == u;
  }

  /** int_inc sorts every arrangement of a list upwards, and int_dec downwards, if and only if the
      differences in the list fit in an int. */
  lemma CloseExactly(s: seq<Node<Int32>>)
    requires NoDup(s)
    ensures Close(s) <==>
              forall t {:trigger Sorted(IntInc, t)} :: multiset(t) == multiset(s) ==> Ascending(Sorted(IntInc, t).nodes)
    ensures Close(s) <==>
              forall t {:trigger Sorted(IntDec, t)} :: multiset(t) == multiset(s) ==>
                Descending(Sorted(IntDec, t).nodes)
  {
    if Close(s) {
      forall t | multiset(t) == multiset(s)
        ensures Ascending(Sorted(IntInc, t).nodes) && Descending(Sorted(IntDec, t).nodes)
      {
        PermutedNoDup(s, t);
        CloseMembers(s, t);
        CloseArranged(t, Sorted(IntInc, t).nodes, Sorted(IntDec, t).nodes);
      }
    } else {
      var x, y :| x in s && y in s && x.data - y.data > INT_MAX;
      var t, u := FarArranged(s, x, y);
    }
  }

  /** a comes before b in a dictionary. */
  ghost predicate LexLess(a: seq<Byte>, b: seq<Byte>) {
    exists m :: FirstDifference(a, b, m)
  }

  ghost predicate FirstDifference(a: seq<Byte>, b: seq<Byte>, m: nat) {
    m <= |a| && m < |b| && (forall k :: 0 <= k < m ==> a[k] == b[k]) && (m == |a| || a[m] < b[m])
  }

  /** strcmp decides the dictionary order. */
  lemma {:induction false} StrcmpExact(a: seq<Byte>, b: seq<Byte>)
    ensures Strcmp(a, b) < 0 <==> LexLess(a, b)
    ensures Strcmp(a, b) == 0 <==> a == b
    ensures Strcmp(b, a) == -Strcmp(a, b)
  {
    if a == [] || b == [] || a[0] != b[0] {
      if Strcmp(a, b) < 0 {
        assert FirstDifference(a, b, 0);
      }
    } else {
      var a', b' := a[1..], b[1..];
      StrcmpExact(a', b');
      if LexLess(a', b') {
        var m: nat :| FirstDifference(a', b', m);
        assert FirstDifference(a, b, m + 1);
      }
      if LexLess(a, b) {
        var m: nat :| FirstDifference(a, b, m);
        assert forall k :: 0 <= k < m - 1 ==> a'[k] == a[k + 1] == b[k + 1] == b'[k];
        assert FirstDifference(a', b', m - 1);
      }
      assert a == [a[0]] + a' && b == [b[0]] + b';
    }
  }

  lemma {:induction false} LexTransitive(a: seq<Byte>, b: seq<Byte>, c: seq<Byte>)
    requires Strcmp(a, b) <= 0 && Strcmp(b, c) <= 0
    ensures Strcmp(a, c) <= 0
  {
    if a != [] && b != [] && c != [] && a[0] == b[0] == c[0] {
      LexTransitive(a[1..], b[1..], c[1..]);
    }
  }

  lemma CharOrders(s: seq<Node<seq<Byte>>>)
    ensures Orders(CharInc, s)
    ensures Orders(CharDec, s)
  {
    forall x: Node<seq<Byte>>, y: Node<seq<Byte>> {:trigger Leq(CharInc, x, y)} {:trigger Leq(CharDec, x, y)}
      ensures Strcmp(y.data, x.data) == -Strcmp(x.data, y.data)
    {
      StrcmpExact(x.data, y.data);
    }
    forall x: Node<seq<Byte>>, y: Node<seq<Byte>>, z: Node<seq<Byte>>
        {:trigger Leq(CharInc, x, y), Leq(CharInc, y, z)} {:trigger Leq(CharDec, z, y), Leq(CharDec, y, x)}
      | Strcmp(x.data, y.data) <= 0 && Strcmp(y.data, z.data) <= 0
      ensures Strcmp(x.data, z.data) <= 0
    {
      LexTransitive(x.data, y.data, z.data);
    }
  }

  /** Strings always come out in dictionary order, or in its reverse; equal ones in reverse order of
      input. */
  lemma CharSorts(s: seq<Node<seq<Byte>>>, j: nat, k: nat)
    requires NoDup(s) && j < k < |s|
    ensures var r := Sorted(CharInc, s).nodes;
            && r[j] in s && r[k] in s
            && (LexLess(r[j].data, r[k].data) || (r[j].data == r[k].data && Index(s, r[j]) > Index(s, r[k])))
    ensures var r := Sorted(CharDec, s).nodes;
            && r[j] in s && r[k] in s
            && (LexLess(r[k].data, r[j].data) || (r[j].data == r[k].data && Index(s, r[j]) > Index(s, r[k])))
  {
    CharOrders(s);
    assert s[..|s|] == s;
    SortArranges(CharInc, s, |s|);
    SortArranges(CharDec, s, |s|);
    var up, down := Sorted(CharInc, s).nodes, Sorted(CharDec, s).nodes;
    assert Precedes(CharInc, s, up[j], up[k]) && Precedes(CharDec, s, down[j], down[k]);
    StrcmpExact(up[j].data, up[k].data);
    StrcmpExact(down[k].data, down[j].data);
  }

  lemma {:induction false} SlotPrefix<D>(c: Comparator<D>, calls: nat, s: seq<Node<D>>, m: nat, n: nat, x: Node<D>)
    requires n <= m <= |s|
    ensures Slot(c, calls, s[..m], n, x) == Slot(c, calls, s, n, x)
    decreases n
  {
    if n > 0 {
      SlotPrefix(c, calls + 1, s, m, n - 1, x);
    }
  }

  /** One more node inserted, from an array whose first i pointers are sorted. */
  lemma SortedNext<D>(c: Comparator<D>, nodes: seq<Node<D>>, i: nat, src: seq<Node<D>>)
    requires 0 < i < |nodes| == |src| && src[..i] == Sorted(c, nodes[..i]).nodes && src[i] == nodes[i]
    ensures var o := Sorted(c, nodes[..i]);
            var p := Slot(c, o.calls, src, i, src[i]);
            Sorted(c, nodes[..i + 1])
            == Outcome(Inserted(src[..i], p, src[i]), o.calls + i - p + if p > 0 then 1 else 0)
  {
    var s := nodes[..i + 1];
    assert s[..i] == nodes[..i] && |s| == i + 1 && s[i] == src[i];
    SlotPrefix(c, Sorted(c, nodes[..i]).calls, src, i, i, src[i]);
    LastInserted(c, s, src[..i]);
  }

  lemma LastInserted<D>(c: Comparator<D>, s: seq<Node<D>>, t: seq<Node<D>>)
    requires |s| > 1 && t == Sorted(c, s[..|s| - 1]).nodes
    ensures var n, o := |s| - 1, Sorted(c, s[..|s| - 1]);
            var p := Slot(c, o.calls, t, n, s[n]);
            Sorted(c, s) == Outcome(Inserted(t, p, s[n]), o.calls + n - p + if p > 0 then 1 else 0)
  {
  }

  // ---------------------------------------------------------------- the linked list

  class List<D> {
    var head: Node?<D>
    var length: int
    /** The nodes from the head on. */
    ghost var nodes: seq<Node<D>>

    /** The node at position k, or null past the end. */
    ghost function NodeAt(k: nat): Node?<D>
      reads this
    {
      if k < |nodes| then nodes[k] else null
    }

    /** The links follow `nodes` and end in null. */
    ghost predicate Valid()
      reads this, nodes
    {
      && NoDup(nodes) && length == |nodes| && head == NodeAt(0)
      && forall k :: 0 <= k < |nodes| ==> nodes[k].next == NodeAt(k + 1)
    }

    constructor ()
      ensures Valid() && nodes == []
    {
      head := null;
      length := 0;
      nodes := [];
    }

    /** Appends a node. */
    method Add(node: Node<D>)
      requires Valid() && node !in nodes && node.next == null
      modifies this, nodes
      ensures Valid() && nodes == old(nodes) + [node]
    {
      if head == null {
        head := node;
      } else {
        var last := head;
        ghost var k := 0;
        while last.next != null
          invariant k < |nodes| && last == nodes[k] && Valid()
          decreases |nodes| - k
        {
          last := last.next;
          k := k + 1;
        }
        last.next := node;
      }
      nodes := nodes + [node];
      length := length + 1;
    }

    /** The data of the first node with that key. */
    method Search(key: seq<Byte>) returns (r: Option<D>)
      requires Valid()
      ensures r.None? ==> forall k :: 0 <= k < |nodes| ==> nodes[k].key != key
      ensures r.Some? ==> exists k :: 0 <= k < |nodes| && nodes[k].key == key && r.value == nodes[k].data
                                      && forall m :: 0 <= m < k ==> nodes[m].key != key
    {
      if length == 0 {
        return None;
      }
      var node := head;
      ghost var k := 0;
      while node != null
        invariant k <= |nodes| && node == NodeAt(k)
        invariant forall m :: 0 <= m < k ==> nodes[m].key != key
        decreases |nodes| - k
      {
        StrcmpExact(key, node.key);
        if Strcmp(key, node.key) == 0 {
          return Some(node.data);
        }
        node := node.next;
        k := k + 1;
      }
      return None;
    }

    /** The node pointers in list order. */
    method Collect() returns (src: array<Node<D>>)
      requires Valid() && length > 0
      ensures fresh(src) && src[..] == nodes
    {
      var node := head;
      src := new Node<D>[length](_ => node);
      var index := 0;
      while node != null
        invariant 0 <= index <= |nodes| == src.Length && node == NodeAt(index)
        invariant src[..index] == nodes[..index]
        decreases |nodes| - index
      {
        src[index] := node;
        index := index + 1;
        node := node.next;
      }
    }

    /** Sorts the list. */
    method Sort(c: Comparator<D>)
      requires Valid()
      modifies this, nodes
      ensures Valid() && nodes == Sorted(c, old(nodes)).nodes
    {
      if length == 0 {
        return;
      }
      var src := Collect();
      SortArray(src, c);
      PermutedNoDup(nodes, src[..]);
      Relink(src);
    }

    /** Rewrites the links to follow the array. */
    method Relink(src: array<Node<D>>)
      requires Valid() && length > 0 && src.Length == |nodes| && NoDup(src[..])
      requires forall x :: x in src[..] <==> x in nodes
      modifies this, nodes
      ensures Valid() && nodes == old(src[..])
      ensures length == old(length)
    {
      ghost var s := src[..];
      head := src[0];
      for i := 0 to length - 1
        invariant forall k {:trigger s[k].next} :: 0 <= k < i ==> s[k].next == s[k + 1]
        modifies nodes
      {
        assert s[i] in nodes && s[i] == src[i] && s[i + 1] == src[i + 1];
        src[i].next := src[i + 1];
      }
      assert s[length - 1] in nodes;
      src[length - 1].next := null;
      nodes := s;
    }
  }

  /** Shifts the nodes the comparator answers `>= 0` for and puts the i-th node before them. */
  method InsertNext<D>(src: array<Node<D>>, i: nat, c: Comparator<D>, calls: nat) returns (calls': nat)
    requires 0 < i < src.Length
    modifies src
    ensures var p := Slot(c, calls, old(src[..]), i, old(src[i]));
            && src[..i + 1] == Inserted(old(src[..i]), p, old(src[i]))
            && calls' == calls + i - p + if p > 0 then 1 else 0
    ensures src[i + 1..] == old(src[i + 1..])
  {
    ghost var s := src[..];
    var flag := src[i];
    calls' := calls;
    var j := i - 1;
    while j >= 0
      invariant -1 <= j < i && calls' == calls + (i - 1 - j)
      invariant Slot(c, calls, s, i, flag) == Slot(c, calls', s, j + 1, flag)
      invariant Shifted(s, src[..], i, j + 1)
    {
      calls' := calls' + 1;
      if Answer(c, calls' - 1, src[j], flag) < 0 {
        break;
      }
      src[j + 1] := src[j];
      j := j - 1;
    }
    ghost var t := src[..];
    src[j + 1] := flag;
    SlotFilled(s, t, i, j + 1, flag);
  }

  /** The elements from `slot` to i - 1 have moved up by one place. */
  ghost predicate Shifted<T>(s: seq<T>, t: seq<T>, i: nat, slot: nat) {
    |t| == |s| && forall k {:trigger t[k]} :: 0 <= k < |s| ==> t[k] == if slot < k <= i then s[k - 1] else s[k]
  }

  lemma SlotFilled<T>(s: seq<T>, t: seq<T>, i: nat, slot: nat, x: T)
    requires Shifted(s, t, i, slot) && slot <= i < |s|
    ensures t[slot := x][..i + 1] == Inserted(s[..i], slot, x) && t[slot := x][i + 1..] == s[i + 1..]
  {
    var r := t[slot := x];
    forall k | 0 <= k <= i
      ensures r[k] == Inserted(s[..i], slot, x)[k]
    {
    }
  }

  /** The insertion sort of the node pointers. */
  method SortArray<D>(src: array<Node<D>>, c: Comparator<D>)
    requires src.Length > 0
    modifies src
    ensures src[..] == Sorted(c, old(src[..])).nodes
  {
    ghost var s := src[..];
    var calls := 0;
    for i := 1 to src.Length
      invariant Sorted(c, s[..i]) == Outcome(src[..i], calls) && src[i..] == s[i..]
    {
      ghost var before := src[..];
      SortedNext(c, s, i, before);
      calls := InsertNext(src, i, c, calls);
      assert before[i + 1..] == s[i..][1..];
    }
    assert s[..|s|] == s && src[..] == src[..|s|];
  }
}
