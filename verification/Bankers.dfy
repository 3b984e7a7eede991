/** The safety check of the banker's algorithm, for any number of processes and resources. */
module Bankers {

  const UNREACHABLE: int := -1

  datatype ExitStatus = Running | Success | Fail

  /** max[i][j]: what process i may need of resource j in all; req[i][j]: what it still needs. */
  datatype Problem = Problem(max: seq<seq<int>>, req: seq<seq<int>>, avail: seq<int>) {

    function Processes(): nat { |max| }

    function Resources(): nat { |avail| }

    ghost predicate Valid() {
      && Resources() > 0 && |req| == Processes()
      && (forall i :: 0 <= i < Processes() ==> |max[i]| == |req[i]| == Resources())
      && (forall i, j :: 0 <= i < Processes() && 0 <= j < Resources() ==> 0 <= req[i][j] <= max[i][j])
    }

    /** What the finished processes among the first n gave back of resource j beyond their requests. */
    ghost function Gain(done: set<nat>, n: nat, j: nat): int
      requires Valid() && n <= Processes() && j < Resources()
    {
      if n == 0 then 0
      else Gain(done, n - 1, j) + if n - 1 in done then max[n - 1][j] - req[n - 1][j] else 0
    }

    ghost function Available(done: set<nat>, j: nat): int
      requires Valid() && j < Resources()
    {
      avail[j] + Gain(done, Processes(), j)
    }

    /** Process i has not finished and its requests can be met. */
    ghost predicate CanFinish(done: set<nat>, i: nat)
      requires Valid()
    {
      i < Processes() && i !in done && forall j :: 0 <= j < Resources() ==> req[i][j] <= Available(done, j)
    }

    /** The processes of `order` can finish one after the other once those of `done` have. */
    ghost predicate CompletionOrder(order: seq<nat>, done: set<nat>)
      requires Valid()
    {
      order == [] || (CanFinish(done, order[0]) && CompletionOrder(order[1..], done + {order[0]}))
    }

    ghost function All(): set<nat> {
      Below(Processes())
    }

    /** Some completion order contains every process. */
    ghost predicate Safe()
      requires Valid()
    {
      exists order :: CompletionOrder(order, {}) && Elements(order) == All()
    }

    ghost predicate Stuck(done: set<nat>)
      requires Valid()
    {
      forall i :: !CanFinish(done, i)
    }
  }

  function Elements(s: seq<nat>): set<nat> {
    set x | x in s
  }

  function Below(n: nat): (s: set<nat>)
    ensures |s| == n
    ensures forall x: nat {:trigger x in s} :: x in s <==> x < n
  {
    if n == 0 then {} else Below(n - 1) + {n - 1 as nat}
  }

  /** The sum of column j over the first n rows. */
  function Column(rows: seq<seq<int>>, n: nat, j: nat): int
    requires n <= |rows| && forall i :: 0 <= i < n ==> j < |rows[i]|
  {
    if n == 0 then 0 else Column(rows, n - 1, j) + rows[n - 1][j]
  }

  // ---------------------------------------------------------------- theory

  lemma {:induction false} GainGrows(p: Problem, d: set<nat>, e: set<nat>, n: nat, j: nat)
    requires p.Valid() && d <= e && n <= p.Processes() && j < p.Resources()
    ensures p.Gain(d, n, j) <= p.Gain(e, n, j)
  {
    if n > 0 {
      GainGrows(p, d, e, n - 1, j);
    }
  }

  lemma {:induction false} GainAdds(p: Problem, d: set<nat>, i: nat, n: nat, j: nat)
    requires p.Valid() && i < p.Processes() && i !in d && n <= p.Processes() && j < p.Resources()
    ensures p.Gain(d + {i}, n, j) == p.Gain(d, n, j) + if i < n then p.max[i][j] - p.req[i][j] else 0
  {
    if n > 0 {
      GainAdds(p, d, i, n - 1, j);
    }
  }

  lemma {:induction false} NoGain(p: Problem, n: nat, j: nat)
    requires p.Valid() && n <= p.Processes() && j < p.Resources()
    ensures p.Gain({}, n, j) == 0
  {
    if n > 0 {
      NoGain(p, n - 1, j);
    }
  }

  /** What can finish early can still finish when more processes have. */
  lemma CanFinishLater(p: Problem, d: set<nat>, e: set<nat>, i: nat)
    requires p.Valid() && d <= e && p.CanFinish(d, i) && i !in e
    ensures p.CanFinish(e, i)
  {
    forall j | 0 <= j < p.Resources()
      ensures p.req[i][j] <= p.Available(e, j)
    {
      GainGrows(p, d, e, p.Processes(), j);
    }
  }

  /** The exchange argument: no completion order leaves a set in which nothing more can finish. */
  lemma {:induction false} OrdersStayWithin(p: Problem, order: seq<nat>, d: set<nat>, stuck: set<nat>)
    requires p.Valid() && d <= stuck && p.Stuck(stuck) && p.CompletionOrder(order, d)
    ensures Elements(order) <= stuck
  {
    if order != [] {
      if order[0] !in stuck {
        CanFinishLater(p, d, stuck, order[0]);
      }
      OrdersStayWithin(p, order[1..], d + {order[0]}, stuck);
      assert forall x :: x in order ==> x == order[0] || x in order[1..];
    }
  }

  /** However the processes are picked, those that finish before nothing more can are the same, and
      so are the resources then available. */
  lemma StuckSetUnique(p: Problem, a: seq<nat>, b: seq<nat>)
    requires p.Valid() && p.CompletionOrder(a, {}) && p.CompletionOrder(b, {})
    requires p.Stuck(Elements(a)) && p.Stuck(Elements(b))
    ensures Elements(a) == Elements(b)
    ensures forall j :: 0 <= j < p.Resources() ==> p.Available(Elements(a), j) == p.Available(Elements(b), j)
  {
    OrdersStayWithin(p, a, {}, Elements(b));
    OrdersStayWithin(p, b, {}, Elements(a));
  }

  /** The greedy verdict is exact. */
  lemma GreedyIsExact(p: Problem, order: seq<nat>)
    requires p.Valid() && p.CompletionOrder(order, {})
    requires p.Stuck(Elements(order)) || Elements(order) == p.All()
    ensures p.Safe() <==> Elements(order) == p.All()
  {
    if p.Safe() && p.Stuck(Elements(order)) {
      var other :| p.CompletionOrder(other, {}) && Elements(other) == p.All();
      OrdersStayWithin(p, other, {}, Elements(order));
      OrderInAll(p, order, {});
    }
  }

  lemma {:induction false} OrderInAll(p: Problem, order: seq<nat>, d: set<nat>)
    requires p.Valid() && p.CompletionOrder(order, d)
    ensures Elements(order) <= p.All()
  {
    if order != [] {
      OrderInAll(p, order[1..], d + {order[0]});
      assert forall x :: x in order ==> x == order[0] || x in order[1..];
    }
  }

  lemma {:induction false} OrderExtends(p: Problem, order: seq<nat>, d: set<nat>, i: nat)
    requires p.Valid() && p.CompletionOrder(order, d) && p.CanFinish(d + Elements(order), i)
    ensures p.CompletionOrder(order + [i], d)
  {
    if order == [] {
      assert d + Elements(order) == d;
      assert order + [i] == [i];
      assert [i][1..] == [];
    } else {
      assert (order + [i])[1..] == order[1..] + [i];
      assert d + {order[0]} + Elements(order[1..]) == d + Elements(order) by {
        assert forall x :: x in order <==> x == order[0] || x in order[1..];
      }
      OrderExtends(p, order[1..], d + {order[0]}, i);
    }
  }

  lemma {:induction false} FullGain(p: Problem, n: nat, j: nat)
    requires p.Valid() && n <= p.Processes() && j < p.Resources()
    ensures p.Gain(p.All(), n, j) == Column(p.max, n, j) - Column(p.req, n, j)
  {
    if n > 0 {
      FullGain(p, n - 1, j);
    }
  }

  // ---------------------------------------------------------------- the program

  function Row(m: array2<int>, i: nat): seq<int>
    requires i < m.Length0
    reads m
  {
    seq(m.Length1, j requires 0 <= j < m.Length1 reads m => m[i, j])
  }

  function Rows(m: array2<int>): seq<seq<int>>
    reads m
  {
    seq(m.Length0, i requires 0 <= i < m.Length0 reads m => Row(m, i))
  }

  /** The state reached once the processes of `order` have finished: their first request is marked,
      and the resources are what is then available. */
  ghost predicate Reached(p: Problem, order: seq<nat>, M: array2<int>, R: array2<int>, A: array<int>)
    reads M, R, A
    requires p.Valid()
  {
    && M.Length0 == R.Length0 == p.Processes() && M.Length1 == R.Length1 == A.Length == p.Resources()
    && p.CompletionOrder(order, {})
    && (forall i, j :: 0 <= i < p.Processes() && 0 <= j < p.Resources() ==> M[i, j] == p.max[i][j])
    && (forall i, j :: 0 <= i < p.Processes() && 0 <= j < p.Resources() ==>
          R[i, j] == if j == 0 && i in Elements(order) then UNREACHABLE else p.req[i][j])
    && (forall j :: 0 <= j < p.Resources() ==> A[j] == p.Available(Elements(order), j))
  }

  /** Whether the requests of process i can be met. */
  method Satisfied(R: array2<int>, A: array<int>, i: nat) returns (ok: bool)
    requires i < R.Length0 && R.Length1 == A.Length
    ensures ok <==> forall j :: 0 <= j < A.Length ==> R[i, j] <= A[j]
  {
    ok := true;
    for j := 0 to A.Length
      invariant ok <==> forall k :: 0 <= k < j ==> R[i, k] <= A[k]
    {
      if A[j] < R[i, j] {
        ok := false;
      }
    }
  }

  /** Process i takes what it requests, finishes, gives everything back and is marked. */
  method Finish(M: array2<int>, R: array2<int>, A: array<int>, i: nat)
    requires M.Length0 == R.Length0 && M.Length1 == R.Length1 == A.Length > 0 && i < R.Length0 && M != R
    modifies R, A
    ensures forall j :: 0 <= j < A.Length ==> A[j] == old(A[j]) - old(R[i, j]) + M[i, j]
    ensures forall k, j :: 0 <= k < R.Length0 && 0 <= j < R.Length1 ==>
              R[k, j] == if k == i && j == 0 then UNREACHABLE else old(R[k, j])
  {
    for j := 0 to A.Length
      modifies A
      invariant forall k :: 0 <= k < j ==> A[k] == old(A[k]) - R[i, k]
      invariant forall k :: j <= k < A.Length ==> A[k] == old(A[k])
    {
      A[j] := A[j] - R[i, j];
    }
    for j := 0 to A.Length
      modifies A
      invariant forall k :: 0 <= k < j ==> A[k] == old(A[k]) - R[i, k] + M[i, k]
      invariant forall k :: j <= k < A.Length ==> A[k] == old(A[k]) - R[i, k]
    {
      A[j] := A[j] + M[i, j];
    }
    R[i, 0] := UNREACHABLE;
  }

  lemma Stepped(p: Problem, order: seq<nat>, i: nat)
    requires p.Valid() && p.CompletionOrder(order, {}) && p.CanFinish(Elements(order), i)
    ensures p.CompletionOrder(order + [i], {}) && Elements(order + [i]) == Elements(order) + {i}
    ensures |Elements(order + [i])| == |Elements(order)| + 1
    ensures forall j :: 0 <= j < p.Resources() ==>
              p.Available(Elements(order + [i]), j) == p.Available(Elements(order), j) + p.max[i][j] - p.req[i][j]
  {
    OneMore(order, i);
    Prolonged(p, order, i);
    Returned(p, Elements(order), i);
  }

  lemma OneMore(order: seq<nat>, i: nat)
    requires i !in Elements(order)
    ensures Elements(order + [i]) == Elements(order) + {i} && |Elements(order + [i])| == |Elements(order)| + 1
  {
    assert Elements(order + [i]) == Elements(order) + {i};
  }

  lemma Prolonged(p: Problem, order: seq<nat>, i: nat)
    requires p.Valid() && p.CompletionOrder(order, {}) && p.CanFinish(Elements(order), i)
    ensures p.CompletionOrder(order + [i], {})
  {
    assert {} + Elements(order) == Elements(order);
    OrderExtends(p, order, {}, i);
  }

  lemma Returned(p: Problem, done: set<nat>, i: nat)
    requires p.Valid() && p.CanFinish(done, i)
    ensures forall j :: 0 <= j < p.Resources() ==>
              p.Available(done + {i}, j) == p.Available(done, j) + p.max[i][j] - p.req[i][j]
  {
    forall j | 0 <= j < p.Resources()
      ensures p.Available(done + {i}, j) == p.Available(done, j) + p.max[i][j] - p.req[i][j]
    {
      GainAdds(p, done, i, p.Processes(), j);
    }
  }

  /** The turn of process i in a scan: it finishes exactly if it has not already and can. */
  method Visit(M: array2<int>, R: array2<int>, A: array<int>, i: nat, ghost p: Problem, ghost order0: seq<nat>)
    returns (ok: bool, ghost order: seq<nat>)
    requires p.Valid() && M != R && Reached(p, order0, M, R, A) && i < M.Length0
    modifies R, A
    ensures Reached(p, order, M, R, A)
    ensures ok <==> p.CanFinish(Elements(order0), i)
    ensures order == if ok then order0 + [i] else order0
    ensures |Elements(order)| == |Elements(order0)| + if ok then 1 else 0
  {
    ok, order := false, order0;
    if R[i, 0] != UNREACHABLE {
      ok := Satisfied(R, A, i);
      assert ok <==> p.CanFinish(Elements(order0), i);
      if ok {
        order := order0 + [i];
        Finish(M, R, A, i);
        Stepped(p, order0, i);
      }
    }
  }

  /** One scan of all processes: every one that can finish when its turn comes does. */
  method Scan(M: array2<int>, R: array2<int>, A: array<int>, remaining: int, ghost p: Problem, ghost order0: seq<nat>)
    returns (found: bool, remaining': int, ghost order: seq<nat>)
    requires p.Valid() && M != R && Reached(p, order0, M, R, A) && remaining == p.Processes() - |Elements(order0)|
    modifies R, A
    ensures Reached(p, order, M, R, A) && remaining' == p.Processes() - |Elements(order)|
    ensures !found ==> order == order0 && p.Stuck(Elements(order))
    ensures found ==> remaining' < remaining
  {
    found, remaining', order := false, remaining, order0;
    for i := 0 to M.Length0
      invariant Reached(p, order, M, R, A) && remaining' == p.Processes() - |Elements(order)|
      invariant if found then remaining' < remaining else order == order0 && remaining' == remaining
      invariant !found ==> forall k :: 0 <= k < i ==> !p.CanFinish(Elements(order), k)
    {
      var ok;
      ok, order := Visit(M, R, A, i, p, order);
      if ok {
        found := true;
        remaining' := remaining' - 1;
      }
    }
  }

  /** Before anything has finished, the resources are the initial ones. */
  lemma Initially(p: Problem)
    requires p.Valid()
    ensures p.CompletionOrder([], {}) && Elements([]) == {}
    ensures forall j :: 0 <= j < p.Resources() ==> p.Available({}, j) == p.avail[j]
  {
    forall j | 0 <= j < p.Resources()
      ensures p.Available({}, j) == p.avail[j]
    {
      NoGain(p, p.Processes(), j);
    }
  }

  /** A scan that leaves no process, or none that can finish, settles whether the state is safe. */
  lemma Verdict(p: Problem, order: seq<nat>)
    requires p.Valid() && p.CompletionOrder(order, {})
    requires p.Stuck(Elements(order)) || |Elements(order)| == p.Processes()
    ensures p.Safe() <==> |Elements(order)| == p.Processes()
    ensures |Elements(order)| == p.Processes() <==> Elements(order) == p.All()
    ensures p.Safe() ==> forall j :: 0 <= j < p.Resources() ==>
              p.Available(Elements(order), j)
              == p.avail[j] + Column(p.max, p.Processes(), j) - Column(p.req, p.Processes(), j)
  {
    OrderInAll(p, order, {});
    SubsetOfSize(Elements(order), p.All());
    GreedyIsExact(p, order);
    if p.Safe() {
      forall j | 0 <= j < p.Resources()
        ensures p.Available(Elements(order), j)
                == p.avail[j] + Column(p.max, p.Processes(), j) - Column(p.req, p.Processes(), j)
      {
        FullGain(p, p.Processes(), j);
      }
    }
  }

  lemma {:induction false} SubsetOfSize(a: set<nat>, b: set<nat>)
    requires a <= b
    ensures |a| <= |b| && (|a| == |b| <==> a == b)
  {
    if a != {} {
      var x :| x in a;
      SubsetOfSize(a - {x}, b - {x});
      assert a == a - {x} + {x} && b == b - {x} + {x};
    }
  }

  /** The safety check. Its verdict is exact: success if and only if some order lets every process
      finish; the resources are then the initial ones and everything the processes held. */
  method SafetyCheck(M: array2<int>, R: array2<int>, A: array<int>) returns (status: ExitStatus, ghost order: seq<nat>)
    requires M != R && Problem(Rows(M), Rows(R), A[..]).Valid() && M.Length1 == R.Length1 == A.Length
    modifies R, A
    ensures status == Success || status == Fail
    ensures var p := old(Problem(Rows(M), Rows(R), A[..]));
            (status == Success <==> p.Safe()) && p.CompletionOrder(order, {})
    ensures var p := old(Problem(Rows(M), Rows(R), A[..]));
            if status == Success then Elements(order) == p.All() else p.Stuck(Elements(order))
    ensures status == Success ==> forall j :: 0 <= j < A.Length ==>
              A[j] == old(A[j]) + Column(old(Rows(M)), M.Length0, j) - Column(old(Rows(R)), M.Length0, j)
  {
    ghost var p := Problem(Rows(M), Rows(R), A[..]);
    order := [];
    var remaining := M.Length0;
    status := Running;
    Initially(p);
    while status == Running
      invariant Reached(p, order, M, R, A) && remaining == p.Processes() - |Elements(order)|
      invariant status == Success ==> remaining == 0
      invariant status == Fail ==> remaining > 0 && p.Stuck(Elements(order))
      decreases if status == Running then 1 else 0, remaining
    {
      var found;
      found, remaining, order := Scan(M, R, A, remaining, p, order);
      if !found {
        status := Fail;
      }
      OrderInAll(p, order, {});
      SubsetOfSize(Elements(order), p.All());
      if remaining <= 0 {
        status := Success;
      }
    }
    Verdict(p, order);
  }
}
