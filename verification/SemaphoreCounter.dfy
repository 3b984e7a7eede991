/** Any number of threads count to N each in one shared variable, one at a time behind a semaphore.
    The steps of the threads and of main interleave arbitrarily. */
module SemaphoreCounter {

  /** Where a thread stands: before its creation, at the loop test, at sem_wait, at the three
      separate steps of the increment, at sem_post, or after its return. */
  datatype Pc = Unborn | Test | Wait | Load | Add | Store | Post | Ended

  datatype Thread = Thread(pc: Pc, i: nat, tmp: int) {

    predicate Inside() {
      pc.Load? || pc.Add? || pc.Store? || pc.Post?
    }

    /** How many of its increments have reached the shared count. */
    function Counted(): nat {
      i + if pc.Post? then 1 else 0
    }

    /** How many steps it has left. */
    function Left(rounds: nat): int {
      match pc
      case Unborn => 6 * rounds + 1
      case Test => 6 * (rounds - i) + 1
      case Wait => 6 * (rounds - i)
      case Load => 6 * (rounds - i) - 1
      case Add => 6 * (rounds - i) - 2
      case Store => 6 * (rounds - i) - 3
      case Post => 6 * (rounds - i) - 4
      case Ended => 0
    }

    ghost predicate Valid(rounds: nat, count: int) {
      && i <= rounds
      && (pc.Unborn? ==> i == 0)
      && (pc.Wait? || Inside() ==> i < rounds)
      && (pc.Ended? ==> i == rounds)
      && (pc.Add? ==> tmp == count)
      && (pc.Store? ==> tmp == count + 1)
    }
  }

  /** main creates the threads, joins them, and reports whether the count is short. */
  datatype Main = Creating(next: nat) | Joining(next: nat) | Reported(short: bool) | Exited

  datatype State = State(rounds: nat, sem: nat, count: int, threads: seq<Thread>, main: Main)

  /** Who moves: a thread, main, or main upon an error of pthread_create or pthread_join. */
  datatype Mover = Worker(k: nat) | Driver | DriverFails

  predicate Running(s: State) {
    s.main.Creating? || s.main.Joining?
  }

  predicate Enabled(s: State, m: Mover) {
    Running(s) &&
    match m
    case Worker(k) =>
      k < |s.threads| && !s.threads[k].pc.Unborn? && !s.threads[k].pc.Ended?
      && (s.threads[k].pc.Wait? ==> s.sem > 0)
    case Driver =>
      s.main.Joining? && s.main.next < |s.threads| ==> s.threads[s.main.next].pc.Ended?
    case DriverFails =>
      s.main.next < |s.threads|
  }

  function Moved(s: State, k: nat): State
    requires k < |s.threads|
  {
    var t := s.threads[k];
    match t.pc
    case Test => s.(threads := s.threads[k := t.(pc := if t.i < s.rounds then Wait else Ended)])
    case Wait => s.(threads := s.threads[k := t.(pc := Load)], sem := if s.sem > 0 then s.sem - 1 else 0)
    case Load => s.(threads := s.threads[k := t.(pc := Add, tmp := s.count)])
    case Add => s.(threads := s.threads[k := t.(pc := Store, tmp := t.tmp + 1)])
    case Store => s.(threads := s.threads[k := t.(pc := Post)], count := t.tmp)
    case Post => s.(threads := s.threads[k := t.(pc := Test, i := t.i + 1)], sem := s.sem + 1)
    case Unborn => s
    case Ended => s
  }

  function Next(s: State, m: Mover): State
    requires Enabled(s, m)
  {
    match m
    case Worker(k) => Moved(s, k)
    case DriverFails => s.(main := Exited)
    case Driver =>
      if s.main.Creating? then
        if s.main.next < |s.threads|
        then s.(main := Creating(s.main.next + 1),
                threads := s.threads[s.main.next := s.threads[s.main.next].(pc := Test)])
        else s.(main := Joining(0))
      else if s.main.next < |s.threads| then s.(main := Joining(s.main.next + 1))
      else s.(main := Reported(s.count < |s.threads| * s.rounds))
  }

  function Initial(threads: nat, rounds: nat): State {
    State(rounds, 1, 0, seq(threads, _ => Thread(Unborn, 0, 0)), Creating(0))
  }

  /** A run from s: at every position some mover is enabled and makes its step. */
  ghost predicate IsRun(s: State, movers: seq<Mover>)
    decreases movers
  {
    movers == [] || (Enabled(s, movers[0]) && IsRun(Next(s, movers[0]), movers[1..]))
  }

  ghost function After(s: State, movers: seq<Mover>): State
    requires IsRun(s, movers)
    decreases movers
  {
    if movers == [] then s else After(Next(s, movers[0]), movers[1..])
  }

  function Total(ts: seq<Thread>): int {
    if ts == [] then 0 else Total(ts[..|ts| - 1]) + ts[|ts| - 1].Counted()
  }

  function Work(ts: seq<Thread>, rounds: nat): int {
    if ts == [] then 0 else Work(ts[..|ts| - 1], rounds) + ts[|ts| - 1].Left(rounds)
  }

  /** The steps left before main has reported. */
  function StepsLeft(s: State): int {
    Work(s.threads, s.rounds) +
    match s.main
    case Creating(k) => 2 * |s.threads| + 2 - k
    case Joining(k) => |s.threads| + 1 - k
    case Reported(_) => 0
    case Exited => 0
  }

  /** At most one thread is between sem_wait and sem_post, and exactly one if the semaphore is down. */
  ghost predicate Exclusive(s: State) {
    && s.sem <= 1
    && (s.sem == 1 ==> forall k :: 0 <= k < |s.threads| ==> !s.threads[k].Inside())
    && (s.sem == 0 ==> exists k :: 0 <= k < |s.threads| && s.threads[k].Inside())
    && forall k, l :: 0 <= k < |s.threads| && 0 <= l < |s.threads| && s.threads[k].Inside() && s.threads[l].Inside() ==>
         k == l
  }

  ghost predicate Valid(s: State) {
    && Exclusive(s)
    && (forall k :: 0 <= k < |s.threads| ==> s.threads[k].Valid(s.rounds, s.count))
    && s.count == Total(s.threads)
    && match s.main
       case Creating(n) =>
         n <= |s.threads| && forall k :: 0 <= k < |s.threads| ==> (s.threads[k].pc.Unborn? <==> n <= k)
       case Joining(n) =>
         && n <= |s.threads|
         && (forall k :: 0 <= k < |s.threads| ==> !s.threads[k].pc.Unborn?)
         && (forall k :: 0 <= k < n ==> s.threads[k].pc.Ended?)
       case Reported(short) =>
         short == (s.count < |s.threads| * s.rounds) && forall k :: 0 <= k < |s.threads| ==> s.threads[k].pc.Ended?
       case Exited => true
  }

  // ---------------------------------------------------------------- sums over the threads

  lemma {:induction false} TotalUpdated(ts: seq<Thread>, k: nat, t: Thread)
    requires k < |ts|
    ensures Total(ts[k := t]) == Total(ts) - ts[k].Counted() + t.Counted()
  {
    var n := |ts| - 1;
    if k < n {
      TotalUpdated(ts[..n], k, t);
      assert ts[k := t][..n] == ts[..n][k := t];
    } else {
      assert ts[k := t][..n] == ts[..n];
    }
  }

  lemma {:induction false} WorkUpdated(ts: seq<Thread>, rounds: nat, k: nat, t: Thread)
    requires k < |ts|
    ensures Work(ts[k := t], rounds) == Work(ts, rounds) - ts[k].Left(rounds) + t.Left(rounds)
  {
    var n := |ts| - 1;
    if k < n {
      WorkUpdated(ts[..n], rounds, k, t);
      assert ts[k := t][..n] == ts[..n][k := t];
    } else {
      assert ts[k := t][..n] == ts[..n];
    }
  }

  lemma {:induction false} UniformSums(ts: seq<Thread>, rounds: nat, each: nat, left: int)
    requires forall k :: 0 <= k < |ts| ==> ts[k].Counted() == each && ts[k].Left(rounds) == left
    ensures Total(ts) == |ts| * each && Work(ts, rounds) == |ts| * left
  {
    if ts != [] {
      UniformSums(ts[..|ts| - 1], rounds, each, left);
      Distribute(|ts| - 1, each);
      Distribute(|ts| - 1, left);
    }
  }

  lemma Distribute(n: int, x: int)
    ensures (n + 1) * x == n * x + x
  {
  }

  lemma {:induction false} WorkNonNegative(ts: seq<Thread>, rounds: nat, count: int)
    requires forall k :: 0 <= k < |ts| ==> ts[k].Valid(rounds, count)
    ensures Work(ts, rounds) >= 0
  {
    if ts != [] {
      WorkNonNegative(ts[..|ts| - 1], rounds, count);
    }
  }

  // ---------------------------------------------------------------- every step

  lemma InitiallyValid(threads: nat, rounds: nat)
    ensures Valid(Initial(threads, rounds))
    ensures StepsLeft(Initial(threads, rounds)) == threads * (6 * rounds + 1) + 2 * threads + 2
  {
    UniformSums(Initial(threads, rounds).threads, rounds, 0, 6 * rounds + 1);
  }

  /** No other thread relies on the count while one is inside. */
  lemma ThreadsStillValid(s: State, k: nat)
    requires Valid(s) && Enabled(s, Worker(k))
    ensures forall l :: 0 <= l < |s.threads| ==> Moved(s, k).threads[l].Valid(s.rounds, Moved(s, k).count)
  {
    forall l | 0 <= l < |s.threads|
      ensures Moved(s, k).threads[l].Valid(s.rounds, Moved(s, k).count)
    {
      if l != k {
        assert s.threads[k].Inside() ==> !s.threads[l].Inside();
      }
    }
  }

  lemma CountStillRight(s: State, k: nat)
    requires Valid(s) && Enabled(s, Worker(k))
    ensures Moved(s, k).count == Total(Moved(s, k).threads)
  {
    var t := Moved(s, k).threads[k];
    TotalUpdated(s.threads, k, t);
    assert Moved(s, k).threads == s.threads[k := t];
  }

  lemma WorkLowered(s: State, k: nat)
    requires Valid(s) && Enabled(s, Worker(k))
    ensures Work(Moved(s, k).threads, s.rounds) == Work(s.threads, s.rounds) - 1
  {
    var t := Moved(s, k).threads[k];
    LeftLowered(s, k);
    WorkUpdated(s.threads, s.rounds, k, t);
  }

  lemma LeftLowered(s: State, k: nat)
    requires Valid(s) && Enabled(s, Worker(k))
    ensures Moved(s, k).threads == s.threads[k := Moved(s, k).threads[k]]
    ensures Moved(s, k).threads[k].Left(s.rounds) == s.threads[k].Left(s.rounds) - 1
  {
  }

  lemma WorkerValid(s: State, k: nat)
    requires Valid(s) && Enabled(s, Worker(k))
    ensures Valid(Moved(s, k)) && StepsLeft(Moved(s, k)) == StepsLeft(s) - 1
  {
    ThreadsStillValid(s, k);
    CountStillRight(s, k);
    WorkLowered(s, k);
    StillExclusive(s, k);
  }

  lemma StillExclusive(s: State, k: nat)
    requires Exclusive(s) && Enabled(s, Worker(k))
    ensures Exclusive(Moved(s, k))
  {
    var s' := Moved(s, k);
    if s'.sem == 0 {
      if s.sem == 0 {
        var l :| 0 <= l < |s.threads| && s.threads[l].Inside();
        assert s'.threads[l].Inside();
      } else {
        assert s'.threads[k].Inside();
      }
    }
  }

  lemma CreationValid(s: State)
    requires Valid(s) && s.main.Creating? && s.main.next < |s.threads|
    ensures Valid(Next(s, Driver)) && StepsLeft(Next(s, Driver)) == StepsLeft(s) - 1
  {
    var k := s.main.next;
    var born := s.threads[k].(pc := Test);
    TotalUpdated(s.threads, k, born);
    WorkUpdated(s.threads, s.rounds, k, born);
    assert Exclusive(Next(s, Driver)) by {
      if s.sem == 0 {
        var l :| 0 <= l < |s.threads| && s.threads[l].Inside();
        assert Next(s, Driver).threads[l].Inside();
      }
    }
  }

  lemma DriverValid(s: State, m: Mover)
    requires Valid(s) && Enabled(s, m) && !m.Worker?
    ensures Valid(Next(s, m))
    ensures m.Driver? ==> StepsLeft(Next(s, m)) == StepsLeft(s) - 1
    ensures m.DriverFails? ==> Next(s, m).main == Exited
  {
    if m.Driver? && s.main.Creating? && s.main.next < |s.threads| {
      CreationValid(s);
    } else if m.Driver? && s.main.Joining? && s.main.next == |s.threads| {
      UniformSums(s.threads, s.rounds, s.rounds, 0);
    }
  }

  /** Every step keeps the invariant and, unless main gives up, is one step towards the report. */
  lemma StepValid(s: State, m: Mover)
    requires Valid(s) && Enabled(s, m)
    ensures Valid(Next(s, m))
    ensures !m.DriverFails? ==> StepsLeft(Next(s, m)) == StepsLeft(s) - 1
  {
    if m.Worker? {
      WorkerValid(s, m.k);
    } else {
      DriverValid(s, m);
    }
  }

  // ---------------------------------------------------------------- every run

  lemma {:induction false} RunValid(s: State, movers: seq<Mover>)
    requires Valid(s) && IsRun(s, movers)
    ensures Valid(After(s, movers))
    ensures After(s, movers).rounds == s.rounds && |After(s, movers).threads| == |s.threads|
    decreases movers
  {
    if movers != [] {
      StepValid(s, movers[0]);
      RunValid(Next(s, movers[0]), movers[1..]);
    }
  }

  /** Mutual exclusion, in every state of every run. */
  lemma AtMostOneInside(threads: nat, rounds: nat, movers: seq<Mover>, k: nat, l: nat)
    requires IsRun(Initial(threads, rounds), movers)
    requires k < l < |After(Initial(threads, rounds), movers).threads|
    ensures var ts := After(Initial(threads, rounds), movers).threads; !(ts[k].Inside() && ts[l].Inside())
  {
    InitiallyValid(threads, rounds);
    RunValid(Initial(threads, rounds), movers);
  }

  /** A thread that could move if it were not for the semaphore never waits in vain: while main runs,
      the thread inside, a thread outside, or main itself can move. */
  lemma SomeoneCanMove(s: State)
    requires Valid(s) && Running(s)
    ensures exists m :: Enabled(s, m) && !m.DriverFails?
  {
    if s.main.Creating? || s.main.next == |s.threads| {
      assert Enabled(s, Driver);
    } else if s.sem == 0 {
      var k :| 0 <= k < |s.threads| && s.threads[k].Inside();
      assert Enabled(s, Worker(k));
    } else if s.threads[s.main.next].pc.Ended? {
      assert Enabled(s, Driver);
    } else {
      assert Enabled(s, Worker(s.main.next));
    }
  }

  /** Every run is finite, whatever the scheduler does. */
  lemma {:induction false} RunBounded(s: State, movers: seq<Mover>)
    requires Valid(s) && IsRun(s, movers)
    ensures |movers| <= StepsLeft(s)
    ensures After(s, movers).main != Exited ==> |movers| == StepsLeft(s) - StepsLeft(After(s, movers))
    decreases movers
  {
    WorkNonNegative(s.threads, s.rounds, s.count);
    if movers != [] {
      var s' := Next(s, movers[0]);
      StepValid(s, movers[0]);
      if movers[0].DriverFails? {
        assert movers[1..] == [];
      } else {
        RunBounded(s', movers[1..]);
      }
    }
  }

  /** main exits early only upon an error, and then at once. */
  lemma {:induction false} ExitsUponError(s: State, movers: seq<Mover>)
    requires IsRun(s, movers) && s.main != Exited
    ensures After(s, movers).main == Exited <==> DriverFails in movers
    decreases movers
  {
    if movers != [] {
      if movers[0].DriverFails? {
        assert movers[1..] == [];
      } else {
        ExitsUponError(Next(s, movers[0]), movers[1..]);
      }
    }
  }

  /** A run that cannot go on has either met an error of pthread_create or pthread_join, or counted
      exactly: every increment is in the count, main does not report a short count, and the number
      of steps is the same for every interleaving. */
  lemma FinalCount(threads: nat, rounds: nat, movers: seq<Mover>)
    requires IsRun(Initial(threads, rounds), movers)
    requires forall m :: !Enabled(After(Initial(threads, rounds), movers), m)
    ensures var end := After(Initial(threads, rounds), movers);
            if DriverFails in movers then end.main == Exited
            else (&& end.main == Reported(false) && end.count == threads * rounds
                && |movers| == threads * (6 * rounds + 1) + 2 * threads + 2)
  {
    var start := Initial(threads, rounds);
    var end := After(start, movers);
    InitiallyValid(threads, rounds);
    RunValid(start, movers);
    RunBounded(start, movers);
    ExitsUponError(start, movers);
    if Running(end) {
      SomeoneCanMove(end);
    } else if end.main != Exited {
      UniformSums(end.threads, rounds, rounds, 0);
    }
  }
}
