/** What an operation of dadfs has achieved when it ends, in any interleaving: exactly which creations
    succeed and what they make, and what a write leaves. */
module DadfsOutcomes {
  import opened YieldInterface
  import opened Dadfs

  // ---------------------------------------------------------------- what a creation meets

  /** The count it read, whether it got memory, and the free blocks it scanned. */
  datatype Seen = Seen(count: nat, memory: bool, free: set<nat>)

  const NOTHING: Seen := Seen(0, false, {})

  predicate Doing(s: State, t: nat, op: Op) {
    t < |s.threads| && s.threads[t].Busy? && s.threads[t].op == op
  }

  /** What thread t sees of the shared state, doing `op`, in an action. */
  function Sees(s: State, a: Action, t: nat, op: Op, seen: Seen): Seen {
    if a.Step? && a.t == t && Doing(s, t, op) then SeesAt(s.d, s.threads[t], a.memoryOk, seen) else seen
  }

  function SeesAt(d: Shared, th: Thread, memoryOk: bool, seen: Seen): Seen
    requires th.Busy?
  {
    if th.pc == READ_COUNT then seen.(count := d.count)
    else if th.pc == PREPARE then seen.(memory := memoryOk)
    else if th.pc == TAKE_BLOCK then seen.(free := d.free)
    else seen
  }

  ghost function SeenBy(s: State, actions: seq<Action>, t: nat, op: Op, seen: Seen): Seen
    requires IsRun(s, actions)
    decreases actions
  {
    if actions == [] then seen
    else SeenBy(Next(s, actions[0]), actions[1..], t, op, Sees(s, actions[0], t, op, seen))
  }

  /** There was room for the object, its mode is right, there was memory, and a block was free. */
  predicate Succeeds(seen: Seen, mode: Mode) {
    seen.count < MAX_OBJECTS && mode != Other && seen.memory && seen.free != {}
  }

  ghost predicate Lowest(free: set<nat>, b: nat) {
    b in free && forall c :: c in free ==> b <= c
  }

  /** The directory answers for an object stored under the next number, of the mode asked for, in the
      lowest block that was free. */
  ghost predicate Made(d: Shared, op: Op, seen: Seen)
    requires op.Create? && d.count <= |d.store|
  {
    var no := NextNumber(seen.count);
    && LookupNumber(d, op.dir, op.name) == Some(no)
    && var i := GetInodeFrom(d.store, d.count, no, 0);
       i.Some? && i.value.mode == op.mode && i.value.no == no && Lowest(seen.free, i.value.block)
  }

  ghost predicate Outcome(d: Shared, op: Op, seen: Seen)
    requires op.Create? && d.count <= |d.store|
  {
    if Succeeds(seen, op.mode) then Made(d, op, seen) else LookupNumber(d, op.dir, op.name).None?
  }

  // ---------------------------------------------------------------- the course of a creation

  /** What a thread has seen, by the step it stands at. */
  ghost predicate Underway(th: Thread, seen: Seen)
    requires Creates(th)
  {
    && (UNLOCK_MGMT_COUNT <= th.pc <= PUBLISH ==> th.count == seen.count)
    && (LOCK_SB_BLOCK <= th.pc <= PUBLISH ==>
          seen.count < MAX_OBJECTS && th.op.mode != Other && seen.memory && th.inode.no == NextNumber(seen.count))
    && (UNLOCK_SB_BLOCK <= th.pc <= PUBLISH ==> Lowest(seen.free, th.inode.block))
    && (th.pc == FAIL_UNLOCK_SB ==> seen.free == {})
    && (th.pc == FAIL_UNLOCK_CHILDREN ==> !Succeeds(seen, th.op.mode))
  }

  predicate SameName(op: Op, other: Op) {
    op.Create? && other.Create? && op.dir == other.dir && op.name == other.name
  }

  /** Nobody else is creating that name. */
  predicate NoOther(s: State, t: nat, op: Op) {
    forall u {:trigger s.threads[u]} :: 0 <= u < |s.threads| && s.threads[u].Busy? && SameName(op, s.threads[u].op) ==>
      u == t && s.threads[u].op == op
  }

  /** Thread t is creating, or has ended with the outcome told. */
  ghost predicate Tracked(s: State, t: nat, op: Op, seen: Seen) {
    && Inv(s) && t < |s.threads| && op.Create? && op.dir in s.d.cached && s.d.cached[op.dir].mode == Directory
    && NoOther(s, t, op)
    && if Doing(s, t, op) then Underway(s.threads[t], seen) else Outcome(s.d, op, seen)
  }

  lemma LowestTaken(free: set<nat>, r: Option<nat>)
    requires (forall b :: b in free ==> FIRST_BLOCK <= b < 31) && r == FreeBlockFrom(free, FIRST_BLOCK)
    ensures r.None? <==> free == {}
    ensures r.Some? ==> Lowest(free, r.value)
  {
    FreeBlockFound(free, FIRST_BLOCK);
    if r.None? {
      assert forall b :: b in free ==> FIRST_BLOCK <= b < MAX_OBJECTS;
    }
  }

  lemma OwnUnderway(d: Shared, th: Thread, memoryOk: bool, seen: Seen, seen': Seen)
    requires DataSound(d) && PcRight(th) && Local(d, th) && StepDefined(d, th) && Creates(th) && Underway(th, seen)
    requires seen' == SeesAt(d, th, memoryOk, seen)
    ensures ThreadAfter(d, th, memoryOk).Busy? ==> Underway(ThreadAfter(d, th, memoryOk), seen')
    ensures ThreadAfter(d, th, memoryOk).Idle? ==>
              seen' == seen && (th.pc == PUBLISH || th.pc == FAIL_UNLOCK_CHILDREN)
  {
    if th.pc == TAKE_BLOCK {
      LowestTaken(d.free, FreeBlockFrom(d.free, FIRST_BLOCK));
    }
  }

  /** A thread that publishes its object, or gives up, leaves the outcome. */
  lemma Ends(d: Shared, th: Thread, seen: Seen)
    requires DataSound(d) && PcRight(th) && Local(d, th) && StepDefined(d, th) && Creates(th) && Underway(th, seen)
    requires th.pc == PUBLISH || th.pc == FAIL_UNLOCK_CHILDREN
    ensures Outcome(d, th.op, seen)
  {
    if th.pc == PUBLISH {
      var k :| 0 <= k < d.count && d.store[k] == th.inode;
      GetInodeFinds(d.store, d.count, th.inode.no, 0, k);
    }
  }

  /** A step that grows no directory by that name keeps the outcome. */
  lemma OutcomeKept(d: Shared, d': Shared, op: Op, seen: Seen)
    requires DataSound(d) && DataSound(d') && SameObjects(d, d') && op.Create? && Outcome(d, op, seen)
    requires LookupNumber(d', op.dir, op.name) == LookupNumber(d, op.dir, op.name)
    ensures Outcome(d', op, seen)
  {
    if Succeeds(seen, op.mode) {
      SameStoredInode(d, d', NextNumber(seen.count));
    }
  }

  /** What a step does to a name that its thread does not create. */
  lemma NameKept(s: State, u: nat, memoryOk: bool, op: Op)
    requires Inv(s) && Enabled(s, Step(u, memoryOk)) && op.Create?
    requires op.dir in s.d.cached && s.d.cached[op.dir].mode == Directory && !SameName(op, s.threads[u].op)
    ensures var s' := Next(s, Step(u, memoryOk));
            && SameObjects(s.d, s'.d) && op.dir in s'.d.cached && s'.d.cached[op.dir].mode == Directory
            && LookupNumber(s'.d, op.dir, op.name) == LookupNumber(s.d, op.dir, op.name)
  {
    SharedStep(s.d, s.threads[u]);
  }

  lemma OtherTracked(s: State, a: Action, t: nat, op: Op, seen: Seen)
    requires Tracked(s, t, op, seen) && Enabled(s, a) && a.Step? && !(a.t == t && Doing(s, t, op))
    ensures Tracked(Next(s, a), t, op, Sees(s, a, t, op, seen))
  {
    StepKeepsInv(s, a);
    NoOtherKept(s, a, t, op);
    if !Doing(s, t, op) {
      OutcomeNext(s, a.t, a.memoryOk, op, seen);
    } else {
      NameKept(s, a.t, a.memoryOk, op);
    }
  }

  lemma NoOtherKept(s: State, a: Action, t: nat, op: Op)
    requires NoOther(s, t, op) && Enabled(s, a) && a.Step?
    ensures NoOther(Next(s, a), t, op)
    ensures Doing(Next(s, a), t, op) ==> Doing(s, t, op)
    ensures a.t != t && Doing(s, t, op) ==> Doing(Next(s, a), t, op) && Next(s, a).threads[t] == s.threads[t]
  {
    var s' := Next(s, a);
    assert forall u {:trigger s'.threads[u]} :: 0 <= u < |s.threads| && u != a.t ==> s'.threads[u] == s.threads[u];
    assert s'.threads[a.t].Busy? ==> s'.threads[a.t].op == s.threads[a.t].op;
  }

  lemma OutcomeNext(s: State, u: nat, memoryOk: bool, op: Op, seen: Seen)
    requires Inv(s) && Enabled(s, Step(u, memoryOk)) && op.Create?
    requires op.dir in s.d.cached && s.d.cached[op.dir].mode == Directory && !SameName(op, s.threads[u].op)
    requires Outcome(s.d, op, seen)
    ensures var s' := Next(s, Step(u, memoryOk));
            && DataSound(s'.d) && op.dir in s'.d.cached && s'.d.cached[op.dir].mode == Directory
            && Outcome(s'.d, op, seen)
  {
    StepKeepsInv(s, Step(u, memoryOk));
    NameKept(s, u, memoryOk, op);
    OutcomeKept(s.d, Next(s, Step(u, memoryOk)).d, op, seen);
  }

  lemma OwnTracked(s: State, a: Action, t: nat, op: Op, seen: Seen)
    requires Tracked(s, t, op, seen) && Enabled(s, a) && a.Step? && a.t == t && Doing(s, t, op)
    ensures Tracked(Next(s, a), t, op, Sees(s, a, t, op, seen))
  {
    StepKeepsInv(s, a);
    NoOtherKept(s, a, t, op);
    OwnStepTracked(s.d, s.threads[t], a.memoryOk, seen, Sees(s, a, t, op, seen));
  }

  lemma OwnStepTracked(d: Shared, th: Thread, memoryOk: bool, seen: Seen, seen': Seen)
    requires DataSound(d) && PcRight(th) && Local(d, th) && StepDefined(d, th) && Creates(th) && Underway(th, seen)
    requires seen' == SeesAt(d, th, memoryOk, seen)
    ensures var d', th' := SharedAfter(d, th), ThreadAfter(d, th, memoryOk);
            && th.op.dir in d'.cached && d'.cached[th.op.dir].mode == Directory && d'.count <= |d'.store|
            && if th'.Busy? then th'.op == th.op && Underway(th', seen') else Outcome(d', th.op, seen')
  {
    OwnUnderway(d, th, memoryOk, seen, seen');
    SharedStep(d, th);
    if ThreadAfter(d, th, memoryOk).Idle? {
      EndsWith(d, th, seen);
    }
  }

  lemma EndsWith(d: Shared, th: Thread, seen: Seen)
    requires DataSound(d) && PcRight(th) && Local(d, th) && StepDefined(d, th) && Creates(th) && Underway(th, seen)
    requires th.pc == PUBLISH || th.pc == FAIL_UNLOCK_CHILDREN
    ensures SharedAfter(d, th).count <= |SharedAfter(d, th).store| && Outcome(SharedAfter(d, th), th.op, seen)
  {
    Ends(d, th, seen);
    SharedStep(d, th);
    OutcomeKept(d, SharedAfter(d, th), th.op, seen);
  }

  lemma StartTracked(s: State, a: Action, t: nat, op: Op, seen: Seen)
    requires Tracked(s, t, op, seen) && Enabled(s, a) && a.Start? && !SameName(op, a.op)
    ensures Tracked(Next(s, a), t, op, Sees(s, a, t, op, seen))
  {
    StepKeepsInv(s, a);
    var s' := Next(s, a);
    assert forall u {:trigger s'.threads[u]} :: 0 <= u < |s.threads| && u != a.t ==> s'.threads[u] == s.threads[u];
  }

  /** Nobody begins a creation of that name. */
  predicate NotStarted(actions: seq<Action>, op: Op) {
    forall k :: 0 <= k < |actions| && actions[k].Start? ==> !SameName(op, actions[k].op)
  }

  lemma {:induction false} RunTracked(s: State, actions: seq<Action>, t: nat, op: Op, seen: Seen)
    requires Tracked(s, t, op, seen) && IsRun(s, actions) && NotStarted(actions, op)
    ensures Tracked(After(s, actions), t, op, SeenBy(s, actions, t, op, seen))
    decreases actions
  {
    if actions != [] {
      var a := actions[0];
      if a.Start? {
        StartTracked(s, a, t, op, seen);
      } else if a.t == t && Doing(s, t, op) {
        OwnTracked(s, a, t, op, seen);
      } else {
        OtherTracked(s, a, t, op, seen);
      }
      RunTracked(Next(s, a), actions[1..], t, op, Sees(s, a, t, op, seen));
    }
  }

  lemma BegunTracked(s: State, t: nat, op: Op)
    requires Inv(s) && op.Create? && Enabled(s, Start(t, op))
    ensures Tracked(Next(s, Start(t, op)), t, op, NOTHING)
  {
    StepKeepsInv(s, Start(t, op));
  }

  /** Once a creation has ended, the directory answers for its name if and only if there was room, memory
      and a free block for an object of a proper mode; then that object is stored, under the number after
      the count read, in the lowest block that was free. Whatever other threads do, as long as nobody
      begins to create that name again. */
  lemma CreationExactly(s: State, actions: seq<Action>, t: nat, op: Op)
    requires Inv(s) && op.Create? && IsRun(s, [Start(t, op)] + actions) && NotStarted(actions, op)
    requires !Doing(After(s, [Start(t, op)] + actions), t, op)
    ensures var d, seen := After(s, [Start(t, op)] + actions).d, SeenBy(s, [Start(t, op)] + actions, t, op, NOTHING);
            && d.count <= |d.store|
            && (LookupNumber(d, op.dir, op.name).Some? <==> Succeeds(seen, op.mode))
            && (Succeeds(seen, op.mode) ==> Made(d, op, seen))
  {
    var all := [Start(t, op)] + actions;
    assert all[0] == Start(t, op) && all[1..] == actions;
    BegunTracked(s, t, op);
    RunTracked(Next(s, Start(t, op)), actions, t, op, NOTHING);
  }

  // ---------------------------------------------------------------- one thread alone

  function Steps(t: nat, memoryOk: bool, n: nat): seq<Action> {
    if n == 0 then [] else [Step(t, memoryOk)] + Steps(t, memoryOk, n - 1)
  }

  ghost predicate Alone(s: State, t: nat) {
    t < |s.threads| && forall u {:trigger s.threads[u]} :: 0 <= u < |s.threads| && u != t ==> s.threads[u].Idle?
  }

  lemma AloneMoves(s: State, t: nat, memoryOk: bool)
    requires Inv(s) && Alone(s, t) && s.threads[t].Busy?
    ensures Enabled(s, Step(t, memoryOk)) && Alone(Next(s, Step(t, memoryOk)), t)
  {
    var w := Wants(s.threads[t]);
    if w.Some? && Holder(s.locks, w.value).Some? {
      assert LockRight(w.value, Holder(s.locks, w.value), s.threads);
      assert s.threads[Holder(s.locks, w.value).value].Busy?;
    }
  }

  /** A thread alone comes to its end. */
  lemma {:induction false} AloneEnds(s: State, t: nat, memoryOk: bool) returns (n: nat)
    requires Inv(s) && Alone(s, t)
    ensures EndsIn(s, t, memoryOk, n)
    decreases StepsLeft(s.threads[t])
  {
    n := 0;
    if s.threads[t].Busy? {
      AloneAdvances(s, t, memoryOk);
      var m := AloneEnds(Next(s, Step(t, memoryOk)), t, memoryOk);
      n := m + 1;
      OneStepMore(s, t, memoryOk, m);
    }
  }

  ghost predicate EndsIn(s: State, t: nat, memoryOk: bool, n: nat) {
    && IsRun(s, Steps(t, memoryOk, n)) && t < |After(s, Steps(t, memoryOk, n)).threads|
    && After(s, Steps(t, memoryOk, n)).threads[t].Idle?
  }

  lemma AloneAdvances(s: State, t: nat, memoryOk: bool)
    requires Inv(s) && Alone(s, t) && s.threads[t].Busy?
    ensures Enabled(s, Step(t, memoryOk))
    ensures var s' := Next(s, Step(t, memoryOk));
            Inv(s') && Alone(s', t) && StepsLeft(s'.threads[t]) < StepsLeft(s.threads[t])
  {
    AloneMoves(s, t, memoryOk);
    StepKeepsInv(s, Step(t, memoryOk));
    StepProgress(s, t, memoryOk);
  }

  lemma OneStepMore(s: State, t: nat, memoryOk: bool, m: nat)
    requires Enabled(s, Step(t, memoryOk)) && EndsIn(Next(s, Step(t, memoryOk)), t, memoryOk, m)
    ensures EndsIn(s, t, memoryOk, m + 1)
  {
    var actions := Steps(t, memoryOk, m + 1);
    assert actions[0] == Step(t, memoryOk) && actions[1..] == Steps(t, memoryOk, m);
  }

  /** What the creation meets if the count and the free blocks are those at the start. */
  function Foreseen(d: Shared, memoryOk: bool): Seen {
    Seen(d.count, memoryOk, d.free)
  }

  /** The shared state is as at the start up to the steps that read it. */
  ghost predicate Foretold(d0: Shared, d: Shared, th: Thread, memoryOk: bool, seen: Seen, mode: Mode) {
    if Creates(th) then
      && (th.pc <= READ_COUNT ==> d.count == d0.count)
      && (READ_COUNT < th.pc <= PUBLISH ==> seen.count == d0.count)
      && (th.pc <= TAKE_BLOCK ==> d.free == d0.free)
      && (PREPARE < th.pc <= PUBLISH ==> seen.memory == memoryOk)
      && (TAKE_BLOCK < th.pc <= PUBLISH ==> seen.free == d0.free)
      && (th.pc > PUBLISH ==> !Succeeds(seen, mode) && !Succeeds(Foreseen(d0, memoryOk), mode))
    else
      && (Succeeds(seen, mode) <==> Succeeds(Foreseen(d0, memoryOk), mode))
      && (Succeeds(seen, mode) ==> seen == Foreseen(d0, memoryOk))
  }

  lemma ForetoldNext(d0: Shared, s: State, t: nat, memoryOk: bool, op: Op, seen: Seen)
    requires Tracked(s, t, op, seen) && Enabled(s, Step(t, memoryOk)) && Doing(s, t, op)
    requires Foretold(d0, s.d, s.threads[t], memoryOk, seen, op.mode)
    ensures var s' := Next(s, Step(t, memoryOk));
            Foretold(d0, s'.d, s'.threads[t], memoryOk, Sees(s, Step(t, memoryOk), t, op, seen), op.mode)
  {
    LowestTaken(s.d.free, FreeBlockFrom(s.d.free, FIRST_BLOCK));
  }

  lemma {:induction false} AloneForetold(d0: Shared, s: State, t: nat, memoryOk: bool, n: nat, op: Op, seen: Seen)
    requires OnCourse(d0, s, t, memoryOk, op, seen) && IsRun(s, Steps(t, memoryOk, n))
    ensures OnCourse(d0, After(s, Steps(t, memoryOk, n)), t, memoryOk, op,
                     SeenBy(s, Steps(t, memoryOk, n), t, op, seen))
    decreases n
  {
    if n > 0 {
      var a, rest := Step(t, memoryOk), Steps(t, memoryOk, n - 1);
      assert Steps(t, memoryOk, n)[0] == a && Steps(t, memoryOk, n)[1..] == rest;
      AloneNext(d0, s, t, memoryOk, op, seen);
      AloneForetold(d0, Next(s, a), t, memoryOk, n - 1, op, Sees(s, a, t, op, seen));
    }
  }

  ghost predicate OnCourse(d0: Shared, s: State, t: nat, memoryOk: bool, op: Op, seen: Seen) {
    && Tracked(s, t, op, seen) && (s.threads[t].Busy? ==> s.threads[t].op == op)
    && Foretold(d0, s.d, s.threads[t], memoryOk, seen, op.mode)
  }

  lemma AloneNext(d0: Shared, s: State, t: nat, memoryOk: bool, op: Op, seen: Seen)
    requires OnCourse(d0, s, t, memoryOk, op, seen) && Enabled(s, Step(t, memoryOk))
    ensures OnCourse(d0, Next(s, Step(t, memoryOk)), t, memoryOk, op, Sees(s, Step(t, memoryOk), t, op, seen))
  {
    ForetoldNext(d0, s, t, memoryOk, op, seen);
    OwnTracked(s, Step(t, memoryOk), t, op, seen);
  }

  lemma NoStarts(t: nat, memoryOk: bool, n: nat, op: Op)
    ensures NotStarted(Steps(t, memoryOk, n), op)
  {
    AllSteps(t, memoryOk, n);
  }

  lemma {:induction false} AllSteps(t: nat, memoryOk: bool, n: nat)
    ensures forall k :: 0 <= k < |Steps(t, memoryOk, n)| ==> Steps(t, memoryOk, n)[k] == Step(t, memoryOk)
  {
    if n > 0 {
      AllSteps(t, memoryOk, n - 1);
    }
  }

  /** In a file system at rest a creation comes to its end, and makes the object if and only if there are
      fewer than 64 objects, the mode is proper, memory is granted and a block is free. */
  lemma CreateAlone(s: State, t: nat, op: Op, memoryOk: bool) returns (n: nat)
    requires DataSound(s.d) && s.locks == Locks(None, None, None)
    requires forall u :: 0 <= u < |s.threads| ==> s.threads[u].Idle?
    requires op.Create? && Enabled(s, Start(t, op))
    ensures var actions := [Start(t, op)] + Steps(t, memoryOk, n);
            && IsRun(s, actions) && t < |After(s, actions).threads| && After(s, actions).threads[t].Idle?
            && var d := After(s, actions).d;
               && d.count <= |d.store|
               && (LookupNumber(d, op.dir, op.name).Some? <==>
                     s.d.count < MAX_OBJECTS && op.mode != Other && memoryOk && s.d.free != {})
               && (LookupNumber(d, op.dir, op.name).Some? ==> Made(d, op, Foreseen(s.d, memoryOk)))
  {
    AtRest(s);
    var s1 := Next(s, Start(t, op));
    StepKeepsInv(s, Start(t, op));
    n := AloneEnds(s1, t, memoryOk);
    var steps := Steps(t, memoryOk, n);
    var actions := [Start(t, op)] + steps;
    assert actions[0] == Start(t, op) && actions[1..] == steps;
    BegunTracked(s, t, op);
    AloneForetold(s.d, s1, t, memoryOk, n, op, NOTHING);
    NoStarts(t, memoryOk, n, op);
    CreationExactly(s, steps, t, op);
  }

  // ---------------------------------------------------------------- a write

  /** From setting the size to the end of a write the inode in memory has that size, and once saved so
      has the one in the store. */
  ghost predicate Written(s: State, t: nat)
    requires s.d.count <= |s.d.store|
  {
    t < |s.threads| && WrittenBy(s.d, s.threads[t])
  }

  ghost predicate WrittenBy(d: Shared, th: Thread)
    requires d.count <= |d.store|
  {
    th.Busy? && th.op.Write? && th.pc > SET_SIZE ==>
      && th.op.ino in d.cached && d.cached[th.op.ino].size == th.op.size
      && (th.pc > SAVE ==> Stored(d, d.cached[th.op.ino]))
  }

  /** Another thread leaves what the mutex of sizes and saves guards. */
  lemma GuardedKept(d: Shared, th: Thread, i: nat)
    requires DataSound(d) && PcRight(th) && Local(d, th) && StepDefined(d, th) && !Holds(Mgmt, th) && i in d.cached
    ensures var d' := SharedAfter(d, th);
            i in d'.cached && d'.cached[i] == d.cached[i] && d'.count == d.count && d'.store == d.store
  {
  }

  lemma OwnWritten(d: Shared, th: Thread, memoryOk: bool)
    requires DataSound(d) && PcRight(th) && Local(d, th) && StepDefined(d, th) && th.op.Write?
    requires th.pc > SET_SIZE ==> d.cached[th.op.ino].size == th.op.size
    requires th.pc > SAVE ==> Stored(d, d.cached[th.op.ino])
    ensures var d' := SharedAfter(d, th);
            && th.op.ino in d'.cached && d'.count <= |d'.store|
            && (th.pc >= SET_SIZE ==> d'.cached[th.op.ino].size == th.op.size)
            && (th.pc >= SAVE ==> Stored(d', d'.cached[th.op.ino]))
  {
    if th.pc == SAVE {
      SaveRecords(d, th.op.ino);
    }
  }

  lemma WrittenNext(s: State, a: Action, t: nat)
    requires Inv(s) && Enabled(s, a) && Written(s, t)
    ensures Next(s, a).d.count <= |Next(s, a).d.store| && Written(Next(s, a), t)
  {
    if a.Step? && a.t == t {
      OwnWrittenNext(s.d, s.threads[t], a.memoryOk);
    } else if a.Step? {
      OtherWritten(s, a.t, a.memoryOk, t);
    }
  }

  lemma OwnWrittenNext(d: Shared, th: Thread, memoryOk: bool)
    requires DataSound(d) && PcRight(th) && Local(d, th) && StepDefined(d, th) && WrittenBy(d, th)
    ensures SharedAfter(d, th).count <= |SharedAfter(d, th).store|
    ensures WrittenBy(SharedAfter(d, th), ThreadAfter(d, th, memoryOk))
  {
    if th.op.Write? {
      OwnWritten(d, th, memoryOk);
    } else {
      SharedStep(d, th);
    }
  }

  lemma OtherWritten(s: State, u: nat, memoryOk: bool, t: nat)
    requires Inv(s) && Enabled(s, Step(u, memoryOk)) && Written(s, t) && u != t
    ensures var s' := Next(s, Step(u, memoryOk)); s'.d.count <= |s'.d.store| && Written(s', t)
  {
    SharedStep(s.d, s.threads[u]);
    if s.threads[t].Busy? && s.threads[t].op.Write? && s.threads[t].pc > SET_SIZE {
      LocksExclude(s, t, u);
      assert Holds(Mgmt, s.threads[t]);
      GuardedKept(s.d, s.threads[u], s.threads[t].op.ino);
    }
  }

  lemma {:induction false} RunWritten(s: State, actions: seq<Action>, t: nat)
    requires Inv(s) && Written(s, t) && IsRun(s, actions)
    ensures Inv(After(s, actions)) && Written(After(s, actions), t)
    decreases actions
  {
    if actions != [] {
      StepKeepsInv(s, actions[0]);
      WrittenNext(s, actions[0], t);
      RunWritten(Next(s, actions[0]), actions[1..], t);
    }
  }

  /** When a write ends, the file has the size written, in memory and in the store, whatever other threads
      have done meanwhile. */
  lemma WriteLands(s: State, actions: seq<Action>, t: nat, memoryOk: bool)
    requires Inv(s) && t < |s.threads| && s.threads[t].Idle? && IsRun(s, actions)
    requires var e := After(s, actions);
             && Enabled(e, Step(t, memoryOk)) && e.threads[t].op.Write? && Next(e, Step(t, memoryOk)).threads[t].Idle?
    ensures var e := After(s, actions); var op, d := e.threads[t].op, Next(e, Step(t, memoryOk)).d;
            && op.ino in d.cached && d.cached[op.ino].size == op.size
            && d.count <= |d.store| && Stored(d, d.cached[op.ino])
  {
    RunWritten(s, actions, t);
    var e := After(s, actions);
    OwnWritten(e.d, e.threads[t], memoryOk);
  }
}
