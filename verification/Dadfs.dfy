/** Concurrent object creation and writing in dadfs: three mutexes, a superblock with an object count
    and a free-block bitmap, an inode store, and directory blocks. Threads take their steps in any
    interleaving. */
module Dadfs {
  import opened YieldInterface

  const MAX_OBJECTS: nat := 64
  const FIRST_BLOCK: nat := 3
  const START_INO: nat := 10
  const RESERVED_INODES: nat := 3
  /** How many inodes fit in the block of the inode store. */
  const STORE_SLOTS: nat := 128

  datatype Mode = Directory | Regular | Other

  /** size is the file size, or the number of children of a directory. */
  datatype Inode = Inode(mode: Mode, no: nat, block: nat, size: nat) {

    /** The same object, whatever its size. */
    predicate Same(other: Inode) {
      mode == other.mode && no == other.no && block == other.block
    }
  }

  datatype Record = Record(name: string, ino: nat)

  /** What all threads share: the superblock's count and bitmap, the inode store, the inodes in memory,
      and the records of the directory blocks. */
  datatype Shared = Shared(count: nat, free: set<nat>, store: seq<Inode>, cached: map<nat, Inode>,
                           data: map<nat, seq<Record>>) {

    function Records(block: nat): seq<Record> {
      if block in data then data[block] else []
    }
  }

  // ---------------------------------------------------------------- the scans

  /** dadfs_sb_get_a_freeblock: the lowest free block from i on. */
  function FreeBlockFrom(free: set<nat>, i: nat): Option<nat>
    decreases MAX_OBJECTS - i
  {
    if i >= MAX_OBJECTS then None else if i in free then Some(i) else FreeBlockFrom(free, i + 1)
  }

  /** dadfs_inode_search: the slot of the inode from k on. The slot after the last is compared too. */
  function SearchFrom(store: seq<Inode>, count: nat, no: nat, k: nat): (r: Option<nat>)
    requires k <= count < |store|
    ensures r.Some? ==> k <= r.value <= count && store[r.value].no == no
    ensures forall j :: k <= j < count && store[j].no == no ==> r.Some? && r.value <= j
    decreases count - k
  {
    if store[k].no == no then Some(k) else if k == count then None else SearchFrom(store, count, no, k + 1)
  }

  /** dadfs_get_inode: the stored inode with that number, from slot k on. */
  function GetInodeFrom(store: seq<Inode>, count: nat, no: nat, k: nat): Option<Inode>
    requires k <= count <= |store|
    decreases count - k
  {
    if k == count then None else if store[k].no == no then Some(store[k]) else GetInodeFrom(store, count, no, k + 1)
  }

  /** The inode number of the first of n records with that name. */
  function Match(rs: seq<Record>, n: nat, name: string): Option<nat>
    requires n <= |rs|
  {
    if n == 0 then None
    else
      var m := Match(rs, n - 1, name);
      if m.None? && rs[n - 1].name == name then Some(rs[n - 1].ino) else m
  }

  // ---------------------------------------------------------------- the shared state

  ghost predicate InStore(d: Shared, no: nat)
    requires d.count <= |d.store|
  {
    exists k :: 0 <= k < d.count && d.store[k].no == no
  }

  /** The object is in the store, whatever its size there. */
  ghost predicate HasRecord(d: Shared, i: Inode)
    requires d.count <= |d.store|
  {
    exists k :: 0 <= k < d.count && d.store[k].Same(i)
  }

  /** The inode is in the store as it is. */
  ghost predicate Stored(d: Shared, i: Inode)
    requires d.count <= |d.store|
  {
    exists k :: 0 <= k < d.count && d.store[k] == i
  }

  ghost predicate BlockUnused(d: Shared, block: nat)
    requires d.count <= |d.store|
  {
    block !in d.free && forall k :: 0 <= k < d.count ==> d.store[k].block != block
  }

  /** The number the next object gets. */
  function NextNumber(count: nat): nat {
    count + START_INO - RESERVED_INODES + 1
  }

  /** Numbers are unique and below the next one; blocks are unique and not free; free blocks lie where
      the scan starts and within the range of an int shift; at most 64 objects. */
  ghost predicate StoreSound(d: Shared) {
    && d.count <= MAX_OBJECTS && |d.store| == STORE_SLOTS
    && (forall b :: b in d.free ==> FIRST_BLOCK <= b < 31)
    && (forall k {:trigger d.store[k]} :: 0 <= k < d.count ==>
          d.store[k].no < NextNumber(d.count) && d.store[k].block !in d.free)
    && (forall j, k {:trigger d.store[j], d.store[k]} :: 0 <= j < k < d.count ==>
          d.store[j].no != d.store[k].no && d.store[j].block != d.store[k].block)
  }

  /** Every inode in memory is in the store, and a directory's records name stored inodes. */
  ghost predicate CacheSound(d: Shared)
    requires d.count <= |d.store|
  {
    forall i {:trigger d.cached[i]} :: i in d.cached ==>
      && d.cached[i].no == i && HasRecord(d, d.cached[i])
      && (d.cached[i].mode == Directory ==> RecordsStored(d, d.cached[i].block, d.cached[i].size))
  }

  ghost predicate RecordsStored(d: Shared, block: nat, size: nat)
    requires d.count <= |d.store|
  {
    size <= |d.Records(block)| && forall k :: 0 <= k < size ==> InStore(d, d.Records(block)[k].ino)
  }

  ghost predicate DataSound(d: Shared) {
    StoreSound(d) && CacheSound(d)
  }

  /** dadfs_lookup: the inode number a directory has for a name. */
  function LookupNumber(d: Shared, dir: nat, name: string): Option<nat> {
    if dir in d.cached && d.cached[dir].size <= |d.Records(d.cached[dir].block)|
    then Match(d.Records(d.cached[dir].block), d.cached[dir].size, name)
    else None
  }

  /** Two inodes in memory have different blocks. */
  lemma BlocksDiffer(d: Shared, i: nat, j: nat)
    requires DataSound(d) && i in d.cached && j in d.cached && i != j
    ensures d.cached[i].block != d.cached[j].block
  {
    var k :| 0 <= k < d.count && d.store[k].Same(d.cached[i]);
    var l :| 0 <= l < d.count && d.store[l].Same(d.cached[j]);
  }

  lemma {:induction false} MatchPrefix(rs: seq<Record>, rs': seq<Record>, n: nat, name: string)
    requires n <= |rs| && n <= |rs'| && forall k :: 0 <= k < n ==> rs[k] == rs'[k]
    ensures Match(rs, n, name) == Match(rs', n, name)
  {
    if n > 0 {
      MatchPrefix(rs, rs', n - 1, name);
    }
  }

  // ---------------------------------------------------------------- threads

  /** A thread creates an object or rewrites the size of a file. */
  datatype Op = Create(dir: nat, name: string, mode: Mode) | Write(ino: nat, size: nat)

  /** Where a thread stands in its operation; the count it has read and the inode it prepares. */
  datatype Thread = Idle | Busy(op: Op, pc: nat, count: nat, inode: Inode)

  // The steps of dadfs_create_fs_object, with those of the functions it calls.
  const LOCK_CHILDREN: nat := 0
  const LOCK_MGMT_COUNT: nat := 1
  const READ_COUNT: nat := 2
  const UNLOCK_MGMT_COUNT: nat := 3
  const PREPARE: nat := 4
  const LOCK_SB_BLOCK: nat := 5
  const TAKE_BLOCK: nat := 6
  const UNLOCK_SB_BLOCK: nat := 7
  const LOCK_MGMT_ADD: nat := 8
  const LOCK_SB_ADD: nat := 9
  const APPEND: nat := 10
  const UNLOCK_SB_ADD: nat := 11
  const UNLOCK_MGMT_ADD: nat := 12
  const WRITE_RECORD: nat := 13
  const LOCK_MGMT_GROW: nat := 14
  const GROW: nat := 15
  const LOCK_SB_SAVE: nat := 16
  const SAVE: nat := 17
  const UNLOCK_SB_SAVE: nat := 18
  const UNLOCK_MGMT_SAVE: nat := 19
  const UNLOCK_CHILDREN: nat := 20
  const PUBLISH: nat := 21
  const FAIL_UNLOCK_SB: nat := 22
  const FAIL_UNLOCK_CHILDREN: nat := 23

  // The steps of dadfs_write; it saves the inode as a creation does.
  const LOCK_MGMT_SIZE: nat := 14
  const SET_SIZE: nat := 15

  datatype Mutex = Children | Mgmt | Sb

  datatype Locks = Locks(children: Option<nat>, mgmt: Option<nat>, sb: Option<nat>)

  datatype State = State(d: Shared, locks: Locks, threads: seq<Thread>)

  predicate Creates(th: Thread) {
    th.Busy? && th.op.Create?
  }

  /** Which mutex a thread holds at which steps. */
  predicate Holds(m: Mutex, th: Thread) {
    match m
    case Children =>
      Creates(th) && (LOCK_MGMT_COUNT <= th.pc <= UNLOCK_CHILDREN || FAIL_UNLOCK_SB <= th.pc <= FAIL_UNLOCK_CHILDREN)
    case Mgmt =>
      th.Busy? && (READ_COUNT <= th.pc <= UNLOCK_MGMT_COUNT || LOCK_SB_ADD <= th.pc <= UNLOCK_MGMT_ADD
                   || GROW <= th.pc <= UNLOCK_MGMT_SAVE)
    case Sb =>
      th.Busy? && (TAKE_BLOCK <= th.pc <= UNLOCK_SB_BLOCK || APPEND <= th.pc <= UNLOCK_SB_ADD
                   || SAVE <= th.pc <= UNLOCK_SB_SAVE || th.pc == FAIL_UNLOCK_SB)
  }

  /** The mutex a thread's next step takes. */
  function Wants(th: Thread): Option<Mutex> {
    if th.Idle? then None
    else if Creates(th) && th.pc == LOCK_CHILDREN then Some(Children)
    else if th.pc == LOCK_MGMT_COUNT || th.pc == LOCK_MGMT_ADD || th.pc == LOCK_MGMT_GROW then Some(Mgmt)
    else if th.pc == LOCK_SB_BLOCK || th.pc == LOCK_SB_ADD || th.pc == LOCK_SB_SAVE then Some(Sb)
    else None
  }

  function Holder(locks: Locks, m: Mutex): Option<nat> {
    match m
    case Children => locks.children
    case Mgmt => locks.mgmt
    case Sb => locks.sb
  }

  /** A thread waits only for a mutex that another holds. */
  predicate MayStep(locks: Locks, th: Thread) {
    th.Busy? && (Wants(th).Some? ==> Holder(locks, Wants(th).value).None?)
  }

  /** The locks after a thread went from one position to the next. */
  function LocksAfter(locks: Locks, t: nat, before: Thread, after: Thread): Locks {
    Locks(Moved(Children, locks.children, t, before, after),
          Moved(Mgmt, locks.mgmt, t, before, after),
          Moved(Sb, locks.sb, t, before, after))
  }

  function Moved(m: Mutex, holder: Option<nat>, t: nat, before: Thread, after: Thread): Option<nat> {
    if Holds(m, before) == Holds(m, after) then holder else if Holds(m, after) then Some(t) else None
  }

  /** The inode whose size in the store a thread has yet to bring up to date. */
  function DirtyInode(th: Thread): Option<nat> {
    if th.Busy? && LOCK_SB_SAVE <= th.pc <= SAVE
    then Some(SavedInode(th))
    else None
  }

  /** The inode dadfs_inode_save is called for. */
  function SavedInode(th: Thread): nat
    requires th.Busy?
  {
    if th.op.Create? then th.op.dir else th.op.ino
  }

  function WithSize(d: Shared, i: nat, size: nat): Shared
    requires i in d.cached
  {
    d.(cached := d.cached[i := d.cached[i].(size := size)])
  }

  /** dadfs_inode_save: the inode in memory goes to its slot, if it has one. */
  function Saved(d: Shared, i: nat): Shared
    requires i in d.cached && d.count < |d.store|
  {
    var slot := SearchFrom(d.store, d.count, i, 0);
    if slot.Some? then d.(store := d.store[slot.value := d.cached[i]]) else d
  }

  function WriteAt(rs: seq<Record>, i: nat, r: Record): seq<Record> {
    if i < |rs| then rs[i := r] else rs + [r]
  }

  /** The record of the new object goes after those of its directory. */
  function WithRecord(d: Shared, dir: nat, r: Record): Shared
    requires dir in d.cached
  {
    var b := d.cached[dir].block;
    d.(data := d.data[b := WriteAt(d.Records(b), d.cached[dir].size, r)])
  }

  /** The inode is copied to the slot after the last and the count goes up. */
  function Appended(d: Shared, i: Inode): Shared
    requires d.count < |d.store|
  {
    d.(store := d.store[d.count := i], count := d.count + 1)
  }

  /** What a step's access to the shared state needs. */
  ghost predicate StepDefined(d: Shared, th: Thread) {
    th.Busy? &&
    match th.op
    case Create(dir, _, _) => dir in d.cached && d.count < |d.store|
    case Write(ino, _) => ino in d.cached && d.count < |d.store|
  }

  function SharedAfter(d: Shared, th: Thread): Shared
    requires StepDefined(d, th)
  {
    match th.op
    case Create(dir, name, _) =>
      if th.pc == TAKE_BLOCK then
        (match FreeBlockFrom(d.free, FIRST_BLOCK)
         case None => d
         case Some(b) => d.(free := d.free - {b}))
      else if th.pc == APPEND then Appended(d, th.inode)
      else if th.pc == WRITE_RECORD then WithRecord(d, dir, Record(name, th.inode.no))
      else if th.pc == GROW then WithSize(d, dir, d.cached[dir].size + 1)
      else if th.pc == SAVE then Saved(d, dir)
      else if th.pc == PUBLISH then d.(cached := d.cached[th.inode.no := th.inode])
      else d
    case Write(ino, size) =>
      if th.pc == SET_SIZE then WithSize(d, ino, size)
      else if th.pc == SAVE then Saved(d, ino)
      else d
  }

  function ThreadAfter(d: Shared, th: Thread, memoryOk: bool): Thread
    requires StepDefined(d, th)
  {
    match th.op
    case Create(_, _, mode) =>
      if th.pc == READ_COUNT then th.(pc := UNLOCK_MGMT_COUNT, count := d.count)
      else if th.pc == PREPARE then
        if th.count >= MAX_OBJECTS || mode == Other || !memoryOk then th.(pc := FAIL_UNLOCK_CHILDREN)
        else th.(pc := LOCK_SB_BLOCK, inode := Inode(mode, NextNumber(th.count), th.inode.block, 0))
      else if th.pc == TAKE_BLOCK then
        (match FreeBlockFrom(d.free, FIRST_BLOCK)
         case None => th.(pc := FAIL_UNLOCK_SB)
         case Some(b) => th.(pc := UNLOCK_SB_BLOCK, inode := th.inode.(block := b)))
      else if th.pc == PUBLISH || th.pc >= FAIL_UNLOCK_CHILDREN then Idle
      else th.(pc := th.pc + 1)
    case Write(_, _) =>
      if th.pc >= UNLOCK_MGMT_SAVE then Idle else th.(pc := th.pc + 1)
  }

  /** A thread begins an operation, or makes its next step. */
  datatype Action = Start(t: nat, op: Op) | Step(t: nat, memoryOk: bool)

  /** Names are not repeated: a creation starts only for a name its directory does not have and no
      other thread is creating. */
  ghost predicate MayStart(s: State, t: nat, op: Op) {
    match op
    case Create(dir, name, _) =>
      && dir in s.d.cached && s.d.cached[dir].mode == Directory && LookupNumber(s.d, dir, name).None?
      && forall u {:trigger s.threads[u]} :: 0 <= u < |s.threads| && u != t && Creates(s.threads[u]) ==>
           !(s.threads[u].op.dir == dir && s.threads[u].op.name == name)
    case Write(ino, _) => ino in s.d.cached && s.d.cached[ino].mode == Regular
  }

  ghost predicate Enabled(s: State, a: Action) {
    a.t < |s.threads| &&
    match a
    case Start(t, op) => s.threads[t].Idle? && MayStart(s, t, op)
    case Step(t, _) => StepDefined(s.d, s.threads[t]) && MayStep(s.locks, s.threads[t])
  }

  function Begun(op: Op): Thread {
    Busy(op, if op.Create? then LOCK_CHILDREN else LOCK_MGMT_SIZE, 0, Inode(Other, 0, 0, 0))
  }

  ghost function Next(s: State, a: Action): State
    requires Enabled(s, a)
  {
    match a
    case Start(t, op) => s.(threads := s.threads[t := Begun(op)])
    case Step(t, memoryOk) =>
      var th := s.threads[t];
      var th' := ThreadAfter(s.d, th, memoryOk);
      State(SharedAfter(s.d, th), LocksAfter(s.locks, t, th, th'), s.threads[t := th'])
  }

  // ---------------------------------------------------------------- locks

  /** Each mutex is held by exactly the threads at its steps, hence by one at most. */
  ghost predicate LocksRight(s: State) {
    && LockRight(Children, s.locks.children, s.threads)
    && LockRight(Mgmt, s.locks.mgmt, s.threads)
    && LockRight(Sb, s.locks.sb, s.threads)
  }

  ghost predicate LockRight(m: Mutex, holder: Option<nat>, threads: seq<Thread>) {
    && (holder.Some? ==> holder.value < |threads| && Holds(m, threads[holder.value]))
    && forall t {:trigger threads[t]} :: 0 <= t < |threads| && Holds(m, threads[t]) ==> holder == Some(t)
  }

  /** A thread stands at a step of its operation. */
  predicate PcRight(th: Thread) {
    th.Busy? ==> if th.op.Create? then th.pc <= FAIL_UNLOCK_CHILDREN else LOCK_MGMT_SIZE <= th.pc <= UNLOCK_MGMT_SAVE
  }

  /** A step that begins to hold a mutex is one that waited for it. */
  lemma TakesOnlyWanted(d: Shared, th: Thread, memoryOk: bool, m: Mutex)
    requires StepDefined(d, th) && PcRight(th)
    ensures PcRight(ThreadAfter(d, th, memoryOk))
    ensures !Holds(m, th) && Holds(m, ThreadAfter(d, th, memoryOk)) ==> Wants(th) == Some(m)
  {
  }

  lemma LockStep(s: State, t: nat, memoryOk: bool, m: Mutex)
    requires Enabled(s, Step(t, memoryOk)) && PcRight(s.threads[t]) && LockRight(m, Holder(s.locks, m), s.threads)
    ensures var s' := Next(s, Step(t, memoryOk)); LockRight(m, Holder(s'.locks, m), s'.threads)
  {
    TakesOnlyWanted(s.d, s.threads[t], memoryOk, m);
  }

  lemma LocksStep(s: State, a: Action)
    requires Enabled(s, a) && LocksRight(s) && PcRight(s.threads[a.t])
    ensures LocksRight(Next(s, a)) && PcRight(Next(s, a).threads[a.t])
  {
    if a.Step? {
      TakesOnlyWanted(s.d, s.threads[a.t], a.memoryOk, Sb);
      LockStep(s, a.t, a.memoryOk, Children);
      LockStep(s, a.t, a.memoryOk, Mgmt);
      LockStep(s, a.t, a.memoryOk, Sb);
    }
  }

  /** The lock order children < mgmt < sb rules out a deadlock: while some thread is busy, a busy
      thread can make its step. */
  lemma SomeThreadMoves(s: State, t: nat)
    requires LocksRight(s) && t < |s.threads| && s.threads[t].Busy?
    requires forall u :: 0 <= u < |s.threads| && s.threads[u].Busy? ==>
              StepDefined(s.d, s.threads[u]) && PcRight(s.threads[u])
    ensures exists u :: 0 <= u < |s.threads| && s.threads[u].Busy? && Enabled(s, Step(u, true))
  {
    var u := if s.locks.sb.Some? then s.locks.sb.value
             else if s.locks.mgmt.Some? then s.locks.mgmt.value
             else if s.locks.children.Some? then s.locks.children.value
             else t;
    assert Enabled(s, Step(u, true));
  }

  // ---------------------------------------------------------------- what each thread relies on

  /** The record to be counted next is already written. */
  ghost predicate RecordReady(d: Shared, dir: nat, r: Record)
    requires dir in d.cached
  {
    var rs := d.Records(d.cached[dir].block);
    d.cached[dir].size < |rs| && rs[d.cached[dir].size] == r
  }

  /** What a thread knows at its step. From reading the count to appending its inode the count is
      current; from taking a block to appending, the block is nobody else's; the name is not in the
      directory until the directory grows, and then stands for the new object. */
  ghost predicate Local(d: Shared, th: Thread)
    requires d.count <= |d.store|
  {
    th.Busy? ==>
      match th.op
      case Write(ino, _) => ino in d.cached && d.cached[ino].mode == Regular
      case Create(dir, name, mode) =>
        && dir in d.cached && d.cached[dir].mode == Directory
        && (UNLOCK_MGMT_COUNT <= th.pc <= APPEND ==> th.count == d.count)
        && (LOCK_SB_BLOCK <= th.pc <= PUBLISH ==> th.inode.size == 0 && th.inode.mode == mode && mode != Other)
        && (LOCK_SB_BLOCK <= th.pc <= APPEND ==> th.count < MAX_OBJECTS && th.inode.no == NextNumber(th.count))
        && (UNLOCK_SB_BLOCK <= th.pc <= APPEND ==> BlockUnused(d, th.inode.block))
        && (UNLOCK_SB_ADD <= th.pc <= PUBLISH ==> Stored(d, th.inode) && th.inode.no !in d.cached)
        && (LOCK_MGMT_GROW <= th.pc <= GROW ==> RecordReady(d, dir, Record(name, th.inode.no)))
        && LookupNumber(d, dir, name) == if LOCK_SB_SAVE <= th.pc <= PUBLISH then Some(th.inode.no) else None
  }

  /** Two threads do not create the same name, and the objects they have appended differ. */
  ghost predicate Apart(th: Thread, other: Thread) {
    Creates(th) && Creates(other) ==>
      && !(th.op.dir == other.op.dir && th.op.name == other.op.name)
      && (UNLOCK_SB_ADD <= th.pc <= PUBLISH && UNLOCK_SB_ADD <= other.pc <= PUBLISH ==> th.inode.no != other.inode.no)
  }

  ghost predicate ThreadsSound(d: Shared, threads: seq<Thread>)
    requires d.count <= |d.store|
  {
    && (forall t {:trigger threads[t]} :: 0 <= t < |threads| ==> PcRight(threads[t]) && Local(d, threads[t]))
    && forall t, u {:trigger threads[t], threads[u]} :: 0 <= t < |threads| && 0 <= u < |threads| && t != u ==>
         Apart(threads[t], threads[u])
  }

  /** The invariant of every run. */
  ghost predicate Inv(s: State) {
    LocksRight(s) && DataSound(s.d) && ThreadsSound(s.d, s.threads)
  }

  /** The names of directories that stay: d' answers every lookup as d does. */
  ghost predicate SameNames(d: Shared, d': Shared) {
    forall dir, name {:trigger LookupNumber(d', dir, name)} ::
      dir in d.cached && d.cached[dir].mode == Directory ==> LookupNumber(d', dir, name) == LookupNumber(d, dir, name)
  }

  /** Inodes in memory and in the store stay what they are, up to their size. */
  ghost predicate SameObjects(d: Shared, d': Shared) {
    && (forall i {:trigger d'.cached[i]} {:trigger d.cached[i]} :: i in d.cached ==>
          i in d'.cached && d'.cached[i].Same(d.cached[i]))
    && d.count <= d'.count && |d'.store| == |d.store|
    && forall k {:trigger d'.store[k]} {:trigger d.store[k]} :: 0 <= k < d.count < |d.store| ==>
      d'.store[k].Same(d.store[k])
  }

  // ---------------------------------------------------------------- taking a block

  lemma {:induction false} FreeBlockFound(free: set<nat>, i: nat)
    requires i <= MAX_OBJECTS
    ensures var r := FreeBlockFrom(free, i);
            && (r.Some? ==> i <= r.value < MAX_OBJECTS && r.value in free
                            && forall b :: i <= b < r.value ==> b !in free)
            && (r.None? ==> forall b :: i <= b < MAX_OBJECTS ==> b !in free)
    decreases MAX_OBJECTS - i
  {
    if i < MAX_OBJECTS && i !in free {
      FreeBlockFound(free, i + 1);
    }
  }

  /** The store only grows. */
  ghost predicate StoreGrows(d: Shared, d': Shared) {
    && d.count <= d'.count <= |d.store| == |d'.store|
    && forall k {:trigger d'.store[k]} :: 0 <= k < d.count ==> d'.store[k] == d.store[k]
  }

  lemma RecordsKept(d: Shared, d': Shared)
    requires StoreGrows(d, d')
    ensures forall i {:trigger HasRecord(d', i)} :: HasRecord(d, i) ==> HasRecord(d', i)
    ensures forall i {:trigger Stored(d', i)} :: Stored(d, i) ==> Stored(d', i)
    ensures forall no {:trigger InStore(d', no)} :: InStore(d, no) ==> InStore(d', no)
  {
    forall i {:trigger HasRecord(d', i)} | HasRecord(d, i)
      ensures HasRecord(d', i)
    {
      var k :| 0 <= k < d.count && d.store[k].Same(i);
      assert d'.store[k].Same(i);
    }
    forall i {:trigger Stored(d', i)} | Stored(d, i)
      ensures Stored(d', i)
    {
      var k :| 0 <= k < d.count && d.store[k] == i;
      assert d'.store[k] == i;
    }
    forall no {:trigger InStore(d', no)} | InStore(d, no)
      ensures InStore(d', no)
    {
      var k :| 0 <= k < d.count && d.store[k].no == no;
      assert d'.store[k].no == no;
    }
  }

  /** The block taken was free and is now nobody else's. */
  lemma TakeBlockSound(d: Shared, b: nat)
    requires DataSound(d) && b in d.free
    ensures var d' := d.(free := d.free - {b});
            DataSound(d') && BlockUnused(d', b) && SameNames(d, d') && SameObjects(d, d')
  {
    RecordsKept(d, d.(free := d.free - {b}));
  }

  lemma TakeBlockKeeps(d: Shared, b: nat, other: Thread)
    requires d.count <= |d.store| && Local(d, other)
    ensures Local(d.(free := d.free - {b}), other)
  {
    RecordsKept(d, d.(free := d.free - {b}));
  }

  // ---------------------------------------------------------------- appending an inode

  /** The numbers of inodes in memory are below the next one. */
  lemma CachedBelowNext(d: Shared, i: nat)
    requires DataSound(d) && i in d.cached
    ensures i < NextNumber(d.count)
  {
    var k :| 0 <= k < d.count && d.store[k].Same(d.cached[i]);
  }

  lemma AppendSound(d: Shared, i: Inode)
    requires DataSound(d) && d.count < MAX_OBJECTS && i.no == NextNumber(d.count) && BlockUnused(d, i.block)
    ensures DataSound(Appended(d, i)) && StoreGrows(d, Appended(d, i))
    ensures Stored(Appended(d, i), i) && i.no !in d.cached
    ensures SameNames(d, Appended(d, i)) && SameObjects(d, Appended(d, i))
  {
    RecordsKept(d, Appended(d, i));
    assert Appended(d, i).store[d.count] == i;
    if i.no in d.cached {
      CachedBelowNext(d, i.no);
    }
  }

  /** A thread that does not hold the children mutex is not disturbed. */
  lemma AppendKeeps(d: Shared, i: Inode, other: Thread)
    requires DataSound(d) && d.count < MAX_OBJECTS && i.no == NextNumber(d.count) && BlockUnused(d, i.block)
    requires PcRight(other) && Local(d, other) && !Holds(Children, other)
    ensures Local(Appended(d, i), other)
  {
    RecordsKept(d, Appended(d, i));
    AppendSound(d, i);
  }

  /** The new object's number is not that of an object appended before. */
  lemma AppendNumberNew(d: Shared, i: Inode, other: Inode)
    requires DataSound(d) && i.no == NextNumber(d.count) && Stored(d, other)
    ensures i.no != other.no
  {
    var k :| 0 <= k < d.count && d.store[k] == other;
  }

  // ---------------------------------------------------------------- writing a record

  lemma RecordsBefore(d: Shared, dir: nat, r: Record, i: nat)
    requires DataSound(d) && dir in d.cached && d.cached[dir].mode == Directory
    requires i in d.cached && d.cached[i].mode == Directory
    ensures var d' := WithRecord(d, dir, r);
            var b := d.cached[i].block;
            && |d'.Records(b)| >= |d.Records(b)| && d.cached[i].size <= |d.Records(b)|
            && (forall k :: 0 <= k < d.cached[i].size ==> d'.Records(b)[k] == d.Records(b)[k])
            && (i != dir ==> d'.Records(b) == d.Records(b))
  {
    if i != dir {
      BlocksDiffer(d, i, dir);
    }
  }

  /** Writing past a directory's records changes no lookup and no thread's knowledge. */
  lemma WriteRecordSound(d: Shared, dir: nat, r: Record)
    requires DataSound(d) && dir in d.cached && d.cached[dir].mode == Directory
    ensures DataSound(WithRecord(d, dir, r)) && RecordReady(WithRecord(d, dir, r), dir, r)
    ensures SameNames(d, WithRecord(d, dir, r)) && SameObjects(d, WithRecord(d, dir, r))
  {
    var d' := WithRecord(d, dir, r);
    RecordsKept(d, d');
    forall i | i in d.cached && d.cached[i].mode == Directory
      ensures d.cached[i].size <= |d'.Records(d.cached[i].block)|
      ensures forall k :: 0 <= k < d.cached[i].size ==> InStore(d', d'.Records(d.cached[i].block)[k].ino)
    {
      RecordsBefore(d, dir, r, i);
    }
    forall i, name {:trigger LookupNumber(d', i, name)} | i in d.cached && d.cached[i].mode == Directory
      ensures LookupNumber(d', i, name) == LookupNumber(d, i, name)
    {
      RecordsBefore(d, dir, r, i);
      MatchPrefix(d.Records(d.cached[i].block), d'.Records(d.cached[i].block), d.cached[i].size, name);
    }
  }

  lemma WriteRecordKeeps(d: Shared, dir: nat, r: Record, other: Thread)
    requires DataSound(d) && dir in d.cached && d.cached[dir].mode == Directory
    requires PcRight(other) && Local(d, other) && !(Creates(other) && LOCK_MGMT_GROW <= other.pc <= GROW)
    ensures Local(WithRecord(d, dir, r), other)
  {
    WriteRecordSound(d, dir, r);
    RecordsKept(d, WithRecord(d, dir, r));
  }

  // ---------------------------------------------------------------- sizes

  lemma ResizeRecords(d: Shared, i: nat, size: nat)
    requires d.count <= |d.store| && i in d.cached
    ensures var d' := WithSize(d, i, size);
            && StoreGrows(d, d') && SameObjects(d, d')
            && (HasRecord(d, d.cached[i]) ==> HasRecord(d', d'.cached[i]))
            && (forall j {:trigger HasRecord(d', j)} :: HasRecord(d, j) ==> HasRecord(d', j))
            && (forall j {:trigger Stored(d', j)} :: Stored(d, j) ==> Stored(d', j))
            && (forall no {:trigger InStore(d', no)} :: InStore(d, no) ==> InStore(d', no))
  {
    var d' := WithSize(d, i, size);
    RecordsKept(d, d');
    if HasRecord(d, d.cached[i]) {
      var k :| 0 <= k < d.count && d.store[k].Same(d.cached[i]);
      assert d'.store[k].Same(d'.cached[i]);
    }
  }

  /** A size may change to what a directory has records for. */
  lemma ResizeSound(d: Shared, i: nat, size: nat)
    requires DataSound(d) && i in d.cached
    requires d.cached[i].mode == Directory ==> RecordsStored(d, d.cached[i].block, size)
    ensures DataSound(WithSize(d, i, size)) && SameObjects(d, WithSize(d, i, size))
  {
    ResizeRecords(d, i, size);
  }

  /** A file's size is nothing to the directories. */
  lemma SetSizeNames(d: Shared, i: nat, size: nat)
    requires DataSound(d) && i in d.cached && d.cached[i].mode == Regular
    ensures SameNames(d, WithSize(d, i, size))
  {
  }

  lemma SetSizeKeeps(d: Shared, i: nat, size: nat, other: Thread)
    requires DataSound(d) && i in d.cached && d.cached[i].mode == Regular && Local(d, other)
    ensures Local(WithSize(d, i, size), other)
  {
    SetSizeNames(d, i, size);
    ResizeRecords(d, i, size);
  }

  // ---------------------------------------------------------------- growing a directory

  /** The directory answers for one more name; nothing else changes. */
  lemma GrowNames(d: Shared, dir: nat, r: Record)
    requires DataSound(d) && dir in d.cached && d.cached[dir].mode == Directory
    requires RecordReady(d, dir, r) && LookupNumber(d, dir, r.name).None?
    ensures var d' := WithSize(d, dir, d.cached[dir].size + 1);
            forall i, name {:trigger LookupNumber(d', i, name)} :: i in d.cached && d.cached[i].mode == Directory ==>
              LookupNumber(d', i, name) == if i == dir && name == r.name then Some(r.ino) else LookupNumber(d, i, name)
  {
    var d' := WithSize(d, dir, d.cached[dir].size + 1);
    forall i, name {:trigger LookupNumber(d', i, name)} | i in d.cached && d.cached[i].mode == Directory
      ensures LookupNumber(d', i, name) == if i == dir && name == r.name then Some(r.ino) else LookupNumber(d, i, name)
    {
      GrowLookup(d, dir, r, d', i, name);
    }
  }

  lemma GrowLookup(d: Shared, dir: nat, r: Record, d': Shared, i: nat, name: string)
    requires dir in d.cached && RecordReady(d, dir, r) && LookupNumber(d, dir, r.name).None? && i in d.cached
    requires d' == WithSize(d, dir, d.cached[dir].size + 1)
    ensures LookupNumber(d', i, name) == if i == dir && name == r.name then Some(r.ino) else LookupNumber(d, i, name)
  {
    assert i != dir ==> d'.cached[i] == d.cached[i];
  }

  lemma OneMoreStored(d: Shared, block: nat, size: nat, r: Record)
    requires d.count <= |d.store| && RecordsStored(d, block, size) && InStore(d, r.ino)
    requires size < |d.Records(block)| && d.Records(block)[size] == r
    ensures RecordsStored(d, block, size + 1)
  {
  }

  lemma GrowSound(d: Shared, dir: nat, r: Record)
    requires DataSound(d) && dir in d.cached && d.cached[dir].mode == Directory
    requires RecordReady(d, dir, r) && InStore(d, r.ino)
    ensures var d' := WithSize(d, dir, d.cached[dir].size + 1); DataSound(d') && SameObjects(d, d')
  {
    OneMoreStored(d, d.cached[dir].block, d.cached[dir].size, r);
    ResizeSound(d, dir, d.cached[dir].size + 1);
  }

  lemma GrowKeeps(d: Shared, dir: nat, r: Record, other: Thread)
    requires DataSound(d) && dir in d.cached && d.cached[dir].mode == Directory
    requires RecordReady(d, dir, r) && LookupNumber(d, dir, r.name).None?
    requires PcRight(other) && Local(d, other) && !Holds(Children, other)
    requires Creates(other) ==> !(other.op.dir == dir && other.op.name == r.name)
    ensures Local(WithSize(d, dir, d.cached[dir].size + 1), other)
  {
    GrowNames(d, dir, r);
    ResizeRecords(d, dir, d.cached[dir].size + 1);
  }

  // ---------------------------------------------------------------- saving an inode

  /** The inode goes to its own slot. */
  lemma SaveSlot(d: Shared, i: nat) returns (k: nat)
    requires DataSound(d) && i in d.cached
    ensures k < d.count && d.store[k].Same(d.cached[i]) && SearchFrom(d.store, d.count, i, 0) == Some(k)
    ensures Saved(d, i) == d.(store := d.store[k := d.cached[i]])
  {
    k :| 0 <= k < d.count && d.store[k].Same(d.cached[i]);
    var r := SearchFrom(d.store, d.count, i, 0);
    assert r.Some? && r.value <= k && d.store[r.value].no == d.store[k].no;
  }

  lemma SaveRecords(d: Shared, i: nat)
    requires DataSound(d) && i in d.cached
    ensures var d' := Saved(d, i);
            && SameObjects(d, d') && Stored(d', d.cached[i])
            && (forall j {:trigger HasRecord(d', j)} :: HasRecord(d, j) ==> HasRecord(d', j))
            && (forall j {:trigger Stored(d', j)} :: Stored(d, j) && j.no != i ==> Stored(d', j))
            && (forall no {:trigger InStore(d', no)} :: InStore(d, no) ==> InStore(d', no))
  {
    var d' := Saved(d, i);
    var s := SaveSlot(d, i);
    assert d'.store[s] == d.cached[i];
    forall j {:trigger HasRecord(d', j)} | HasRecord(d, j)
      ensures HasRecord(d', j)
    {
      var k :| 0 <= k < d.count && d.store[k].Same(j);
      assert d'.store[k].Same(j);
    }
    forall j {:trigger Stored(d', j)} | Stored(d, j) && j.no != i
      ensures Stored(d', j)
    {
      var k :| 0 <= k < d.count && d.store[k] == j;
      assert d'.store[k] == j;
    }
    forall no {:trigger InStore(d', no)} | InStore(d, no)
      ensures InStore(d', no)
    {
      var k :| 0 <= k < d.count && d.store[k].no == no;
      assert d'.store[k].no == no;
    }
  }

  lemma SaveNames(d: Shared, i: nat)
    requires DataSound(d) && i in d.cached
    ensures SameNames(d, Saved(d, i)) && Saved(d, i).count == d.count && Saved(d, i).free == d.free
    ensures Saved(d, i).cached == d.cached && Saved(d, i).data == d.data
  {
  }

  lemma SaveSound(d: Shared, i: nat)
    requires DataSound(d) && i in d.cached
    ensures DataSound(Saved(d, i))
  {
    SaveRecords(d, i);
    var s := SaveSlot(d, i);
    SaveNames(d, i);
  }

  lemma SaveKeeps(d: Shared, i: nat, other: Thread)
    requires DataSound(d) && i in d.cached && Local(d, other)
    ensures Local(Saved(d, i), other)
  {
    SaveNames(d, i);
    SaveRecords(d, i);
    var s := SaveSlot(d, i);
  }

  // ---------------------------------------------------------------- publishing an inode

  lemma PublishSound(d: Shared, i: Inode)
    requires DataSound(d) && Stored(d, i) && i.no !in d.cached && i.size == 0
    ensures DataSound(d.(cached := d.cached[i.no := i]))
  {
    var d' := d.(cached := d.cached[i.no := i]);
    RecordsKept(d, d');
    var k :| 0 <= k < d.count && d.store[k] == i;
    assert d'.store[k].Same(i);
  }

  lemma PublishNames(d: Shared, i: Inode)
    requires i.no !in d.cached
    ensures var d' := d.(cached := d.cached[i.no := i]); SameNames(d, d') && SameObjects(d, d')
  {
  }

  lemma PublishKeeps(d: Shared, i: Inode, other: Thread)
    requires DataSound(d) && Stored(d, i) && i.no !in d.cached && i.size == 0 && Local(d, other)
    requires Creates(other) && UNLOCK_SB_ADD <= other.pc <= PUBLISH ==> other.inode.no != i.no
    ensures Local(d.(cached := d.cached[i.no := i]), other)
  {
    PublishNames(d, i);
    RecordsKept(d, d.(cached := d.cached[i.no := i]));
  }

  // ---------------------------------------------------------------- every step

  /** The lookups after a step: one more name when a directory grows, else the same. */
  ghost predicate NamesAfter(d: Shared, d': Shared, th: Thread) {
    forall dir, name {:trigger LookupNumber(d', dir, name)} ::
      dir in d.cached && d.cached[dir].mode == Directory ==>
        LookupNumber(d', dir, name)
        == if Creates(th) && th.pc == GROW && dir == th.op.dir && name == th.op.name then Some(th.inode.no)
           else LookupNumber(d, dir, name)
  }

  lemma StoredIsInStore(d: Shared, i: Inode)
    requires d.count <= |d.store| && Stored(d, i)
    ensures InStore(d, i.no)
  {
    var k :| 0 <= k < d.count && d.store[k] == i;
    assert d.store[k].no == i.no;
  }

  /** A change that no lookup notices. */
  ghost predicate Quiet(d: Shared, d': Shared) {
    DataSound(d') && SameNames(d, d') && SameObjects(d, d')
  }

  lemma SaveQuiet(d: Shared, i: nat)
    requires DataSound(d) && i in d.cached
    ensures Quiet(d, Saved(d, i))
  {
    SaveSound(d, i);
    SaveNames(d, i);
    SaveRecords(d, i);
  }

  lemma CreateQuiet(d: Shared, th: Thread)
    requires DataSound(d) && PcRight(th) && Local(d, th) && StepDefined(d, th) && Creates(th) && th.pc != GROW
    ensures Quiet(d, SharedAfter(d, th))
  {
    if th.pc == TAKE_BLOCK {
      FreeBlockFound(d.free, FIRST_BLOCK);
      var b := FreeBlockFrom(d.free, FIRST_BLOCK);
      if b.Some? {
        TakeBlockSound(d, b.value);
      }
    } else if th.pc == APPEND {
      AppendSound(d, th.inode);
    } else if th.pc == WRITE_RECORD {
      WriteRecordSound(d, th.op.dir, Record(th.op.name, th.inode.no));
    } else if th.pc == SAVE {
      SaveQuiet(d, th.op.dir);
    } else if th.pc == PUBLISH {
      PublishSound(d, th.inode);
      PublishNames(d, th.inode);
    }
  }

  lemma WriteQuiet(d: Shared, th: Thread)
    requires DataSound(d) && PcRight(th) && Local(d, th) && StepDefined(d, th) && !Creates(th)
    ensures Quiet(d, SharedAfter(d, th))
  {
    if th.pc == SET_SIZE {
      ResizeSound(d, th.op.ino, th.op.size);
      SetSizeNames(d, th.op.ino, th.op.size);
    } else if th.pc == SAVE {
      SaveQuiet(d, th.op.ino);
    }
  }

  lemma QuietNames(d: Shared, d': Shared, th: Thread)
    requires SameNames(d, d') && !(Creates(th) && th.pc == GROW)
    ensures NamesAfter(d, d', th)
  {
  }

  /** What a thread about to grow its directory knows. */
  ghost predicate MayGrow(d: Shared, th: Thread) {
    && Creates(th) && th.pc == GROW && th.op.dir in d.cached && d.cached[th.op.dir].mode == Directory
    && d.count < |d.store|
    && RecordReady(d, th.op.dir, Record(th.op.name, th.inode.no))
    && LookupNumber(d, th.op.dir, th.op.name).None? && InStore(d, th.inode.no)
  }

  lemma KnowsMayGrow(d: Shared, th: Thread)
    requires d.count < |d.store| && Local(d, th) && Creates(th) && th.pc == GROW
    ensures MayGrow(d, th)
  {
    StoredIsInStore(d, th.inode);
  }

  lemma GrowStep(d: Shared, dir: nat, r: Record, d': Shared, th: Thread)
    requires DataSound(d) && dir in d.cached && d.cached[dir].mode == Directory
    requires RecordReady(d, dir, r) && LookupNumber(d, dir, r.name).None? && InStore(d, r.ino)
    requires d' == WithSize(d, dir, d.cached[dir].size + 1)
    requires Creates(th) && th.pc == GROW && th.op.dir == dir && Record(th.op.name, th.inode.no) == r
    ensures DataSound(d') && SameObjects(d, d') && NamesAfter(d, d', th)
  {
    GrowSound(d, dir, r);
    GrowNames(d, dir, r);
  }

  /** A step keeps the shared state sound and changes the lookups as told. */
  lemma SharedStep(d: Shared, th: Thread)
    requires DataSound(d) && PcRight(th) && Local(d, th) && StepDefined(d, th)
    ensures var d' := SharedAfter(d, th); DataSound(d') && SameObjects(d, d') && NamesAfter(d, d', th)
  {
    if Creates(th) && th.pc == GROW {
      KnowsMayGrow(d, th);
      GrowStep(d, th.op.dir, Record(th.op.name, th.inode.no), SharedAfter(d, th), th);
    } else {
      if Creates(th) {
        CreateQuiet(d, th);
      } else {
        WriteQuiet(d, th);
      }
      QuietNames(d, SharedAfter(d, th), th);
    }
  }

  lemma OwnTakeBlock(d: Shared, th: Thread, memoryOk: bool)
    requires DataSound(d) && PcRight(th) && Local(d, th) && StepDefined(d, th) && Creates(th) && th.pc == TAKE_BLOCK
    ensures SharedAfter(d, th).count <= |SharedAfter(d, th).store| &&
              Local(SharedAfter(d, th), ThreadAfter(d, th, memoryOk))
  {
    FreeBlockFound(d.free, FIRST_BLOCK);
    var b := FreeBlockFrom(d.free, FIRST_BLOCK);
    if b.Some? {
      TakeBlockSound(d, b.value);
    }
  }

  lemma OwnAppend(d: Shared, th: Thread, memoryOk: bool)
    requires DataSound(d) && PcRight(th) && Local(d, th) && StepDefined(d, th) && Creates(th) && th.pc == APPEND
    ensures SharedAfter(d, th).count <= |SharedAfter(d, th).store| &&
              Local(SharedAfter(d, th), ThreadAfter(d, th, memoryOk))
  {
    AppendSound(d, th.inode);
  }

  lemma OwnWriteRecord(d: Shared, th: Thread, memoryOk: bool)
    requires DataSound(d) && PcRight(th) && Local(d, th) && StepDefined(d, th) && Creates(th) && th.pc == WRITE_RECORD
    ensures SharedAfter(d, th).count <= |SharedAfter(d, th).store| &&
              Local(SharedAfter(d, th), ThreadAfter(d, th, memoryOk))
  {
    WriteRecordSound(d, th.op.dir, Record(th.op.name, th.inode.no));
    RecordsKept(d, WithRecord(d, th.op.dir, Record(th.op.name, th.inode.no)));
  }

  lemma OwnGrow(d: Shared, th: Thread, memoryOk: bool)
    requires DataSound(d) && PcRight(th) && Local(d, th) && StepDefined(d, th) && Creates(th) && th.pc == GROW
    ensures SharedAfter(d, th).count <= |SharedAfter(d, th).store| &&
              Local(SharedAfter(d, th), ThreadAfter(d, th, memoryOk))
  {
    GrowNames(d, th.op.dir, Record(th.op.name, th.inode.no));
    ResizeRecords(d, th.op.dir, d.cached[th.op.dir].size + 1);
  }

  lemma OwnCreateStep(d: Shared, th: Thread, memoryOk: bool)
    requires DataSound(d) && PcRight(th) && Local(d, th) && StepDefined(d, th) && Creates(th) &&
              th.pc != TAKE_BLOCK && th.pc != APPEND && th.pc != WRITE_RECORD && th.pc != GROW
    ensures SharedAfter(d, th).count <= |SharedAfter(d, th).store| &&
              Local(SharedAfter(d, th), ThreadAfter(d, th, memoryOk))
  {
    if th.pc == SAVE {
      SaveKeeps(d, th.op.dir, th);
    }
  }

  /** A step leaves the thread with what it relies on next. */
  lemma OwnStep(d: Shared, th: Thread, memoryOk: bool)
    requires DataSound(d) && PcRight(th) && Local(d, th) && StepDefined(d, th)
    ensures SharedAfter(d, th).count <= |SharedAfter(d, th).store| &&
              Local(SharedAfter(d, th), ThreadAfter(d, th, memoryOk))
  {
    if Creates(th) {
      if th.pc == TAKE_BLOCK {
        OwnTakeBlock(d, th, memoryOk);
      } else if th.pc == APPEND {
        OwnAppend(d, th, memoryOk);
      } else if th.pc == WRITE_RECORD {
        OwnWriteRecord(d, th, memoryOk);
      } else if th.pc == GROW {
        OwnGrow(d, th, memoryOk);
      } else {
        OwnCreateStep(d, th, memoryOk);
      }
    } else if th.pc == SAVE {
      SaveNames(d, th.op.ino);
    }
  }

  /** Two threads that do not hold the same mutex. */
  ghost predicate Exclude(th: Thread, other: Thread) {
    forall m: Mutex {:trigger Holds(m, th)} {:trigger Holds(m, other)} :: !(Holds(m, th) && Holds(m, other))
  }

  lemma OtherCreateStep(d: Shared, th: Thread, other: Thread)
    requires DataSound(d) && PcRight(th) && Local(d, th) && StepDefined(d, th) && Creates(th)
    requires PcRight(other) && Local(d, other) && Apart(th, other)
    requires Holds(Children, th) ==> !Holds(Children, other)
    ensures SharedAfter(d, th).count <= |SharedAfter(d, th).store| && Local(SharedAfter(d, th), other)
  {
    if th.pc == TAKE_BLOCK {
      var b := FreeBlockFrom(d.free, FIRST_BLOCK);
      if b.Some? {
        TakeBlockKeeps(d, b.value, other);
      }
    } else if th.pc == APPEND {
      AppendKeeps(d, th.inode, other);
    } else if th.pc > APPEND {
      OtherNamingStep(d, th, other);
    }
  }

  /** The same for the steps that name the object appended. */
  lemma OtherNamingStep(d: Shared, th: Thread, other: Thread)
    requires DataSound(d) && PcRight(th) && Local(d, th) && StepDefined(d, th) && Creates(th) && th.pc > APPEND
    requires PcRight(other) && Local(d, other) && Apart(th, other)
    requires Holds(Children, th) ==> !Holds(Children, other)
    ensures SharedAfter(d, th).count <= |SharedAfter(d, th).store| && Local(SharedAfter(d, th), other)
  {
    var r := Record(th.op.name, th.inode.no);
    if th.pc == WRITE_RECORD {
      WriteRecordKeeps(d, th.op.dir, r, other);
    } else if th.pc == GROW {
      GrowKeeps(d, th.op.dir, r, other);
    } else if th.pc == SAVE {
      SaveKeeps(d, th.op.dir, other);
    } else if th.pc == PUBLISH {
      PublishKeeps(d, th.inode, other);
    }
  }

  /** A step of one thread takes from no other what that relies on. */
  lemma OtherStep(d: Shared, th: Thread, other: Thread)
    requires DataSound(d) && PcRight(th) && Local(d, th) && StepDefined(d, th)
    requires PcRight(other) && Local(d, other) && Apart(th, other) && Exclude(th, other)
    ensures SharedAfter(d, th).count <= |SharedAfter(d, th).store| && Local(SharedAfter(d, th), other)
  {
    if Creates(th) {
      assert Holds(Children, th) ==> !Holds(Children, other);
      OtherCreateStep(d, th, other);
    } else if th.pc == SET_SIZE {
      SetSizeKeeps(d, th.op.ino, th.op.size, other);
    } else if th.pc == SAVE {
      SaveKeeps(d, th.op.ino, other);
    }
  }

  lemma ApartStep(d: Shared, th: Thread, other: Thread, memoryOk: bool)
    requires DataSound(d) && PcRight(th) && Local(d, th) && StepDefined(d, th)
    requires PcRight(other) && Local(d, other) && Apart(th, other)
    ensures Apart(ThreadAfter(d, th, memoryOk), other)
  {
    if Creates(th) && th.pc == APPEND && Creates(other) && UNLOCK_SB_ADD <= other.pc <= PUBLISH {
      AppendNumberNew(d, th.inode, other.inode);
    }
  }

  lemma LocksExclude(s: State, t: nat, u: nat)
    requires LocksRight(s) && t < |s.threads| && u < |s.threads| && t != u
    ensures Exclude(s.threads[t], s.threads[u])
  {
    forall m: Mutex
      ensures !(Holds(m, s.threads[t]) && Holds(m, s.threads[u]))
    {
      assert LockRight(m, Holder(s.locks, m), s.threads);
    }
  }

  lemma PairStep(s: State, t: nat, u: nat, memoryOk: bool)
    requires Inv(s) && Enabled(s, Step(t, memoryOk)) && u < |s.threads| && u != t
    ensures var s' := Next(s, Step(t, memoryOk));
            && s'.threads[u] == s.threads[u] && s'.d.count <= |s'.d.store| && Local(s'.d, s.threads[u])
            && Apart(s'.threads[t], s.threads[u])
  {
    LocksExclude(s, t, u);
    OtherStep(s.d, s.threads[t], s.threads[u]);
    ApartStep(s.d, s.threads[t], s.threads[u], memoryOk);
  }

  lemma ThreadsStep(s: State, t: nat, memoryOk: bool)
    requires Inv(s) && Enabled(s, Step(t, memoryOk))
    ensures var s' := Next(s, Step(t, memoryOk)); s'.d.count <= |s'.d.store| && ThreadsSound(s'.d, s'.threads)
  {
    var s' := Next(s, Step(t, memoryOk));
    TakesOnlyWanted(s.d, s.threads[t], memoryOk, Sb);
    OwnStep(s.d, s.threads[t], memoryOk);
    forall u | 0 <= u < |s.threads| && u != t
      ensures PcRight(s'.threads[u]) && Local(s'.d, s'.threads[u]) && Apart(s'.threads[t], s'.threads[u])
    {
      PairStep(s, t, u, memoryOk);
    }
  }

  /** Every step keeps the invariant. */
  lemma StepKeepsInv(s: State, a: Action)
    requires Inv(s) && Enabled(s, a)
    ensures Inv(Next(s, a))
  {
    LocksStep(s, a);
    if a.Step? {
      SharedStep(s.d, s.threads[a.t]);
      ThreadsStep(s, a.t, a.memoryOk);
    }
  }

  // ---------------------------------------------------------------- every run

  ghost predicate IsRun(s: State, actions: seq<Action>)
    decreases actions
  {
    actions == [] || (Enabled(s, actions[0]) && IsRun(Next(s, actions[0]), actions[1..]))
  }

  ghost function After(s: State, actions: seq<Action>): State
    requires IsRun(s, actions)
    decreases actions
  {
    if actions == [] then s else After(Next(s, actions[0]), actions[1..])
  }

  lemma {:induction false} RunKeepsInv(s: State, actions: seq<Action>)
    requires Inv(s) && IsRun(s, actions)
    ensures Inv(After(s, actions)) && |After(s, actions).threads| == |s.threads|
    decreases actions
  {
    if actions != [] {
      StepKeepsInv(s, actions[0]);
      RunKeepsInv(Next(s, actions[0]), actions[1..]);
    }
  }

  /** In every state of every run: at most 64 objects, with unique numbers and blocks, none of them
      free; a thread about to append has the current count, so its number and block are new. */
  lemma RunSafe(s: State, actions: seq<Action>, t: nat)
    requires Inv(s) && IsRun(s, actions) && t < |s.threads|
    ensures var e := After(s, actions);
            && e.d.count <= MAX_OBJECTS <= |e.d.store|
            && (forall j, k :: 0 <= j < k < e.d.count ==>
                  e.d.store[j].no != e.d.store[k].no && e.d.store[j].block != e.d.store[k].block)
            && (forall k :: 0 <= k < e.d.count ==> e.d.store[k].block !in e.d.free)
            && t < |e.threads|
            && (Creates(e.threads[t]) && e.threads[t].pc == APPEND ==>
                  && e.threads[t].count == e.d.count < MAX_OBJECTS
                  && (forall k :: 0 <= k < e.d.count ==>
                        e.d.store[k].no != e.threads[t].inode.no && e.d.store[k].block != e.threads[t].inode.block))
  {
    RunKeepsInv(s, actions);
  }

  /** In every state of every run, while a thread is busy some busy thread can step. */
  lemma RunNeverStuck(s: State, actions: seq<Action>, t: nat)
    requires Inv(s) && IsRun(s, actions) && t < |After(s, actions).threads| && After(s, actions).threads[t].Busy?
    ensures var e := After(s, actions);
            exists u :: 0 <= u < |e.threads| && e.threads[u].Busy? && Enabled(e, Step(u, true))
  {
    RunKeepsInv(s, actions);
    SomeThreadMoves(After(s, actions), t);
  }

  /** How many steps an operation still takes at most. */
  function StepsLeft(th: Thread): nat {
    if th.Idle? || th.pc > FAIL_UNLOCK_CHILDREN then 0 else FAIL_UNLOCK_CHILDREN + 1 - th.pc
  }

  /** Every step brings its operation nearer to its end and leaves the others where they are. */
  lemma StepProgress(s: State, t: nat, memoryOk: bool)
    requires Inv(s) && Enabled(s, Step(t, memoryOk))
    ensures var s' := Next(s, Step(t, memoryOk));
            && StepsLeft(s'.threads[t]) < StepsLeft(s.threads[t])
            && forall u :: 0 <= u < |s.threads| && u != t ==> s'.threads[u] == s.threads[u]
  {
  }

  /** How many steps all threads together still take at most. */
  function AllLeft(threads: seq<Thread>): nat {
    if threads == [] then 0 else AllLeft(threads[..|threads| - 1]) + StepsLeft(threads[|threads| - 1])
  }

  lemma {:induction false} LeftLowered(threads: seq<Thread>, t: nat, th: Thread)
    requires t < |threads| && StepsLeft(th) < StepsLeft(threads[t])
    ensures AllLeft(threads[t := th]) < AllLeft(threads)
  {
    var n := |threads| - 1;
    if t < n {
      assert threads[t := th][..n] == threads[..n][t := th];
      LeftLowered(threads[..n], t, th);
    } else {
      assert threads[t := th][..n] == threads[..n];
    }
  }

  ghost predicate OnlySteps(actions: seq<Action>) {
    forall k :: 0 <= k < |actions| ==> actions[k].Step?
  }

  /** Without new operations a run is no longer than the steps the threads had left. */
  lemma {:induction false} RunBounded(s: State, actions: seq<Action>)
    requires Inv(s) && IsRun(s, actions) && OnlySteps(actions)
    ensures |actions| + AllLeft(After(s, actions).threads) <= AllLeft(s.threads)
    decreases actions
  {
    if actions != [] {
      var a, s1 := actions[0], Next(s, actions[0]);
      StepKeepsInv(s, a);
      StepProgress(s, a.t, a.memoryOk);
      assert s1.threads == s.threads[a.t := s1.threads[a.t]];
      LeftLowered(s.threads, a.t, s1.threads[a.t]);
      RunBounded(s1, actions[1..]);
    }
  }

  /** And when it cannot go on, every operation has ended. */
  lemma RunEndsIdle(s: State, actions: seq<Action>, t: nat)
    requires Inv(s) && IsRun(s, actions) && t < |After(s, actions).threads|
    requires forall u :: 0 <= u < |After(s, actions).threads| ==> !Enabled(After(s, actions), Step(u, true))
    ensures After(s, actions).threads[t].Idle?
  {
    if After(s, actions).threads[t].Busy? {
      RunNeverStuck(s, actions, t);
    }
  }

  lemma StepNames(s: State, a: Action, dir: nat, name: string, no: nat)
    requires Inv(s) && Enabled(s, a) && dir in s.d.cached && s.d.cached[dir].mode == Directory
    requires LookupNumber(s.d, dir, name) == Some(no)
    ensures LookupNumber(Next(s, a).d, dir, name) == Some(no) && SameObjects(s.d, Next(s, a).d)
    ensures dir in Next(s, a).d.cached && Next(s, a).d.cached[dir].mode == Directory
  {
    if a.Step? {
      SharedStep(s.d, s.threads[a.t]);
    }
  }

  /** Creation refines a map of names: a name that a directory once has stands for the same object for
      ever, whatever the threads do, and that object is in the store. */
  lemma {:induction false} NamesStay(s: State, actions: seq<Action>, dir: nat, name: string, no: nat)
    requires Inv(s) && IsRun(s, actions) && dir in s.d.cached && s.d.cached[dir].mode == Directory
    requires LookupNumber(s.d, dir, name) == Some(no)
    ensures Inv(After(s, actions))
    ensures var e := After(s, actions).d;
            && LookupNumber(e, dir, name) == Some(no)
            && GetInodeFrom(s.d.store, s.d.count, no, 0).Some? && GetInodeFrom(e.store, e.count, no, 0).Some?
            && GetInodeFrom(e.store, e.count, no, 0).value.Same(GetInodeFrom(s.d.store, s.d.count, no, 0).value)
    decreases actions
  {
    LookupFindsStored(s.d, dir, name);
    if actions != [] {
      var s1 := Next(s, actions[0]);
      StepKeepsInv(s, actions[0]);
      StepNames(s, actions[0], dir, name, no);
      SameStoredInode(s.d, s1.d, no);
      NamesStay(s1, actions[1..], dir, name, no);
    }
  }

  lemma {:induction false} GetInodeFinds(store: seq<Inode>, count: nat, no: nat, k: nat, j: nat)
    requires k <= j < count <= |store| && store[j].no == no
    requires forall i :: 0 <= i < count && i != j ==> store[i].no != no
    ensures GetInodeFrom(store, count, no, k) == Some(store[j])
    decreases count - k
  {
    if k < j {
      GetInodeFinds(store, count, no, k + 1, j);
    }
  }

  lemma {:induction false} MatchIsRecord(rs: seq<Record>, n: nat, name: string)
    requires n <= |rs| && Match(rs, n, name).Some?
    ensures exists k :: 0 <= k < n && rs[k].name == name && Some(rs[k].ino) == Match(rs, n, name)
                        && forall j :: 0 <= j < k ==> rs[j].name != name
  {
    if Match(rs, n - 1, name).Some? {
      MatchIsRecord(rs, n - 1, name);
    } else {
      MatchNone(rs, n - 1, name);
      assert rs[n - 1].name == name;
    }
  }

  lemma {:induction false} MatchNone(rs: seq<Record>, n: nat, name: string)
    requires n <= |rs|
    ensures Match(rs, n, name).None? <==> forall k :: 0 <= k < n ==> rs[k].name != name
  {
    if n > 0 {
      MatchNone(rs, n - 1, name);
    }
  }

  /** What a lookup names is in the store: dadfs_iget never gets a null inode. */
  lemma LookupFindsStored(d: Shared, dir: nat, name: string)
    requires DataSound(d) && dir in d.cached && d.cached[dir].mode == Directory && LookupNumber(d, dir, name).Some?
    ensures var no := LookupNumber(d, dir, name).value;
            GetInodeFrom(d.store, d.count, no, 0).Some? && GetInodeFrom(d.store, d.count, no, 0).value.no == no
  {
    var rs := d.Records(d.cached[dir].block);
    MatchIsRecord(rs, d.cached[dir].size, name);
    var no := LookupNumber(d, dir, name).value;
    assert InStore(d, no);
    var j :| 0 <= j < d.count && d.store[j].no == no;
    GetInodeFinds(d.store, d.count, no, 0, j);
  }

  lemma SameStoredInode(d: Shared, d': Shared, no: nat)
    requires StoreSound(d) && StoreSound(d') && SameObjects(d, d') && GetInodeFrom(d.store, d.count, no, 0).Some?
    ensures GetInodeFrom(d'.store, d'.count, no, 0).Some?
    ensures GetInodeFrom(d'.store, d'.count, no, 0).value.Same(GetInodeFrom(d.store, d.count, no, 0).value)
  {
    var j := GetInodeSlot(d.store, d.count, no, 0);
    GetInodeFinds(d'.store, d'.count, no, 0, j);
  }

  lemma {:induction false} GetInodeSlot(store: seq<Inode>, count: nat, no: nat, k: nat) returns (j: nat)
    requires k <= count <= |store| && GetInodeFrom(store, count, no, k).Some?
    ensures j < count && store[j].no == no && GetInodeFrom(store, count, no, k) == Some(store[j])
    decreases count - k
  {
    j := k;
    if store[k].no != no {
      j := GetInodeSlot(store, count, no, k + 1);
    }
  }

  /** A growing directory answers for the object its thread created, of the mode asked for. */
  lemma CreationNames(s: State, t: nat, memoryOk: bool)
    requires Inv(s) && Enabled(s, Step(t, memoryOk)) && Creates(s.threads[t]) && s.threads[t].pc == GROW
    ensures var th, d' := s.threads[t], Next(s, Step(t, memoryOk)).d;
            && LookupNumber(s.d, th.op.dir, th.op.name).None?
            && LookupNumber(d', th.op.dir, th.op.name) == Some(th.inode.no)
            && GetInodeFrom(d'.store, d'.count, th.inode.no, 0) == Some(th.inode) && th.inode.mode == th.op.mode
  {
    var th := s.threads[t];
    KnowsMayGrow(s.d, th);
    GrowNames(s.d, th.op.dir, Record(th.op.name, th.inode.no));
    var k :| 0 <= k < s.d.count && s.d.store[k] == th.inode;
    GetInodeFinds(s.d.store, s.d.count, th.inode.no, 0, k);
  }

  // ---------------------------------------------------------------- memory and store

  /** An inode in memory is in the store as it is, unless a thread is about to save it. */
  ghost predicate Synced(s: State)
    requires s.d.count <= |s.d.store|
  {
    forall i {:trigger s.d.cached[i]} :: i in s.d.cached ==> Stored(s.d, s.d.cached[i]) || BeingSaved(s.threads, i)
  }

  ghost predicate BeingSaved(threads: seq<Thread>, i: nat) {
    exists t :: 0 <= t < |threads| && DirtyInode(threads[t]) == Some(i)
  }

  /** What a step leaves unsaved was unsaved, or is what its thread will save. */
  lemma StepSaves(d: Shared, th: Thread, memoryOk: bool, i: nat)
    requires DataSound(d) && PcRight(th) && Local(d, th) && StepDefined(d, th) && i in SharedAfter(d, th).cached
    requires i in d.cached ==> Stored(d, d.cached[i]) || DirtyInode(th) == Some(i)
    ensures SharedAfter(d, th).count <= |SharedAfter(d, th).store|
    ensures Stored(SharedAfter(d, th), SharedAfter(d, th).cached[i]) ||
              DirtyInode(ThreadAfter(d, th, memoryOk)) == Some(i)
  {
    if th.pc == SAVE {
      SaveSaves(d, SavedInode(th), i);
    } else {
      StoreOnlyGrows(d, th);
      if DirtyInode(ThreadAfter(d, th, memoryOk)) != Some(i) {
        LeftUnsaved(d, th, memoryOk, i);
      }
      RecordsKept(d, SharedAfter(d, th));
    }
  }

  lemma StoreOnlyGrows(d: Shared, th: Thread)
    requires DataSound(d) && Local(d, th) && StepDefined(d, th) && th.pc != SAVE
    ensures StoreGrows(d, SharedAfter(d, th))
  {
  }

  /** Before it saves, a step puts only stored inodes in memory, and changes none but what it will save. */
  lemma LeftUnsaved(d: Shared, th: Thread, memoryOk: bool, i: nat)
    requires DataSound(d) && PcRight(th) && Local(d, th) && StepDefined(d, th) && i in SharedAfter(d, th).cached
    requires th.pc != SAVE && DirtyInode(ThreadAfter(d, th, memoryOk)) != Some(i)
    ensures DirtyInode(th) != Some(i)
    ensures var i' := SharedAfter(d, th).cached[i];
            if i in d.cached then i' == d.cached[i] else Stored(d, i')
  {
  }

  lemma SaveSaves(d: Shared, saved: nat, i: nat)
    requires DataSound(d) && saved in d.cached && i in d.cached && (Stored(d, d.cached[i]) || i == saved)
    ensures Saved(d, saved).count == d.count && Saved(d, saved).cached == d.cached
    ensures Stored(Saved(d, saved), d.cached[i])
  {
    SaveRecords(d, saved);
    SaveNames(d, saved);
  }

  lemma StepKeepsSynced(s: State, a: Action)
    requires Inv(s) && Enabled(s, a) && Synced(s)
    ensures Inv(Next(s, a)) && Synced(Next(s, a))
  {
    StepKeepsInv(s, a);
    var s' := Next(s, a);
    forall i | i in s'.d.cached
      ensures Stored(s'.d, s'.d.cached[i]) || BeingSaved(s'.threads, i)
    {
      if BeingSavedByOther(s, a, i) {
        var t :| 0 <= t < |s.threads| && t != a.t && DirtyInode(s.threads[t]) == Some(i);
        assert DirtyInode(s'.threads[t]) == Some(i);
      } else if a.Step? {
        StepSaves(s.d, s.threads[a.t], a.memoryOk, i);
        assert DirtyInode(s'.threads[a.t]) == Some(i) ==> BeingSaved(s'.threads, i);
      }
    }
  }

  ghost predicate BeingSavedByOther(s: State, a: Action, i: nat) {
    exists t :: 0 <= t < |s.threads| && t != a.t && DirtyInode(s.threads[t]) == Some(i)
  }

  /** A mounted file system at rest satisfies the invariant. */
  lemma AtRest(s: State)
    requires DataSound(s.d) && s.locks == Locks(None, None, None)
    requires forall t :: 0 <= t < |s.threads| ==> s.threads[t].Idle?
    ensures Inv(s)
  {
  }

  /** Such a state exists: a root directory without children. */
  lemma RootOnly(free: set<nat>)
    requires forall b :: b in free ==> FIRST_BLOCK <= b < 31 && b != 4
    ensures var root := Inode(Directory, 1, 4, 0);
            DataSound(Shared(1, free, seq(STORE_SLOTS, _ => root), map[1 := root], map[]))
  {
    var root := Inode(Directory, 1, 4, 0);
    var d := Shared(1, free, seq(STORE_SLOTS, _ => root), map[1 := root], map[]);
    assert d.store[0].Same(root);
    assert HasRecord(d, root);
  }

  // ---------------------------------------------------------------- the loops of the scans

  /** The scan of dadfs_sb_get_a_freeblock. */
  method FindFreeBlock(free: set<nat>) returns (r: Option<nat>)
    ensures r == FreeBlockFrom(free, FIRST_BLOCK)
  {
    var i := FIRST_BLOCK;
    while i < MAX_OBJECTS
      invariant FIRST_BLOCK <= i <= MAX_OBJECTS
      invariant FreeBlockFrom(free, FIRST_BLOCK) == FreeBlockFrom(free, i)
    {
      if i in free {
        break;
      }
      i := i + 1;
    }
    if i == MAX_OBJECTS {
      return None;
    }
    return Some(i);
  }

  /** The loop of dadfs_inode_search. */
  method InodeSearch(store: array<Inode>, count: nat, no: nat) returns (r: Option<nat>)
    requires count < store.Length
    ensures r == SearchFrom(store[..], count, no, 0)
  {
    var start := 0;
    while store[start].no != no && start < count
      invariant 0 <= start <= count
      invariant SearchFrom(store[..], count, no, 0) == SearchFrom(store[..], count, no, start)
      decreases count - start
    {
      start := start + 1;
    }
    if store[start].no == no {
      return Some(start);
    }
    return None;
  }

  /** The loop of dadfs_get_inode. */
  method GetInode(store: array<Inode>, count: nat, no: nat) returns (r: Option<Inode>)
    requires count <= store.Length
    ensures r == GetInodeFrom(store[..], count, no, 0)
  {
    for i := 0 to count
      invariant GetInodeFrom(store[..], count, no, 0) == GetInodeFrom(store[..], count, no, i)
    {
      if store[i].no == no {
        return Some(store[i]);
      }
    }
    return None;
  }

  /** The loop of dadfs_lookup: the first record with the name. */
  method Lookup(records: array<Record>, children: nat, name: string) returns (r: Option<nat>)
    requires children <= records.Length
    ensures r == Match(records[..], children, name)
  {
    for i := 0 to children
      invariant Match(records[..], i, name).None?
    {
      if records[i].name == name {
        FirstIsMatch(records[..], i, children, name);
        return Some(records[i].ino);
      }
    }
    return None;
  }

  lemma {:induction false} FirstIsMatch(rs: seq<Record>, i: nat, n: nat, name: string)
    requires i < n <= |rs| && Match(rs, i, name).None? && rs[i].name == name
    ensures Match(rs, n, name) == Some(rs[i].ino)
  {
    if i < n - 1 {
      FirstIsMatch(rs, i, n - 1, name);
    }
  }
}
