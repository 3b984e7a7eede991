/** What the cache asks of its devices: which blocks go into one request, what the answers make of a
    queue, and what lmfs_flushall does to one device after another. */
module Requests {
  import opened Chains
  import opened BufferPool
  import opened YieldInterface
  import opened CacheSpec

  // ---------------------------------------------------------------- answers

  /** A device's answer to a request for `bytes` bytes; without a script the device works. */
  function DeviceAnswer(script: seq<Answer>, bytes: nat): (a: Answer)
    ensures a.r <= bytes && (script == [] ==> a.r == bytes)
  {
    if script == [] then Answer(bytes, map[])
    else if script[0].r > bytes then script[0].(r := bytes)
    else script[0]
  }

  function Later(script: seq<Answer>): seq<Answer> {
    if script == [] then [] else script[1..]
  }

  lemma {:induction false} WholeBound(r: int, blockSize: nat, j: nat)
    requires blockSize > 0 && r <= j * blockSize
    ensures Whole(r, blockSize) <= j
    ensures r == j * blockSize ==> Whole(r, blockSize) == j
  {
    if j == 0 {
      assert r <= 0;
    } else {
      assert (j - 1) * blockSize == j * blockSize - blockSize;
      if r >= blockSize {
        WholeBound(r - blockSize, blockSize, j - 1);
      }
    }
  }

  /** How many of j blocks the answer acknowledges. */
  function Acked(script: seq<Answer>, j: nat, blockSize: nat): (n: nat)
    requires blockSize > 0
    ensures n <= j && (script == [] ==> n == j)
  {
    WholeBound(DeviceAnswer(script, j * blockSize).r, blockSize, j);
    Whole(DeviceAnswer(script, j * blockSize).r, blockSize)
  }

  lemma AckedIs(a: Answer, script: seq<Answer>, j: nat, blockSize: nat)
    requires blockSize > 0 && a == DeviceAnswer(script, j * blockSize)
    ensures Whole(a.r, blockSize) == Acked(script, j, blockSize) <= j
  {
  }

  lemma AckedNone(script: seq<Answer>, j: nat, blockSize: nat)
    requires blockSize > 0 && j > 0
    ensures Acked(script, j, blockSize) == 0 <==> script != [] && script[0].r < blockSize
  {
    assert j * blockSize >= blockSize;
  }

  // ---------------------------------------------------------------- batches

  /** The block numbers of the buffers of q. */
  function Numbers(blocks: seq<Block>, q: seq<int>): (nums: seq<nat>)
    requires forall k :: 0 <= k < |q| ==> 0 <= q[k] < |blocks|
    ensures |nums| == |q| && forall k {:trigger nums[k]} :: 0 <= k < |q| ==> nums[k] == blocks[q[k]].blocknr
  {
    seq(|q|, k requires 0 <= k < |q| => blocks[q[k]].blocknr)
  }

  /** The first j numbers are consecutive, at most nr, and the next is not, or too many. */
  ghost predicate LongestRun(nums: seq<nat>, nr: nat, j: nat) {
    && 1 <= j <= nr && j <= |nums|
    && (forall k {:trigger nums[k]} :: 0 <= k < j ==> nums[k] == nums[0] + k)
    && (j < nr && j < |nums| ==> nums[j] != nums[0] + j)
  }

  function RunFrom(nums: seq<nat>, nr: nat, k: nat): (j: nat)
    requires 1 <= k <= nr && k <= |nums|
    ensures k <= j <= nr && j <= |nums|
    decreases nr - k
  {
    if k < nr && k < |nums| && nums[k] == nums[0] + k then RunFrom(nums, nr, k + 1) else k
  }

  /** How many blocks the next request is for. */
  function RunLength(nums: seq<nat>, nr: nat): (j: nat)
    requires nums != [] && nr > 0
    ensures 1 <= j <= nr && j <= |nums|
  {
    RunFrom(nums, nr, 1)
  }

  lemma {:induction false} RunFromIsLongest(nums: seq<nat>, nr: nat, k: nat)
    requires 1 <= k <= nr && k <= |nums|
    requires forall i {:trigger nums[i]} :: 0 <= i < k ==> nums[i] == nums[0] + i
    ensures LongestRun(nums, nr, RunFrom(nums, nr, k))
    decreases nr - k
  {
    if k < nr && k < |nums| && nums[k] == nums[0] + k {
      RunFromIsLongest(nums, nr, k + 1);
    }
  }

  /** It is the longest run there is, and the only one. */
  lemma RunIsLongest(nums: seq<nat>, nr: nat, j: nat)
    requires nums != [] && nr > 0
    ensures LongestRun(nums, nr, j) <==> j == RunLength(nums, nr)
  {
    RunFromIsLongest(nums, nr, 1);
    if LongestRun(nums, nr, j) {
      var i := RunLength(nums, nr);
      assert i == j;
    }
  }

  // ---------------------------------------------------------------- writing a queue

  /** Longest run after longest run is written; the run after a partial answer starts at the first block
      not acknowledged, and an answer for no whole block ends the write. How many are written, and the
      answers left. */
  function WriteOutcome(nums: seq<nat>, script: seq<Answer>, nr: nat, blockSize: nat): (r: (nat, seq<Answer>))
    requires nr > 0 && blockSize > 0
    ensures r.0 <= |nums|
    decreases |nums|
  {
    if nums == [] then (0, script)
    else
      var n := Acked(script, RunLength(nums, nr), blockSize);
      if n == 0 then (0, Later(script))
      else
        var rest := WriteOutcome(nums[n..], Later(script), nr, blockSize);
        (n + rest.0, rest.1)
  }

  /** A write ends early exactly at the first answer for less than a block, and uses no answer after. */
  lemma {:induction false} WriteStops(nums: seq<nat>, script: seq<Answer>, nr: nat, blockSize: nat)
    requires nr > 0 && blockSize > 0
    ensures var (done, rest) := WriteOutcome(nums, script, nr, blockSize);
            exists used {:trigger script[used..]} :: 0 <= used <= |script| && rest == script[used..]
              && (forall k :: 0 <= k < used - 1 ==> script[k].r >= blockSize)
              && (done < |nums| <==> used > 0 && script[used - 1].r < blockSize)
    decreases |nums|
  {
    if nums == [] {
      assert script[0..] == script;
    } else {
      var j := RunLength(nums, nr);
      var n := Acked(script, j, blockSize);
      AckedNone(script, j, blockSize);
      if n == 0 {
        assert Later(script) == script[1..];
      } else {
        var later := Later(script);
        WriteStops(nums[n..], later, nr, blockSize);
        var (done, rest) := WriteOutcome(nums[n..], later, nr, blockSize);
        var used :| 0 <= used <= |later| && rest == later[used..]
          && (forall k :: 0 <= k < used - 1 ==> later[k].r >= blockSize)
          && (done < |nums[n..]| <==> used > 0 && later[used - 1].r < blockSize);
        if script == [] {
          assert rest == script[0..];
        } else {
          assert rest == script[used + 1..];
          assert forall k :: 0 < k <= used ==> script[k] == later[k - 1];
        }
      }
    }
  }

  /** A device that works takes the whole queue. */
  lemma {:induction false} WorkingWrites(nums: seq<nat>, nr: nat, blockSize: nat)
    requires nr > 0 && blockSize > 0
    ensures WriteOutcome(nums, [], nr, blockSize) == (|nums|, [])
    decreases |nums|
  {
    if nums != [] {
      WorkingWrites(nums[RunLength(nums, nr)..], nr, blockSize);
    }
  }

  lemma FirstRequest(nums: seq<nat>, script: seq<Answer>, nr: nat, blockSize: nat, n: nat)
    requires nr > 0 && blockSize > 0 && nums != [] && n == Acked(script, RunLength(nums, nr), blockSize)
    ensures n <= |nums|
    ensures WriteOutcome(nums, script, nr, blockSize)
            == if n == 0 then (0, Later(script))
               else
                 var rest := WriteOutcome(nums[n..], Later(script), nr, blockSize);
                 (n + rest.0, rest.1)
  {
  }

  /** `whole` is what comes of the queue when `off` blocks are written and `left` are left. */
  ghost predicate Underway(whole: (nat, seq<Answer>), off: nat, left: seq<nat>, script: seq<Answer>, nr: nat,
                           blockSize: nat)
  {
    nr > 0 && blockSize > 0 &&
    var rest := WriteOutcome(left, script, nr, blockSize);
    whole == (off + rest.0, rest.1)
  }

  ghost predicate InRange(blocks: seq<Block>, q: seq<int>) {
    forall k :: 0 <= k < |q| ==> 0 <= q[k] < |blocks|
  }

  /** The buffers of q have the same numbers. */
  ghost predicate SameNumbers(blocks: seq<Block>, blocks': seq<Block>, q: seq<int>) {
    && InRange(blocks, q) && InRange(blocks', q)
    && forall k :: 0 <= k < |q| ==> blocks[q[k]].blocknr == blocks'[q[k]].blocknr
  }

  lemma NumbersSame(blocks: seq<Block>, blocks': seq<Block>, q: seq<int>, off: nat)
    requires SameNumbers(blocks, blocks', q) && off <= |q|
    ensures Numbers(blocks, q[off..]) == Numbers(blocks', q[off..])
  {
  }

  /** Of the queue q `done` buffers get written by the answers of `script`, and `rest` is left of it. */
  ghost predicate Sent(blocks: seq<Block>, q: seq<int>, done: nat, script: seq<Answer>, rest: seq<Answer>, nr: nat,
                       blockSize: nat)
  {
    && nr > 0 && blockSize > 0 && InRange(blocks, q)
    && WriteOutcome(Numbers(blocks, q), script, nr, blockSize) == (done, rest)
  }

  /** One request, for the longest run at `off`, of which i blocks are acknowledged. */
  ghost predicate BatchSent(blocks: seq<Block>, q: seq<int>, off: nat, i: nat, script: seq<Answer>, rest: seq<Answer>,
                            nr: nat, blockSize: nat)
  {
    && nr > 0 && blockSize > 0 && off < |q| && InRange(blocks, q)
    && i == Acked(script, RunLength(Numbers(blocks, q[off..]), nr), blockSize) && rest == Later(script)
  }

  /** The queue q was sent up to `off`, and `script` is left of script0. */
  ghost predicate Remaining(blocks: seq<Block>, q: seq<int>, script0: seq<Answer>, off: nat, script: seq<Answer>,
                            nr: nat, blockSize: nat)
  {
    && nr > 0 && blockSize > 0 && off <= |q| && InRange(blocks, q)
    && Underway(WriteOutcome(Numbers(blocks, q), script0, nr, blockSize), off, Numbers(blocks, q[off..]), script, nr,
                blockSize)
  }

  lemma RemainingStarts(blocks: seq<Block>, q: seq<int>, script: seq<Answer>, nr: nat, blockSize: nat)
    requires nr > 0 && blockSize > 0 && InRange(blocks, q)
    ensures Remaining(blocks, q, script, 0, script, nr, blockSize)
  {
    assert q[0..] == q;
  }

  lemma RemainingNext(blocks: seq<Block>, q: seq<int>, script0: seq<Answer>, off: nat, script: seq<Answer>, nr: nat,
                      blockSize: nat, i: nat, off': nat, rest: seq<Answer>)
    requires Remaining(blocks, q, script0, off, script, nr, blockSize) && off' == off + i
    requires BatchSent(blocks, q, off, i, script, rest, nr, blockSize)
    ensures i == 0 ==> Sent(blocks, q, off, script0, rest, nr, blockSize)
    ensures i > 0 ==> Remaining(blocks, q, script0, off', rest, nr, blockSize)
  {
    var whole, left := WriteOutcome(Numbers(blocks, q), script0, nr, blockSize), Numbers(blocks, q[off..]);
    UnderwayNext(whole, off, left, script, nr, blockSize, i);
    if i > 0 {
      NumbersLeft(blocks, q, off, i);
      assert Underway(whole, off', Numbers(blocks, q[off'..]), rest, nr, blockSize);
    }
  }

  lemma NumbersLeft(blocks: seq<Block>, q: seq<int>, off: nat, i: nat)
    requires InRange(blocks, q) && off + i <= |q|
    ensures Numbers(blocks, q[off + i..]) == Numbers(blocks, q[off..])[i..]
  {
    assert q[off..][i..] == q[off + i..];
  }

  lemma RemainingEnds(blocks: seq<Block>, q: seq<int>, script0: seq<Answer>, script: seq<Answer>, nr: nat,
                      blockSize: nat)
    requires Remaining(blocks, q, script0, |q|, script, nr, blockSize)
    ensures Sent(blocks, q, |q|, script0, script, nr, blockSize)
  {
    assert q[|q|..] == [];
  }

  lemma UnderwayNext(whole: (nat, seq<Answer>), off: nat, left: seq<nat>, script: seq<Answer>, nr: nat, blockSize: nat,
                     i: nat)
    requires Underway(whole, off, left, script, nr, blockSize) && left != []
    requires i == Acked(script, RunLength(left, nr), blockSize)
    ensures i <= |left|
    ensures i == 0 ==> whole == (off, Later(script))
    ensures i > 0 ==> Underway(whole, off + i, left[i..], Later(script), nr, blockSize)
  {
    FirstRequest(left, script, nr, blockSize, i);
  }

  // ---------------------------------------------------------------- flushing a device

  /** The dirty buffers of dev were sent to it in order; `done` of them were written, as its answers say. */
  ghost predicate Flushed(p: Pool, dev: nat, q: seq<int>, done: nat, p': Pool, script: seq<Answer>,
                          rest: seq<Answer>, nr: nat, blockSize: nat)
  {
    WriteQueue(p.blocks, dev, q) && Written(p, dev, q, done, p') && Sent(p.blocks, q, done, script, rest, nr, blockSize)
  }

  lemma WorkingFlush(p: Pool, dev: nat, q: seq<int>, done: nat, p': Pool, rest: seq<Answer>, nr: nat, blockSize: nat)
    requires Flushed(p, dev, q, done, p', [], rest, nr, blockSize)
    ensures done == |q| && rest == []
  {
    WorkingWrites(Numbers(p.blocks, q), nr, blockSize);
  }

  // ---------------------------------------------------------------- lmfs_get_block

  /** A valid dirty victim makes its device be flushed, which uses up answers. */
  ghost predicate FlushAnswered(blocks: seq<Block>, v: int, q: seq<int>, done: nat, script: seq<Answer>,
                                rest: seq<Answer>, nr: nat, blockSize: nat)
    requires 0 <= v < |blocks|
  {
    if blocks[v].dev != NO_DEV && blocks[v].dirty then Sent(blocks, q, done, script, rest, nr, blockSize)
    else rest == script && done == |q|
  }

  /** One block is read, or none. */
  predicate ReadAnswered(asked: bool, a: Answer, script: seq<Answer>, rest: seq<Answer>, blockSize: nat) {
    if asked then a == DeviceAnswer(script, blockSize) && rest == Later(script)
    else a == Answer(blockSize, map[]) && rest == script
  }

  /** The renamed buffer of p is to be read from the disk: VM did not deliver it, and it is wanted. */
  predicate NeedsDisk(p: Pool, v: int, mode: Mode, vmcache: bool, yieldid: Option<Id>, accepted: bool)
    requires 0 <= v < |p.blocks|
  {
    mode == NORMAL && !VmSpec(p, v, vmcache, yieldid, accepted).1
  }

  /** The name under which a victim that was valid is yielded. */
  function YieldName(p: Pool, v: int, f: Pool): Option<Id>
    requires 0 <= v < |p.blocks| == |f.blocks|
  {
    if p.blocks[v].dev != NO_DEV then Some(f.blocks[v].Name()) else None
  }

  predicate MissReads(p: Pool, v: int, g: GetLabel)
    requires 0 <= v < |p.blocks| == |g.flushed.blocks|
  {
    NeedsDisk(Renamed(g.flushed, v, g.id), v, g.mode, g.vmcache, YieldName(p, v, g.flushed), g.accepted)
  }

  /** What a miss asks of the devices: the flush of the victim, then the block wanted if it is needed. */
  ghost predicate MissAsked(p: Pool, v: int, g: GetLabel, script: seq<Answer>, rest: seq<Answer>, nr: nat,
                            blockSize: nat)
    requires 0 <= v < |p.blocks|
  {
    |g.flushed.blocks| == |p.blocks| &&
    exists mid {:trigger FlushAnswered(p.blocks, v, g.queue, g.done, script, mid, nr, blockSize)} ::
      && FlushAnswered(p.blocks, v, g.queue, g.done, script, mid, nr, blockSize)
      && ReadAnswered(MissReads(p, v, g), g.read, mid, rest, blockSize)
  }

  /** A get that finds the block, or no buffer, asks nothing. */
  ghost predicate GetAsked(p: Pool, v: int, g: GetLabel, script: seq<Answer>, rest: seq<Answer>, nr: nat,
                           blockSize: nat)
  {
    if Held(p.blocks, g.id) || v == NULL then rest == script
    else 0 <= v < |p.blocks| && MissAsked(p, v, g, script, rest, nr, blockSize)
  }

  lemma WorkingFlushAnswered(blocks: seq<Block>, v: int, q: seq<int>, done: nat, rest: seq<Answer>, nr: nat,
                             blockSize: nat)
    requires 0 <= v < |blocks| && FlushAnswered(blocks, v, q, done, [], rest, nr, blockSize)
    ensures done == |q| && rest == []
  {
    if blocks[v].dev != NO_DEV && blocks[v].dirty {
      WorkingWrites(Numbers(blocks, q), nr, blockSize);
    }
  }

  lemma WorkingMiss(p: Pool, v: int, g: GetLabel, rest: seq<Answer>, nr: nat, blockSize: nat)
    requires 0 <= v < |p.blocks| && MissAsked(p, v, g, [], rest, nr, blockSize)
    ensures g.done == |g.queue| && g.read.r == blockSize && rest == []
  {
    var mid :| FlushAnswered(p.blocks, v, g.queue, g.done, [], mid, nr, blockSize)
      && ReadAnswered(MissReads(p, v, g), g.read, mid, rest, blockSize);
    WorkingFlushAnswered(p.blocks, v, g.queue, g.done, mid, nr, blockSize);
  }

  /** Memory for the victim is nothing to the devices. */
  lemma AskedWithMemory(p: Pool, p1: Pool, v: int, g: GetLabel, script: seq<Answer>, mid: seq<Answer>,
                        rest: seq<Answer>, nr: nat, blockSize: nat)
    requires 0 <= v < |p.blocks| == |g.flushed.blocks| && p1 == WithMemory(p, v)
    requires FlushAnswered(p1.blocks, v, g.queue, g.done, script, mid, nr, blockSize)
    requires ReadAnswered(MissReads(p1, v, g), g.read, mid, rest, blockSize)
    ensures MissAsked(p, v, g, script, rest, nr, blockSize)
    ensures script == [] ==> g.done == |g.queue| && g.read.r == blockSize && rest == []
  {
    if p.blocks[v].dev != NO_DEV && p.blocks[v].dirty {
      assert Numbers(p1.blocks, g.queue) == Numbers(p.blocks, g.queue);
    }
    assert FlushAnswered(p.blocks, v, g.queue, g.done, script, mid, nr, blockSize);
    if script == [] {
      WorkingMiss(p, v, g, rest, nr, blockSize);
    }
  }

  // ---------------------------------------------------------------- lmfs_flushall

  /** The pool, and the answers still to come. */
  datatype Moment = Moment(pool: Pool, script: seq<Answer>)

  predicate DirtyAt(p: Pool, i: int) {
    0 <= i < |p.blocks| && p.blocks[i].dev != NO_DEV && p.blocks[i].dirty
  }

  /** Turn i of the loop: if buffer i is valid and dirty by then, its device is flushed. */
  ghost predicate Turn(m: Moment, i: nat, q: seq<int>, done: nat, m': Moment, nr: nat, blockSize: nat) {
    if DirtyAt(m.pool, i)
    then Flushed(m.pool, m.pool.blocks[i].dev, q, done, m'.pool, m.script, m'.script, nr, blockSize)
    else m' == m
  }

  ghost predicate FlushPath(path: seq<Moment>, queues: seq<seq<int>>, dones: seq<nat>, nr: nat, blockSize: nat) {
    && |path| == |queues| + 1 == |dones| + 1
    && forall k {:trigger TurnAt(path, queues, dones, nr, blockSize, k)} :: 0 <= k < |queues| ==>
         TurnAt(path, queues, dones, nr, blockSize, k)
  }

  ghost predicate TurnAt(path: seq<Moment>, queues: seq<seq<int>>, dones: seq<nat>, nr: nat, blockSize: nat, k: nat)
    requires k < |queues| == |dones| < |path|
  {
    Turn(path[k], k, queues[k], dones[k], path[k + 1], nr, blockSize)
  }

  lemma PathExtends(path: seq<Moment>, queues: seq<seq<int>>, dones: seq<nat>, nr: nat, blockSize: nat, q: seq<int>,
                    done: nat, m: Moment)
    requires FlushPath(path, queues, dones, nr, blockSize)
    requires Turn(path[|queues|], |queues|, q, done, m, nr, blockSize)
    ensures FlushPath(path + [m], queues + [q], dones + [done], nr, blockSize)
  {
    var path', queues', dones' := path + [m], queues + [q], dones + [done];
    forall k {:trigger TurnAt(path', queues', dones', nr, blockSize, k)} | 0 <= k < |queues'|
      ensures TurnAt(path', queues', dones', nr, blockSize, k)
    {
      if k < |queues| {
        assert TurnAt(path, queues, dones, nr, blockSize, k);
      }
    }
  }

  /** No turn makes a buffer dirty or gives it a name. */
  lemma TurnDirt(m: Moment, i: nat, q: seq<int>, done: nat, m': Moment, nr: nat, blockSize: nat, k: nat)
    requires Turn(m, i, q, done, m', nr, blockSize)
    ensures |m'.pool.blocks| == |m.pool.blocks|
    ensures DirtyAt(m'.pool, k) ==> DirtyAt(m.pool, k) && m'.pool.blocks[k].dev == m.pool.blocks[k].dev
  {
    if DirtyAt(m.pool, i) {
      FlushNames(m.pool, m.pool.blocks[i].dev, q, done, m'.pool);
      if k < |m.pool.blocks| && k in q {
        var j :| 0 <= j < |q| && q[j] == k;
        assert m'.pool.blocks[q[j]].dirty ==> m.pool.blocks[q[j]].dirty;
      }
    }
  }

  lemma {:induction false} PathDirt(path: seq<Moment>, queues: seq<seq<int>>, dones: seq<nat>, nr: nat, blockSize: nat,
                                    j: nat, l: nat, i: nat)
    requires FlushPath(path, queues, dones, nr, blockSize) && j <= l < |path|
    ensures |path[l].pool.blocks| == |path[j].pool.blocks|
    ensures DirtyAt(path[l].pool, i) ==>
              DirtyAt(path[j].pool, i) && path[l].pool.blocks[i].dev == path[j].pool.blocks[i].dev
    decreases l - j
  {
    if j < l {
      assert TurnAt(path, queues, dones, nr, blockSize, l - 1);
      TurnDirt(path[l - 1], l - 1, queues[l - 1], dones[l - 1], path[l], nr, blockSize, i);
      PathDirt(path, queues, dones, nr, blockSize, j, l - 1, i);
    }
  }

  /** Buffer i was dirty at its turn, and its device gave up then. */
  ghost predicate GivenUp(path: seq<Moment>, queues: seq<seq<int>>, dones: seq<nat>, i: int, dev: nat) {
    && 0 <= i < |queues| == |dones| < |path|
    && DirtyAt(path[i].pool, i) && path[i].pool.blocks[i].dev == dev && dones[i] < |queues[i]|
  }

  /** What is still dirty in the end is on a device that gave up when it was flushed for that buffer. */
  lemma StillDirty(path: seq<Moment>, queues: seq<seq<int>>, dones: seq<nat>, nr: nat, blockSize: nat, i: nat)
    requires FlushPath(path, queues, dones, nr, blockSize) && |queues| == |path[0].pool.blocks|
    requires DirtyAt(path[|queues|].pool, i)
    ensures GivenUp(path, queues, dones, i, path[|queues|].pool.blocks[i].dev)
  {
    PathDirt(path, queues, dones, nr, blockSize, 0, |queues|, i);
    PathDirt(path, queues, dones, nr, blockSize, i, |queues|, i);
    PathDirt(path, queues, dones, nr, blockSize, i + 1, |queues|, i);
    assert TurnAt(path, queues, dones, nr, blockSize, i);
    if dones[i] == |queues[i]| {
      FlushCleans(path[i].pool, path[i].pool.blocks[i].dev, queues[i], path[i + 1].pool);
    }
  }

  /** Devices that work write everything they are sent. */
  lemma {:induction false} WorkingPath(path: seq<Moment>, queues: seq<seq<int>>, dones: seq<nat>, nr: nat,
                                       blockSize: nat, k: nat)
    requires FlushPath(path, queues, dones, nr, blockSize) && path[0].script == [] && k < |path|
    ensures path[k].script == []
    ensures k < |queues| && DirtyAt(path[k].pool, k) ==> dones[k] == |queues[k]|
  {
    if k > 0 {
      WorkingPath(path, queues, dones, nr, blockSize, k - 1);
      WorkingTurn(path, queues, dones, nr, blockSize, k - 1);
    }
    if k < |queues| {
      WorkingTurn(path, queues, dones, nr, blockSize, k);
    }
  }

  lemma WorkingTurn(path: seq<Moment>, queues: seq<seq<int>>, dones: seq<nat>, nr: nat, blockSize: nat, k: nat)
    requires FlushPath(path, queues, dones, nr, blockSize) && k < |queues| && path[k].script == []
    ensures path[k + 1].script == [] && (DirtyAt(path[k].pool, k) ==> dones[k] == |queues[k]|)
  {
    assert TurnAt(path, queues, dones, nr, blockSize, k);
    if DirtyAt(path[k].pool, k) {
      WorkingFlush(path[k].pool, path[k].pool.blocks[k].dev, queues[k], dones[k], path[k + 1].pool, path[k + 1].script,
                   nr, blockSize);
    }
  }

  lemma AllFlushed(path: seq<Moment>, queues: seq<seq<int>>, dones: seq<nat>, nr: nat, blockSize: nat)
    requires FlushPath(path, queues, dones, nr, blockSize) && |queues| == |path[0].pool.blocks|
    ensures var p := path[|queues|].pool; forall i :: DirtyAt(p, i) ==> GivenUp(path, queues, dones, i, p.blocks[i].dev)
    ensures path[0].script == [] ==>
              path[|queues|].script == [] && CleanUpTo(path[|queues|].pool.blocks, |path[|queues|].pool.blocks|)
  {
    var p := path[|queues|].pool;
    forall i | DirtyAt(p, i)
      ensures GivenUp(path, queues, dones, i, p.blocks[i].dev)
    {
      StillDirty(path, queues, dones, nr, blockSize, i);
    }
    if path[0].script == [] {
      WorkingPath(path, queues, dones, nr, blockSize, |queues|);
      PathDirt(path, queues, dones, nr, blockSize, 0, |queues|, 0);
      forall i | 0 <= i < |p.blocks|
        ensures p.blocks[i].dev == NO_DEV || !p.blocks[i].dirty
      {
        WorkingPath(path, queues, dones, nr, blockSize, i);
        assert DirtyAt(p, i) ==> GivenUp(path, queues, dones, i, p.blocks[i].dev);
      }
    }
  }

  // ---------------------------------------------------------------- lmfs_rw_scattered, READING

  /** Of a queue only its longest leading run is asked for, once; `done` of it were delivered. */
  ghost predicate RunRead(blocks: seq<Block>, q: seq<int>, done: nat, script: seq<Answer>, rest: seq<Answer>, nr: nat,
                          blockSize: nat)
  {
    && nr > 0 && blockSize > 0 && (forall k :: 0 <= k < |q| ==> 0 <= q[k] < |blocks|)
    && if q == [] then done == 0 && rest == script
       else
         && done == Acked(script, RunLength(Numbers(blocks, q), nr), blockSize) && rest == Later(script)
         && (script == [] ==> LongestRun(Numbers(blocks, q), nr, done))
  }

  /** The first `done` buffers of q are valid on dev and hold what the disk has, the others are as
      nameless as before; all are used once less, and no other buffer changes. */
  ghost predicate ReadIn(p: Pool, dev: nat, q: seq<int>, done: nat, p': Pool) {
    && |p'.blocks| == |p.blocks| && p'.disk == p.disk && done <= |q|
    && p'.vm == (if done > 0 || q == [] then p.vm else map[])
    && (forall k :: 0 <= k < |q| ==> 0 <= q[k] < |p.blocks| && p'.blocks[q[k]].count + 1 == p.blocks[q[k]].count)
    && (forall k :: 0 <= k < done ==>
          && p'.blocks[q[k]].Name() == Id(dev, p.blocks[q[k]].blocknr)
          && p'.blocks[q[k]].data == Lookup(p.disk, p'.blocks[q[k]].Name()))
    && (forall k :: done <= k < |q| ==> p'.blocks[q[k]].dev == NO_DEV)
    && (forall i :: 0 <= i < |p.blocks| && i !in q ==> p'.blocks[i] == p.blocks[i])
  }

  lemma QueueRead(p: Pool, dev: nat, q: seq<int>, done: nat, gathered: seq<Block>)
    requires Fillable(p, dev, q) && Gathered(p, dev, q, done, gathered)
    ensures InUse(AfterGather(p, gathered, q, done).blocks, q)
    ensures ReadIn(p, dev, q, done, ReadBack(AfterGather(p, gathered, q, done), dev, q, done))
  {
    GatheredFillable(p, dev, q, done, gathered);
    ReadBackEffect(AfterGather(p, gathered, q, done), dev, q, done);
  }
}
