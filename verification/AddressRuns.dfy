/** Whole runs of the address spaces of all processes: mapping, first faults, copying, freeing and
    unmapping, in any order. */
module AddressRuns {
  import opened AddressSpace
  import opened ForkSharing
  import opened YieldInterface

  datatype Op =
    | MapRegion(p: nat, minv: int, maxv: int, length: int, memoryOk: bool)
    | FirstFault(p: nat, i: nat, page: nat, ph: nat, luck: FaultLuck)
    | CopyAll(dst: nat, src: nat, copies: seq<Luck>)
    | CopyFrom(dst: nat, src: nat, start: nat, copies: seq<Luck>)
    | FreeAll(p: nat)
    | UnmapPart(p: nat, i: nat, offset: int, len: int)

  datatype State = State(blocks: map<nat, int>, procs: seq<seq<Region>>, hints: seq<int>)

  /** What the source demands of its callers. */
  ghost predicate Allowed(s: State, op: Op) {
    match op
    case MapRegion(p, minv, maxv, length, _) =>
      p < |s.procs| == |s.hints| && Words(minv, maxv, length) && Regular(s.procs[p])
    case FirstFault(p, i, page, ph, _) =>
      && p < |s.procs| && i < |s.procs[p]| && page < |s.procs[p][i].pages|
      && s.procs[p][i].pages[page].None? && ph !in s.blocks
    case CopyAll(dst, src, copies) =>
      && dst < |s.procs| && src < |s.procs| && dst != src
      && s.procs[dst] == [] && s.procs[src] != [] && |copies| == |s.procs[src]|
    case CopyFrom(dst, src, start, copies) => CopyReady(s.procs, dst, src, start) && |copies| == |s.procs[src]|
    case FreeAll(p) => p < |s.procs|
    case UnmapPart(p, i, offset, len) =>
      && p < |s.procs| && i < |s.procs[p]|
      && 0 < offset && 0 <= len && offset + len < WORD && offset % PAGE == 0
  }

  /** The pages to unmap are a part of the region, and whole. */
  predicate Unmaps(s: State, op: Op)
    requires op.UnmapPart? && op.p < |s.procs| && op.i < |s.procs[op.p]|
  {
    op.offset + op.len <= s.procs[op.p][op.i].Length() && op.len % PAGE == 0
  }

  /** What an operation does to the regions and hints. No region is mapped at address 0. */
  ghost predicate Moves(s: State, op: Op, top: int, s': State)
    requires Allowed(s, op)
  {
    match op
    case MapRegion(p, minv, maxv, length, memoryOk) =>
      exists a, rs, hint ::
        MapResult(s.procs[p], s.hints[p], minv, maxv, length, top, memoryOk, a, rs, hint) && a != Found(0) &&
        s'.procs == s.procs[p := rs] && s'.hints == s.hints[p := hint]
    case FirstFault(p, i, page, ph, luck) =>
      s'.hints == s.hints && s'.procs == if luck.Keeps() then FirstMapped(s.procs, p, i, page, ph) else s.procs
    case CopyAll(dst, src, copies) =>
      && s'.hints == s.hints
      && s'.procs == if AllSucceed(s.procs[src], copies, 0, |copies|) then s.procs[dst := s.procs[src]] else s.procs
    case CopyFrom(dst, src, start, copies) =>
      && s'.hints == s.hints
      && s'.procs == s.procs[dst := if AllSucceed(s.procs[src], copies, start, |copies|)
                                    then s.procs[dst] + s.procs[src][start..] else []]
    case FreeAll(p) => s'.hints == s.hints && s'.procs == s.procs[p := []]
    case UnmapPart(p, i, offset, len) =>
      s'.hints == s.hints && s'.procs == if Unmaps(s, op) then UnmappedIn(s.procs, p, i, offset, len) else s.procs
  }

  /** What it does to the reference counts. */
  ghost predicate Counts(s: State, op: Op, m: map<nat, int>)
    requires Allowed(s, op)
  {
    match op
    case MapRegion(_, _, _, _, _) => m == s.blocks
    case FirstFault(_, _, _, ph, luck) => m == if luck.Keeps() then s.blocks[ph := 1] else s.blocks
    case CopyAll(dst, src, copies) =>
      if AllSucceed(s.procs[src], copies, 0, |copies|) then Gains(s.blocks, m, s.procs[src]) else m == s.blocks
    case CopyFrom(dst, src, start, copies) =>
      if AllSucceed(s.procs[src], copies, start, |copies|)
      then Gains(s.blocks, m, s.procs[src][start..]) else Loses(s.blocks, m, s.procs[dst])
    case FreeAll(p) => Loses(s.blocks, m, s.procs[p])
    case UnmapPart(p, i, offset, len) =>
      if Unmaps(s, op)
      then LosesPages(s.blocks, m, s.procs[p][i], Unmapped(s.procs[p][i], offset, len)) else m == s.blocks
  }

  ghost predicate Step(s: State, op: Op, top: int, s': State) {
    Allowed(s, op) && Moves(s, op, top, s') && Counts(s, op, s'.blocks) && Positive(s'.blocks)
  }

  ghost predicate Sane(s: State, top: int) {
    Good(s.blocks, s.procs, s.hints, top)
  }

  // ---------------------------------------------------------------- every step keeps the invariant

  lemma GainsSettle(m: map<nat, int>, m': map<nat, int>, procs: seq<seq<Region>>, p: nat, rs: seq<Region>)
    requires p < |procs| && Settled(m, procs) && Gains(m, m', rs)
    ensures Settled(m', procs[p := procs[p] + rs])
  {
    forall b: nat {:trigger Ref(m', b)}
      ensures Ref(m', b) == AllUses(procs[p := procs[p] + rs], b)
    {
      assert Ref(m, b) == AllUses(procs, b);
      AllUsesSet(procs, p, procs[p] + rs, b);
      RegionUsesConcat(procs[p], rs, b);
    }
  }

  lemma LosesSettle(m: map<nat, int>, m': map<nat, int>, procs: seq<seq<Region>>, p: nat)
    requires p < |procs| && Settled(m, procs) && Loses(m, m', procs[p])
    ensures Settled(m', procs[p := []])
  {
    forall b: nat {:trigger Ref(m', b)}
      ensures Ref(m', b) == AllUses(procs[p := []], b)
    {
      assert Ref(m, b) == AllUses(procs, b);
      AllUsesSet(procs, p, [], b);
    }
  }

  lemma PagesSettle(m: map<nat, int>, m': map<nat, int>, procs: seq<seq<Region>>, p: nat, i: nat, r: Region)
    requires p < |procs| && i < |procs[p]| && Settled(m, procs) && LosesPages(m, m', procs[p][i], r)
    ensures Settled(m', procs[p := procs[p][i := r]])
  {
    forall b: nat {:trigger Ref(m', b)}
      ensures Ref(m', b) == AllUses(procs[p := procs[p][i := r]], b)
    {
      assert Ref(m, b) == AllUses(procs, b);
      RegionChanges(procs, p, i, r, b);
    }
  }

  /** The process's own hint stays with its new regions. */
  lemma Replaced(s: State, top: int, m: map<nat, int>, p: nat, rs: seq<Region>)
    requires Sane(s, top) && p < |s.procs| && Fits(rs, s.hints[p], top)
    requires Positive(m) && Settled(m, s.procs[p := rs])
    ensures Good(m, s.procs[p := rs], s.hints, top)
  {
    assert s.hints[p := s.hints[p]] == s.hints;
    OneChanged(s.blocks, s.procs, s.hints, top, m, p, rs, s.hints[p]);
  }

  lemma CopyKeeps(s: State, top: int, dst: nat, src: nat, start: nat, m: map<nat, int>)
    requires Sane(s, top) && CopyReady(s.procs, dst, src, start) && Positive(m)
    ensures Gains(s.blocks, m, s.procs[src][start..]) ==>
              Good(m, s.procs[dst := s.procs[dst] + s.procs[src][start..]], s.hints, top)
    ensures Loses(s.blocks, m, s.procs[dst]) ==> Good(m, s.procs[dst := []], s.hints, top)
  {
    var rs := s.procs[src][start..];
    CopyFits(s.procs, s.hints, top, dst, src, start, s.blocks);
    if Gains(s.blocks, m, rs) {
      GainsSettle(s.blocks, m, s.procs, dst, rs);
      Replaced(s, top, m, dst, s.procs[dst] + rs);
    }
    if Loses(s.blocks, m, s.procs[dst]) {
      LosesSettle(s.blocks, m, s.procs, dst);
      Replaced(s, top, m, dst, []);
    }
  }

  lemma CopyAllReady(s: State, top: int, dst: nat, src: nat)
    requires Sane(s, top) && dst < |s.procs| && src < |s.procs| && dst != src
    requires s.procs[dst] == [] && s.procs[src] != []
    ensures CopyReady(s.procs, dst, src, 0)
    ensures s.procs[src][0..] == s.procs[src] && s.procs[dst] + s.procs[src] == s.procs[src]
  {
    GoodInOrder(s.blocks, s.procs, s.hints, top);
  }

  lemma MapSane(s: State, op: Op, top: int, s': State)
    requires Sane(s, top) && op.MapRegion? && Step(s, op, top, s')
    ensures Sane(s', top)
  {
    var a, rs, hint :|
      MapResult(s.procs[op.p], s.hints[op.p], op.minv, op.maxv, op.length, top, op.memoryOk, a, rs, hint) &&
      a != Found(0) && s'.procs == s.procs[op.p := rs] && s'.hints == s.hints[op.p := hint];
    MapGood(s.blocks, s.procs, s.hints, top, op.p, op.minv, op.maxv, op.length, op.memoryOk, a, rs, hint);
  }

  lemma CopySane(s: State, op: Op, top: int, s': State)
    requires Sane(s, top) && (op.CopyAll? || op.CopyFrom?) && Step(s, op, top, s')
    ensures Sane(s', top)
  {
    if op.CopyAll? {
      CopyAllReady(s, top, op.dst, op.src);
      CopyKeeps(s, top, op.dst, op.src, 0, s'.blocks);
    } else {
      CopyKeeps(s, top, op.dst, op.src, op.start, s'.blocks);
    }
  }

  lemma UnmapSane(s: State, op: Op, top: int, s': State)
    requires Sane(s, top) && op.UnmapPart? && Step(s, op, top, s')
    ensures Sane(s', top)
  {
    if Unmaps(s, op) {
      var rs := s.procs[op.p];
      var r := Unmapped(rs[op.i], op.offset, op.len);
      assert Fits(rs, s.hints[op.p], top);
      UnmapFits(rs, s.hints[op.p], top, op.i, op.offset, op.len);
      PagesSettle(s.blocks, s'.blocks, s.procs, op.p, op.i, r);
      Replaced(s, top, s'.blocks, op.p, rs[op.i := r]);
    }
  }

  /** Every operation keeps all address spaces in order and all counts right. */
  lemma StepSane(s: State, op: Op, top: int, s': State)
    requires Sane(s, top) && Step(s, op, top, s')
    ensures Sane(s', top)
  {
    match op
    case MapRegion(_, _, _, _, _) => MapSane(s, op, top, s');
    case FirstFault(p, i, page, ph, luck) =>
      if luck.Keeps() {
        FirstGood(s.blocks, s.procs, s.hints, top, p, i, page, ph);
      }
    case CopyAll(_, _, _) => CopySane(s, op, top, s');
    case CopyFrom(_, _, _, _) => CopySane(s, op, top, s');
    case FreeAll(p) =>
      LosesSettle(s.blocks, s'.blocks, s.procs, p);
      assert Fits(s.procs[p], s.hints[p], top);
      Replaced(s, top, s'.blocks, p, []);
    case UnmapPart(_, _, _, _) => UnmapSane(s, op, top, s');
  }

  // ---------------------------------------------------------------- runs

  ghost predicate Start(s: State, top: int) {
    s.blocks == map[] && NothingMapped(s.procs, s.hints) && PAGE <= top && top + PAGE < WORD && top % PAGE == 0
  }

  ghost predicate IsRun(states: seq<State>, ops: seq<Op>, top: int) {
    && |states| == |ops| + 1
    && (forall i {:trigger StepAt(states, ops, top, i)} :: 0 <= i < |ops| ==> StepAt(states, ops, top, i))
  }

  ghost predicate StepAt(states: seq<State>, ops: seq<Op>, top: int, i: nat)
    requires i < |ops| < |states|
  {
    Step(states[i], ops[i], top, states[i + 1])
  }

  lemma {:induction false} RunSane(states: seq<State>, ops: seq<Op>, top: int, n: nat)
    requires IsRun(states, ops, top) && Start(states[0], top) && n <= |ops|
    ensures Sane(states[n], top)
  {
    if n == 0 {
      StartGood(states[0].procs, states[0].hints, top);
    } else {
      RunSane(states, ops, top, n - 1);
      assert StepAt(states, ops, top, n - 1);
      StepSane(states[n - 1], ops[n - 1], top, states[n]);
    }
  }

  /** In every reachable state the regions of every process are aligned, below the top of the data
      space, in address order and disjoint. */
  lemma RunDisjoint(states: seq<State>, ops: seq<Op>, top: int, n: nat, p: nat, i: nat)
    requires IsRun(states, ops, top) && Start(states[0], top) && n <= |ops|
    requires p < |states[n].procs| && i < |states[n].procs[p]|
    ensures var rs := states[n].procs[p];
            && rs[i].vaddr % PAGE == 0 && PAGE <= rs[i].vaddr < rs[i].End() <= top
            && forall j :: i < j < |rs| ==> rs[i].End() <= rs[j].vaddr
  {
    RunSane(states, ops, top, n);
    var rs := states[n].procs[p];
    assert Fits(rs, states[n].hints[p], top);
    assert i > 0 ==> rs[0].End() <= rs[i].vaddr;
    assert rs[i].vaddr % PAGE == 0 && rs[i].pages != [];
  }

  /** In every reachable state one probe finds the one region that contains an address, exactly if there
      is one. */
  lemma RunLookup(states: seq<State>, ops: seq<Op>, top: int, n: nat, p: nat, a: int, i: nat)
    requires IsRun(states, ops, top) && Start(states[0], top) && n <= |ops| && p < |states[n].procs|
    ensures Regular(states[n].procs[p])
    ensures Lookup(states[n].procs[p], a) == Some(i) <==>
              i < |states[n].procs[p]| && states[n].procs[p][i].Contains(a)
  {
    RunSane(states, ops, top, n);
    assert Fits(states[n].procs[p], states[n].hints[p], top);
    LookupExact(states[n].procs[p], a, i);
  }

  /** In every reachable state each block is counted exactly as often as the pages of all processes refer
      to it, no block in use has count 0, and every page refers to a block in use. */
  lemma RunCounts(states: seq<State>, ops: seq<Op>, top: int, n: nat, b: nat)
    requires IsRun(states, ops, top) && Start(states[0], top) && n <= |ops|
    ensures Ref(states[n].blocks, b) == AllUses(states[n].procs, b)
    ensures b in states[n].blocks <==> AllUses(states[n].procs, b) > 0
    ensures forall p, i {:trigger states[n].procs[p][i]} ::
              0 <= p < |states[n].procs| && 0 <= i < |states[n].procs[p]| ==>
                Live(states[n].procs[p][i], states[n].blocks)
  {
    RunSane(states, ops, top, n);
    var s := states[n];
    assert Ref(s.blocks, b) == AllUses(s.procs, b);
    forall p, i | 0 <= p < |s.procs| && 0 <= i < |s.procs[p]|
      ensures Live(s.procs[p][i], s.blocks)
    {
      RegionLive(s.blocks, s.procs, p, i);
    }
  }

  // ---------------------------------------------------------------- on the process table

  ghost function StateOf(vm: Vm): State
    reads vm`blocks, vm.table
  {
    State(vm.blocks, vm.Procs(), vm.Hints())
  }

  /** Every operation of the process table is a step, if it maps at or above the first page. */
  method Do(vm: Vm, op: Op)
    requires vm.Valid() && Allowed(StateOf(vm), op) && (op.MapRegion? ==> PAGE <= op.minv)
    modifies vm`blocks, vm.table
    ensures vm.Valid() && Step(old(StateOf(vm)), op, vm.top, StateOf(vm))
  {
    if op.MapRegion? {
      DoMap(vm, op);
    } else if op.CopyAll? || op.CopyFrom? {
      DoCopy(vm, op);
    } else if op.UnmapPart? {
      DoUnmap(vm, op);
    } else {
      DoOther(vm, op);
    }
  }

  method DoMap(vm: Vm, op: Op)
    requires vm.Valid() && op.MapRegion? && Allowed(StateOf(vm), op) && PAGE <= op.minv
    modifies vm`blocks, vm.table
    ensures vm.Valid() && Step(old(StateOf(vm)), op, vm.top, StateOf(vm))
  {
    var a := vm.Map(op.p, op.minv, op.maxv, op.length, op.memoryOk);
  }

  method DoCopy(vm: Vm, op: Op)
    requires vm.Valid() && (op.CopyAll? || op.CopyFrom?) && Allowed(StateOf(vm), op)
    modifies vm`blocks, vm.table
    ensures vm.Valid() && Step(old(StateOf(vm)), op, vm.top, StateOf(vm))
  {
    if op.CopyAll? {
      var ok := vm.CopyProc(op.dst, op.src, op.copies);
    } else {
      var ok := vm.CopyProcFrom(op.dst, op.src, op.start, op.copies);
    }
  }

  method DoUnmap(vm: Vm, op: Op)
    requires vm.Valid() && op.UnmapPart? && Allowed(StateOf(vm), op)
    modifies vm`blocks, vm.table
    ensures vm.Valid() && Step(old(StateOf(vm)), op, vm.top, StateOf(vm))
  {
    var ok := vm.Unmap(op.p, op.i, op.offset, op.len);
  }

  method DoOther(vm: Vm, op: Op)
    requires vm.Valid() && (op.FirstFault? || op.FreeAll?) && Allowed(StateOf(vm), op)
    modifies vm`blocks, vm.table
    ensures vm.Valid() && Step(old(StateOf(vm)), op, vm.top, StateOf(vm))
  {
    if op.FirstFault? {
      var ok := vm.MapFirst(op.p, op.i, op.page, op.ph, op.luck);
    } else {
      vm.FreeProc(op.p);
    }
  }
}
