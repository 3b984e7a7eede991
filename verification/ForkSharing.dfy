/** Copying, freeing and unmapping of address spaces that share physical blocks by reference count. */
module ForkSharing {
  import opened AddressSpace
  import opened Chains
  import opened YieldInterface

  // ---------------------------------------------------------------- references

  /** How many of the pages refer to block b. */
  ghost function Uses(pages: seq<Option<PhysRegion>>, b: nat): (n: int)
    ensures n >= 0
  {
    if pages == [] then 0 else Uses(pages[..|pages| - 1], b) + Use(pages[|pages| - 1], b)
  }

  ghost function Use(page: Option<PhysRegion>, b: nat): int {
    if page.Some? && page.value.ph == b then 1 else 0
  }

  ghost function RegionUses(rs: seq<Region>, b: nat): (n: int)
    ensures n >= 0
  {
    if rs == [] then 0 else RegionUses(rs[..|rs| - 1], b) + Uses(rs[|rs| - 1].pages, b)
  }

  /** The references of all processes to block b. */
  ghost function AllUses(procs: seq<seq<Region>>, b: nat): (n: int)
    ensures n >= 0
  {
    if procs == [] then 0 else AllUses(procs[..|procs| - 1], b) + RegionUses(procs[|procs| - 1], b)
  }

  function Ref(blocks: map<nat, int>, b: nat): int {
    if b in blocks then blocks[b] else 0
  }

  /** Every block in use has a reference. */
  ghost predicate Positive(blocks: map<nat, int>) {
    forall b: nat {:trigger b in blocks} :: b in blocks ==> blocks[b] > 0
  }

  /** Every block has a reference, except perhaps one just made. */
  ghost predicate PositiveBut(blocks: map<nat, int>, ph: nat) {
    forall b: nat {:trigger b in blocks} :: b in blocks ==> if b == ph then blocks[b] >= 0 else blocks[b] > 0
  }

  /** Apart from the references of `pages` the counts `blocks` are those of `blocks0` apart from
      `pages0`. */
  ghost predicate Balanced(blocks0: map<nat, int>, pages0: seq<Option<PhysRegion>>,
                           blocks: map<nat, int>, pages: seq<Option<PhysRegion>>)
  {
    forall b: nat {:trigger Ref(blocks, b)} :: Ref(blocks, b) - Uses(pages, b) == Ref(blocks0, b) - Uses(pages0, b)
  }

  /** Each page's reference is counted. */
  ghost predicate Covers(blocks: map<nat, int>, pages: seq<Option<PhysRegion>>) {
    forall b: nat {:trigger Uses(pages, b)} :: Uses(pages, b) <= Ref(blocks, b)
  }

  /** The counts are exactly the references of the processes. */
  ghost predicate Settled(blocks: map<nat, int>, procs: seq<seq<Region>>) {
    forall b: nat {:trigger Ref(blocks, b)} :: Ref(blocks, b) == AllUses(procs, b)
  }

  lemma SameCounts(m: map<nat, int>, m': map<nat, int>)
    requires Positive(m) && Positive(m') &&
              forall b: nat {:trigger Ref(m, b)} {:trigger Ref(m', b)} :: Ref(m, b) == Ref(m', b)
    ensures m == m'
  {
    forall b: nat
      ensures b in m <==> b in m'
      ensures b in m ==> m[b] == m'[b]
    {
      assert Ref(m, b) == Ref(m', b);
    }
  }

  lemma {:induction false} UsesSet(pages: seq<Option<PhysRegion>>, i: nat, page: Option<PhysRegion>, b: nat)
    requires i < |pages|
    ensures Use(pages[i], b) <= Uses(pages, b)
    ensures Uses(pages[i := page], b) == Uses(pages, b) - Use(pages[i], b) + Use(page, b)
  {
    var n := |pages| - 1;
    if i < n {
      UsesSet(pages[..n], i, page, b);
      assert pages[i := page][..n] == pages[..n][i := page];
    } else {
      assert pages[i := page][..n] == pages[..n];
    }
  }

  lemma {:induction false} NoUses(pages: seq<Option<PhysRegion>>, b: nat)
    requires forall i :: 0 <= i < |pages| ==> pages[i].None?
    ensures Uses(pages, b) == 0
  {
    if pages != [] {
      NoUses(pages[..|pages| - 1], b);
    }
  }

  lemma {:induction false} RegionUsesConcat(s: seq<Region>, t: seq<Region>, b: nat)
    ensures RegionUses(s + t, b) == RegionUses(s, b) + RegionUses(t, b)
  {
    if t == [] {
      assert s + t == s;
    } else {
      var n := |t| - 1;
      assert (s + t)[..|s| + n] == s + t[..n];
      RegionUsesConcat(s, t[..n], b);
    }
  }

  lemma {:induction false} RegionUsesSet(rs: seq<Region>, i: nat, r: Region, b: nat)
    requires i < |rs|
    ensures Uses(rs[i].pages, b) <= RegionUses(rs, b)
    ensures RegionUses(rs[i := r], b) == RegionUses(rs, b) - Uses(rs[i].pages, b) + Uses(r.pages, b)
  {
    var n := |rs| - 1;
    if i < n {
      RegionUsesSet(rs[..n], i, r, b);
      assert rs[i := r][..n] == rs[..n][i := r];
    } else {
      assert rs[i := r][..n] == rs[..n];
    }
  }

  lemma RegionUsesRemove(rs: seq<Region>, i: nat, b: nat)
    requires i < |rs|
    ensures RegionUses(rs[..i] + rs[i + 1..], b) == RegionUses(rs, b) - Uses(rs[i].pages, b)
  {
    assert rs == rs[..i] + [rs[i]] + rs[i + 1..];
    RegionUsesConcat(rs[..i] + [rs[i]], rs[i + 1..], b);
    RegionUsesConcat(rs[..i], [rs[i]], b);
    RegionUsesConcat(rs[..i], rs[i + 1..], b);
    assert [rs[i]][..0] == [];
  }

  lemma {:induction false} AllUsesSet(procs: seq<seq<Region>>, p: nat, rs: seq<Region>, b: nat)
    requires p < |procs|
    ensures RegionUses(procs[p], b) <= AllUses(procs, b)
    ensures AllUses(procs[p := rs], b) == AllUses(procs, b) - RegionUses(procs[p], b) + RegionUses(rs, b)
  {
    var n := |procs| - 1;
    if p < n {
      AllUsesSet(procs[..n], p, rs, b);
      assert procs[p := rs][..n] == procs[..n][p := rs];
    } else {
      assert procs[p := rs][..n] == procs[..n];
    }
  }

  // ---------------------------------------------------------------- regions

  ghost predicate AllPlaced(rs: seq<Region>) {
    forall i :: 0 <= i < |rs| ==> rs[i].Placed()
  }

  /** Whether allocating a copy of a region and its memtype's copy event succeed, and the pages whose
      reference fails. */
  datatype Luck = Luck(region: bool, event: bool, failing: set<nat>)

  /** No reference of the first n pages fails. */
  ghost predicate NoneFails(pages: seq<Option<PhysRegion>>, failing: set<nat>, n: nat)
    requires n <= |pages|
  {
    n == 0 || (NoneFails(pages, failing, n - 1) && (pages[n - 1].Some? ==> n - 1 !in failing))
  }

  lemma {:induction false} NoneFailsBefore(pages: seq<Option<PhysRegion>>, failing: set<nat>, m: nat, n: nat)
    requires m <= n <= |pages| && NoneFails(pages, failing, n)
    ensures NoneFails(pages, failing, m)
  {
    if m < n {
      NoneFailsBefore(pages, failing, m, n - 1);
    }
  }

  ghost predicate CopySucceeds(r: Region, luck: Luck) {
    luck.region && luck.event && NoneFails(r.pages, luck.failing, |r.pages|)
  }

  /** Every allocation that the copy of a region needs is granted. */
  ghost predicate Granted(r: Region, luck: Luck) {
    luck.region && luck.event && forall k :: 0 <= k < |r.pages| && r.pages[k].Some? ==> k !in luck.failing
  }

  lemma {:induction false} NoneFailsExactly(pages: seq<Option<PhysRegion>>, failing: set<nat>, n: nat)
    requires n <= |pages|
    ensures NoneFails(pages, failing, n) <==> forall k :: 0 <= k < n && pages[k].Some? ==> k !in failing
  {
    if n > 0 {
      NoneFailsExactly(pages, failing, n - 1);
    }
  }

  /** A copy fails only for want of memory. */
  lemma SucceedsIfGranted(r: Region, luck: Luck)
    ensures CopySucceeds(r, luck) <==> Granted(r, luck)
  {
    NoneFailsExactly(r.pages, luck.failing, |r.pages|);
  }

  /** Every block of the region's pages is in use. */
  ghost predicate Live(r: Region, blocks: map<nat, int>) {
    forall k {:trigger r.pages[k]} :: 0 <= k < |r.pages| && r.pages[k].Some? ==> r.pages[k].value.ph in blocks
  }

  function WithPage(r: Region, p: nat, page: Option<PhysRegion>): Region
    requires p < |r.pages|
  {
    Region(r.vaddr, r.pages[p := page])
  }

  /** A copy of the first p pages. */
  function CopiedUpTo(r: Region, p: nat): (c: Region)
    ensures c.vaddr == r.vaddr && |c.pages| == |r.pages|
    ensures forall i {:trigger c.pages[i]} :: 0 <= i < |r.pages| ==> c.pages[i] == if i < p then r.pages[i] else None
  {
    Region(r.vaddr, seq(|r.pages|, i requires 0 <= i < |r.pages| => if i < p then r.pages[i] else None))
  }

  /** A region without the pages from..to. */
  function Cleared(r: Region, from: nat, to: nat): (c: Region)
    ensures c.vaddr == r.vaddr && |c.pages| == |r.pages|
    ensures forall i {:trigger c.pages[i]} :: 0 <= i < |r.pages| ==>
              c.pages[i] == if from <= i < to then None else r.pages[i]
  {
    Region(r.vaddr, seq(|r.pages|, i requires 0 <= i < |r.pages| => if from <= i < to then None else r.pages[i]))
  }

  lemma CopiedEnds(r: Region)
    ensures CopiedUpTo(r, 0) == Fresh(r.vaddr, r.Length()) && CopiedUpTo(r, |r.pages|) == r
  {
    assert CopiedUpTo(r, 0).pages == Fresh(r.vaddr, r.Length()).pages;
    assert CopiedUpTo(r, |r.pages|).pages == r.pages;
  }

  lemma CopiedNext(r: Region, p: nat)
    requires p < |r.pages|
    ensures var c, d := CopiedUpTo(r, p), CopiedUpTo(r, p + 1);
            d == WithPage(c, p, r.pages[p]) && c.pages[p] == None && (r.pages[p].None? ==> d == c)
  {
    var c, d := CopiedUpTo(r, p), CopiedUpTo(r, p + 1);
    assert d.pages == c.pages[p := r.pages[p]];
    assert r.pages[p].None? ==> d.pages == c.pages;
  }

  lemma ClearedNone(r: Region, from: nat)
    ensures Cleared(r, from, from) == r
  {
    assert Cleared(r, from, from).pages == r.pages;
  }

  lemma ClearedNext(r: Region, from: nat, p: nat)
    requires from <= p < |r.pages|
    ensures WithPage(Cleared(r, from, p), p, None) == Cleared(r, from, p + 1)
  {
    assert WithPage(Cleared(r, from, p), p, None).pages == Cleared(r, from, p + 1).pages;
  }

  /** Whether making a block, its reference, the memtype's handler and the write of the page table
      succeed. */
  datatype FaultLuck = FaultLuck(made: bool, referenced: bool, handled: bool, written: bool) {

    predicate Keeps() {
      made && referenced && handled
    }
  }

  ghost function RegionsOf(table: seq<VmProc>): (r: seq<seq<Region>>)
    reads table`regions
    ensures |r| == |table| && forall p :: 0 <= p < |table| ==> r[p] == table[p].regions
  {
    if table == [] then [] else RegionsOf(table[..|table| - 1]) + [table[|table| - 1].regions]
  }

  ghost function HintsOf(table: seq<VmProc>): (r: seq<int>)
    reads table`hint
    ensures |r| == |table| && forall p :: 0 <= p < |table| ==> r[p] == table[p].hint
  {
    if table == [] then [] else HintsOf(table[..|table| - 1]) + [table[|table| - 1].hint]
  }

  class Vm {
    /** The reference counts of the physical blocks in use. */
    var blocks: map<nat, int>
    /** The process table, and the top of the data space. */
    const table: seq<VmProc>
    const top: int

    /** The regions of each process, in address order. */
    ghost function Procs(): (r: seq<seq<Region>>)
      reads table`regions
      ensures |r| == |table| && forall p {:trigger r[p]} {:trigger table[p]} :: 0 <= p < |table| ==>
                r[p] == table[p].regions
    {
      RegionsOf(table)
    }

    ghost function Hints(): (r: seq<int>)
      reads table`hint
      ensures |r| == |table| && forall p {:trigger r[p]} {:trigger table[p]} :: 0 <= p < |table| ==>
                r[p] == table[p].hint
    {
      HintsOf(table)
    }

    ghost predicate Tabled() {
      NoDup(table) && forall p {:trigger table[p]} :: 0 <= p < |table| ==> table[p].top == top
    }

    method SetRegions(p: nat, rs: seq<Region>)
      requires Tabled() && p < |table|
      modifies {table[p]}`regions
      ensures Procs() == old(Procs())[p := rs]
    {
      table[p].regions := rs;
    }

    /** pb_reference: one more page of the region refers to the block, unless memory runs out. */
    method Reference(ph: nat, offset: int, region: Region, ok: bool, ghost p: nat) returns (r: Option<Region>)
      requires PositiveBut(blocks, ph) && ph in blocks
      requires p < |region.pages| && offset == p * PAGE && region.pages[p].None?
      modifies this`blocks
      ensures r == if ok then Some(WithPage(region, p, Some(PhysRegion(ph, offset)))) else None
      ensures blocks == if ok then old(blocks)[ph := old(blocks)[ph] + 1] else old(blocks)
      ensures ok ==> Positive(blocks)
      ensures Balanced(old(blocks), region.pages, blocks, if ok then r.value.pages else region.pages)
    {
      if !ok {
        return None;
      }
      blocks := blocks[ph := blocks[ph] + 1];
      r := Some(WithPage(region, offset / PAGE, Some(PhysRegion(ph, offset))));
      forall b: nat {
        UsesSet(region.pages, p, Some(PhysRegion(ph, offset)), b);
      }
    }

    /** pb_unreferenced: the page goes, and the block with its last reference. */
    method Unreference(region: Region, pr: PhysRegion, ghost p: nat) returns (r: Region)
      requires p < |region.pages| && pr.offset == p * PAGE && region.pages[p] == Some(pr)
      requires Positive(blocks) && Covers(blocks, region.pages)
      modifies this`blocks
      ensures r == WithPage(region, p, None)
      ensures Positive(blocks) && Balanced(old(blocks), region.pages, blocks, r.pages)
    {
      forall b: nat {
        UsesSet(region.pages, p, None, b);
      }
      assert Use(region.pages[p], pr.ph) == 1 && Uses(region.pages, pr.ph) <= Ref(blocks, pr.ph);
      if blocks[pr.ph] == 1 {
        blocks := blocks - {pr.ph};
      } else {
        blocks := blocks[pr.ph := blocks[pr.ph] - 1];
      }
      r := WithPage(region, pr.offset / PAGE, None);
    }

    /** map_subfree: the pages from..to go, and their references with them. */
    method Subfree(region: Region, from: nat, to: nat) returns (r: Region)
      requires from <= to <= |region.pages|
      requires region.Placed() && Positive(blocks) && Covers(blocks, region.pages)
      modifies this`blocks
      ensures r == Cleared(region, from, to)
      ensures Positive(blocks) && Balanced(old(blocks), region.pages, blocks, r.pages)
    {
      r := region;
      ClearedNone(region, from);
      for p := from to to
        invariant r == Cleared(region, from, p)
        invariant Positive(blocks) && Balanced(old(blocks), region.pages, blocks, r.pages)
      {
        ClearedNext(region, from, p);
        if r.pages[p].Some? {
          StillCovers(old(blocks), region.pages, blocks, r.pages);
          r := Unreference(r, r.pages[p].value, p);
        } else {
          assert WithPage(r, p, None).pages == r.pages;
        }
      }
    }

    /** map_free: all references of a region go. */
    method Free(region: Region)
      requires region.Placed() && Positive(blocks) && Covers(blocks, region.pages)
      modifies this`blocks
      ensures Positive(blocks) && Balanced(old(blocks), region.pages, blocks, [])
    {
      var r := Subfree(region, 0, |region.pages|);
      forall b: nat {
        NoUses(r.pages, b);
      }
    }

    /** The copy's p-th page refers to the same block. */
    method CopyPage(vr: Region, newvr: Region, p: nat, ok: bool) returns (r: Option<Region>)
      requires vr.Placed() && p < |vr.pages| && newvr == CopiedUpTo(vr, p) && Live(vr, blocks) && Positive(blocks)
      modifies this`blocks
      ensures r == if vr.pages[p].None? || ok then Some(CopiedUpTo(vr, p + 1)) else None
      ensures Positive(blocks) && Live(vr, blocks)
      ensures Balanced(old(blocks), newvr.pages, blocks, if r.Some? then r.value.pages else newvr.pages)
    {
      r := Some(newvr);
      var ph := vr.pages[p];
      CopiedNext(vr, p);
      if ph.Some? {
        r := Reference(ph.value.ph, ph.value.offset, newvr, ok, p);
      }
    }

    /** The pages of a copy, up to the first whose reference fails. */
    method CopyPages(vr: Region, empty: Region, failing: set<nat>) returns (ok: bool, newvr: Region, ghost n: nat)
      requires vr.Placed() && Live(vr, blocks) && Positive(blocks) && empty == CopiedUpTo(vr, 0)
      modifies this`blocks
      ensures n <= |vr.pages| && newvr == CopiedUpTo(vr, n)
      ensures Positive(blocks) && Balanced(old(blocks), empty.pages, blocks, newvr.pages)
      ensures if ok then n == |vr.pages| && NoneFails(vr.pages, failing, n)
              else n < |vr.pages| && !NoneFails(vr.pages, failing, n + 1)
    {
      newvr, n := empty, 0;
      for p := 0 to |vr.pages|
        invariant n == p && newvr == CopiedUpTo(vr, p)
        invariant Positive(blocks) && Live(vr, blocks) && Balanced(old(blocks), empty.pages, blocks, newvr.pages)
        invariant NoneFails(vr.pages, failing, p)
      {
        var next := CopyPage(vr, newvr, p, p !in failing);
        if next.None? {
          return false, newvr, n;
        }
        newvr, n := next.value, n + 1;
      }
      ok := true;
    }

    /** map_copy_region: an equal region that refers to the same blocks once more; a failure at any
        point takes every new reference back. */
    method CopyRegion(vr: Region, luck: Luck) returns (r: Option<Region>)
      requires vr.Placed() && Live(vr, blocks) && Positive(blocks)
      modifies this`blocks
      ensures r == if CopySucceeds(vr, luck) then Some(vr) else None
      ensures r.Some? <==> Granted(vr, luck)
      ensures Positive(blocks) && Balanced(old(blocks), [], blocks, if r.Some? then vr.pages else [])
      ensures r.None? ==> blocks == old(blocks)
    {
      SucceedsIfGranted(vr, luck);
      if !luck.region {
        return None;
      }
      var newvr := Fresh(vr.vaddr, vr.Length());
      CopiedEnds(vr);
      forall b: nat {
        NoUses(newvr.pages, b);
      }
      if !luck.event {
        Free(newvr);
        SameCounts(blocks, old(blocks));
        return None;
      }
      var ok;
      ghost var n;
      ok, newvr, n := CopyPages(vr, newvr, luck.failing);
      if !ok {
        if NoneFails(vr.pages, luck.failing, |vr.pages|) {
          NoneFailsBefore(vr.pages, luck.failing, n + 1, |vr.pages|);
        }
        Free(newvr);
        SameCounts(blocks, old(blocks));
        return None;
      }
      return Some(newvr);
    }

    ghost predicate Valid()
      reads this`blocks, table
    {
      Tabled() && Good(blocks, Procs(), Hints(), top)
    }

    /** n processes without regions. */
    constructor (n: nat, top: int)
      requires PAGE <= top && top + PAGE < WORD && top % PAGE == 0
      ensures Valid() && fresh(table)
      ensures Procs() == seq(n, _ => []) && blocks == map[] && this.top == top
    {
      var t: seq<VmProc> := [];
      while |t| < n
        invariant |t| <= n && fresh(t) && NoDup(t)
        invariant forall p {:trigger t[p]} :: 0 <= p < |t| ==> t[p].top == top && t[p].regions == [] && t[p].hint == 0
      {
        var proc := new VmProc(top);
        t := t + [proc];
      }
      blocks, table := map[], t;
      this.top := top;
      new;
      assert Procs() == seq(n, _ => []);
      StartGood(Procs(), Hints(), top);
    }

    /** map_page_region for one process. Only a region at address 0 breaks the invariant, which minv at
        or above the first page rules out. */
    method Map(p: nat, minv: int, maxv: int, length: int, memoryOk: bool) returns (a: Answer)
      requires Valid() && p < |table| && Words(minv, maxv, length)
      modifies {table[p]}
      ensures (Valid() <==> a != Found(0)) && (PAGE <= minv ==> a != Found(0))
      ensures MapResult(old(Procs()[p]), old(Hints()[p]), minv, maxv, length, top, memoryOk, a, Procs()[p], Hints()[p])
      ensures Procs() == old(Procs())[p := Procs()[p]] && Hints() == old(Hints())[p := Hints()[p]]
    {
      ghost var procs, hints := Procs(), Hints();
      assert Fits(procs[p], hints[p], top);
      a := MapIn(p, minv, maxv, length, memoryOk);
      MapGood(blocks, procs, hints, top, p, minv, maxv, length, memoryOk, a, Procs()[p], Hints()[p]);
    }

    method MapIn(p: nat, minv: int, maxv: int, length: int, memoryOk: bool) returns (a: Answer)
      requires Tabled() && p < |table| && Words(minv, maxv, length) && Fits(table[p].regions, table[p].hint, top)
      modifies {table[p]}
      ensures MapResult(old(Procs()[p]), old(Hints()[p]), minv, maxv, length, top, memoryOk, a, Procs()[p], Hints()[p])
      ensures Procs() == old(Procs())[p := Procs()[p]] && Hints() == old(Hints())[p := Hints()[p]]
    {
      ghost var procs, hints := Procs(), Hints();
      NotMisled(table[p].regions, table[p].hint, minv, maxv, length, top);
      a := table[p].MapPageRegion(minv, maxv, length, memoryOk);
      assert forall q {:trigger table[q]} :: 0 <= q < |table| && q != p ==>
        table[q].regions == procs[q] && table[q].hint == hints[q];
    }

    /** The first mapping of a page, in map_pf: a new block gets its first reference. It is taken back if
        the memtype's handler fails, but not if the page table cannot be written. */
    method MapFirst(p: nat, i: nat, page: nat, ph: nat, luck: FaultLuck) returns (ok: bool)
      requires Valid() && p < |table| && i < |table[p].regions| && page < |table[p].regions[i].pages|
      requires table[p].regions[i].pages[page].None? && ph !in blocks
      modifies this`blocks, table`regions
      ensures Valid() && (ok <==> luck.Keeps() && luck.written)
      ensures blocks == if luck.Keeps() then old(blocks)[ph := 1] else old(blocks)
      ensures Procs() == if luck.Keeps() then FirstMapped(old(Procs()), p, i, page, ph) else old(Procs())
      ensures ok <==> luck.made && luck.referenced && luck.handled && luck.written
      ensures luck.Keeps() ==> OnePageMore(old(Procs()), p, old(Procs()[p][i]).vaddr + page * PAGE,
                                           PhysRegion(ph, page * PAGE), Procs())
    {
      FaultMapsPage(Procs(), Hints(), top, p, i, page, ph);
      ok := NewPage(p, i, page, ph, luck);
    }

    /** The branch of map_pf for a page without a block. */
    method NewPage(p: nat, i: nat, page: nat, ph: nat, luck: FaultLuck) returns (ok: bool)
      requires Valid() && p < |table| && i < |table[p].regions| && page < |table[p].regions[i].pages|
      requires table[p].regions[i].pages[page].None? && ph !in blocks
      modifies this`blocks, table`regions
      ensures Valid() && (ok <==> luck.Keeps() && luck.written)
      ensures blocks == if luck.Keeps() then old(blocks)[ph := 1] else old(blocks)
      ensures Procs() == if luck.Keeps() then FirstMapped(old(Procs()), p, i, page, ph) else old(Procs())
    {
      ghost var before := blocks;
      var region := table[p].regions[i];
      var r := FirstReference(region, page, ph, luck);
      if r.None? {
        return false;
      }
      FirstGood(before, Procs(), Hints(), top, p, i, page, ph);
      if !luck.handled {
        var region' := Unreference(r.value, r.value.pages[page].value, page);
        FirstUndone(before, before[ph := 1], blocks, region, page, ph);
        return false;
      }
      SetRegions(p, table[p].regions[i := r.value]);
      return luck.written;
    }

    /** pb_new and pb_reference; a block that gets no reference is freed. */
    method FirstReference(region: Region, page: nat, ph: nat, luck: FaultLuck) returns (r: Option<Region>)
      requires Positive(blocks) && page < |region.pages| && region.pages[page].None? && ph !in blocks
      modifies this`blocks
      ensures r == if luck.made && luck.referenced
                   then Some(WithPage(region, page, Some(PhysRegion(ph, page * PAGE)))) else None
      ensures blocks == if r.Some? then old(blocks)[ph := 1] else old(blocks)
    {
      if !luck.made {
        return None;
      }
      ghost var before := blocks;
      blocks := blocks[ph := 0];
      r := Reference(ph, page * PAGE, region, luck.referenced, page);
      if r.None? {
        blocks := blocks - {ph};
        assert blocks == before;
      } else {
        assert blocks == before[ph := 1];
      }
    }

    /** One region leaves the tree and is freed. */
    method RemoveRegion(p: nat, i: nat)
      requires Tabled() && p < |table| && i < |table[p].regions| && AllPlaced(table[p].regions)
      requires Positive(blocks) && Settled(blocks, Procs())
      modifies this`blocks, {table[p]}`regions
      ensures Procs() == old(Procs())[p := old(Procs()[p])[..i] + old(Procs()[p])[i + 1..]] && AllPlaced(Procs()[p])
      ensures Positive(blocks) && Settled(blocks, Procs())
    {
      var r := table[p].regions[i];
      forall b: nat {
        RegionLeaves(Procs(), p, i, b);
      }
      SetRegions(p, table[p].regions[..i] + table[p].regions[i + 1..]);
      Free(r);
    }

    /** map_free_proc: every region of the process goes, in whatever order the tree gives them, and
        exactly its own references with them. */
    method FreeRegions(p: nat)
      requires Tabled() && p < |table| && AllPlaced(table[p].regions)
      requires Positive(blocks) && Settled(blocks, Procs())
      modifies this`blocks, {table[p]}`regions
      ensures Procs() == old(Procs())[p := []]
      ensures Positive(blocks) && Settled(blocks, Procs())
      ensures Loses(old(blocks), blocks, old(Procs()[p]))
    {
      ghost var before, before' := Procs(), blocks;
      while table[p].regions != []
        invariant Procs() == before[p := table[p].regions] && AllPlaced(table[p].regions)
        invariant Positive(blocks) && Settled(blocks, Procs())
        decreases |table[p].regions|
      {
        var i: nat :| i < |table[p].regions|;
        RemoveRegion(p, i);
      }
      GivenBack(before', blocks, before, p);
    }

    method FreeProc(p: nat)
      requires Valid() && p < |table|
      modifies this`blocks, {table[p]}`regions
      ensures Valid() && Procs() == old(Procs())[p := []] && Loses(old(blocks), blocks, old(Procs()[p]))
    {
      ghost var before, before' := Procs(), blocks;
      assert Fits(before[p], Hints()[p], top);
      FreeRegions(p);
      assert Hints()[p := Hints()[p]] == Hints();
      OneChanged(before', before, Hints(), top, blocks, p, [], Hints()[p]);
    }

    /** One region is copied into dst, after dst's own. */
    method CopyInto(dst: nat, r: Region, luck: Luck) returns (ok: bool)
      requires Tabled() && dst < |table| && r.Placed() && Live(r, blocks) && Positive(blocks) &&
                Settled(blocks, Procs())
      requires Regular(table[dst].regions)
      requires forall i :: 0 <= i < |table[dst].regions| ==> table[dst].regions[i].vaddr < r.vaddr
      modifies this`blocks, {table[dst]}`regions
      ensures ok <==> CopySucceeds(r, luck)
      ensures Procs() == if ok then old(Procs())[dst := old(Procs()[dst]) + [r]] else old(Procs())
      ensures Positive(blocks) && Settled(blocks, Procs())
    {
      var newvr := CopyRegion(r, luck);
      if newvr.None? {
        return false;
      }
      InsertLast(table[dst].regions, r);
      forall b: nat {
        RegionJoins(Procs(), dst, r, b);
      }
      SetRegions(dst, InsertRegion(table[dst].regions, newvr.value));
      return true;
    }

    /** The regions of src from `start` on are copied into dst, up to the first failure. */
    method CopyRegions(dst: nat, src: nat, start: nat, luck: seq<Luck>) returns (ok: bool, ghost n: nat)
      requires Tabled() && Positive(blocks) && Settled(blocks, Procs())
      requires CopyReady(Procs(), dst, src, start) && |luck| == |Procs()[src]|
      modifies this`blocks, {table[dst]}`regions
      ensures Positive(blocks) && Settled(blocks, Procs())
      ensures start <= n <= |luck| && Procs() == PartlyCopied(old(Procs()), dst, src, start, n)
      ensures ok ==> n == |luck|
      ensures ok <==> AllSucceed(old(Procs()[src]), luck, start, |luck|)
    {
      ghost var before := Procs();
      n := start;
      CopyStarts(before, dst, src, start);
      for k := start to |table[src].regions|
        invariant n == k <= |before[src]| && Procs() == PartlyCopied(before, dst, src, start, k)
        invariant Positive(blocks) && Settled(blocks, Procs())
        invariant AllSucceed(before[src], luck, start, k)
      {
        CopyGoesOn(before, dst, src, start, k);
        RegionLive(blocks, Procs(), src, k);
        ok := CopyInto(dst, table[src].regions[k], luck[k]);
        if !ok {
          SucceedBefore(before[src], luck, start, n + 1, |luck|);
          return false, n;
        }
        n := n + 1;
      }
      ok := true;
    }

    /** map_proc_copy_from: the regions of src from `start` on are copied after those of dst; if any
        copy fails, dst loses all its regions, so the counts are what they were exactly if dst had no
        pages. */
    method CopyProcFrom(dst: nat, src: nat, start: nat, luck: seq<Luck>) returns (ok: bool)
      requires Valid() && CopyReady(Procs(), dst, src, start) && |luck| == |Procs()[src]|
      modifies this`blocks, {table[dst]}`regions
      ensures Valid()
      ensures ok <==> AllSucceed(old(Procs()[src]), luck, start, |luck|)
      ensures ok <==> AllGranted(old(Procs()[src]), luck, start, |luck|)
      ensures Procs() == old(Procs())[dst := if ok then old(Procs()[dst]) + old(Procs()[src])[start..] else []]
      ensures if ok then Gains(old(blocks), blocks, old(Procs()[src])[start..])
                else Loses(old(blocks), blocks, old(Procs()[dst]))
      ensures !ok ==> (blocks == old(blocks) <==> NoPages(old(Procs()[dst])))
    {
      ghost var before, before', n := Procs(), blocks, start;
      AllIfGranted(before[src], luck, start, |luck|);
      ok, n := CopyRegions(dst, src, start, luck);
      CopySound(before, dst, src, start, n);
      if ok {
        CopyDone(before', blocks, before, Hints(), top, dst, src, start);
      } else {
        Abandon(dst, src, start, before', before);
      }
    }

    /** A copy that failed: dst loses all its regions. */
    method Abandon(dst: nat, src: nat, start: nat, ghost m: map<nat, int>, ghost procs: seq<seq<Region>>)
      requires Tabled() && Good(m, procs, Hints(), top) && CopyReady(procs, dst, src, start) && |procs| == |table|
      requires Positive(blocks) && Settled(blocks, Procs()) && AllPlaced(table[dst].regions)
      requires Procs()[dst := []] == procs[dst := []]
      modifies this`blocks, {table[dst]}`regions
      ensures Valid() && Procs() == procs[dst := []] && Loses(m, blocks, procs[dst])
      ensures blocks == m <==> NoPages(procs[dst])
    {
      FreeRegions(dst);
      CopyUndone(m, blocks, procs, Hints(), top, dst, src, start);
    }

    /** map_proc_copy, into a process without regions: the child has the parent's regions, and every
        reference of the parent counts once more; a failure changes nothing at all. */
    method CopyProc(dst: nat, src: nat, luck: seq<Luck>) returns (ok: bool)
      requires Valid() && dst < |table| && src < |table| && dst != src
      requires Procs()[src] != [] && |luck| == |Procs()[src]| && Procs()[dst] == []
      modifies this`blocks, {table[dst]}`regions
      ensures Valid()
      ensures ok <==> AllSucceed(old(Procs()[src]), luck, 0, |luck|)
      ensures ok <==> AllGranted(old(Procs()[src]), luck, 0, |luck|)
      ensures Procs() == if ok then old(Procs())[dst := old(Procs()[src])] else old(Procs())
      ensures ok ==> Gains(old(blocks), blocks, old(Procs()[src]))
      ensures !ok ==> blocks == old(blocks)
    {
      ghost var before := Procs();
      assert Sound(before[dst]) && Sound(before[src]);
      SetRegions(dst, []);
      assert Procs() == before;
      ok := CopyProcFrom(dst, src, 0, luck);
      assert before[src][0..] == before[src] && before[dst] + before[src] == before[src];
      if !ok {
        assert before[dst := []] == before;
        SettledUnique(old(blocks), blocks, before);
      }
    }

    /** map_unmap_region, at the end or in the middle of a region. */
    method Unmap(p: nat, i: nat, offset: int, len: int) returns (ok: bool)
      requires Valid() && p < |table| && i < |table[p].regions|
      requires 0 < offset && 0 <= len && offset + len < WORD && offset % PAGE == 0
      modifies this`blocks, {table[p]}`regions
      ensures Valid()
      ensures ok <==> offset + len <= old(Procs()[p][i]).Length() && len % PAGE == 0
      ensures Procs() == if ok then UnmappedIn(old(Procs()), p, i, offset, len) else old(Procs())
      ensures ok ==> LosesPages(old(blocks), blocks, old(Procs()[p][i]), Procs()[p][i])
      ensures !ok ==> blocks == old(blocks)
    {
      var r := table[p].regions[i];
      if offset + len > r.Length() || len % PAGE != 0 {
        return false;
      }
      AlignedSums(offset, len);
      var from, to := offset / PAGE, (offset + len) / PAGE;
      ghost var before, before' := Procs(), blocks;
      UnmapCounts(before', before, p, i, offset, len);
      r := Subfree(r, from, to);
      UnmapGood(before', blocks, before, Hints(), top, p, i, offset, len);
      if offset + len == r.Length() {
        r := Region(r.vaddr, r.pages[..from]);
      }
      SetRegions(p, table[p].regions[i := r]);
      return true;
    }
  }

  // ---------------------------------------------------------------- processes

  /** A process's regions are in order and every page of them knows its offset. */
  ghost predicate Sound(rs: seq<Region>) {
    Regular(rs) && Aligned(rs) && AllPlaced(rs)
  }

  ghost predicate InOrder(procs: seq<seq<Region>>) {
    forall p {:trigger procs[p]} :: 0 <= p < |procs| ==> Sound(procs[p])
  }

  /** An address space in order, of a process that has not mapped address 0. */
  ghost predicate Fits(rs: seq<Region>, hint: int, top: int) {
    ValidSpace(rs, hint, top) && AllPlaced(rs) && !AtZero(rs)
  }

  /** What every operation keeps: all address spaces are in order, and every block in use is counted
      exactly as often as it is referred to. */
  ghost predicate Good(blocks: map<nat, int>, procs: seq<seq<Region>>, hints: seq<int>, top: int) {
    && Positive(blocks) && Settled(blocks, procs) && |hints| == |procs|
    && forall p {:trigger procs[p]} {:trigger hints[p]} :: 0 <= p < |procs| ==> Fits(procs[p], hints[p], top)
  }

  lemma GoodInOrder(blocks: map<nat, int>, procs: seq<seq<Region>>, hints: seq<int>, top: int)
    requires Good(blocks, procs, hints, top)
    ensures InOrder(procs)
  {
    forall p {:trigger procs[p]} | 0 <= p < |procs|
      ensures Sound(procs[p])
    {
      assert Fits(procs[p], hints[p], top);
    }
  }

  /** Changing one process's regions keeps the rest in order. */
  lemma OneChanged(blocks: map<nat, int>, procs: seq<seq<Region>>, hints: seq<int>, top: int, blocks': map<nat, int>,
                   p: nat, rs: seq<Region>, hint: int)
    requires Good(blocks, procs, hints, top) && p < |procs| && Fits(rs, hint, top)
    requires Positive(blocks') && Settled(blocks', procs[p := rs])
    ensures Good(blocks', procs[p := rs], hints[p := hint], top)
  {
  }

  /** The counts grow by the references of rs. */
  ghost predicate Gains(m: map<nat, int>, m': map<nat, int>, rs: seq<Region>) {
    forall b: nat {:trigger Ref(m', b)} :: Ref(m', b) == Ref(m, b) + RegionUses(rs, b)
  }

  /** They shrink by them. */
  ghost predicate Loses(m: map<nat, int>, m': map<nat, int>, rs: seq<Region>) {
    forall b: nat {:trigger Ref(m', b)} :: Ref(m', b) == Ref(m, b) - RegionUses(rs, b)
  }

  /** They shrink by what r refers to and r' does not. */
  ghost predicate LosesPages(m: map<nat, int>, m': map<nat, int>, r: Region, r': Region) {
    forall b: nat {:trigger Ref(m', b)} :: Ref(m', b) == Ref(m, b) - Uses(r.pages, b) + Uses(r'.pages, b)
  }

  /** A process left without regions has given its references back. */
  lemma GivenBack(m: map<nat, int>, m': map<nat, int>, procs: seq<seq<Region>>, p: nat)
    requires p < |procs| && Settled(m, procs) && Settled(m', procs[p := []])
    ensures Loses(m, m', procs[p])
  {
    forall b: nat {:trigger Ref(m', b)}
      ensures Ref(m', b) == Ref(m, b) - RegionUses(procs[p], b)
    {
      AllUsesSet(procs, p, [], b);
    }
  }

  // ---------------------------------------------------------------- map and first fault

  /** Without a region at 0 no search is misled. */
  lemma NotMisled(rs: seq<Region>, hint: int, minv: int, maxv: int, len: int, top: int)
    requires Fits(rs, hint, top)
    ensures !Misleads(rs, hint, minv, maxv, len, top)
  {
  }

  lemma MapKeepsFits(rs: seq<Region>, hint: int, minv: int, maxv: int, len: int, top: int, memoryOk: bool, a: Answer,
                     rs': seq<Region>, hint': int)
    requires Fits(rs, hint, top) && Words(minv, maxv, len)
    requires MapResult(rs, hint, minv, maxv, len, top, memoryOk, a, rs', hint')
    ensures (Fits(rs', hint', top) <==> a != Found(0)) && (PAGE <= minv ==> a != Found(0))
    ensures forall b: nat {:trigger RegionUses(rs', b)} :: RegionUses(rs', b) == RegionUses(rs, b)
  {
    NotMisled(rs, hint, minv, maxv, len, top);
    HintedRangeExact(rs, hint, minv, maxv, len, top);
    MapKeepsValid(rs, hint, minv, maxv, len, top);
    if a.Found? {
      InsertPlaced(rs, Fresh(a.v, len));
      forall b: nat
        ensures RegionUses(rs', b) == RegionUses(rs, b)
      {
        InsertUses(rs, Fresh(a.v, len), b);
        NoUses(Fresh(a.v, len).pages, b);
      }
    }
  }

  lemma InsertUses(rs: seq<Region>, r: Region, b: nat)
    requires Regular(rs)
    ensures RegionUses(InsertRegion(rs, r), b) == RegionUses(rs, b) + Uses(r.pages, b)
  {
    var n := Below(rs, r.vaddr);
    var low, high := rs[..n], rs[n..];
    assert rs == low + high;
    RegionUsesConcat(low, high, b);
    RegionUsesConcat(low + [r], high, b);
    assert (low + [r])[..n] == low;
  }

  lemma InsertPlaced(rs: seq<Region>, r: Region)
    requires Regular(rs) && AllPlaced(rs) && r.Placed()
    ensures AllPlaced(InsertRegion(rs, r))
  {
  }

  lemma MapGood(blocks: map<nat, int>, procs: seq<seq<Region>>, hints: seq<int>, top: int, p: nat, minv: int, maxv: int,
                len: int, memoryOk: bool, a: Answer, rs': seq<Region>, hint': int)
    requires Good(blocks, procs, hints, top) && p < |procs| && Words(minv, maxv, len)
    requires Regular(procs[p]) && MapResult(procs[p], hints[p], minv, maxv, len, top, memoryOk, a, rs', hint')
    ensures Good(blocks, procs[p := rs'], hints[p := hint'], top) <==> a != Found(0)
    ensures PAGE <= minv ==> a != Found(0)
  {
    assert Fits(procs[p], hints[p], top);
    MapKeepsFits(procs[p], hints[p], minv, maxv, len, top, memoryOk, a, rs', hint');
    forall b: nat {:trigger Ref(blocks, b)}
      ensures Ref(blocks, b) == AllUses(procs[p := rs'], b)
    {
      AllUsesSet(procs, p, rs', b);
      assert Ref(blocks, b) == AllUses(procs, b);
    }
    if a != Found(0) {
      OneChanged(blocks, procs, hints, top, blocks, p, rs', hint');
    } else {
      assert procs[p := rs'][p] == rs' && hints[p := hint'][p] == hint';
    }
  }

  /** A page of region i refers to the new block ph. */
  ghost function FirstMapped(procs: seq<seq<Region>>, p: nat, i: nat, page: nat, ph: nat): seq<seq<Region>>
    requires p < |procs| && i < |procs[p]| && page < |procs[p][i].pages|
  {
    procs[p := procs[p][i := WithPage(procs[p][i], page, Some(PhysRegion(ph, page * PAGE)))]]
  }

  /** Process p has the page at address a, and every other address of it, and every other process, the
      page it had. */
  ghost predicate OnePageMore(procs: seq<seq<Region>>, p: nat, a: int, page: PhysRegion, procs': seq<seq<Region>>) {
    && p < |procs| == |procs'| && procs' == procs[p := procs'[p]]
    && PagesFrom(procs[p], procs'[p], a, page)
  }

  ghost predicate PagesFrom(rs: seq<Region>, rs': seq<Region>, a: int, page: PhysRegion) {
    && Regular(rs) && Aligned(rs) && Regular(rs') && Aligned(rs')
    && (forall x {:trigger Lookup(rs', x)} :: Lookup(rs', x) == Lookup(rs, x))
    && (forall x {:trigger PageOf(rs', x)} :: x % PAGE == 0 ==>
          PageOf(rs', x) == if x == a then Some(page) else PageOf(rs, x))
  }

  /** The page mapped is the one faulted on. */
  lemma FaultMapsPage(procs: seq<seq<Region>>, hints: seq<int>, top: int, p: nat, i: nat, page: nat, ph: nat)
    requires |hints| == |procs| && p < |procs| && Fits(procs[p], hints[p], top)
    requires i < |procs[p]| && page < |procs[p][i].pages|
    ensures OnePageMore(procs, p, procs[p][i].vaddr + page * PAGE, PhysRegion(ph, page * PAGE),
                        FirstMapped(procs, p, i, page, ph))
  {
    FirstFits(procs[p], hints[p], top, i, page, ph);
    PageSet(procs[p], i, page, Some(PhysRegion(ph, page * PAGE)), FirstMapped(procs, p, i, page, ph)[p]);
  }

  lemma PageSet(rs: seq<Region>, i: nat, page: nat, value: Option<PhysRegion>, rs': seq<Region>)
    requires Regular(rs) && Aligned(rs) && i < |rs| && page < |rs[i].pages| && value.Some?
    requires rs' == rs[i := WithPage(rs[i], page, value)] && Regular(rs') && Aligned(rs')
    ensures PagesFrom(rs, rs', rs[i].vaddr + page * PAGE, value.value)
  {
    forall x
      ensures Lookup(rs', x) == Lookup(rs, x)
    {
      SameLookup(rs, rs', x);
    }
    forall x | x % PAGE == 0
      ensures PageOf(rs', x) == if x == rs[i].vaddr + page * PAGE then value else PageOf(rs, x)
    {
      SameLookup(rs, rs', x);
      PageSetAt(rs, i, page, value, rs', x);
    }
  }

  /** Lookups depend on where regions lie only. */
  lemma SameLookup(rs: seq<Region>, rs': seq<Region>, x: int)
    requires Regular(rs) && Regular(rs') && |rs'| == |rs|
    requires forall i {:trigger rs'[i]} :: 0 <= i < |rs| ==>
               rs'[i].vaddr == rs[i].vaddr && |rs'[i].pages| == |rs[i].pages|
    ensures Lookup(rs', x) == Lookup(rs, x)
  {
    var n, n' := Below(rs, x + 1), Below(rs', x + 1);
    assert n < |rs| ==> rs'[n].vaddr == rs[n].vaddr;
    assert n' < |rs| ==> rs'[n'].vaddr == rs[n'].vaddr;
    assert n == n';
  }

  lemma PageSetAt(rs: seq<Region>, i: nat, page: nat, value: Option<PhysRegion>, rs': seq<Region>, x: int)
    requires Regular(rs) && Aligned(rs) && i < |rs| && page < |rs[i].pages| && x % PAGE == 0
    requires rs' == rs[i := WithPage(rs[i], page, value)] && Regular(rs') && Aligned(rs')
    requires Lookup(rs', x) == Lookup(rs, x)
    ensures PageOf(rs', x) == if x == rs[i].vaddr + page * PAGE then value else PageOf(rs, x)
  {
    var a := rs[i].vaddr + page * PAGE;
    assert rs[i].Contains(a);
    LookupExact(rs, x, i);
    if rs[i].Contains(x) {
      assert Lookup(rs, x) == Some(i);
      AlignedSums(x, rs[i].vaddr);
      assert (x - rs[i].vaddr) / PAGE * PAGE == x - rs[i].vaddr;
    }
  }

  lemma FirstFits(rs: seq<Region>, hint: int, top: int, i: nat, page: nat, ph: nat)
    requires Fits(rs, hint, top) && i < |rs| && page < |rs[i].pages|
    ensures Fits(rs[i := WithPage(rs[i], page, Some(PhysRegion(ph, page * PAGE)))], hint, top)
  {
    var r := WithPage(rs[i], page, Some(PhysRegion(ph, page * PAGE)));
    assert rs[i].Placed();
    assert r.vaddr == rs[i].vaddr && r.End() == rs[i].End() && r.pages != [] && r.Placed();
  }

  lemma FirstGood(blocks: map<nat, int>, procs: seq<seq<Region>>, hints: seq<int>, top: int, p: nat, i: nat, page: nat,
                  ph: nat)
    requires Good(blocks, procs, hints, top) && p < |procs| && i < |procs[p]| && page < |procs[p][i].pages|
    requires procs[p][i].pages[page].None? && ph !in blocks
    ensures Good(blocks[ph := 1], FirstMapped(procs, p, i, page, ph), hints, top)
    ensures Covers(blocks[ph := 1], FirstMapped(procs, p, i, page, ph)[p][i].pages)
  {
    var r := procs[p][i];
    var r' := WithPage(r, page, Some(PhysRegion(ph, page * PAGE)));
    assert Fits(procs[p], hints[p], top);
    FirstFits(procs[p], hints[p], top, i, page, ph);
    var procs' := FirstMapped(procs, p, i, page, ph);
    forall b: nat {:trigger Ref(blocks[ph := 1], b)} {:trigger Uses(r'.pages, b)}
      ensures Ref(blocks[ph := 1], b) == AllUses(procs', b) && Uses(r'.pages, b) <= Ref(blocks[ph := 1], b)
    {
      assert Ref(blocks, b) == AllUses(procs, b);
      RegionChanges(procs, p, i, r', b);
      UsesSet(r.pages, page, Some(PhysRegion(ph, page * PAGE)), b);
    }
    assert hints[p := hints[p]] == hints;
    OneChanged(blocks, procs, hints, top, blocks[ph := 1], p, procs'[p], hints[p]);
  }

  /** Taking the first reference back frees the block. */
  lemma FirstUndone(before: map<nat, int>, m: map<nat, int>, m': map<nat, int>, r: Region, page: nat, ph: nat)
    requires Positive(before) && Positive(m') && ph !in before && m == before[ph := 1] && page < |r.pages|
    requires var r' := WithPage(r, page, Some(PhysRegion(ph, page * PAGE)));
             Balanced(m, r'.pages, m', WithPage(r', page, None).pages)
    requires r.pages[page].None?
    ensures m' == before
  {
    var page' := Some(PhysRegion(ph, page * PAGE));
    var r' := WithPage(r, page, page');
    assert WithPage(r', page, None).pages == r.pages;
    forall b: nat {:trigger Ref(before, b)} {:trigger Ref(m', b)}
      ensures Ref(m', b) == Ref(before, b)
    {
      UsesSet(r.pages, page, page', b);
      assert Ref(m', b) - Uses(r.pages, b) == Ref(m, b) - Uses(r'.pages, b);
    }
    SameCounts(m', before);
  }

  lemma {:induction false} NoReferences(procs: seq<seq<Region>>, b: nat)
    requires forall p :: 0 <= p < |procs| ==> procs[p] == []
    ensures AllUses(procs, b) == 0
  {
    if procs != [] {
      NoReferences(procs[..|procs| - 1], b);
    }
  }

  ghost predicate NothingMapped(procs: seq<seq<Region>>, hints: seq<int>) {
    && |hints| == |procs|
    && forall p {:trigger procs[p]} {:trigger hints[p]} :: 0 <= p < |procs| ==> procs[p] == [] && hints[p] == 0
  }

  lemma StartGood(procs: seq<seq<Region>>, hints: seq<int>, top: int)
    requires NothingMapped(procs, hints) && PAGE <= top && top + PAGE < WORD && top % PAGE == 0
    ensures Good(map[], procs, hints, top)
  {
    forall b: nat {
      NoReferences(procs, b);
    }
  }

  /** Counts that are exactly the references are determined by them. */
  lemma SettledUnique(m: map<nat, int>, m': map<nat, int>, procs: seq<seq<Region>>)
    requires Positive(m) && Positive(m') && Settled(m, procs) && Settled(m', procs)
    ensures m == m'
  {
    forall b: nat
      ensures Ref(m, b) == Ref(m', b)
    {
      assert Ref(m, b) == AllUses(procs, b);
    }
    SameCounts(m, m');
  }

  lemma RegionLeaves(procs: seq<seq<Region>>, p: nat, i: nat, b: nat)
    requires p < |procs| && i < |procs[p]|
    ensures AllUses(procs, b)
            == AllUses(procs[p := procs[p][..i] + procs[p][i + 1..]], b) + Uses(procs[p][i].pages, b)
  {
    AllUsesSet(procs, p, procs[p][..i] + procs[p][i + 1..], b);
    RegionUsesRemove(procs[p], i, b);
  }

  lemma RegionJoins(procs: seq<seq<Region>>, p: nat, r: Region, b: nat)
    requires p < |procs|
    ensures AllUses(procs[p := procs[p] + [r]], b) == AllUses(procs, b) + Uses(r.pages, b)
  {
    AllUsesSet(procs, p, procs[p] + [r], b);
    assert (procs[p] + [r])[..|procs[p]|] == procs[p];
  }

  lemma RegionChanges(procs: seq<seq<Region>>, p: nat, i: nat, r: Region, b: nat)
    requires p < |procs| && i < |procs[p]|
    ensures Uses(procs[p][i].pages, b) <= AllUses(procs, b)
    ensures AllUses(procs[p := procs[p][i := r]], b)
            == AllUses(procs, b) - Uses(procs[p][i].pages, b) + Uses(r.pages, b)
  {
    AllUsesSet(procs, p, procs[p][i := r], b);
    RegionUsesSet(procs[p], i, r, b);
  }

  /** What a process's page refers to is in use. */
  lemma RegionLive(blocks: map<nat, int>, procs: seq<seq<Region>>, p: nat, k: nat)
    requires p < |procs| && k < |procs[p]| && Positive(blocks) && Settled(blocks, procs)
    ensures Live(procs[p][k], blocks)
  {
    var r := procs[p][k];
    forall i {:trigger r.pages[i]} | 0 <= i < |r.pages| && r.pages[i].Some?
      ensures r.pages[i].value.ph in blocks
    {
      var b := r.pages[i].value.ph;
      UsesSet(r.pages, i, None, b);
      RegionChanges(procs, p, k, r, b);
      assert Ref(blocks, b) == AllUses(procs, b);
    }
  }

  /** A region above all others goes to the end. */
  lemma InsertLast(rs: seq<Region>, r: Region)
    requires Regular(rs) && forall i :: 0 <= i < |rs| ==> rs[i].vaddr < r.vaddr
    ensures InsertRegion(rs, r) == rs + [r]
  {
    if rs != [] {
      assert rs[|rs| - 1].vaddr < r.vaddr;
    }
  }

  /** The copies of the regions from..to all succeed. */
  ghost predicate AllSucceed(s: seq<Region>, luck: seq<Luck>, from: nat, to: nat)
    requires from <= to <= |s| == |luck|
  {
    from == to || (AllSucceed(s, luck, from, to - 1) && CopySucceeds(s[to - 1], luck[to - 1]))
  }

  ghost predicate AllGranted(s: seq<Region>, luck: seq<Luck>, from: nat, to: nat)
    requires from <= to <= |s| == |luck|
  {
    forall j :: from <= j < to ==> Granted(s[j], luck[j])
  }

  lemma {:induction false} AllIfGranted(s: seq<Region>, luck: seq<Luck>, from: nat, to: nat)
    requires from <= to <= |s| == |luck|
    ensures AllSucceed(s, luck, from, to) <==> AllGranted(s, luck, from, to)
  {
    if from < to {
      AllIfGranted(s, luck, from, to - 1);
      SucceedsIfGranted(s[to - 1], luck[to - 1]);
    }
  }

  lemma {:induction false} SucceedBefore(s: seq<Region>, luck: seq<Luck>, from: nat, m: nat, n: nat)
    requires from <= m <= n <= |s| == |luck|
    ensures AllSucceed(s, luck, from, n) ==> AllSucceed(s, luck, from, m)
  {
    if m < n {
      SucceedBefore(s, luck, from, m, n - 1);
    }
  }

  /** dst may receive src's regions from `start` on after its own. */
  ghost predicate CopyReady(procs: seq<seq<Region>>, dst: nat, src: nat, start: nat) {
    && dst < |procs| && src < |procs| && dst != src && start < |procs[src]|
    && Sound(procs[dst]) && Sound(procs[src])
    && forall i {:trigger procs[dst][i]} :: 0 <= i < |procs[dst]| ==> procs[dst][i].End() <= procs[src][start].vaddr
  }

  /** dst has received the regions start..n. */
  ghost function PartlyCopied(procs: seq<seq<Region>>, dst: nat, src: nat, start: nat, n: nat): seq<seq<Region>>
    requires dst < |procs| && src < |procs| && start <= n <= |procs[src]|
  {
    procs[dst := procs[dst] + procs[src][start..n]]
  }

  lemma CopyStarts(procs: seq<seq<Region>>, dst: nat, src: nat, start: nat)
    requires CopyReady(procs, dst, src, start)
    ensures PartlyCopied(procs, dst, src, start, start) == procs
  {
    assert procs[dst] + procs[src][start..start] == procs[dst];
  }

  lemma CopyGoesOn(before: seq<seq<Region>>, dst: nat, src: nat, start: nat, k: nat)
    requires CopyReady(before, dst, src, start) && start <= k < |before[src]|
    ensures var procs := PartlyCopied(before, dst, src, start, k);
            var r := before[src][k];
            && procs[src] == before[src] && r.Placed() && Sound(procs[dst])
            && (forall i :: 0 <= i < |procs[dst]| ==> procs[dst][i].vaddr < r.vaddr)
            && procs[dst := procs[dst] + [r]] == PartlyCopied(before, dst, src, start, k + 1)
  {
    Joined(before[dst], before[src], start, k);
    assert before[src][start..k] + [before[src][k]] == before[src][start..k + 1];
    assert before[dst] + before[src][start..k] + [before[src][k]] == before[dst] + before[src][start..k + 1];
  }

  lemma CopySound(before: seq<seq<Region>>, dst: nat, src: nat, start: nat, n: nat)
    requires CopyReady(before, dst, src, start) && start <= n <= |before[src]| && InOrder(before)
    ensures Sound(PartlyCopied(before, dst, src, start, n)[dst]) && InOrder(PartlyCopied(before, dst, src, start, n))
    ensures PartlyCopied(before, dst, src, start, |before[src]|) == before[dst := before[dst] + before[src][start..]]
    ensures PartlyCopied(before, dst, src, start, n)[dst := []] == before[dst := []] && InOrder(before[dst := []])
  {
    Joined(before[dst], before[src], start, n);
    assert before[src][start..|before[src]|] == before[src][start..];
  }

  lemma CopyFits(procs: seq<seq<Region>>, hints: seq<int>, top: int, dst: nat, src: nat, start: nat,
                 blocks: map<nat, int>)
    requires Good(blocks, procs, hints, top) && CopyReady(procs, dst, src, start)
    ensures Fits(procs[dst] + procs[src][start..], hints[dst], top) && Fits([], hints[dst], top)
  {
    var d, s := procs[dst], procs[src];
    var j := d + s[start..];
    assert Fits(d, hints[dst], top) && Fits(s, hints[src], top);
    Joined(d, s, start, |s|);
    assert s[start..|s|] == s[start..];
    forall i {:trigger j[i]} | 0 <= i < |j|
      ensures j[i].End() <= top
    {
      assert j[i] == if i < |d| then d[i] else s[start + i - |d|];
    }
    assert s[start].vaddr == 0 ==> start == 0 by {
      assert start > 0 ==> s[0].End() <= s[start].vaddr && s[0].pages != [] && s[0].vaddr >= 0;
    }
    assert d == [] ==> j[0] == s[start];
  }

  lemma CopyGains(m: map<nat, int>, m': map<nat, int>, procs: seq<seq<Region>>, dst: nat, rs: seq<Region>)
    requires dst < |procs| && Settled(m, procs) && Settled(m', procs[dst := procs[dst] + rs])
    ensures Gains(m, m', rs)
  {
    forall b: nat {:trigger Ref(m', b)}
      ensures Ref(m', b) == Ref(m, b) + RegionUses(rs, b)
    {
      assert Ref(m, b) == AllUses(procs, b);
      AllUsesSet(procs, dst, procs[dst] + rs, b);
      RegionUsesConcat(procs[dst], rs, b);
    }
  }

  lemma CopyDone(m: map<nat, int>, m': map<nat, int>, procs: seq<seq<Region>>, hints: seq<int>, top: int, dst: nat,
                 src: nat, start: nat)
    requires Good(m, procs, hints, top) && CopyReady(procs, dst, src, start)
    requires Positive(m') && Settled(m', procs[dst := procs[dst] + procs[src][start..]])
    ensures Good(m', procs[dst := procs[dst] + procs[src][start..]], hints, top) && Gains(m, m', procs[src][start..])
  {
    CopyFits(procs, hints, top, dst, src, start, m);
    CopyGains(m, m', procs, dst, procs[src][start..]);
    assert hints[dst := hints[dst]] == hints;
    OneChanged(m, procs, hints, top, m', dst, procs[dst] + procs[src][start..], hints[dst]);
  }

  lemma CopyUndone(m: map<nat, int>, m': map<nat, int>, procs: seq<seq<Region>>, hints: seq<int>, top: int, dst: nat,
                   src: nat, start: nat)
    requires Good(m, procs, hints, top) && CopyReady(procs, dst, src, start)
    requires Positive(m') && Settled(m', procs[dst := []])
    ensures Good(m', procs[dst := []], hints, top) && Loses(m, m', procs[dst])
    ensures m' == m <==> NoPages(procs[dst])
  {
    CopyFits(procs, hints, top, dst, src, start, m);
    CopyLoses(m, m', procs, dst);
    assert hints[dst := hints[dst]] == hints;
    OneChanged(m, procs, hints, top, m', dst, [], hints[dst]);
    InitKeepsCounts(m, procs, dst);
    if NoPages(procs[dst]) {
      SettledUnique(m, m', procs[dst := []]);
    }
  }

  /** The regions of s from `start` on fit after those of d. */
  lemma Joined(d: seq<Region>, s: seq<Region>, start: nat, k: nat)
    requires Sound(d) && Sound(s)
    requires start < |s| && start <= k <= |s|
    requires forall i {:trigger d[i]} :: 0 <= i < |d| ==> d[i].End() <= s[start].vaddr
    ensures var j := d + s[start..k];
            && Sound(j)
            && (k < |s| ==> forall i :: 0 <= i < |j| ==> j[i].vaddr < s[k].vaddr)
  {
    var j := d + s[start..k];
    assert forall i {:trigger j[i]} :: 0 <= i < |j| ==> j[i] == if i < |d| then d[i] else s[start + i - |d|];
    forall i | start < i < |s|
      ensures s[start].vaddr < s[start].End() <= s[i].vaddr
    {
    }
  }

  /** None of the regions refers to a block. */
  ghost predicate NoPages(rs: seq<Region>) {
    forall b: nat {:trigger RegionUses(rs, b)} :: RegionUses(rs, b) == 0
  }

  /** region_init forgets a process's references: the counts stay right exactly if it has none. */
  lemma InitKeepsCounts(blocks: map<nat, int>, procs: seq<seq<Region>>, p: nat)
    requires p < |procs| && Settled(blocks, procs)
    ensures Settled(blocks, procs[p := []]) <==> NoPages(procs[p])
  {
    forall b: nat {:trigger Ref(blocks, b)} {:trigger RegionUses(procs[p], b)}
      ensures AllUses(procs[p := []], b) == Ref(blocks, b) - RegionUses(procs[p], b)
    {
      assert Ref(blocks, b) == AllUses(procs, b);
      AllUsesSet(procs, p, [], b);
    }
  }

  /** A process that loses its regions takes exactly their references with it. */
  lemma CopyLoses(m: map<nat, int>, m': map<nat, int>, procs: seq<seq<Region>>, p: nat)
    requires p < |procs| && Settled(m, procs) && Settled(m', procs[p := []])
    ensures Loses(m, m', procs[p])
  {
    forall b: nat {:trigger Ref(m', b)}
      ensures Ref(m', b) == Ref(m, b) - RegionUses(procs[p], b)
    {
      assert Ref(m, b) == AllUses(procs, b);
      AllUsesSet(procs, p, [], b);
    }
  }

  /** A copy and its undoing: freeing the child restores every count. */
  method ForkAndExit(vm: Vm, dst: nat, src: nat, luck: seq<Luck>)
    requires vm.Valid() && dst < |vm.table| && src < |vm.table| && dst != src
    requires vm.Procs()[src] != [] && |luck| == |vm.Procs()[src]| && vm.Procs()[dst] == []
    modifies vm`blocks, {vm.table[dst]}`regions
    ensures vm.Valid() && vm.Procs() == old(vm.Procs()) && vm.blocks == old(vm.blocks)
  {
    var ok := vm.CopyProc(dst, src, luck);
    if ok {
      vm.FreeProc(dst);
      assert vm.Procs() == old(vm.Procs());
      SettledUnique(old(vm.blocks), vm.blocks, vm.Procs());
    }
  }

  lemma UnmapKeepsSound(rs: seq<Region>, i: nat, offset: int, len: int)
    requires Sound(rs) && i < |rs|
    requires 0 < offset && 0 <= len && offset + len <= rs[i].Length() && offset % PAGE == len % PAGE == 0
    ensures Sound(rs[i := Unmapped(rs[i], offset, len)])
  {
    UnmapKeepsRegular(rs, i, offset, len);
    var r' := Unmapped(rs[i], offset, len);
    assert rs[i].Placed();
    assert r'.Placed();
  }

  /** Unmapping is clearing the pages, and cutting off those at the end. */
  lemma UnmappedUses(r: Region, offset: int, len: int, b: nat)
    requires 0 < offset && 0 <= len && offset + len <= r.Length() && offset % PAGE == len % PAGE == 0
    ensures var from, to := offset / PAGE, (offset + len) / PAGE;
            && 0 <= from <= to <= |r.pages|
            && Unmapped(r, offset, len)
               == (if offset + len == r.Length() then Region(r.vaddr, Cleared(r, from, to).pages[..from])
                   else Cleared(r, from, to))
            && Uses(Unmapped(r, offset, len).pages, b) == Uses(Cleared(r, from, to).pages, b)
  {
    var from, to := offset / PAGE, (offset + len) / PAGE;
    AlignedSums(offset, len);
    var c := Cleared(r, from, to);
    if offset + len == r.Length() {
      assert to == |r.pages|;
      assert c.pages[..from] == r.pages[..from];
      CutUses(c.pages, from, b);
    } else {
      assert Unmapped(r, offset, len).pages == c.pages;
    }
  }

  lemma UnmapCounts(blocks: map<nat, int>, procs: seq<seq<Region>>, p: nat, i: nat, offset: int, len: int)
    requires p < |procs| && i < |procs[p]| && Settled(blocks, procs)
    requires 0 < offset && 0 <= len && offset + len <= procs[p][i].Length() && offset % PAGE == len % PAGE == 0
    ensures Covers(blocks, procs[p][i].pages)
    ensures var r, from, to := procs[p][i], offset / PAGE, (offset + len) / PAGE;
            && 0 <= from <= to <= |r.pages|
            && Unmapped(r, offset, len)
               == (if offset + len == r.Length() then Region(r.vaddr, Cleared(r, from, to).pages[..from])
                   else Cleared(r, from, to))
  {
    var r := procs[p][i];
    forall b: nat
      ensures Uses(r.pages, b) <= Ref(blocks, b)
    {
      RegionChanges(procs, p, i, r, b);
    }
    UnmappedUses(r, offset, len, 0);
  }

  lemma UnmapSettles(before: map<nat, int>, blocks: map<nat, int>, procs: seq<seq<Region>>, p: nat, i: nat,
                     offset: int, len: int)
    requires p < |procs| && i < |procs[p]| && Settled(before, procs)
    requires 0 < offset && 0 <= len && offset + len <= procs[p][i].Length() && offset % PAGE == len % PAGE == 0
    requires var r := procs[p][i];
             0 <= offset / PAGE <= (offset + len) / PAGE
             && Balanced(before, r.pages, blocks, Cleared(r, offset / PAGE, (offset + len) / PAGE).pages)
    ensures Settled(blocks, procs[p := procs[p][i := Unmapped(procs[p][i], offset, len)]])
  {
    var r := procs[p][i];
    forall b: nat {:trigger Ref(blocks, b)}
      ensures Ref(blocks, b) == AllUses(procs[p := procs[p][i := Unmapped(r, offset, len)]], b)
    {
      assert Ref(before, b) == AllUses(procs, b);
      RegionChanges(procs, p, i, Unmapped(r, offset, len), b);
      UnmappedUses(r, offset, len, b);
    }
  }

  ghost function UnmappedIn(procs: seq<seq<Region>>, p: nat, i: nat, offset: int, len: int): seq<seq<Region>>
    requires p < |procs| && i < |procs[p]|
    requires 0 < offset && 0 <= len && offset + len <= procs[p][i].Length() && offset % PAGE == len % PAGE == 0
  {
    procs[p := procs[p][i := Unmapped(procs[p][i], offset, len)]]
  }

  lemma UnmapFits(rs: seq<Region>, hint: int, top: int, i: nat, offset: int, len: int)
    requires Fits(rs, hint, top) && i < |rs|
    requires 0 < offset && 0 <= len && offset + len <= rs[i].Length() && offset % PAGE == len % PAGE == 0
    ensures Fits(rs[i := Unmapped(rs[i], offset, len)], hint, top)
  {
    UnmapKeepsSound(rs, i, offset, len);
    var r' := Unmapped(rs[i], offset, len);
    assert r'.vaddr == rs[i].vaddr && r'.End() <= rs[i].End();
  }

  lemma UnmapGood(before: map<nat, int>, blocks: map<nat, int>, procs: seq<seq<Region>>, hints: seq<int>, top: int,
                  p: nat, i: nat, offset: int, len: int)
    requires Good(before, procs, hints, top) && p < |procs| && i < |procs[p]| && Positive(blocks)
    requires 0 < offset && 0 <= len && offset + len <= procs[p][i].Length() && offset % PAGE == len % PAGE == 0
    requires var r := procs[p][i];
             0 <= offset / PAGE <= (offset + len) / PAGE
             && Balanced(before, r.pages, blocks, Cleared(r, offset / PAGE, (offset + len) / PAGE).pages)
    ensures Good(blocks, UnmappedIn(procs, p, i, offset, len), hints, top)
    ensures LosesPages(before, blocks, procs[p][i], Unmapped(procs[p][i], offset, len))
  {
    UnmapSettles(before, blocks, procs, p, i, offset, len);
    assert Fits(procs[p], hints[p], top);
    UnmapFits(procs[p], hints[p], top, i, offset, len);
    assert hints[p := hints[p]] == hints;
    OneChanged(before, procs, hints, top, blocks, p, UnmappedIn(procs, p, i, offset, len)[p], hints[p]);
    forall b: nat {:trigger Ref(blocks, b)}
      ensures Ref(blocks, b)
              == Ref(before, b) - Uses(procs[p][i].pages, b) + Uses(Unmapped(procs[p][i], offset, len).pages, b)
    {
      UnmappedUses(procs[p][i], offset, len, b);
    }
  }

  lemma {:induction false} CutUses(pages: seq<Option<PhysRegion>>, n: nat, b: nat)
    requires n <= |pages| && forall i :: n <= i < |pages| ==> pages[i].None?
    ensures Uses(pages[..n], b) == Uses(pages, b)
  {
    if n < |pages| {
      CutUses(pages[..|pages| - 1], n, b);
      assert pages[..|pages| - 1][..n] == pages[..n];
    } else {
      assert pages[..n] == pages;
    }
  }

  lemma StillCovers(blocks0: map<nat, int>, pages0: seq<Option<PhysRegion>>,
                    blocks: map<nat, int>, pages: seq<Option<PhysRegion>>)
    requires Covers(blocks0, pages0) && Balanced(blocks0, pages0, blocks, pages)
    ensures Covers(blocks, pages)
  {
    forall b: nat {:trigger Uses(pages, b)}
      ensures Uses(pages, b) <= Ref(blocks, b)
    {
      assert Uses(pages0, b) <= Ref(blocks0, b);
    }
  }
}
