/** A process's address space: its regions in address order, the search for a free range, lookup by
    address, mapping and unmapping. Addresses are 32-bit unsigned and wrap. */
module AddressSpace {
  import opened YieldInterface

  const PAGE: int := 4096
  const WORD: int := 0x1_0000_0000

  /** One mapped page: the physical block and the offset the page believes it has in its region. */
  datatype PhysRegion = PhysRegion(ph: nat, offset: int)

  /** A region: its address, and a page or nothing for each page of its length. */
  datatype Region = Region(vaddr: int, pages: seq<Option<PhysRegion>>) {

    function Length(): int {
      |pages| * PAGE
    }

    function End(): int {
      vaddr + Length()
    }

    /** Every page knows its own offset. */
    ghost predicate Placed() {
      forall i :: 0 <= i < |pages| && pages[i].Some? ==> pages[i].value.offset == i * PAGE
    }

    predicate Contains(a: int) {
      vaddr <= a < End()
    }

    /** physblock_get */
    function PageAt(offset: int): Option<PhysRegion>
      requires 0 <= offset < Length() && offset % PAGE == 0
    {
      pages[offset / PAGE]
    }
  }

  ghost predicate Aligned(rs: seq<Region>) {
    forall i {:trigger rs[i]} :: 0 <= i < |rs| ==> rs[i].vaddr % PAGE == 0
  }

  /** Regions in address order, not empty, disjoint, and clear of the end of memory. Being aligned,
      none starts within the first page except at its start. */
  ghost predicate Regular(rs: seq<Region>) {
    && (forall i {:trigger rs[i]} :: 0 <= i < |rs| ==>
          (rs[i].vaddr == 0 || PAGE <= rs[i].vaddr) && rs[i].pages != [] && rs[i].End() + PAGE < WORD)
    && forall i, j {:trigger rs[i], rs[j]} :: 0 <= i < j < |rs| ==> rs[i].End() <= rs[j].vaddr
  }

  /** No region reaches above the top of the data space. */
  ghost predicate Under(rs: seq<Region>, top: int) {
    PAGE <= top && top + PAGE < WORD && forall i {:trigger rs[i]} :: 0 <= i < |rs| ==> rs[i].End() <= top
  }

  predicate AtZero(rs: seq<Region>) {
    rs != [] && rs[0].vaddr == 0
  }

  /** How many regions start below a: the tree searches are read off this number. */
  function Below(rs: seq<Region>, a: int): (n: nat)
    requires Regular(rs)
    ensures n <= |rs|
    ensures forall i {:trigger rs[i]} :: 0 <= i < |rs| ==> (rs[i].vaddr < a <==> i < n)
  {
    if rs == [] || rs[|rs| - 1].vaddr < a then |rs| else Below(rs[..|rs| - 1], a)
  }

  // ---------------------------------------------------------------- free ranges

  /** No region reaches within `margin` of [v, v + len). */
  ghost predicate Clear(rs: seq<Region>, v: int, len: int, margin: int) {
    forall i {:trigger rs[i]} :: 0 <= i < |rs| ==> v + len + margin <= rs[i].vaddr || rs[i].End() + margin <= v
  }

  /** The search below maxv ends at the first region from maxv on, or at the top of the data space. */
  function Ceiling(rs: seq<Region>, maxv: int, top: int): int
    requires Regular(rs)
  {
    if Below(rs, maxv) < |rs| then rs[Below(rs, maxv)].vaddr else top
  }

  /** A range the search may answer. */
  ghost predicate IsSlot(rs: seq<Region>, minv: int, maxv: int, len: int, top: int, v: int)
    requires Regular(rs)
  {
    0 <= minv <= v && v + len <= maxv && v + len <= Ceiling(rs, maxv, top) && Clear(rs, v, len, 0)
  }

  /** A slot with a page to spare on both sides. */
  ghost predicate IsGuarded(rs: seq<Region>, minv: int, maxv: int, len: int, top: int, v: int)
    requires Regular(rs)
  {
    && IsSlot(rs, minv, maxv, len, top, v)
    && PAGE <= v && v + len + PAGE <= Ceiling(rs, maxv, top) && Clear(rs, v, len, PAGE)
  }

  /** No region starts between v and w. */
  ghost predicate SameGap(rs: seq<Region>, v: int, w: int) {
    forall i {:trigger rs[i]} :: 0 <= i < |rs| ==> !(v < rs[i].vaddr <= w) && !(w < rs[i].vaddr <= v)
  }

  /** v lies in the highest gap with a slot; it is the highest guarded slot there, or the highest slot
      if none is guarded. */
  ghost predicate Best(rs: seq<Region>, minv: int, maxv: int, len: int, top: int, v: int)
    requires Regular(rs)
  {
    && IsSlot(rs, minv, maxv, len, top, v)
    && (forall w {:trigger IsSlot(rs, minv, maxv, len, top, w)} ::
          IsSlot(rs, minv, maxv, len, top, w) && w > v ==>
            SameGap(rs, v, w) && IsGuarded(rs, minv, maxv, len, top, v))
    && (forall w {:trigger IsGuarded(rs, minv, maxv, len, top, w)} ::
          IsGuarded(rs, minv, maxv, len, top, w) && SameGap(rs, v, w) ==>
            w <= v && IsGuarded(rs, minv, maxv, len, top, v))
  }

  ghost predicate SlotExists(rs: seq<Region>, minv: int, maxv: int, len: int, top: int)
    requires Regular(rs)
  {
    exists v :: IsSlot(rs, minv, maxv, len, top, v)
  }

  /** Outcome of a search; an assertion that fails makes VM panic. */
  datatype Answer = Found(v: int) | Fail | Panic

  function AnswerOf(r: Option<int>): Answer {
    if r.Some? then Found(r.value) else Fail
  }

  // ---------------------------------------------------------------- one gap

  function Wrap(x: int): int {
    if x < 0 then x + WORD else if x < WORD then x else x - WORD
  }

  /** FREEVRANGE_TRY: the highest place in [lo, hi) cut to [minv, maxv). */
  function Try(lo: int, hi: int, minv: int, maxv: int, len: int): Option<int> {
    var s := if lo > minv then lo else minv;
    var e := if hi < maxv then hi else maxv;
    if e > s && e - s >= len then Some(e - len) else None
  }

  /** FREEVRANGE: with a guard page on both sides if possible, else without. */
  function TryGap(lo: int, hi: int, minv: int, maxv: int, len: int): Option<int> {
    var guarded := Try(Wrap(lo + PAGE), Wrap(hi - PAGE), minv, maxv, len);
    if guarded.Some? then guarded else Try(lo, hi, minv, maxv, len)
  }

  /** The k-th gap lies below region k, or below the top of the data space. */
  function GapStart(rs: seq<Region>, k: nat): int
    requires k <= |rs|
  {
    if k == 0 then 0 else rs[k - 1].End()
  }

  function GapEnd(rs: seq<Region>, k: nat, top: int): int
    requires k <= |rs|
  {
    if k == |rs| then top else rs[k].vaddr
  }

  ghost predicate InGap(rs: seq<Region>, k: nat, top: int, v: int, len: int)
    requires k <= |rs|
  {
    GapStart(rs, k) <= v && v + len <= GapEnd(rs, k, top)
  }

  /** A slot lies in exactly one gap, at or below the one the search starts from. */
  lemma SlotGap(rs: seq<Region>, minv: int, maxv: int, len: int, top: int, v: int)
    requires Regular(rs) && IsSlot(rs, minv, maxv, len, top, v) && len > 0
    ensures Below(rs, v + 1) <= Below(rs, maxv) && InGap(rs, Below(rs, v + 1), top, v, len)
    ensures IsGuarded(rs, minv, maxv, len, top, v) ==>
              GapStart(rs, Below(rs, v + 1)) + PAGE <= v && v + len + PAGE <= GapEnd(rs, Below(rs, v + 1), top)
  {
    var k := Below(rs, v + 1);
    if k > 0 {
      assert rs[k - 1].vaddr <= v;
    }
    if k < |rs| {
      assert rs[k].vaddr > v;
    }
  }

  /** And what lies in a gap at or below that one is clear. */
  lemma GapSlot(rs: seq<Region>, minv: int, maxv: int, len: int, top: int, v: int, k: nat, margin: int)
    requires Regular(rs) && Under(rs, top) && k <= Below(rs, maxv) && len > 0 && margin >= 0
    requires GapStart(rs, k) + margin <= v && v + len + margin <= GapEnd(rs, k, top)
    ensures Clear(rs, v, len, margin) && v + len + margin <= Ceiling(rs, maxv, top) && Below(rs, v + 1) == k
  {
    var c := Below(rs, maxv);
    if k > 0 {
      assert rs[k - 1].End() <= v;
    }
    if k < c {
      assert rs[k].vaddr < maxv;
      assert c < |rs| ==> rs[k].vaddr <= rs[c].vaddr;
    }
    forall i | 0 <= i < |rs|
      ensures v + len + margin <= rs[i].vaddr || rs[i].End() + margin <= v
      ensures rs[i].vaddr < v + 1 <==> i < k
    {
      if i < k {
        assert i < k - 1 ==> rs[i].End() <= rs[k - 1].vaddr;
      } else {
        assert i > k ==> rs[k].End() <= rs[i].vaddr;
      }
    }
    assert Below(rs, v + 1) < |rs| ==> rs[Below(rs, v + 1)].vaddr >= v + 1;
  }

  /** A place in gap k, `margin` away from both ends, is a slot with that margin. */
  lemma PlaceSound(rs: seq<Region>, minv: int, maxv: int, len: int, top: int, k: nat, margin: int, v: int)
    requires Regular(rs) && Under(rs, top) && k <= Below(rs, maxv) && len > 0 && 0 <= minv < maxv < WORD && margin >= 0
    requires Try(GapStart(rs, k) + margin, GapEnd(rs, k, top) - margin, minv, maxv, len) == Some(v)
    ensures IsSlot(rs, minv, maxv, len, top, v) && Below(rs, v + 1) == k
    ensures margin == PAGE && GapStart(rs, k) >= 0 ==> IsGuarded(rs, minv, maxv, len, top, v)
  {
    GapSlot(rs, minv, maxv, len, top, v, k, margin);
  }

  lemma GapSound(rs: seq<Region>, minv: int, maxv: int, len: int, top: int, k: nat)
    requires Regular(rs) && Under(rs, top) && k <= Below(rs, maxv) && len > 0 && 0 <= minv < maxv < WORD
    requires !(k == 0 && AtZero(rs))
    ensures var lo, hi := GapStart(rs, k), GapEnd(rs, k, top);
            var r := TryGap(lo, hi, minv, maxv, len);
            && (r.Some? ==> IsSlot(rs, minv, maxv, len, top, r.value) && Below(rs, r.value + 1) == k)
            && (Try(lo + PAGE, hi - PAGE, minv, maxv, len).Some? ==>
                  r == Try(lo + PAGE, hi - PAGE, minv, maxv, len) && IsGuarded(rs, minv, maxv, len, top, r.value))
  {
    GapBounds(rs, top, k);
    var lo, hi := GapStart(rs, k), GapEnd(rs, k, top);
    var g := Try(lo + PAGE, hi - PAGE, minv, maxv, len);
    var r := TryGap(lo, hi, minv, maxv, len);
    if g.Some? {
      PlaceSound(rs, minv, maxv, len, top, k, PAGE, g.value);
    } else if r.Some? {
      assert lo + 0 == lo && hi - 0 == hi;
      PlaceSound(rs, minv, maxv, len, top, k, 0, r.value);
    }
  }

  /** r is the highest guarded slot of gap k, or its highest slot, as far as v is concerned. */
  ghost predicate Beats(rs: seq<Region>, minv: int, maxv: int, len: int, top: int, r: Option<int>, v: int)
    requires Regular(rs)
  {
    && r.Some?
    && (v > r.value ==> IsGuarded(rs, minv, maxv, len, top, r.value))
    && (IsGuarded(rs, minv, maxv, len, top, v) ==>
          v <= r.value && IsGuarded(rs, minv, maxv, len, top, r.value))
  }

  lemma TryFits(lo: int, hi: int, minv: int, maxv: int, len: int, v: int)
    requires lo <= v && minv <= v && v + len <= hi && v + len <= maxv && len > 0
    ensures var r := Try(lo, hi, minv, maxv, len); r.Some? && r.value >= v
  {
  }

  lemma GapComplete(rs: seq<Region>, minv: int, maxv: int, len: int, top: int, k: nat, v: int)
    requires Regular(rs) && Under(rs, top) && k <= Below(rs, maxv) && len > 0 && 0 <= minv < maxv < WORD
    requires !(k == 0 && AtZero(rs)) && IsSlot(rs, minv, maxv, len, top, v) && Below(rs, v + 1) == k
    ensures Beats(rs, minv, maxv, len, top, TryGap(GapStart(rs, k), GapEnd(rs, k, top), minv, maxv, len), v)
  {
    GapBounds(rs, top, k);
    SlotGap(rs, minv, maxv, len, top, v);
    GapSound(rs, minv, maxv, len, top, k);
    var lo, hi := GapStart(rs, k), GapEnd(rs, k, top);
    TryFits(lo, hi, minv, maxv, len, v);
    if IsGuarded(rs, minv, maxv, len, top, v) {
      TryFits(lo + PAGE, hi - PAGE, minv, maxv, len, v);
    }
  }

  /** A gap's answer is its highest guarded slot, or its highest slot; nothing exactly if it has none. */
  lemma GapExact(rs: seq<Region>, minv: int, maxv: int, len: int, top: int, k: nat)
    requires Regular(rs) && Under(rs, top) && k <= Below(rs, maxv) && len > 0 && 0 <= minv < maxv < WORD
    requires !(k == 0 && AtZero(rs))
    ensures var r := TryGap(GapStart(rs, k), GapEnd(rs, k, top), minv, maxv, len);
            && (r.Some? ==> IsSlot(rs, minv, maxv, len, top, r.value) && Below(rs, r.value + 1) == k)
            && forall v {:trigger IsSlot(rs, minv, maxv, len, top, v)} ::
                 IsSlot(rs, minv, maxv, len, top, v) && Below(rs, v + 1) == k ==>
                   Beats(rs, minv, maxv, len, top, r, v)
  {
    GapSound(rs, minv, maxv, len, top, k);
    forall v {:trigger IsSlot(rs, minv, maxv, len, top, v)}
      | IsSlot(rs, minv, maxv, len, top, v) && Below(rs, v + 1) == k
      ensures Beats(rs, minv, maxv, len, top, TryGap(GapStart(rs, k), GapEnd(rs, k, top), minv, maxv, len), v)
    {
      GapComplete(rs, minv, maxv, len, top, k, v);
    }
  }

  /** The guard pages of a gap do not wrap unless a region at address 0 ends it. */
  lemma GapBounds(rs: seq<Region>, top: int, k: nat)
    requires Regular(rs) && Under(rs, top) && k <= |rs|
    ensures Wrap(GapStart(rs, k) + PAGE) == GapStart(rs, k) + PAGE && GapStart(rs, k) >= 0
    ensures Wrap(GapEnd(rs, k, top) - PAGE) == GapEnd(rs, k, top) - PAGE + if k == 0 && AtZero(rs) then WORD else 0
  {
    if k > 0 {
      assert rs[k - 1].End() <= top;
    }
    if 0 < k < |rs| {
      assert rs[k - 1].End() <= rs[k].vaddr;
      assert rs[k].vaddr >= PAGE;
    }
    if k == 0 && rs != [] && !AtZero(rs) {
      assert rs[0].End() <= top;
    }
  }

  /** No slot in any of the gaps lo..hi. */
  ghost predicate NoneIn(rs: seq<Region>, minv: int, maxv: int, len: int, top: int, lo: nat, hi: nat)
    requires Regular(rs)
  {
    forall v {:trigger IsSlot(rs, minv, maxv, len, top, v)} ::
      IsSlot(rs, minv, maxv, len, top, v) ==> !(lo <= Below(rs, v + 1) <= hi)
  }

  /** The answer of the highest gap with a slot is the best. */
  lemma HighestGapBest(rs: seq<Region>, minv: int, maxv: int, len: int, top: int, k: nat, r: Option<int>)
    requires Regular(rs) && len > 0 && r.Some? && k <= Below(rs, maxv)
    requires IsSlot(rs, minv, maxv, len, top, r.value) && Below(rs, r.value + 1) == k
    requires forall v {:trigger IsSlot(rs, minv, maxv, len, top, v)} ::
               IsSlot(rs, minv, maxv, len, top, v) && Below(rs, v + 1) == k ==> Beats(rs, minv, maxv, len, top, r, v)
    requires NoneIn(rs, minv, maxv, len, top, k + 1, Below(rs, maxv))
    ensures Best(rs, minv, maxv, len, top, r.value)
  {
    var v := r.value;
    forall w | IsSlot(rs, minv, maxv, len, top, w)
      ensures w > v ==> Below(rs, w + 1) == k && SameGap(rs, v, w)
      ensures SameGap(rs, v, w) ==> Below(rs, w + 1) == k
    {
      SlotGap(rs, minv, maxv, len, top, w);
      GapsOrdered(rs, v, w);
    }
  }

  lemma GapsOrdered(rs: seq<Region>, v: int, w: int)
    requires Regular(rs)
    ensures v <= w ==> Below(rs, v + 1) <= Below(rs, w + 1)
    ensures SameGap(rs, v, w) <==> Below(rs, v + 1) == Below(rs, w + 1)
  {
    var m, n := Below(rs, v + 1), Below(rs, w + 1);
    if m < n {
      assert rs[m].vaddr > v && rs[m].vaddr <= w;
    } else if n < m {
      assert rs[n].vaddr > w && rs[n].vaddr <= v;
    }
  }

  /** With a region at address 0 the guard page below it wraps around, and a search that finds no slot
      answers the top of the range if the range is large enough. */
  ghost predicate Misled(rs: seq<Region>, minv: int, maxv: int, len: int, top: int)
    requires Regular(rs)
  {
    && AtZero(rs) && !SlotExists(rs, minv, maxv, len, top)
    && maxv < WORD && Try(PAGE, WORD - PAGE, minv, maxv, len).Some?
  }

  /** What a search over [minv, maxv) must answer. */
  ghost predicate Searched(rs: seq<Region>, minv: int, maxv: int, len: int, top: int, a: Answer)
    requires Regular(rs)
  {
    if Misled(rs, minv, maxv, len, top)
    then a == Found((if maxv < WORD - PAGE then maxv else WORD - PAGE) - len)
    else (a.Found? ==> Best(rs, minv, maxv, len, top, a.v)) && (a.Fail? <==> !SlotExists(rs, minv, maxv, len, top))
  }

  /** A range that ends beyond the limit, or beyond the last address, has no slot. */
  lemma NoRoom(rs: seq<Region>, minv: int, maxv: int, len: int, top: int)
    requires Regular(rs) && Under(rs, top) && 0 < len && 0 <= minv
    requires minv + len > maxv || minv + len >= WORD
    ensures Searched(rs, minv, maxv, len, top, Fail)
  {
    forall v
      ensures !IsSlot(rs, minv, maxv, len, top, v)
    {
      assert IsSlot(rs, minv, maxv, len, top, v) && Below(rs, maxv) < |rs| ==> rs[Below(rs, maxv)].End() <= top;
    }
  }

  lemma SlotsWithinReach(rs: seq<Region>, minv: int, maxv: int, len: int, top: int)
    requires Regular(rs) && len > 0
    ensures forall v {:trigger IsSlot(rs, minv, maxv, len, top, v)} :: IsSlot(rs, minv, maxv, len, top, v) ==>
              Below(rs, v + 1) <= Below(rs, maxv) && (AtZero(rs) ==> Below(rs, v + 1) != 0)
  {
    forall v {:trigger IsSlot(rs, minv, maxv, len, top, v)} | IsSlot(rs, minv, maxv, len, top, v)
      ensures Below(rs, v + 1) <= Below(rs, maxv) && (AtZero(rs) ==> Below(rs, v + 1) != 0)
    {
      SlotGap(rs, minv, maxv, len, top, v);
    }
  }

  /** The lowest gap is empty when a region starts at address 0. */
  lemma ZeroGapStep(rs: seq<Region>, minv: int, maxv: int, len: int, top: int)
    requires Regular(rs) && Under(rs, top) && len > 0 && 0 <= minv < maxv < WORD && AtZero(rs)
    requires NoneIn(rs, minv, maxv, len, top, 1, Below(rs, maxv))
    ensures var r := TryGap(GapStart(rs, 0), GapEnd(rs, 0, top), minv, maxv, len);
            Searched(rs, minv, maxv, len, top, AnswerOf(r))
  {
    SlotsWithinReach(rs, minv, maxv, len, top);
    GapBounds(rs, top, 0);
  }

  /** The search examines the gaps from the highest down; one more of them. */
  lemma GapStep(rs: seq<Region>, minv: int, maxv: int, len: int, top: int, k: nat)
    requires Regular(rs) && Under(rs, top) && k <= Below(rs, maxv) && len > 0 && 0 <= minv < maxv < WORD
    requires NoneIn(rs, minv, maxv, len, top, k + 1, Below(rs, maxv))
    ensures var r := TryGap(GapStart(rs, k), GapEnd(rs, k, top), minv, maxv, len);
            if r.Some? then Searched(rs, minv, maxv, len, top, Found(r.value))
            else NoneIn(rs, minv, maxv, len, top, k, Below(rs, maxv))
                 && (k == 0 ==> Searched(rs, minv, maxv, len, top, Fail))
  {
    SlotsWithinReach(rs, minv, maxv, len, top);
    if k == 0 && AtZero(rs) {
      ZeroGapStep(rs, minv, maxv, len, top);
    } else {
      var r := TryGap(GapStart(rs, k), GapEnd(rs, k, top), minv, maxv, len);
      GapExact(rs, minv, maxv, len, top, k);
      if r.Some? {
        HighestGapBest(rs, minv, maxv, len, top, k, r);
      }
    }
  }

  /** The gaps from k down, until one fits. */
  function Descend(rs: seq<Region>, minv: int, maxv: int, len: int, top: int, k: nat): Option<int>
    requires k <= |rs|
  {
    var r := TryGap(GapStart(rs, k), GapEnd(rs, k, top), minv, maxv, len);
    if r.Some? || k == 0 then r else Descend(rs, minv, maxv, len, top, k - 1)
  }

  lemma {:induction false} DescendExact(rs: seq<Region>, minv: int, maxv: int, len: int, top: int, k: nat)
    requires Regular(rs) && Under(rs, top) && k <= Below(rs, maxv) && len > 0 && 0 <= minv < maxv < WORD
    requires NoneIn(rs, minv, maxv, len, top, k + 1, Below(rs, maxv))
    ensures var r := Descend(rs, minv, maxv, len, top, k);
            Searched(rs, minv, maxv, len, top, AnswerOf(r))
  {
    GapStep(rs, minv, maxv, len, top, k);
    if TryGap(GapStart(rs, k), GapEnd(rs, k, top), minv, maxv, len).None? && k > 0 {
      DescendExact(rs, minv, maxv, len, top, k - 1);
    }
  }

  lemma AlignedSums(x: int, y: int)
    requires x % PAGE == 0 && y % PAGE == 0
    ensures (x + y) % PAGE == 0 && (x - y) % PAGE == 0
    ensures x > 0 ==> x >= PAGE
  {
    var a, b := x / PAGE, y / PAGE;
    assert x == a * PAGE && y == b * PAGE;
    Multiple(a + b);
    Multiple(a - b);
  }

  lemma Multiple(k: int)
    ensures (k * PAGE) % PAGE == 0
  {
  }

  lemma TryGapAligned(lo: int, hi: int, minv: int, maxv: int, len: int)
    requires hi % PAGE == 0 && maxv % PAGE == 0 && len % PAGE == 0
    ensures var r := TryGap(lo, hi, minv, maxv, len); r.Some? ==> r.value % PAGE == 0
  {
    var r := TryGap(lo, hi, minv, maxv, len);
    AlignedSums(hi, PAGE);
    AlignedSums(hi - PAGE, WORD);
    if r.Some? {
      var e := r.value + len;
      assert e == hi || e == maxv || e == hi - PAGE || e == hi - PAGE + WORD || e == hi - PAGE - WORD;
      AlignedSums(hi - PAGE, WORD);
      AlignedSums(e, len);
    }
  }

  /** Aligned bounds give aligned answers. */
  lemma {:induction false} DescendAligned(rs: seq<Region>, minv: int, maxv: int, len: int, top: int, k: nat)
    requires Aligned(rs) && k <= |rs|
    requires maxv % PAGE == 0 && len % PAGE == 0 && top % PAGE == 0
    ensures var r := Descend(rs, minv, maxv, len, top, k); r.Some? ==> r.value % PAGE == 0
  {
    TryGapAligned(GapStart(rs, k), GapEnd(rs, k, top), minv, maxv, len);
    if k > 0 {
      DescendAligned(rs, minv, maxv, len, top, k - 1);
    }
  }

  /** Whatever the limits, the range found is a slot exactly unless the search was misled; on a range
      below the top of the data space it is then in bounds but overlaps a region. */
  lemma MisledExactly(rs: seq<Region>, minv: int, maxv: int, len: int, top: int, a: Answer)
    requires Regular(rs) && Under(rs, top) && 0 <= minv < maxv && len > 0
    requires Searched(rs, minv, maxv, len, top, a) && a.Found?
    ensures IsSlot(rs, minv, maxv, len, top, a.v) <==> !Misled(rs, minv, maxv, len, top)
    ensures minv <= a.v && a.v + len <= maxv
    ensures maxv <= top ==> (Clear(rs, a.v, len, 0) <==> !Misled(rs, minv, maxv, len, top))
  {
    var c := Below(rs, maxv);
    assert c < |rs| ==> rs[c].vaddr >= maxv;
    assert !IsSlot(rs, minv, maxv, len, top, a.v) || !Misled(rs, minv, maxv, len, top);
  }

  /** It happens: the only region covers the first two pages, and its second page is offered. */
  lemma MisledExample()
    ensures var rs := [Region(0, [None, None])];
            Regular(rs) && Misled(rs, PAGE, 2 * PAGE, PAGE, 16 * PAGE)
            && Descend(rs, PAGE, 2 * PAGE, PAGE, 16 * PAGE, Below(rs, 2 * PAGE)) == Some(PAGE)
  {
    var rs := [Region(0, [None, None])];
    assert rs[0].End() == 2 * PAGE;
    forall v
      ensures !IsSlot(rs, PAGE, 2 * PAGE, PAGE, 16 * PAGE, v)
    {
      assert Clear(rs, v, PAGE, 0) ==> v + PAGE <= rs[0].vaddr || rs[0].End() <= v;
    }
    assert Below(rs, 2 * PAGE) == 1 by {
      assert rs[0].vaddr < 2 * PAGE;
    }
  }

  lemma SlotUnder(rs: seq<Region>, minv: int, maxv: int, len: int, top: int, v: int)
    requires Regular(rs) && Under(rs, top) && IsSlot(rs, minv, maxv, len, top, v)
    ensures v + len <= top
  {
    assert Below(rs, maxv) < |rs| ==> rs[Below(rs, maxv)].End() <= top;
  }

  /** A slot below a lower limit is a slot below a higher one. */
  lemma SlotWidens(rs: seq<Region>, minv: int, low: int, high: int, len: int, top: int, v: int)
    requires Regular(rs) && Under(rs, top) && low <= high && IsSlot(rs, minv, low, len, top, v)
    ensures IsSlot(rs, minv, high, len, top, v)
  {
    var l, h := Below(rs, low), Below(rs, high);
    if l < |rs| {
      assert rs[l].vaddr >= low && rs[l].End() <= top;
      if h < |rs| && l != h {
        assert rs[h].vaddr >= high;
        assert l < h;
      }
    }
  }

  // ---------------------------------------------------------------- lookup

  /** map_lookup: one search for the last region that starts at or below the address. */
  function Lookup(rs: seq<Region>, a: int): Option<nat>
    requires Regular(rs)
  {
    var n := Below(rs, a + 1);
    if n > 0 && rs[n - 1].vaddr <= a && a < rs[n - 1].End() then Some(n - 1) else None
  }

  /** It finds the region that contains the address, exactly when there is one, and that is the only
      one. */
  lemma LookupExact(rs: seq<Region>, a: int, i: nat)
    requires Regular(rs)
    ensures Lookup(rs, a) == Some(i) <==> i < |rs| && rs[i].Contains(a)
  {
    var n := Below(rs, a + 1);
    if i < |rs| && rs[i].Contains(a) {
      assert i < n;
    }
  }

  /** The page mapped at a page-aligned address. */
  function PageOf(rs: seq<Region>, a: int): Option<PhysRegion>
    requires Regular(rs) && Aligned(rs) && a % PAGE == 0
  {
    match Lookup(rs, a)
    case None => None
    case Some(i) => rs[i].PageAt(a - rs[i].vaddr)
  }

  // ---------------------------------------------------------------- changes of the address space

  /** region_insert */
  function InsertRegion(rs: seq<Region>, r: Region): seq<Region>
    requires Regular(rs)
  {
    var n := Below(rs, r.vaddr);
    rs[..n] + [r] + rs[n..]
  }

  lemma InsertKeepsRegular(rs: seq<Region>, r: Region)
    requires Regular(rs) && Regular([r]) && Clear(rs, r.vaddr, r.Length(), 0)
    ensures Regular(InsertRegion(rs, r))
  {
    var n := Below(rs, r.vaddr);
    var rs' := InsertRegion(rs, r);
    assert [r][0] == r;
    forall i | 0 <= i < |rs|
      ensures if i < n then rs[i].End() <= r.vaddr else r.End() <= rs[i].vaddr
    {
      assert rs[i].pages != [];
    }
    assert forall i {:trigger rs'[i]} :: 0 <= i < |rs'| ==>
      rs'[i] == if i < n then rs[i] else if i == n then r else rs[i - 1];
  }

  /** A region without the pages in [offset, offset + len): shorter if they were its last ones. */
  function Unmapped(r: Region, offset: int, len: int): Region
    requires 0 < offset && 0 <= len && offset + len <= r.Length() && offset % PAGE == len % PAGE == 0
  {
    var from, to := offset / PAGE, (offset + len) / PAGE;
    if offset + len == r.Length() then Region(r.vaddr, r.pages[..from])
    else Region(r.vaddr, r.pages[..from] + seq(to - from, _ => None) + r.pages[to..])
  }

  lemma UnmapKeepsRegular(rs: seq<Region>, i: nat, offset: int, len: int)
    requires Regular(rs) && i < |rs|
    requires 0 < offset && 0 <= len && offset + len <= rs[i].Length() && offset % PAGE == len % PAGE == 0
    ensures Regular(rs[i := Unmapped(rs[i], offset, len)])
  {
    var r' := Unmapped(rs[i], offset, len);
    assert r'.vaddr == rs[i].vaddr && r'.pages != [] && r'.End() <= rs[i].End();
  }

  lemma UnmappedPage(r: Region, offset: int, len: int, o: int)
    requires 0 < offset && 0 <= len && offset + len <= r.Length() && offset % PAGE == len % PAGE == 0
    requires 0 <= o < r.Length() && o % PAGE == 0
    ensures var r' := Unmapped(r, offset, len);
            if offset <= o < offset + len then o >= r'.Length() || r'.PageAt(o) == None
            else o < r'.Length() && r'.PageAt(o) == r.PageAt(o)
  {
    AlignedSums(offset, len);
    var from, to := offset / PAGE, (offset + len) / PAGE;
    assert from * PAGE == offset && to * PAGE == offset + len && o / PAGE * PAGE == o;
  }

  /** Unmapping empties exactly its range: every other address keeps its page. */
  lemma UnmapEmptiesRange(rs: seq<Region>, i: nat, offset: int, len: int, a: int)
    requires Regular(rs) && Aligned(rs) && i < |rs| && a % PAGE == 0
    requires 0 < offset && 0 <= len && offset + len <= rs[i].Length() && offset % PAGE == len % PAGE == 0
    ensures Regular(rs[i := Unmapped(rs[i], offset, len)]) && Aligned(rs[i := Unmapped(rs[i], offset, len)])
    ensures var start := rs[i].vaddr + offset;
            PageOf(rs[i := Unmapped(rs[i], offset, len)], a)
            == if start <= a < start + len then None else PageOf(rs, a)
  {
    UnmapKeepsRegular(rs, i, offset, len);
    if rs[i].Contains(a) {
      UnmapInside(rs, i, offset, len, a);
    } else {
      NoOther(rs, rs[i := Unmapped(rs[i], offset, len)], a, i);
      LookupExact(rs, a, i);
    }
  }

  /** Addresses leave the region only where its end is unmapped. */
  lemma UnmapShortens(rs: seq<Region>, i: nat, offset: int, len: int, a: int)
    requires Regular(rs) && i < |rs|
    requires 0 < offset && 0 <= len && offset + len <= rs[i].Length() && offset % PAGE == len % PAGE == 0
    ensures Regular(rs[i := Unmapped(rs[i], offset, len)])
    ensures Lookup(rs[i := Unmapped(rs[i], offset, len)], a)
            == if offset + len == rs[i].Length() && rs[i].vaddr + offset <= a < rs[i].End() then None else Lookup(rs, a)
  {
    var rs' := rs[i := Unmapped(rs[i], offset, len)];
    UnmapKeepsRegular(rs, i, offset, len);
    UnmappedLength(rs[i], offset, len);
    if rs[i].Contains(a) {
      LookupExact(rs, a, i);
      LookupExact(rs', a, i);
      if Lookup(rs', a).Some? {
        LookupExact(rs', a, Lookup(rs', a).value);
      }
    } else {
      NoOther(rs, rs', a, i);
    }
  }

  lemma UnmappedLength(r: Region, offset: int, len: int)
    requires 0 < offset && 0 <= len && offset + len <= r.Length() && offset % PAGE == len % PAGE == 0
    ensures Unmapped(r, offset, len).vaddr == r.vaddr
    ensures Unmapped(r, offset, len).Length() == if offset + len == r.Length() then offset else r.Length()
  {
    AlignedSums(offset, len);
  }

  lemma UnmapInside(rs: seq<Region>, i: nat, offset: int, len: int, a: int)
    requires Regular(rs) && Aligned(rs) && i < |rs| && a % PAGE == 0 && rs[i].Contains(a)
    requires 0 < offset && 0 <= len && offset + len <= rs[i].Length() && offset % PAGE == len % PAGE == 0
    ensures Regular(rs[i := Unmapped(rs[i], offset, len)]) && Aligned(rs[i := Unmapped(rs[i], offset, len)])
    ensures var start := rs[i].vaddr + offset;
            PageOf(rs[i := Unmapped(rs[i], offset, len)], a)
            == if start <= a < start + len then None else PageOf(rs, a)
  {
    var rs' := rs[i := Unmapped(rs[i], offset, len)];
    UnmapKeepsRegular(rs, i, offset, len);
    PageWithin(rs, a, i);
    PageAfter(rs, rs', a, i);
    UnmappedPage(rs[i], offset, len, a - rs[i].vaddr);
  }

  /** A page of region i after that region has changed. */
  lemma PageAfter(rs: seq<Region>, rs': seq<Region>, a: int, i: nat)
    requires Regular(rs) && Aligned(rs) && Regular(rs') && Aligned(rs') && a % PAGE == 0
    requires i < |rs| == |rs'| && rs' == rs[i := rs'[i]] && rs'[i].vaddr == rs[i].vaddr && rs[i].Contains(a)
    ensures (a - rs[i].vaddr) % PAGE == 0
    ensures PageOf(rs', a) == if rs'[i].Contains(a) then rs'[i].PageAt(a - rs[i].vaddr) else None
  {
    AlignedSums(a, rs[i].vaddr);
    if rs'[i].Contains(a) {
      PageWithin(rs', a, i);
    } else {
      NoOther(rs', rs, a, i);
    }
  }

  lemma PageWithin(rs: seq<Region>, a: int, i: nat)
    requires Regular(rs) && Aligned(rs) && i < |rs| && a % PAGE == 0 && rs[i].Contains(a)
    ensures (a - rs[i].vaddr) % PAGE == 0 && PageOf(rs, a) == rs[i].PageAt(a - rs[i].vaddr)
  {
    AlignedSums(a, rs[i].vaddr);
    LookupExact(rs, a, i);
  }

  /** Outside one region, two address spaces that differ in that region only agree. */
  lemma NoOther(rs: seq<Region>, rs': seq<Region>, a: int, i: nat)
    requires Regular(rs) && Regular(rs') && i < |rs| == |rs'| && rs' == rs[i := rs'[i]] && !rs[i].Contains(a)
    requires rs'[i].vaddr == rs[i].vaddr
    ensures !rs'[i].Contains(a) ==> Lookup(rs, a) == Lookup(rs', a)
    ensures rs'[i].Contains(a) ==> Lookup(rs, a) == None
  {
    var l, l' := Lookup(rs, a), Lookup(rs', a);
    if l.Some? {
      LookupExact(rs, a, l.value);
      LookupExact(rs', a, l.value);
    }
    if l'.Some? {
      LookupExact(rs', a, l'.value);
      LookupExact(rs, a, l'.value);
    }
    LookupExact(rs', a, i);
  }

  // ---------------------------------------------------------------- the process

  /** Arguments of a search: 32-bit words, page-aligned, and a length that is not 0. */
  ghost predicate Words(minv: int, maxv: int, length: int) {
    && 0 <= minv < WORD && 0 <= maxv < WORD && 0 < length < WORD
    && minv % PAGE == maxv % PAGE == length % PAGE == 0
  }

  /** A limit of 0 means the end of a range at minv. */
  function Limit(minv: int, maxv: int, length: int): int {
    if maxv == 0 then minv + length else maxv
  }

  /** region_find_slot first tries the range below the hint. */
  predicate TriesHint(hint: int, minv: int, maxv: int) {
    maxv != 0 && minv <= hint < maxv
  }

  lemma {:induction false} DescendWithin(rs: seq<Region>, minv: int, maxv: int, len: int, top: int, k: nat)
    requires k <= |rs|
    ensures var r := Descend(rs, minv, maxv, len, top, k); r.Some? ==> minv <= r.value && r.value + len <= maxv
  {
    if k > 0 {
      DescendWithin(rs, minv, maxv, len, top, k - 1);
    }
  }

  /** region_find_slot_range on [minv, maxv), or at minv if maxv is 0. */
  function FindRange(rs: seq<Region>, minv: int, maxv: int, len: int, top: int): Answer
    requires Regular(rs)
  {
    var max := if maxv == 0 then Wrap(minv + len) else maxv;
    if maxv == 0 && max <= minv then Fail
    else if minv >= max then Panic
    else if Wrap(minv + len) > max then Fail
    else
      match Descend(rs, minv, max, len, top, Below(rs, max))
      case None => Fail
      case Some(v) => Found(v)
  }

  /** Which way the search takes. */
  lemma FindRangeCases(rs: seq<Region>, minv: int, maxv: int, len: int, top: int)
    requires Regular(rs) && 0 <= minv < WORD && 0 <= maxv < WORD && 0 < len < WORD
    ensures var a := FindRange(rs, minv, maxv, len, top);
            var max := Limit(minv, maxv, len);
            if minv >= max then a == Panic
            else if minv + len > max || minv + len >= WORD then a == Fail
            else a == AnswerOf(Descend(rs, minv, max, len, top, Below(rs, max)))
  {
    if maxv != 0 && minv < maxv {
      DescendWithin(rs, minv, maxv, len, top, Below(rs, maxv));
    }
  }

  /** It answers the best slot; it fails exactly if there is none. */
  lemma FindRangeExact(rs: seq<Region>, minv: int, maxv: int, len: int, top: int)
    requires Regular(rs) && Under(rs, top) && 0 <= minv < WORD && 0 <= maxv < WORD && 0 < len < WORD
    ensures var a := FindRange(rs, minv, maxv, len, top);
            if maxv != 0 && minv >= maxv then a == Panic
            else a != Panic && Searched(rs, minv, Limit(minv, maxv, len), len, top, a)
  {
    FindRangeCases(rs, minv, maxv, len, top);
    var max := Limit(minv, maxv, len);
    if minv + len > max || minv + len >= WORD {
      NoRoom(rs, minv, max, len, top);
    } else {
      DescendExact(rs, minv, max, len, top, Below(rs, max));
    }
  }

  /** The range found is aligned and within the limits. */
  lemma FindRangeAligned(rs: seq<Region>, minv: int, maxv: int, len: int, top: int)
    requires Regular(rs) && Aligned(rs) && Words(minv, maxv, len) && top % PAGE == 0
    ensures var a := FindRange(rs, minv, maxv, len, top);
            a.Found? ==> a.v % PAGE == 0 && minv <= a.v && a.v + len <= Limit(minv, maxv, len) < WORD
  {
    FindRangeCases(rs, minv, maxv, len, top);
    var max := Limit(minv, maxv, len);
    if max % PAGE == 0 {
      DescendAligned(rs, minv, max, len, top, Below(rs, max));
    }
    DescendWithin(rs, minv, max, len, top, Below(rs, max));
  }

  /** region_find_slot: below the hint if that does not fail, else anywhere. */
  function HintedRange(rs: seq<Region>, hint: int, minv: int, maxv: int, len: int, top: int): Answer
    requires Regular(rs)
  {
    if TriesHint(hint, minv, maxv) && FindRange(rs, minv, hint, len, top) != Fail
    then FindRange(rs, minv, hint, len, top)
    else FindRange(rs, minv, maxv, len, top)
  }

  /** With the hint and minv both 0 the search below the hint is one at address 0, without a limit. It
      answers a range longer than maxv if there is room. */
  ghost predicate IgnoresLimit(rs: seq<Region>, hint: int, minv: int, maxv: int, len: int, top: int)
    requires Regular(rs)
  {
    minv == 0 && hint == 0 && 0 < maxv < len && SlotExists(rs, 0, len, len, top)
  }

  /** The end of the range searched. */
  ghost function Reach(rs: seq<Region>, hint: int, minv: int, maxv: int, len: int, top: int): int
    requires Regular(rs)
  {
    if IgnoresLimit(rs, hint, minv, maxv, len, top) then len else Limit(minv, maxv, len)
  }

  /** One of the two searches is misled by a region at address 0. */
  ghost predicate Misleads(rs: seq<Region>, hint: int, minv: int, maxv: int, len: int, top: int)
    requires Regular(rs)
  {
    || (TriesHint(hint, minv, maxv) && Misled(rs, minv, Limit(minv, hint, len), len, top))
    || Misled(rs, minv, Limit(minv, maxv, len), len, top)
  }

  ghost predicate HintOk(hint: int) {
    0 <= hint < WORD && hint % PAGE == 0
  }

  /** The premises of a search by region_find_slot. */
  ghost predicate Searchable(rs: seq<Region>, hint: int, minv: int, maxv: int, len: int, top: int) {
    Regular(rs) && Aligned(rs) && Under(rs, top) && Words(minv, maxv, len) && top % PAGE == 0 && HintOk(hint)
  }

  /** A hint equal to minv makes VM panic, unless both are 0; so does an empty interval. */
  lemma PanicExactly(rs: seq<Region>, hint: int, minv: int, maxv: int, len: int, top: int)
    requires Searchable(rs, hint, minv, maxv, len, top)
    ensures HintedRange(rs, hint, minv, maxv, len, top).Panic? <==>
              (maxv != 0 && minv >= maxv) || (TriesHint(hint, minv, maxv) && minv == hint && minv > 0)
  {
    FindRangeExact(rs, minv, hint, len, top);
    FindRangeExact(rs, minv, maxv, len, top);
  }

  lemma PanicExample()
    ensures HintedRange([], PAGE, PAGE, 2 * PAGE, PAGE, 16 * PAGE) == Panic
  {
  }

  /** The search below the hint has an answer. */
  ghost predicate HintServes(rs: seq<Region>, hint: int, minv: int, maxv: int, len: int, top: int)
    requires Regular(rs)
  {
    TriesHint(hint, minv, maxv) && SlotExists(rs, minv, Limit(minv, hint, len), len, top)
  }

  /** A search that is not misled answers the best slot below the hint, if there is one, else the best
      below maxv. */
  lemma HintedBest(rs: seq<Region>, hint: int, minv: int, maxv: int, len: int, top: int)
    requires Searchable(rs, hint, minv, maxv, len, top) && !Misleads(rs, hint, minv, maxv, len, top)
    ensures var a := HintedRange(rs, hint, minv, maxv, len, top);
            var max := if HintServes(rs, hint, minv, maxv, len, top) then hint else maxv;
            a.Found? ==> Best(rs, minv, Limit(minv, max, len), len, top, a.v)
  {
    FindRangeExact(rs, minv, hint, len, top);
    FindRangeExact(rs, minv, maxv, len, top);
  }

  /** A slot below the hint is one of the whole range. */
  lemma HintWidens(rs: seq<Region>, hint: int, minv: int, maxv: int, len: int, top: int)
    requires Searchable(rs, hint, minv, maxv, len, top) && TriesHint(hint, minv, maxv)
    ensures forall v {:trigger IsSlot(rs, minv, Limit(minv, hint, len), len, top, v)} ::
              IsSlot(rs, minv, Limit(minv, hint, len), len, top, v) ==>
                IsSlot(rs, minv, Reach(rs, hint, minv, maxv, len, top), len, top, v)
  {
    var near, reach := Limit(minv, hint, len), Reach(rs, hint, minv, maxv, len, top);
    forall v {:trigger IsSlot(rs, minv, near, len, top, v)} | IsSlot(rs, minv, near, len, top, v)
      ensures IsSlot(rs, minv, reach, len, top, v)
    {
      assert minv == 0 && hint == 0 ==> SlotExists(rs, 0, len, len, top);
      SlotWidens(rs, minv, near, reach, len, top, v);
    }
  }

  lemma ZeroNotIgnored(rs: seq<Region>, hint: int, minv: int, maxv: int, len: int, top: int)
    requires Regular(rs) && AtZero(rs)
    ensures !IgnoresLimit(rs, hint, minv, maxv, len, top)
  {
    forall v | 0 < len
      ensures !IsSlot(rs, 0, len, len, top, v)
    {
      assert rs[0].pages != [];
    }
  }

  /** A search misled below the hint finds a range that is no slot of the whole range either. */
  lemma MisledNear(rs: seq<Region>, hint: int, minv: int, maxv: int, len: int, top: int)
    requires Searchable(rs, hint, minv, maxv, len, top) && TriesHint(hint, minv, maxv)
    requires Misled(rs, minv, Limit(minv, hint, len), len, top)
    ensures var a := HintedRange(rs, hint, minv, maxv, len, top);
            a.Found? && !IsSlot(rs, minv, Reach(rs, hint, minv, maxv, len, top), len, top, a.v)
  {
    FindRangeExact(rs, minv, hint, len, top);
    FindRangeAligned(rs, minv, hint, len, top);
    ZeroNotIgnored(rs, hint, minv, maxv, len, top);
    var near, v := Limit(minv, hint, len), HintedRange(rs, hint, minv, maxv, len, top).v;
    if IsSlot(rs, minv, maxv, len, top, v) {
      SlotNarrows(rs, minv, near, maxv, len, top, v);
    }
  }

  lemma SlotNarrows(rs: seq<Region>, minv: int, low: int, high: int, len: int, top: int, v: int)
    requires Regular(rs) && Under(rs, top) && IsSlot(rs, minv, high, len, top, v) && v + len <= low
    ensures IsSlot(rs, minv, low, len, top, v)
  {
    SlotUnder(rs, minv, high, len, top, v);
    assert Below(rs, low) < |rs| ==> rs[Below(rs, low)].vaddr >= low;
  }

  /** So does one misled below maxv, which is what remains when the search below the hint fails. */
  lemma MisledFar(rs: seq<Region>, hint: int, minv: int, maxv: int, len: int, top: int)
    requires Searchable(rs, hint, minv, maxv, len, top) && Misled(rs, minv, Limit(minv, maxv, len), len, top)
    requires !(TriesHint(hint, minv, maxv) && Misled(rs, minv, Limit(minv, hint, len), len, top))
    requires !HintedRange(rs, hint, minv, maxv, len, top).Panic?
    ensures var a := HintedRange(rs, hint, minv, maxv, len, top);
            a.Found? && !IsSlot(rs, minv, Reach(rs, hint, minv, maxv, len, top), len, top, a.v)
  {
    ZeroNotIgnored(rs, hint, minv, maxv, len, top);
    FindRangeExact(rs, minv, maxv, len, top);
    if TriesHint(hint, minv, maxv) {
      HintWidens(rs, hint, minv, maxv, len, top);
      assert !SlotExists(rs, minv, Limit(minv, hint, len), len, top);
      FindRangeExact(rs, minv, hint, len, top);
    }
  }

  /** For every address space, the range found is a slot of the range searched if and only if no search
      is misled; and nothing is found exactly if no search is misled and there is no slot. */
  lemma HintedRangeExact(rs: seq<Region>, hint: int, minv: int, maxv: int, len: int, top: int)
    requires Searchable(rs, hint, minv, maxv, len, top)
    ensures var a, reach := HintedRange(rs, hint, minv, maxv, len, top), Reach(rs, hint, minv, maxv, len, top);
            && (a.Found? ==> a.v % PAGE == 0)
            && (a.Found? ==> (IsSlot(rs, minv, reach, len, top, a.v) <==> !Misleads(rs, hint, minv, maxv, len, top)))
            && (a.Fail? <==> !a.Panic? && !Misleads(rs, hint, minv, maxv, len, top)
                             && !SlotExists(rs, minv, reach, len, top))
  {
    FindRangeAligned(rs, minv, hint, len, top);
    FindRangeAligned(rs, minv, maxv, len, top);
    if Misleads(rs, hint, minv, maxv, len, top) {
      if TriesHint(hint, minv, maxv) && Misled(rs, minv, Limit(minv, hint, len), len, top) {
        MisledNear(rs, hint, minv, maxv, len, top);
      } else if !HintedRange(rs, hint, minv, maxv, len, top).Panic? {
        MisledFar(rs, hint, minv, maxv, len, top);
      }
    } else {
      FindRangeExact(rs, minv, hint, len, top);
      FindRangeExact(rs, minv, maxv, len, top);
      if TriesHint(hint, minv, maxv) {
        HintWidens(rs, hint, minv, maxv, len, top);
      }
    }
  }

  /** For every address space, the range found ends within the limit if and only if the search does not
      ignore it. */
  lemma LimitKeptExactly(rs: seq<Region>, hint: int, minv: int, maxv: int, len: int, top: int)
    requires Regular(rs) && Aligned(rs) && Under(rs, top) && Words(minv, maxv, len) && top % PAGE == 0 && HintOk(hint)
    ensures var a := HintedRange(rs, hint, minv, maxv, len, top);
            a.Found? ==> (a.v + len <= Limit(minv, maxv, len) <==> !IgnoresLimit(rs, hint, minv, maxv, len, top))
  {
    FindRangeExact(rs, minv, hint, len, top);
    FindRangeAligned(rs, minv, hint, len, top);
    FindRangeAligned(rs, minv, maxv, len, top);
    assert hint == 0 && TriesHint(hint, minv, maxv) ==> minv == 0 && !Misled(rs, 0, len, len, top);
  }

  /** It happens: on an empty address space a range longer than maxv is found at address 0. */
  lemma LimitExample()
    ensures IgnoresLimit([], 0, 0, PAGE, 2 * PAGE, 16 * PAGE)
    ensures HintedRange([], 0, 0, PAGE, 2 * PAGE, 16 * PAGE) == Found(0)
  {
    assert IsSlot([], 0, 2 * PAGE, 2 * PAGE, 16 * PAGE, 0);
  }

  /** A new region without pages. */
  function Fresh(v: int, len: int): Region
    requires len >= 0
  {
    Region(v, seq(len / PAGE, _ => None))
  }

  lemma FreshLength(v: int, len: int)
    requires len >= 0 && len % PAGE == 0
    ensures Fresh(v, len).Length() == len
  {
  }

  /** A new region adds exactly its own addresses, and every other is in the region it was in. */
  lemma InsertFinds(rs: seq<Region>, r: Region, rs': seq<Region>, a: int)
    requires Regular(rs) && Regular(rs') && rs' == InsertRegion(rs, r)
    ensures Lookup(rs', a).Some? <==> Lookup(rs, a).Some? || r.Contains(a)
    ensures r.Contains(a) ==> Lookup(rs, a).None? && rs'[Lookup(rs', a).value] == r
    ensures Lookup(rs, a).Some? ==> rs'[Lookup(rs', a).value] == rs[Lookup(rs, a).value]
  {
    var n, l, l' := Below(rs, r.vaddr), Lookup(rs, a), Lookup(rs', a);
    assert rs'[n] == r;
    LookupExact(rs', a, n);
    if l.Some? {
      var j := if l.value < n then l.value else l.value + 1;
      assert rs'[j] == rs[l.value];
      LookupExact(rs, a, l.value);
      LookupExact(rs', a, j);
    }
    if l'.Some? {
      LookupExact(rs', a, l'.value);
      if l'.value != n {
        var i := if l'.value < n then l'.value else l'.value - 1;
        assert rs'[l'.value] == rs[i];
        LookupExact(rs, a, i);
      }
    }
  }

  /** None of them has a page. */
  lemma MapAdds(rs: seq<Region>, v: int, len: int, rs': seq<Region>, a: int)
    requires Regular(rs) && Aligned(rs) && Regular(rs') && Aligned(rs') && len >= 0 && len % PAGE == 0
    requires rs' == InsertRegion(rs, Fresh(v, len))
    ensures Lookup(rs', a).Some? <==> Lookup(rs, a).Some? || v <= a < v + len
    ensures v <= a < v + len ==> Lookup(rs, a).None?
    ensures a % PAGE == 0 ==> PageOf(rs', a) == PageOf(rs, a)
  {
    FreshLength(v, len);
    InsertFinds(rs, Fresh(v, len), rs', a);
    if a % PAGE == 0 && Lookup(rs', a).Some? {
      LookupExact(rs', a, Lookup(rs', a).value);
    }
  }

  lemma FreshFits(rs: seq<Region>, minv: int, maxv: int, len: int, top: int, v: int)
    requires Regular(rs) && Under(rs, top) && len > 0 && len % PAGE == 0 && (v == 0 || PAGE <= v)
    requires IsSlot(rs, minv, maxv, len, top, v)
    ensures var rs' := InsertRegion(rs, Fresh(v, len)); Regular(rs') && Under(rs', top)
  {
    var r := Fresh(v, len);
    FreshLength(v, len);
    SlotUnder(rs, minv, maxv, len, top, v);
    assert [r][0] == r;
    InsertKeepsRegular(rs, r);
  }

  lemma InsertKeepsAligned(rs: seq<Region>, r: Region)
    requires Regular(rs) && Aligned(rs) && r.vaddr % PAGE == 0
    ensures Aligned(InsertRegion(rs, r))
  {
  }

  lemma InsertAtZero(rs: seq<Region>, r: Region)
    requires Regular(rs) && r.vaddr >= 0
    ensures AtZero(InsertRegion(rs, r)) <==> AtZero(rs) || r.vaddr == 0
  {
    assert rs != [] ==> (rs[0].vaddr < r.vaddr <==> 0 < Below(rs, r.vaddr));
  }

  ghost predicate ValidSpace(rs: seq<Region>, hint: int, top: int) {
    Regular(rs) && Aligned(rs) && Under(rs, top) && top % PAGE == 0 && HintOk(hint)
  }

  /** Only a clear range can be inserted. */
  lemma InsertedClear(rs: seq<Region>, r: Region)
    requires Regular(rs) && Regular(InsertRegion(rs, r))
    ensures Clear(rs, r.vaddr, r.Length(), 0)
  {
    var n, rs' := Below(rs, r.vaddr), InsertRegion(rs, r);
    assert rs'[n] == r;
    forall i {:trigger rs[i]} | 0 <= i < |rs|
      ensures r.vaddr + r.Length() <= rs[i].vaddr || rs[i].End() <= r.vaddr
    {
      assert rs'[if i < n then i else i + 1] == rs[i];
    }
  }

  /** A range that a misled search found overlaps a region or reaches above the top of the data space. */
  lemma MisledBreaks(rs: seq<Region>, minv: int, maxv: int, len: int, top: int, v: int)
    requires Regular(rs) && Under(rs, top) && 0 <= minv < maxv && len > 0 && len % PAGE == 0
    requires Misled(rs, minv, maxv, len, top) && Searched(rs, minv, maxv, len, top, Found(v))
    ensures var rs' := InsertRegion(rs, Fresh(v, len)); !(Regular(rs') && Under(rs', top))
  {
    var r := Fresh(v, len);
    var rs' := InsertRegion(rs, r);
    FreshLength(v, len);
    assert rs'[Below(rs, v)] == r;
    if Regular(rs') && Under(rs', top) {
      assert r.End() <= top;
      MisledExactly(rs, minv, maxv, len, top, Found(v));
      InsertedClear(rs, r);
    }
  }

  /** Which search found the range, if one of the two is misled. */
  lemma MisledAnswer(rs: seq<Region>, hint: int, minv: int, maxv: int, len: int, top: int)
    requires Searchable(rs, hint, minv, maxv, len, top) && Misleads(rs, hint, minv, maxv, len, top)
    requires HintedRange(rs, hint, minv, maxv, len, top).Found?
    ensures var v := HintedRange(rs, hint, minv, maxv, len, top).v;
            exists max {:trigger Misled(rs, minv, max, len, top)} ::
              minv < max && Misled(rs, minv, max, len, top) && Searched(rs, minv, max, len, top, Found(v))
  {
    var near, far := Limit(minv, hint, len), Limit(minv, maxv, len);
    FindRangeExact(rs, minv, hint, len, top);
    FindRangeExact(rs, minv, maxv, len, top);
    if TriesHint(hint, minv, maxv) && !Misled(rs, minv, near, len, top) {
      ZeroNotIgnored(rs, hint, minv, maxv, len, top);
      HintWidens(rs, hint, minv, maxv, len, top);
      assert !SlotExists(rs, minv, near, len, top);
    }
    assert Misled(rs, minv, near, len, top) || Misled(rs, minv, far, len, top);
  }

  /** Mapping at the range found keeps the address space in order if and only if no search was misled. */
  lemma MapKeepsValid(rs: seq<Region>, hint: int, minv: int, maxv: int, len: int, top: int)
    requires ValidSpace(rs, hint, top) && Words(minv, maxv, len)
    ensures var a := HintedRange(rs, hint, minv, maxv, len, top);
            a.Found? ==> && ValidSpace(rs, Wrap(a.v + len), top)
                         && (ValidSpace(InsertRegion(rs, Fresh(a.v, len)), Wrap(a.v + len), top)
                             <==> !Misleads(rs, hint, minv, maxv, len, top))
                         && (AtZero(InsertRegion(rs, Fresh(a.v, len))) <==> AtZero(rs) || a.v == 0)
  {
    var a := HintedRange(rs, hint, minv, maxv, len, top);
    if a.Found? {
      FoundHint(rs, hint, minv, maxv, len, top);
      InsertAtZero(rs, Fresh(a.v, len));
      if Misleads(rs, hint, minv, maxv, len, top) {
        MisledAnswer(rs, hint, minv, maxv, len, top);
        var max :| minv < max && Misled(rs, minv, max, len, top) && Searched(rs, minv, max, len, top, Found(a.v));
        MisledBreaks(rs, minv, max, len, top, a.v);
      } else {
        MapFits(rs, hint, minv, maxv, len, top);
      }
    }
  }

  /** The end of the range found is a hint for the next search. */
  lemma FoundHint(rs: seq<Region>, hint: int, minv: int, maxv: int, len: int, top: int)
    requires Searchable(rs, hint, minv, maxv, len, top) && HintedRange(rs, hint, minv, maxv, len, top).Found?
    ensures var v := HintedRange(rs, hint, minv, maxv, len, top).v; v >= 0 && v % PAGE == 0 && HintOk(Wrap(v + len))
  {
    FoundAligned(rs, minv, hint, len, top);
    FoundAligned(rs, minv, maxv, len, top);
  }

  lemma FoundAligned(rs: seq<Region>, minv: int, maxv: int, len: int, top: int)
    requires Regular(rs) && Aligned(rs) && Under(rs, top) && Words(minv, maxv, len) && top % PAGE == 0
    ensures var a := FindRange(rs, minv, maxv, len, top);
            a.Found? ==> a.v >= 0 && a.v % PAGE == 0 && HintOk(Wrap(a.v + len))
  {
    FindRangeAligned(rs, minv, maxv, len, top);
    var a := FindRange(rs, minv, maxv, len, top);
    if a.Found? {
      HintAligned(a.v, len);
    }
  }

  lemma HintAligned(v: int, len: int)
    requires 0 <= v < WORD && 0 < len < WORD && v % PAGE == len % PAGE == 0
    ensures HintOk(Wrap(v + len))
  {
    AlignedSums(v, len);
  }

  lemma MapFits(rs: seq<Region>, hint: int, minv: int, maxv: int, len: int, top: int)
    requires ValidSpace(rs, hint, top) && Words(minv, maxv, len) && !Misleads(rs, hint, minv, maxv, len, top)
    requires HintedRange(rs, hint, minv, maxv, len, top).Found?
    ensures var v := HintedRange(rs, hint, minv, maxv, len, top).v;
            var rs' := InsertRegion(rs, Fresh(v, len)); Regular(rs') && Aligned(rs') && Under(rs', top)
  {
    var v, reach := HintedRange(rs, hint, minv, maxv, len, top).v, Reach(rs, hint, minv, maxv, len, top);
    HintedRangeExact(rs, hint, minv, maxv, len, top);
    AlignedSums(v, len);
    FreshFits(rs, minv, reach, len, top, v);
    InsertKeepsAligned(rs, Fresh(v, len));
  }

  /** What map_page_region answers and leaves: the search moves the hint even if the region cannot be
      made. */
  predicate MapResult(rs: seq<Region>, hint: int, minv: int, maxv: int, len: int, top: int, memoryOk: bool, a: Answer,
                      rs': seq<Region>, hint': int)
    requires Regular(rs) && len >= 0
  {
    var found := HintedRange(rs, hint, minv, maxv, len, top);
    && a == (if found.Found? && !memoryOk then Fail else found)
    && rs' == (if a.Found? then InsertRegion(rs, Fresh(a.v, len)) else rs)
    && hint' == if found.Found? then Wrap(found.v + len) else hint
  }

  class VmProc {
    /** The top of the data space, VM_DATATOP. */
    const top: int
    var regions: seq<Region>
    /** The end of the last range found, vm_region_top. */
    var hint: int

    ghost predicate Valid()
      reads this
    {
      ValidSpace(regions, hint, top)
    }

    constructor (top: int)
      requires PAGE <= top && top + PAGE < WORD && top % PAGE == 0
      ensures Valid() && regions == [] && hint == 0 && this.top == top
    {
      this.top := top;
      regions := [];
      hint := 0;
    }

    /** The gaps from the one below the region at `start` down, until one fits. */
    method SearchGaps(start: nat, minv: int, maxv: int, length: int) returns (found: Option<int>)
      requires start <= |regions|
      ensures found == Descend(regions, minv, maxv, length, top, start)
    {
      found := None;
      var iter := start;
      if iter == |regions| {
        iter := iter - 1;
        found := TryGap(if iter >= 0 then regions[iter].End() else 0, top, minv, maxv, length);
      }
      while iter >= 0 && found.None?
        invariant -1 <= iter < |regions|
        invariant Descend(regions, minv, maxv, length, top, start)
          == if found.None? && iter >= 0 then Descend(regions, minv, maxv, length, top, iter) else found
      {
        var vr := iter;
        iter := iter - 1;
        found := TryGap(if iter >= 0 then regions[iter].End() else 0, regions[vr].vaddr, minv, maxv, length);
      }
    }

    /** region_find_slot_range */
    method FindSlotRange(minv: int, maxv: int, length: int) returns (a: Answer)
      requires Regular(regions)
      modifies this`hint
      ensures a == FindRange(regions, minv, maxv, length, top)
      ensures hint == if a.Found? then Wrap(a.v + length) else old(hint)
    {
      var max := maxv;
      if maxv == 0 {
        max := Wrap(minv + length);
        if max <= minv {
          return Fail;
        }
      }
      if minv >= max {
        return Panic;
      }
      if Wrap(minv + length) > max {
        return Fail;
      }
      var found := SearchGaps(Below(regions, max), minv, max, length);
      if found.None? {
        return Fail;
      }
      hint := Wrap(found.value + length);
      return Found(found.value);
    }

    /** region_find_slot */
    method FindSlot(minv: int, maxv: int, length: int) returns (a: Answer)
      requires Regular(regions)
      modifies this`hint
      ensures a == HintedRange(regions, old(hint), minv, maxv, length, top)
      ensures hint == if a.Found? then Wrap(a.v + length) else old(hint)
    {
      var h := hint;
      if maxv != 0 && h < maxv && h >= minv {
        a := FindSlotRange(minv, h, length);
        if a != Fail {
          return;
        }
      }
      a := FindSlotRange(minv, maxv, length);
    }

    /** map_page_region: a new region without pages at the range found, if memory for it can be had. */
    method MapPageRegion(minv: int, maxv: int, length: int, memoryOk: bool) returns (a: Answer)
      requires Valid() && Words(minv, maxv, length)
      modifies this
      ensures a.Panic? <==>
                (maxv != 0 && minv >= maxv) || (TriesHint(old(hint), minv, maxv) && minv == old(hint) && minv > 0)
      ensures var reach := Reach(old(regions), old(hint), minv, maxv, length, top);
              var misled := Misleads(old(regions), old(hint), minv, maxv, length, top);
              var fits := SlotExists(old(regions), minv, reach, length, top);
              && (a.Fail? <==> !a.Panic? && (memoryOk ==> !misled && !fits))
              && (a.Found? ==> (IsSlot(old(regions), minv, reach, length, top, a.v) <==> !misled))
              && (Valid() <==> !(a.Found? && misled))
      ensures MapResult(old(regions), old(hint), minv, maxv, length, top, memoryOk, a, regions, hint)
      ensures AtZero(regions) <==> AtZero(old(regions)) || a == Found(0)
    {
      PanicExactly(regions, hint, minv, maxv, length, top);
      HintedRangeExact(regions, hint, minv, maxv, length, top);
      MapKeepsValid(regions, hint, minv, maxv, length, top);
      a := FindSlot(minv, maxv, length);
      if a.Found? && !memoryOk {
        a := Fail;
      } else if a.Found? {
        regions := InsertRegion(regions, Fresh(a.v, length));
      }
    }
  }
}
