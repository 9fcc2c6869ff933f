/** The linked-list allocator as a value: which addresses are free, live, or
    lost to alignment padding. */
module Heap {
  import opened Prelude
  import opened AlignUp
  import opened Layouts

  // Size and alignment of a `ListNode` on a 64-bit machine.
  const NODE_SIZE := 16
  const NODE_ALIGN := 8

  /** `size_align`; None is the failing `expect`. */
  function SizeAlign(l: Layout): Option<Layout>
    requires ValidLayout(l)
  {
    var align := Max(l.align, NODE_ALIGN);
    if RoundUp(l.size, align) >= Pow2(WORD - 1) then None
    else Some(Layout(Max(RoundUp(l.size, align), NODE_SIZE), align))
  }

  predicate Servable(l: Layout) {
    ValidLayout(l) && SizeAlign(l).Some?
  }

  /** The padded extent of a live block. */
  function Extent(b: Block): Region
    requires Servable(b.layout)
  {
    Region(b.addr, SizeAlign(b.layout).value.size)
  }

  datatype Heap = Heap(start: nat, size: nat, free: seq<Region>, live: seq<Block>, lost: seq<Region>)

  predicate AllServable(live: seq<Block>) {
    forall i :: 0 <= i < |live| ==> Servable(live[i].layout)
  }

  function Extents(live: seq<Block>): seq<Region>
    requires AllServable(live)
  {
    seq(|live|, i requires 0 <= i < |live| => Extent(live[i]))
  }

  /** `alloc_from_region`. */
  function Fit(r: Region, size: nat, align: nat): Option<nat>
    requires align > 0
  {
    var start := RoundUp(r.start, align);
    if start + size > r.End() then None
    else if 0 < r.End() - (start + size) < NODE_SIZE then None
    else Some(start)
  }

  /** `find_region`: position of the first region that fits, or the length. */
  function FirstFit(free: seq<Region>, size: nat, align: nat): (i: nat)
    requires align > 0
    ensures i <= |free|
    ensures i < |free| ==> Fit(free[i], size, align).Some?
    ensures forall j :: 0 <= j < i ==> Fit(free[j], size, align).None?
  {
    if free == [] then 0
    else if Fit(free[0], size, align).Some? then 0
    else 1 + FirstFit(free[1..], size, align)
  }

  function NonEmpty(r: Region): seq<Region> {
    if r.size > 0 then [r] else []
  }

  /** `alloc`. */
  function Alloc(h: Heap, l: Layout): (Heap, Option<nat>)
    requires Servable(l)
  {
    var Layout(size, align) := SizeAlign(l).value;
    var i := FirstFit(h.free, size, align);
    if i == |h.free| then (h, None)
    else
      var r := h.free[i];
      var start := Fit(r, size, align).value;
      var pad := Region(r.start, start - r.start);
      var rest := Region(start + size, r.End() - (start + size));
      (h.(free := NonEmpty(rest) + Without(h.free, i),
          live := [Block(start, l)] + h.live,
          lost := h.lost + NonEmpty(pad)),
       Some(start))
  }

  function IndexOf(live: seq<Block>, b: Block): (i: nat)
    requires b in live
    ensures i < |live| && live[i] == b
  {
    if live[0] == b then 0 else 1 + IndexOf(live[1..], b)
  }

  /** `dealloc`.  The caller returns a live block, with its layout. */
  function Dealloc(h: Heap, b: Block): Heap
    requires Servable(b.layout) && b in h.live
  {
    h.(free := [Extent(b)] + h.free, live := Without(h.live, IndexOf(h.live, b)))
  }

  // ---------------------------------------------------------------------
  // Tiling

  /** Every address of the heap lies in exactly one piece. */
  function Pieces(h: Heap): seq<Region>
    requires AllServable(h.live)
  {
    h.free + Extents(h.live) + h.lost
  }

  function Count(rs: seq<Region>, x: int): nat {
    if rs == [] then 0 else (if rs[0].Contains(x) then 1 else 0) + Count(rs[1..], x)
  }

  function Total(rs: seq<Region>): nat {
    if rs == [] then 0 else rs[0].size + Total(rs[1..])
  }

  ghost predicate Tiled(h: Heap)
    requires AllServable(h.live)
  {
    forall x :: Count(Pieces(h), x) == if Region(h.start, h.size).Contains(x) then 1 else 0
  }

  /** What `add_free_region` asserts of a region. */
  predicate NodeFits(r: Region) {
    r.start % NODE_ALIGN == 0 && r.size >= NODE_SIZE
  }

  predicate Aligned(b: Block)
    requires Servable(b.layout)
  {
    b.addr % SizeAlign(b.layout).value.align == 0
  }

  ghost predicate Inv(h: Heap) {
    && h.start > 0 && h.start + h.size <= Pow2(WORD - 1)
    && AllServable(h.live)
    && (forall i :: 0 <= i < |h.free| ==> NodeFits(h.free[i]))
    && (forall i :: 0 <= i < |h.live| ==> Aligned(h.live[i]))
    && (forall i :: 0 <= i < |h.lost| ==> h.lost[i].size > 0)
    && Tiled(h)
    && Total(h.free) + Total(Extents(h.live)) + Total(h.lost) == h.size
  }

  lemma {:induction false} CountConcat(a: seq<Region>, b: seq<Region>, x: int)
    ensures Count(a + b, x) == Count(a, x) + Count(b, x)
    decreases |a|
  {
    if a == [] {
      assert a + b == b;
    } else {
      assert (a + b)[1..] == a[1..] + b;
      CountConcat(a[1..], b, x);
    }
  }

  lemma {:induction false} TotalConcat(a: seq<Region>, b: seq<Region>)
    ensures Total(a + b) == Total(a) + Total(b)
    decreases |a|
  {
    if a == [] {
      assert a + b == b;
    } else {
      assert (a + b)[1..] == a[1..] + b;
      TotalConcat(a[1..], b);
    }
  }

  lemma CountWithout(s: seq<Region>, i: nat, x: int)
    requires i < |s|
    ensures Count(s, x) == Count([s[i]], x) + Count(Without(s, i), x)
  {
    var front, back := s[..i], s[i + 1..];
    assert s == front + ([s[i]] + back);
    CountConcat(front, [s[i]] + back, x);
    CountConcat([s[i]], back, x);
    CountConcat(front, back, x);
  }

  lemma TotalWithout(s: seq<Region>, i: nat)
    requires i < |s|
    ensures Total(s) == s[i].size + Total(Without(s, i))
  {
    var front, back := s[..i], s[i + 1..];
    assert s == front + ([s[i]] + back);
    TotalConcat(front, [s[i]] + back);
    assert ([s[i]] + back)[1..] == back;
    TotalConcat(front, back);
  }

  lemma CountPieces(h: Heap, x: int)
    requires AllServable(h.live)
    ensures Count(Pieces(h), x) == Count(h.free, x) + Count(Extents(h.live), x) + Count(h.lost, x)
  {
    CountConcat(h.free + Extents(h.live), h.lost, x);
    CountConcat(h.free, Extents(h.live), x);
  }

  lemma CountSmall(r: Region, x: int)
    ensures Count(NonEmpty(r), x) == if r.Contains(x) then 1 else 0
    ensures Count([r], x) == if r.Contains(x) then 1 else 0
    ensures Total(NonEmpty(r)) == r.size && Total([r]) == r.size
  {
    assert [r][1..] == [];
  }

  lemma Pow2Of3()
    ensures Pow2(3) == NODE_ALIGN && IsPowerOfTwo(NODE_ALIGN)
  {
    assert Pow2(1) == 2 && Pow2(2) == 4;
  }

  /** The adjusted layout: its size is a multiple of 8, its alignment a power
      of two that the requested one divides. */
  lemma SizeAlignFacts(l: Layout)
    requires Servable(l)
    ensures var a := SizeAlign(l).value;
            && a.size >= NODE_SIZE && a.size >= l.size && a.size % NODE_ALIGN == 0
            && a.align % l.align == 0 && a.align % NODE_ALIGN == 0
            && IsPowerOfTwo(a.align) && a.align > 0
  {
    var a := SizeAlign(l).value;
    Pow2Of3();
    if l.align <= NODE_ALIGN {
      PowersDivide(l.align, NODE_ALIGN);
    } else {
      PowersDivide(NODE_ALIGN, l.align);
      DivModUnique(l.align, l.align, 1, 0);
    }
    RoundUpIsMultiple(l.size, a.align);
    MultipleIsTransitive(RoundUp(l.size, a.align), a.align, NODE_ALIGN);
  }

  lemma SumOfMultiples(a: nat, b: nat)
    requires a % NODE_ALIGN == 0 && b % NODE_ALIGN == 0
    ensures (a + b) % NODE_ALIGN == 0
  {
  }

  /** A chosen region splits into padding, block and rest. */
  lemma FitFacts(r: Region, size: nat, align: nat)
    requires NodeFits(r) && align > 0 && align % NODE_ALIGN == 0 && size % NODE_ALIGN == 0
    requires Fit(r, size, align).Some?
    ensures var start := Fit(r, size, align).value;
            && r.start <= start && start + size <= r.End()
            && start % align == 0
            && (start + size) % NODE_ALIGN == 0
            && (r.End() - (start + size) == 0 || r.End() - (start + size) >= NODE_SIZE)
  {
    var start := Fit(r, size, align).value;
    RoundUpIsMultiple(r.start, align);
    MultipleIsTransitive(start, align, NODE_ALIGN);
    SumOfMultiples(start, size);
  }

  lemma ExtentsCons(b: Block, live: seq<Block>)
    requires AllServable([b] + live) && AllServable(live) && Servable(b.layout)
    ensures Extents([b] + live) == [Extent(b)] + Extents(live)
  {
  }

  lemma ExtentsWithout(live: seq<Block>, i: nat)
    requires AllServable(live) && i < |live|
    ensures AllServable(Without(live, i))
    ensures Extents(Without(live, i)) == Without(Extents(live), i)
  {
  }

  /** Cutting a region into padding, block and rest covers the same addresses. */
  lemma CountAfterSplit(free: seq<Region>, i: nat, extents: seq<Region>, lost: seq<Region>,
                        pad: Region, block: Region, rest: Region, x: int)
    requires i < |free| && pad.start == free[i].start && pad.End() == block.start
    requires block.End() == rest.start && rest.End() == free[i].End()
    ensures Count(NonEmpty(rest) + Without(free, i), x) + Count([block] + extents, x) + Count(lost + NonEmpty(pad), x) ==
            Count(free, x) + Count(extents, x) + Count(lost, x)
  {
    CountWithout(free, i, x);
    CountConcat(NonEmpty(rest), Without(free, i), x);
    CountConcat([block], extents, x);
    CountConcat(lost, NonEmpty(pad), x);
    CountSmall(pad, x);
    CountSmall(rest, x);
    CountSmall(block, x);
    CountSmall(free[i], x);
  }

  lemma AllocKeepsTiling(h: Heap, l: Layout)
    requires Inv(h) && Servable(l) && Alloc(h, l).1.Some?
    ensures AllServable(Alloc(h, l).0.live) && Tiled(Alloc(h, l).0)
  {
    var Layout(size, align) := SizeAlign(l).value;
    SizeAlignFacts(l);
    var i := FirstFit(h.free, size, align);
    var r := h.free[i];
    FitFacts(r, size, align);
    var (t, p) := Alloc(h, l);
    var start := p.value;
    var pad := Region(r.start, start - r.start);
    var rest := Region(start + size, r.End() - (start + size));
    var b := Block(start, l);
    ExtentsCons(b, h.live);
    forall x ensures Count(Pieces(t), x) == Count(Pieces(h), x) {
      CountPieces(h, x);
      CountPieces(t, x);
      CountAfterSplit(h.free, i, Extents(h.live), h.lost, pad, Extent(b), rest, x);
    }
  }

  lemma AllocKeepsTotal(h: Heap, l: Layout)
    requires Inv(h) && Servable(l) && Alloc(h, l).1.Some?
    ensures AllServable(Alloc(h, l).0.live)
    ensures var t := Alloc(h, l).0;
            Total(t.free) + Total(Extents(t.live)) + Total(t.lost) == h.size
  {
    var Layout(size, align) := SizeAlign(l).value;
    SizeAlignFacts(l);
    var i := FirstFit(h.free, size, align);
    var r := h.free[i];
    FitFacts(r, size, align);
    var (t, p) := Alloc(h, l);
    var start := p.value;
    var pad := Region(r.start, start - r.start);
    var rest := Region(start + size, r.End() - (start + size));
    var b := Block(start, l);
    ExtentsCons(b, h.live);
    TotalWithout(h.free, i);
    TotalConcat(NonEmpty(rest), Without(h.free, i));
    TotalConcat([Extent(b)], Extents(h.live));
    TotalConcat(h.lost, NonEmpty(pad));
    CountSmall(pad, 0);
    CountSmall(rest, 0);
    CountSmall(Extent(b), 0);
  }

  /** The block is aligned, and the rest of the region can hold a list node. */
  lemma AllocKeepsShape(h: Heap, l: Layout)
    requires Inv(h) && Servable(l) && Alloc(h, l).1.Some?
    ensures var (t, p) := Alloc(h, l);
            && AllServable(t.live)
            && (forall i :: 0 <= i < |t.free| ==> NodeFits(t.free[i]))
            && (forall i :: 0 <= i < |t.live| ==> Aligned(t.live[i]))
            && (forall i :: 0 <= i < |t.lost| ==> t.lost[i].size > 0)
  {
    var Layout(size, align) := SizeAlign(l).value;
    SizeAlignFacts(l);
    var i := FirstFit(h.free, size, align);
    FitFacts(h.free[i], size, align);
    var t := Alloc(h, l).0;
    assert Without(h.free, i) == h.free[..i] + h.free[i + 1..];
    forall j | 0 <= j < |t.free| ensures NodeFits(t.free[j]) {
    }
  }

  lemma AllocKeepsInv(h: Heap, l: Layout)
    requires Inv(h) && Servable(l)
    ensures Inv(Alloc(h, l).0)
  {
    var (t, p) := Alloc(h, l);
    if p.Some? {
      AllocKeepsShape(h, l);
      AllocKeepsTiling(h, l);
      AllocKeepsTotal(h, l);
    }
  }

  lemma DeallocKeepsTiling(h: Heap, b: Block)
    requires Inv(h) && Servable(b.layout) && b in h.live
    ensures AllServable(Dealloc(h, b).live) && Tiled(Dealloc(h, b))
    ensures var t := Dealloc(h, b);
            Total(t.free) + Total(Extents(t.live)) + Total(t.lost) == h.size
  {
    var t := Dealloc(h, b);
    var k := IndexOf(h.live, b);
    ExtentsWithout(h.live, k);
    forall x ensures Count(Pieces(t), x) == Count(Pieces(h), x) {
      CountPieces(h, x);
      CountPieces(t, x);
      CountWithout(Extents(h.live), k, x);
      CountConcat([Extent(b)], h.free, x);
    }
    TotalWithout(Extents(h.live), k);
    TotalConcat([Extent(b)], h.free);
    CountSmall(Extent(b), 0);
  }

  lemma DeallocKeepsInv(h: Heap, b: Block)
    requires Inv(h) && Servable(b.layout) && b in h.live
    ensures Inv(Dealloc(h, b))
    ensures NodeFits(Extent(b))
  {
    DeallocKeepsTiling(h, b);
    SizeAlignFacts(b.layout);
    assert Aligned(h.live[IndexOf(h.live, b)]);
    MultipleIsTransitive(b.addr, SizeAlign(b.layout).value.align, NODE_ALIGN);
  }
}
