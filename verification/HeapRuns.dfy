/** Whole runs of the linked-list allocator. */
module HeapRuns {
  import opened Prelude
  import opened AlignUp
  import opened Layouts
  import opened Heap

  datatype Action = Request(layout: Layout) | Return(block: Block)

  /** What a caller may do: ask with a layout that can be adjusted, and return a
      live block once, with its layout. */
  predicate Legal(h: Heap, a: Action) {
    match a
    case Request(layout) => Servable(layout)
    case Return(block) => Servable(block.layout) && block in h.live
  }

  function Apply(h: Heap, a: Action): Heap
    requires Legal(h, a)
  {
    match a
    case Request(layout) => Alloc(h, layout).0
    case Return(block) => Dealloc(h, block)
  }

  /** `init` on a heap where a list node can be written. */
  function Initial(start: nat, size: nat): Heap {
    Heap(start, size, [Region(start, size)], [], [])
  }

  predicate Legals(h: Heap, actions: seq<Action>)
    decreases |actions|
  {
    actions == [] || (Legal(h, actions[0]) && Legals(Apply(h, actions[0]), actions[1..]))
  }

  function Run(h: Heap, actions: seq<Action>): Heap
    requires Legals(h, actions)
    decreases |actions|
  {
    if actions == [] then h else Run(Apply(h, actions[0]), actions[1..])
  }

  lemma InitialInv(start: nat, size: nat)
    requires NodeFits(Region(start, size)) && start > 0 && start + size <= Pow2(WORD - 1)
    ensures Inv(Initial(start, size))
  {
    var h := Initial(start, size);
    assert Pieces(h) == [Region(start, size)];
    forall x ensures Count(Pieces(h), x) == if Region(h.start, h.size).Contains(x) then 1 else 0 {
      CountSmall(Region(start, size), x);
    }
    CountSmall(Region(start, size), 0);
  }

  lemma ApplyKeepsInv(h: Heap, a: Action)
    requires Inv(h) && Legal(h, a)
    ensures Inv(Apply(h, a))
  {
    match a
    case Request(layout) => AllocKeepsInv(h, layout);
    case Return(block) => DeallocKeepsInv(h, block);
  }

  lemma {:induction false} RunKeepsInv(h: Heap, actions: seq<Action>)
    requires Inv(h) && Legals(h, actions)
    ensures Inv(Run(h, actions))
    decreases |actions|
  {
    if actions != [] {
      ApplyKeepsInv(h, actions[0]);
      RunKeepsInv(Apply(h, actions[0]), actions[1..]);
    }
  }

  // ---------------------------------------------------------------------
  // Safety

  predicate Disjoint(a: Region, b: Region) {
    a.End() <= b.start || b.End() <= a.start
  }

  lemma {:induction false} CountAtLeastOne(rs: seq<Region>, i: nat, x: int)
    requires i < |rs| && rs[i].Contains(x)
    ensures Count(rs, x) >= 1
    decreases |rs|
  {
    if i > 0 {
      CountAtLeastOne(rs[1..], i - 1, x);
    }
  }

  lemma {:induction false} CountAtLeastTwo(rs: seq<Region>, i: nat, j: nat, x: int)
    requires i < j < |rs| && rs[i].Contains(x) && rs[j].Contains(x)
    ensures Count(rs, x) >= 2
    decreases |rs|
  {
    if i == 0 {
      CountAtLeastOne(rs[1..], j - 1, x);
    } else {
      CountAtLeastTwo(rs[1..], i - 1, j - 1, x);
    }
  }

  lemma PiecesDisjoint(h: Heap, i: nat, j: nat)
    requires Inv(h) && i < j < |Pieces(h)|
    ensures Disjoint(Pieces(h)[i], Pieces(h)[j])
  {
    var ps := Pieces(h);
    if !Disjoint(ps[i], ps[j]) && ps[i].size > 0 && ps[j].size > 0 {
      CountAtLeastTwo(ps, i, j, Max(ps[i].start, ps[j].start));
    }
  }

  lemma PieceInHeap(h: Heap, i: nat)
    requires Inv(h) && i < |Pieces(h)| && Pieces(h)[i].size > 0
    ensures h.start <= Pieces(h)[i].start && Pieces(h)[i].End() <= h.start + h.size
  {
    var p := Pieces(h)[i];
    CountAtLeastOne(Pieces(h), i, p.start);
    CountAtLeastOne(Pieces(h), i, p.End() - 1);
  }

  /** Every live block has its requested alignment and size, lies in the heap,
      and is disjoint from every other live block and every free region. */
  ghost predicate Safe(h: Heap)
    requires AllServable(h.live)
  {
    && (forall i :: 0 <= i < |h.live| ==>
          && h.live[i].layout.align > 0 && h.live[i].addr % h.live[i].layout.align == 0
          && h.live[i].layout.size <= Extent(h.live[i]).size
          && h.start <= h.live[i].addr && Extent(h.live[i]).End() <= h.start + h.size)
    && (forall i, j :: 0 <= i < j < |h.live| ==> Disjoint(Extent(h.live[i]), Extent(h.live[j])))
    && (forall i, j :: 0 <= i < |h.free| && 0 <= j < |h.live| ==> Disjoint(h.free[i], Extent(h.live[j])))
    && (forall i, j :: 0 <= i < j < |h.free| ==> Disjoint(h.free[i], h.free[j]))
    && (forall i :: 0 <= i < |h.free| ==>
          h.free[i].start % NODE_ALIGN == 0 && h.free[i].size >= NODE_SIZE)
  }

  lemma LiveBlockFits(h: Heap, i: nat)
    requires Inv(h) && i < |h.live|
    ensures h.live[i].layout.align > 0 && h.live[i].addr % h.live[i].layout.align == 0
    ensures h.live[i].layout.size <= Extent(h.live[i]).size
    ensures h.start <= h.live[i].addr && Extent(h.live[i]).End() <= h.start + h.size
  {
    var b := h.live[i];
    SizeAlignFacts(b.layout);
    assert Aligned(b);
    MultipleIsTransitive(b.addr, SizeAlign(b.layout).value.align, b.layout.align);
    assert Pieces(h)[|h.free| + i] == Extent(b);
    PieceInHeap(h, |h.free| + i);
  }

  lemma InvIsSafe(h: Heap)
    requires Inv(h)
    ensures Safe(h)
  {
    var n := |h.free|;
    forall i | 0 <= i < |h.live|
      ensures h.live[i].layout.align > 0 && h.live[i].addr % h.live[i].layout.align == 0
      ensures h.live[i].layout.size <= Extent(h.live[i]).size
      ensures h.start <= h.live[i].addr && Extent(h.live[i]).End() <= h.start + h.size
    {
      LiveBlockFits(h, i);
    }
    forall i, j | 0 <= i < j < |h.live| ensures Disjoint(Extent(h.live[i]), Extent(h.live[j])) {
      PiecesDisjoint(h, n + i, n + j);
    }
    forall i, j | 0 <= i < |h.free| && 0 <= j < |h.live| ensures Disjoint(h.free[i], Extent(h.live[j])) {
      PiecesDisjoint(h, i, n + j);
    }
    forall i, j | 0 <= i < j < |h.free| ensures Disjoint(h.free[i], h.free[j]) {
      PiecesDisjoint(h, i, j);
    }
  }

  /** Safety and conservation over every run from `init`. */
  lemma EveryRunIsSafe(start: nat, size: nat, actions: seq<Action>)
    requires NodeFits(Region(start, size)) && start > 0 && start + size <= Pow2(WORD - 1)
    requires Legals(Initial(start, size), actions)
    ensures var h := Run(Initial(start, size), actions);
            && AllServable(h.live)
            && Safe(h)
            && Total(h.free) + Total(Extents(h.live)) + Total(h.lost) == size
  {
    InitialInv(start, size);
    RunKeepsInv(Initial(start, size), actions);
    InvIsSafe(Run(Initial(start, size), actions));
    RunKeepsBounds(Initial(start, size), actions);
  }

  lemma {:induction false} RunKeepsBounds(h: Heap, actions: seq<Action>)
    requires Legals(h, actions)
    ensures Run(h, actions).start == h.start && Run(h, actions).size == h.size
    decreases |actions|
  {
    if actions != [] {
      RunKeepsBounds(Apply(h, actions[0]), actions[1..]);
    }
  }

  /** A returned pointer is never null, is fresh, and its block was wholly free. */
  lemma AllocatedBlockWasFree(h: Heap, l: Layout)
    requires Inv(h) && Servable(l) && Alloc(h, l).1.Some?
    ensures var p := Alloc(h, l).1.value;
            && p > 0 && p % l.align == 0
            && Alloc(h, l).0.live == [Block(p, l)] + h.live
            && exists i :: 0 <= i < |h.free| && h.free[i].start <= p && p + l.size <= h.free[i].End()
  {
    AllocKeepsInv(h, l);
    var t := Alloc(h, l).0;
    LiveBlockFits(t, 0);
    var Layout(size, align) := SizeAlign(l).value;
    SizeAlignFacts(l);
    var i := FirstFit(h.free, size, align);
    FitFacts(h.free[i], size, align);
  }

  // ---------------------------------------------------------------------
  // Padding

  lemma {:induction false} LostNeverShrinks(h: Heap, actions: seq<Action>)
    requires Legals(h, actions)
    ensures h.lost <= Run(h, actions).lost
    decreases |actions|
  {
    if actions != [] {
      LostNeverShrinks(Apply(h, actions[0]), actions[1..]);
    }
  }

  /** Regions are 8-aligned, so no padding is lost for alignments up to 8. */
  lemma SmallAlignmentLosesNothing(h: Heap, l: Layout)
    requires Inv(h) && Servable(l) && l.align <= NODE_ALIGN
    ensures Alloc(h, l).0.lost == h.lost
  {
  }

  lemma {:induction false} NothingLostWithSmallAlignments(h: Heap, actions: seq<Action>)
    requires Inv(h) && Legals(h, actions)
    requires forall i :: 0 <= i < |actions| && actions[i].Request? ==> actions[i].layout.align <= NODE_ALIGN
    ensures Run(h, actions).lost == h.lost
    decreases |actions|
  {
    if actions != [] {
      ApplyKeepsInv(h, actions[0]);
      if actions[0].Request? {
        SmallAlignmentLosesNothing(h, actions[0].layout);
      }
      NothingLostWithSmallAlignments(Apply(h, actions[0]), actions[1..]);
    }
  }

  // ---------------------------------------------------------------------
  // Nothing is ever coalesced

  predicate Within(a: Region, b: Region) {
    b.start <= a.start && a.End() <= b.End()
  }

  predicate Covered(r: Region, rs: seq<Region>) {
    exists j :: 0 <= j < |rs| && Within(r, rs[j])
  }

  /** Each region of `ts` lies in a region of `rs`. */
  predicate Splits(ts: seq<Region>, rs: seq<Region>) {
    forall i :: 0 <= i < |ts| ==> Covered(ts[i], rs)
  }

  lemma MemberIsCovered(r: Region, rs: seq<Region>)
    requires r in rs
    ensures Covered(r, rs)
  {
    var j :| 0 <= j < |rs| && rs[j] == r;
    assert Within(r, rs[j]);
  }

  lemma SplitsReflexive(rs: seq<Region>)
    ensures Splits(rs, rs)
  {
    forall i | 0 <= i < |rs| ensures Covered(rs[i], rs) {
      MemberIsCovered(rs[i], rs);
    }
  }

  lemma SplitsTransitive(ts: seq<Region>, ms: seq<Region>, rs: seq<Region>)
    requires Splits(ts, ms) && Splits(ms, rs)
    ensures Splits(ts, rs)
  {
    forall i | 0 <= i < |ts| ensures Covered(ts[i], rs) {
      assert Covered(ts[i], ms);
      var j :| 0 <= j < |ms| && Within(ts[i], ms[j]);
      assert Covered(ms[j], rs);
      var k :| 0 <= k < |rs| && Within(ms[j], rs[k]);
      assert Within(ts[i], rs[k]);
    }
  }

  lemma AllocSplits(h: Heap, l: Layout)
    requires Inv(h) && Servable(l) && AllServable(Alloc(h, l).0.live)
    ensures Splits(Pieces(Alloc(h, l).0), Pieces(h))
  {
    if Alloc(h, l).1.None? {
      SplitsReflexive(Pieces(h));
    } else {
      var t := Alloc(h, l).0;
      forall i | 0 <= i < |Pieces(t)| ensures Covered(Pieces(t)[i], Pieces(h)) {
        AllocPieceOrigin(h, l, i);
      }
    }
  }

  /** A piece after cutting a region is one of the cuts, or was there before. */
  lemma CutPieces(free: seq<Region>, k: nat, extents: seq<Region>, lost: seq<Region>,
                  pad: Region, block: Region, rest: Region, p: Region)
    requires k < |free|
    requires p in NonEmpty(rest) + Without(free, k) + ([block] + extents) + (lost + NonEmpty(pad))
    ensures p == rest || p == block || p == pad || p in free + extents + lost
  {
    assert p in Without(free, k) ==> p in free;
  }

  /** A piece after `alloc` is part of the chosen region, or was there before. */
  lemma AllocPieceOrigin(h: Heap, l: Layout, i: nat)
    requires Inv(h) && Servable(l) && Alloc(h, l).1.Some?
    requires AllServable(Alloc(h, l).0.live) && i < |Pieces(Alloc(h, l).0)|
    ensures Covered(Pieces(Alloc(h, l).0)[i], Pieces(h))
  {
    var Layout(size, align) := SizeAlign(l).value;
    SizeAlignFacts(l);
    var k := FirstFit(h.free, size, align);
    var r := h.free[k];
    FitFacts(r, size, align);
    var t := Alloc(h, l).0;
    var b := t.live[0];
    ExtentsCons(b, h.live);
    var p := Pieces(t)[i];
    var pad, rest := Region(r.start, b.addr - r.start), Region(b.addr + size, r.End() - (b.addr + size));
    CutPieces(h.free, k, Extents(h.live), h.lost, pad, Extent(b), rest, p);
    if p in Pieces(h) {
      MemberIsCovered(p, Pieces(h));
    } else {
      assert Within(p, r) && Pieces(h)[k] == r;
    }
  }

  lemma DeallocSplits(h: Heap, b: Block)
    requires Inv(h) && Servable(b.layout) && b in h.live && AllServable(Dealloc(h, b).live)
    ensures Splits(Pieces(Dealloc(h, b)), Pieces(h))
  {
    var t := Dealloc(h, b);
    var k := IndexOf(h.live, b);
    ExtentsWithout(h.live, k);
    forall i | 0 <= i < |Pieces(t)| ensures Covered(Pieces(t)[i], Pieces(h)) {
      MovedToFront(h.free, Extents(h.live), h.lost, k, i);
      MemberIsCovered(Pieces(t)[i], Pieces(h));
    }
  }

  /** Moving one region to the front of the list keeps the pieces. */
  lemma MovedToFront(free: seq<Region>, extents: seq<Region>, lost: seq<Region>, k: nat, i: nat)
    requires k < |extents| && i < |[extents[k]] + free + Without(extents, k) + lost|
    ensures ([extents[k]] + free + Without(extents, k) + lost)[i] in free + extents + lost
  {
    var all, f := free + extents + lost, |free|;
    var j := if i == 0 then f + k else if i <= f + k then i - 1 else i;
    assert all[j] == ([extents[k]] + free + Without(extents, k) + lost)[i];
  }

  lemma ApplySplits(h: Heap, a: Action)
    requires Inv(h) && Legal(h, a)
    ensures Inv(Apply(h, a)) && Splits(Pieces(Apply(h, a)), Pieces(h))
  {
    ApplyKeepsInv(h, a);
    match a
    case Request(layout) => AllocSplits(h, layout);
    case Return(block) => DeallocSplits(h, block);
  }

  lemma {:induction false} RunSplits(h: Heap, actions: seq<Action>)
    requires Inv(h) && Legals(h, actions)
    ensures Inv(Run(h, actions)) && Splits(Pieces(Run(h, actions)), Pieces(h))
    decreases |actions|
  {
    if actions == [] {
      SplitsReflexive(Pieces(h));
    } else {
      var m := Apply(h, actions[0]);
      ApplySplits(h, actions[0]);
      RunSplits(m, actions[1..]);
      SplitsTransitive(Pieces(Run(m, actions[1..])), Pieces(m), Pieces(h));
    }
  }

  /** Consequence of never coalescing: once every piece is smaller than a
      request, that request fails for ever, whatever is freed. */
  lemma FragmentationIsPermanent(h: Heap, actions: seq<Action>, l: Layout)
    requires Inv(h) && Legals(h, actions) && Servable(l)
    requires forall i :: 0 <= i < |Pieces(h)| ==> Pieces(h)[i].size < SizeAlign(l).value.size
    ensures Alloc(Run(h, actions), l).1 == None
  {
    RunSplits(h, actions);
    var t := Run(h, actions);
    var Layout(size, align) := SizeAlign(l).value;
    SizeAlignFacts(l);
    var k := FirstFit(t.free, size, align);
    if k < |t.free| {
      assert Pieces(t)[k] == t.free[k];
      assert Covered(Pieces(t)[k], Pieces(h));
      var j :| 0 <= j < |Pieces(h)| && Within(Pieces(t)[k], Pieces(h)[j]);
      FitFacts(t.free[k], size, align);
    }
  }

  predicate IsBoundary(rs: seq<Region>, x: int) {
    exists i :: 0 <= i < |rs| && (rs[i].start == x || rs[i].End() == x)
  }

  lemma {:induction false} FindContaining(rs: seq<Region>, y: int) returns (k: nat)
    requires Count(rs, y) >= 1
    ensures k < |rs| && rs[k].Contains(y)
    decreases |rs|
  {
    if rs[0].Contains(y) {
      k := 0;
    } else {
      k := FindContaining(rs[1..], y);
      k := k + 1;
    }
  }

  /** Splitting a tiling keeps its boundaries: the address just inside one
      lies in a single piece before and after. */
  lemma SplitKeepsBoundary(ts: seq<Region>, rs: seq<Region>, i: nat, x: int)
    requires Splits(ts, rs)
    requires forall y :: Count(ts, y) == Count(rs, y) <= 1
    requires i < |rs| && rs[i].size > 0 && (rs[i].start == x || rs[i].End() == x)
    ensures IsBoundary(ts, x)
  {
    var y := if rs[i].start == x then x else x - 1;
    CountAtLeastOne(rs, i, y);
    var k := FindContaining(ts, y);
    assert Covered(ts[k], rs);
    var j :| 0 <= j < |rs| && Within(ts[k], rs[j]);
    if j < i {
      CountAtLeastTwo(rs, j, i, y);
    } else if i < j {
      CountAtLeastTwo(rs, i, j, y);
    }
  }

  lemma PieceIsNonEmpty(h: Heap, i: nat)
    requires Inv(h) && i < |Pieces(h)|
    ensures Pieces(h)[i].size > 0
  {
    var f, n := |h.free|, |h.live|;
    if i < f {
      assert NodeFits(h.free[i]);
    } else if i < f + n {
      SizeAlignFacts(h.live[i - f].layout);
    } else {
      assert Pieces(h)[i] == h.lost[i - f - n];
    }
  }

  /** Block boundaries never disappear. */
  lemma BoundariesRemain(h: Heap, actions: seq<Action>, x: int)
    requires Inv(h) && Legals(h, actions) && IsBoundary(Pieces(h), x)
    ensures Inv(Run(h, actions)) && IsBoundary(Pieces(Run(h, actions)), x)
  {
    RunSplits(h, actions);
    RunKeepsBounds(h, actions);
    var i :| 0 <= i < |Pieces(h)| && (Pieces(h)[i].start == x || Pieces(h)[i].End() == x);
    PieceIsNonEmpty(h, i);
    SplitKeepsBoundary(Pieces(Run(h, actions)), Pieces(h), i, x);
  }

  // ---------------------------------------------------------------------
  // When `alloc` succeeds, and where

  /** A block of this size and alignment can be cut from `r` at `a`: the first
      aligned address, with nothing left behind it or enough for a node. */
  ghost predicate Serves(r: Region, size: nat, align: nat, a: nat)
    requires align > 0
  {
    && IsLeastMultiple(a, r.start, align) && a + size <= r.End()
    && (r.End() - (a + size) == 0 || r.End() - (a + size) >= 16)
  }

  lemma FitServes(r: Region, size: nat, align: nat, a: nat)
    requires align > 0
    ensures Fit(r, size, align) == Some(a) <==> Serves(r, size, align, a)
  {
    RoundUpIsLeast(r.start, align);
  }

  /** The layout is adjusted to an alignment of at least 8 and a size that is a
      multiple of it, and at least 16. */
  lemma AdjustedExactly(l: Layout) returns (padded: nat)
    requires Servable(l)
    ensures var a := SizeAlign(l).value;
            && a.align > 0 && a.align == Max(l.align, 8)
            && IsLeastMultiple(padded, l.size, a.align) && a.size == Max(padded, 16)
  {
    SizeAlignFacts(l);
    padded := RoundUp(l.size, SizeAlign(l).value.align);
    RoundUpIsLeast(l.size, SizeAlign(l).value.align);
  }

  lemma FirstFitServes(free: seq<Region>, size: nat, align: nat)
    requires align > 0
    ensures var i := FirstFit(free, size, align);
            && (i < |free| ==> Serves(free[i], size, align, Fit(free[i], size, align).value))
            && forall j, a: nat :: 0 <= j < i ==> !Serves(free[j], size, align, a)
  {
    var i := FirstFit(free, size, align);
    if i < |free| {
      FitServes(free[i], size, align, Fit(free[i], size, align).value);
    }
    forall j, a: nat | 0 <= j < i
      ensures !Serves(free[j], size, align, a)
    {
      FitServes(free[j], size, align, a);
    }
  }

  /** No region before the `i`-th can serve. */
  ghost predicate NoneBefore(free: seq<Region>, size: nat, align: nat, i: nat)
    requires align > 0 && i <= |free|
  {
    forall j, a: nat :: 0 <= j < i ==> !Serves(free[j], size, align, a)
  }

  /** The first region that can serve, and where. */
  ghost predicate FirstServes(free: seq<Region>, size: nat, align: nat, i: nat, a: nat)
    requires align > 0
  {
    i < |free| && Serves(free[i], size, align, a) && NoneBefore(free, size, align, i)
  }

  lemma FirstServesIsFirstFit(free: seq<Region>, size: nat, align: nat, i: nat, a: nat)
    requires align > 0 && FirstServes(free, size, align, i, a)
    ensures FirstFit(free, size, align) == i && Fit(free[i], size, align) == Some(a)
  {
    FitServes(free[i], size, align, a);
    var k := FirstFit(free, size, align);
    if k < i {
      FitServes(free[k], size, align, Fit(free[k], size, align).value);
    }
  }

  lemma FirstFitIsFirstServes(free: seq<Region>, size: nat, align: nat)
    requires align > 0
    ensures var i := FirstFit(free, size, align);
            if i < |free| then FirstServes(free, size, align, i, Fit(free[i], size, align).value)
            else NoneBefore(free, size, align, |free|)
  {
    FirstFitServes(free, size, align);
  }

  /** `alloc` gives a pointer exactly when some free region can serve the
      adjusted layout; the pointer is the first aligned address of the first
      such region. */
  lemma AllocSucceedsExactly(h: Heap, l: Layout, p: nat)
    requires Servable(l) && SizeAlign(l).value.align > 0
    ensures var Layout(size, align) := SizeAlign(l).value;
            && (Alloc(h, l).1 == None <==> NoneBefore(h.free, size, align, |h.free|))
            && (Alloc(h, l).1 == Some(p) <==> exists i: nat :: FirstServes(h.free, size, align, i, p))
  {
    var Layout(size, align) := SizeAlign(l).value;
    var k := FirstFit(h.free, size, align);
    FirstFitIsFirstServes(h.free, size, align);
    forall i: nat | FirstServes(h.free, size, align, i, p)
      ensures i == k && Alloc(h, l).1 == Some(p)
    {
      FirstServesIsFirstFit(h.free, size, align, i, p);
    }
  }

  /** What is left of that region becomes the first of the list; the others stay
      in order. */
  lemma RestGoesFirst(h: Heap, l: Layout, i: nat, p: nat)
    requires Servable(l) && SizeAlign(l).value.align > 0
    requires FirstServes(h.free, SizeAlign(l).value.size, SizeAlign(l).value.align, i, p)
    ensures var end := p + SizeAlign(l).value.size;
            Alloc(h, l).0.free ==
              (if end == h.free[i].End() then [] else [Region(end, h.free[i].End() - end)]) + (h.free[..i] + h.free[i + 1..])
  {
    FirstServesIsFirstFit(h.free, SizeAlign(l).value.size, SizeAlign(l).value.align, i, p);
  }

  /** A block given back is the first to be handed out again. */
  lemma FreedBlockIsReused(h: Heap, b: Block)
    requires Inv(h) && b in h.live && Servable(b.layout)
    ensures Alloc(Dealloc(h, b), b.layout).1 == Some(b.addr)
  {
    var i := IndexOf(h.live, b);
    SizeAlignFacts(b.layout);
    assert Aligned(h.live[i]);
    var Layout(size, align) := SizeAlign(b.layout).value;
    var t := Dealloc(h, b);
    assert t.free[0] == Region(b.addr, size);
    assert RoundUp(b.addr, align) == b.addr;
  }
}
