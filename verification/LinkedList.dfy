/** The linked-list allocator as an object.  Each free region holds the node that
    describes it: its size and the address of the next one. */
module LinkedList {
  import opened Prelude
  import opened AlignUp
  import opened Layouts
  import opened Heap
  import HeapRuns

  /** What is written at the start of a free region. */
  datatype Node = Node(size: nat, next: Option<nat>)

  // ---------------------------------------------------------------------
  // The chain of nodes

  /** From `link` on, the nodes in memory describe exactly `free`, in order. */
  predicate Chain(link: Option<nat>, memory: map<nat, Node>, free: seq<Region>)
    decreases |free|
  {
    if free == [] then link == None
    else
      && link == Some(free[0].start) && free[0].start in memory
      && memory[free[0].start].size == free[0].size
      && Chain(memory[free[0].start].next, memory, free[1..])
  }

  predicate IsStart(free: seq<Region>, addr: nat) {
    exists i :: 0 <= i < |free| && free[i].start == addr
  }

  predicate Distinct(free: seq<Region>) {
    forall i, j :: 0 <= i < j < |free| ==> free[i].start != free[j].start
  }

  /** Writing elsewhere leaves a chain alone. */
  lemma {:induction false} ChainFrame(link: Option<nat>, memory: map<nat, Node>, free: seq<Region>, addr: nat, node: Node)
    requires Chain(link, memory, free) && !IsStart(free, addr)
    ensures Chain(link, memory[addr := node], free)
    decreases |free|
  {
    if free != [] {
      assert free[0].start != addr;
      assert forall i :: 0 <= i < |free[1..]| ==> free[1..][i] == free[i + 1];
      ChainFrame(memory[free[0].start].next, memory, free[1..], addr, node);
    }
  }

  /** Making the node before the `k`-th one point past it. */
  function Relinked(memory: map<nat, Node>, free: seq<Region>, k: nat): map<nat, Node>
    requires 0 < k < |free| && free[k - 1].start in memory && free[k].start in memory
  {
    memory[free[k - 1].start := memory[free[k - 1].start].(next := memory[free[k].start].next)]
  }

  lemma {:induction false} ChainHolds(link: Option<nat>, memory: map<nat, Node>, free: seq<Region>, k: nat)
    requires Chain(link, memory, free) && k < |free|
    ensures free[k].start in memory && memory[free[k].start].size == free[k].size
    ensures Chain(memory[free[k].start].next, memory, free[k + 1..])
    decreases k
  {
    if k > 0 {
      ChainHolds(memory[free[0].start].next, memory, free[1..], k - 1);
      assert free[1..][k - 1] == free[k] && free[1..][k..] == free[k + 1..];
    }
  }

  lemma TailDistinct(free: seq<Region>)
    requires Distinct(free) && free != []
    ensures Distinct(free[1..]) && !IsStart(free[1..], free[0].start)
  {
  }

  /** The second node is unlinked through the first. */
  lemma SecondUnlinked(link: Option<nat>, memory: map<nat, Node>, free: seq<Region>)
    requires Chain(link, memory, free) && Distinct(free) && |free| > 1
    requires free[0].start in memory && free[1].start in memory
    ensures Chain(link, Relinked(memory, free, 1), Without(free, 1))
  {
    var rest := free[2..];
    assert free[1..][1..] == rest && free[1..][0] == free[1];
    assert Chain(memory[free[1].start].next, memory, rest);
    var node := memory[free[0].start].(next := memory[free[1].start].next);
    assert !IsStart(rest, free[0].start);
    ChainFrame(memory[free[1].start].next, memory, rest, free[0].start, node);
    assert Without(free, 1)[0] == free[0] && Without(free, 1)[1..] == rest;
  }

  lemma {:induction false} NodeUnlinked(link: Option<nat>, memory: map<nat, Node>, free: seq<Region>, k: nat)
    requires Chain(link, memory, free) && Distinct(free) && 0 < k < |free|
    requires free[k - 1].start in memory && free[k].start in memory
    ensures Chain(link, Relinked(memory, free, k), Without(free, k))
    decreases k
  {
    if k == 1 {
      SecondUnlinked(link, memory, free);
    } else {
      var tail := free[1..];
      TailDistinct(free);
      assert tail[k - 2] == free[k - 1] && tail[k - 1] == free[k];
      NodeUnlinked(memory[free[0].start].next, memory, tail, k - 1);
      assert Without(free, k)[0] == free[0] && Without(free, k)[1..] == Without(tail, k - 1);
    }
  }

  // ---------------------------------------------------------------------
  // What the free list of a heap is like

  /** What `add_free_region` asserts. */
  predicate MayBeFreed(addr: nat, size: nat) {
    addr < Pow2(WORD - 1) && IsPowerOfTwo(NODE_ALIGN) && Rounded(addr, NODE_ALIGN) == addr && size >= NODE_SIZE
  }

  /** Regions are not empty and do not reach the upper half of memory. */
  predicate InRange(free: seq<Region>) {
    forall i :: 0 <= i < |free| ==> free[i].size > 0 && free[i].End() <= Pow2(WORD - 1)
  }

  lemma RegionsInRange(h: Heap)
    requires Inv(h)
    ensures InRange(h.free)
  {
    forall i | 0 <= i < |h.free|
      ensures h.free[i].size > 0 && h.free[i].End() <= Pow2(WORD - 1)
    {
      assert Pieces(h)[i] == h.free[i];
      HeapRuns.PieceInHeap(h, i);
    }
  }

  lemma RegionsAreDistinct(h: Heap)
    requires Inv(h)
    ensures Distinct(h.free)
  {
    forall i, j | 0 <= i < j < |h.free|
      ensures h.free[i].start != h.free[j].start
    {
      assert Pieces(h)[i] == h.free[i] && Pieces(h)[j] == h.free[j];
      HeapRuns.PiecesDisjoint(h, i, j);
    }
  }

  /** What is left of a region behind the block cut from it. */
  function Rest(r: Region, size: nat, align: nat): Region
    requires align > 0 && Fit(r, size, align).Some?
  {
    var end := Fit(r, size, align).value + size;
    Region(end, r.End() - end)
  }

  /** The rest is empty, or can be given back as a region of its own. */
  predicate RestFreeable(free: seq<Region>, size: nat, align: nat)
    requires align > 0
  {
    var i := FirstFit(free, size, align);
    i < |free| ==>
      var rest := Rest(free[i], size, align);
      rest.size > 0 ==> MayBeFreed(rest.start, rest.size) && !IsStart(Without(free, i), rest.start)
  }

  /** An address inside one region starts no other. */
  lemma InsideStartsNoOther(h: Heap, k: nat, addr: nat)
    requires Inv(h) && k < |h.free| && h.free[k].start <= addr < h.free[k].End()
    ensures !IsStart(Without(h.free, k), addr)
  {
    forall i | 0 <= i < |Without(h.free, k)|
      ensures Without(h.free, k)[i].start != addr
    {
      var j := if i < k then i else i + 1;
      assert Without(h.free, k)[i] == h.free[j];
      assert Pieces(h)[j] == h.free[j] && Pieces(h)[k] == h.free[k];
      HeapRuns.PiecesDisjoint(h, if j < k then j else k, if j < k then k else j);
    }
  }

  lemma RestMayBeFreed(h: Heap, l: Layout)
    requires Inv(h) && Servable(l)
    ensures RestFreeable(h.free, SizeAlign(l).value.size, SizeAlign(l).value.align)
  {
    var Layout(size, align) := SizeAlign(l).value;
    SizeAlignFacts(l);
    RegionsInRange(h);
    var i := FirstFit(h.free, size, align);
    if i < |h.free| {
      FitFacts(h.free[i], size, align);
      var rest := Rest(h.free[i], size, align);
      if rest.size > 0 {
        NodeAligned(rest.start);
        InsideStartsNoOther(h, i, rest.start);
      }
    }
  }

  /** A live block starts no free region, and can be freed. */
  lemma LiveMayBeFreed(h: Heap, i: nat)
    requires Inv(h) && i < |h.live|
    ensures MayBeFreed(h.live[i].addr, Extent(h.live[i]).size) && !IsStart(h.free, h.live[i].addr)
  {
    var b := h.live[i];
    HeapRuns.LiveBlockFits(h, i);
    SizeAlignFacts(b.layout);
    DeallocKeepsInv(h, b);
    NodeAligned(b.addr);
    forall j | 0 <= j < |h.free|
      ensures h.free[j].start != b.addr
    {
      assert Pieces(h)[j] == h.free[j] && Pieces(h)[|h.free| + i] == Extent(b);
      HeapRuns.PiecesDisjoint(h, j, |h.free| + i);
    }
  }

  lemma NodeAligned(addr: nat)
    requires addr < Pow2(WORD - 1) && addr % NODE_ALIGN == 0
    ensures IsPowerOfTwo(NODE_ALIGN) && Rounded(addr, NODE_ALIGN) == addr
  {
    Pow2Of3();
  }

  lemma FirstFitUnique(free: seq<Region>, size: nat, align: nat, i: nat)
    requires align > 0 && i <= |free|
    requires forall j :: 0 <= j < i ==> Fit(free[j], size, align).None?
    requires i < |free| ==> Fit(free[i], size, align).Some?
    ensures FirstFit(free, size, align) == i
  {
    var k := FirstFit(free, size, align);
    assert k < |free| ==> Fit(free[k], size, align).Some?;
  }

  // ---------------------------------------------------------------------
  // The allocator

  class LinkedListAllocator {
    var head: Option<nat>               // `next` of the dummy node
    var memory: map<nat, Node>          // nodes written so far
    ghost var heap: Heap

    ghost predicate Valid()
      reads this
    {
      Inv(heap) && Chain(head, memory, heap.free)
    }

    /** `new` followed by `init`. */
    constructor (start: nat, size: nat)
      requires NodeFits(Region(start, size)) && start > 0 && start + size <= Pow2(WORD - 1)
      ensures Valid() && heap == HeapRuns.Initial(start, size)
    {
      HeapRuns.InitialInv(start, size);
      head := Some(start);
      memory := map[start := Node(size, None)];
      heap := HeapRuns.Initial(start, size);
    }

    /** `add_free_region`: write a node and push it on the chain.  Its two
        assertions are in the precondition, so every call is proved to meet
        them. */
    method AddFreeRegion(addr: nat, size: nat, ghost free: seq<Region>)
      requires MayBeFreed(addr, size) && Chain(head, memory, free) && !IsStart(free, addr)
      modifies this`head, this`memory
      ensures Chain(head, memory, [Region(addr, size)] + free)
    {
      ChainFrame(head, memory, free, addr, Node(size, head));
      memory := memory[addr := Node(size, head)];
      head := Some(addr);
      assert ([Region(addr, size)] + free)[1..] == free;
    }

    /** `alloc_from_region`. */
    method AllocFromRegion(region: Region, size: nat, align: nat) returns (start: Option<nat>)
      requires IsPowerOfTwo(align) && region.End() <= Pow2(WORD - 1) && region.size > 0
      ensures align > 0 && start == Fit(region, size, align)
    {
      PowerOfTwoBound(align);
      var allocStart := Rounded(region.start, align);
      if allocStart + size >= Pow2(WORD) {
        return None;
      }
      var allocEnd := allocStart + size;
      if allocEnd > region.End() {
        return None;
      }
      var excess := region.End() - allocEnd;
      if excess > 0 && excess < NODE_SIZE {
        return None;
      }
      start := Some(allocStart);
    }

    /** Take the node at `current` off the chain, through the one before it. */
    method Unlink(prev: Option<nat>, current: nat, ghost free: seq<Region>, ghost k: nat)
      requires Chain(head, memory, free) && Distinct(free) && k < |free| && current == free[k].start
      requires prev == if k == 0 then None else Some(free[k - 1].start)
      modifies this`head, this`memory
      ensures Chain(head, memory, Without(free, k))
    {
      ChainHolds(head, memory, free, k);
      if prev.None? {
        assert Without(free, 0) == free[1..];
        head := memory[current].next;
      } else {
        ChainHolds(head, memory, free, k - 1);
        NodeUnlinked(head, memory, free, k);
        memory := memory[prev.value := memory[prev.value].(next := memory[current].next)];
      }
    }

    /** `find_region`: walk the chain and unlink the first region that fits. */
    method FindRegion(size: nat, align: nat, ghost free: seq<Region>) returns (found: Option<(Region, nat)>)
      requires Chain(head, memory, free) && InRange(free) && Distinct(free) && IsPowerOfTwo(align)
      modifies this`head, this`memory
      ensures align > 0
      ensures var i := FirstFit(free, size, align);
              if i == |free| then found.None? && Chain(head, memory, free)
              else
                && found == Some((free[i], Fit(free[i], size, align).value))
                && Chain(head, memory, Without(free, i))
    {
      PowerOfTwoBound(align);
      var prev: Option<nat> := None;
      var current := head;
      ghost var k := 0;
      while current.Some?
        invariant 0 <= k <= |free| && head == old(head) && memory == old(memory)
        invariant Chain(current, memory, free[k..])
        invariant prev == if k == 0 then None else Some(free[k - 1].start)
        invariant forall j :: 0 <= j < k ==> Fit(free[j], size, align).None?
        decreases |free| - k
      {
        var region := Region(current.value, memory[current.value].size);
        assert free[k..][0] == free[k] && region == free[k];
        var start := AllocFromRegion(region, size, align);
        if start.Some? {
          FirstFitUnique(free, size, align, k);
          Unlink(prev, current.value, free, k);
          return Some((region, start.value));
        }
        prev, current := current, memory[current.value].next;
        assert free[k..][1..] == free[k + 1..];
        k := k + 1;
      }
      FirstFitUnique(free, size, align, |free|);
      found := None;
    }

    /** The body of `alloc`: unlink the first fit, give the rest back. */
    method Carve(size: nat, align: nat, ghost free: seq<Region>) returns (pointer: Option<nat>)
      requires Chain(head, memory, free) && InRange(free) && Distinct(free)
      requires IsPowerOfTwo(align) && align > 0 && RestFreeable(free, size, align)
      modifies this`head, this`memory
      ensures var i := FirstFit(free, size, align);
              if i == |free| then pointer.None? && Chain(head, memory, free)
              else
                && pointer == Fit(free[i], size, align)
                && Chain(head, memory, NonEmpty(Rest(free[i], size, align)) + Without(free, i))
    {
      var found := FindRegion(size, align, free);
      if found.None? {
        return None;
      }
      ghost var rest := Without(free, FirstFit(free, size, align));
      var (region, start) := found.value;
      var end := start + size;
      var excess := region.End() - end;
      if excess > 0 {
        AddFreeRegion(end, excess, rest);
      } else {
        assert [] + rest == rest;
      }
      pointer := Some(start);
    }

    /** `alloc`. */
    method Allocate(layout: Layout) returns (pointer: Option<nat>)
      requires Valid() && Servable(layout)
      modifies this
      ensures Valid()
      ensures (heap, pointer) == Alloc(old(heap), layout)
    {
      var Layout(size, align) := SizeAlign(layout).value;
      SizeAlignFacts(layout);
      AllocKeepsInv(heap, layout);
      RegionsInRange(heap);
      RegionsAreDistinct(heap);
      RestMayBeFreed(heap, layout);
      ghost var after := Alloc(heap, layout);
      pointer := Carve(size, align, heap.free);
      heap := after.0;
    }

    /** `dealloc`. */
    method Deallocate(pointer: nat, layout: Layout)
      requires Valid() && Servable(layout) && Block(pointer, layout) in heap.live
      modifies this
      ensures Valid()
      ensures heap == Dealloc(old(heap), Block(pointer, layout))
    {
      ghost var block := Block(pointer, layout);
      LiveMayBeFreed(heap, IndexOf(heap.live, block));
      DeallocKeepsInv(heap, block);
      AddFreeRegion(pointer, SizeAlign(layout).value.size, heap.free);
      heap := Dealloc(heap, block);
    }
  }
}
