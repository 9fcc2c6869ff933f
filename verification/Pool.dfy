/** The fixed-size block allocator over an external fallback heap.

    The fallback's answer is an input of each request.  It is assumed to keep
    its contract: a non-null block is aligned and disjoint from every block
    that it has handed out and not taken back. */
module Pool {
  import opened Prelude
  import opened AlignUp
  import opened Layouts

  const BLOCK_SIZES: seq<nat> := [8, 16, 32, 64, 128, 256, 512, 1024, 2048]
  const CLASSES := 9

  /** What `GlobalAlloc` demands of a layout. */
  predicate Usable(l: Layout) {
    ValidLayout(l) && l.size > 0
  }

  /** `list_index`; `CLASSES` stands for None. */
  function ListIndex(l: Layout): (i: nat)
    ensures i <= CLASSES
    ensures i < CLASSES ==> Max(l.size, l.align) <= BLOCK_SIZES[i]
    ensures forall j :: 0 <= j < i ==> BLOCK_SIZES[j] < Max(l.size, l.align)
  {
    FirstAtLeast(BLOCK_SIZES, Max(l.size, l.align))
  }

  function FirstAtLeast(sizes: seq<nat>, required: nat): (i: nat)
    ensures i <= |sizes|
    ensures i < |sizes| ==> required <= sizes[i]
    ensures forall j :: 0 <= j < i ==> sizes[j] < required
  {
    if sizes == [] || sizes[0] >= required then 0 else 1 + FirstAtLeast(sizes[1..], required)
  }

  function ClassLayout(i: nat): Layout
    requires i < CLASSES
  {
    Layout(BLOCK_SIZES[i], BLOCK_SIZES[i])
  }

  /** The layout asked of the fallback on behalf of a request. */
  function Backing(l: Layout): Layout {
    var i := ListIndex(l);
    if i < CLASSES then ClassLayout(i) else l
  }

  /** A live block: the requested layout and that of the block behind it. */
  datatype Entry = Entry(addr: nat, layout: Layout, backing: Layout)

  datatype Pool = Pool(
    lists: seq<seq<nat>>,               // cached blocks of each class
    live: seq<Entry>,
    requested: nat,                     // `REQUESTED_BYTES`
    outstanding: multiset<Block>        // blocks the fallback has handed out
  )

  function NoLists(): (lists: seq<seq<nat>>)
    ensures |lists| == CLASSES && forall i :: 0 <= i < CLASSES ==> lists[i] == []
  {
    seq(CLASSES, _ => [])
  }

  const EMPTY := Pool(NoLists(), [], 0, multiset{})

  /** The cached blocks of one class. */
  function ClassBlocks(addrs: seq<nat>, l: Layout): multiset<Block> {
    if addrs == [] then multiset{} else multiset{Block(addrs[0], l)} + ClassBlocks(addrs[1..], l)
  }

  function Cached(lists: seq<seq<nat>>, sizes: seq<nat>): multiset<Block>
    requires |lists| == |sizes|
    decreases |lists|
  {
    if lists == [] then multiset{}
    else ClassBlocks(lists[0], Layout(sizes[0], sizes[0])) + Cached(lists[1..], sizes[1..])
  }

  /** The blocks standing behind the live ones. */
  function Backings(live: seq<Entry>): multiset<Block> {
    if live == [] then multiset{}
    else multiset{Block(live[0].addr, live[0].backing)} + Backings(live[1..])
  }

  /** Everything obtained from the fallback: cached and live blocks. */
  function Held(p: Pool): multiset<Block>
    requires |p.lists| == CLASSES
  {
    Cached(p.lists, BLOCK_SIZES) + Backings(p.live)
  }

  predicate Apart(a: Block, b: Block) {
    a.addr + a.layout.size <= b.addr || b.addr + b.layout.size <= a.addr
  }

  /** No block twice, and distinct blocks do not overlap. */
  ghost predicate Separate(m: multiset<Block>) {
    && (forall b :: b in m ==> m[b] == 1)
    && (forall b, c :: b in m && c in m && b != c ==> Apart(b, c))
  }

  function SumSizes(live: seq<Entry>): nat {
    if live == [] then 0 else live[0].layout.size + SumSizes(live[1..])
  }

  /** The fallback's contract for one request. */
  ghost predicate FallbackOk(outstanding: multiset<Block>, l: Layout, answer: Option<nat>) {
    answer.Some? ==>
      && answer.value > 0
      && l.align > 0 && answer.value % l.align == 0
      && forall b :: b in outstanding ==> Apart(Block(answer.value, l), b)
  }

  function Take(p: Pool, e: Entry): Pool {
    p.(live := [e] + p.live, requested := p.requested + e.layout.size)
  }

  /** `alloc`. */
  function Alloc(p: Pool, l: Layout, answer: Option<nat>): (Pool, Option<nat>)
    requires |p.lists| == CLASSES
  {
    var i := ListIndex(l);
    if i < CLASSES && p.lists[i] != [] then
      var addr := p.lists[i][0];
      (Take(p.(lists := p.lists[i := p.lists[i][1..]]), Entry(addr, l, ClassLayout(i))), Some(addr))
    else if answer.Some? then
      var e := Entry(answer.value, l, Backing(l));
      (Take(p.(outstanding := p.outstanding + multiset{Block(e.addr, e.backing)}), e), answer)
    else
      (p, None)
  }

  function Position(live: seq<Entry>, e: Entry): (i: nat)
    requires e in live
    ensures i < |live| && live[i] == e
  {
    if live[0] == e then 0 else 1 + Position(live[1..], e)
  }

  /** `dealloc`. */
  function Dealloc(p: Pool, e: Entry): Pool
    requires |p.lists| == CLASSES && e in p.live && e.layout.size <= p.requested
  {
    var q := p.(live := Without(p.live, Position(p.live, e)), requested := p.requested - e.layout.size);
    var i := ListIndex(e.layout);
    if i < CLASSES then q.(lists := p.lists[i := [e.addr] + p.lists[i]])
    else q.(outstanding := p.outstanding - multiset{Block(e.addr, e.layout)})
  }

  // ---------------------------------------------------------------------
  // Invariant

  predicate BlockOk(b: Block) {
    b.addr > 0 && b.layout.size > 0 && b.layout.align > 0 && b.addr % b.layout.align == 0
  }

  predicate EntryOk(e: Entry) {
    Usable(e.layout) && e.backing == Backing(e.layout)
  }

  ghost predicate Inv(p: Pool) {
    && |p.lists| == CLASSES
    && (forall i :: 0 <= i < |p.live| ==> EntryOk(p.live[i]))
    && p.requested == SumSizes(p.live)
    && Held(p) == p.outstanding
    && (forall b :: b in p.outstanding ==> BlockOk(b))
    && Separate(p.outstanding)
  }

  lemma {:induction false} CachedAfterPush(lists: seq<seq<nat>>, sizes: seq<nat>, k: nat, addr: nat)
    requires |lists| == |sizes| && k < |lists|
    ensures Cached(lists[k := [addr] + lists[k]], sizes) ==
            Cached(lists, sizes) + multiset{Block(addr, Layout(sizes[k], sizes[k]))}
    decreases |lists|
  {
    var pushed := lists[k := [addr] + lists[k]];
    if k == 0 {
      assert ([addr] + lists[0])[1..] == lists[0];
      assert pushed[1..] == lists[1..];
    } else {
      CachedAfterPush(lists[1..], sizes[1..], k - 1, addr);
      assert pushed[1..] == lists[1..][k - 1 := [addr] + lists[1..][k - 1]];
    }
  }

  lemma LiveCons(e: Entry, live: seq<Entry>)
    ensures Backings([e] + live) == multiset{Block(e.addr, e.backing)} + Backings(live)
    ensures SumSizes([e] + live) == e.layout.size + SumSizes(live)
  {
    assert ([e] + live)[1..] == live;
  }

  lemma WithoutTail(live: seq<Entry>, k: nat)
    requires 0 < k < |live|
    ensures Without(live, k) == [live[0]] + Without(live[1..], k - 1)
  {
  }

  lemma {:induction false} BackingsWithout(live: seq<Entry>, k: nat)
    requires k < |live|
    ensures Backings(live) == Backings(Without(live, k)) + multiset{Block(live[k].addr, live[k].backing)}
    decreases |live|
  {
    if k == 0 {
      assert Without(live, 0) == live[1..];
    } else {
      BackingsWithout(live[1..], k - 1);
      WithoutTail(live, k);
      LiveCons(live[0], Without(live[1..], k - 1));
    }
  }

  lemma {:induction false} SumWithout(live: seq<Entry>, k: nat)
    requires k < |live|
    ensures SumSizes(live) == SumSizes(Without(live, k)) + live[k].layout.size
    decreases |live|
  {
    if k == 0 {
      assert Without(live, 0) == live[1..];
    } else {
      SumWithout(live[1..], k - 1);
      WithoutTail(live, k);
      LiveCons(live[0], Without(live[1..], k - 1));
    }
  }

  /** The block sizes are powers of two. */
  lemma ClassIsPowerOfTwo(i: nat)
    requires i < CLASSES
    ensures IsPowerOfTwo(BLOCK_SIZES[i])
  {
    assert Pow2(0) == 1 && Pow2(1) == 2 && Pow2(2) == 4;
    assert Pow2(3) == 8 && Pow2(4) == 16 && Pow2(5) == 32;
    assert Pow2(6) == 64 && Pow2(7) == 128 && Pow2(8) == 256;
    assert Pow2(9) == 512 && Pow2(10) == 1024 && Pow2(11) == 2048;
    assert BLOCK_SIZES[i] == Pow2(i + 3);
  }

  /** A backing block is large enough and at least as aligned as requested. */
  lemma BackingSuffices(l: Layout)
    requires Usable(l)
    ensures l.align > 0 && l.size <= Backing(l).size && Backing(l).size > 0
    ensures Backing(l).align > 0 && Backing(l).align % l.align == 0
  {
    PowerOfTwoBound(l.align);
    var i := ListIndex(l);
    if i < CLASSES {
      ClassIsPowerOfTwo(i);
      PowersDivide(l.align, BLOCK_SIZES[i]);
    } else {
      DivModUnique(l.align, l.align, 1, 0);
    }
  }

  /** Popping a cached block for a request moves it from one side to the other. */
  lemma HeldAfterPop(lists: seq<seq<nat>>, live: seq<Entry>, l: Layout, i: nat)
    requires |lists| == CLASSES && i < CLASSES && lists[i] != []
    ensures Cached(lists[i := lists[i][1..]], BLOCK_SIZES)
              + Backings([Entry(lists[i][0], l, ClassLayout(i))] + live) ==
            Cached(lists, BLOCK_SIZES) + Backings(live)
  {
    var addr, rest := lists[i][0], lists[i][1..];
    var popped := lists[i := rest];
    assert [addr] + rest == lists[i];
    assert popped[i := [addr] + popped[i]] == lists;
    CachedAfterPush(popped, BLOCK_SIZES, i, addr);
    LiveCons(Entry(addr, l, ClassLayout(i)), live);
  }

  lemma AllocFromCacheKeepsInv(p: Pool, l: Layout, i: nat)
    requires Inv(p) && Usable(l) && i == ListIndex(l) && i < CLASSES && p.lists[i] != []
    ensures Inv(Take(p.(lists := p.lists[i := p.lists[i][1..]]), Entry(p.lists[i][0], l, ClassLayout(i))))
  {
    var e := Entry(p.lists[i][0], l, ClassLayout(i));
    LiveCons(e, p.live);
    EntriesCons(e, p.live);
    PopMovesBlock(p, l, i);
  }

  /** Cached and live blocks together stay the same. */
  lemma PopMovesBlock(p: Pool, l: Layout, i: nat)
    requires |p.lists| == CLASSES && i < CLASSES && p.lists[i] != []
    ensures Held(Take(p.(lists := p.lists[i := p.lists[i][1..]]), Entry(p.lists[i][0], l, ClassLayout(i)))) == Held(p)
  {
    HeldAfterPop(p.lists, p.live, l, i);
  }

  lemma EntriesCons(e: Entry, live: seq<Entry>)
    requires EntryOk(e) && forall i :: 0 <= i < |live| ==> EntryOk(live[i])
    ensures forall i :: 0 <= i < |[e] + live| ==> EntryOk(([e] + live)[i])
  {
  }

  lemma AllocFromFallbackKeepsInv(p: Pool, e: Entry)
    requires Inv(p) && EntryOk(e) && FallbackOk(p.outstanding, e.backing, Some(e.addr))
    ensures Inv(Take(p.(outstanding := p.outstanding + multiset{Block(e.addr, e.backing)}), e))
  {
    BackingSuffices(e.layout);
    LiveCons(e, p.live);
  }

  lemma AllocKeepsInv(p: Pool, l: Layout, answer: Option<nat>)
    requires Inv(p) && Usable(l) && FallbackOk(p.outstanding, Backing(l), answer)
    ensures Inv(Alloc(p, l, answer).0)
  {
    var i := ListIndex(l);
    if i < CLASSES && p.lists[i] != [] {
      AllocFromCacheKeepsInv(p, l, i);
    } else if answer.Some? {
      AllocFromFallbackKeepsInv(p, Entry(answer.value, l, Backing(l)));
    }
  }

  /** The counter covers the block, and a large block goes back to the
      fallback exactly as it was obtained. */
  lemma DeallocIsCovered(p: Pool, e: Entry)
    requires Inv(p) && e in p.live
    ensures e.layout.size <= p.requested
    ensures Block(e.addr, e.backing) in p.outstanding
    ensures ListIndex(e.layout) == CLASSES ==> Block(e.addr, e.layout) in p.outstanding
  {
    BackingsWithout(p.live, Position(p.live, e));
    SumWithout(p.live, Position(p.live, e));
    assert EntryOk(p.live[Position(p.live, e)]);
  }

  lemma HeldAfterDealloc(p: Pool, e: Entry)
    requires |p.lists| == CLASSES && e in p.live && e.layout.size <= p.requested
    requires Held(p) == p.outstanding && e.backing == Backing(e.layout)
    ensures Held(Dealloc(p, e)) == Dealloc(p, e).outstanding <= p.outstanding
  {
    var block := multiset{Block(e.addr, e.backing)};
    var cached, rest := Cached(p.lists, BLOCK_SIZES), Backings(Without(p.live, Position(p.live, e)));
    BackingsWithout(p.live, Position(p.live, e));
    assert p.outstanding == cached + (rest + block);
    var i := ListIndex(e.layout);
    if i < CLASSES {
      CachedAfterPush(p.lists, BLOCK_SIZES, i, e.addr);
      assert (cached + block) + rest == cached + (rest + block);
    } else {
      assert cached + (rest + block) - block == cached + rest;
    }
  }

  lemma SmallerIsSeparate(m: multiset<Block>, n: multiset<Block>)
    requires n <= m && Separate(m) && forall b :: b in m ==> BlockOk(b)
    ensures Separate(n) && forall b :: b in n ==> BlockOk(b)
  {
    forall b | b in n ensures b in m && n[b] == 1 {
      assert n[b] <= m[b];
    }
  }

  lemma DeallocKeepsInv(p: Pool, e: Entry)
    requires Inv(p) && e in p.live
    ensures e.layout.size <= p.requested
    ensures Inv(Dealloc(p, e))
  {
    DeallocIsCovered(p, e);
    var k := Position(p.live, e);
    assert EntryOk(p.live[k]);
    HeldAfterDealloc(p, e);
    SmallerIsSeparate(p.outstanding, Dealloc(p, e).outstanding);
    EntriesWithout(p.live, k);
    SumWithout(p.live, k);
  }

  lemma EntriesWithout(live: seq<Entry>, k: nat)
    requires k < |live| && forall i :: 0 <= i < |live| ==> EntryOk(live[i])
    ensures forall i :: 0 <= i < |Without(live, k)| ==> EntryOk(Without(live, k)[i])
  {
  }
}
