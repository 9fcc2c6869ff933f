/** How well the block allocator reuses memory, over whole runs. */
module PoolRuns {
  import opened Prelude
  import opened Layouts
  import opened Pool
  import opened FixedSizeBlock

  /** Class `i` holds blocks of 8 * 2^i bytes and serves what the class below is
      too small for. */
  predicate InClass(i: nat, l: Layout)
    requires i < 9
  {
    && Max(l.size, l.align) <= BLOCK_SIZES[i]
    && (i > 0 ==> BLOCK_SIZES[i - 1] < Max(l.size, l.align))
  }

  predicate Large(l: Layout) {
    2048 < Max(l.size, l.align)
  }

  lemma SizesGrow(i: nat, j: nat)
    requires i < j < 9
    ensures BLOCK_SIZES[i] < BLOCK_SIZES[j]
  {
  }

  lemma ClassExactly(i: nat, l: Layout)
    requires i < 9
    ensures ListIndex(l) == i <==> InClass(i, l)
    ensures ListIndex(l) == 9 <==> Large(l)
  {
    var k := ListIndex(l);
    if k < i {
      SizesGrow(k, i);
      if k < i - 1 {
        SizesGrow(k, i - 1);
      }
    } else if i < k < 9 {
      SizesGrow(i, k);
    }
    assert BLOCK_SIZES[8] == 2048;
    if k < 8 {
      SizesGrow(k, 8);
    }
  }

  /** A large block goes straight to the fallback and back. */
  lemma LargeBlocksPassThrough(p: Pool, l: Layout, answer: Option<nat>)
    requires |p.lists| == 9 && Large(l)
    ensures var (q, r) := Alloc(p, l, answer);
            && r == answer && q.lists == p.lists
            && (answer.Some? ==> q.outstanding == p.outstanding + multiset{Block(answer.value, l)})
    ensures forall e: Entry :: e in p.live && e.layout == l && l.size <= p.requested ==>
              var q := Dealloc(p, e);
              q.lists == p.lists && q.outstanding == p.outstanding - multiset{Block(e.addr, l)}
  {
    ClassExactly(0, l);
  }

  /** The last block of a class to be freed is the next to be handed out, and the
      fallback is not asked. */
  lemma FreedBlockIsNext(p: Pool, e: Entry, i: nat, l: Layout, answer: Option<nat>)
    requires Inv(p) && e in p.live && i < 9 && InClass(i, e.layout) && InClass(i, l)
    ensures e.layout.size <= p.requested
    ensures var freed := Dealloc(p, e);
            var (q, r) := Alloc(freed, l, answer);
            r == Some(e.addr) && q.lists == p.lists && q.outstanding == p.outstanding == freed.outstanding
  {
    DeallocIsCovered(p, e);
    ClassExactly(i, e.layout);
    ClassExactly(i, l);
    assert ([e.addr] + p.lists[i])[1..] == p.lists[i];
    assert p.lists[i := [e.addr] + p.lists[i]][i := p.lists[i]] == p.lists;
  }

  // ---------------------------------------------------------------------
  // The high-water mark

  /** The live blocks of a class. */
  function LiveOf(live: seq<Entry>, i: nat): nat
    requires i < 9
  {
    if live == [] then 0 else LiveOf(live[1..], i) + if InClass(i, live[0].layout) then 1 else 0
  }

  lemma {:induction false} LiveOfWithout(live: seq<Entry>, k: nat, i: nat)
    requires k < |live| && i < 9
    ensures LiveOf(live, i) == LiveOf(Without(live, k), i) + if InClass(i, live[k].layout) then 1 else 0
    decreases |live|
  {
    if k == 0 {
      assert Without(live, 0) == live[1..];
    } else {
      LiveOfWithout(live[1..], k - 1, i);
      WithoutTail(live, k);
      assert ([live[0]] + Without(live[1..], k - 1))[1..] == Without(live[1..], k - 1);
    }
  }

  /** The most blocks of a class that were ever live at once. */
  ghost function Peak(p: Pool, actions: seq<Action>, i: nat): nat
    requires Inv(p) && Legals(p, actions) && i < 9
    decreases |actions|
  {
    var now := LiveOf(p.live, i);
    if actions == [] then now else Max(now, Peak(Apply(p, actions[0]), actions[1..], i))
  }

  /** The blocks of a class obtained from the fallback: cached or live. */
  function HeldOf(p: Pool, i: nat): nat
    requires |p.lists| == 9 && i < 9
  {
    |p.lists[i]| + LiveOf(p.live, i)
  }

  lemma AllocHolds(p: Pool, l: Layout, answer: Option<nat>, i: nat)
    requires Inv(p) && i < 9
    ensures var q := Alloc(p, l, answer).0;
            && |q.lists| == 9
            && HeldOf(q, i) == Max(HeldOf(p, i), LiveOf(q.live, i))
  {
    ClassExactly(i, l);
    var (q, r) := Alloc(p, l, answer);
    if r.Some? {
      assert q.live[1..] == p.live;
    }
  }

  lemma DeallocHolds(p: Pool, e: Entry, i: nat)
    requires Inv(p) && e in p.live && i < 9
    ensures e.layout.size <= p.requested && |Dealloc(p, e).lists| == 9
    ensures HeldOf(Dealloc(p, e), i) == HeldOf(p, i) && LiveOf(Dealloc(p, e).live, i) <= LiveOf(p.live, i)
  {
    DeallocIsCovered(p, e);
    ClassExactly(i, e.layout);
    LiveOfWithout(p.live, Position(p.live, e), i);
  }

  lemma ApplyHolds(p: Pool, a: Action, i: nat)
    requires Inv(p) && Legal(p, a) && i < 9
    ensures HeldOf(Apply(p, a), i) == Max(HeldOf(p, i), LiveOf(Apply(p, a).live, i))
  {
    match a
    case Request(layout, answer) => AllocHolds(p, layout, answer, i);
    case Return(entry) => DeallocHolds(p, entry, i);
  }

  lemma {:induction false} HeldIsPeakFrom(p: Pool, actions: seq<Action>, i: nat)
    requires Inv(p) && Legals(p, actions) && i < 9
    ensures HeldOf(Run(p, actions), i) == Max(HeldOf(p, i), Peak(p, actions, i))
    decreases |actions|
  {
    if actions != [] {
      ApplyHolds(p, actions[0], i);
      HeldIsPeakFrom(Apply(p, actions[0]), actions[1..], i);
    }
  }

  /** In every run the fallback has been asked for exactly as many blocks of each
      class as were ever live at once: a cached block is always used first, and
      a freed one is always kept. */
  lemma HeldIsPeak(actions: seq<Action>, i: nat)
    requires Legals(Start(), actions) && i < 9
    ensures HeldOf(Run(Start(), actions), i) == Peak(Start(), actions, i)
  {
    HeldIsPeakFrom(Start(), actions, i);
  }
}
