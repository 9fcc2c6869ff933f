/** Runs of the fixed-size block allocator, and the allocator as an object. */
module FixedSizeBlock {
  import opened Prelude
  import opened AlignUp
  import opened Layouts
  import opened Pool

  datatype Action =
    | Request(layout: Layout, answer: Option<nat>)
    | Return(entry: Entry)

  /** Callers return live blocks with their layout; the fallback keeps its contract. */
  ghost predicate Legal(p: Pool, a: Action) {
    match a
    case Request(layout, answer) => Usable(layout) && FallbackOk(p.outstanding, Backing(layout), answer)
    case Return(entry) => entry in p.live
  }

  ghost function Apply(p: Pool, a: Action): (q: Pool)
    requires Inv(p) && Legal(p, a)
    ensures Inv(q)
  {
    match a
    case Request(layout, answer) => AllocKeepsInv(p, layout, answer); Alloc(p, layout, answer).0
    case Return(entry) => DeallocKeepsInv(p, entry); Dealloc(p, entry)
  }

  ghost predicate Legals(p: Pool, actions: seq<Action>)
    requires Inv(p)
    decreases |actions|
  {
    actions == [] || (Legal(p, actions[0]) && Legals(Apply(p, actions[0]), actions[1..]))
  }

  ghost function Run(p: Pool, actions: seq<Action>): (q: Pool)
    requires Inv(p) && Legals(p, actions)
    ensures Inv(q)
    decreases |actions|
  {
    if actions == [] then p else Run(Apply(p, actions[0]), actions[1..])
  }

  lemma EmptyInv()
    ensures Inv(EMPTY)
  {
    NothingCached(EMPTY.lists, BLOCK_SIZES);
  }

  /** The allocator before its first request. */
  ghost function Start(): (p: Pool)
    ensures Inv(p)
  {
    EmptyInv();
    EMPTY
  }

  lemma {:induction false} NothingCached(lists: seq<seq<nat>>, sizes: seq<nat>)
    requires |lists| == |sizes| && forall i :: 0 <= i < |lists| ==> lists[i] == []
    ensures Cached(lists, sizes) == multiset{}
    decreases |lists|
  {
    if lists != [] {
      NothingCached(lists[1..], sizes[1..]);
    }
  }

  lemma {:induction false} BackingMember(live: seq<Entry>, k: nat)
    requires k < |live|
    ensures Block(live[k].addr, live[k].backing) in Backings(live)
    decreases |live|
  {
    if k > 0 {
      BackingMember(live[1..], k - 1);
    }
  }

  lemma {:induction false} BackingTwice(live: seq<Entry>, j: nat, k: nat)
    requires j < k < |live|
    requires Block(live[j].addr, live[j].backing) == Block(live[k].addr, live[k].backing)
    ensures Backings(live)[Block(live[k].addr, live[k].backing)] >= 2
    decreases |live|
  {
    if j == 0 {
      BackingMember(live[1..], k - 1);
    } else {
      BackingTwice(live[1..], j - 1, k - 1);
    }
  }

  /** Every live block satisfies its layout. */
  lemma LiveBlockSatisfiesLayout(p: Pool, k: nat)
    requires Inv(p) && k < |p.live|
    ensures var e := p.live[k];
            && e.addr > 0 && e.layout.align > 0 && e.addr % e.layout.align == 0
            && e.layout.size <= e.backing.size
            && Block(e.addr, e.backing) in p.outstanding
  {
    var e := p.live[k];
    BackingMember(p.live, k);
    assert EntryOk(e);
    BackingSuffices(e.layout);
    assert BlockOk(Block(e.addr, e.backing));
    MultipleIsTransitive(e.addr, e.backing.align, e.layout.align);
  }

  lemma EntriesApart(live: seq<Entry>, m: multiset<Block>, j: nat, k: nat)
    requires j < k < |live| && Backings(live) <= m && Separate(m)
    ensures Apart(Block(live[j].addr, live[j].backing), Block(live[k].addr, live[k].backing))
  {
    var a, b := Block(live[j].addr, live[j].backing), Block(live[k].addr, live[k].backing);
    BackingMember(live, j);
    BackingMember(live, k);
    assert a in m && b in m && m[b] == 1;
    if a == b {
      BackingTwice(live, j, k);
    }
  }

  lemma LiveBlocksApart(p: Pool, j: nat, k: nat)
    requires Inv(p) && j < k < |p.live|
    ensures Apart(Block(p.live[j].addr, p.live[j].backing), Block(p.live[k].addr, p.live[k].backing))
  {
    EntriesApart(p.live, p.outstanding, j, k);
  }

  lemma {:induction false} ClassMember(addrs: seq<nat>, l: Layout, k: nat)
    requires k < |addrs|
    ensures Block(addrs[k], l) in ClassBlocks(addrs, l)
    decreases |addrs|
  {
    if k > 0 {
      ClassMember(addrs[1..], l, k - 1);
    }
  }

  lemma {:induction false} CachedMember(lists: seq<seq<nat>>, sizes: seq<nat>, i: nat, k: nat)
    requires |lists| == |sizes| && i < |lists| && k < |lists[i]|
    ensures Block(lists[i][k], Layout(sizes[i], sizes[i])) in Cached(lists, sizes)
    decreases |lists|
  {
    if i == 0 {
      ClassMember(lists[0], Layout(sizes[0], sizes[0]), k);
    } else {
      CachedMember(lists[1..], sizes[1..], i - 1, k);
    }
  }

  /** A block cached in list `i` is a whole block of that class. */
  lemma CachedBlockFitsClass(p: Pool, i: nat, k: nat)
    requires Inv(p) && i < CLASSES && k < |p.lists[i]|
    ensures BlockOk(Block(p.lists[i][k], ClassLayout(i)))
    ensures Block(p.lists[i][k], ClassLayout(i)) in p.outstanding
  {
    CachedMember(p.lists, BLOCK_SIZES, i, k);
  }

  /** Every cached block has the size and the alignment of its class. */
  predicate CacheOk(p: Pool) {
    |p.lists| == CLASSES &&
    forall i, k :: 0 <= i < CLASSES && 0 <= k < |p.lists[i]| ==> BlockOk(Block(p.lists[i][k], ClassLayout(i)))
  }

  /** Every live block is large and aligned enough for its layout, and none
      overlaps another. */
  predicate LiveOk(live: seq<Entry>) {
    && (forall k :: 0 <= k < |live| ==>
          && live[k].addr > 0 && live[k].layout.align > 0 && live[k].addr % live[k].layout.align == 0
          && live[k].layout.size <= live[k].backing.size)
    && (forall j, k :: 0 <= j < k < |live| ==>
          Apart(Block(live[j].addr, live[j].layout), Block(live[k].addr, live[k].layout)))
  }

  lemma InvIsSafe(p: Pool)
    requires Inv(p)
    ensures CacheOk(p) && LiveOk(p.live)
  {
    forall i, k | 0 <= i < CLASSES && 0 <= k < |p.lists[i]|
      ensures BlockOk(Block(p.lists[i][k], ClassLayout(i)))
    {
      CachedBlockFitsClass(p, i, k);
    }
    forall k | 0 <= k < |p.live|
      ensures var e := p.live[k];
              e.addr > 0 && e.layout.align > 0 && e.addr % e.layout.align == 0 && e.layout.size <= e.backing.size
    {
      LiveBlockSatisfiesLayout(p, k);
    }
    forall j, k | 0 <= j < k < |p.live|
      ensures Apart(Block(p.live[j].addr, p.live[j].layout), Block(p.live[k].addr, p.live[k].layout))
    {
      LiveRequestsApart(p, j, k);
    }
  }

  /** In every run: cached and live blocks are exactly what the fallback has
      handed out and are pairwise disjoint; every cached block has the size and
      alignment of its class; every live block satisfies its layout; the
      counter is the sum of the live requested sizes. */
  lemma EveryRunIsSafe(actions: seq<Action>)
    requires Legals(Start(), actions)
    ensures var p := Run(Start(), actions);
            && CacheOk(p) && LiveOk(p.live)
            && Held(p) == p.outstanding && Separate(Held(p))
            && p.requested == SumSizes(p.live)
  {
    InvIsSafe(Run(Start(), actions));
  }

  lemma LiveRequestsApart(p: Pool, j: nat, k: nat)
    requires Inv(p) && j < k < |p.live|
    ensures Apart(Block(p.live[j].addr, p.live[j].layout), Block(p.live[k].addr, p.live[k].layout))
  {
    LiveBlocksApart(p, j, k);
    LiveBlockSatisfiesLayout(p, j);
    LiveBlockSatisfiesLayout(p, k);
  }

  /** Where `alloc` puts the new block among the live ones. */
  lemma AllocAddsOneEntry(p: Pool, l: Layout, answer: Option<nat>)
    requires |p.lists| == CLASSES && Alloc(p, l, answer).1.Some?
    ensures var (q, r) := Alloc(p, l, answer);
            |q.live| == |p.live| + 1 && q.live[1..] == p.live && q.live[0].addr == r.value && q.live[0].layout == l
  {
  }

  /** A pointer just returned was in nobody's hands. */
  lemma AllocatedBlockIsFresh(p: Pool, l: Layout, answer: Option<nat>, k: nat)
    requires Inv(p) && Usable(l) && FallbackOk(p.outstanding, Backing(l), answer)
    requires Alloc(p, l, answer).1.Some? && k < |p.live|
    ensures Apart(Block(Alloc(p, l, answer).1.value, l), Block(p.live[k].addr, p.live[k].layout))
  {
    var q := Alloc(p, l, answer).0;
    AllocKeepsInv(p, l, answer);
    AllocAddsOneEntry(p, l, answer);
    assert q.live[k + 1] == q.live[1..][k];
    LiveRequestsApart(q, 0, k + 1);
  }

  // ---------------------------------------------------------------------
  // The lists in memory

  /** From `link` on, the nodes in memory lead through exactly these blocks. */
  predicate Linked(link: Option<nat>, nodes: map<nat, Option<nat>>, addrs: seq<nat>)
    decreases |addrs|
  {
    if addrs == [] then link == None
    else link == Some(addrs[0]) && addrs[0] in nodes && Linked(nodes[addrs[0]], nodes, addrs[1..])
  }

  lemma {:induction false} LinkedFrame(link: Option<nat>, nodes: map<nat, Option<nat>>, addrs: seq<nat>,
                                       addr: nat, next: Option<nat>)
    requires Linked(link, nodes, addrs) && addr !in addrs
    ensures Linked(link, nodes[addr := next], addrs)
    decreases |addrs|
  {
    if addrs != [] {
      LinkedFrame(nodes[addrs[0]], nodes, addrs[1..], addr, next);
    }
  }

  /** All nine lists. */
  predicate AllLinked(heads: seq<Option<nat>>, nodes: map<nat, Option<nat>>, lists: seq<seq<nat>>) {
    |heads| == |lists| && forall i :: 0 <= i < |lists| ==> Linked(heads[i], nodes, lists[i])
  }

  /** Writing a node into a block that is in no list pushes it on one. */
  lemma PushLinks(heads: seq<Option<nat>>, nodes: map<nat, Option<nat>>, lists: seq<seq<nat>>, k: nat, addr: nat)
    requires AllLinked(heads, nodes, lists) && k < |lists|
    requires forall i :: 0 <= i < |lists| ==> addr !in lists[i]
    ensures AllLinked(heads[k := Some(addr)], nodes[addr := heads[k]], lists[k := [addr] + lists[k]])
  {
    var after, longer := nodes[addr := heads[k]], [addr] + lists[k];
    forall i | 0 <= i < |lists|
      ensures Linked(heads[i], after, lists[i])
    {
      LinkedFrame(heads[i], nodes, lists[i], addr, heads[k]);
    }
    assert longer[1..] == lists[k];
    assert Linked(Some(addr), after, longer);
  }

  lemma PopLinks(heads: seq<Option<nat>>, nodes: map<nat, Option<nat>>, lists: seq<seq<nat>>, k: nat)
    requires AllLinked(heads, nodes, lists) && k < |lists| && lists[k] != []
    ensures heads[k] == Some(lists[k][0]) && lists[k][0] in nodes
    ensures AllLinked(heads[k := nodes[lists[k][0]]], nodes, lists[k := lists[k][1..]])
  {
  }

  /** A live block is in no list. */
  lemma LiveIsNotCached(p: Pool, e: Entry, i: nat)
    requires Inv(p) && e in p.live && i < CLASSES
    ensures e.addr !in p.lists[i]
  {
    var k := Position(p.live, e);
    BackingMember(p.live, k);
    var mine := Block(e.addr, e.backing);
    assert BlockOk(mine);
    forall j | 0 <= j < |p.lists[i]|
      ensures p.lists[i][j] != e.addr
    {
      CachedMember(p.lists, BLOCK_SIZES, i, j);
      CachedApart(p, mine, Block(p.lists[i][j], ClassLayout(i)));
    }
  }

  lemma LiveInNoList(p: Pool, e: Entry)
    requires Inv(p) && e in p.live
    ensures forall i :: 0 <= i < CLASSES ==> e.addr !in p.lists[i]
  {
    forall i | 0 <= i < CLASSES
      ensures e.addr !in p.lists[i]
    {
      LiveIsNotCached(p, e, i);
    }
  }

  /** All that `dealloc` needs to know about the block it is given. */
  lemma FreedFacts(p: Pool, e: Entry) returns (after: Pool)
    requires Inv(p) && e in p.live
    ensures e.layout.size <= p.requested && after == Dealloc(p, e) && Inv(after)
    ensures forall i :: 0 <= i < CLASSES ==> e.addr !in p.lists[i]
    ensures after.requested == p.requested - e.layout.size
    ensures var i := ListIndex(e.layout);
            after.lists == if i < CLASSES then p.lists[i := [e.addr] + p.lists[i]] else p.lists
  {
    LiveInNoList(p, e);
    DeallocKeepsInv(p, e);
    after := Dealloc(p, e);
  }

  lemma CachedApart(p: Pool, a: Block, b: Block)
    requires Inv(p) && a in Backings(p.live) && b in Cached(p.lists, BLOCK_SIZES)
    ensures a.addr != b.addr
  {
    assert a in p.outstanding && b in p.outstanding;
    assert BlockOk(a) && BlockOk(b);
    assert a == b ==> p.outstanding[a] >= 2;
  }

  class FixedSizeBlockAllocator {
    const heads: array<Option<nat>>         // `list_heads`
    var nodes: map<nat, Option<nat>>        // `next` of each node written so far
    var requestedBytes: nat
    ghost var lists: seq<seq<nat>>
    ghost var live: seq<Entry>
    ghost var outstanding: multiset<Block>

    ghost function View(): Pool
      reads this
    {
      Pool(lists, live, requestedBytes, outstanding)
    }

    ghost predicate Valid()
      reads this, heads
    {
      Inv(View()) && AllLinked(heads[..], nodes, lists)
    }

    constructor ()
      ensures Valid() && View() == EMPTY && fresh(heads)
    {
      heads := new Option<nat>[CLASSES](_ => None);
      nodes, requestedBytes := map[], 0;
      lists, live, outstanding := EMPTY.lists, [], multiset{};
      new;
      EmptyInv();
    }

    /** `list_index` as a search. */
    static method FindClass(layout: Layout) returns (index: Option<nat>)
      ensures index == if ListIndex(layout) < CLASSES then Some(ListIndex(layout)) else None
    {
      var required := Max(layout.size, layout.align);
      var i := 0;
      while i < CLASSES
        invariant 0 <= i <= CLASSES
        invariant forall j :: 0 <= j < i ==> BLOCK_SIZES[j] < required
      {
        if BLOCK_SIZES[i] >= required {
          return Some(i);
        }
        i := i + 1;
      }
      index := None;
    }

    /** Take the first block of a list. */
    method PopBlock(index: nat) returns (addr: nat)
      requires AllLinked(heads[..], nodes, lists) && |lists| == CLASSES && index < CLASSES && heads[index].Some?
      modifies this`lists, heads
      ensures old(lists)[index] != [] && addr == old(lists)[index][0]
      ensures AllLinked(heads[..], nodes, lists) && lists == old(lists)[index := old(lists)[index][1..]]
    {
      assert heads[..][index] == heads[index];
      PopLinks(heads[..], nodes, lists, index);
      ghost var after := heads[..][index := nodes[lists[index][0]]];
      addr := heads[index].value;
      heads[index] := nodes[addr];
      lists := lists[index := lists[index][1..]];
      assert heads[..] == after;
    }

    /** Write a node into a block and make it the first of a list. */
    method PushBlock(index: nat, addr: nat)
      requires AllLinked(heads[..], nodes, lists) && |lists| == CLASSES && index < CLASSES
      requires forall i :: 0 <= i < CLASSES ==> addr !in lists[i]
      modifies this`lists, this`nodes, heads
      ensures AllLinked(heads[..], nodes, lists) && lists == old(lists)[index := [addr] + old(lists)[index]]
    {
      PushLinks(heads[..], nodes, lists, index, addr);
      ghost var after := heads[..][index := Some(addr)];
      nodes := nodes[addr := heads[index]];
      heads[index] := Some(addr);
      lists := lists[index := [addr] + lists[index]];
      assert heads[..] == after;
    }

    /** From the cache if it has a block of the class, else from the fallback. */
    method Obtain(layout: Layout, answer: Option<nat>) returns (pointer: Option<nat>)
      requires AllLinked(heads[..], nodes, lists) && |lists| == CLASSES
      modifies this`lists, heads
      ensures AllLinked(heads[..], nodes, lists)
      ensures var i := ListIndex(layout);
              if i < CLASSES && old(lists)[i] != [] then
                pointer == Some(old(lists)[i][0]) && lists == old(lists)[i := old(lists)[i][1..]]
              else
                pointer == answer && lists == old(lists)
    {
      var index := FindClass(layout);
      if index.Some? && heads[index.value].Some? {
        assert heads[..][index.value] == heads[index.value];
        var addr := PopBlock(index.value);
        return Some(addr);
      }
      assert index.Some? ==> heads[..][index.value] == heads[index.value];
      pointer := answer;
    }

    /** The body of `alloc`. */
    method Serve(layout: Layout, answer: Option<nat>) returns (pointer: Option<nat>)
      requires AllLinked(heads[..], nodes, lists) && |lists| == CLASSES
      modifies this, heads
      ensures (View(), pointer) == Alloc(old(View()), layout, answer) && AllLinked(heads[..], nodes, lists)
    {
      ghost var after := Alloc(View(), layout, answer);
      pointer := Obtain(layout, answer);
      if pointer.Some? {
        requestedBytes := requestedBytes + layout.size;
      }
      live, outstanding := after.0.live, after.0.outstanding;
    }

    /** `alloc`; `answer` is what the fallback would say. */
    method Allocate(layout: Layout, answer: Option<nat>) returns (pointer: Option<nat>)
      requires Valid() && Usable(layout) && FallbackOk(outstanding, Backing(layout), answer)
      modifies this, heads
      ensures Valid()
      ensures (View(), pointer) == Alloc(old(View()), layout, answer)
    {
      AllocKeepsInv(View(), layout, answer);
      pointer := Serve(layout, answer);
    }

    /** Cache a block of some class; larger ones go back to the fallback. */
    method GiveBack(pointer: nat, layout: Layout, ghost after: Pool)
      requires AllLinked(heads[..], nodes, lists) && |lists| == CLASSES && layout.size <= requestedBytes
      requires forall i :: 0 <= i < CLASSES ==> pointer !in lists[i]
      requires after.requested == requestedBytes - layout.size
      requires var i := ListIndex(layout);
               after.lists == if i < CLASSES then lists[i := [pointer] + lists[i]] else lists
      modifies this, heads
      ensures View() == after && AllLinked(heads[..], nodes, lists)
    {
      requestedBytes := requestedBytes - layout.size;
      var index := FindClass(layout);
      if index.Some? {
        PushBlock(index.value, pointer);
      }
      live, outstanding := after.live, after.outstanding;
    }

    /** `dealloc`. */
    method Deallocate(pointer: nat, layout: Layout)
      requires Valid() && Entry(pointer, layout, Backing(layout)) in live
      modifies this, heads
      ensures Valid()
      ensures old(Entry(pointer, layout, Backing(layout)) in live && layout.size <= requestedBytes)
      ensures View() == Dealloc(old(View()), Entry(pointer, layout, Backing(layout)))
    {
      ghost var entry := Entry(pointer, layout, Backing(layout));
      ghost var after := FreedFacts(View(), entry);
      GiveBack(pointer, layout, after);
    }
  }
}
