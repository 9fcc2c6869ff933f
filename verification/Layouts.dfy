/** Memory regions and Rust layouts, shared by both allocators. */
module Layouts {
  import opened AlignUp

  datatype Region = Region(start: nat, size: nat) {
    function End(): nat {
      start + size
    }

    predicate Contains(x: int) {
      start <= x < start + size
    }
  }

  datatype Layout = Layout(size: nat, align: nat)

  /** What `Layout::from_size_align` admits. */
  predicate ValidLayout(l: Layout) {
    IsPowerOfTwo(l.align) && RoundUp(l.size, l.align) < Pow2(WORD - 1)
  }

  datatype Block = Block(addr: nat, layout: Layout)

  function Without<T>(s: seq<T>, i: nat): seq<T>
    requires i < |s|
  {
    s[..i] + s[i + 1..]
  }
}
