/** Cursor arithmetic: positions with "pending wrap".  A full line leaves the
    cursor in column `width`; only the next byte moves it down. */
module Cursor {
  import opened AlignUp

  datatype Position = Position(line: nat, column: nat)

  /** `Position::offset`. */
  function Offset(p: Position, bytes: nat, width: nat): Position
    requires width > 0
  {
    var offset := p.column + bytes;
    if offset > 0 && offset % width == 0 then
      Position(p.line + (offset / width - 1), width)
    else
      Position(p.line + offset / width, offset % width)
  }

  /** Where one printable byte leaves the cursor. */
  function Step(p: Position, width: nat): Position
    requires p.column <= width
  {
    if p.column == width then Position(p.line + 1, 1) else Position(p.line, p.column + 1)
  }

  function Steps(p: Position, n: nat, width: nat): (q: Position)
    requires width > 0 && p.column <= width
    ensures q.column <= width
    decreases n
  {
    if n == 0 then p else Steps(Step(p, width), n - 1, width)
  }

  /** The cell at which the next byte lands, counted row by row. */
  function Address(p: Position, width: nat): nat {
    p.line * width + p.column
  }

  lemma OffsetAddress(p: Position, bytes: nat, width: nat)
    requires width > 0
    ensures Address(Offset(p, bytes, width), width) == Address(p, width) + bytes
    ensures Offset(p, bytes, width).column <= width
    ensures Offset(p, bytes, width).column == 0 <==> p.column + bytes == 0
    ensures p.line <= Offset(p, bytes, width).line
  {
    var o := p.column + bytes;
    var q, r := o / width, o % width;
    assert o == width * q + r;
    if r == 0 && o > 0 {
      assert q > 0;
      assert width * q == width * (q - 1) + width;
      assert (p.line + (q - 1)) * width == p.line * width + (q - 1) * width;
    } else {
      assert (p.line + q) * width == p.line * width + q * width;
    }
  }

  /** A position is determined by its address, up to the pending-wrap choice. */
  lemma AddressDeterminesPosition(p: Position, q: Position, width: nat)
    requires width > 0 && p.column <= width && q.column <= width
    requires Address(p, width) == Address(q, width)
    requires p.column == 0 <==> q.column == 0
    ensures p == q
  {
    if p.column == 0 {
      DivModUnique(Address(p, width), width, p.line, 0);
      DivModUnique(Address(q, width), width, q.line, 0);
    } else {
      DivModUnique(Address(p, width) - 1, width, p.line, p.column - 1);
      DivModUnique(Address(q, width) - 1, width, q.line, q.column - 1);
    }
  }

  /** Offsets compose. */
  lemma OffsetComposes(p: Position, a: nat, b: nat, width: nat)
    requires width > 0 && p.column <= width
    ensures Offset(p, a + b, width) == Offset(Offset(p, a, width), b, width)
  {
    var m := Offset(p, a, width);
    OffsetAddress(p, a, width);
    OffsetAddress(m, b, width);
    OffsetAddress(p, a + b, width);
    AddressDeterminesPosition(Offset(p, a + b, width), Offset(m, b, width), width);
  }

  lemma OffsetZero(p: Position, width: nat)
    requires width > 0 && p.column <= width
    ensures Offset(p, 0, width) == p
  {
    OffsetAddress(p, 0, width);
    AddressDeterminesPosition(Offset(p, 0, width), p, width);
  }

  lemma StepIsOffset(p: Position, width: nat)
    requires width > 0 && p.column <= width
    ensures Step(p, width) == Offset(p, 1, width)
  {
    OffsetAddress(p, 1, width);
    assert (p.line + 1) * width == p.line * width + width;
    AddressDeterminesPosition(Step(p, width), Offset(p, 1, width), width);
  }

  /** `offset` is the closed form of stepping over that many printable bytes. */
  lemma {:induction false} OffsetIsSteps(p: Position, n: nat, width: nat)
    requires width > 0 && p.column <= width
    ensures Offset(p, n, width) == Steps(p, n, width)
    decreases n
  {
    if n == 0 {
      OffsetZero(p, width);
    } else {
      StepIsOffset(p, width);
      OffsetIsSteps(Step(p, width), n - 1, width);
      OffsetComposes(p, 1, n - 1, width);
    }
  }
}
