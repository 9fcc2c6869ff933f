/** What the mouse does to the windows: presses, drags and releases. */
module Pointing {
  import opened Prelude
  import opened Desktop

  /** A movement component is the byte it ends in, with the sign of its flag. */
  lemma DeltaExactly(b: byte, negative: bool, d: int)
    ensures Delta(b, negative) == d <==> -256 <= d < 256 && d % 256 == b && (d < 0 <==> negative)
  {
  }

  function Width(d: Desktop): int
    requires |d.open| == 2
  {
    if d.open[0] && d.open[1] then 38 else 74
  }

  /** The corner of an open window: a window alone is pushed left until it fits. */
  function Corner(d: Desktop, i: nat): Window
    requires Shaped(d) && i < 2
  {
    if Width(d) == 74 && d.windows[i].x > 6 then Window(6, d.windows[i].y) else d.windows[i]
  }

  predicate Occupies(d: Desktop, i: nat, x: int, y: int)
    requires Shaped(d) && i < 2
  {
    d.open[i] && 0 <= x - Corner(d, i).x < Width(d) && 0 <= y - Corner(d, i).y < 20
  }

  /** The window seen at a place: the active one covers the other. */
  predicate Seen(d: Desktop, i: nat, x: int, y: int)
    requires Shaped(d) && i < 2
  {
    Occupies(d, i, x, y) && (i == d.active || !Occupies(d, 1 - i, x, y))
  }

  predicate OnTitle(d: Desktop, i: nat, x: int, y: int)
    requires Shaped(d) && i < 2
  {
    Seen(d, i, x, y) && y == Corner(d, i).y
  }

  /** The three cells before the last one of the title bar. */
  predicate OnCloseBox(d: Desktop, i: nat, x: int, y: int)
    requires Shaped(d) && i < 2
  {
    OnTitle(d, i, x, y) && 1 <= Corner(d, i).x + Width(d) - 1 - x <= 3
  }

  lemma RectIsCorner(d: Desktop, i: nat)
    requires Inv(d) && i < 2
    ensures RectOf(d, i) == if d.open[i] then Some(Rect(Corner(d, i).x, Corner(d, i).y, Width(d))) else None
    ensures forall x, y :: Inside(RectOf(d, i), x, y) <==> Occupies(d, i, x, y)
  {
  }

  lemma HitIsSeen(d: Desktop, i: nat)
    requires Inv(d) && i < 2
    ensures Hit(d) == Some(i) <==> Seen(d, i, d.pointerX, d.pointerY)
    ensures Hit(d) == None <==> !Occupies(d, 0, d.pointerX, d.pointerY) && !Occupies(d, 1, d.pointerX, d.pointerY)
  {
    RectIsCorner(d, 0);
    RectIsCorner(d, 1);
  }

  /** A press asks to close exactly the window whose box is seen under the
      pointer, asks to open exactly on the icon where no window covers it, grips
      exactly the rest of a title bar, and activates the window it hits. */
  lemma PressExactly(d: Desktop, i: nat)
    requires Inv(d) && i < 2
    ensures var x, y := d.pointerX, d.pointerY;
            var (e, request) := Press(d);
            && (request == Some(CloseRequest(i)) <==> OnCloseBox(d, i, x, y))
            && (request == Some(OpenRequest) <==>
                  !Occupies(d, 0, x, y) && !Occupies(d, 1, x, y) && 3 <= x <= 12 && 1 <= y <= 3)
            && (e.drag.Some? && e.drag.value.index == i <==> OnTitle(d, i, x, y) && !OnCloseBox(d, i, x, y))
            && (e.drag.Some? && e.drag.value.index == i ==>
                  e.drag.value == Drag(i, x - Corner(d, i).x, y - Corner(d, i).y))
            && (Seen(d, i, x, y) ==> e.active == i)
            && (!Seen(d, 0, x, y) && !Seen(d, 1, x, y) ==> e.active == d.active)
            && e.windows == d.windows && e.open == d.open
  {
    HitIsSeen(d, i);
    HitIsSeen(d, 1 - i);
    RectIsCorner(d, i);
    RectIsCorner(d, 1 - i);
  }

  // ---------------------------------------------------------------------
  // Packets

  /** The three bytes of a packet, one after the other. */
  function Feed(d: Desktop, p: MousePacket): (Desktop, Option<Request>)
    requires Shaped(d) && d.packet == [] && BitSet(p.flags, 8)
  {
    var one := MouseByte(d, p.flags).0;
    var two := MouseByte(one, p.x).0;
    MouseByte(two, p.y)
  }

  predicate LeftDown(p: MousePacket) {
    BitSet(p.flags, 1)
  }

  /** The pointer after the movement of a packet. */
  function Moved(d: Desktop, p: MousePacket): Desktop {
    Move(d, Delta(p.x, BitSet(p.flags, 16)), Delta(p.y, BitSet(p.flags, 32)))
  }

  lemma FeedIsPacket(d: Desktop, p: MousePacket)
    requires Inv(d) && d.packet == [] && BitSet(p.flags, 8)
    ensures Feed(d, p) == Packet(d, p.flags, p.x, p.y)
    ensures Inv(Feed(d, p).0) && Feed(d, p).0.packet == [] && Feed(d, p).0.open == d.open
    ensures BitSet(Feed(d, p).0.buttons, 1) == LeftDown(p)
  {
    assert [p.flags] + [p.x] == [p.flags, p.x];
    PacketKeepsInv(d, p.flags, p.x, p.y);
    assert d.(packet := []) == d;
    BitOfButtons(p.flags);
  }

  lemma BitOfButtons(flags: byte)
    ensures BitSet(flags % 8, 1) == BitSet(flags, 1)
  {
  }

  /** Only the packet in which the left button goes down asks for anything, and
      it asks for what is under the pointer after the movement. */
  lemma RequestsComeFromPresses(d: Desktop, p: MousePacket)
    requires Inv(d) && d.packet == [] && BitSet(p.flags, 8)
    ensures Feed(d, p).1 == if LeftDown(p) && !BitSet(d.buttons, 1) then Press(Moved(d, p)).1 else None
  {
    FeedIsPacket(d, p);
  }

  /** Window `i` is gripped and stands where the pointer puts it. */
  predicate Held(d: Desktop, i: nat, gx: int, gy: int)
    requires Shaped(d) && i < 2
  {
    && BitSet(d.buttons, 1) && d.drag == Some(Drag(i, gx, gy))
    && d.windows[i] == Window(Clamp(d.pointerX - gx, 0, 80 - Width(d)), Clamp(d.pointerY - gy, 1, 4))
  }

  /** The left button goes down on a title bar, beside its close box. */
  predicate Grips(d: Desktop, press: MousePacket, i: nat) {
    && Inv(d) && d.packet == [] && !BitSet(d.buttons, 1)
    && BitSet(press.flags, 8) && LeftDown(press)
    && var m := Moved(d, press);
       i < 2 && Inv(m) && OnTitle(m, i, m.pointerX, m.pointerY) && !OnCloseBox(m, i, m.pointerX, m.pointerY)
  }

  /** A press on a title bar grips the window where it is seen. */
  lemma {:induction false} PressGrips(d: Desktop, p: MousePacket, i: nat)
    requires Grips(d, p, i)
    ensures var e, m := Feed(d, p).0, Moved(d, p);
            && Inv(e) && Held(e, i, m.pointerX - Corner(m, i).x, m.pointerY - Corner(m, i).y)
            && e.windows == d.windows[i := Corner(d, i)]
            && e.pointerX == m.pointerX && e.pointerY == m.pointerY && e.active == i
            && e.packet == [] && e.open == m.open
  {
    var m := Moved(d, p);
    PressIsFollowed(d, p);
    PressExactly(m, i);
    PressKeepsInv(m);
    GripIsHeld(m, Press(m).0, p.flags % 8, i);
    assert m.windows == d.windows && Corner(m, i) == Corner(d, i);
  }

  lemma PressIsFollowed(d: Desktop, p: MousePacket)
    requires Inv(d) && d.packet == [] && BitSet(p.flags, 8) && LeftDown(p) && !BitSet(d.buttons, 1)
    ensures Feed(d, p).0 == Follow(Press(Moved(d, p)).0).(buttons := p.flags % 8)
    ensures Inv(Feed(d, p).0) && BitSet(Feed(d, p).0.buttons, 1)
  {
    FeedIsPacket(d, p);
  }

  /** A window just gripped stays where it is seen. */
  lemma GripIsHeld(m: Desktop, p: Desktop, buttons: byte, i: nat)
    requires Inv(m) && Inv(p) && i < 2 && p.open[i] && BitSet(buttons, 1)
    requires p.windows == m.windows && p.open == m.open && p.pointerX == m.pointerX && p.pointerY == m.pointerY
    requires p.drag == Some(Drag(i, m.pointerX - Corner(m, i).x, m.pointerY - Corner(m, i).y))
    ensures var e := Follow(p).(buttons := buttons);
            && Shaped(e) && Held(e, i, m.pointerX - Corner(m, i).x, m.pointerY - Corner(m, i).y)
            && e.windows == m.windows[i := Corner(m, i)]
  {
    RectIsCorner(p, i);
  }

  lemma {:induction false} HeldFollows(d: Desktop, p: MousePacket, i: nat, gx: int, gy: int)
    requires Inv(d) && d.packet == [] && BitSet(p.flags, 8) && LeftDown(p) && i < 2 && Held(d, i, gx, gy)
    ensures var e := Feed(d, p).0;
            && Inv(e) && e.packet == [] && Held(e, i, gx, gy)
            && e.open == d.open && e.active == d.active && e.windows[1 - i] == d.windows[1 - i]
  {
    FeedIsPacket(d, p);
    MoveKeepsInv(d, Delta(p.x, BitSet(p.flags, 16)), Delta(p.y, BitSet(p.flags, 32)));
    RectIsCorner(Moved(d, p), i);
  }

  predicate AllSynced(packets: seq<MousePacket>) {
    forall k :: 0 <= k < |packets| ==> BitSet(packets[k].flags, 8)
  }

  function FeedAll(d: Desktop, packets: seq<MousePacket>): (e: Desktop)
    requires Inv(d) && d.packet == [] && AllSynced(packets)
    ensures Inv(e) && e.packet == [] && e.open == d.open
    decreases |packets|
  {
    if packets == [] then d
    else
      FeedIsPacket(d, packets[0]);
      FeedAll(Feed(d, packets[0]).0, packets[1..])
  }

  lemma {:induction false} HeldFollowsAll(d: Desktop, packets: seq<MousePacket>, i: nat, gx: int, gy: int)
    requires Inv(d) && d.packet == [] && AllSynced(packets) && i < 2 && Held(d, i, gx, gy)
    requires forall k :: 0 <= k < |packets| ==> LeftDown(packets[k])
    ensures var e := FeedAll(d, packets);
            && Held(e, i, gx, gy)
            && e.active == d.active && e.windows[1 - i] == d.windows[1 - i]
    decreases |packets|
  {
    if packets != [] {
      FeedIsPacket(d, packets[0]);
      HeldFollows(d, packets[0], i, gx, gy);
      HeldFollowsAll(Feed(d, packets[0]).0, packets[1..], i, gx, gy);
    }
  }

  /** Window `i` has moved as far as the pointer, as far as the screen allows. */
  predicate MovedAlong(m: Desktop, e: Desktop, i: nat)
    requires Shaped(m) && Shaped(e) && i < 2
  {
    e.windows[i] == Window(Clamp(Corner(m, i).x + (e.pointerX - m.pointerX), 0, 80 - Width(m)),
                           Clamp(Corner(m, i).y + (e.pointerY - m.pointerY), 1, 4))
  }

  lemma {:induction false} HeldMovesAlong(m: Desktop, e: Desktop, i: nat)
    requires Shaped(m) && Shaped(e) && i < 2 && e.open == m.open
    requires Held(e, i, m.pointerX - Corner(m, i).x, m.pointerY - Corner(m, i).y)
    ensures MovedAlong(m, e, i)
  {
  }

  /** From a press on a title bar until the button is released, the window moves
      exactly as far as the pointer has since the press, as long as the screen
      allows; the other window stays. */
  lemma {:induction false} DraggedWindowFollows(d: Desktop, packets: seq<MousePacket>, i: nat)
    requires packets != [] && Grips(d, packets[0], i)
    requires AllSynced(packets) && forall k :: 0 <= k < |packets| ==> LeftDown(packets[k])
    ensures var e := FeedAll(d, packets);
            MovedAlong(Moved(d, packets[0]), e, i) && e.windows[1 - i] == d.windows[1 - i] && e.active == i
  {
    PressGrips(d, packets[0], i);
    GrippedFollows(Moved(d, packets[0]), Feed(d, packets[0]).0, packets[1..], i);
  }

  lemma {:induction false} GrippedFollows(m: Desktop, gripped: Desktop, packets: seq<MousePacket>, i: nat)
    requires Inv(m) && Inv(gripped) && gripped.packet == [] && gripped.open == m.open && i < 2
    requires Held(gripped, i, m.pointerX - Corner(m, i).x, m.pointerY - Corner(m, i).y)
    requires AllSynced(packets) && forall k :: 0 <= k < |packets| ==> LeftDown(packets[k])
    ensures var e := FeedAll(gripped, packets);
            MovedAlong(m, e, i) && e.windows[1 - i] == gripped.windows[1 - i] && e.active == gripped.active
  {
    HeldFollowsAll(gripped, packets, i, m.pointerX - Corner(m, i).x, m.pointerY - Corner(m, i).y);
    HeldMovesAlong(m, FeedAll(gripped, packets), i);
  }

  lemma UpMovesNothing(d: Desktop, p: MousePacket)
    requires Inv(d) && d.packet == [] && BitSet(p.flags, 8) && !LeftDown(p)
    ensures var e := Feed(d, p).0; e.windows == d.windows && e.active == d.active && e.drag == None
  {
    FeedIsPacket(d, p);
  }

  /** With the button up no window moves and none is activated, and nothing is
      held any more. */
  lemma {:induction false} ReleasedWindowsStay(d: Desktop, packets: seq<MousePacket>)
    requires Inv(d) && d.packet == [] && AllSynced(packets)
    requires forall k :: 0 <= k < |packets| ==> !LeftDown(packets[k])
    ensures var e := FeedAll(d, packets);
            e.windows == d.windows && e.active == d.active && (packets != [] ==> e.drag == None)
    decreases |packets|
  {
    if packets != [] {
      FeedIsPacket(d, packets[0]);
      UpMovesNothing(d, packets[0]);
      ReleasedWindowsStay(Feed(d, packets[0]).0, packets[1..]);
      assert |packets| == 1 ==> FeedAll(Feed(d, packets[0]).0, packets[1..]) == Feed(d, packets[0]).0;
    }
  }

  /** Opening fails exactly when both windows are open; it opens the first closed
      one, activates it and lets go of any drag.  A window alone then starts at
      (3, 4); two start side by side, so neither covers the other. */
  lemma OpeningPlacesWindows(d: Desktop)
    requires Inv(d)
    ensures Open(d).None? <==> d.open[0] && d.open[1]
    ensures Open(d).Some? ==>
              var (e, i) := Open(d).value;
              && Shaped(e) && i < 2 && !d.open[i] && (i == 1 ==> d.open[0])
              && e.open[i] && e.open[1 - i] == d.open[1 - i] && e.active == i && e.drag == None
              && (!d.open[1 - i] ==> Corner(e, i) == Window(3, 4))
              && (d.open[1 - i] ==> Corner(e, 0) == Window(1, 4) && Corner(e, 1) == Window(41, 4))
              && forall x, y :: !(Occupies(e, 0, x, y) && Occupies(e, 1, x, y))
  {
  }
}
