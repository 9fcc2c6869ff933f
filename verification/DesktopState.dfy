/** The desktop as the driver updates it, field by field, under its lock. */
module DesktopState {
  import opened Prelude
  import opened Desktop

  class DesktopLock {
    const windows: array<Window>
    const open: array<bool>
    const packet: array<byte>
    var packetLen: nat
    var drag: Option<Drag>
    var pointerX: int
    var pointerY: int
    var motionX: int
    var motionY: int
    var buttons: byte
    var active: nat
    // What has been decoded and moved so far.
    ghost var countsX: int
    ghost var countsY: int
    ghost var cellsX: int
    ghost var cellsY: int

    ghost function View(): Desktop
      requires packetLen <= packet.Length
      reads this, windows, open, packet
    {
      Desktop(windows[..], open[..], drag, packet[..packetLen], pointerX, pointerY, motionX, motionY,
              buttons, active, countsX, countsY, cellsX, cellsY)
    }

    ghost predicate Valid()
      reads this, windows, open, packet
    {
      packet.Length == 3 && packetLen < 3 && Inv(View())
    }

    constructor ()
      ensures Valid() && View() == INITIAL
      ensures fresh(windows) && fresh(open) && fresh(packet)
    {
      windows := new Window[2] [Window(3, 4), Window(41, 4)];
      open := new bool[2] [false, false];
      packet := new byte[3] [0, 0, 0];
      packetLen, drag, buttons, active := 0, None, 0, 0;
      pointerX, pointerY, motionX, motionY := 72, 22, 0, 0;
      countsX, countsY, cellsX, cellsY := 0, 0, 0, 0;
      new;
      assert windows[..] == [Window(3, 4), Window(41, 4)];
      assert open[..] == [false, false];
      assert packet[..0] == [];
    }

    method Layout() returns (rects: array<Option<Rect>>)
      requires packetLen <= packet.Length && Shaped(View())
      ensures fresh(rects) && rects.Length == 2
      ensures forall i :: 0 <= i < 2 ==> rects[i] == RectOf(View(), i)
    {
      var count := (if open[0] then 1 else 0) + (if open[1] then 1 else 0);
      var width := if count == 1 then WINDOW_W else HALF_W;
      rects := new Option<Rect>[2](_ => None);
      if count == 1 {
        var index := if open[0] then 0 else 1;
        rects[index] := Some(Rect(Clamp(windows[index].x, 0, SCREEN_W - width), windows[index].y, width));
      } else if count == 2 {
        for index := 0 to 2
          invariant forall i :: 0 <= i < index ==> rects[i] == Some(Rect(windows[i].x, windows[i].y, HALF_W))
          invariant forall i :: index <= i < 2 ==> rects[i] == None
        {
          rects[index] := Some(Rect(windows[index].x, windows[index].y, width));
        }
      }
    }

    /** Add a packet's motion; move by whole cells, keep the remainder. */
    method MovePointer(dx: int, dy: int)
      requires packetLen <= packet.Length
      modifies this`pointerX, this`pointerY, this`motionX, this`motionY,
               this`countsX, this`countsY, this`cellsX, this`cellsY
      ensures View() == Move(old(View()), dx, dy)
    {
      ghost var moved := Move(View(), dx, dy);
      motionX := motionX + dx;
      motionY := motionY + dy;
      var moveX := TruncDiv(motionX, COUNTS_X);
      var moveY := TruncDiv(motionY, COUNTS_Y);
      motionX := TruncMod(motionX, COUNTS_X);
      motionY := TruncMod(motionY, COUNTS_Y);
      pointerX := Clamp(pointerX + moveX, 0, SCREEN_W - 1);
      pointerY := Clamp(pointerY - moveY, 0, SCREEN_H - 1);
      countsX, countsY := countsX + dx, countsY + dy;
      cellsX, cellsY := cellsX + moveX, cellsY + moveY;
      assert motionX == moved.motionX && motionY == moved.motionY;
      assert cellsX == moved.cellsX && cellsY == moved.cellsY;
      assert pointerX == moved.pointerX && pointerY == moved.pointerY;
    }

    method PressButton() returns (request: Option<Request>)
      requires packetLen <= packet.Length && Shaped(View())
      modifies this`drag, this`active
      ensures View() == Press(old(View())).0 && request == Press(old(View())).1
    {
      ghost var start := View();
      var x, y := pointerX, pointerY;
      var rects := Layout();
      drag, request := None, None;
      var candidates := [active, 1 - active];
      var i := 0;
      while i < 2 && !Inside(rects[candidates[i]], x, y)
        invariant 0 <= i <= 2
        invariant forall j :: 0 <= j < i ==> !Inside(rects[candidates[j]], x, y)
      {
        i := i + 1;
      }
      assert candidates[0] == start.active && candidates[1] == Other(start.active);
      assert Hit(start) == if i < 2 then Some(candidates[i]) else None;
      if i < 2 {
        var index := candidates[i];
        var Rect(wx, wy, width) := rects[index].value;
        active := index;
        if y == wy && x >= wx + width - 4 && x < wx + width - 1 {
          request := Some(CloseRequest(index));
        } else if y == wy {
          drag := Some(Drag(index, x - wx, y - wy));
        }
      } else if 3 <= x <= 12 && 1 <= y <= 3 {
        request := Some(OpenRequest);
      }
    }

    method FollowPointer()
      requires packetLen <= packet.Length && Shaped(View())
      modifies windows
      ensures View() == Follow(old(View()))
    {
      if drag.Some? {
        var Drag(index, dx, dy) := drag.value;
        var x := pointerX - dx;
        var y := pointerY - dy;
        var rects := Layout();
        var width := if rects[index].Some? then rects[index].value.width else HALF_W;
        ghost var before := windows[..];
        windows[index] := Window(Clamp(x, 0, SCREEN_W - width), windows[index].y);
        windows[index] := Window(windows[index].x, Clamp(y, 1, SCREEN_H - WINDOW_H - 1));
        assert windows[..] == before[index := windows[index]];
      }
    }

    /** One byte from the mouse; a request goes to the shell's event queue. */
    method AcceptByte(b: byte) returns (request: Option<Request>)
      requires Valid()
      modifies this, windows, packet
      ensures Valid()
      ensures View() == MouseByte(old(View()), b).0 && request == MouseByte(old(View()), b).1
    {
      MouseByteKeepsInv(View(), b);
      request := None;
      if packetLen == 0 && !BitSet(b, 8) {
        return;
      }
      ghost var start := View();
      var len := packetLen;
      packet[len] := b;
      packetLen := packetLen + 1;
      assert packet[..packetLen] == start.packet + [b];
      if packetLen == 3 {
        packetLen := 0;
        assert packet[..0] == [];
        request := TakePacket(packet[0], packet[1], packet[2]);
      }
    }

    /** A complete packet. */
    method TakePacket(flags: byte, x: byte, y: byte) returns (request: Option<Request>)
      requires packetLen <= packet.Length && Shaped(View())
      modifies this, windows
      ensures packetLen == old(packetLen)
      ensures View() == Packet(old(View()), flags, x, y).0 && request == Packet(old(View()), flags, x, y).1
    {
      MovePointer(Delta(x, BitSet(flags, 16)), Delta(y, BitSet(flags, 32)));
      request := None;
      if BitSet(flags, 1) && !BitSet(buttons, 1) {
        request := PressButton();
      }
      if !BitSet(flags, 1) {
        drag := None;
      }
      FollowPointer();
      buttons := flags % 8;
    }

    method CloseTerminal(index: nat)
      requires Valid()
      modifies this, open
      ensures Valid() && View() == Close(old(View()), index)
    {
      OpenCloseKeepInv(View(), index);
      var closed := Min(index, 1);
      ghost var before := open[..];
      drag := None;
      open[closed] := false;
      active := if !open[1 - closed] then closed else 1 - closed;
      assert open[..] == before[closed := false];
    }

    method OpenTerminal() returns (which: Option<nat>)
      requires Valid()
      modifies this, open, windows
      ensures Valid()
      ensures match Open(old(View()))
              case None => which == None && View() == old(View())
              case Some((desktop, index)) => which == Some(index) && View() == desktop
    {
      OpenCloseKeepInv(View(), 0);
      if open[0] && open[1] {
        return None;
      }
      var index := if !open[0] then 0 else 1;
      ghost var before, wasOpen := windows[..], open[..];
      if open[0] || open[1] {
        windows[0], windows[1] := Window(1, 4), Window(41, 4);
        assert windows[..] == [Window(1, 4), Window(41, 4)];
      } else {
        windows[index] := Window(3, 4);
        assert windows[..] == before[index := Window(3, 4)];
      }
      drag := None;
      open[index] := true;
      active := index;
      assert open[..] == wasOpen[index := true];
      return Some(index);
    }
  }
}
