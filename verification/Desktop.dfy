/** Windows, the PS/2 mouse packet stream, and opening and closing terminals. */
module Desktop {
  import opened Prelude

  const SCREEN_W := 80
  const SCREEN_H := 25
  const WINDOW_W := 74
  const HALF_W := 38
  const WINDOW_H := 20
  const COUNTS_X := 8                   // MOUSE_CELLS_PER_COUNT_X
  const COUNTS_Y := 16                  // MOUSE_CELLS_PER_COUNT_Y

  datatype Window = Window(x: int, y: int)

  datatype Drag = Drag(index: nat, dx: int, dy: int)

  datatype Rect = Rect(x: int, y: int, width: int)

  datatype Request = OpenRequest | CloseRequest(index: nat)

  datatype Desktop = Desktop(
    windows: seq<Window>, open: seq<bool>, drag: Option<Drag>,
    packet: seq<byte>,                  // `packet[..packet_len]`
    pointerX: int, pointerY: int, motionX: int, motionY: int,
    buttons: byte, active: nat,
    // History: decoded counts, and whole cells moved before clamping.
    countsX: int, countsY: int, cellsX: int, cellsY: int
  )

  const INITIAL := Desktop([Window(3, 4), Window(41, 4)], [false, false], None, [],
                           72, 22, 0, 0, 0, 0, 0, 0, 0, 0)

  /** Rust's `/` and `%` truncate toward zero. */
  function TruncDiv(a: int, b: int): int
    requires b > 0
  {
    if a >= 0 then a / b else -((-a) / b)
  }

  function TruncMod(a: int, b: int): int
    requires b > 0
  {
    if a >= 0 then a % b else -((-a) % b)
  }

  lemma TruncLaws(a: int, b: int)
    requires b > 0
    ensures a == b * TruncDiv(a, b) + TruncMod(a, b)
    ensures -b < TruncMod(a, b) < b
  {
    if a >= 0 {
      assert a == b * (a / b) + a % b;
    } else {
      assert -a == b * ((-a) / b) + (-a) % b;
      assert b * -((-a) / b) == -(b * ((-a) / b));
    }
  }

  function Other(i: nat): nat
    requires i < 2
  {
    1 - i
  }

  predicate BitSet(b: byte, weight: nat)
    requires weight > 0
  {
    b / weight % 2 == 1
  }

  /** A two-byte movement component: a byte with its sign in the flags. */
  function Delta(b: byte, negative: bool): (d: int)
    ensures -256 <= d <= 255
  {
    b - if negative then 256 else 0
  }

  predicate Shaped(d: Desktop) {
    |d.windows| == 2 && |d.open| == 2 && d.active < 2 && |d.packet| < 3 &&
    (d.drag.Some? ==> d.drag.value.index < 2)
  }

  function OpenCount(d: Desktop): nat
    requires |d.open| == 2
  {
    (if d.open[0] then 1 else 0) + (if d.open[1] then 1 else 0)
  }

  /** `layout`, for one window. */
  function RectOf(d: Desktop, index: nat): Option<Rect>
    requires Shaped(d) && index < 2
  {
    if !d.open[index] then None
    else if OpenCount(d) == 1 then
      Some(Rect(Clamp(d.windows[index].x, 0, SCREEN_W - WINDOW_W), d.windows[index].y, WINDOW_W))
    else
      Some(Rect(d.windows[index].x, d.windows[index].y, HALF_W))
  }

  predicate Inside(r: Option<Rect>, x: int, y: int) {
    r.Some? && r.value.x <= x < r.value.x + r.value.width && r.value.y <= y < r.value.y + WINDOW_H
  }

  /** The window under the pointer, the active one first. */
  function Hit(d: Desktop): Option<nat>
    requires Shaped(d)
  {
    if Inside(RectOf(d, d.active), d.pointerX, d.pointerY) then Some(d.active)
    else if Inside(RectOf(d, Other(d.active)), d.pointerX, d.pointerY) then Some(Other(d.active))
    else None
  }

  /** The left button goes down. */
  function Press(d: Desktop): (r: (Desktop, Option<Request>))
    requires Shaped(d)
    ensures r.0 == d.(drag := r.0.drag, active := r.0.active)
    ensures Shaped(r.0)
  {
    var x, y := d.pointerX, d.pointerY;
    var hit := Hit(d);
    if hit.Some? then
      var r := RectOf(d, hit.value).value;
      var focused := d.(drag := None, active := hit.value);
      if y == r.y && r.x + r.width - 4 <= x < r.x + r.width - 1 then (focused, Some(CloseRequest(hit.value)))
      else if y == r.y then (focused.(drag := Some(Drag(hit.value, x - r.x, y - r.y))), None)
      else (focused, None)
    else if 3 <= x <= 12 && 1 <= y <= 3 then (d.(drag := None), Some(OpenRequest))
    else (d.(drag := None), None)
  }

  /** A held title bar follows the pointer. */
  function Follow(d: Desktop): (r: Desktop)
    requires Shaped(d)
    ensures r == d.(windows := r.windows)
  {
    if d.drag.None? then d
    else
      var Drag(index, dx, dy) := d.drag.value;
      var rect := RectOf(d, index);
      var width := if rect.Some? then rect.value.width else HALF_W;
      d.(windows := d.windows[index :=
           Window(Clamp(d.pointerX - dx, 0, SCREEN_W - width), Clamp(d.pointerY - dy, 1, SCREEN_H - WINDOW_H - 1))])
  }

  /** Accumulate motion and move the pointer by whole cells. */
  function Move(d: Desktop, dx: int, dy: int): Desktop {
    var mx, my := d.motionX + dx, d.motionY + dy;
    var cx, cy := TruncDiv(mx, COUNTS_X), TruncDiv(my, COUNTS_Y);
    d.(motionX := TruncMod(mx, COUNTS_X), motionY := TruncMod(my, COUNTS_Y),
       pointerX := Clamp(d.pointerX + cx, 0, SCREEN_W - 1),
       pointerY := Clamp(d.pointerY - cy, 0, SCREEN_H - 1),
       countsX := d.countsX + dx, countsY := d.countsY + dy,
       cellsX := d.cellsX + cx, cellsY := d.cellsY + cy)
  }

  /** A complete packet, up to the drag: move, then press or release. */
  function Clicked(d: Desktop, flags: byte, x: byte, y: byte): (r: (Desktop, Option<Request>))
    requires Shaped(d)
    ensures Shaped(r.0)
  {
    var moved := Move(d, Delta(x, BitSet(flags, 16)), Delta(y, BitSet(flags, 32)));
    var pressed := BitSet(flags, 1) && !BitSet(d.buttons, 1);
    var (clicked, request) := if pressed then Press(moved) else (moved, None);
    (if BitSet(flags, 1) then clicked else clicked.(drag := None), request)
  }

  /** A complete packet. */
  function Packet(d: Desktop, flags: byte, x: byte, y: byte): (Desktop, Option<Request>)
    requires Shaped(d)
  {
    var (held, request) := Clicked(d, flags, x, y);
    (Follow(held).(buttons := flags % 8), request)
  }

  /** `mouse_byte`. */
  function MouseByte(d: Desktop, b: byte): (Desktop, Option<Request>)
    requires Shaped(d)
  {
    if d.packet == [] && !BitSet(b, 8) then (d, None)
    else if |d.packet| < 2 then (d.(packet := d.packet + [b]), None)
    else Packet(d.(packet := []), d.packet[0], d.packet[1], b)
  }

  /** `close_terminal`. */
  function Close(d: Desktop, index: nat): Desktop
    requires Shaped(d)
  {
    var closed := Min(index, 1);
    d.(drag := None, open := d.open[closed := false],
       active := if d.open[Other(closed)] then Other(closed) else closed)
  }

  /** `open_terminal`; None when both are open. */
  function Open(d: Desktop): Option<(Desktop, nat)>
    requires Shaped(d)
  {
    if d.open[0] && d.open[1] then None
    else
      var index := if !d.open[0] then 0 else 1;
      var windows := if d.open[0] || d.open[1] then [Window(1, 4), Window(41, 4)]
                     else d.windows[index := Window(3, 4)];
      Some((d.(windows := windows, drag := None, open := d.open[index := true], active := index), index))
  }

  /** The width given to a terminal by `sync_terminal_widths`. */
  function Columns(d: Desktop, index: nat): nat
    requires Shaped(d) && index < 2
  {
    var rect := RectOf(d, index);
    if rect.None? then 76 else if OpenCount(d) == 1 then WINDOW_W - 2 else HALF_W - 2
  }

  // ---------------------------------------------------------------------
  // Invariant

  predicate WindowOk(w: Window) {
    0 <= w.x <= SCREEN_W - HALF_W && 1 <= w.y <= SCREEN_H - WINDOW_H - 1
  }

  predicate Inv(d: Desktop) {
    && Shaped(d)
    && WindowOk(d.windows[0]) && WindowOk(d.windows[1])
    && (d.open[0] || d.open[1] ==> d.open[d.active])
    && (d.drag.Some? ==> d.open[d.drag.value.index] && 0 <= d.drag.value.dx < WINDOW_W && d.drag.value.dy == 0)
    && 0 <= d.pointerX < SCREEN_W && 0 <= d.pointerY < SCREEN_H
    && -COUNTS_X < d.motionX < COUNTS_X && -COUNTS_Y < d.motionY < COUNTS_Y
    && d.countsX == COUNTS_X * d.cellsX + d.motionX
    && d.countsY == COUNTS_Y * d.cellsY + d.motionY
  }

  lemma InitialInv()
    ensures Inv(INITIAL)
  {
  }

  lemma MoveKeepsInv(d: Desktop, dx: int, dy: int)
    requires Inv(d)
    ensures Inv(Move(d, dx, dy))
  {
    TruncLaws(d.motionX + dx, COUNTS_X);
    TruncLaws(d.motionY + dy, COUNTS_Y);
  }

  lemma PressKeepsInv(d: Desktop)
    requires Inv(d)
    ensures Inv(Press(d).0)
    ensures var request := Press(d).1;
            request.Some? && request.value.CloseRequest? ==> request.value.index < 2 && d.open[request.value.index]
  {
  }

  lemma FollowKeepsInv(d: Desktop)
    requires Inv(d)
    ensures Inv(Follow(d))
  {
  }

  lemma ClickedKeepsInv(d: Desktop, flags: byte, x: byte, y: byte)
    requires Inv(d)
    ensures Inv(Clicked(d, flags, x, y).0)
  {
    var moved := Move(d, Delta(x, BitSet(flags, 16)), Delta(y, BitSet(flags, 32)));
    MoveKeepsInv(d, Delta(x, BitSet(flags, 16)), Delta(y, BitSet(flags, 32)));
    PressKeepsInv(moved);
  }

  lemma PacketKeepsInv(d: Desktop, flags: byte, x: byte, y: byte)
    requires Inv(d)
    ensures Inv(Packet(d, flags, x, y).0)
  {
    ClickedKeepsInv(d, flags, x, y);
    FollowKeepsInv(Clicked(d, flags, x, y).0);
  }

  lemma MouseByteKeepsInv(d: Desktop, b: byte)
    requires Inv(d)
    ensures Inv(MouseByte(d, b).0)
    ensures MouseByte(d, b).0.open == d.open
  {
    if |d.packet| == 2 {
      PacketKeepsInv(d.(packet := []), d.packet[0], d.packet[1], b);
    }
  }

  lemma OpenCloseKeepInv(d: Desktop, index: nat)
    requires Inv(d)
    ensures Inv(Close(d, index))
    ensures Open(d).Some? ==> Inv(Open(d).value.0)
  {
  }

  // ---------------------------------------------------------------------
  // Runs

  datatype Event = Mouse(b: byte) | OpenNext | CloseAt(index: nat)

  function Apply(d: Desktop, e: Event): (r: Desktop)
    requires Inv(d)
    ensures Inv(r)
  {
    match e
    case Mouse(b) => MouseByteKeepsInv(d, b); MouseByte(d, b).0
    case OpenNext => OpenCloseKeepInv(d, 0); if Open(d).Some? then Open(d).value.0 else d
    case CloseAt(index) => OpenCloseKeepInv(d, index); Close(d, index)
  }

  function Run(d: Desktop, events: seq<Event>): (r: Desktop)
    requires Inv(d)
    ensures Inv(r)
    decreases |events|
  {
    if events == [] then d else Run(Apply(d, events[0]), events[1..])
  }

  /** In every reachable desktop each rectangle fits the screen between the
      two bars, a drag names an open window, and some window being open means
      the active one is. */
  lemma EveryLayoutFits(events: seq<Event>)
    ensures Inv(INITIAL)
    ensures var d := Run(INITIAL, events);
            && Shaped(d)
            && (forall i :: 0 <= i < 2 ==> 0 <= d.windows[i].x <= 42 && 1 <= d.windows[i].y <= 4)
            && (forall i :: 0 <= i < 2 && RectOf(d, i).Some? ==>
                  var r := RectOf(d, i).value;
                  && 0 <= r.x && r.x + r.width <= SCREEN_W
                  && 1 <= r.y && r.y + WINDOW_H <= SCREEN_H - 1)
            && (d.drag.Some? ==> RectOf(d, d.drag.value.index).Some?)
            && (d.open[0] || d.open[1] ==> RectOf(d, d.active).Some?)
            && 0 <= d.pointerX < SCREEN_W && 0 <= d.pointerY < SCREEN_H
  {
    InitialInv();
    var d := Run(INITIAL, events);
    assert WindowOk(d.windows[0]) && WindowOk(d.windows[1]);
  }

  // ---------------------------------------------------------------------
  // The packet stream

  datatype MousePacket = MousePacket(flags: byte, x: byte, y: byte)

  /** Cut a byte stream into packets: skip bytes without the sync bit, then
      take three. */
  function Packets(stream: Bytes): seq<MousePacket> {
    if stream == [] then []
    else if !BitSet(stream[0], 8) then Packets(stream[1..])
    else if |stream| < 3 then []
    else [MousePacket(stream[0], stream[1], stream[2])] + Packets(stream[3..])
  }

  function SumX(packets: seq<MousePacket>): int {
    if packets == [] then 0 else Delta(packets[0].x, BitSet(packets[0].flags, 16)) + SumX(packets[1..])
  }

  function SumY(packets: seq<MousePacket>): int {
    if packets == [] then 0 else Delta(packets[0].y, BitSet(packets[0].flags, 32)) + SumY(packets[1..])
  }

  function MouseBytes(events: seq<Event>): Bytes {
    if events == [] then []
    else (if events[0].Mouse? then [events[0].b] else []) + MouseBytes(events[1..])
  }

  /** A packet under way began with the sync bit. */
  predicate Synced(d: Desktop) {
    d.packet != [] ==> BitSet(d.packet[0], 8)
  }

  /** The counts so far, and those of the packets still in a stream. */
  function Counted(d: Desktop, stream: Bytes): (int, int) {
    (d.countsX + SumX(Packets(d.packet + stream)), d.countsY + SumY(Packets(d.packet + stream)))
  }

  lemma PacketIsCounted(d: Desktop, flags: byte, x: byte, y: byte)
    requires Shaped(d)
    ensures var e := Packet(d, flags, x, y).0;
            && e.packet == d.packet
            && e.countsX == d.countsX + Delta(x, BitSet(flags, 16))
            && e.countsY == d.countsY + Delta(y, BitSet(flags, 32))
  {
  }

  lemma FirstPacket(stream: Bytes)
    requires |stream| >= 3 && BitSet(stream[0], 8)
    ensures SumX(Packets(stream)) == Delta(stream[1], BitSet(stream[0], 16)) + SumX(Packets(stream[3..]))
    ensures SumY(Packets(stream)) == Delta(stream[2], BitSet(stream[0], 32)) + SumY(Packets(stream[3..]))
  {
    var p := MousePacket(stream[0], stream[1], stream[2]);
    assert ([p] + Packets(stream[3..]))[1..] == Packets(stream[3..]);
  }

  lemma ByteIsCounted(d: Desktop, b: byte, rest: Bytes)
    requires Shaped(d) && Synced(d)
    ensures var e := MouseByte(d, b).0; Synced(e) && Counted(e, rest) == Counted(d, [b] + rest)
  {
    if d.packet == [] && !BitSet(b, 8) {
      NoiseIsSkipped(b, rest);
    } else if |d.packet| < 2 {
      assert d.packet + [b] + rest == d.packet + ([b] + rest);
    } else {
      LastByteIsCounted(d, b, rest);
    }
  }

  lemma NoiseIsSkipped(b: byte, rest: Bytes)
    requires !BitSet(b, 8)
    ensures Packets([] + ([b] + rest)) == Packets([] + rest)
  {
    assert [] + ([b] + rest) == [b] + rest && ([b] + rest)[1..] == rest && [] + rest == rest;
  }

  lemma LastByteIsCounted(d: Desktop, b: byte, rest: Bytes)
    requires Shaped(d) && Synced(d) && |d.packet| == 2
    ensures Counted(Packet(d.(packet := []), d.packet[0], d.packet[1], b).0, rest) == Counted(d, [b] + rest)
  {
    var stream := d.packet + ([b] + rest);
    assert stream[0] == d.packet[0] && stream[1] == d.packet[1] && stream[2] == b;
    assert stream[3..] == rest == [] + rest;
    FirstPacket(stream);
    PacketIsCounted(d.(packet := []), d.packet[0], d.packet[1], b);
  }

  lemma EventIsCounted(d: Desktop, e: Event, rest: Bytes)
    requires Inv(d) && Synced(d)
    ensures Synced(Apply(d, e))
    ensures Counted(Apply(d, e), rest) == Counted(d, (if e.Mouse? then [e.b] else []) + rest)
  {
    if e.Mouse? {
      ByteIsCounted(d, e.b, rest);
    } else {
      assert [] + rest == rest;
    }
  }

  lemma {:induction false} RunIsCounted(d: Desktop, events: seq<Event>)
    requires Inv(d) && Synced(d)
    ensures Synced(Run(d, events))
    ensures Counted(Run(d, events), []) == Counted(d, MouseBytes(events))
    decreases |events|
  {
    if events != [] {
      EventIsCounted(d, events[0], MouseBytes(events[1..]));
      RunIsCounted(Apply(d, events[0]), events[1..]);
    }
  }

  /** A packet under way counts for nothing yet. */
  lemma PartialCountsNothing(d: Desktop)
    requires Shaped(d) && Synced(d)
    ensures Counted(d, []) == (d.countsX, d.countsY)
  {
    assert d.packet + [] == d.packet;
    assert d.packet == [] || BitSet(d.packet[0], 8);
  }

  /** Sub-cell motion is never lost: over every byte stream, however opening
      and closing interleave with it, the sum of the deltas of its packets is
      the whole cells moved times the scale, plus a remainder below it. */
  lemma MotionIsConserved(events: seq<Event>)
    ensures Inv(INITIAL)
    ensures var d, packets := Run(INITIAL, events), Packets(MouseBytes(events));
            && SumX(packets) == COUNTS_X * d.cellsX + d.motionX && -COUNTS_X < d.motionX < COUNTS_X
            && SumY(packets) == COUNTS_Y * d.cellsY + d.motionY && -COUNTS_Y < d.motionY < COUNTS_Y
  {
    InitialInv();
    RunIsCounted(INITIAL, events);
    PartialCountsNothing(Run(INITIAL, events));
    assert [] + MouseBytes(events) == MouseBytes(events);
  }

  /** The pointer moves by the cells counted, clamped to the screen; only the
      vertical axis is flipped. */
  lemma PointerFollowsCells(d: Desktop, b: byte)
    requires Inv(d)
    ensures var e := MouseByte(d, b).0;
            && e.pointerX == Clamp(d.pointerX + (e.cellsX - d.cellsX), 0, SCREEN_W - 1)
            && e.pointerY == Clamp(d.pointerY - (e.cellsY - d.cellsY), 0, SCREEN_H - 1)
  {
    if |d.packet| == 2 {
      PacketMovesPointer(d.(packet := []), d.packet[0], d.packet[1], b);
    }
  }

  lemma PacketMovesPointer(d: Desktop, flags: byte, x: byte, y: byte)
    requires Shaped(d)
    ensures var e, m := Packet(d, flags, x, y).0, Move(d, Delta(x, BitSet(flags, 16)), Delta(y, BitSet(flags, 32)));
            && e.pointerX == m.pointerX && e.pointerY == m.pointerY
            && e.cellsX == m.cellsX && e.cellsY == m.cellsY
  {
  }

  predicate IsI16(n: int) {
    -0x8000 <= n < 0x8000
  }

  /** Every intermediate value of a packet fits an `i16`: the deltas, the sums,
      the pointer before clamping, the grip of a new drag, and the corner of a
      dragged window, both taken after the pointer has moved. */
  lemma NoOverflow(d: Desktop, flags: byte, x: byte, y: byte)
    requires Inv(d)
    ensures var dx, dy := Delta(x, BitSet(flags, 16)), Delta(y, BitSet(flags, 32));
            && IsI16(dx) && IsI16(dy) && IsI16(d.motionX + dx) && IsI16(d.motionY + dy)
            && IsI16(d.pointerX + TruncDiv(d.motionX + dx, COUNTS_X))
            && IsI16(d.pointerY - TruncDiv(d.motionY + dy, COUNTS_Y))
    ensures var moved := Move(d, Delta(x, BitSet(flags, 16)), Delta(y, BitSet(flags, 32)));
            forall i :: 0 <= i < 2 && RectOf(moved, i).Some? ==>
              var r := RectOf(moved, i).value; IsI16(moved.pointerX - r.x) && IsI16(moved.pointerY - r.y) && IsI16(r.x + r.width)
    ensures var held := Clicked(d, flags, x, y).0;
            held.drag.Some? ==>
              IsI16(held.pointerX - held.drag.value.dx) && IsI16(held.pointerY - held.drag.value.dy)
  {
    TruncLaws(d.motionX + Delta(x, BitSet(flags, 16)), COUNTS_X);
    TruncLaws(d.motionY + Delta(y, BitSet(flags, 32)), COUNTS_Y);
    ClickedKeepsInv(d, flags, x, y);
    MoveKeepsInv(d, Delta(x, BitSet(flags, 16)), Delta(y, BitSet(flags, 32)));
  }
}
