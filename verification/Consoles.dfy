/** Both terminals under the desktop: the event loop of `run_shell`.  Each
    handler is one step. */
module Consoles {
  import opened Prelude
  import opened Cursor
  import opened Terminal
  import opened Painting
  import LineEditor
  import History
  import opened Completion
  import opened Shell
  import Desktop

  datatype System = System(
    desktop: Desktop.Desktop,
    terms: seq<Term>,                   // TERMINALS
    shells: seq<Option<Shell>>
  )

  const START := System(Desktop.INITIAL, [Fresh(), Fresh()], [None, None])

  datatype Event =
    | Press(key: Key, output: seq<Op>)    // any key but Ctrl+C and Ctrl+Q
    | OpenKey(banner: seq<Op>)            // Ctrl+Q, or the desktop icon
    | CloseKey                            // Ctrl+C
    | CloseClick(index: nat)              // the [x] of a title bar
    | Lost(output: seq<Op>)               // the scancode queue overflowed
    | MouseByte(b: byte)

  predicate Shaped(s: System) {
    Desktop.Shaped(s.desktop) && |s.terms| == 2 && |s.shells| == 2
  }

  /** `sync_terminal_widths`: widths change, cursors do not. */
  function Synced(s: System): System
    requires Shaped(s)
  {
    s.(terms := [SetColumns(s.terms[0], Desktop.Columns(s.desktop, 0)),
                 SetColumns(s.terms[1], Desktop.Columns(s.desktop, 1))])
  }

  function Replace(s: System, index: nat, c: Console): System
    requires Shaped(s) && index < 2
  {
    s.(terms := s.terms[index := c.term], shells := s.shells[index := Some(c.shell)])
  }

  /** `reset_for_resize` on one terminal, if it is open and not just created. */
  function Reset(s: System, index: nat, created: Option<nat>): System
    requires Shaped(s) && index < 2
  {
    if s.desktop.open[index] && created != Some(index) && s.shells[index].Some? then
      Replace(s, index, Prompted(Clear(s.terms[index]), s.shells[index].value.history))
    else
      s
  }

  /** `resize_open_shells`. */
  function Resized(s: System, created: Option<nat>): System
    requires Shaped(s)
  {
    Reset(Reset(s, 0, created), 1, created)
  }

  function Closed(s: System, index: nat): System
    requires Shaped(s)
  {
    Resized(Synced(s.(desktop := Desktop.Close(s.desktop, index))), None)
  }

  /** `Shell::new` on a terminal that has none yet. */
  function Created(s: System, index: nat, banner: seq<Op>): System
    requires Shaped(s) && index < 2
  {
    Replace(s, index, Prompted(Print(Clear(s.terms[index]), banner), History.NO_HISTORY))
  }

  function Opened(s: System, banner: seq<Op>): System
    requires Shaped(s)
  {
    var result := Desktop.Open(s.desktop);
    if result.None? then s
    else
      var (desktop, index) := result.value;
      var wide := Synced(s.(desktop := desktop));
      if wide.shells[index].None? then Resized(Created(wide, index, banner), Some(index))
      else Resized(wide, None)
  }

  // ---------------------------------------------------------------------
  // Invariant

  /** An open terminal shows its shell's line; a closed one only keeps history. */
  ghost predicate TerminalInv(s: System, i: nat)
    requires Shaped(s) && i < 2
  {
    && s.terms[i].faults == 0 && 1 <= s.terms[i].columns <= WIDTH
    && (s.shells[i].Some? ==> History.HistoryOk(s.shells[i].value.history))
    && (s.desktop.open[i] ==>
          && s.shells[i].Some?
          && s.terms[i].columns == Desktop.Columns(s.desktop, i)
          && ConsoleInv(Console(s.terms[i], s.shells[i].value)))
  }

  ghost predicate Inv(s: System) {
    Shaped(s) && Desktop.Inv(s.desktop) && TerminalInv(s, 0) && TerminalInv(s, 1)
  }

  /** What survives a change of width: everything but the pictures. */
  ghost predicate Stale(s: System, i: nat)
    requires Shaped(s) && i < 2
  {
    && s.terms[i].faults == 0
    && (s.shells[i].Some? ==> History.HistoryOk(s.shells[i].value.history))
    && s.terms[i].columns == Desktop.Columns(s.desktop, i)
  }

  lemma ColumnsAreWide(d: Desktop.Desktop, i: nat)
    requires Desktop.Shaped(d) && i < 2
    ensures MIN_COLUMNS <= Desktop.Columns(d, i) <= WIDTH
  {
  }

  /** Setting widths never trips the assertion in `set_columns`. */
  lemma SyncedIsStale(s: System, desktop: Desktop.Desktop, i: nat)
    requires Inv(s) && Desktop.Shaped(desktop) && i < 2
    ensures Shaped(s.(desktop := desktop)) && Stale(Synced(s.(desktop := desktop)), i)
  {
    ColumnsAreWide(desktop, 0);
    ColumnsAreWide(desktop, 1);
    assert TerminalInv(s, 0) && TerminalInv(s, 1);
  }

  /** Clearing a stale terminal restores the invariant. */
  lemma ResetRestores(s: System, i: nat)
    requires Shaped(s) && i < 2 && Stale(s, i) && s.shells[i].Some?
    ensures TerminalInv(Replace(s, i, Prompted(Clear(s.terms[i]), s.shells[i].value.history)), i)
  {
    ColumnsAreWide(s.desktop, i);
    assert Print(Clear(s.terms[i]), []) == Clear(s.terms[i]);
    ClearedInv(s.terms[i], [], s.shells[i].value.history);
  }

  lemma ResetFacts(s: System, index: nat, created: Option<nat>, i: nat)
    requires Shaped(s) && index < 2 && i < 2
    ensures var t := Reset(s, index, created);
            && Shaped(t) && t.desktop == s.desktop
            && (i != index ==> t.terms[i] == s.terms[i] && t.shells[i] == s.shells[i])
            && (created == Some(i) ==> t.terms[i] == s.terms[i] && t.shells[i] == s.shells[i])
            && (!s.desktop.open[i] ==> t.terms[i] == s.terms[i] && t.shells[i] == s.shells[i])
  {
  }

  lemma ResetOne(s: System, index: nat, created: Option<nat>)
    requires Shaped(s) && index < 2
    requires Stale(s, index) && (s.desktop.open[index] ==> s.shells[index].Some?)
    requires created == Some(index) ==> TerminalInv(s, index)
    ensures Shaped(Reset(s, index, created)) && TerminalInv(Reset(s, index, created), index)
  {
    if s.desktop.open[index] && created != Some(index) {
      ResetRestores(s, index);
    } else {
      ColumnsAreWide(s.desktop, index);
    }
  }

  lemma ResizedInv(s: System, created: Option<nat>)
    requires Shaped(s) && Desktop.Inv(s.desktop) && Stale(s, 0) && Stale(s, 1)
    requires forall i :: 0 <= i < 2 && s.desktop.open[i] ==> s.shells[i].Some?
    requires created.Some? ==> created.value < 2 && TerminalInv(s, created.value)
    ensures Inv(Resized(s, created))
  {
    var t := Reset(s, 0, created);
    ResetFacts(s, 0, created, 0);
    ResetFacts(s, 0, created, 1);
    ResetOne(s, 0, created);
    var u := Reset(t, 1, created);
    ResetFacts(t, 1, created, 0);
    ResetFacts(t, 1, created, 1);
    ResetOne(t, 1, created);
  }

  lemma ClosedKeepsInv(s: System, index: nat)
    requires Inv(s)
    ensures Inv(Closed(s, index))
  {
    var desktop := Desktop.Close(s.desktop, index);
    Desktop.OpenCloseKeepInv(s.desktop, index);
    SyncedIsStale(s, desktop, 0);
    SyncedIsStale(s, desktop, 1);
    ResizedInv(Synced(s.(desktop := desktop)), None);
  }

  lemma CreatedInv(s: System, index: nat, banner: seq<Op>)
    requires Shaped(s) && index < 2 && Stale(s, index) && s.desktop.open[index] && Clean(banner)
    ensures TerminalInv(Created(s, index, banner), index) && Stale(Created(s, index, banner), index)
  {
    ColumnsAreWide(s.desktop, index);
    ClearedInv(s.terms[index], banner, History.NO_HISTORY);
  }

  lemma OpenedKeepsInv(s: System, banner: seq<Op>)
    requires Inv(s) && Clean(banner)
    ensures Inv(Opened(s, banner))
  {
    var result := Desktop.Open(s.desktop);
    if result.Some? {
      var (desktop, index) := result.value;
      Desktop.OpenCloseKeepInv(s.desktop, 0);
      SyncedIsStale(s, desktop, 0);
      SyncedIsStale(s, desktop, 1);
      var wide := Synced(s.(desktop := desktop));
      assert TerminalInv(s, 0) && TerminalInv(s, 1);
      if wide.shells[index].None? {
        CreatedInv(wide, index, banner);
        ResizedInv(Created(wide, index, banner), Some(index));
      } else {
        ResizedInv(wide, None);
      }
    }
  }

  /** A handler that acts on the active, open terminal. */
  predicate Focused(s: System)
    requires Shaped(s)
  {
    s.desktop.open[s.desktop.active] && s.shells[s.desktop.active].Some?
  }

  function Active(s: System): Console
    requires Shaped(s) && Focused(s)
  {
    Console(s.terms[s.desktop.active], s.shells[s.desktop.active].value)
  }

  lemma ReplaceKeepsInv(s: System, c: Console)
    requires Inv(s) && Focused(s) && Kept(Active(s), c)
    ensures Inv(Replace(s, s.desktop.active, c))
  {
    assert TerminalInv(s, s.desktop.active) && TerminalInv(s, 1 - s.desktop.active);
  }

  lemma MouseKeepsInv(s: System, b: byte)
    requires Inv(s)
    ensures Inv(s.(desktop := Desktop.MouseByte(s.desktop, b).0))
  {
    Desktop.MouseByteKeepsInv(s.desktop, b);
    var d := Desktop.MouseByte(s.desktop, b).0;
    assert Desktop.Columns(d, 0) == Desktop.Columns(s.desktop, 0);
    assert Desktop.Columns(d, 1) == Desktop.Columns(s.desktop, 1);
  }

  predicate EventOk(e: Event) {
    match e
    case Press(_, output) => Clean(output)
    case OpenKey(banner) => Clean(banner)
    case Lost(output) => Clean(output)
    case _ => true
  }

  /** One event, as handled by the loop of `run_shell`. */
  ghost function Handle(s: System, e: Event, names: seq<Bytes>): (t: System)
    requires Inv(s) && EventOk(e) && Printables(names)
    ensures Inv(t)
  {
    match e
    case Press(key, output) =>
      if Focused(s) then
        ActiveInv(s);
        HandleKeyKeepsInv(Active(s), key, names, output);
        ReplaceKeepsInv(s, HandleKey(Active(s), key, names, output));
        Replace(s, s.desktop.active, HandleKey(Active(s), key, names, output))
      else s
    case OpenKey(banner) => OpenedKeepsInv(s, banner); Opened(s, banner)
    case CloseKey =>
      if s.desktop.open[s.desktop.active] then
        ClosedKeepsInv(s, s.desktop.active);
        Closed(s, s.desktop.active)
      else s
    case CloseClick(index) => ClosedKeepsInv(s, index); Closed(s, index)
    case Lost(output) =>
      if Focused(s) then
        ActiveInv(s);
        InputLostKeepsInv(Active(s), output);
        ReplaceKeepsInv(s, InputLost(Active(s), output));
        Replace(s, s.desktop.active, InputLost(Active(s), output))
      else s
    case MouseByte(b) => MouseKeepsInv(s, b); s.(desktop := Desktop.MouseByte(s.desktop, b).0)
  }

  lemma ActiveInv(s: System)
    requires Inv(s) && Focused(s)
    ensures ConsoleInv(Active(s))
  {
    assert TerminalInv(s, s.desktop.active);
  }

  lemma StartInv()
    ensures Inv(START)
  {
    Desktop.InitialInv();
  }

  ghost function Run(s: System, events: seq<Event>, names: seq<Bytes>): (t: System)
    requires Inv(s) && Printables(names) && forall i :: 0 <= i < |events| ==> EventOk(events[i])
    ensures Inv(t)
    decreases |events|
  {
    if events == [] then s else Run(Handle(s, events[0], names), events[1..], names)
  }

  /** Over every run of key, open, close, mouse and overflow events: no
      assertion of the console ever fails and no byte is ever written to the
      right of the last column, although widths change under the cursor; on
      every open terminal the input is on screen, its anchor at most seven
      lines above the last line, and the cursor within the width. */
  lemma NoFaultInAnyRun(events: seq<Event>, names: seq<Bytes>)
    requires Printables(names) && forall i :: 0 <= i < |events| ==> EventOk(events[i])
    ensures Inv(START)
    ensures var s := Run(START, events, names);
            && Shaped(s) && s.terms[0].faults == 0 && s.terms[1].faults == 0
            && Displayed(s, 0) && Displayed(s, 1)
  {
    StartInv();
    var s := Run(START, events, names);
    OpenIsDisplayed(s, 0);
    OpenIsDisplayed(s, 1);
  }

  /** An open terminal has the width of its window, shows the prompt before the
      anchor and its shell's line from there on, and keeps view and cursor on rows that the ring holds. */
  ghost predicate Displayed(s: System, i: nat)
    requires Shaped(s) && i < 2
  {
    s.desktop.open[i] ==>
      && s.shells[i].Some?
      && s.terms[i].columns == Desktop.Columns(s.desktop, i)
      && OnScreen(Console(s.terms[i], s.shells[i].value))
  }

  ghost predicate OnScreen(c: Console) {
    var t, sh := c.term, c.shell;
    && Sound(t)
    && t.cursor.column <= t.columns
    && FirstLine(t) <= t.viewTop <= LiveTop(t)
    && FirstLine(t) <= t.cursor.line <= LastLine(t)
    && FirstLine(t) <= sh.anchor.line && LastLine(t) - sh.anchor.line <= REACH
    && sh.anchor.column == PROMPT_WIDTH && PromptShown(t, sh.anchor)
    && InputShown(t, sh.anchor, sh.line.text)
  }

  lemma OpenIsDisplayed(s: System, i: nat)
    requires Shaped(s) && i < 2 && TerminalInv(s, i)
    ensures s.terms[i].faults == 0 && Displayed(s, i)
  {
    if s.desktop.open[i] {
      InvIsOnScreen(Console(s.terms[i], s.shells[i].value));
    }
  }

  lemma InvIsOnScreen(c: Console)
    requires ConsoleInv(c)
    ensures OnScreen(c)
  {
    OffsetIsSteps(c.shell.anchor, c.shell.line.cursor, c.term.columns);
    OffsetAddress(c.shell.anchor, c.shell.line.cursor, c.term.columns);
  }

  /** In particular with the command table of the source. */
  lemma NoFaultWithTheCommandTable(events: seq<Event>)
    requires EventsOk(events)
    ensures Inv(START) && Printables(Names(Commands()))
    ensures var s := Run(START, events, Names(Commands()));
            && Shaped(s) && s.terms[0].faults == 0 && s.terms[1].faults == 0
            && Displayed(s, 0) && Displayed(s, 1)
  {
    CommandTableIsOk();
    NoFaultInAnyRun(events, Names(Commands()));
  }

  // ---------------------------------------------------------------------
  // The widths really do shrink under the cursor

  predicate EventsOk(events: seq<Event>) {
    forall i :: 0 <= i < |events| ==> EventOk(events[i])
  }

  lemma {:induction false} RunSnoc(s: System, events: seq<Event>, e: Event, names: seq<Bytes>)
    requires Inv(s) && Printables(names) && EventsOk(events) && EventOk(e)
    ensures EventsOk(events + [e])
    ensures Run(s, events + [e], names) == Handle(Run(s, events, names), e, names)
    decreases |events|
  {
    if events == [] {
      assert [] + [e] == [e] && [e][1..] == [];
    } else {
      assert (events + [e])[1..] == events[1..] + [e];
      RunSnoc(Handle(s, events[0], names), events[1..], e, names);
    }
  }

  /** Only the first terminal is open, with `n` bytes typed. */
  predicate Typed(s: System, n: nat) {
    && |s.shells| == 2 && s.desktop.open == [true, false] && s.desktop.active == 0 && s.shells[0].Some?
    && |s.shells[0].value.line.text| == n && s.shells[0].value.line.cursor == n
  }

  const LETTER := Press(Unicode(97), [])

  lemma CreatedIsEmpty(s: System, index: nat, banner: seq<Op>)
    requires Shaped(s) && index < 2
    ensures var t := Created(s, index, banner);
            && Shaped(t) && t.desktop == s.desktop
            && t.shells[index].Some? && t.shells[index].value.line == LineEditor.EMPTY
  {
  }

  lemma ResizedSpares(s: System, index: nat)
    requires Shaped(s) && index < 2
    ensures var t := Resized(s, Some(index)); t.desktop == s.desktop && |t.shells| == 2 && t.shells[index] == s.shells[index]
  {
    ResetFacts(s, 0, Some(index), index);
    ResetFacts(Reset(s, 0, Some(index)), 1, Some(index), index);
  }

  lemma OpeningStarts()
    ensures Typed(Opened(START, []), 0)
  {
    var desktop := Desktop.Open(START.desktop).value.0;
    assert Desktop.Open(START.desktop) == Some((desktop, 0)) && desktop.open == [true, false] && desktop.active == 0;
    var wide := Synced(START.(desktop := desktop));
    CreatedIsEmpty(wide, 0, []);
    ResizedSpares(Created(wide, 0, []), 0);
  }

  lemma LetterIsInserted(c: Console)
    requires c.term.log != [] && c.shell.line.cursor <= |c.shell.line.text| && History.BrowsingOk(c.shell.history)
    ensures HandleKey(c, Unicode(97), [], []).shell.line == LineEditor.Insert(c.shell.line, 97)
  {
    assert Decode(Unicode(97)) == Edit(LineEditor.Type(97));
  }

  lemma LetterIsTyped(s: System, n: nat)
    requires Inv(s) && Typed(s, n) && n < LineEditor.MAX_INPUT
    ensures Typed(Handle(s, LETTER, []), n + 1)
  {
    ActiveInv(s);
    LetterIsInserted(Active(s));
    assert Handle(s, LETTER, []) == Replace(s, 0, HandleKey(Active(s), Unicode(97), [], []));
  }

  lemma {:induction false} TypingReaches(n: nat) returns (events: seq<Event>)
    requires n <= LineEditor.MAX_INPUT
    ensures Inv(START) && EventsOk(events) && Typed(Run(START, events, []), n)
  {
    StartInv();
    if n == 0 {
      OpeningStarts();
      events := [OpenKey([])];
      assert events[1..] == [];
      assert Run(START, events, []) == Opened(START, []);
    } else {
      events := TypingReaches(n - 1);
      LetterIsTyped(Run(START, events, []), n - 1);
      RunSnoc(START, events, LETTER, []);
      events := events + [LETTER];
    }
  }

  /** A run after which opening the second terminal leaves the cursor of the
      first one out of range: between `sync_terminal_widths` and the clear the
      column exceeds the width. */
  lemma WidthShrinksUnderCursor() returns (events: seq<Event>)
    ensures Inv(START) && EventsOk(events)
    ensures var s := Run(START, events, []);
            && Desktop.Open(s.desktop).Some?
            && var wide := Synced(s.(desktop := Desktop.Open(s.desktop).value.0));
            && wide.desktop.open[0] && wide.terms[0].cursor.column > wide.terms[0].columns
  {
    events := TypingReaches(20);
    var s := Run(START, events, []);
    ActiveInv(s);
    var c := Active(s);
    OffsetIsSteps(c.shell.anchor, 20, c.term.columns);
    assert TerminalInv(s, 0);
    assert c.term.columns == Desktop.Columns(s.desktop, 0) == 72;
    OffsetWithinRow(c.shell.anchor, 20, 72);
  }
}
