/** Which terminal each event touches, and what it leaves of the other. */
module Focus {
  import opened Prelude
  import Cursor
  import Terminal
  import opened Painting
  import LineEditor
  import History
  import opened Shell
  import opened Output
  import Desktop
  import opened Consoles

  /** A terminal and its shell are as they were. */
  ghost predicate Same(s: System, t: System, i: nat)
    requires Shaped(s) && Shaped(t) && i < 2
  {
    t.terms[i] == s.terms[i] && t.shells[i] == s.shells[i]
  }

  /** A key goes to the active terminal if it is open, and to no other; with no
      terminal open it does nothing. */
  lemma KeysGoToTheActiveTerminal(s: System, key: Key, output: seq<Op>, names: seq<Bytes>)
    requires Inv(s) && Clean(output) && Printables(names)
    ensures var t, i := Handle(s, Press(key, output), names), s.desktop.active;
            if s.desktop.open[i] then
              && Focused(s) && ConsoleInv(Active(s)) && t.desktop == s.desktop && Same(s, t, 1 - i)
              && t.terms[i] == HandleKey(Active(s), key, names, output).term
              && t.shells[i] == Some(HandleKey(Active(s), key, names, output).shell)
            else t == s
  {
    assert TerminalInv(s, s.desktop.active);
    if s.desktop.open[s.desktop.active] {
      ActiveInv(s);
    }
  }

  /** Lost input discards the line of the active terminal only. */
  lemma LossIsLocal(s: System, output: seq<Op>, names: seq<Bytes>)
    requires Inv(s) && Clean(output) && Printables(names)
    ensures var t, i := Handle(s, Lost(output), names), s.desktop.active;
            if s.desktop.open[i] then
              && s.shells[i].Some? && t.shells[i].Some? && t.desktop == s.desktop && Same(s, t, 1 - i)
              && t.shells[i].value.line == LineEditor.Line([], 0, false)
              && t.shells[i].value.history.entries == s.shells[i].value.history.entries
            else t == s
  {
    assert TerminalInv(s, s.desktop.active);
    if s.desktop.open[s.desktop.active] {
      ActiveInv(s);
    }
  }

  /** The mouse moves windows and focus, and writes to no terminal. */
  lemma MouseWritesNothing(s: System, b: byte, names: seq<Bytes>)
    requires Inv(s) && Printables(names)
    ensures var t := Handle(s, MouseByte(b), names);
            && Same(s, t, 0) && Same(s, t, 1)
            && t.desktop == Desktop.MouseByte(s.desktop, b).0 && t.desktop.open == s.desktop.open
  {
    Desktop.MouseByteKeepsInv(s.desktop, b);
  }

  /** A shell after a change of widths: the prompt at the top, an empty line, the
      commands kept. */
  predicate Restarted(before: Option<Shell>, after: Option<Shell>) {
    && before.Some? && after.Some? && after.value.line == LineEditor.Line([], 0, false)
    && after.value.anchor == Cursor.Position(0, PROMPT_WIDTH)
    && after.value.history == before.value.history
  }

  predicate Wide(t: Terminal.Term) {
    MIN_COLUMNS <= t.columns <= Terminal.WIDTH
  }

  lemma PromptOnTop(t: Terminal.Term, history: History.History)
    requires Wide(t)
    ensures var d := Prompted(Terminal.Clear(t), history);
            d.shell.anchor == Cursor.Position(0, PROMPT_WIDTH) && d.term.columns == t.columns
  {
    ClearedIsAtEnd(t, REACH);
    PromptFacts(Terminal.Clear(t), REACH);
  }

  lemma ResetRestarts(s: System, index: nat, created: Option<nat>)
    requires Shaped(s) && index < 2 && (s.desktop.open[index] ==> s.shells[index].Some?) && Wide(s.terms[index])
    ensures var t := Reset(s, index, created);
            && Shaped(t) && Wide(t.terms[index])
            && (s.desktop.open[index] && created != Some(index) ==> Restarted(s.shells[index], t.shells[index]))
            && (!s.desktop.open[index] || created == Some(index) ==> Same(s, t, index))
  {
    if s.shells[index].Some? {
      PromptOnTop(s.terms[index], s.shells[index].value.history);
    }
  }

  lemma ResizedRestarts(s: System, created: Option<nat>, i: nat)
    requires Shaped(s) && i < 2 && Wide(s.terms[0]) && Wide(s.terms[1])
    requires forall j :: 0 <= j < 2 && s.desktop.open[j] ==> s.shells[j].Some?
    ensures var t := Resized(s, created);
            && Shaped(t) && t.desktop == s.desktop
            && (s.desktop.open[i] && created != Some(i) ==> Restarted(s.shells[i], t.shells[i]))
            && (!s.desktop.open[i] || created == Some(i) ==> Same(s, t, i))
  {
    var m := Reset(s, 0, created);
    ResetFacts(s, 0, created, 0);
    ResetFacts(s, 0, created, 1);
    ResetRestarts(s, 0, created);
    ResetFacts(m, 1, created, 0);
    ResetRestarts(m, 1, created);
  }

  /** Closing closes exactly that terminal; its commands are kept; the other one,
      if open, becomes the active one and restarts. */
  lemma ClosingClosesOne(s: System, index: nat)
    requires Inv(s) && index < 2
    ensures var t := Closed(s, index);
            && Shaped(t) && !t.desktop.open[index] && t.desktop.open[1 - index] == s.desktop.open[1 - index]
            && t.desktop.active == (if s.desktop.open[1 - index] then 1 - index else index)
            && t.shells[index] == s.shells[index]
            && (s.desktop.open[1 - index] ==> Restarted(s.shells[1 - index], t.shells[1 - index]))
            && (!s.desktop.open[1 - index] ==> t.shells[1 - index] == s.shells[1 - index])
  {
    assert TerminalInv(s, 0) && TerminalInv(s, 1);
    var d := Desktop.Close(s.desktop, index);
    var u := Synced(s.(desktop := d));
    ColumnsAreWide(d, 0);
    ColumnsAreWide(d, 1);
    ResizedRestarts(u, None, index);
    ResizedRestarts(u, None, 1 - index);
  }

  /** Ctrl+C closes the active terminal; a click on a close box, that window. */
  lemma CloseEvents(s: System, index: nat, names: seq<Bytes>)
    requires Inv(s) && Printables(names)
    ensures Handle(s, CloseKey, names) == if s.desktop.open[s.desktop.active] then Closed(s, s.desktop.active) else s
    ensures Handle(s, CloseClick(index), names) == Closed(s, index)
  {
  }

  /** What opening leaves of both shells: terminal `i` is ready for its first
      line, the other one restarts if it is open. */
  predicate Reopened(before: System, after: System, i: nat, history: History.History)
    requires Shaped(before) && i < 2
  {
    && Shaped(after) && after.desktop == before.desktop
    && after.shells[i].Some? && after.shells[i].value.line == LineEditor.Line([], 0, false)
    && after.shells[i].value.history == history
    && (before.desktop.open[1 - i] ==> Restarted(before.shells[1 - i], after.shells[1 - i]))
  }

  /** A terminal shown for the first time has no commands. */
  lemma CreatedRestarts(wide: System, i: nat, banner: seq<Op>)
    requires Shaped(wide) && i < 2 && wide.desktop.open[i] && (wide.desktop.open[1 - i] ==> wide.shells[1 - i].Some?)
    requires Wide(wide.terms[0]) && Wide(wide.terms[1]) && Clean(banner)
    ensures Reopened(wide, Resized(Created(wide, i, banner), Some(i)), i, History.NO_HISTORY)
  {
    ClearedInv(wide.terms[i], banner, History.NO_HISTORY);
    MadeRestarts(wide, Prompted(Print(Terminal.Clear(wide.terms[i]), banner), History.NO_HISTORY), i);
  }

  lemma MadeRestarts(wide: System, c: Console, i: nat)
    requires Shaped(wide) && i < 2 && wide.desktop.open[i] && (wide.desktop.open[1 - i] ==> wide.shells[1 - i].Some?)
    requires Wide(wide.terms[1 - i]) && Wide(c.term)
    requires c.shell.line == LineEditor.EMPTY && c.shell.history == History.NO_HISTORY
    ensures Reopened(wide, Resized(Replace(wide, i, c), Some(i)), i, History.NO_HISTORY)
  {
    var made := Replace(wide, i, c);
    ResizedRestarts(made, Some(i), i);
    ResizedRestarts(made, Some(i), 1 - i);
  }

  /** One shown again has its old ones. */
  lemma WidenedRestarts(wide: System, i: nat)
    requires Shaped(wide) && i < 2 && wide.desktop.open[i] && wide.shells[i].Some?
    requires wide.desktop.open[1 - i] ==> wide.shells[1 - i].Some?
    requires Wide(wide.terms[0]) && Wide(wide.terms[1])
    ensures Reopened(wide, Resized(wide, None), i, wide.shells[i].value.history)
  {
    ResizedRestarts(wide, None, i);
    ResizedRestarts(wide, None, 1 - i);
  }

  /** Opening opens the first closed terminal and makes it active; a new one has
      an empty history, a reopened one its old commands, and the other, if open,
      restarts with its commands. */
  lemma OpeningOpensOne(s: System, banner: seq<Op>)
    requires Inv(s) && Clean(banner) && !(s.desktop.open[0] && s.desktop.open[1])
    ensures var t, i := Opened(s, banner), if s.desktop.open[0] then 1 else 0;
            && Shaped(t) && t.desktop.open[i] && t.desktop.open[1 - i] == s.desktop.open[1 - i] && t.desktop.active == i
            && t.shells[i].Some? && t.shells[i].value.line == LineEditor.Line([], 0, false)
            && t.shells[i].value.history == (if s.shells[i].Some? then s.shells[i].value.history else History.NO_HISTORY)
            && (s.desktop.open[1 - i] ==> Restarted(s.shells[1 - i], t.shells[1 - i]))
  {
    assert TerminalInv(s, 0) && TerminalInv(s, 1);
    var (d, i) := Desktop.Open(s.desktop).value;
    ColumnsAreWide(d, 0);
    ColumnsAreWide(d, 1);
    var wide := Synced(s.(desktop := d));
    if s.shells[i].None? {
      CreatedRestarts(wide, i, banner);
    } else {
      WidenedRestarts(wide, i);
    }
  }

  /** A banner on a cleared terminal, and the prompt below it. */
  lemma BannerIsShown(t: Terminal.Term, lines: seq<Bytes>)
    requires Wide(t) && Printables(lines)
    ensures var c := Prompted(Print(Terminal.Clear(t), Lined(lines)), History.NO_HISTORY);
            && Terminal.Shaped(c.term) && c.term.columns == t.columns && LinesShown(c.term, 0, lines)
            && c.shell.anchor == Cursor.Position(TotalRows(lines, t.columns), PROMPT_WIDTH)
  {
    var blank := Terminal.Clear(t);
    ClearedIsAtEnd(t, REACH);
    LinesAreShown(blank, lines);
    PromptBelow(Print(blank, Lined(lines)), History.NO_HISTORY);
    LinesThenPrompt(Print(blank, Lined(lines)), 0, lines, Prompted(Print(blank, Lined(lines)), History.NO_HISTORY).term);
  }

  /** The terminal that opening creates, before the other one restarts. */
  lemma OpenedNew(s: System, lines: seq<Bytes>) returns (wide: System, i: nat, c: Console)
    requires Inv(s) && Printables(lines) && !(s.desktop.open[0] && s.desktop.open[1])
    requires s.shells[if s.desktop.open[0] then 1 else 0].None?
    ensures Shaped(wide) && i == (if s.desktop.open[0] then 1 else 0) && wide.desktop.open[i]
    ensures wide.desktop.open[1 - i] ==> wide.shells[1 - i].Some?
    ensures Wide(wide.terms[1 - i]) && Wide(c.term) && Terminal.Shaped(c.term) && LinesShown(c.term, 0, lines)
    ensures c.shell.anchor == Cursor.Position(TotalRows(lines, c.term.columns), PROMPT_WIDTH)
    ensures Opened(s, Lined(lines)) == Resized(Replace(wide, i, c), Some(i))
  {
    wide, i := WidenedForNew(s, Lined(lines));
    c := BannerConsole(wide.terms[i], lines);
  }

  lemma BannerConsole(t: Terminal.Term, lines: seq<Bytes>) returns (c: Console)
    requires Wide(t) && Printables(lines)
    ensures c == Prompted(Print(Terminal.Clear(t), Lined(lines)), History.NO_HISTORY)
    ensures Wide(c.term) && Terminal.Shaped(c.term) && LinesShown(c.term, 0, lines)
    ensures c.shell.anchor == Cursor.Position(TotalRows(lines, c.term.columns), PROMPT_WIDTH)
  {
    BannerIsShown(t, lines);
    c := Prompted(Print(Terminal.Clear(t), Lined(lines)), History.NO_HISTORY);
  }

  /** The widths are set before the new shell is made. */
  lemma WidenedForNew(s: System, banner: seq<Op>) returns (wide: System, i: nat)
    requires Inv(s) && !(s.desktop.open[0] && s.desktop.open[1])
    requires s.shells[if s.desktop.open[0] then 1 else 0].None?
    ensures Shaped(wide) && i == (if s.desktop.open[0] then 1 else 0) && wide.desktop.open[i]
    ensures wide.desktop.open[1 - i] ==> wide.shells[1 - i].Some?
    ensures Wide(wide.terms[0]) && Wide(wide.terms[1])
    ensures Opened(s, banner) == Resized(Created(wide, i, banner), Some(i))
  {
    assert TerminalInv(s, 0) && TerminalInv(s, 1);
    var d := Desktop.Open(s.desktop).value.0;
    i := Desktop.Open(s.desktop).value.1;
    ColumnsAreWide(d, 0);
    ColumnsAreWide(d, 1);
    wide := Synced(s.(desktop := d));
  }

  /** A terminal opened for the first time shows the lines of its banner from the
      top on, and the prompt below them. */
  lemma NewTerminalShowsItsBanner(s: System, lines: seq<Bytes>)
    requires Inv(s) && Printables(lines) && !(s.desktop.open[0] && s.desktop.open[1])
    requires s.shells[if s.desktop.open[0] then 1 else 0].None?
    ensures var t, i := Opened(s, Lined(lines)), if s.desktop.open[0] then 1 else 0;
            && Shaped(t) && Terminal.Shaped(t.terms[i]) && LinesShown(t.terms[i], 0, lines)
            && t.shells[i].Some?
            && t.shells[i].value.anchor == Cursor.Position(TotalRows(lines, t.terms[i].columns), PROMPT_WIDTH)
  {
    var wide, i, c := OpenedNew(s, lines);
    CreatedStays(Opened(s, Lined(lines)), wide, i, c);
  }

  /** The restart of the other terminal leaves the new one alone. */
  lemma CreatedStays(t: System, wide: System, i: nat, c: Console)
    requires Shaped(wide) && i < 2 && wide.desktop.open[i] && (wide.desktop.open[1 - i] ==> wide.shells[1 - i].Some?)
    requires Wide(wide.terms[1 - i]) && Wide(c.term) && t == Resized(Replace(wide, i, c), Some(i))
    ensures Shaped(t) && t.terms[i] == c.term && t.shells[i] == Some(c.shell)
  {
    ResizedRestarts(Replace(wide, i, c), Some(i), i);
  }

  lemma OpenEvent(s: System, banner: seq<Op>, names: seq<Bytes>)
    requires Inv(s) && Clean(banner) && Printables(names)
    ensures Handle(s, OpenKey(banner), names) == if s.desktop.open[0] && s.desktop.open[1] then s else Opened(s, banner)
  {
  }

  /** Alone a terminal is 72 columns wide, beside another 36; a closed one is
      kept at 76. */
  lemma WidthsExactly(d: Desktop.Desktop, i: nat)
    requires Desktop.Shaped(d) && i < 2
    ensures Desktop.Columns(d, i) == if !d.open[i] then 76 else if d.open[1 - i] then 36 else 72
  {
  }
}
