/** The shell as an object on its writer: `handle_key` step by step, proved to
    be the value model of `Shell`. */
module ShellState {
  import opened Prelude
  import opened Cursor
  import opened Terminal
  import opened Painting
  import LineEditor
  import History
  import opened Completion
  import opened Shell
  import Writer

  /** The loop over the matches in `complete`. */
  method SharedLength(found: seq<Bytes>) returns (common: nat)
    requires found != []
    ensures common == CommonLen(found[0], found[1..], |found[0]|)
  {
    common := |found[0]|;
    var i := 1;
    while i < |found|
      invariant 1 <= i <= |found| && common <= |found[0]|
      invariant CommonLen(found[0], found[i..], common) == CommonLen(found[0], found[1..], |found[0]|)
    {
      assert found[i..][1..] == found[i + 1..];
      common := Common(found[0], found[i], common);
      i := i + 1;
    }
    assert found[i..] == [];
  }

  lemma MatchingStep(names: seq<Bytes>, i: nat, prefix: Bytes)
    requires i < |names|
    ensures Matching(names[i..], prefix) ==
            (if prefix <= names[i] then [names[i]] else []) + Matching(names[i + 1..], prefix)
  {
    assert names[i..][0] == names[i] && names[i..][1..] == names[i + 1..];
  }

  lemma ConcatAssociates(a: seq<Bytes>, b: seq<Bytes>, c: seq<Bytes>)
    ensures a + (b + c) == (a + b) + c
  {
  }

  /** The names that start with the line, in table order. */
  method FindMatches(names: seq<Bytes>, prefix: Bytes) returns (found: seq<Bytes>)
    ensures found == Matching(names, prefix)
  {
    found := [];
    ghost var all := Matching(names, prefix);
    assert names[0..] == names;
    for i := 0 to |names|
      invariant found + Matching(names[i..], prefix) == all
    {
      MatchingStep(names, i, prefix);
      var head := if prefix <= names[i] then [names[i]] else [];
      ConcatAssociates(found, head, Matching(names[i + 1..], prefix));
      found := found + head;
    }
    assert names[|names|..] == [];
  }

  /** Typing the rest of a name into the line. */
  method TypeAll(l: Line, text: Bytes) returns (r: Line)
    requires l.cursor <= |l.text|
    ensures r == InsertAll(l, text)
  {
    r := l;
    assert text[0..] == text;
    for i := 0 to |text|
      invariant r.cursor <= |r.text| && InsertAll(r, text[i..]) == InsertAll(l, text)
    {
      assert text[i..][1..] == text[i + 1..];
      r := LineEditor.Insert(r, text[i]);
    }
    assert text[|text|..] == [];
  }

  /** What `complete` decides for a line. */
  method Decide(names: seq<Bytes>, l: Line) returns (outcome: Outcome)
    requires l.cursor <= |l.text|
    ensures outcome == Complete(names, l)
  {
    if l.cursor != |l.text| || 32 in l.text {
      return Unchanged;
    }
    var found := FindMatches(names, l.text);
    if found == [] {
      return Unchanged;
    }
    var common := SharedLength(found);
    var grown := l;
    if |l.text| <= common {
      grown := TypeAll(l, found[0][|l.text|..common]);
    }
    if |found| == 1 {
      outcome := Extended(LineEditor.Insert(grown, 32));
    } else if common == |l.text| {
      outcome := Listed(found);
    } else {
      outcome := Extended(grown);
    }
  }

  /** The console between a listing and the redrawn line. */
  lemma ListedFacts(c: Console, found: seq<Bytes>)
    requires ConsoleInv(c) && Printables(found)
    ensures var ops := [Emit(10)] + Listing(found);
            && Clean(ops) && LineEditor.LineOk(ToEnd(c.shell.line))
            && var d := Conclude(c, ops, c.shell.history);
            && FirstLine(d.term) <= d.shell.anchor.line < |d.term.log| && d.shell.anchor.column <= d.term.columns
  {
    ListingIsClean(found);
    var ops := [Emit(10)] + Listing(found);
    assert Clean(ops);
    ConcludeKeepsInv(c, ops, c.shell.history);
  }

  lemma AtEndIsWritable(t: Term)
    requires AtEnd(t, REACH)
    ensures FirstLine(t) <= t.cursor.line <= LastLine(t) && t.cursor.column <= t.columns
  {
  }

  /** Output at the end of the terminal. */
  method PrintAll(writer: Writer.Writer, ops: seq<Op>)
    requires writer.Valid() && AtEnd(writer.View(), REACH) && NoReturns(ops)
    modifies writer, writer.lines
    ensures writer.Valid() && writer.View() == Print(old(writer.View()), ops) && AtEnd(writer.View(), REACH)
  {
    assert ops[0..] == ops;
    for i := 0 to |ops|
      invariant writer.Valid() && AtEnd(writer.View(), REACH)
      invariant Print(writer.View(), ops[i..]) == Print(old(writer.View()), ops)
    {
      assert ops[i..][0] == ops[i] && ops[i..][1..] == ops[i + 1..];
      PrintOne(writer, ops[i]);
    }
    assert ops[|ops|..] == [];
  }

  method PrintOne(writer: Writer.Writer, op: Op)
    requires writer.Valid() && AtEnd(writer.View(), REACH) && op != Emit(13)
    modifies writer, writer.lines
    ensures writer.Valid() && writer.View() == Painting.Apply(old(writer.View()), op) && AtEnd(writer.View(), REACH)
  {
    ApplyKeepsAtEnd(writer.View(), op, REACH);
    AtEndIsWritable(writer.View());
    match op
    case Emit(b) => writer.WriteByte(b);
    case Paint(color) => writer.color := color;
    case Wipe => writer.Clear();
  }

  /** One coloured piece of the prompt. */
  method WritePiece(writer: Writer.Writer, color: byte, text: Bytes)
    requires writer.Valid() && AtEnd(writer.View(), REACH) && AllPrintable(text)
    requires writer.cursor.column + |text| < writer.columns
    modifies writer, writer.lines
    ensures writer.Valid() && AtEnd(writer.View(), REACH)
    ensures writer.View() == WriteBytes(old(writer.View()).(color := color), text)
    ensures writer.columns == old(writer.columns) && writer.cursor.column == old(writer.cursor.column) + |text|
  {
    PromptPiece(writer.View(), color, text, REACH);
    AtEndIsWritable(writer.View());
    writer.color := color;
    writer.WriteAscii(text);
  }

  /** `prompt`. */
  method WritePrompt(writer: Writer.Writer) returns (anchor: Position)
    requires writer.Valid() && AtEnd(writer.View(), REACH)
    requires writer.cursor.column == 0 && writer.columns >= MIN_COLUMNS
    modifies writer, writer.lines
    ensures writer.Valid() && writer.View() == Prompt(old(writer.View())) && anchor == writer.cursor
  {
    WritePiece(writer, LIGHT_GREEN, Text("shaolin@crabos"));
    WritePiece(writer, LIGHT_GRAY, Text(":"));
    WritePiece(writer, LIGHT_BLUE, Text("~"));
    WritePiece(writer, LIGHT_GRAY, Text("$ "));
    anchor := writer.cursor;
  }

  /** Output, then a prompt. */
  method PrintAndPrompt(writer: Writer.Writer, output: seq<Op>) returns (anchor: Position)
    requires writer.Valid() && AtEnd(writer.View(), REACH) && writer.columns >= MIN_COLUMNS && Clean(output)
    requires output == [] ==> writer.cursor.column == 0
    modifies writer, writer.lines
    ensures writer.Valid() && writer.View() == Prompt(Print(old(writer.View()), output)) && anchor == writer.cursor
  {
    PrintKeepsAtEnd(writer.View(), output, REACH);
    EndsInColumnZero(writer.View(), output);
    PrintAll(writer, output);
    anchor := WritePrompt(writer);
  }

  /** A blank terminal, output, then a prompt. */
  method ClearAndPrompt(writer: Writer.Writer, output: seq<Op>) returns (anchor: Position)
    requires writer.lines.Length == SCROLLBACK && MIN_COLUMNS <= writer.columns <= WIDTH && Clean(output)
    modifies writer, writer.lines
    ensures writer.Valid() && writer.View() == Prompt(Print(Clear(old(writer.View())), output)) && anchor == writer.cursor
  {
    ClearedIsAtEnd(writer.View(), REACH);
    writer.Clear();
    anchor := PrintAndPrompt(writer, output);
  }

  /** With the cursor moved to its end, a redrawn line is ready for output. */
  lemma TypedIsAtEnd(c: Console)
    requires ConsoleInv(c)
    ensures var d := WithLine(c, ToEnd(c.shell.line));
            ConsoleInv(d) && AtEnd(d.term, REACH) && d.term.columns >= MIN_COLUMNS
  {
    WithLineKeepsInv(c, ToEnd(c.shell.line));
    EndOfLineIsAtEnd(WithLine(c, ToEnd(c.shell.line)));
  }

  lemma CancelledIsClean(output: seq<Op>)
    requires Clean(output)
    ensures Clean(CANCELLED + output) && CANCELLED + output != []
  {
  }

  /** What is printed does not depend on the history. */
  lemma ConcludeWithHistory(c: Console, output: seq<Op>, h: History.History)
    requires c.term.log != []
    ensures var d := Conclude(c, output, c.shell.history);
            Conclude(c, output, h) == Console(d.term, Shell(d.shell.line, h, d.shell.anchor))
  {
  }

  class ShellState {
    const writer: Writer.Writer
    const history: History.HistoryRing
    var line: Line
    var anchor: Position

    ghost predicate Wired()
      reads this, writer, writer.lines, history, history.lines
    {
      && writer.Valid() && history.Valid()
      && writer.lines as object != history.lines && writer as object != history
    }

    ghost function View(): Console
      reads this, writer, writer.lines, history, history.lines
      requires Wired()
    {
      Console(writer.View(), Shell(line, history.View(), anchor))
    }

    ghost predicate Valid()
      reads this, writer, writer.lines, history, history.lines
    {
      Wired() && ConsoleInv(View())
    }

    /** `Shell::new` on a terminal of any real width. */
    constructor (terminal: Writer.Writer, banner: seq<Op>)
      requires terminal.lines.Length == SCROLLBACK && MIN_COLUMNS <= terminal.columns <= WIDTH && Clean(banner)
      modifies terminal, terminal.lines
      ensures Valid() && writer == terminal && fresh(history) && fresh(history.lines)
      ensures View() == Prompted(Print(Clear(old(terminal.View())), banner), History.NO_HISTORY)
    {
      ClearedInv(terminal.View(), banner, History.NO_HISTORY);
      var start := ClearAndPrompt(terminal, banner);
      writer := terminal;
      history := new History.HistoryRing();
      line, anchor := LineEditor.EMPTY, start;
    }

    /** `redraw`; the anchor is on a row that the ring still holds. */
    method RedrawLine(oldLen: nat)
      requires Wired() && FirstLine(writer.View()) <= anchor.line < |writer.log| && anchor.column <= writer.columns
      requires LineEditor.LineOk(line)
      modifies writer, writer.lines
      ensures Wired() && View() == Redraw(old(View()), oldLen)
    {
      writer.ReplaceInput(anchor, line.text, line.cursor, oldLen);
    }

    /** Bring a line back and draw it. */
    method RestoreLine(l: Line, oldLen: nat)
      requires Wired() && FirstLine(writer.View()) <= anchor.line < |writer.log| && anchor.column <= writer.columns
      requires LineEditor.LineOk(l)
      modifies this`line, writer, writer.lines
      ensures Wired() && View() == Redraw(old(View()).(shell := old(View()).shell.(line := l)), oldLen)
    {
      line := l;
      RedrawLine(oldLen);
    }

    /** Replace the line and redraw it over the old one. */
    method SetLine(newLine: Line)
      requires Valid() && LineEditor.LineOk(newLine)
      modifies this`line, writer, writer.lines
      ensures Wired() && View() == WithLine(old(View()), newLine)
    {
      var oldLen := |line.text|;
      line := newLine;
      RedrawLine(oldLen);
    }

    /** Leave the line as typed, print, and prompt again. */
    method Finish(output: seq<Op>)
      requires Valid() && Clean(output) && output != []
      modifies this`line, this`anchor, writer, writer.lines
      ensures Wired() && View() == Conclude(old(View()), output, old(View()).shell.history)
    {
      LeaveLine();
      StartLine(output);
    }

    /** Print, then prompt for an empty line. */
    method StartLine(output: seq<Op>)
      requires Wired() && AtEnd(writer.View(), REACH) && writer.columns >= MIN_COLUMNS
      requires Clean(output) && output != []
      modifies this`line, this`anchor, writer, writer.lines
      ensures Wired() && line == LineEditor.EMPTY && anchor == writer.cursor
      ensures writer.View() == Prompt(Print(old(writer.View()), output)) && history.View() == old(history.View())
    {
      anchor := PrintAndPrompt(writer, output);
      assert history.lines[..] == old(history.lines[..]);
      line := LineEditor.EMPTY;
    }

    /** The line as typed, with the terminal ready for output after it. */
    method LeaveLine()
      requires Valid()
      modifies this`line, writer, writer.lines
      ensures Wired() && View() == WithLine(old(View()), ToEnd(old(line)))
      ensures AtEnd(writer.View(), REACH) && writer.columns >= MIN_COLUMNS
    {
      TypedIsAtEnd(View());
      SetLine(ToEnd(line));
    }

    /** `reset_for_resize`, whatever the terminal showed and wherever its
        cursor was. */
    method ResetForResize()
      requires writer.lines.Length == SCROLLBACK && MIN_COLUMNS <= writer.columns <= WIDTH
      requires history.Valid() && History.HistoryOk(history.View()) && writer.lines as object != history.lines
      modifies this`line, this`anchor, writer, writer.lines
      ensures Wired() && View() == Prompted(Clear(old(writer.View())), old(history.View()))
    {
      assert Print(Clear(writer.View()), []) == Clear(writer.View());
      line := LineEditor.EMPTY;
      anchor := ClearAndPrompt(writer, []);
    }

    /** Enter. */
    method SubmitLine(output: seq<Op>)
      requires Valid() && Clean(output)
      modifies this`line, this`anchor, writer, writer.lines, history, history.lines
      ensures Wired() && View() == Conclude(old(View()), [Emit(10)] + output, AfterSubmit(old(View()).shell))
    {
      var typed := ToEnd(line);
      assert Clean([Emit(10)] + output);
      ConcludeWithHistory(View(), [Emit(10)] + output, AfterSubmit(View().shell));
      Finish([Emit(10)] + output);
      if typed.overflow {
        history.StopBrowsing();
      } else {
        history.RecordLine(typed);
      }
    }

    /** Ctrl+C, and `input_lost` with its explanation. */
    method Abandon(output: seq<Op>)
      requires Valid() && Clean(output) && output != []
      modifies this`line, this`anchor, writer, writer.lines, history
      ensures Wired() && View() == Conclude(old(View()), output, Unbrowsed(old(View()).shell.history))
    {
      ConcludeWithHistory(View(), output, Unbrowsed(history.View()));
      Finish(output);
      history.StopBrowsing();
    }

    /** Ctrl+L. */
    method ClearLine()
      requires Valid()
      modifies this`line, this`anchor, writer, writer.lines
      ensures Wired() && View() == Cleared(old(View()))
    {
      ghost var c := View();
      var kept := line;
      assert Print(Clear(c.term), []) == Clear(c.term);
      ClearedInv(c.term, [], c.shell.history);
      anchor := ClearAndPrompt(writer, []);
      RestoreLine(kept, 0);
    }

    /** `complete`. */
    method CompleteLine(names: seq<Bytes>)
      requires Valid() && Printables(names)
      modifies this`line, this`anchor, writer, writer.lines
      ensures Wired()
      ensures View() == match Complete(names, old(View()).shell.line)
                        case Unchanged => old(View())
                        case Extended(extended) => WithLine(old(View()), extended)
                        case Listed(found) => Offered(old(View()), found)
    {
      CompletionKeepsOk(names, line);
      var outcome := Decide(names, line);
      match outcome
      case Unchanged =>
      case Extended(extended) => SetLine(extended);
      case Listed(found) => ListNames(found);
    }

    /** Tab with nothing to add: show the names, prompt, draw the line again. */
    method ListNames(found: seq<Bytes>)
      requires Valid() && Printables(found)
      modifies this`line, this`anchor, writer, writer.lines
      ensures Wired() && View() == Offered(old(View()), found)
    {
      ListedFacts(View(), found);
      var typed := ToEnd(line);
      Finish([Emit(10)] + Listing(found));
      RestoreLine(typed, |typed.text|);
    }

    /** `handle_key`. */
    method PressKey(key: Key, names: seq<Bytes>, output: seq<Op>)
      requires Valid() && Printables(names) && Clean(output)
      modifies this`line, this`anchor, writer, writer.lines, history, history.lines
      ensures Valid() && View() == HandleKey(old(View()), key, names, output)
    {
      HandleKeyKeepsInv(View(), key, names, output);
      Obey(Decode(key), names, output);
    }

    /** `input_lost`; `output` is its explanation. */
    method LoseInput(output: seq<Op>)
      requires Valid() && Clean(output)
      modifies this`line, this`anchor, writer, writer.lines, history
      ensures Valid() && View() == InputLost(old(View()), output)
    {
      InputLostKeepsInv(View(), output);
      CancelledIsClean(output);
      Abandon(CANCELLED + output);
    }

    method Obey(command: Command, names: seq<Bytes>, output: seq<Op>)
      requires Valid() && Printables(names) && Clean(output)
      modifies this`line, this`anchor, writer, writer.lines, history, history.lines
      ensures Wired() && View() == Perform(old(View()), command, names, output)
    {
      match command
      case Submit => SubmitLine(output);
      case Cancel => Abandon(CANCELLED);
      case ClearScreen => ClearLine();
      case Tab => CompleteLine(names);
      case Edit(edit) => EditLine(edit);
      case Up => Browse(true);
      case Down => Browse(false);
      case ScrollBack => writer.ScrollUp();
      case ScrollForward => writer.ScrollDown();
      case Ignore =>
    }

    method EditLine(edit: LineEditor.Edit)
      requires Valid()
      modifies this`line, writer, writer.lines
      ensures Wired() && View() == WithLine(old(View()), LineEditor.Apply(old(line), edit))
    {
      LineEditor.EditKeepsOk(line, edit);
      SetLine(LineEditor.Apply(line, edit));
    }

    /** Up and Down. */
    method Browse(up: bool)
      requires Valid()
      modifies this`line, writer, writer.lines, history
      ensures Wired()
      ensures var c := old(View());
              var (next, shown) := if up then History.Previous(c.shell.history, c.shell.line)
                                   else History.Next(c.shell.history, c.shell.line);
              View() == WithLine(c.(shell := c.shell.(history := next)), shown)
    {
      History.BrowseKeepsOk(history.View(), line);
      var shown;
      if up {
        shown := history.PreviousLine(line);
      } else {
        shown := history.NextLine(line);
      }
      SetLine(shown);
    }
  }
}
