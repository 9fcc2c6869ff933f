/** What each key does to the line and the history, over runs of keys. */
module KeyRuns {
  import opened Prelude
  import opened Cursor
  import opened Terminal
  import opened Painting
  import opened LineEditor
  import opened History
  import Records = History
  import opened Completion
  import opened Shell

  // ---------------------------------------------------------------------
  // The keys

  /** The keys that edit the line or move in it: control characters, then keys
      without a character. */
  function Bindings(): seq<(Key, Edit)> {
    [(Unicode(8), Back), (Unicode(127), Del), (Unicode(4), Del), (Unicode(23), Word), (Unicode(21), KillStart),
     (Unicode(11), KillEnd), (Unicode(1), Home), (Unicode(5), End), (Unicode(2), Left), (Unicode(6), Right),
     (Raw(DeleteKey), Del), (Raw(HomeKey), Home), (Raw(EndKey), End), (Raw(ArrowLeft), Left),
     (Raw(ArrowRight), Right)]
  }

  lemma EditKeyEdits(c: Console, key: Key, edit: Edit, names: seq<Bytes>, output: seq<Op>)
    requires ConsoleInv(c) && Decode(key) == Command.Edit(edit)
    ensures HandleKey(c, key, names, output).shell == c.shell.(line := LineEditor.Apply(c.shell.line, edit))
  {
  }

  lemma BindingsDecode(k: nat)
    requires k < |Bindings()|
    ensures Decode(Bindings()[k].0) == Command.Edit(Bindings()[k].1)
  {
  }

  /** Each of these keys changes the line as its edit says, and nothing else of
      the shell. */
  lemma EveryBindingEdits(c: Console, k: nat, names: seq<Bytes>, output: seq<Op>)
    requires ConsoleInv(c) && k < |Bindings()|
    ensures HandleKey(c, Bindings()[k].0, names, output).shell ==
            c.shell.(line := LineEditor.Apply(c.shell.line, Bindings()[k].1))
  {
    BindingsDecode(k);
    EditKeyEdits(c, Bindings()[k].0, Bindings()[k].1, names, output);
  }

  /** A printable character is inserted at the cursor if there is room. */
  lemma PrintableIsTyped(c: Console, code: nat, names: seq<Bytes>, output: seq<Op>)
    requires ConsoleInv(c) && 32 <= code <= 126
    ensures HandleKey(c, Unicode(code), names, output).shell == c.shell.(line := Typed(c.shell.line, code))
  {
    assert Decode(Unicode(code)) == Command.Edit(Type(code));
    EditKeyEdits(c, Unicode(code), Type(code), names, output);
  }

  function Typed(l: Line, b: byte): Line {
    if |l.text| == 256 then Line(l.text, l.cursor, true)
    else if l.cursor > |l.text| then l
    else Line(l.text[..l.cursor] + [b] + l.text[l.cursor..], l.cursor + 1, l.overflow)
  }

  /** Characters that mean nothing and are not printable change nothing of the
      shell. */
  predicate Meaningless(code: nat) {
    code > 127 || code == 0 || code == 7 || code == 15 || 17 <= code <= 20 || code == 22 || 24 <= code <= 31
  }

  lemma MeaninglessIsIgnored(c: Console, code: nat, names: seq<Bytes>, output: seq<Op>)
    requires ConsoleInv(c) && Meaningless(code)
    ensures HandleKey(c, Unicode(code), names, output).shell == c.shell
  {
    if code <= 127 {
      EditKeyEdits(c, Unicode(code), Type(code), names, output);
    } else {
      assert Decode(Unicode(code)) == Ignore;
    }
  }

  /** Up and Down browse. */
  lemma BrowsingKeys(c: Console, key: Key, names: seq<Bytes>, output: seq<Op>)
    requires ConsoleInv(c)
    ensures key == Unicode(16) || key == Raw(ArrowUp) ==>
              var d := HandleKey(c, key, names, output).shell;
              (d.history, d.line) == Previous(c.shell.history, c.shell.line) && d.anchor == c.shell.anchor
    ensures key == Unicode(14) || key == Raw(ArrowDown) ==>
              var d := HandleKey(c, key, names, output).shell;
              (d.history, d.line) == Next(c.shell.history, c.shell.line) && d.anchor == c.shell.anchor
  {
    assert key == Unicode(16) || key == Raw(ArrowUp) ==> Decode(key) == Up;
    assert key == Unicode(14) || key == Raw(ArrowDown) ==> Decode(key) == Down;
  }

  /** PageUp and PageDown scroll, and leave the shell alone. */
  lemma ScrollingKeys(c: Console, key: RawKey, names: seq<Bytes>, output: seq<Op>)
    requires ConsoleInv(c)
    ensures key == PageUp ==> HandleKey(c, Raw(key), names, output) == Console(ScrollUp(c.term), c.shell)
    ensures key == PageDown ==> HandleKey(c, Raw(key), names, output) == Console(ScrollDown(c.term), c.shell)
    ensures key == OtherKey ==> HandleKey(c, Raw(key), names, output) == c
  {
    assert key == PageUp ==> Decode(Raw(key)) == ScrollBack;
    assert key == PageDown ==> Decode(Raw(key)) == ScrollForward;
    assert key == OtherKey ==> Decode(Raw(key)) == Ignore;
  }

  /** Ctrl+L clears the screen and keeps the line and the history: the prompt is
      at the top. */
  lemma ClearingKeepsTheLine(c: Console, names: seq<Bytes>, output: seq<Op>)
    requires ConsoleInv(c)
    ensures var d := HandleKey(c, Unicode(12), names, output);
            d.shell.line == c.shell.line && d.shell.history == c.shell.history && d.shell.anchor == Position(0, PROMPT_WIDTH)
  {
    assert Decode(Unicode(12)) == ClearScreen;
    ClearedIsAtEnd(c.term, REACH);
    PromptFacts(Clear(c.term), REACH);
  }

  /** Tab leaves the line as completion decides; a listing keeps it, with the
      cursor at its end. */
  lemma TabCompletes(c: Console, names: seq<Bytes>, output: seq<Op>)
    requires ConsoleInv(c)
    ensures var d, l := HandleKey(c, Unicode(9), names, output).shell, c.shell.line;
            && d.history == c.shell.history
            && d.line == match Complete(names, l)
                         case Unchanged => l
                         case Extended(longer) => longer
                         case Listed(_) => Line(l.text, |l.text|, l.overflow)
  {
    assert Decode(Unicode(9)) == Tab;
  }

  /** The names offered, each followed by two spaces, then a newline. */
  function Offer(names: seq<Bytes>): Bytes {
    if names == [] then [10] else names[0] + [32, 32] + Offer(names[1..])
  }

  lemma {:induction false} ListingIsOffer(names: seq<Bytes>)
    ensures Listing(names) == Emits(Offer(names))
    decreases |names|
  {
    if names == [] {
      assert Emits([10]) == [Emit(10)];
    } else {
      ListingIsOffer(names[1..]);
      var front := names[0] + [32, 32];
      assert Emits(front) + Emits(Offer(names[1..])) == Emits(front + Offer(names[1..]));
    }
  }

  /** Ctrl+C and lost input discard the line and keep the commands recorded. */
  lemma CancellingDiscardsTheLine(c: Console, names: seq<Bytes>, output: seq<Op>)
    requires ConsoleInv(c) && Clean(output)
    ensures HandleKey(c, Unicode(3), names, output).shell.line == Line([], 0, false)
    ensures HandleKey(c, Unicode(3), names, output).shell.history == c.shell.history.(browsing := None)
    ensures InputLost(c, output).shell.line == Line([], 0, false)
    ensures InputLost(c, output).shell.history == c.shell.history.(browsing := None)
  {
    assert Decode(Unicode(3)) == Cancel;
  }

  // ---------------------------------------------------------------------
  // The history over runs of keys

  predicate IsEnter(key: Key) {
    key == Unicode(10) || key == Unicode(13)
  }

  /** The line that Enter submits, if it did not overflow. */
  function Entered(c: Console, key: Key): seq<Line> {
    if IsEnter(key) && !c.shell.line.overflow then
      [Line(c.shell.line.text, |c.shell.line.text|, false)]
    else
      []
  }

  /** The lines held at each Enter of a run that did not overflow. */
  ghost function Submitted(c: Console, names: seq<Bytes>, keys: seq<KeyPress>): seq<Line>
    requires ConsoleInv(c) && Printables(names) && forall i :: 0 <= i < |keys| ==> Clean(keys[i].output)
    decreases |keys|
  {
    if keys == [] then []
    else
      HandleKeyKeepsInv(c, keys[0].key, names, keys[0].output);
      Entered(c, keys[0].key) + Submitted(HandleKey(c, keys[0].key, names, keys[0].output), names, keys[1..])
  }

  lemma EnterDecodes(key: Key)
    ensures IsEnter(key) <==> Decode(key) == Submit
  {
  }

  /** Enter records the line and starts an empty one. */
  lemma EnterRecords(c: Console, key: Key, names: seq<Bytes>, output: seq<Op>)
    requires ConsoleInv(c) && IsEnter(key)
    ensures var d := HandleKey(c, key, names, output).shell;
            && d.line == Line([], 0, false) && d.history.browsing.None?
            && d.history.entries ==
                 if c.shell.line.overflow then c.shell.history.entries
                 else Record(c.shell.history, Line(c.shell.line.text, |c.shell.line.text|, false)).entries
  {
    EnterDecodes(key);
  }

  lemma BrowsingKeepsEntries(h: History, l: Line)
    requires BrowsingOk(h)
    ensures Previous(h, l).0.entries == h.entries && Next(h, l).0.entries == h.entries
  {
  }

  /** No other key touches the recorded commands. */
  lemma OthersKeepEntries(c: Console, key: Key, names: seq<Bytes>, output: seq<Op>)
    requires ConsoleInv(c) && !IsEnter(key)
    ensures HandleKey(c, key, names, output).shell.history.entries == c.shell.history.entries
  {
    EnterDecodes(key);
    BrowsingKeepsEntries(c.shell.history, c.shell.line);
  }

  /** One key. */
  lemma KeyExtendsHistory(c: Console, k: KeyPress, names: seq<Bytes>, past: seq<Line>)
    requires ConsoleInv(c) && c.shell.history.entries == LastN(Records.Kept(past), 16)
    ensures HandleKey(c, k.key, names, k.output).shell.history.entries ==
            LastN(Records.Kept(past + Entered(c, k.key)), 16)
  {
    assert past + [] == past;
    if IsEnter(k.key) {
      EnterRecords(c, k.key, names, k.output);
      if !c.shell.line.overflow {
        RecordStep(c.shell.history, past, Entered(c, k.key)[0]);
      }
    } else {
      OthersKeepEntries(c, k.key, names, k.output);
    }
  }

  lemma FirstKey(c: Console, names: seq<Bytes>, keys: seq<KeyPress>, past: seq<Line>) returns (d: Console)
    requires ConsoleInv(c) && Printables(names) && forall i :: 0 <= i < |keys| ==> Clean(keys[i].output)
    requires keys != [] && c.shell.history.entries == LastN(Records.Kept(past), 16)
    ensures ConsoleInv(d) && Presses(c, names, keys) == Presses(d, names, keys[1..])
    ensures Submitted(c, names, keys) == Entered(c, keys[0].key) + Submitted(d, names, keys[1..])
    ensures d.shell.history.entries == LastN(Records.Kept(past + Entered(c, keys[0].key)), 16)
  {
    HandleKeyKeepsInv(c, keys[0].key, names, keys[0].output);
    KeyExtendsHistory(c, keys[0], names, past);
    d := HandleKey(c, keys[0].key, names, keys[0].output);
  }

  /** Over every run of keys the history is the last sixteen of the submitted
      lines, blank ones and consecutive repeats left out. */
  lemma {:induction false} HistoryHoldsSubmittedLines(c: Console, names: seq<Bytes>, keys: seq<KeyPress>, past: seq<Line>)
    requires ConsoleInv(c) && Printables(names) && forall i :: 0 <= i < |keys| ==> Clean(keys[i].output)
    requires c.shell.history.entries == LastN(Records.Kept(past), 16)
    ensures Presses(c, names, keys).shell.history.entries == LastN(Records.Kept(past + Submitted(c, names, keys)), 16)
    decreases |keys|
  {
    if keys == [] {
      NoKeys(c, names, keys, past);
    } else {
      var d := FirstKey(c, names, keys, past);
      HistoryHoldsSubmittedLines(d, names, keys[1..], past + Entered(c, keys[0].key));
      Associate(past, Entered(c, keys[0].key), Submitted(d, names, keys[1..]));
    }
  }

  lemma NoKeys(c: Console, names: seq<Bytes>, keys: seq<KeyPress>, past: seq<Line>)
    requires ConsoleInv(c) && Printables(names) && keys == []
    ensures Presses(c, names, keys) == c && past + Submitted(c, names, keys) == past
  {
  }

  lemma Associate(a: seq<Line>, b: seq<Line>, c: seq<Line>)
    ensures a + b + c == a + (b + c)
  {
  }

  /** Enter and then Up shows the line just submitted, unless it was all spaces
      or overflowed. */
  lemma UpRecallsTheLastCommand(c: Console, enter: Key, up: Key, names: seq<Bytes>, output: seq<Op>, more: seq<Op>)
    requires ConsoleInv(c) && Printables(names) && Clean(output) && Clean(more)
    requires IsEnter(enter) && (up == Unicode(16) || up == Raw(ArrowUp))
    requires !c.shell.line.overflow && exists i :: 0 <= i < |c.shell.line.text| && c.shell.line.text[i] != 32
    ensures var d := HandleKey(c, enter, names, output);
            && ConsoleInv(d)
            && HandleKey(d, up, names, more).shell.line.text == c.shell.line.text
            && HandleKey(d, up, names, more).shell.line.cursor == |c.shell.line.text|
  {
    var d := HandleKey(c, enter, names, output);
    HandleKeyKeepsInv(c, enter, names, output);
    EnterRecords(c, enter, names, output);
    BlankMeansSpaces(c.shell.line);
    RecordedIsNewest(c.shell.history, Line(c.shell.line.text, |c.shell.line.text|, false));
    UpShowsNewest(d, up, names, more);
  }

  lemma RecordedIsNewest(h: History, line: Line)
    requires !IsBlank(line.text)
    ensures var entries := Record(h, line).entries; entries != [] && entries[|entries| - 1].text == line.text
  {
  }

  lemma UpShowsNewest(d: Console, up: Key, names: seq<Bytes>, more: seq<Op>)
    requires ConsoleInv(d) && (up == Unicode(16) || up == Raw(ArrowUp))
    requires d.shell.history.entries != [] && d.shell.history.browsing.None?
    ensures var newest := d.shell.history.entries[|d.shell.history.entries| - 1];
            && HandleKey(d, up, names, more).shell.line.text == newest.text
            && HandleKey(d, up, names, more).shell.line.cursor == |newest.text|
  {
    BrowsingKeys(d, up, names, more);
  }
}
