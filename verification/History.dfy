/** The history ring and browsing it with Up and Down. */
module History {
  import opened Prelude
  import opened LineEditor

  const HISTORY_SIZE := 16

  datatype History = History(entries: seq<Line>, browsing: Option<nat>, draft: Line)

  const NO_HISTORY := History([], None, EMPTY)

  /** `trim().is_empty()`. */
  predicate IsBlank(text: Bytes) {
    forall i :: 0 <= i < |text| ==> text[i] == 32 || 9 <= text[i] <= 13
  }

  predicate RepeatsLast(entries: seq<Line>, line: Line) {
    entries != [] && entries[|entries| - 1].text == line.text
  }

  /** The last `n` elements of a sequence. */
  function LastN<T>(s: seq<T>, n: nat): seq<T> {
    if |s| <= n then s else s[|s| - n..]
  }

  function Record(h: History, line: Line): History {
    var entries := if IsBlank(line.text) || RepeatsLast(h.entries, line) then h.entries
                   else LastN(h.entries + [line], HISTORY_SIZE);
    h.(entries := entries, browsing := None)
  }

  function AtEndOfLine(l: Line): Line {
    l.(cursor := |l.text|)
  }

  predicate BrowsingOk(h: History) {
    h.browsing.Some? ==> h.browsing.value < |h.entries|
  }

  /** Up. */
  function Previous(h: History, current: Line): (History, Line)
    requires BrowsingOk(h)
  {
    if h.entries == [] then (h, current)
    else
      var (index, draft) :=
        if h.browsing.Some? then (SaturatingSub(h.browsing.value, 1), h.draft)
        else (|h.entries| - 1, current);
      (h.(browsing := Some(index), draft := draft), AtEndOfLine(h.entries[index]))
  }

  /** Down. */
  function Next(h: History, current: Line): (History, Line)
    requires BrowsingOk(h)
  {
    if h.browsing.None? then (h, current)
    else
      var index := h.browsing.value;
      if index + 1 < |h.entries| then (h.(browsing := Some(index + 1)), AtEndOfLine(h.entries[index + 1]))
      else (h.(browsing := None), h.draft)
  }

  // ---------------------------------------------------------------------
  // The ring holds the last sixteen kept commands

  /** The unbounded list: non-blank commands, consecutive repeats removed. */
  function Kept(lines: seq<Line>): seq<Line> {
    if lines == [] then []
    else
      var before, line := Kept(lines[..|lines| - 1]), lines[|lines| - 1];
      if IsBlank(line.text) || RepeatsLast(before, line) then before else before + [line]
  }

  function RecordAll(h: History, lines: seq<Line>): History {
    if lines == [] then h
    else Record(RecordAll(h, lines[..|lines| - 1]), lines[|lines| - 1])
  }

  lemma LastNSnoc<T>(s: seq<T>, x: T, n: nat)
    requires n > 0
    ensures LastN(LastN(s, n) + [x], n) == LastN(s + [x], n)
  {
  }

  /** Recording one more line. */
  lemma RecordStep(h: History, past: seq<Line>, line: Line)
    requires h.entries == LastN(Kept(past), HISTORY_SIZE)
    ensures Record(h, line).entries == LastN(Kept(past + [line]), HISTORY_SIZE)
  {
    assert (past + [line])[..|past|] == past;
    LastNSnoc(Kept(past), line, HISTORY_SIZE);
  }

  lemma {:induction false} HistoryIsLastSixteen(lines: seq<Line>)
    ensures RecordAll(NO_HISTORY, lines).entries == LastN(Kept(lines), HISTORY_SIZE)
    decreases |lines|
  {
    if lines != [] {
      var before, line := lines[..|lines| - 1], lines[|lines| - 1];
      HistoryIsLastSixteen(before);
      RecordStep(RecordAll(NO_HISTORY, before), before, line);
      assert before + [line] == lines;
    }
  }

  /** A line of the editor is blank exactly when it is all spaces. */
  lemma BlankMeansSpaces(l: Line)
    requires LineOk(l)
    ensures IsBlank(l.text) <==> forall i :: 0 <= i < |l.text| ==> l.text[i] == 32
  {
    if IsBlank(l.text) {
      forall i | 0 <= i < |l.text|
        ensures l.text[i] == 32
      {
        assert IsPrintable(l.text[i]);
      }
    }
  }

  // ---------------------------------------------------------------------
  // Down undoes Up

  /** `k` presses of Up; the line shown before each press is arbitrary. */
  function Ups(h: History, currents: seq<Line>): (r: History)
    requires BrowsingOk(h)
    ensures BrowsingOk(r) && r.entries == h.entries
    decreases |currents|
  {
    if currents == [] then h else Ups(Previous(h, currents[0]).0, currents[1..])
  }

  function Downs(h: History, currents: seq<Line>): (r: History)
    requires BrowsingOk(h)
    ensures BrowsingOk(r) && r.entries == h.entries
    decreases |currents|
  {
    if currents == [] then h else Downs(Next(h, currents[0]).0, currents[1..])
  }

  lemma {:induction false} UpsReach(h: History, currents: seq<Line>)
    requires h.browsing.Some? && BrowsingOk(h)
    ensures var r := Ups(h, currents);
            r.browsing == Some(SaturatingSub(h.browsing.value, |currents|)) && r.draft == h.draft
    decreases |currents|
  {
    if currents != [] {
      UpsReach(Previous(h, currents[0]).0, currents[1..]);
    }
  }

  lemma {:induction false} DownsReach(h: History, currents: seq<Line>)
    requires h.browsing.Some? && BrowsingOk(h) && h.browsing.value + |currents| < |h.entries|
    ensures var r := Downs(h, currents);
            r.browsing == Some(h.browsing.value + |currents|) && r.draft == h.draft
    decreases |currents|
  {
    if currents != [] {
      DownsReach(Next(h, currents[0]).0, currents[1..]);
    }
  }

  /** From an unbrowsed, non-empty history, k >= 1 Ups and then min(k, len)
      Downs return the line that was being typed, whole, whatever lines were
      on display in between. */
  lemma DraftIsRestored(h: History, draft: Line, ups: seq<Line>, downs: seq<Line>, last: Line)
    requires h.entries != [] && h.browsing.None?
    requires |downs| + 1 == Min(|ups| + 1, |h.entries|)
    ensures var up := Ups(h, [draft] + ups);
            var (end, line) := Next(Downs(up, downs), last);
            line == draft && end.browsing.None? && end.entries == h.entries
  {
    var first := Previous(h, draft).0;
    assert ([draft] + ups)[1..] == ups;
    assert Ups(h, [draft] + ups) == Ups(first, ups);
    UpsReach(first, ups);
    var up := Ups(first, ups);
    DownsReach(up, downs);
  }

  /** After k Ups the line on display is the k-th newest command, or the oldest. */
  lemma UpShowsOlderCommands(h: History, ups: seq<Line>, last: Line)
    requires h.entries != [] && h.browsing.None?
    ensures var e := h.entries[SaturatingSub(|h.entries|, |ups| + 1)];
            Previous(Ups(h, ups), last).1 == Line(e.text, |e.text|, e.overflow)
  {
    if ups != [] {
      UpsReach(Previous(h, ups[0]).0, ups[1..]);
    }
  }

  /** After k Ups, each Down before the draft comes back shows the next newer
      command. */
  lemma DownShowsNewerCommands(h: History, draft: Line, ups: seq<Line>, downs: seq<Line>, last: Line)
    requires h.entries != [] && h.browsing.None?
    requires |downs| + 1 < Min(|ups| + 1, |h.entries|)
    ensures var e := h.entries[SaturatingSub(|h.entries|, |ups| + 1) + |downs| + 1];
            Next(Downs(Ups(h, [draft] + ups), downs), last).1 == Line(e.text, |e.text|, e.overflow)
  {
    var first := Previous(h, draft).0;
    assert ([draft] + ups)[1..] == ups;
    assert Ups(h, [draft] + ups) == Ups(first, ups);
    UpsReach(first, ups);
    DownsReach(Ups(first, ups), downs);
  }

  // ---------------------------------------------------------------------
  // What browsing and recording keep

  predicate HistoryOk(h: History) {
    && |h.entries| <= HISTORY_SIZE && BrowsingOk(h)
    && (forall i :: 0 <= i < |h.entries| ==> LineOk(h.entries[i]))
    && LineOk(h.draft)
  }

  lemma RecordKeepsOk(h: History, line: Line)
    requires HistoryOk(h) && LineOk(line)
    ensures HistoryOk(Record(h, line))
  {
  }

  lemma BrowseKeepsOk(h: History, line: Line)
    requires HistoryOk(h) && LineOk(line)
    ensures HistoryOk(Previous(h, line).0) && LineOk(Previous(h, line).1)
    ensures HistoryOk(Next(h, line).0) && LineOk(Next(h, line).1)
  {
  }

  // ---------------------------------------------------------------------
  // The ring

  class HistoryRing {
    const lines: array<Line>
    var start: nat
    var len: nat
    var browsing: Option<nat>
    var draft: Line

    ghost predicate Valid()
      reads this, lines
    {
      lines.Length == HISTORY_SIZE && start < HISTORY_SIZE && len <= HISTORY_SIZE && BrowsingOk(View())
    }

    /** The slot of entry `index`. */
    static function Slot(start: nat, index: nat): (slot: nat)
      requires start < HISTORY_SIZE && index < HISTORY_SIZE
      ensures slot < HISTORY_SIZE
      ensures slot == if start + index < HISTORY_SIZE then start + index else start + index - HISTORY_SIZE
    {
      (start + index) % HISTORY_SIZE
    }

    ghost function View(): History
      requires lines.Length == HISTORY_SIZE && start < HISTORY_SIZE && len <= HISTORY_SIZE
      reads this, lines
    {
      History(Unrolled(lines[..], start, len), browsing, draft)
    }

    /** The entries of a ring, oldest first. */
    static function Unrolled(ring: seq<Line>, start: nat, len: nat): (entries: seq<Line>)
      requires |ring| == HISTORY_SIZE && start < HISTORY_SIZE && len <= HISTORY_SIZE
      ensures |entries| == len && forall i :: 0 <= i < len ==> entries[i] == ring[Slot(start, i)]
    {
      seq(len, i requires 0 <= i < len => ring[Slot(start, i)])
    }

    constructor ()
      ensures Valid() && View() == NO_HISTORY && fresh(lines)
    {
      lines := new Line[HISTORY_SIZE](_ => EMPTY);
      start, len, browsing, draft := 0, 0, None, EMPTY;
    }

    method Get(index: nat) returns (line: Line)
      requires Valid() && index < len
      ensures line == View().entries[index]
    {
      line := lines[Slot(start, index)];
    }

    static method Blank(text: Bytes) returns (blank: bool)
      ensures blank == IsBlank(text)
    {
      for i := 0 to |text|
        invariant forall j :: 0 <= j < i ==> text[j] == 32 || 9 <= text[j] <= 13
      {
        if !(text[i] == 32 || 9 <= text[i] <= 13) {
          return false;
        }
      }
      blank := true;
    }

    method RecordLine(line: Line)
      requires Valid()
      modifies this, lines
      ensures Valid() && View() == Record(old(View()), line)
    {
      StopBrowsing();
      var blank := Blank(line.text);
      if blank {
        return;
      }
      var repeated := IsRepeated(line);
      if repeated {
        return;
      }
      StoreLine(line);
    }

    method IsRepeated(line: Line) returns (repeated: bool)
      requires Valid()
      ensures repeated == RepeatsLast(View().entries, line)
    {
      if len == 0 {
        return false;
      }
      var newest := Get(len - 1);
      repeated := newest.text == line.text;
    }

    /** Overwrite the oldest entry when the ring is full. */
    method StoreLine(line: Line)
      requires Valid() && browsing.None?
      modifies this, lines
      ensures Valid() && View() == old(View()).(entries := LastN(old(View()).entries + [line], HISTORY_SIZE))
    {
      if len == HISTORY_SIZE {
        ReplaceOldest(line);
      } else {
        AppendNewest(line);
      }
    }

    /** `history.browsing = None`. */
    method StopBrowsing()
      requires Valid()
      modifies this`browsing
      ensures Valid() && View() == old(View()).(browsing := None)
    {
      browsing := None;
      assert View().entries == old(View()).entries;
    }

    method ReplaceOldest(line: Line)
      requires Valid() && len == HISTORY_SIZE
      modifies this`start, lines
      ensures Valid() && View() == old(View()).(entries := old(View()).entries[1..] + [line])
    {
      ghost var was := View().entries;
      lines[start] := line;
      start := Slot(start, 1);
      assert View().entries == was[1..] + [line];
    }

    method AppendNewest(line: Line)
      requires Valid() && len < HISTORY_SIZE
      modifies this`len, lines
      ensures Valid() && View() == old(View()).(entries := old(View()).entries + [line])
    {
      ghost var was := View().entries;
      lines[Slot(start, len)] := line;
      len := len + 1;
      assert View().entries == was + [line];
    }

    method PreviousLine(current: Line) returns (line: Line)
      requires Valid()
      modifies this
      ensures Valid() && (View(), line) == Previous(old(View()), current)
    {
      if len == 0 {
        return current;
      }
      var index;
      if browsing.Some? {
        index := SaturatingSub(browsing.value, 1);
      } else {
        draft := current;
        index := len - 1;
      }
      browsing := Some(index);
      line := Get(index);
      line := line.(cursor := |line.text|);
      assert View().entries == old(View()).entries;
    }

    method NextLine(current: Line) returns (line: Line)
      requires Valid()
      modifies this
      ensures Valid() && (View(), line) == Next(old(View()), current)
    {
      if browsing.Some? && browsing.value + 1 < len {
        var index := browsing.value + 1;
        browsing := Some(index);
        line := Get(index);
        line := line.(cursor := |line.text|);
      } else if browsing.Some? {
        browsing := None;
        line := draft;
      } else {
        line := current;
      }
      assert View().entries == old(View()).entries;
    }
  }
}
