/** The bounded command-line editor. */
module LineEditor {
  import opened Prelude

  const MAX_INPUT := 256

  /** The meaning of a line buffer: its text, a cursor into it, and whether
      input was rejected for lack of room. */
  datatype Line = Line(text: Bytes, cursor: nat, overflow: bool)

  const EMPTY := Line([], 0, false)

  predicate LineOk(l: Line) {
    && l.cursor <= |l.text| <= MAX_INPUT
    && (forall i :: 0 <= i < |l.text| ==> IsPrintable(l.text[i]))
    && (l.overflow ==> |l.text| == MAX_INPUT)
  }

  function Insert(l: Line, b: byte): Line
    requires l.cursor <= |l.text|
  {
    if !IsPrintable(b) then l
    else if |l.text| == MAX_INPUT then l.(overflow := true)
    else l.(text := l.text[..l.cursor] + [b] + l.text[l.cursor..], cursor := l.cursor + 1)
  }

  function Delete(l: Line): Line {
    if l.cursor < |l.text| then
      l.(text := l.text[..l.cursor] + l.text[l.cursor + 1..], overflow := false)
    else
      l
  }

  function Backspace(l: Line): Line {
    if l.cursor > 0 then Delete(l.(cursor := l.cursor - 1)) else l
  }

  /** Backspace over the spaces before the cursor. */
  function EraseSpaces(l: Line): (r: Line)
    requires l.cursor <= |l.text|
    ensures r.cursor <= |r.text|
    decreases l.cursor
  {
    if l.cursor > 0 && l.text[l.cursor - 1] == 32 then EraseSpaces(Backspace(l)) else l
  }

  /** Backspace over the word before the cursor. */
  function EraseWord(l: Line): (r: Line)
    requires l.cursor <= |l.text|
    ensures r.cursor <= |r.text|
    decreases l.cursor
  {
    if l.cursor > 0 && l.text[l.cursor - 1] != 32 then EraseWord(Backspace(l)) else l
  }

  function DeleteWord(l: Line): Line
    requires l.cursor <= |l.text|
  {
    EraseWord(EraseSpaces(l))
  }

  /** Ctrl+U. */
  function KillToStart(l: Line): Line
    requires l.cursor <= |l.text|
  {
    Line(l.text[l.cursor..], 0, l.overflow && l.cursor == 0)
  }

  /** Ctrl+K. */
  function KillToEnd(l: Line): Line
    requires l.cursor <= |l.text|
  {
    Line(l.text[..l.cursor], l.cursor, l.overflow && l.cursor == |l.text|)
  }

  datatype Edit =
    | Type(b: byte) | Del | Back | Word | KillStart | KillEnd
    | Home | End | Left | Right

  function Apply(l: Line, e: Edit): Line
    requires l.cursor <= |l.text|
  {
    match e
    case Type(b) => Insert(l, b)
    case Del => Delete(l)
    case Back => Backspace(l)
    case Word => DeleteWord(l)
    case KillStart => KillToStart(l)
    case KillEnd => KillToEnd(l)
    case Home => l.(cursor := 0)
    case End => l.(cursor := |l.text|)
    case Left => l.(cursor := SaturatingSub(l.cursor, 1))
    case Right => l.(cursor := Min(l.cursor + 1, |l.text|))
  }

  // ---------------------------------------------------------------------
  // Reference: the text before and after the cursor

  datatype Split = Split(before: Bytes, after: Bytes, overflow: bool)

  function Halves(l: Line): Split
    requires l.cursor <= |l.text|
  {
    Split(l.text[..l.cursor], l.text[l.cursor..], l.overflow)
  }

  function DropLast(s: Bytes): Bytes
    requires s != []
  {
    s[..|s| - 1]
  }

  function TrimSpaces(s: Bytes): Bytes {
    if s != [] && s[|s| - 1] == 32 then TrimSpaces(DropLast(s)) else s
  }

  function TrimWord(s: Bytes): Bytes {
    if s != [] && s[|s| - 1] != 32 then TrimWord(DropLast(s)) else s
  }

  function Reference(p: Split, e: Edit): Split {
    match e
    case Type(b) =>
      if !IsPrintable(b) then p
      else if |p.before| + |p.after| == MAX_INPUT then p.(overflow := true)
      else p.(before := p.before + [b])
    case Del => if p.after == [] then p else Split(p.before, p.after[1..], false)
    case Back => if p.before == [] then p else Split(DropLast(p.before), p.after, false)
    case Word =>
      var before := TrimWord(TrimSpaces(p.before));
      Split(before, p.after, p.overflow && before == p.before)
    case KillStart => Split([], p.after, p.overflow && p.before == [])
    case KillEnd => Split(p.before, [], p.overflow && p.after == [])
    case Home => Split([], p.before + p.after, p.overflow)
    case End => Split(p.before + p.after, [], p.overflow)
    case Left => if p.before == [] then p
                 else Split(DropLast(p.before), [p.before[|p.before| - 1]] + p.after, p.overflow)
    case Right => if p.after == [] then p
                  else Split(p.before + [p.after[0]], p.after[1..], p.overflow)
  }

  lemma BackspaceHalves(l: Line)
    requires 0 < l.cursor <= |l.text|
    ensures Backspace(l).cursor == l.cursor - 1 <= |Backspace(l).text|
    ensures Halves(Backspace(l)) == Split(DropLast(l.text[..l.cursor]), l.text[l.cursor..], false)
  {
    var r := Backspace(l);
    assert r.text[..l.cursor - 1] == DropLast(l.text[..l.cursor]);
    assert r.text[l.cursor - 1..] == l.text[l.cursor..];
  }

  lemma {:induction false} EraseSpacesHalves(l: Line)
    requires l.cursor <= |l.text|
    ensures var p, q := Halves(l), Halves(EraseSpaces(l));
            && q.before == TrimSpaces(p.before) && q.after == p.after
            && q.overflow == (p.overflow && q.before == p.before)
            && |q.before| <= |p.before|
    decreases l.cursor
  {
    if l.cursor > 0 && l.text[l.cursor - 1] == 32 {
      BackspaceHalves(l);
      EraseSpacesHalves(Backspace(l));
    }
  }

  lemma {:induction false} EraseWordHalves(l: Line)
    requires l.cursor <= |l.text|
    ensures var p, q := Halves(l), Halves(EraseWord(l));
            && q.before == TrimWord(p.before) && q.after == p.after
            && q.overflow == (p.overflow && q.before == p.before)
            && |q.before| <= |p.before|
    decreases l.cursor
  {
    if l.cursor > 0 && l.text[l.cursor - 1] != 32 {
      BackspaceHalves(l);
      EraseWordHalves(Backspace(l));
    }
  }

  lemma DeleteWordHalves(l: Line)
    requires l.cursor <= |l.text|
    ensures DeleteWord(l).cursor <= |DeleteWord(l).text|
    ensures Halves(DeleteWord(l)) == Reference(Halves(l), Word)
  {
    EraseSpacesHalves(l);
    EraseWordHalves(EraseSpaces(l));
    var before := l.text[..l.cursor];
    TrimIsPrefix(before);
    TrimIsPrefix(TrimSpaces(before));
  }

  lemma InsertHalves(l: Line, b: byte)
    requires l.cursor <= |l.text|
    ensures Insert(l, b).cursor <= |Insert(l, b).text|
    ensures Halves(Insert(l, b)) == Reference(Halves(l), Type(b))
  {
    var r := Insert(l, b);
    if r.cursor > l.cursor {
      assert r.text[..r.cursor] == l.text[..l.cursor] + [b];
      assert r.text[r.cursor..] == l.text[l.cursor..];
    }
  }

  lemma DeleteHalves(l: Line)
    requires l.cursor <= |l.text|
    ensures Delete(l).cursor <= |Delete(l).text|
    ensures Halves(Delete(l)) == Reference(Halves(l), Del)
  {
    var r := Delete(l);
    if l.cursor < |l.text| {
      assert r.text[..r.cursor] == l.text[..l.cursor];
      assert r.text[r.cursor..] == l.text[l.cursor..][1..];
    }
  }

  lemma MoveHalves(l: Line, e: Edit)
    requires l.cursor <= |l.text| && (e.Home? || e.End? || e.Left? || e.Right?)
    ensures Apply(l, e).cursor <= |Apply(l, e).text|
    ensures Halves(Apply(l, e)) == Reference(Halves(l), e)
  {
    assert l.text[..l.cursor] + l.text[l.cursor..] == l.text;
    if e.Left? && l.cursor > 0 {
      assert l.text[l.cursor - 1..] == [l.text[l.cursor - 1]] + l.text[l.cursor..];
      assert l.text[..l.cursor - 1] == DropLast(l.text[..l.cursor]);
    } else if e.Right? && l.cursor < |l.text| {
      assert l.text[..l.cursor + 1] == l.text[..l.cursor] + [l.text[l.cursor]];
      assert l.text[l.cursor + 1..] == l.text[l.cursor..][1..];
    }
  }

  /** Every edit acts on the two halves as the reference says. */
  lemma EditRefinesHalves(l: Line, e: Edit)
    requires l.cursor <= |l.text|
    ensures Apply(l, e).cursor <= |Apply(l, e).text|
    ensures Halves(Apply(l, e)) == Reference(Halves(l), e)
  {
    match e
    case Type(b) => InsertHalves(l, b);
    case Del => DeleteHalves(l);
    case Back => if l.cursor > 0 { BackspaceHalves(l); }
    case Word => DeleteWordHalves(l);
    case KillStart =>
    case KillEnd =>
    case _ => MoveHalves(l, e);
  }

  // ---------------------------------------------------------------------
  // What the reference keeps

  predicate SplitOk(p: Split) {
    && |p.before| + |p.after| <= MAX_INPUT
    && (forall i :: 0 <= i < |p.before| ==> IsPrintable(p.before[i]))
    && (forall i :: 0 <= i < |p.after| ==> IsPrintable(p.after[i]))
    && (p.overflow ==> |p.before| + |p.after| == MAX_INPUT)
  }

  lemma HalvesOk(l: Line)
    requires l.cursor <= |l.text|
    ensures LineOk(l) <==> SplitOk(Halves(l))
  {
    assert l.text == l.text[..l.cursor] + l.text[l.cursor..];
  }

  lemma {:induction false} TrimIsPrefix(s: Bytes)
    ensures TrimSpaces(s) <= s && TrimWord(s) <= s
    decreases |s|
  {
    if s != [] {
      TrimIsPrefix(DropLast(s));
    }
  }

  lemma ReferenceKeepsOk(p: Split, e: Edit)
    requires SplitOk(p)
    ensures SplitOk(Reference(p, e))
  {
    if e.Word? {
      TrimIsPrefix(p.before);
      TrimIsPrefix(TrimSpaces(p.before));
    }
  }

  function Edits(l: Line, es: seq<Edit>): Line
    requires LineOk(l)
    decreases |es|
  {
    if es == [] then l
    else
      EditKeepsOk(l, es[0]);
      Edits(Apply(l, es[0]), es[1..])
  }

  lemma EditKeepsOk(l: Line, e: Edit)
    requires LineOk(l)
    ensures LineOk(Apply(l, e))
  {
    EditRefinesHalves(l, e);
    HalvesOk(l);
    ReferenceKeepsOk(Halves(l), e);
    HalvesOk(Apply(l, e));
  }

  function References(p: Split, es: seq<Edit>): Split
    decreases |es|
  {
    if es == [] then p else References(Reference(p, es[0]), es[1..])
  }

  /** Over every sequence of edits the buffer stays within bounds, printable,
      and equal to the before/after pair. */
  lemma {:induction false} EditorRefinesReference(l: Line, es: seq<Edit>)
    requires LineOk(l)
    ensures LineOk(Edits(l, es))
    ensures Halves(Edits(l, es)) == References(Halves(l), es)
    decreases |es|
  {
    if es != [] {
      EditKeepsOk(l, es[0]);
      EditRefinesHalves(l, es[0]);
      EditorRefinesReference(Apply(l, es[0]), es[1..]);
    }
  }

  /** Ctrl+W splits the text before the cursor into what stays, one word and
      the spaces after it, each as long as it can be. */
  lemma DeleteWordRemovesSpacesThenWord(before: Bytes) returns (word: Bytes, spaces: Bytes)
    ensures var kept := TrimWord(TrimSpaces(before));
            && before == kept + word + spaces
            && (forall i :: 0 <= i < |spaces| ==> spaces[i] == 32)
            && (forall i :: 0 <= i < |word| ==> word[i] != 32)
            && (kept != [] ==> kept[|kept| - 1] == 32)
            && (word == [] ==> kept == [])
  {
    var middle := TrimSpaces(before);
    var kept := TrimWord(middle);
    TrimIsPrefix(before);
    TrimIsPrefix(middle);
    TrimSpacesStops(before);
    TrimWordStops(middle);
    spaces := before[|middle|..];
    word := middle[|kept|..];
  }

  lemma {:induction false} TrimSpacesStops(s: Bytes)
    ensures |TrimSpaces(s)| <= |s|
    ensures TrimSpaces(s) != [] ==> TrimSpaces(s)[|TrimSpaces(s)| - 1] != 32
    ensures forall i :: |TrimSpaces(s)| <= i < |s| ==> s[i] == 32
    decreases |s|
  {
    if s != [] && s[|s| - 1] == 32 {
      TrimSpacesStops(DropLast(s));
    }
  }

  lemma {:induction false} TrimWordStops(s: Bytes)
    ensures |TrimWord(s)| <= |s|
    ensures TrimWord(s) != [] ==> TrimWord(s)[|TrimWord(s)| - 1] == 32
    ensures forall i :: |TrimWord(s)| <= i < |s| ==> s[i] != 32
    decreases |s|
  {
    if s != [] && s[|s| - 1] != 32 {
      TrimWordStops(DropLast(s));
    }
  }

  // ---------------------------------------------------------------------
  // The buffer

  lemma CopyIsSplice(was: Bytes, now: Bytes, from: nat, n: nat, dest: nat)
    requires |now| == |was| && from + n <= |was| && dest + n <= |was|
    requires forall j :: dest <= j < dest + n ==> now[j] == was[from + j - dest]
    requires forall j :: 0 <= j < dest || dest + n <= j < |was| ==> now[j] == was[j]
    ensures now == was[..dest] + was[from..from + n] + was[dest + n..]
  {
  }

  /** Shifting the tail right and storing a byte inserts it. */
  lemma ShiftInserts(was: Bytes, len: nat, cursor: nat, b: byte)
    requires cursor <= len < |was|
    ensures var moved := was[..cursor + 1] + was[cursor..len] + was[len + 1..];
            moved[cursor := b][..len + 1] == was[..len][..cursor] + [b] + was[..len][cursor..]
  {
  }

  /** Shifting the tail left deletes a byte. */
  lemma ShiftDeletes(was: Bytes, len: nat, cursor: nat)
    requires cursor < len <= |was|
    ensures var moved := was[..cursor] + was[cursor + 1..len] + was[len - 1..];
            moved[..len - 1] == was[..len][..cursor] + was[..len][cursor + 1..]
  {
  }

  class LineBuffer {
    const bytes: array<byte>
    var len: nat
    var cursor: nat
    var overflow: bool

    ghost predicate Valid()
      reads this, bytes
    {
      bytes.Length == MAX_INPUT && cursor <= len <= MAX_INPUT && LineOk(View())
    }

    ghost function View(): Line
      requires len <= bytes.Length
      reads this, bytes
    {
      Line(bytes[..len], cursor, overflow)
    }

    constructor ()
      ensures Valid() && View() == EMPTY && fresh(bytes)
    {
      bytes := new byte[MAX_INPUT](_ => 0);
      len, cursor, overflow := 0, 0, false;
    }

    /** `copy_within(from..to, dest)`: the ranges may overlap, so the direction
        of the copy matters. */
    method CopyWithin(from: nat, to: nat, dest: nat)
      requires from <= to <= bytes.Length && dest + (to - from) <= bytes.Length
      modifies bytes
      ensures bytes[..] == old(bytes[..dest] + bytes[from..to] + bytes[dest + (to - from)..])
    {
      if dest <= from {
        CopyForward(from, to - from, dest);
      } else {
        CopyBackward(from, to - from, dest);
      }
      CopyIsSplice(old(bytes[..]), bytes[..], from, to - from, dest);
    }

    method CopyForward(from: nat, n: nat, dest: nat)
      requires dest <= from && from + n <= bytes.Length
      modifies bytes
      ensures forall j :: dest <= j < dest + n ==> bytes[j] == old(bytes[..])[from + j - dest]
      ensures forall j :: 0 <= j < dest || dest + n <= j < bytes.Length ==> bytes[j] == old(bytes[..])[j]
    {
      ghost var was := bytes[..];
      for i := 0 to n
        invariant forall j :: dest <= j < dest + i ==> bytes[j] == was[from + j - dest]
        invariant forall j :: 0 <= j < dest || dest + i <= j < bytes.Length ==> bytes[j] == was[j]
      {
        bytes[dest + i] := bytes[from + i];
      }
    }

    method CopyBackward(from: nat, n: nat, dest: nat)
      requires from <= dest && dest + n <= bytes.Length
      modifies bytes
      ensures forall j :: dest <= j < dest + n ==> bytes[j] == old(bytes[..])[from + j - dest]
      ensures forall j :: 0 <= j < dest || dest + n <= j < bytes.Length ==> bytes[j] == old(bytes[..])[j]
    {
      ghost var was := bytes[..];
      for i := n downto 0
        invariant forall j :: dest + i <= j < dest + n ==> bytes[j] == was[from + j - dest]
        invariant forall j :: 0 <= j < dest + i || dest + n <= j < bytes.Length ==> bytes[j] == was[j]
      {
        bytes[dest + i] := bytes[from + i];
      }
    }

    method InsertByte(b: byte) returns (accepted: bool)
      requires Valid()
      modifies this, bytes
      ensures Valid() && View() == Insert(old(View()), b)
      ensures accepted == (IsPrintable(b) && old(len) < MAX_INPUT)
    {
      EditKeepsOk(View(), Type(b));
      if !(IsGraphic(b) || b == 32) {
        return false;
      }
      if len == MAX_INPUT {
        overflow := true;
        return false;
      }
      ghost var was := bytes[..];
      ShiftInserts(was, len, cursor, b);
      CopyWithin(cursor, len, cursor + 1);
      ghost var moved := bytes[..];
      bytes[cursor] := b;
      assert bytes[..] == moved[cursor := b];
      cursor := cursor + 1;
      len := len + 1;
      assert bytes[..len] == bytes[..][..len];
      accepted := true;
    }

    method DeleteByte()
      requires Valid()
      modifies this`len, this`overflow, bytes
      ensures Valid() && View() == Delete(old(View()))
    {
      EditKeepsOk(View(), Del);
      if cursor < len {
        ShiftDeletes(bytes[..], len, cursor);
        CopyWithin(cursor + 1, len, cursor);
        len := len - 1;
        overflow := false;
        assert bytes[..len] == bytes[..][..len];
      }
    }

    method BackspaceByte()
      requires Valid()
      modifies this, bytes
      ensures Valid() && View() == Backspace(old(View()))
    {
      if cursor > 0 {
        cursor := cursor - 1;
        DeleteByte();
      }
    }

    method EraseLastWord()
      requires Valid()
      modifies this, bytes
      ensures Valid() && View() == DeleteWord(old(View()))
    {
      EraseTrailingSpaces();
      EraseTrailingWord();
    }

    method EraseTrailingSpaces()
      requires Valid()
      modifies this, bytes
      ensures Valid() && View() == EraseSpaces(old(View()))
    {
      while cursor > 0 && bytes[cursor - 1] == 32
        invariant Valid() && EraseSpaces(View()) == EraseSpaces(old(View()))
        decreases cursor
      {
        assert View().text[cursor - 1] == bytes[cursor - 1];
        assert EraseSpaces(View()) == EraseSpaces(Backspace(View()));
        BackspaceByte();
      }
      assert cursor > 0 ==> View().text[cursor - 1] == bytes[cursor - 1];
    }

    method EraseTrailingWord()
      requires Valid()
      modifies this, bytes
      ensures Valid() && View() == EraseWord(old(View()))
    {
      while cursor > 0 && bytes[cursor - 1] != 32
        invariant Valid() && EraseWord(View()) == EraseWord(old(View()))
        decreases cursor
      {
        assert View().text[cursor - 1] == bytes[cursor - 1];
        assert EraseWord(View()) == EraseWord(Backspace(View()));
        BackspaceByte();
      }
      assert cursor > 0 ==> View().text[cursor - 1] == bytes[cursor - 1];
    }

    /** Ctrl+U in `handle_key`. */
    method EraseToStart()
      requires Valid()
      modifies this, bytes
      ensures Valid() && View() == KillToStart(old(View()))
    {
      EditKeepsOk(View(), KillStart);
      var oldLen := len;
      ghost var after := KillToStart(View());
      CopyWithin(cursor, len, 0);
      len := len - cursor;
      cursor := 0;
      if len < oldLen {
        overflow := false;
      }
      assert bytes[..len] == after.text;
    }

    /** Ctrl+K in `handle_key`. */
    method EraseToEnd()
      requires Valid()
      modifies this
      ensures Valid() && View() == KillToEnd(old(View()))
    {
      EditKeepsOk(View(), KillEnd);
      var oldLen := len;
      ghost var after := KillToEnd(View());
      len := cursor;
      if len < oldLen {
        overflow := false;
      }
      assert bytes[..len] == after.text;
    }
  }
}
