/** HTML to text. */
module Html {
  import opened Prelude
  import opened Scanning

  const LT: byte := 60
  const GT: byte := 62
  const AMP: byte := 38
  const QUOT: byte := 34
  const SPACE: byte := 32
  const NEWLINE: byte := 10

  function AmpEntity(): Bytes { [38, 97, 109, 112, 59] }
  function LtEntity(): Bytes { [38, 108, 116, 59] }
  function GtEntity(): Bytes { [38, 103, 116, 59] }
  function QuotEntity(): Bytes { [38, 113, 117, 111, 116, 59] }
  function NbspEntity(): Bytes { [38, 110, 98, 115, 112, 59] }

  /** The entities decoded, and what they stand for. */
  function Entities(): seq<(Bytes, byte)> {
    [(AmpEntity(), AMP), (LtEntity(), LT), (GtEntity(), GT), (QuotEntity(), QUOT), (NbspEntity(), SPACE)]
  }

  /** The first entry of a table that `s` starts with: its character and the
      number of bytes it takes. */
  function Lookup(s: Bytes, table: seq<(Bytes, byte)>): (r: Option<(byte, nat)>)
    ensures r.Some? ==> exists k :: 0 <= k < |table| && StartsWith(s, table[k].0) && r.value == (table[k].1, |table[k].0|)
  {
    if table == [] then None
    else if StartsWith(s, table[0].0) then Some((table[0].1, |table[0].0|))
    else
      var r := Lookup(s, table[1..]);
      assert forall k :: 0 <= k < |table[1..]| ==> table[1..][k] == table[k + 1];
      r
  }

  function Entity(s: Bytes): Option<(byte, nat)> {
    Lookup(s, Entities())
  }

  /** What is decoded: a special character, and one or more bytes of `s`. */
  lemma EntityFacts(s: Bytes)
    requires Entity(s).Some?
    ensures 1 <= Entity(s).value.1 <= |s|
    ensures Entity(s).value.0 in {AMP, LT, GT, QUOT, SPACE}
    ensures Entity(s).value.0 == SPACE ==> StartsWith(s, NbspEntity())
  {
  }

  lemma {:induction false} LookupFinds(s: Bytes, table: seq<(Bytes, byte)>, k: nat)
    requires k < |table| && StartsWith(s, table[k].0)
    requires forall j :: 0 <= j < k ==> !StartsWith(s, table[j].0)
    ensures Lookup(s, table) == Some((table[k].1, |table[k].0|))
    decreases k
  {
    if k > 0 {
      assert !StartsWith(s, table[0].0);
      assert forall j :: 0 <= j < k - 1 ==> table[1..][j] == table[j + 1];
      LookupFinds(s, table[1..], k - 1);
    }
  }

  /** Entities differ in their second byte. */
  lemma EntityIs(s: Bytes, k: nat)
    requires k < 5 && StartsWith(s, Entities()[k].0)
    ensures Entity(s) == Some((Entities()[k].1, |Entities()[k].0|))
  {
    var e := Entities()[k].0;
    assert s[1] == s[..|e|][1] == e[1];
    forall j | 0 <= j < k
      ensures !StartsWith(s, Entities()[j].0)
    {
      NotAtStart(s, Entities()[j].0, 1);
    }
    LookupFinds(s, Entities(), k);
  }

  lemma {:induction false} NoEntity(s: Bytes)
    requires s != [] && s[0] != AMP
    ensures Entity(s).None?
  {
    forall k | 0 <= k < 5
      ensures !StartsWith(s, Entities()[k].0)
    {
      NotAtStart(s, Entities()[k].0, 0);
    }
  }

  // ---------------------------------------------------------------------
  // Tags

  /** The bytes of a tag up to the first blank. */
  function TagName(tag: Bytes): Bytes {
    if tag == [] || IsWhitespace(tag[0]) then [] else [tag[0]] + TagName(tag[1..])
  }

  predicate NameIn(name: Bytes, names: seq<Bytes>) {
    exists i :: 0 <= i < |names| && EqualsIgnoringCase(name, names[i])
  }

  /** script, style */
  function Hiding(): seq<Bytes> {
    [[115, 99, 114, 105, 112, 116], [115, 116, 121, 108, 101]]
  }

  /** /script, /style */
  function Revealing(): seq<Bytes> {
    [[47, 115, 99, 114, 105, 112, 116], [47, 115, 116, 121, 108, 101]]
  }

  /** br, p, /p, div, /div, li, /li, h1, /h1, h2, /h2, title, /title */
  function Blocks(): seq<Bytes> {
    [[98, 114], [112], [47, 112], [100, 105, 118], [47, 100, 105, 118], [108, 105], [47, 108, 105],
     [104, 49], [47, 104, 49], [104, 50], [47, 104, 50], [116, 105, 116, 108, 101], [47, 116, 105, 116, 108, 101]]
  }

  // ---------------------------------------------------------------------
  // One item of a page

  /** What one turn of the loop does: bytes taken, the new `hidden`, and the
      text appended. */
  datatype Item = Item(taken: nat, hidden: bool, text: Bytes)

  function EndOf(last: Option<byte>, text: Bytes): Option<byte> {
    if text == [] then last else Some(text[|text| - 1])
  }

  function TagItem(tag: Bytes, hidden: bool, last: Option<byte>): (item: Item)
    ensures item.taken == |tag| + 2 && |item.text| <= 1
  {
    var name := TagName(tag);
    if NameIn(name, Hiding()) then Item(|tag| + 2, true, [])
    else if NameIn(name, Revealing()) then Item(|tag| + 2, false, [])
    else if !hidden && NameIn(name, Blocks()) && last != Some(NEWLINE) then Item(|tag| + 2, hidden, [NEWLINE])
    else Item(|tag| + 2, hidden, [])
  }

  /** A byte, or an entity, outside tags. */
  function TextItem(s: Bytes, hidden: bool, last: Option<byte>): (item: Item)
    requires s != []
    ensures 1 <= item.taken <= |s| && |item.text| <= 1
  {
    var entity := Entity(s);
    if hidden then Item(1, hidden, [])
    else if entity.Some? then EntityFacts(s); Item(entity.value.1, hidden, [entity.value.0])
    else if IsWhitespace(s[0]) then
      Item(1, hidden, if last != Some(SPACE) && last != Some(NEWLINE) then [SPACE] else [])
    else Item(1, hidden, if IsGraphic(s[0]) then [s[0]] else [])
  }

  function NextItem(s: Bytes, hidden: bool, last: Option<byte>): (item: Item)
    requires s != []
    ensures 1 <= item.taken <= |s| && |item.text| <= 1
  {
    var end := Find(s, GT);
    if s[0] == LT && end.Some? then TagItem(s[1..end.value], hidden, last)
    else TextItem(s, hidden, last)
  }

  /** The text appended for `s`, given the last character before it. */
  function Rendered(s: Bytes, hidden: bool, last: Option<byte>): Bytes
    decreases |s|, 1
  {
    if s == [] then [] else RenderedFrom(s, hidden, last)
  }

  function RenderedFrom(s: Bytes, hidden: bool, last: Option<byte>): Bytes
    requires s != []
    decreases |s|, 0
  {
    var item := NextItem(s, hidden, last);
    item.text + Rendered(s[item.taken..], item.hidden, EndOf(last, item.text))
  }

  /** Take the first item off. */
  lemma FirstItem(s: Bytes, hidden: bool, last: Option<byte>)
    requires s != []
    ensures var item := NextItem(s, hidden, last);
            Rendered(s, hidden, last) == item.text + Rendered(s[item.taken..], item.hidden, EndOf(last, item.text))
  {
    assert Rendered(s, hidden, last) == RenderedFrom(s, hidden, last);
  }

  // ---------------------------------------------------------------------
  // Length and shape

  /** At most one character for each byte taken. */
  lemma {:induction false} AtMostOneCharacterPerByte(s: Bytes, hidden: bool, last: Option<byte>)
    ensures |Rendered(s, hidden, last)| <= |s|
    decreases |s|
  {
    if s != [] {
      FirstItem(s, hidden, last);
      var item := NextItem(s, hidden, last);
      AtMostOneCharacterPerByte(s[item.taken..], item.hidden, EndOf(last, item.text));
    }
  }

  /** Nothing but printable characters and newlines. */
  lemma {:induction false} OnlyPrintable(s: Bytes, hidden: bool, last: Option<byte>)
    ensures forall i :: 0 <= i < |Rendered(s, hidden, last)| ==>
              IsPrintable(Rendered(s, hidden, last)[i]) || Rendered(s, hidden, last)[i] == NEWLINE
    decreases |s|
  {
    if s != [] {
      FirstItem(s, hidden, last);
      var item := NextItem(s, hidden, last);
      if Entity(s).Some? {
        EntityFacts(s);
      }
      OnlyPrintable(s[item.taken..], item.hidden, EndOf(last, item.text));
    }
  }

  /** `b` may follow `last`: no blank line, no leading or double space. */
  predicate MayFollow(last: Option<byte>, b: byte) {
    && !(last == Some(NEWLINE) && (b == NEWLINE || b == SPACE))
    && !(last == Some(SPACE) && b == SPACE)
  }

  /** Every character may follow the one before it. */
  predicate Tidy(last: Option<byte>, text: Bytes)
    decreases |text|
  {
    text == [] || (MayFollow(last, text[0]) && Tidy(Some(text[0]), text[1..]))
  }

  predicate NoNbsp(s: Bytes) {
    forall i :: 0 <= i < |s| ==> !StartsWith(s[i..], NbspEntity())
  }

  lemma ItemIsTidy(s: Bytes, hidden: bool, last: Option<byte>)
    requires s != [] && !StartsWith(s, NbspEntity())
    ensures var text := NextItem(s, hidden, last).text; text != [] ==> MayFollow(last, text[0])
  {
    if Entity(s).Some? {
      EntityFacts(s);
    }
  }

  lemma NoNbspAfter(s: Bytes, n: nat)
    requires NoNbsp(s) && n <= |s|
    ensures NoNbsp(s[n..])
  {
    forall i | 0 <= i < |s| - n
      ensures !StartsWith(s[n..][i..], NbspEntity())
    {
      assert s[n..][i..] == s[n + i..];
    }
  }

  /** Without `&nbsp;` a page never yields a blank line, a space after a
      newline, or two spaces in a row. */
  lemma {:induction false} RenderedIsTidy(s: Bytes, hidden: bool, last: Option<byte>)
    requires NoNbsp(s)
    ensures Tidy(last, Rendered(s, hidden, last))
    decreases |s|
  {
    if s != [] {
      assert s[0..] == s;
      ItemIsTidy(s, hidden, last);
      FirstItem(s, hidden, last);
      var item := NextItem(s, hidden, last);
      NoNbspAfter(s, item.taken);
      RenderedIsTidy(s[item.taken..], item.hidden, EndOf(last, item.text));
      var rest := Rendered(s[item.taken..], item.hidden, EndOf(last, item.text));
      if item.text == [] {
        assert item.text + rest == rest;
      } else {
        assert (item.text + rest)[0] == item.text[0] && (item.text + rest)[1..] == rest;
      }
    }
  }

  /** Tidiness, pair by pair. */
  lemma {:induction false} TidyPairs(last: Option<byte>, text: Bytes, i: nat)
    requires Tidy(last, text) && i < |text|
    ensures MayFollow(if i == 0 then last else Some(text[i - 1]), text[i])
    decreases i
  {
    if i > 0 {
      TidyPairs(Some(text[0]), text[1..], i - 1);
    }
  }

  /** The same, about adjacent characters, for text that starts a line. */
  lemma NoBlankRuns(s: Bytes)
    requires NoNbsp(s)
    ensures var text := Rendered(s, false, Some(NEWLINE));
            && (text != [] ==> text[0] != NEWLINE && text[0] != SPACE)
            && forall i :: 0 < i < |text| ==>
                 && !(text[i - 1] == NEWLINE && (text[i] == NEWLINE || text[i] == SPACE))
                 && !(text[i - 1] == SPACE && text[i] == SPACE)
  {
    var text := Rendered(s, false, Some(NEWLINE));
    RenderedIsTidy(s, false, Some(NEWLINE));
    forall i | 0 <= i < |text|
      ensures MayFollow(if i == 0 then Some(NEWLINE) else Some(text[i - 1]), text[i])
    {
      TidyPairs(Some(NEWLINE), text, i);
    }
  }

  /** A shown `&nbsp;` is at the start of `s`. */
  predicate ShowsNbsp(s: Bytes, hidden: bool) {
    !hidden && StartsWith(s, NbspEntity())
  }

  /** No shown `&nbsp;` follows a space or a newline in the text. */
  predicate NbspFits(s: Bytes, hidden: bool, last: Option<byte>)
    decreases |s|
  {
    s == [] ||
    var item := NextItem(s, hidden, last);
    && (ShowsNbsp(s, hidden) ==> last != Some(SPACE) && last != Some(NEWLINE))
    && NbspFits(s[item.taken..], item.hidden, EndOf(last, item.text))
  }

  lemma ItemIsTidyExactly(s: Bytes, hidden: bool, last: Option<byte>)
    requires s != []
    ensures var text := NextItem(s, hidden, last).text;
            (text != [] ==> MayFollow(last, text[0])) <==>
            (ShowsNbsp(s, hidden) ==> last != Some(SPACE) && last != Some(NEWLINE))
  {
    if ShowsNbsp(s, hidden) {
      assert s[0] == s[..6][0];
      EntityIs(s, 4);
    } else if StartsWith(s, NbspEntity()) {
      assert s[0] == s[..6][0];
    } else {
      ItemIsTidy(s, hidden, last);
    }
  }

  lemma TidyConcat(last: Option<byte>, text: Bytes, rest: Bytes)
    requires |text| <= 1
    ensures Tidy(last, text + rest) <==> (text != [] ==> MayFollow(last, text[0])) && Tidy(EndOf(last, text), rest)
  {
    if text == [] {
      assert text + rest == rest;
    } else {
      assert (text + rest)[0] == text[0] && (text + rest)[1..] == rest;
    }
  }

  /** A page yields no blank line, no space after a newline and no two spaces
      in a row, counting from the character before it, if and only if no shown
      `&nbsp;` comes right after a space or a newline of the text. */
  lemma {:induction false} TidyExactly(s: Bytes, hidden: bool, last: Option<byte>)
    ensures Tidy(last, Rendered(s, hidden, last)) <==> NbspFits(s, hidden, last)
    decreases |s|
  {
    if s != [] {
      var item := NextItem(s, hidden, last);
      FirstItem(s, hidden, last);
      ItemIsTidyExactly(s, hidden, last);
      TidyExactly(s[item.taken..], item.hidden, EndOf(last, item.text));
      TidyConcat(last, item.text, Rendered(s[item.taken..], item.hidden, EndOf(last, item.text)));
    }
  }

  /** `&nbsp;` puts a space after anything. */
  lemma NbspIsAlwaysKept(rest: Bytes, last: Option<byte>)
    ensures Rendered(NbspEntity() + rest, false, last) == [SPACE] + Rendered(rest, false, Some(SPACE))
  {
    var s := NbspEntity() + rest;
    assert s[..6] == NbspEntity();
    EntityIs(s, 4);
    RenderedItem(NbspEntity(), rest, false, last);
  }

  // ---------------------------------------------------------------------
  // Round trip

  function EscapeByte(b: byte): (e: Bytes)
    ensures e != []
  {
    if b == AMP then AmpEntity()
    else if b == LT then LtEntity()
    else if b == GT then GtEntity()
    else if b == QUOT then QuotEntity()
    else [b]
  }

  function Escape(text: Bytes): Bytes {
    if text == [] then [] else EscapeByte(text[0]) + Escape(text[1..])
  }

  /** What is left of a printable character: nothing, for a space that
      follows a space or a newline. */
  function Kept(last: Option<byte>, b: byte): Bytes {
    if b == SPACE && (last == Some(SPACE) || last == Some(NEWLINE)) then [] else [b]
  }

  function Squeeze(last: Option<byte>, text: Bytes): Bytes
    decreases |text|
  {
    if text == [] then []
    else Kept(last, text[0]) + Squeeze(EndOf(last, Kept(last, text[0])), text[1..])
  }

  predicate Printable(text: Bytes) {
    forall i :: 0 <= i < |text| ==> IsPrintable(text[i])
  }

  /** One escaped character is one item. */
  lemma EscapedByteIsItem(b: byte, rest: Bytes, last: Option<byte>)
    requires IsPrintable(b)
    ensures NextItem(EscapeByte(b) + rest, false, last) ==
            Item(|EscapeByte(b)|, false, Kept(last, b))
  {
    var e := EscapeByte(b);
    var s := e + rest;
    assert s[0] != LT;
    if b == AMP || b == LT || b == GT || b == QUOT {
      assert s[..|e|] == e;
      EntityIs(s, if b == AMP then 0 else if b == LT then 1 else if b == GT then 2 else 3);
    } else {
      NoEntity(s);
    }
  }

  lemma RenderedItem(front: Bytes, rest: Bytes, hidden: bool, last: Option<byte>)
    requires front != [] && NextItem(front + rest, hidden, last).taken == |front|
    ensures var item := NextItem(front + rest, hidden, last);
            Rendered(front + rest, hidden, last) == item.text + Rendered(rest, item.hidden, EndOf(last, item.text))
  {
    assert (front + rest)[|front|..] == rest;
    FirstItem(front + rest, hidden, last);
  }

  lemma EndOfConcat(last: Option<byte>, a: Bytes, b: Bytes)
    ensures EndOf(EndOf(last, a), b) == EndOf(last, a + b)
  {
    assert b == [] ==> a + b == a;
  }

  lemma EscapedByteRenders(b: byte, rest: Bytes, last: Option<byte>)
    requires IsPrintable(b)
    ensures Rendered(EscapeByte(b) + rest, false, last) == Kept(last, b) + Rendered(rest, false, EndOf(last, Kept(last, b)))
  {
    EscapedByteIsItem(b, rest, last);
    RenderedItem(EscapeByte(b), rest, false, last);
  }

  /** Escaped text, then anything: the text without doubled spaces, then the
      rendering of the rest. */
  ghost predicate RendersAs(s: Bytes, last: Option<byte>, text: Bytes, rest: Bytes) {
    Rendered(s, false, last) == text + Rendered(rest, false, EndOf(last, text))
  }

  lemma RendersAsCompose(s: Bytes, last: Option<byte>, a: Bytes, m: Bytes, b: Bytes, rest: Bytes)
    requires RendersAs(s, last, a, m) && RendersAs(m, EndOf(last, a), b, rest)
    ensures RendersAs(s, last, a + b, rest)
  {
    EndOfConcat(last, a, b);
    var after := Rendered(rest, false, EndOf(last, a + b));
    assert a + (b + after) == a + b + after;
  }

  lemma {:induction false} EscapedTextRenders(text: Bytes, rest: Bytes, last: Option<byte>)
    requires Printable(text)
    ensures RendersAs(Escape(text) + rest, last, Squeeze(last, text), rest)
    decreases |text|
  {
    if text == [] {
      assert Escape(text) + rest == rest;
      assert [] + Rendered(rest, false, last) == Rendered(rest, false, last);
    } else {
      var e, tail := EscapeByte(text[0]), Escape(text[1..]) + rest;
      var kept := Kept(last, text[0]);
      assert RendersAs(e + tail, last, kept, tail) by {
        EscapedByteRenders(text[0], tail, last);
      }
      assert Escape(text) + rest == e + tail;
      EscapedTextRenders(text[1..], rest, EndOf(last, kept));
      RendersAsCompose(e + tail, last, kept, tail, Squeeze(EndOf(last, kept), text[1..]), rest);
    }
  }

  /** No space follows a space or a newline. */
  predicate SpacesSingle(last: Option<byte>, text: Bytes) {
    forall i :: 0 <= i < |text| && text[i] == SPACE ==> MayFollow(Before(last, text, i), SPACE)
  }

  function Before(last: Option<byte>, text: Bytes, i: nat): Option<byte>
    requires i <= |text|
  {
    if i == 0 then last else Some(text[i - 1])
  }

  lemma {:induction false} SqueezeShortens(last: Option<byte>, text: Bytes)
    ensures |Squeeze(last, text)| <= |text|
    decreases |text|
  {
    if text != [] {
      SqueezeShortens(EndOf(last, Kept(last, text[0])), text[1..]);
    }
  }

  lemma {:induction false} SqueezeKeepsIff(last: Option<byte>, text: Bytes)
    ensures Squeeze(last, text) == text <==> SpacesSingle(last, text)
    decreases |text|
  {
    if text != [] {
      var rest := text[1..];
      if Kept(last, text[0]) == [] {
        SqueezeShortens(last, rest);
        assert !MayFollow(Before(last, text, 0), text[0]);
      } else {
        SqueezeKeepsIff(Some(text[0]), rest);
        assert text == [text[0]] + rest;
        assert ([text[0]] + Squeeze(Some(text[0]), rest))[1..] == Squeeze(Some(text[0]), rest);
        SinglesSplit(last, text);
      }
    }
  }

  lemma SinglesSplit(last: Option<byte>, text: Bytes)
    requires text != []
    ensures SpacesSingle(last, text) <==>
            (text[0] == SPACE ==> MayFollow(last, SPACE)) && SpacesSingle(Some(text[0]), text[1..])
  {
    var rest := text[1..];
    forall i | 0 < i < |text|
      ensures text[i] == rest[i - 1] && Before(last, text, i) == Before(Some(text[0]), rest, i - 1)
    {
    }
    assert Before(last, text, 0) == last;
    if SpacesSingle(last, text) {
      forall j | 0 <= j < |rest| && rest[j] == SPACE
        ensures MayFollow(Before(Some(text[0]), rest, j), SPACE)
      {
        assert text[j + 1] == SPACE && Before(last, text, j + 1) == Before(Some(text[0]), rest, j);
      }
    }
  }

  /** Escaping any printable text and rendering it appends exactly that text
      if and only if it has no doubled or leading spaces; otherwise it appends
      the text with such spaces dropped. */
  lemma EscapedTextComesBack(text: Bytes, last: Option<byte>)
    requires Printable(text)
    ensures Rendered(Escape(text), false, last) == Squeeze(last, text)
    ensures Rendered(Escape(text), false, last) == text <==> SpacesSingle(last, text)
  {
    EscapedTextRenders(text, [], last);
    assert Escape(text) + [] == Escape(text);
    assert Squeeze(last, text) + [] == Squeeze(last, text);
    SqueezeKeepsIff(last, text);
  }

  /** "a  b" comes back as "a b". */
  lemma DoubledSpaceIsSqueezed()
    ensures Rendered(Escape([97, SPACE, SPACE, 98]), false, Some(NEWLINE)) == [97, SPACE, 98]
  {
    var text: Bytes := [97, SPACE, SPACE, 98];
    EscapedTextComesBack(text, Some(NEWLINE));
    assert text[1..] == [SPACE, SPACE, 98] && text[1..][1..] == [SPACE, 98] && text[1..][1..][1..] == [98];
    assert [98][1..] == [];
    assert Squeeze(Some(SPACE), [98]) == [98];
    assert Squeeze(Some(SPACE), [SPACE, 98]) == [98];
    assert Squeeze(Some(97), [SPACE, SPACE, 98]) == [SPACE, 98];
  }

  // ---------------------------------------------------------------------
  // Tags

  function Tag(inner: Bytes): Bytes {
    [LT] + inner + [GT]
  }

  lemma TagIsItem(inner: Bytes, rest: Bytes, hidden: bool, last: Option<byte>)
    requires !Has(inner, GT)
    ensures NextItem(Tag(inner) + rest, hidden, last) == TagItem(inner, hidden, last)
  {
    var s := Tag(inner) + rest;
    var front := s[..|inner| + 1];
    forall i | 0 <= i < |front|
      ensures front[i] != GT
    {
      assert i > 0 ==> front[i] == inner[i - 1];
    }
    FindIs(s, GT, |inner| + 1);
    assert s[1..|inner| + 1] == inner;
  }

  /** A tag leaves at most a newline behind, whatever it holds. */
  lemma TagRenders(inner: Bytes, rest: Bytes, hidden: bool, last: Option<byte>)
    requires !Has(inner, GT)
    ensures var item := TagItem(inner, hidden, last);
            Rendered(Tag(inner) + rest, hidden, last) == item.text + Rendered(rest, item.hidden, EndOf(last, item.text))
  {
    TagIsItem(inner, rest, hidden, last);
    RenderedItem(Tag(inner), rest, hidden, last);
  }

  /** A closed tag at the start of some code. */
  lemma CodeStartsWithTag(code: Bytes, end: nat)
    requires code != [] && code[0] == LT && Find(code, GT) == Some(end)
    ensures 1 <= end && !Has(code[1..end], GT) && code == Tag(code[1..end]) + code[end + 1..]
  {
    assert code[0] != GT;
    assert forall i :: 0 <= i < |code[1..end]| ==> code[1..end][i] == code[i + 1];
  }

  lemma TagSplitsOff(code: Bytes, end: nat, after: Bytes)
    requires code != [] && code[0] == LT && Find(code, GT) == Some(end)
    ensures !Has(code[1..end], GT) && code + after == Tag(code[1..end]) + (code[end + 1..] + after)
  {
    CodeStartsWithTag(code, end);
    var inner, tail := Tag(code[1..end]), code[end + 1..];
    assert (inner + tail) + after == inner + (tail + after);
  }

  // ---------------------------------------------------------------------
  // Scripts

  /** The tag that an unclosed `<` makes of the code behind it and the tag
      after the code. */
  function Swallowed(code: Bytes, close: Bytes): Bytes
    requires code != []
  {
    code[1..] + ([LT] + close)
  }

  /** Some code, read before the closing tag of its script, leaves nothing behind
      and ends outside the script: outside hidden text there is no character to
      show; no closed tag starts a line; and an unclosed `<` swallows the closing
      tag into one that still ends a script. */
  predicate Quiet(code: Bytes, close: Bytes, hidden: bool)
    decreases |code|
  {
    if code == [] then true
    else if code[0] != LT then
      (hidden || (!IsGraphic(code[0]) && !IsWhitespace(code[0]))) && Quiet(code[1..], close, hidden)
    else
      var end := Find(code, GT);
      if end.Some? then
        var item := TagItem(code[1..end.value], hidden, None);
        item.text == [] && Quiet(code[end.value + 1..], close, item.hidden)
      else
        var item := TagItem(Swallowed(code, close), hidden, None);
        item.text == [] && !item.hidden
  }

  lemma SwallowedIsTag(code: Bytes, close: Bytes, rest: Bytes)
    requires code != [] && code[0] == LT && !Has(code, GT) && !Has(close, GT)
    ensures !Has(Swallowed(code, close), GT)
    ensures code + (Tag(close) + rest) == Tag(Swallowed(code, close)) + rest
  {
    var inner := Swallowed(code, close);
    forall i | 0 <= i < |inner|
      ensures inner[i] != GT
    {
      assert i < |code| - 1 ==> inner[i] == code[i + 1];
      assert i > |code| - 1 ==> inner[i] == close[i - |code|];
    }
  }

  /** A tag that shows nothing does so whatever came before it. */
  lemma QuietTag(inner: Bytes, hidden: bool, last: Option<byte>)
    requires TagItem(inner, hidden, None).text == []
    ensures TagItem(inner, hidden, last) == TagItem(inner, hidden, None)
  {
  }

  lemma QuietTagRenders(inner: Bytes, rest: Bytes, hidden: bool, last: Option<byte>)
    requires !Has(inner, GT) && TagItem(inner, hidden, None).text == []
    ensures Rendered(Tag(inner) + rest, hidden, last) == Rendered(rest, TagItem(inner, hidden, None).hidden, last)
  {
    QuietTag(inner, hidden, last);
    TagRenders(inner, rest, hidden, last);
  }

  lemma QuietByteRenders(b: byte, rest: Bytes, hidden: bool, last: Option<byte>)
    requires b != LT && (hidden || (!IsGraphic(b) && !IsWhitespace(b)))
    ensures Rendered([b] + rest, hidden, last) == Rendered(rest, hidden, last)
  {
    if !hidden {
      NoEntity([b] + rest);
    }
    RenderedItem([b], rest, hidden, last);
  }

  lemma ClosingTagRenders(close: Bytes, rest: Bytes, hidden: bool, last: Option<byte>)
    requires !Has(close, GT) && NameIn(TagName(close), Revealing())
    ensures Rendered(Tag(close) + rest, hidden, last) == Rendered(rest, false, last)
  {
    RevealingAreNotHiding(TagName(close));
    QuietTagRenders(close, rest, hidden, last);
  }

  lemma HeadSplitsOff(code: Bytes, after: Bytes)
    requires code != []
    ensures code + after == [code[0]] + (code[1..] + after)
  {
  }

  lemma {:induction false} QuietCodeVanishes(code: Bytes, close: Bytes, rest: Bytes, hidden: bool, last: Option<byte>)
    requires !Has(close, GT) && NameIn(TagName(close), Revealing()) && Quiet(code, close, hidden)
    ensures Rendered(code + (Tag(close) + rest), hidden, last) == Rendered(rest, false, last)
    decreases |code|
  {
    var after := Tag(close) + rest;
    if code == [] {
      assert code + after == after;
      ClosingTagRenders(close, rest, hidden, last);
    } else if code[0] != LT {
      HeadSplitsOff(code, after);
      QuietByteRenders(code[0], code[1..] + after, hidden, last);
      QuietCodeVanishes(code[1..], close, rest, hidden, last);
    } else if Find(code, GT).Some? {
      var end := Find(code, GT).value;
      var inner, tail := code[1..end], code[end + 1..];
      TagSplitsOff(code, end, after);
      QuietTagRenders(inner, tail + after, hidden, last);
      QuietCodeVanishes(tail, close, rest, TagItem(inner, hidden, None).hidden, last);
    } else {
      SwallowedIsTag(code, close, rest);
      QuietTagRenders(Swallowed(code, close), rest, hidden, last);
    }
  }

  /** A visible character shows, on an empty page. */
  lemma LoudByteShows(b: byte, rest: Bytes)
    requires b != LT && (IsGraphic(b) || IsWhitespace(b))
    ensures Rendered([b] + rest, false, None) != []
  {
    FirstItem([b] + rest, false, None);
  }

  lemma LoudTagShows(inner: Bytes, rest: Bytes, hidden: bool)
    requires !Has(inner, GT) && TagItem(inner, hidden, None).text != []
    ensures Rendered(Tag(inner) + rest, hidden, None) != []
  {
    TagRenders(inner, rest, hidden, None);
  }

  lemma LetterRenders(hidden: bool)
    ensures Rendered([120], hidden, None) == if hidden then [] else [120]
  {
    assert [120][1..] == [];
    if !hidden {
      NoEntity([120]);
    }
    FirstItem([120], hidden, None);
  }

  /** Code that is not quiet shows something of its own, or hides the rest. */
  lemma {:induction false} LoudCodeShows(code: Bytes, close: Bytes, hidden: bool) returns (rest: Bytes)
    requires !Has(close, GT) && NameIn(TagName(close), Revealing()) && !Quiet(code, close, hidden)
    ensures Rendered(code + (Tag(close) + rest), hidden, None) != Rendered(rest, false, None)
    decreases |code|
  {
    if code[0] != LT {
      if hidden || (!IsGraphic(code[0]) && !IsWhitespace(code[0])) {
        rest := LoudCodeShows(code[1..], close, hidden);
        HeadSplitsOff(code, Tag(close) + rest);
        QuietByteRenders(code[0], code[1..] + (Tag(close) + rest), hidden, None);
      } else {
        rest := [];
        HeadSplitsOff(code, Tag(close) + rest);
        LoudByteShows(code[0], code[1..] + (Tag(close) + rest));
      }
    } else if Find(code, GT).Some? {
      rest := LoudTagInCode(code, close, hidden, Find(code, GT).value);
    } else {
      rest := LoudSwallow(code, close, hidden);
    }
  }

  lemma LoudTagInCode(code: Bytes, close: Bytes, hidden: bool, end: nat) returns (rest: Bytes)
    requires !Has(close, GT) && NameIn(TagName(close), Revealing()) && !Quiet(code, close, hidden)
    requires code != [] && code[0] == LT && Find(code, GT) == Some(end)
    ensures Rendered(code + (Tag(close) + rest), hidden, None) != Rendered(rest, false, None)
    decreases |code|, 0
  {
    var inner, tail := code[1..end], code[end + 1..];
    if TagItem(inner, hidden, None).text == [] {
      rest := LoudCodeShows(tail, close, TagItem(inner, hidden, None).hidden);
      TagSplitsOff(code, end, Tag(close) + rest);
      QuietTagRenders(inner, tail + (Tag(close) + rest), hidden, None);
    } else {
      rest := [];
      TagSplitsOff(code, end, Tag(close) + rest);
      LoudTagShows(inner, tail + (Tag(close) + rest), hidden);
    }
  }

  lemma LoudSwallow(code: Bytes, close: Bytes, hidden: bool) returns (rest: Bytes)
    requires !Has(close, GT) && !Quiet(code, close, hidden)
    requires code != [] && code[0] == LT && Find(code, GT).None?
    ensures Rendered(code + (Tag(close) + rest), hidden, None) != Rendered(rest, false, None)
  {
    var inner := Swallowed(code, close);
    if TagItem(inner, hidden, None).text == [] {
      rest := [120];
      SwallowedIsTag(code, close, rest);
      QuietTagRenders(inner, rest, hidden, None);
      LetterRenders(true);
      LetterRenders(false);
    } else {
      rest := [];
      SwallowedIsTag(code, close, rest);
      LoudTagShows(inner, rest, hidden);
    }
  }

  lemma OpeningTagRenders(open: Bytes, rest: Bytes, hidden: bool, last: Option<byte>)
    requires !Has(open, GT) && NameIn(TagName(open), Hiding())
    ensures Rendered(Tag(open) + rest, hidden, last) == Rendered(rest, true, last)
  {
    QuietTagRenders(open, rest, hidden, last);
  }

  /** A script or style element leaves nothing behind, wherever it stands and
      whatever follows it, if and only if its code is quiet. */
  lemma ScriptsAreHiddenExactly(open: Bytes, code: Bytes, close: Bytes)
    requires !Has(open, GT) && NameIn(TagName(open), Hiding())
    requires !Has(close, GT) && NameIn(TagName(close), Revealing())
    ensures (forall rest, hidden, last ::
               Rendered(Tag(open) + (code + (Tag(close) + rest)), hidden, last) == Rendered(rest, false, last))
            <==> Quiet(code, close, true)
  {
    if Quiet(code, close, true) {
      forall rest, hidden, last
        ensures Rendered(Tag(open) + (code + (Tag(close) + rest)), hidden, last) == Rendered(rest, false, last)
      {
        OpeningTagRenders(open, code + (Tag(close) + rest), hidden, last);
        QuietCodeVanishes(code, close, rest, true, last);
      }
    } else {
      var rest := LoudCodeShows(code, close, true);
      OpeningTagRenders(open, code + (Tag(close) + rest), false, None);
    }
  }

  /** Code in which every `<` is closed by a `>` and none of the tags so formed
      ends a script. */
  predicate Sealed(code: Bytes)
    decreases |code|
  {
    if code == [] then true
    else if code[0] != LT then Sealed(code[1..])
    else
      var end := Find(code, GT);
      end.Some? && !NameIn(TagName(code[1..end.value]), Revealing()) && Sealed(code[end.value + 1..])
  }

  lemma {:induction false} PlainCodeIsSealed(code: Bytes)
    requires !Has(code, LT)
    ensures Sealed(code)
    decreases |code|
  {
    if code != [] {
      PlainCodeIsSealed(code[1..]);
    }
  }

  lemma {:induction false} SealedIsQuiet(code: Bytes, close: Bytes)
    requires Sealed(code)
    ensures Quiet(code, close, true)
    decreases |code|
  {
    if code != [] {
      if code[0] != LT {
        SealedIsQuiet(code[1..], close);
      } else {
        SealedIsQuiet(code[Find(code, GT).value + 1..], close);
      }
    }
  }

  /** In particular if the code has no `<`, or only closed tags that do not end
      a script. */
  lemma ScriptsAreHidden(open: Bytes, code: Bytes, close: Bytes, rest: Bytes, hidden: bool, last: Option<byte>)
    requires !Has(open, GT) && NameIn(TagName(open), Hiding())
    requires !Has(close, GT) && NameIn(TagName(close), Revealing())
    requires Sealed(code)
    ensures Rendered(Tag(open) + (code + (Tag(close) + rest)), hidden, last) == Rendered(rest, false, last)
  {
    SealedIsQuiet(code, close);
    ScriptsAreHiddenExactly(open, code, close);
  }

  /** script and /script */
  const SCRIPT: Bytes := [115, 99, 114, 105, 112, 116]
  const END_SCRIPT: Bytes := [47, 115, 99, 114, 105, 112, 116]

  lemma ScriptTags()
    ensures !Has(SCRIPT, GT) && NameIn(TagName(SCRIPT), Hiding())
    ensures !Has(END_SCRIPT, GT) && NameIn(TagName(END_SCRIPT), Revealing())
  {
    BareTagName(SCRIPT);
    BareTagName(END_SCRIPT);
    assert EqualsIgnoringCase(SCRIPT, Hiding()[0]);
    assert EqualsIgnoringCase(END_SCRIPT, Revealing()[0]);
  }

  /** A name with a `<` inside is none that means anything. */
  lemma OddName(inner: Bytes, hidden: bool)
    requires |inner| > 8 && forall i :: 0 <= i < |inner| ==> !IsWhitespace(inner[i])
    ensures TagItem(inner, hidden, None) == Item(|inner| + 2, hidden, [])
  {
    BareTagName(inner);
    assert |Lower(inner)| > 8;
    assert forall i :: 0 <= i < |Hiding()| ==> |Lower(Hiding()[i])| <= 8;
    assert forall i :: 0 <= i < |Revealing()| ==> |Lower(Revealing()[i])| <= 8;
    assert forall i :: 0 <= i < |Blocks()| ==> |Lower(Blocks()[i])| <= 8;
  }

  /** An unclosed `<` that does not end the script takes the closing tag with
      it, and hides the rest of the page. */
  lemma SwallowHidesTheRest(tail: Bytes, close: Bytes, rest: Bytes, last: Option<byte>)
    requires tail != [] && tail[0] == LT && !Has(tail, GT) && !Has(close, GT)
    requires TagItem(Swallowed(tail, close), true, None).hidden
    ensures Rendered(tail + (Tag(close) + rest), true, last) == Rendered(rest, true, last)
  {
    SwallowedIsTag(tail, close, rest);
    QuietTagRenders(Swallowed(tail, close), rest, true, last);
  }

  /** A script `b`, then an unclosed `<`: neither it nor the rest is shown. */
  lemma PageIsLost(open: Bytes, b: byte, tail: Bytes, close: Bytes, rest: Bytes, last: Option<byte>)
    requires !Has(open, GT) && NameIn(TagName(open), Hiding()) && b != LT
    requires tail != [] && tail[0] == LT && !Has(tail, GT) && !Has(close, GT)
    requires TagItem(Swallowed(tail, close), true, None).hidden
    ensures Rendered(Tag(open) + ([b] + tail + (Tag(close) + rest)), false, last) == Rendered(rest, true, last)
  {
    var after := Tag(close) + rest;
    OpeningTagRenders(open, [b] + tail + after, false, last);
    assert [b] + tail + after == [b] + (tail + after);
    QuietByteRenders(b, tail + after, true, last);
    SwallowHidesTheRest(tail, close, rest, last);
  }

  lemma ComparisonSwallows(tail: Bytes)
    requires tail == [LT, 98]
    ensures !Has(tail, GT) && TagItem(Swallowed(tail, END_SCRIPT), true, None).hidden
    ensures !Quiet(tail, END_SCRIPT, true)
  {
    var inner := Swallowed(tail, END_SCRIPT);
    assert inner == [98, LT] + END_SCRIPT;
    OddName(inner, true);
  }

  /** `a<b` is not quiet, so on the page `<script>a<b</script>x` the x is lost. */
  lemma ComparisonHidesThePage(tail: Bytes)
    requires tail == [LT, 98]
    ensures !Quiet([97] + tail, END_SCRIPT, true)
    ensures Rendered(Tag(SCRIPT) + ([97] + tail + (Tag(END_SCRIPT) + [120])), false, None) == []
    ensures Rendered([120], false, None) == [120]
  {
    ComparisonSwallows(tail);
    assert ([97] + tail)[1..] == tail;
    ScriptTags();
    PageIsLost(SCRIPT, 97, tail, END_SCRIPT, [120], None);
    LetterRenders(true);
    LetterRenders(false);
  }

  /** `</script ` is quiet though its `<` is not closed: what it swallows still
      ends the script. */
  lemma UnclosedEndStillEnds()
    ensures Quiet([LT] + END_SCRIPT + [SPACE], END_SCRIPT, true) && !Sealed([LT] + END_SCRIPT + [SPACE])
  {
    var code := [LT] + END_SCRIPT + [SPACE];
    var inner := Swallowed(code, END_SCRIPT);
    assert !Has(code, GT);
    TagNameEnds(inner, 7);
    assert inner[..7] == END_SCRIPT;
    ScriptTags();
    BareTagName(END_SCRIPT);
    RevealingAreNotHiding(END_SCRIPT);
  }

  /** A closing name starts with a slash, an opening one does not. */
  lemma RevealingAreNotHiding(name: Bytes)
    requires NameIn(name, Revealing())
    ensures !NameIn(name, Hiding())
  {
    var i :| 0 <= i < |Revealing()| && EqualsIgnoringCase(name, Revealing()[i]);
    assert Lower(Revealing()[i])[0] == 47;
    assert forall k :: 0 <= k < |Hiding()| ==> Lower(Hiding()[k])[0] == 115;
  }

  /** p, div, li, h1, h2, title */
  function ElementNames(): (names: seq<Bytes>)
    ensures |names| == 6
  {
    [[112], [100, 105, 118], [108, 105], [104, 49], [104, 50], [116, 105, 116, 108, 101]]
  }

  /** An element with its attributes and the text inside. */
  datatype Element = Element(name: Bytes, attributes: Bytes, text: Bytes)

  predicate AttributesOk(attributes: Bytes) {
    (attributes != [] ==> IsWhitespace(attributes[0])) && !Has(attributes, GT)
  }

  /** One of the elements that stand on lines of their own, in any case, around
      a text without blanks to squeeze. */
  predicate ElementOk(e: Element) {
    && NameIn(e.name, ElementNames()) && AttributesOk(e.attributes)
    && e.text != [] && Printable(e.text) && SpacesSingle(Some(NEWLINE), e.text)
  }

  /** `<name attributes>text</name>`, the text escaped. */
  function Written(e: Element): Bytes {
    Tag(e.name + e.attributes) + (Escape(e.text) + Tag([47] + e.name))
  }

  function Page(elements: seq<Element>): Bytes {
    if elements == [] then [] else Written(elements[0]) + Page(elements[1..])
  }

  function Lines(elements: seq<Element>): Bytes {
    if elements == [] then [] else elements[0].text + [NEWLINE] + Lines(elements[1..])
  }

  /** A bare tag is its own name. */
  lemma {:induction false} BareTagName(tag: Bytes)
    requires forall i :: 0 <= i < |tag| ==> !IsWhitespace(tag[i])
    ensures TagName(tag) == tag
    decreases |tag|
  {
    if tag != [] {
      BareTagName(tag[1..]);
    }
  }

  lemma ElementBytes(k: nat, j: nat)
    requires k < 6 && j < |ElementNames()[k]|
    ensures var b := ElementNames()[k][j]; ToLower(b) == b && (b == 49 || b == 50 || 97 <= b <= 122)
    ensures ElementNames()[k][0] != 115
  {
  }

  /** A name is itself up to case: no blank and no `>` in it. */
  lemma ElementName(name: Bytes, k: nat)
    requires k < 6 && EqualsIgnoringCase(name, ElementNames()[k])
    ensures !Has(name, GT) && (forall i :: 0 <= i < |name| ==> !IsWhitespace(name[i]))
    ensures name != [] && ToLower(name[0]) != 115 && ToLower(name[0]) != 47
  {
    var e := ElementNames()[k];
    assert |name| == |Lower(name)| == |Lower(e)| == |e| > 0;
    forall i | 0 <= i < |name|
      ensures ToLower(name[i]) == e[i] && (e[i] == 49 || e[i] == 50 || 97 <= e[i] <= 122)
    {
      ElementBytes(k, i);
      assert Lower(name)[i] == Lower(e)[i];
    }
    ElementBytes(k, 0);
  }

  lemma LowerSlash(name: Bytes)
    ensures Lower([47] + name) == [47] + Lower(name)
  {
  }

  lemma ElementBlocks(name: Bytes, k: nat)
    requires k < 6 && EqualsIgnoringCase(name, ElementNames()[k])
    ensures NameIn(name, Blocks()) && NameIn([47] + name, Blocks())
  {
    assert Blocks()[2 * k + 1] == ElementNames()[k];
    LowerSlash(name);
    LowerSlash(ElementNames()[k]);
    assert Blocks()[2 * k + 2] == [47] + ElementNames()[k];
  }

  /** Names that begin otherwise do not hide or reveal. */
  lemma NotHiding(name: Bytes)
    requires name != [] && ToLower(name[0]) != 115 && (ToLower(name[0]) == 47 ==> |name| > 1 && ToLower(name[1]) != 115)
    ensures !NameIn(name, Hiding()) && !NameIn(name, Revealing())
  {
    assert Lower(name)[0] == ToLower(name[0]) && (|name| > 1 ==> Lower(name)[1] == ToLower(name[1]));
    assert forall k :: 0 <= k < |Hiding()| ==> Lower(Hiding()[k])[0] == 115;
    assert forall k :: 0 <= k < |Revealing()| ==> Lower(Revealing()[k])[0] == 47 && Lower(Revealing()[k])[1] == 115;
  }

  /** What starts a new line: `br`, and the elements' opening and closing tags. */
  lemma BlocksExactly(name: Bytes)
    ensures NameIn(name, Blocks()) <==>
            || EqualsIgnoringCase(name, [98, 114])
            || NameIn(name, ElementNames())
            || (name != [] && name[0] == 47 && NameIn(name[1..], ElementNames()))
  {
    assert Blocks()[0] == [98, 114];
    if NameIn(name, ElementNames()) {
      var k :| 0 <= k < 6 && EqualsIgnoringCase(name, ElementNames()[k]);
      ElementBlocks(name, k);
    }
    if name != [] && name[0] == 47 && NameIn(name[1..], ElementNames()) {
      var k :| 0 <= k < 6 && EqualsIgnoringCase(name[1..], ElementNames()[k]);
      ElementBlocks(name[1..], k);
      assert name == [47] + name[1..];
    }
    if NameIn(name, Blocks()) {
      var i :| 0 <= i < |Blocks()| && EqualsIgnoringCase(name, Blocks()[i]);
      BlockIsElement(name, i);
    }
  }

  lemma BlockIsElement(name: Bytes, i: nat)
    requires i < 13 && EqualsIgnoringCase(name, Blocks()[i])
    ensures || i == 0
            || NameIn(name, ElementNames())
            || (name != [] && name[0] == 47 && NameIn(name[1..], ElementNames()))
  {
    if i > 0 {
      var k := (i - 1) / 2;
      if i == 2 * k + 1 {
        assert Blocks()[i] == ElementNames()[k];
      } else {
        assert Blocks()[i] == [47] + ElementNames()[k];
        LowerSlash(ElementNames()[k]);
        assert Lower(name)[0] == 47 && ToLower(name[0]) == 47;
        assert name == [47] + name[1..];
        LowerSlash(name[1..]);
        assert Lower(name)[1..] == Lower(name[1..]) == Lower(ElementNames()[k]);
      }
    }
  }

  /** A block tag starts a new line. */
  lemma BlockTagRenders(name: Bytes, attributes: Bytes, rest: Bytes, last: Option<byte>)
    requires NameIn(name, Blocks()) && !NameIn(name, Hiding()) && !NameIn(name, Revealing())
    requires !Has(name, GT) && (forall i :: 0 <= i < |name| ==> !IsWhitespace(name[i])) && AttributesOk(attributes)
    ensures RendersAs(Tag(name + attributes) + rest, last, if last == Some(NEWLINE) then [] else [NEWLINE], rest)
  {
    var inner := name + attributes;
    TagNameEnds(inner, |name|);
    assert inner[..|name|] == name;
    assert !Has(inner, GT);
    TagRenders(inner, rest, false, last);
  }

  lemma ElementTagsRender(e: Element, rest: Bytes, last: Option<byte>)
    requires ElementOk(e)
    ensures RendersAs(Tag(e.name + e.attributes) + rest, last, if last == Some(NEWLINE) then [] else [NEWLINE], rest)
    ensures RendersAs(Tag([47] + e.name) + rest, last, if last == Some(NEWLINE) then [] else [NEWLINE], rest)
  {
    var k :| 0 <= k < 6 && EqualsIgnoringCase(e.name, ElementNames()[k]);
    var close := [47] + e.name;
    ElementName(e.name, k);
    ElementBlocks(e.name, k);
    NotHiding(e.name);
    NotHiding(close);
    BlockTagRenders(e.name, e.attributes, rest, last);
    assert close + [] == close;
    BlockTagRenders(close, [], rest, last);
  }

  lemma ElementRenders(e: Element, rest: Bytes)
    requires ElementOk(e)
    ensures RendersAs(Written(e) + rest, Some(NEWLINE), e.text + [NEWLINE], rest)
  {
    var start, text := Some(NEWLINE), e.text;
    var tail := Tag([47] + e.name) + rest;
    var body := Escape(text) + tail;
    var whole := Tag(e.name + e.attributes) + body;
    assert Written(e) + rest == whole;
    ElementTagsRender(e, body, start);
    EscapedTextRenders(text, tail, start);
    SqueezeKeepsIff(start, text);
    RendersAsCompose(whole, start, [], body, text, tail);
    assert [] + text == text;
    ElementTagsRender(e, rest, EndOf(start, text));
    RendersAsCompose(whole, start, text, tail, [NEWLINE], rest);
  }

  /** A page of paragraphs, divisions, list items, headings and titles, written
      with any attributes and in any case, renders to their texts, one line each. */
  lemma {:induction false} PageRendersToLines(elements: seq<Element>)
    requires forall i :: 0 <= i < |elements| ==> ElementOk(elements[i])
    ensures Rendered(Page(elements), false, Some(NEWLINE)) == Lines(elements)
    decreases |elements|
  {
    if elements != [] {
      PageRendersToLines(elements[1..]);
      ElementRenders(elements[0], Page(elements[1..]));
      assert EndOf(Some(NEWLINE), elements[0].text + [NEWLINE]) == Some(NEWLINE);
    }
  }

  /** A `br` ends the line and leaves no empty one. */
  lemma BreakEndsTheLine(name: Bytes, attributes: Bytes, rest: Bytes, last: Option<byte>)
    requires EqualsIgnoringCase(name, [98, 114]) && AttributesOk(attributes)
    ensures RendersAs(Tag(name + attributes) + rest, last, if last == Some(NEWLINE) then [] else [NEWLINE], rest)
  {
    assert |name| == |Lower(name)| == 2;
    assert Lower(name)[0] == Lower([98, 114])[0] && Lower(name)[1] == Lower([98, 114])[1];
    assert Blocks()[0] == [98, 114];
    NotHiding(name);
    BlockTagRenders(name, attributes, rest, last);
  }

  // ---------------------------------------------------------------------
  // The loop

  lemma {:induction false} TagNameEnds(tag: Bytes, end: nat)
    requires end <= |tag| && (end < |tag| ==> IsWhitespace(tag[end]))
    requires forall i :: 0 <= i < end ==> !IsWhitespace(tag[i])
    ensures TagName(tag) == tag[..end]
    decreases end
  {
    if end > 0 {
      TagNameEnds(tag[1..], end - 1);
      assert [tag[0]] + tag[1..][..end - 1] == tag[..end];
    }
  }

  /** The position of the first blank, or the end. */
  method NameEnd(tag: Bytes) returns (end: nat)
    ensures end <= |tag| && tag[..end] == TagName(tag)
  {
    end := 0;
    while end < |tag| && !IsWhitespace(tag[end])
      invariant end <= |tag|
      invariant forall i :: 0 <= i < end ==> !IsWhitespace(tag[i])
    {
      end := end + 1;
    }
    TagNameEnds(tag, end);
  }

  function Last(text: Bytes): Option<byte> {
    EndOf(None, text)
  }

  /** The first half of the loop body: a tag. */
  method ReadTag(tag: Bytes, hidden: bool, output: Bytes) returns (h: bool, o: Bytes)
    ensures var item := TagItem(tag, hidden, Last(output)); h == item.hidden && o == output + item.text
  {
    h, o := hidden, output;
    var nameEnd := NameEnd(tag);
    var name := tag[..nameEnd];
    if NameIn(name, Hiding()) {
      h := true;
    } else if NameIn(name, Revealing()) {
      h := false;
    } else if !hidden && NameIn(name, Blocks()) && Last(output) != Some(NEWLINE) {
      o := o + [NEWLINE];
    }
  }

  /** The second half: an entity or a byte. */
  method ReadText(s: Bytes, hidden: bool, output: Bytes) returns (taken: nat, o: Bytes)
    requires s != []
    ensures var item := TextItem(s, hidden, Last(output));
            taken == item.taken && hidden == item.hidden && o == output + item.text
  {
    taken, o := 1, output;
    if !hidden {
      var entity := Entity(s);
      if entity.Some? {
        EntityFacts(s);
        o := o + [entity.value.0];
        taken := entity.value.1;
      } else if IsWhitespace(s[0]) {
        if Last(output) != Some(SPACE) && Last(output) != Some(NEWLINE) {
          o := o + [SPACE];
        }
      } else if IsGraphic(s[0]) {
        o := o + [s[0]];
      }
    }
  }

  /** What is written and what is still to come make up the goal. */
  ghost predicate Reaches(s: Bytes, hidden: bool, output: Bytes, goal: Bytes) {
    output + Rendered(s, hidden, Last(output)) == goal
  }

  lemma NothingLeft(hidden: bool, output: Bytes, goal: Bytes)
    requires Reaches([], hidden, output, goal)
    ensures output == goal
  {
    assert Rendered([], hidden, Last(output)) == [];
    assert output + [] == output;
  }

  /** `render_html`: terminates on every body, and appends the rendering. */
  method RenderHtml(body: Bytes, before: Bytes) returns (output: Bytes)
    ensures output == before + Rendered(body, false, Last(before))
  {
    output := before;
    var index, hidden := 0, false;
    ghost var goal := before + Rendered(body, false, Last(before));
    ghost var rest := body;
    while index < |body|
      invariant 0 <= index <= |body| && rest == body[index..]
      invariant Reaches(rest, hidden, output, goal)
      decreases |body| - index
    {
      var taken;
      taken, hidden, output := ReadItem(body[index..], hidden, output, goal);
      rest := rest[taken..];
      index := index + taken;
    }
    NothingLeft(hidden, output, goal);
  }

  /** The body of the loop: one item moves from the page to the output. */
  method ReadItem(s: Bytes, hidden: bool, output: Bytes, ghost goal: Bytes) returns (taken: nat, h: bool, o: Bytes)
    requires s != [] && Reaches(s, hidden, output, goal)
    ensures 1 <= taken <= |s| && Reaches(s[taken..], h, o, goal)
  {
    var end := Find(s, GT);
    if s[0] == LT && end.Some? {
      h, o := ReadTag(s[1..end.value], hidden, output);
      taken := end.value + 1;
    } else {
      h := hidden;
      taken, o := ReadText(s, hidden, output);
    }
    ItemTaken(s, hidden, output, o, h, taken);
  }

  /** One turn of the loop moves one item from the page to the output. */
  lemma ItemTaken(s: Bytes, was: bool, start: Bytes, output: Bytes, hidden: bool, taken: nat)
    requires s != []
    requires var item := NextItem(s, was, Last(start));
             taken == item.taken && hidden == item.hidden && output == start + item.text
    ensures output + Rendered(s[taken..], hidden, Last(output)) == start + Rendered(s, was, Last(start))
  {
    var text := NextItem(s, was, Last(start)).text;
    FirstItem(s, was, Last(start));
    EndOfConcat(None, start, text);
    var rest := Rendered(s[taken..], hidden, Last(output));
    assert start + text + rest == start + (text + rest);
  }
}
