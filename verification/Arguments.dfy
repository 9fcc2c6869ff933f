/** Splitting a command line into arguments, with quotes and escapes. */
module Arguments {
  import opened Prelude

  const MAX_INPUT := 256
  const MAX_ARGS := 32

  const SPACE: byte := 32
  const DOUBLE: byte := 34
  const SINGLE: byte := 39
  const BACKSLASH: byte := 92

  datatype ParseError = TooLong | NoOperators | TooManyArguments | UnfinishedEscape | UnclosedQuote

  type Parsed = Result<seq<Bytes>, ParseError>

  predicate IsOperator(b: byte) {
    b == 124 || b == 62 || b == 60 || b == 59 || b == 38
  }

  predicate IsQuote(b: byte) {
    b == SINGLE || b == DOUBLE
  }

  function Prepend(words: seq<Bytes>, r: Parsed): Parsed {
    match r
    case Ok(rest) => Ok(words + rest)
    case Err(_) => r
  }

  lemma PrependLaws(a: seq<Bytes>, b: seq<Bytes>, r: Parsed)
    ensures Prepend([], r) == r
    ensures Prepend(a, Prepend(b, r)) == Prepend(a + b, r)
  {
    if r.Ok? {
      assert [] + r.value == r.value;
      assert a + (b + r.value) == a + b + r.value;
    }
  }

  // ---------------------------------------------------------------------
  // A recursive tokenizer: the reference

  /** Between words; `room` more words are allowed. */
  function Words(s: Bytes, room: nat): Parsed
    decreases |s|, 1
  {
    if s == [] then Ok([])
    else if IsWhitespace(s[0]) then Words(s[1..], room)
    else Word(s, [], room)
  }

  /** Inside a word that begins with `word`. */
  function Word(s: Bytes, word: Bytes, room: nat): Parsed
    decreases |s|, 0
  {
    if s == [] then (if room == 0 then Err(TooManyArguments) else Ok([word]))
    else if s[0] == BACKSLASH then
      if |s| == 1 then Err(UnfinishedEscape) else Word(s[2..], word + [s[1]], room)
    else if IsQuote(s[0]) then Quoted(s[1..], s[0], word, room)
    else if IsWhitespace(s[0]) then EndWord(s[1..], word, room)
    else if IsOperator(s[0]) then Err(NoOperators)
    else Word(s[1..], word + [s[0]], room)
  }

  function EndWord(s: Bytes, word: Bytes, room: nat): Parsed
    decreases |s|, 2
  {
    if room == 0 then Err(TooManyArguments) else Prepend([word], Words(s, room - 1))
  }

  /** Inside quotes; backslash escapes only inside double quotes. */
  function Quoted(s: Bytes, quote: byte, word: Bytes, room: nat): Parsed
    decreases |s|, 0
  {
    if s == [] then Err(UnclosedQuote)
    else if s[0] == BACKSLASH && quote != SINGLE then
      if |s| == 1 then Err(UnfinishedEscape) else Quoted(s[2..], quote, word + [s[1]], room)
    else if s[0] == quote then Word(s[1..], word, room)
    else Quoted(s[1..], quote, word + [s[0]], room)
  }

  function Parse(input: Bytes): Parsed {
    if |input| > MAX_INPUT || !AllAscii(input) then Err(TooLong) else Words(input, MAX_ARGS)
  }

  // ---------------------------------------------------------------------
  // One byte at a time: the loop's view of the tokenizer

  /** The loop's variables: the word begun, the open quote, and `escaped`. */
  datatype Scan = Scan(word: Option<Bytes>, quote: Option<byte>, escaped: bool)

  const START := Scan(None, None, false)

  predicate ScanOk(c: Scan) {
    (c.quote.Some? || c.escaped ==> c.word.Some?) && (c.quote.Some? ==> IsQuote(c.quote.value))
  }

  predicate Plain(c: Scan) {
    !c.escaped && c.quote.None?
  }

  function Begun(c: Scan): Bytes {
    if c.word.Some? then c.word.value else []
  }

  predicate Rejects(c: Scan, b: byte) {
    Plain(c) && IsOperator(b)
  }

  predicate EndsWord(c: Scan, b: byte) {
    Plain(c) && IsWhitespace(b) && c.word.Some?
  }

  function After(c: Scan, b: byte): Scan {
    if c.escaped then c.(word := Some(Begun(c) + [b]), escaped := false)
    else if b == BACKSLASH && c.quote != Some(SINGLE) then c.(word := Some(Begun(c)), escaped := true)
    else if c.quote == Some(b) then c.(quote := None)
    else if c.quote.None? && IsQuote(b) then c.(word := Some(Begun(c)), quote := Some(b))
    else if c.quote.None? && IsWhitespace(b) then START
    else c.(word := Some(Begun(c) + [b]))
  }

  /** What the tokenizer makes of the rest of the input. */
  function Resume(s: Bytes, c: Scan, room: nat): Parsed
    requires ScanOk(c)
  {
    if c.escaped then
      if s == [] then Err(UnfinishedEscape)
      else if c.quote.Some? then Quoted(s[1..], c.quote.value, c.word.value + [s[0]], room)
      else Word(s[1..], c.word.value + [s[0]], room)
    else if c.quote.Some? then Quoted(s, c.quote.value, c.word.value, room)
    else if c.word.Some? then Word(s, c.word.value, room)
    else Words(s, room)
  }

  /** What one byte does to the outcome. */
  function Stepped(s: Bytes, c: Scan, room: nat): Parsed
    requires ScanOk(c) && s != [] && ScanOk(After(c, s[0]))
  {
    if Rejects(c, s[0]) then Err(NoOperators)
    else if EndsWord(c, s[0]) then
      if room == 0 then Err(TooManyArguments)
      else Prepend([c.word.value], Resume(s[1..], After(c, s[0]), room - 1))
    else Resume(s[1..], After(c, s[0]), room)
  }

  lemma AfterIsOk(c: Scan, b: byte)
    requires ScanOk(c)
    ensures ScanOk(After(c, b))
  {
  }

  lemma ResumeStep(s: Bytes, c: Scan, room: nat)
    requires ScanOk(c) && s != []
    ensures ScanOk(After(c, s[0])) && Resume(s, c, room) == Stepped(s, c, room)
  {
    AfterIsOk(c, s[0]);
    assert |s| > 1 ==> s[1..][0] == s[1] && s[1..][1..] == s[2..];
    if Plain(c) {
      PlainStep(s, c, room);
    } else if !c.escaped {
      var quote := c.quote.value;
      if s[0] == BACKSLASH && quote != SINGLE {
        assert |s| == 1 ==> s[1..] == [];
      }
    }
  }

  lemma PlainStep(s: Bytes, c: Scan, room: nat)
    requires ScanOk(c) && s != [] && Plain(c) && ScanOk(After(c, s[0]))
    ensures Resume(s, c, room) == Stepped(s, c, room)
  {
    assert |s| > 1 ==> s[1..][0] == s[1] && s[1..][1..] == s[2..];
    assert |s| == 1 ==> s[1..] == [];
    if c.word.None? && IsWhitespace(s[0]) {
      assert Words(s, room) == Words(s[1..], room);
    } else {
      assert Resume(s, c, room) == Word(s, Begun(c), room);
      assert EndsWord(c, s[0]) ==> Word(s, Begun(c), room) == EndWord(s[1..], Begun(c), room);
    }
  }

  // ---------------------------------------------------------------------
  // Round trip

  function Escaped(word: Bytes): Bytes {
    if word == [] then [] else [BACKSLASH, word[0]] + Escaped(word[1..])
  }

  function EncodeWord(word: Bytes): Bytes {
    if word == [] then [SINGLE, SINGLE] else Escaped(word)
  }

  function Encode(words: seq<Bytes>): Bytes {
    if words == [] then []
    else if |words| == 1 then EncodeWord(words[0])
    else EncodeWord(words[0]) + [SPACE] + Encode(words[1..])
  }

  lemma {:induction false} EscapedIsRead(word: Bytes, rest: Bytes, before: Bytes, room: nat)
    ensures Word(Escaped(word) + rest, before, room) == Word(rest, before + word, room)
    decreases |word|
  {
    var s := Escaped(word) + rest;
    if word == [] {
      assert s == rest && before + word == before;
    } else {
      assert s[0] == BACKSLASH && s[1] == word[0] && s[2..] == Escaped(word[1..]) + rest;
      EscapedIsRead(word[1..], rest, before + [word[0]], room);
      assert before + [word[0]] + word[1..] == before + word;
    }
  }

  lemma EncodedWordIsRead(word: Bytes, rest: Bytes, room: nat)
    ensures Words(EncodeWord(word) + rest, room) == Word(rest, word, room)
  {
    var s := EncodeWord(word) + rest;
    if word == [] {
      assert s[1..][0] == SINGLE && s[1..][1..] == rest;
      assert Words(s, room) == Word(s, [], room) == Quoted(s[1..], SINGLE, [], room);
    } else {
      assert s[0] == BACKSLASH;
      EscapedIsRead(word, rest, [], room);
      assert [] + word == word;
    }
  }

  lemma EncodedWordEnds(word: Bytes, tail: Bytes, room: nat)
    ensures Words(EncodeWord(word) + [SPACE] + tail, room) == EndWord(tail, word, room)
  {
    var rest := [SPACE] + tail;
    assert EncodeWord(word) + [SPACE] + tail == EncodeWord(word) + rest;
    EncodedWordIsRead(word, rest, room);
    assert rest[0] == SPACE && rest[1..] == tail;
  }

  lemma {:induction false} EncodedWordsAreRead(words: seq<Bytes>, room: nat)
    ensures Words(Encode(words), room) == if |words| <= room then Ok(words) else Err(TooManyArguments)
    decreases |words|
  {
    if |words| == 1 {
      EncodedWordIsRead(words[0], [], room);
      assert EncodeWord(words[0]) + [] == EncodeWord(words[0]);
      assert words == [words[0]];
    } else if |words| > 1 {
      EncodedWordEnds(words[0], Encode(words[1..]), room);
      if room > 0 {
        EncodedWordsAreRead(words[1..], room - 1);
        assert [words[0]] + words[1..] == words;
      }
    }
  }

  lemma {:induction false} EncodeIsAscii(words: seq<Bytes>)
    requires forall i :: 0 <= i < |words| ==> AllAscii(words[i])
    ensures AllAscii(Encode(words))
    decreases |words|
  {
    if words != [] {
      EscapedIsAscii(words[0]);
      EncodeIsAscii(words[1..]);
    }
  }

  lemma {:induction false} EscapedIsAscii(word: Bytes)
    requires AllAscii(word)
    ensures AllAscii(Escaped(word))
    decreases |word|
  {
    if word != [] {
      EscapedIsAscii(word[1..]);
    }
  }

  /** Any list of ASCII arguments, each byte escaped, parses back to itself if
      it fits the buffer, and is refused as too long a list beyond 32. */
  lemma EncodeParsesBack(words: seq<Bytes>)
    requires forall i :: 0 <= i < |words| ==> AllAscii(words[i])
    requires |Encode(words)| <= MAX_INPUT
    ensures Parse(Encode(words)) == if |words| <= MAX_ARGS then Ok(words) else Err(TooManyArguments)
  {
    EncodeIsAscii(words);
    EncodedWordsAreRead(words, MAX_ARGS);
  }

  // ---------------------------------------------------------------------
  // Which inputs are accepted

  /** How a byte is read, given what came before it. */
  datatype Mode = Bare | InQuotes(quote: byte) | AfterBackslash(within: Option<byte>)

  function Back(quote: Option<byte>): Mode {
    if quote.None? then Bare else InQuotes(quote.value)
  }

  function NextMode(mode: Mode, b: byte): Mode {
    match mode
    case AfterBackslash(within) => Back(within)
    case Bare => if b == BACKSLASH then AfterBackslash(None) else if IsQuote(b) then InQuotes(b) else Bare
    case InQuotes(q) =>
      if b == BACKSLASH && q != SINGLE then AfterBackslash(Some(q)) else if b == q then Bare else mode
  }

  /** The mode in which the byte after `s` is read. */
  function ModeAfter(s: Bytes): Mode {
    if s == [] then Bare else NextMode(ModeAfter(s[..|s| - 1]), s[|s| - 1])
  }

  /** The byte at `i` has its special meaning. */
  predicate Unquoted(s: Bytes, i: nat)
    requires i < |s|
  {
    ModeAfter(s[..i]) == Bare
  }

  /** A word starts at `i`: after the start or an unquoted blank. */
  predicate StartsWord(s: Bytes, i: nat)
    requires i < |s|
  {
    && Unquoted(s, i) && !IsWhitespace(s[i])
    && (i == 0 || (Unquoted(s, i - 1) && IsWhitespace(s[i - 1])))
  }

  function WordStarts(s: Bytes): nat {
    if s == [] then 0
    else WordStarts(s[..|s| - 1]) + (if StartsWord(s, |s| - 1) then 1 else 0)
  }

  /** Some word is under way before position `i`. */
  predicate InWord(s: Bytes, i: nat)
    requires i <= |s|
  {
    i > 0 && !(Unquoted(s, i - 1) && IsWhitespace(s[i - 1]))
  }

  function ModeOf(c: Scan): Mode {
    if c.escaped then AfterBackslash(c.quote) else Back(c.quote)
  }

  predicate NoOperatorFrom(s: Bytes, i: nat)
    requires i <= |s|
  {
    forall j :: i <= j < |s| && Unquoted(s, j) ==> !IsOperator(s[j])
  }

  /** Words that start at or after `i`, and one more if one is under way. */
  function WordsFrom(s: Bytes, i: nat): int
    requires i <= |s|
  {
    WordStarts(s) - WordStarts(s[..i]) + if InWord(s, i) then 1 else 0
  }

  predicate Tracks(s: Bytes, i: nat, c: Scan)
    requires i <= |s|
  {
    ScanOk(c) && ModeOf(c) == ModeAfter(s[..i]) && (c.word.Some? <==> InWord(s, i))
  }

  lemma TracksStep(s: Bytes, i: nat, c: Scan)
    requires i < |s| && Tracks(s, i, c) && !Rejects(c, s[i])
    ensures Tracks(s, i + 1, After(c, s[i]))
    ensures Plain(c) <==> Unquoted(s, i)
    ensures WordsFrom(s, i) == WordsFrom(s, i + 1) + if EndsWord(c, s[i]) then 1 else 0
  {
    var longer := s[..i + 1];
    assert longer[..i] == s[..i] && longer[i] == s[i];
    assert i > 0 ==> longer[..i - 1] == s[..i - 1] && longer[i - 1] == s[i - 1];
    assert ModeAfter(longer) == NextMode(ModeAfter(s[..i]), s[i]);
    assert StartsWord(longer, i) == StartsWord(s, i);
  }

  lemma {:induction false} AcceptsFrom(s: Bytes, i: nat, c: Scan, room: nat)
    requires i <= |s| && Tracks(s, i, c)
    ensures var r := Resume(s[i..], c, room);
            && (r.Ok? <==> NoOperatorFrom(s, i) && ModeAfter(s) == Bare && WordsFrom(s, i) <= room)
            && (r.Ok? ==> |r.value| == WordsFrom(s, i))
    decreases |s| - i
  {
    if i == |s| {
      assert s[..i] == s && s[i..] == [];
    } else {
      var rest := s[i..];
      assert rest[0] == s[i] && rest[1..] == s[i + 1..];
      ResumeStep(rest, c, room);
      assert Plain(c) <==> Unquoted(s, i);
      if !Rejects(c, s[i]) {
        TracksStep(s, i, c);
        WordsFromNonNegative(s, i + 1);
        AcceptsFrom(s, i + 1, After(c, s[i]), if EndsWord(c, s[i]) && room > 0 then room - 1 else room);
      }
    }
  }

  lemma {:induction false} WordsFromNonNegative(s: Bytes, i: nat)
    requires i <= |s|
    ensures WordStarts(s[..i]) <= WordStarts(s)
    decreases |s| - i
  {
    if i == |s| {
      assert s[..i] == s;
    } else {
      assert s[..i + 1][..i] == s[..i];
      WordsFromNonNegative(s, i + 1);
    }
  }

  /** A command line is accepted exactly when it fits, is ASCII, has no
      operator outside quotes and escapes, ends outside both, and starts at
      most 32 words; then it yields one argument for each. */
  lemma AcceptedExactly(input: Bytes)
    ensures Parse(input).Ok? <==>
            && |input| <= MAX_INPUT && AllAscii(input)
            && (forall i :: 0 <= i < |input| && Unquoted(input, i) ==> !IsOperator(input[i]))
            && ModeAfter(input) == Bare
            && WordStarts(input) <= MAX_ARGS
    ensures Parse(input).Ok? ==> |Parse(input).value| == WordStarts(input)
  {
    assert input[..0] == [] && input[0..] == input;
    AcceptsFrom(input, 0, START, MAX_ARGS);
  }

  // ---------------------------------------------------------------------
  // What each argument holds

  /** The byte at `i` stands for itself: it is escaped, or it is no delimiter in
      the mode in which it is read. */
  predicate Literal(s: Bytes, i: nat)
    requires i < |s|
  {
    match ModeAfter(s[..i])
    case AfterBackslash(_) => true
    case Bare => s[i] != BACKSLASH && !IsQuote(s[i]) && !IsWhitespace(s[i])
    case InQuotes(q) => s[i] != q && !(s[i] == BACKSLASH && q != SINGLE)
  }

  /** An unquoted blank: words end there. */
  predicate BlankAt(s: Bytes, i: nat)
    requires i < |s|
  {
    Unquoted(s, i) && IsWhitespace(s[i])
  }

  /** The next unquoted blank from `i` on, or the end. */
  function WordEnd(s: Bytes, i: nat): (e: nat)
    requires i <= |s|
    ensures i <= e <= |s|
    ensures e < |s| ==> BlankAt(s, e)
    ensures forall j :: i <= j < e ==> !BlankAt(s, j)
    decreases |s| - i
  {
    if i == |s| || BlankAt(s, i) then i else WordEnd(s, i + 1)
  }

  /** The literal bytes in a range. */
  function Literals(s: Bytes, from: nat, to: nat): Bytes
    requires from <= to <= |s|
    decreases |s| - from
  {
    if from == to then []
    else (if Literal(s, from) then [s[from]] else []) + Literals(s, from + 1, to)
  }

  /** Where words start, from `i` on. */
  function Starts(s: Bytes, i: nat): (r: seq<nat>)
    requires i <= |s|
    ensures forall k :: 0 <= k < |r| ==> i <= r[k] < |s| && StartsWord(s, r[k])
    ensures forall p :: i <= p < |s| && StartsWord(s, p) ==> p in r
    ensures forall j, k :: 0 <= j < k < |r| ==> r[j] < r[k]
    decreases |s| - i
  {
    if i == |s| then []
    else (if StartsWord(s, i) then [i] else []) + Starts(s, i + 1)
  }

  /** The literal bytes of each word that starts from `i` on. */
  function Texts(s: Bytes, i: nat): seq<Bytes>
    requires i <= |s|
  {
    var starts := Starts(s, i);
    seq(|starts|, k requires 0 <= k < |starts| => Literals(s, starts[k], WordEnd(s, starts[k])))
  }

  lemma TextsStep(s: Bytes, i: nat)
    requires i < |s|
    ensures Texts(s, i) == (if StartsWord(s, i) then [Literals(s, i, WordEnd(s, i))] else []) + Texts(s, i + 1)
  {
  }

  /** What is still to come of the word under way, if there is one. */
  function Pending(s: Bytes, i: nat, c: Scan): seq<Bytes>
    requires i <= |s|
  {
    if c.word.Some? then [c.word.value + Literals(s, i, WordEnd(s, i))] else []
  }

  /** One byte extends the word, ends it, or starts one. */
  lemma PendingStep(s: Bytes, i: nat, c: Scan)
    requires i < |s| && Tracks(s, i, c) && !Rejects(c, s[i])
    ensures Pending(s, i, c) + Texts(s, i) ==
            (if EndsWord(c, s[i]) then [c.word.value] else []) + (Pending(s, i + 1, After(c, s[i])) + Texts(s, i + 1))
  {
    TracksStep(s, i, c);
    TextsStep(s, i);
    var word := Begun(c);
    if BlankAt(s, i) {
      assert word + [] == word;
      assert !StartsWord(s, i);
    } else {
      assert WordEnd(s, i) == WordEnd(s, i + 1);
      LiteralStep(s, i, c);
      var rest := Literals(s, i + 1, WordEnd(s, i));
      assert word + (Lit(s, i) + rest) == word + Lit(s, i) + rest;
      assert [] + (Lit(s, i) + rest) == Lit(s, i) + rest;
    }
  }

  function Lit(s: Bytes, i: nat): Bytes
    requires i < |s|
  {
    if Literal(s, i) then [s[i]] else []
  }

  lemma LiteralStep(s: Bytes, i: nat, c: Scan)
    requires i < |s| && Tracks(s, i, c) && !Rejects(c, s[i]) && !BlankAt(s, i)
    ensures After(c, s[i]).word == Some(Begun(c) + Lit(s, i))
    ensures c.word.None? ==> StartsWord(s, i)
    ensures c.word.Some? ==> !StartsWord(s, i)
  {
    assert Begun(c) + [] == Begun(c);
  }

  lemma {:induction false} ArgumentsFrom(s: Bytes, i: nat, c: Scan, room: nat)
    requires i <= |s| && Tracks(s, i, c)
    ensures Resume(s[i..], c, room).Ok? ==> Resume(s[i..], c, room).value == Pending(s, i, c) + Texts(s, i)
    decreases |s| - i
  {
    if i == |s| {
      assert s[i..] == [];
      Conclude(c, room, []);
      PrependLaws([], [], Resume([], c, room));
      assert c.word.Some? ==> c.word.value + [] == c.word.value;
    } else {
      var rest := s[i..];
      assert rest[0] == s[i] && rest[1..] == s[i + 1..];
      ResumeStep(rest, c, room);
      if !Rejects(c, s[i]) {
        TracksStep(s, i, c);
        PendingStep(s, i, c);
        ArgumentsFrom(s, i + 1, After(c, s[i]), if EndsWord(c, s[i]) && room > 0 then room - 1 else room);
      }
    }
  }

  lemma ParseIsTexts(input: Bytes, i: nat)
    requires Parse(input).Ok? && i == 0
    ensures Parse(input).value == Texts(input, i)
  {
    assert input[..i] == [] && input[i..] == input;
    ArgumentsFrom(input, i, START, MAX_ARGS);
    assert [] + Texts(input, i) == Texts(input, i);
  }

  /** The k-th argument of an accepted line is exactly the literal bytes between
      the k-th word start and the next unquoted blank. */
  lemma ArgumentsAreTheLiterals(input: Bytes)
    requires Parse(input).Ok?
    ensures var starts := Starts(input, 0);
            && |Parse(input).value| == |starts|
            && forall k :: 0 <= k < |starts| ==>
                 Parse(input).value[k] == Literals(input, starts[k], WordEnd(input, starts[k]))
  {
    ParseIsTexts(input, 0);
  }

  lemma {:induction false} ErrorsFrom(s: Bytes, i: nat, c: Scan, room: nat)
    requires i <= |s| && Tracks(s, i, c)
    ensures match Resume(s[i..], c, room)
            case Ok(_) => true
            case Err(TooLong) => false
            case Err(NoOperators) => !NoOperatorFrom(s, i)
            case Err(TooManyArguments) => WordsFrom(s, i) > room
            case Err(UnfinishedEscape) => NoOperatorFrom(s, i) && ModeAfter(s).AfterBackslash?
            case Err(UnclosedQuote) => NoOperatorFrom(s, i) && ModeAfter(s).InQuotes?
    decreases |s| - i
  {
    if i == |s| {
      assert s[..i] == s && s[i..] == [];
      Conclude(c, room, []);
      PrependLaws([], [], Resume([], c, room));
    } else {
      var rest := s[i..];
      assert rest[0] == s[i] && rest[1..] == s[i + 1..];
      ResumeStep(rest, c, room);
      assert Plain(c) <==> Unquoted(s, i);
      if !Rejects(c, s[i]) {
        TracksStep(s, i, c);
        WordsFromNonNegative(s, i + 1);
        ErrorsFrom(s, i + 1, After(c, s[i]), if EndsWord(c, s[i]) && room > 0 then room - 1 else room);
      }
    }
  }

  /** Each error names a defect that the input has. */
  lemma ErrorsNameTheDefect(input: Bytes)
    ensures Parse(input) == Err(TooLong) <==> |input| > MAX_INPUT || !AllAscii(input)
    ensures Parse(input) == Err(NoOperators) ==>
              exists i :: 0 <= i < |input| && Unquoted(input, i) && IsOperator(input[i])
    ensures Parse(input) == Err(TooManyArguments) ==> WordStarts(input) > MAX_ARGS
    ensures Parse(input) == Err(UnfinishedEscape) ==> ModeAfter(input).AfterBackslash?
    ensures Parse(input) == Err(UnclosedQuote) ==> ModeAfter(input).InQuotes?
  {
    assert input[..0] == [] && input[0..] == input;
    ErrorsFrom(input, 0, START, MAX_ARGS);
  }

  // ---------------------------------------------------------------------
  // Other ways to write an argument

  datatype Style = Escaping | Plainly | InSingle | InDouble

  /** An ordinary byte outside quotes. */
  predicate Ordinary(b: byte) {
    !IsWhitespace(b) && !IsQuote(b) && b != BACKSLASH && !IsOperator(b)
  }

  predicate Writable(style: Style, word: Bytes) {
    match style
    case Escaping => true
    case Plainly => word != [] && forall i :: 0 <= i < |word| ==> Ordinary(word[i])
    case InSingle => forall i :: 0 <= i < |word| ==> word[i] != SINGLE
    case InDouble => forall i :: 0 <= i < |word| ==> word[i] != DOUBLE && word[i] != BACKSLASH
  }

  function Written(style: Style, word: Bytes): Bytes {
    match style
    case Escaping => EncodeWord(word)
    case Plainly => word
    case InSingle => [SINGLE] + (word + [SINGLE])
    case InDouble => [DOUBLE] + (word + [DOUBLE])
  }

  lemma {:induction false} PlainIsRead(word: Bytes, rest: Bytes, before: Bytes, room: nat)
    requires forall i :: 0 <= i < |word| ==> Ordinary(word[i])
    ensures Word(word + rest, before, room) == Word(rest, before + word, room)
    decreases |word|
  {
    if word == [] {
      assert word + rest == rest && before + word == before;
    } else {
      assert (word + rest)[0] == word[0] && (word + rest)[1..] == word[1..] + rest;
      PlainIsRead(word[1..], rest, before + [word[0]], room);
      assert before + [word[0]] + word[1..] == before + word;
    }
  }

  lemma {:induction false} QuotedIsRead(q: byte, word: Bytes, rest: Bytes, before: Bytes, room: nat)
    requires IsQuote(q) && forall i :: 0 <= i < |word| ==> word[i] != q && (q == DOUBLE ==> word[i] != BACKSLASH)
    ensures Quoted(word + ([q] + rest), q, before, room) == Word(rest, before + word, room)
    decreases |word|
  {
    var s := word + ([q] + rest);
    if word == [] {
      assert s[0] == q && s[1..] == rest && before + word == before;
    } else {
      assert s[0] == word[0] && s[1..] == word[1..] + ([q] + rest);
      QuotedIsRead(q, word[1..], rest, before + [word[0]], room);
      assert before + [word[0]] + word[1..] == before + word;
    }
  }

  lemma QuotedWordIsRead(q: byte, word: Bytes, rest: Bytes, room: nat)
    requires IsQuote(q) && forall i :: 0 <= i < |word| ==> word[i] != q && (q == DOUBLE ==> word[i] != BACKSLASH)
    ensures Words([q] + (word + [q]) + rest, room) == Word(rest, word, room)
  {
    var s := [q] + (word + [q]) + rest;
    assert s[0] == q && s[1..] == word + ([q] + rest);
    assert Words(s, room) == Word(s, [], room) == Quoted(s[1..], q, [], room);
    QuotedIsRead(q, word, rest, [], room);
    assert [] + word == word;
  }

  lemma WrittenIsRead(style: Style, word: Bytes, rest: Bytes, room: nat)
    requires Writable(style, word)
    ensures Words(Written(style, word) + rest, room) == Word(rest, word, room)
  {
    match style
    case Escaping => EncodedWordIsRead(word, rest, room);
    case Plainly =>
      assert (word + rest)[0] == word[0];
      assert Words(word + rest, room) == Word(word + rest, [], room);
      PlainIsRead(word, rest, [], room);
      assert [] + word == word;
    case InSingle => QuotedWordIsRead(SINGLE, word, rest, room);
    case InDouble => QuotedWordIsRead(DOUBLE, word, rest, room);
  }

  datatype Item = Item(style: Style, word: Bytes)

  /** A command line: each argument in its own style, joined by spaces. */
  function CommandLine(items: seq<Item>): Bytes {
    if items == [] then []
    else if |items| == 1 then Written(items[0].style, items[0].word)
    else Written(items[0].style, items[0].word) + [SPACE] + CommandLine(items[1..])
  }

  function WordsOf(items: seq<Item>): seq<Bytes> {
    seq(|items|, i requires 0 <= i < |items| => items[i].word)
  }

  lemma WrittenEnds(item: Item, tail: Bytes, room: nat)
    requires Writable(item.style, item.word)
    ensures Words(Written(item.style, item.word) + [SPACE] + tail, room) == EndWord(tail, item.word, room)
  {
    var front, rest := Written(item.style, item.word), [SPACE] + tail;
    assert front + [SPACE] + tail == front + rest;
    WrittenIsRead(item.style, item.word, rest, room);
    assert rest[0] == SPACE && rest[1..] == tail;
  }

  lemma {:induction false} LineIsRead(items: seq<Item>, room: nat)
    requires forall i :: 0 <= i < |items| ==> Writable(items[i].style, items[i].word)
    ensures Words(CommandLine(items), room) ==
            if |items| <= room then Ok(WordsOf(items)) else Err(TooManyArguments)
    decreases |items|
  {
    if |items| == 1 {
      WrittenIsRead(items[0].style, items[0].word, [], room);
      assert CommandLine(items) + [] == CommandLine(items);
      assert WordsOf(items) == [items[0].word];
    } else if |items| > 1 {
      WrittenEnds(items[0], CommandLine(items[1..]), room);
      if room > 0 {
        LineIsRead(items[1..], room - 1);
        assert WordsOf(items) == [items[0].word] + WordsOf(items[1..]);
      }
    } else {
      assert WordsOf(items) == [];
    }
  }

  /** Any arguments, each escaped, plain, or in single or double quotes as it
      admits, parse back to themselves if the line fits, and are refused beyond
      32. */
  lemma WrittenParsesBack(items: seq<Item>)
    requires forall i :: 0 <= i < |items| ==> Writable(items[i].style, items[i].word)
    requires |CommandLine(items)| <= MAX_INPUT && AllAscii(CommandLine(items))
    ensures Parse(CommandLine(items)) == if |items| <= MAX_ARGS then Ok(WordsOf(items)) else Err(TooManyArguments)
  {
    LineIsRead(items, MAX_ARGS);
  }

  predicate AllWordsAscii(words: seq<Bytes>) {
    forall k :: 0 <= k < |words| ==> AllAscii(words[k])
  }

  lemma {:induction false} ResumeIsAscii(s: Bytes, c: Scan, room: nat)
    requires ScanOk(c) && AllAscii(s) && AllAscii(Begun(c))
    ensures Resume(s, c, room).Ok? ==> AllWordsAscii(Resume(s, c, room).value)
    decreases |s|
  {
    if s != [] {
      ResumeStep(s, c, room);
      ResumeIsAscii(s[1..], After(c, s[0]), if EndsWord(c, s[0]) && room > 0 then room - 1 else room);
    } else {
      Conclude(c, room, []);
      PrependLaws([], [], Resume(s, c, room));
    }
  }

  /** Every argument is ASCII, so reading one as text never fails. */
  lemma ArgumentsAreAscii(input: Bytes)
    ensures Parse(input).Ok? ==> AllWordsAscii(Parse(input).value)
  {
    if |input| <= MAX_INPUT && AllAscii(input) {
      ResumeIsAscii(input, START, MAX_ARGS);
    }
  }

  // ---------------------------------------------------------------------
  // The parser in place

  /** Spans that follow one another without gaps from 0. */
  predicate Tile(spans: seq<(nat, nat)>) {
    forall k :: 0 <= k < |spans| ==> StartOf(spans, k) == spans[k].0 && spans[k].0 <= spans[k].1
  }

  function StartOf(spans: seq<(nat, nat)>, k: nat): nat
    requires k <= |spans|
  {
    if k == 0 then 0 else spans[k - 1].1
  }

  function End(spans: seq<(nat, nat)>): nat {
    if spans == [] then 0 else spans[|spans| - 1].1
  }

  lemma {:induction false} TileWithin(spans: seq<(nat, nat)>, k: nat)
    requires Tile(spans) && k < |spans|
    ensures spans[k].0 <= spans[k].1 <= End(spans)
    decreases |spans| - k
  {
    if k + 1 < |spans| {
      assert StartOf(spans, k + 1) == spans[k].1;
      TileWithin(spans, k + 1);
    }
  }

  lemma TilePush(spans: seq<(nat, nat)>, end: nat)
    requires Tile(spans) && End(spans) <= end
    ensures Tile(spans + [(End(spans), end)]) && End(spans + [(End(spans), end)]) == end
  {
    var longer := spans + [(End(spans), end)];
    forall k | 0 <= k < |longer|
      ensures StartOf(longer, k) == longer[k].0 && longer[k].0 <= longer[k].1
    {
      assert StartOf(longer, k) == StartOf(spans, k);
    }
  }

  function Slice(bytes: Bytes, span: (nat, nat)): Bytes {
    if span.0 <= span.1 <= |bytes| then bytes[span.0..span.1] else []
  }

  function Slices(bytes: Bytes, spans: seq<(nat, nat)>): seq<Bytes> {
    seq(|spans|, k requires 0 <= k < |spans| => Slice(bytes, spans[k]))
  }

  /** Bytes beyond the last span do not matter. */
  lemma SlicesFrame(before: Bytes, after: Bytes, spans: seq<(nat, nat)>)
    requires Tile(spans) && End(spans) <= |before| && End(spans) <= |after|
    requires forall i :: 0 <= i < End(spans) ==> before[i] == after[i]
    ensures Slices(before, spans) == Slices(after, spans)
  {
    forall k | 0 <= k < |spans|
      ensures Slice(before, spans[k]) == Slice(after, spans[k])
    {
      TileWithin(spans, k);
    }
  }

  class ArgumentList {
    const bytes: array<byte>
    const spans: array<(nat, nat)>
    var len: nat

    ghost predicate Valid()
      reads this, bytes, spans
    {
      && bytes.Length == MAX_INPUT && spans.Length == MAX_ARGS && len <= MAX_ARGS
      && Tile(spans[..len]) && End(spans[..len]) <= MAX_INPUT
    }

    /** The arguments held. */
    ghost function Contents(): seq<Bytes>
      reads this, bytes, spans
      requires Valid()
    {
      Slices(bytes[..], spans[..len])
    }

    constructor ()
      ensures Valid() && len == 0 && fresh(bytes) && fresh(spans)
      ensures forall i :: 0 <= i < MAX_INPUT ==> bytes[i] == 0
    {
      bytes := new byte[MAX_INPUT](_ => 0);
      spans := new (nat, nat)[MAX_ARGS](_ => (0, 0));
      len := 0;
    }

    method Push(start: nat, end: nat) returns (ok: bool)
      requires Valid() && End(spans[..len]) == start <= end <= MAX_INPUT
      modifies this, spans
      ensures Valid()
      ensures ok == (old(len) < MAX_ARGS)
      ensures ok ==> len == old(len) + 1 && End(spans[..len]) == end && Contents() == old(Contents()) + [bytes[start..end]]
      ensures !ok ==> len == old(len) && spans[..] == old(spans[..])
    {
      if len == MAX_ARGS {
        return false;
      }
      ghost var before := spans[..len];
      TilePush(before, end);
      spans[len] := (start, end);
      len := len + 1;
      assert spans[..len] == before + [(start, end)];
      return true;
    }

    /** Its assertion is the precondition. */
    method Get(index: nat) returns (word: Bytes)
      requires Valid() && index < len
      ensures word == Contents()[index]
    {
      ghost var all := spans[..len];
      TileWithin(all, index);
      var (start, end) := spans[index];
      assert all[index] == (start, end);
      word := bytes[start..end];
    }
  }

  /** `start.get_or_insert(used)`. */
  function GetOrInsert(start: Option<nat>, used: nat): Option<nat> {
    if start.Some? then start else Some(used)
  }

  /** The loop's variables. */
  datatype Loop = Loop(start: Option<nat>, used: nat, quote: Option<byte>, escaped: bool)

  /** They stand for the tokenizer's state, and nothing is stored past `used`. */
  ghost predicate Shows(a: ArgumentList, v: Loop, c: Scan)
    reads a, a.bytes, a.spans
  {
    && a.Valid() && v.used <= MAX_INPUT && ScanOk(c)
    && c.quote == v.quote && c.escaped == v.escaped
    && (if v.start.None? then c.word.None? && End(a.spans[..a.len]) == v.used
        else End(a.spans[..a.len]) == v.start.value <= v.used && c.word == Some(a.bytes[v.start.value..v.used]))
    && forall k :: v.used <= k < MAX_INPUT ==> a.bytes[k] == 0
  }

  /** `start.get_or_insert(used); bytes[used] = byte; used += 1`. */
  method Store(a: ArgumentList, v: Loop, b: byte, ghost c: Scan) returns (w: Loop)
    requires Shows(a, v, c) && v.used < MAX_INPUT
    modifies a.bytes
    ensures Shows(a, w, c.(word := Some(Begun(c) + [b])))
    ensures w.used == v.used + 1 && a.Contents() == old(a.Contents())
  {
    ghost var before := a.bytes[..];
    var start := GetOrInsert(v.start, v.used);
    a.bytes[v.used] := b;
    SlicesFrame(before, a.bytes[..], a.spans[..a.len]);
    assert a.bytes[start.value..v.used + 1] == before[start.value..v.used] + [b];
    assert before[v.used..v.used] == [];
    w := v.(start := start, used := v.used + 1);
  }

  /** The body of the loop, for one byte. */
  method Feed(a: ArgumentList, v: Loop, b: byte, ghost c: Scan) returns (w: Loop, error: Option<ParseError>)
    requires Shows(a, v, c) && v.used < MAX_INPUT
    modifies a, a.bytes, a.spans
    ensures error == if Rejects(c, b) then Some(NoOperators)
                     else if EndsWord(c, b) && old(a.len) == MAX_ARGS then Some(TooManyArguments)
                     else None
    ensures error.None? ==>
              && Shows(a, w, After(c, b)) && w.used <= v.used + 1
              && a.len == old(a.len) + (if EndsWord(c, b) then 1 else 0)
              && a.Contents() == if EndsWord(c, b) then old(a.Contents()) + [c.word.value] else old(a.Contents())
  {
    w, error := v, None;
    AfterIsOk(c, b);
    assert a.bytes[v.used..v.used] == [];
    if v.escaped {
      w := Store(a, v, b, c);
      w := w.(escaped := false);
    } else if b == BACKSLASH && v.quote != Some(SINGLE) {
      w := v.(start := GetOrInsert(v.start, v.used), escaped := true);
    } else if v.quote == Some(b) {
      w := v.(quote := None);
    } else if v.quote.None? && IsQuote(b) {
      w := v.(start := GetOrInsert(v.start, v.used), quote := Some(b));
    } else if v.quote.None? && IsWhitespace(b) {
      if v.start.Some? {
        var ok := a.Push(v.start.value, v.used);
        if !ok {
          return w, Some(TooManyArguments);
        }
        w := v.(start := None);
      }
    } else if v.quote.None? && IsOperator(b) {
      return w, Some(NoOperators);
    } else {
      w := Store(a, v, b, c);
    }
  }

  lemma AdvanceOne(rest: Bytes, c: Scan, room: nat, done: seq<Bytes>)
    requires rest != [] && ScanOk(c)
    ensures ScanOk(After(c, rest[0]))
    ensures Prepend(done, Resume(rest, c, room)) ==
            if Rejects(c, rest[0]) then Err(NoOperators)
            else if !EndsWord(c, rest[0]) then Prepend(done, Resume(rest[1..], After(c, rest[0]), room))
            else if room == 0 then Err(TooManyArguments)
            else Prepend(done + [c.word.value], Resume(rest[1..], After(c, rest[0]), room - 1))
  {
    ResumeStep(rest, c, room);
    if EndsWord(c, rest[0]) && room > 0 {
      PrependLaws(done, [c.word.value], Resume(rest[1..], After(c, rest[0]), room - 1));
    }
  }

  lemma Conclude(c: Scan, room: nat, done: seq<Bytes>)
    requires ScanOk(c)
    ensures Prepend(done, Resume([], c, room)) ==
            if c.escaped then Err(UnfinishedEscape)
            else if c.quote.Some? then Err(UnclosedQuote)
            else if c.word.None? then Ok(done)
            else if room == 0 then Err(TooManyArguments)
            else Ok(done + [c.word.value])
  {
    assert done + [] == done;
  }

  /** The tokenizer's outcome, from what is stored and what is still to read. */
  ghost predicate Leads(outcome: Parsed, a: ArgumentList, rest: Bytes, c: Scan)
    reads a, a.bytes, a.spans
    requires a.Valid() && ScanOk(c)
  {
    outcome == Prepend(a.Contents(), Resume(rest, c, MAX_ARGS - a.len))
  }

  /** The arguments held are the outcome, and nothing else is stored. */
  ghost predicate Holds(outcome: Parsed, a: ArgumentList)
    reads a, a.bytes, a.spans
  {
    && a.Valid() && outcome == Ok(a.Contents())
    && forall i :: End(a.spans[..a.len]) <= i < MAX_INPUT ==> a.bytes[i] == 0
  }

  /** `Arguments::parse`: the buffers are never overrun, the spans tile the
      bytes stored, nothing is stored beyond them, and the outcome is that of
      the recursive tokenizer. */
  method ParseArguments(input: Bytes) returns (r: Result<ArgumentList, ParseError>)
    ensures r.Err? ==> Parse(input) == Err(r.error)
    ensures r.Ok? ==> fresh(r.value) && Holds(Parse(input), r.value)
  {
    if |input| > MAX_INPUT || !AllAscii(input) {
      return Err(TooLong);
    }
    var a := new ArgumentList();
    var v := Loop(None, 0, None, false);
    ghost var c, outcome, rest := START, Parse(input), input;
    StartLeads(input, a);
    for i := 0 to |input|
      invariant fresh(a) && fresh(a.bytes) && fresh(a.spans)
      invariant Shows(a, v, c) && v.used <= i
      invariant rest == input[i..] && Leads(outcome, a, rest, c)
    {
      var error;
      v, error := Consume(a, v, input[i], c, rest, outcome);
      if error.Some? {
        return Err(error.value);
      }
      c, rest := After(c, input[i]), rest[1..];
    }
    r := Finish(a, v, c, outcome);
  }

  lemma StartLeads(input: Bytes, a: ArgumentList)
    requires a.Valid() && a.len == 0 && |input| <= MAX_INPUT && AllAscii(input)
    ensures Leads(Parse(input), a, input, START)
  {
    assert a.Contents() == [];
    PrependLaws([], [], Words(input, MAX_ARGS));
  }

  /** One turn of the loop. */
  method Consume(a: ArgumentList, v: Loop, b: byte, ghost c: Scan, ghost rest: Bytes, ghost outcome: Parsed)
      returns (w: Loop, error: Option<ParseError>)
    requires Shows(a, v, c) && v.used < MAX_INPUT && rest != [] && rest[0] == b && Leads(outcome, a, rest, c)
    modifies a, a.bytes, a.spans
    ensures error.Some? ==> outcome == Err(error.value)
    ensures error.None? ==> Shows(a, w, After(c, b)) && w.used <= v.used + 1 && Leads(outcome, a, rest[1..], After(c, b))
  {
    AdvanceOne(rest, c, MAX_ARGS - a.len, a.Contents());
    w, error := Feed(a, v, b, c);
  }

  /** After the last byte. */
  method Finish(a: ArgumentList, v: Loop, ghost c: Scan, ghost outcome: Parsed)
      returns (r: Result<ArgumentList, ParseError>)
    requires Shows(a, v, c) && Leads(outcome, a, [], c)
    modifies a, a.spans
    ensures r.Err? ==> outcome == Err(r.error)
    ensures r.Ok? ==> r.value == a && Holds(outcome, a)
  {
    Conclude(c, MAX_ARGS - a.len, a.Contents());
    if v.escaped {
      return Err(UnfinishedEscape);
    }
    if v.quote.Some? {
      return Err(UnclosedQuote);
    }
    if v.start.Some? {
      var ok := a.Push(v.start.value, v.used);
      if !ok {
        return Err(TooManyArguments);
      }
    }
    return Ok(a);
  }
}
