/** An HTTP response as text for the terminal. */
module WebPage {
  import opened Prelude
  import opened Scanning
  import Html

  const CR: byte := 13
  const LF: byte := 10
  const TAB: byte := 9

  datatype PageError = NoHeader | BadStatus

  function Crlf(): (s: Bytes)
    ensures |s| == 2
  {
    [CR, LF]
  }

  function HeaderEnd(): (s: Bytes)
    ensures |s| == 4
  {
    [CR, LF, CR, LF]
  }

  /** "HTTP/" */
  function HttpSlash(): (s: Bytes)
    ensures |s| == 5 && s[0] != CR
  {
    [72, 84, 84, 80, 47]
  }

  /** "content-type: text/html" */
  function HtmlHeader(): Bytes {
    [99, 111, 110, 116, 101, 110, 116, 45, 116, 121, 112, 101, 58, 32, 116, 101, 120, 116, 47, 104, 116, 109, 108]
  }

  /** The bytes that `keep` accepts, in order. */
  function Filter(keep: byte -> bool, s: Bytes): Bytes {
    if s == [] then [] else (if keep(s[0]) then [s[0]] else []) + Filter(keep, s[1..])
  }

  predicate InStatus(b: byte) {
    IsGraphic(b) || b == 32
  }

  predicate InBody(b: byte) {
    b == LF || b == TAB || IsPrintable(b)
  }

  /** `split(|b| *b == b'\n')`. */
  function SplitLines(s: Bytes): (lines: seq<Bytes>)
    ensures lines != []
    decreases |s|
  {
    var end := Find(s, LF);
    if end.None? then [s] else [s[..end.value]] + SplitLines(s[end.value + 1..])
  }

  predicate AnyStartsWith(lines: seq<Bytes>, prefix: Bytes) {
    lines != [] && (StartsWith(Lower(lines[0]), prefix) || AnyStartsWith(lines[1..], prefix))
  }

  predicate IsHtml(header: Bytes) {
    AnyStartsWith(SplitLines(header), HtmlHeader())
  }

  function StatusOf(header: Bytes): Bytes {
    var end := FindPattern(header, Crlf());
    if end.None? then header else header[..end.value]
  }

  function BodyText(header: Bytes, body: Bytes): Bytes {
    if IsHtml(header) then Html.Rendered(body, false, Some(LF)) else Filter(InBody, body)
  }

  function Text(header: Bytes, body: Bytes): Bytes {
    Filter(InStatus, StatusOf(header)) + [LF] + BodyText(header, body)
  }

  /** The header and the body, once the status line has been checked. */
  function Split(response: Bytes): Result<(Bytes, Bytes), PageError> {
    var end := FindPattern(response, HeaderEnd());
    if end.None? then Err(NoHeader)
    else
      var header := response[..end.value];
      if !StartsWith(StatusOf(header), HttpSlash()) then Err(BadStatus)
      else Ok((header, response[end.value + 4..]))
  }

  /** `render`. */
  function Page(response: Bytes): Result<Bytes, PageError> {
    match Split(response)
    case Err(error) => Err(error)
    case Ok((header, body)) => Ok(Text(header, body))
  }

  // ---------------------------------------------------------------------
  // What is shown

  lemma {:induction false} FilterKeeps(keep: byte -> bool, s: Bytes)
    ensures forall i :: 0 <= i < |Filter(keep, s)| ==> keep(Filter(keep, s)[i])
    ensures (forall i :: 0 <= i < |s| ==> keep(s[i])) ==> Filter(keep, s) == s
    decreases |s|
  {
    if s != [] {
      FilterKeeps(keep, s[1..]);
      assert s == [s[0]] + s[1..];
    }
  }

  predicate AllShowable(text: Bytes) {
    forall i :: 0 <= i < |text| ==> InBody(text[i])
  }

  lemma BodyIsShowable(header: Bytes, body: Bytes)
    ensures AllShowable(BodyText(header, body))
  {
    if IsHtml(header) {
      Html.OnlyPrintable(body, false, Some(LF));
    } else {
      FilterKeeps(InBody, body);
    }
  }

  lemma StatusIsShowable(header: Bytes)
    ensures AllShowable(Filter(InStatus, StatusOf(header)))
  {
    var text := Filter(InStatus, StatusOf(header));
    FilterKeeps(InStatus, StatusOf(header));
    assert forall i :: 0 <= i < |text| ==> InStatus(text[i]);
  }

  lemma ShowableConcat(a: Bytes, b: Bytes)
    requires AllShowable(a) && AllShowable(b)
    ensures AllShowable(a + [LF] + b)
  {
  }

  lemma TextIsShowable(header: Bytes, body: Bytes)
    ensures AllShowable(Text(header, body))
  {
    StatusIsShowable(header);
    BodyIsShowable(header, body);
    ShowableConcat(Filter(InStatus, StatusOf(header)), BodyText(header, body));
  }

  /** A page holds nothing but printable characters, newlines and tabs; in
      particular no carriage return reaches the terminal. */
  lemma PageIsShowable(response: Bytes)
    requires Page(response).Ok?
    ensures AllShowable(Page(response).value)
  {
    var (header, body) := Split(response).value;
    TextIsShowable(header, body);
  }

  lemma PrefixOfPrefix(s: Bytes, n: nat, prefix: Bytes)
    requires n <= |s|
    ensures StartsWith(s[..n], prefix) <==> |prefix| <= n && StartsWith(s, prefix)
  {
    assert |prefix| <= n ==> s[..n][..|prefix|] == s[..|prefix|];
  }

  /** A pattern that begins with a byte foreign to the prefix of `s` is not
      found inside that prefix. */
  lemma PatternAfterPrefix(s: Bytes, prefix: Bytes, pattern: Bytes, at: nat)
    requires StartsWith(s, prefix) && pattern != [] && !Has(prefix, pattern[0])
    requires at + |pattern| <= |s| && StartsWith(s[at..], pattern)
    ensures |prefix| <= at
  {
    assert s[at] == s[at..][..|pattern|][0];
    forall i | 0 <= i < |prefix|
      ensures s[i] != pattern[0]
    {
      assert s[..|prefix|][i] == prefix[i];
    }
  }

  lemma StatusStarts(header: Bytes)
    ensures StartsWith(StatusOf(header), HttpSlash()) <==> StartsWith(header, HttpSlash())
  {
    var crlf := FindPattern(header, Crlf());
    if crlf.Some? {
      PrefixOfPrefix(header, crlf.value, HttpSlash());
      if StartsWith(header, HttpSlash()) {
        PatternAfterPrefix(header, HttpSlash(), Crlf(), crlf.value);
      }
    }
  }

  lemma SplitExactly(response: Bytes)
    ensures Split(response).Ok? <==>
            StartsWith(response, HttpSlash()) && FindPattern(response, HeaderEnd()).Some?
    ensures Split(response) == Err(NoHeader) <==> FindPattern(response, HeaderEnd()).None?
  {
    var end := FindPattern(response, HeaderEnd());
    if end.Some? {
      StatusStarts(response[..end.value]);
      PrefixOfPrefix(response, end.value, HttpSlash());
      if StartsWith(response, HttpSlash()) {
        PatternAfterPrefix(response, HttpSlash(), HeaderEnd(), end.value);
      }
    }
  }

  /** A response is shown exactly when it starts with "HTTP/" and has an empty
      line somewhere; the error tells which is missing. */
  lemma ShownExactly(response: Bytes)
    ensures Page(response).Ok? <==>
            StartsWith(response, HttpSlash()) && FindPattern(response, HeaderEnd()).Some?
    ensures Page(response) == Err(NoHeader) <==> FindPattern(response, HeaderEnd()).None?
  {
    SplitExactly(response);
  }

  // ---------------------------------------------------------------------
  // What a page is made of

  /** `Filter` keeps the order: it takes each byte or drops it. */
  lemma {:induction false} FilterConcat(keep: byte -> bool, a: Bytes, b: Bytes)
    ensures Filter(keep, a + b) == Filter(keep, a) + Filter(keep, b)
    decreases |a|
  {
    if a == [] {
      assert a + b == b;
    } else {
      assert (a + b)[1..] == a[1..] + b;
      FilterConcat(keep, a[1..], b);
    }
  }

  predicate StartsIgnoringCase(s: Bytes, prefix: Bytes) {
    |prefix| <= |s| && forall j :: 0 <= j < |prefix| ==> ToLower(s[j]) == prefix[j]
  }

  /** Some line of a text starts with the prefix, whatever its case. */
  ghost predicate SomeLineStarts(s: Bytes, prefix: Bytes) {
    exists k :: 0 <= k <= |s| && (k == 0 || s[k - 1] == LF) && StartsIgnoringCase(s[k..], prefix)
  }

  lemma LowerStarts(s: Bytes, prefix: Bytes)
    ensures StartsWith(Lower(s), prefix) <==> StartsIgnoringCase(s, prefix)
  {
    if |prefix| <= |s| {
      assert forall j :: 0 <= j < |prefix| ==> Lower(s)[..|prefix|][j] == ToLower(s[j]);
    }
  }

  /** Cutting a text at a newline does not change what it starts with. */
  lemma CutStarts(s: Bytes, n: nat, prefix: Bytes)
    requires n < |s| && s[n] == LF && !Has(prefix, LF)
    ensures StartsIgnoringCase(s[..n], prefix) <==> StartsIgnoringCase(s, prefix)
  {
    assert n < |prefix| ==> prefix[n] != LF;
    assert ToLower(s[n]) == LF;
  }

  lemma {:induction false} SplitStarts(s: Bytes, prefix: Bytes)
    requires !Has(prefix, LF) && prefix != []
    ensures AnyStartsWith(SplitLines(s), prefix) <==> SomeLineStarts(s, prefix)
    decreases |s|
  {
    var end := Find(s, LF);
    assert s[0..] == s;
    if end.None? {
      assert SplitLines(s)[1..] == [];
      LowerStarts(s, prefix);
    } else {
      var n := end.value;
      var rest := s[n + 1..];
      assert SplitLines(s)[1..] == SplitLines(rest);
      LowerStarts(s[..n], prefix);
      CutStarts(s, n, prefix);
      SplitStarts(rest, prefix);
      RestStarts(s, n, prefix);
    }
  }

  /** After the first newline, the lines are those of the rest. */
  lemma RestStarts(s: Bytes, n: nat, prefix: Bytes)
    requires n < |s| && s[n] == LF && (forall i :: 0 <= i < n ==> s[i] != LF)
    ensures SomeLineStarts(s, prefix) <==> StartsIgnoringCase(s, prefix) || SomeLineStarts(s[n + 1..], prefix)
  {
    var rest := s[n + 1..];
    assert s[0..] == s;
    if SomeLineStarts(s, prefix) && !StartsIgnoringCase(s, prefix) {
      var k :| 0 <= k <= |s| && (k == 0 || s[k - 1] == LF) && StartsIgnoringCase(s[k..], prefix);
      assert k > n && rest[k - (n + 1)..] == s[k..];
    }
    if SomeLineStarts(rest, prefix) {
      var k :| 0 <= k <= |rest| && (k == 0 || rest[k - 1] == LF) && StartsIgnoringCase(rest[k..], prefix);
      assert rest[k..] == s[n + 1 + k..];
      assert k > 0 ==> rest[k - 1] == s[n + k];
    }
  }

  /** A response is rendered as HTML exactly when some line of its header starts
      with "content-type: text/html", in any case. */
  lemma HtmlExactly(header: Bytes)
    ensures IsHtml(header) <==> SomeLineStarts(header, HtmlHeader())
  {
    SplitStarts(header, HtmlHeader());
  }

  /** A response put together from a status line, further header lines and a
      body. */
  function Response(status: Bytes, fields: Bytes, body: Bytes): Bytes {
    status + fields + (HeaderEnd() + body)
  }

  predicate FieldsOk(fields: Bytes) {
    fields == [] || StartsWith(fields, Crlf())
  }

  /** No empty line earlier than the one that ends the header. */
  ghost predicate EndsHere(response: Bytes, n: nat) {
    forall i :: 0 <= i < n && i <= |response| ==> !StartsWith(response[i..], HeaderEnd())
  }

  lemma FoundHere(response: Bytes, n: nat)
    requires n + 4 <= |response| && StartsWith(response[n..], HeaderEnd()) && EndsHere(response, n)
    ensures FindPattern(response, HeaderEnd()) == Some(n)
  {
  }

  lemma StatusFound(status: Bytes, fields: Bytes)
    requires FieldsOk(fields) && !Has(status, CR)
    ensures StatusOf(status + fields) == status
  {
    var header := status + fields;
    forall i | 0 <= i < |status|
      ensures !StartsWith(header[i..], Crlf())
    {
      assert header[i..][0] == status[i];
      NotAtStart(header[i..], Crlf(), 0);
    }
    if fields == [] {
      assert header == status;
    } else {
      assert header[|status|..] == fields;
      assert header[..|status|] == status;
    }
  }

  /** The page of a response: its status line, then the body, as text or as
      HTML. */
  lemma PageOfResponse(status: Bytes, fields: Bytes, body: Bytes)
    requires StartsWith(status, HttpSlash()) && !Has(status, CR) && FieldsOk(fields)
    requires EndsHere(Response(status, fields, body), |status + fields|)
    ensures Page(Response(status, fields, body)) == Ok(Filter(InStatus, status) + [LF] + BodyText(status + fields, body))
  {
    var header, response := status + fields, Response(status, fields, body);
    var rest := HeaderEnd() + body;
    assert response[|header|..] == rest && rest[..4] == HeaderEnd();
    FoundHere(response, |header|);
    assert response[..|header|] == header && response[|header| + 4..] == body;
    StatusFound(status, fields);
  }

  /** Printable text that is not declared as HTML is shown as it is, under its
      status line. */
  lemma PlainTextIsShownVerbatim(status: Bytes, fields: Bytes, body: Bytes)
    requires StartsWith(status, HttpSlash()) && (forall i :: 0 <= i < |status| ==> InStatus(status[i])) && FieldsOk(fields)
    requires EndsHere(Response(status, fields, body), |status + fields|)
    requires !SomeLineStarts(status + fields, HtmlHeader()) && AllShowable(body)
    ensures Page(Response(status, fields, body)) == Ok(status + [LF] + body)
  {
    PageOfResponse(status, fields, body);
    HtmlExactly(status + fields);
    FilterKeeps(InStatus, status);
    FilterKeeps(InBody, body);
  }

  // ---------------------------------------------------------------------
  // The loops

  method AppendFiltered(keep: byte -> bool, s: Bytes, before: Bytes) returns (output: Bytes)
    ensures output == before + Filter(keep, s)
  {
    output := before;
    assert s[0..] == s;
    for i := 0 to |s|
      invariant output + Filter(keep, s[i..]) == before + Filter(keep, s)
    {
      assert s[i..][1..] == s[i + 1..];
      if keep(s[i]) {
        output := output + [s[i]];
      }
    }
    assert s[|s|..] == [];
  }

  /** Cut a response up as `render` does. */
  method SplitResponse(response: Bytes) returns (r: Result<(Bytes, Bytes), PageError>, status: Bytes)
    ensures r == Split(response) && (r.Ok? ==> status == StatusOf(r.value.0))
  {
    var end := FindPattern(response, HeaderEnd());
    status := [];
    if end.None? {
      return Err(NoHeader), status;
    }
    var header, body := response[..end.value], response[end.value + 4..];
    var crlf := FindPattern(header, Crlf());
    status := header[..if crlf.Some? then crlf.value else |header|];
    assert status == StatusOf(header);
    if !StartsWith(status, HttpSlash()) {
      return Err(BadStatus), status;
    }
    return Ok((header, body)), status;
  }

  method Render(response: Bytes) returns (r: Result<Bytes, PageError>)
    ensures r == Page(response)
  {
    var split, status := SplitResponse(response);
    if split.Err? {
      return Err(split.error);
    }
    var (header, body) := split.value;
    var output := AppendFiltered(InStatus, status, []);
    assert output == Filter(InStatus, status);
    output := output + [LF];
    if IsHtml(header) {
      output := Html.RenderHtml(body, output);
    } else {
      output := AppendFiltered(InBody, body, output);
    }
    return Ok(output);
  }
}
