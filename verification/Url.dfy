/** URLs: the http scheme of section 3.2.2 of RFC 1945. */
module Url {
  import opened Prelude
  import opened Scanning

  const SLASH: byte := 47
  const COLON: byte := 58
  const PLUS: byte := 43
  const HASH: byte := 35

  const DEFAULT_PORT := 80

  datatype Address = Address(host: Bytes, port: nat, path: Bytes)

  datatype UrlError = NotHttp | BadPort | BadUrl

  /** "http://" */
  function Scheme(): (s: Bytes)
    ensures |s| == 7
  {
    [104, 116, 116, 112, 58, 47, 47]
  }

  predicate IsHostByte(b: byte) {
    IsAlphanumeric(b) || b == 46 || b == 45
  }

  predicate HostOk(host: Bytes) {
    host != [] && forall i :: 0 <= i < |host| ==> IsHostByte(host[i])
  }

  predicate PathBytesOk(path: Bytes) {
    forall i :: 0 <= i < |path| ==> IsGraphic(path[i]) && path[i] != HASH
  }

  // ---------------------------------------------------------------------
  // Ports

  predicate AllDigits(s: Bytes) {
    forall i :: 0 <= i < |s| ==> IsDigit(s[i])
  }

  function Value(digits: Bytes): nat
    requires AllDigits(digits)
  {
    if digits == [] then 0 else 10 * Value(digits[..|digits| - 1]) + (digits[|digits| - 1] - 48)
  }

  function StripPlus(s: Bytes): Bytes {
    if s != [] && s[0] == PLUS then s[1..] else s
  }

  /** `str::parse::<u16>`: an optional plus sign, then digits, no overflow. */
  function ParseU16(s: Bytes): Option<nat> {
    var digits := StripPlus(s);
    if digits == [] || !AllDigits(digits) || Value(digits) > 0xffff then None else Some(Value(digits))
  }

  function Decimal(n: nat): (s: Bytes)
    ensures AllDigits(s) && s != [] && Value(s) == n
  {
    if n < 10 then
      assert [48 + n][..0] == [];
      [48 + n]
    else
      var front := Decimal(n / 10);
      assert (front + [48 + n % 10])[..|front|] == front;
      front + [48 + n % 10]
  }

  // ---------------------------------------------------------------------
  // Parsing

  function SplitPath(rest: Bytes): (Bytes, Bytes) {
    var slash := Find(rest, SLASH);
    if slash.Some? then (rest[..slash.value], rest[slash.value..]) else (rest, [SLASH])
  }

  function SplitPort(authority: Bytes): Option<(Bytes, nat)> {
    var colon := FindLast(authority, COLON);
    if colon.None? then Some((authority, DEFAULT_PORT))
    else
      var port := ParseU16(authority[colon.value + 1..]);
      if port.None? then None else Some((authority[..colon.value], port.value))
  }

  /** `Url::parse`. */
  function Parse(input: Bytes): Result<Address, UrlError> {
    if !StartsWith(input, Scheme()) then Err(NotHttp)
    else
      var (authority, path) := SplitPath(input[|Scheme()|..]);
      var split := SplitPort(authority);
      if split.None? then Err(BadPort)
      else
        var (host, port) := split.value;
        if !HostOk(host) || port == 0 || !PathBytesOk(path) then Err(BadUrl)
        else Ok(Address(host, port, path))
  }

  // ---------------------------------------------------------------------
  // The grammar: "http:" "//" host [ ":" port ] [ abs_path ]

  predicate Valid(u: Address) {
    HostOk(u.host) && 1 <= u.port <= 0xffff && u.path != [] && u.path[0] == SLASH && PathBytesOk(u.path)
  }

  /** A number in decimal, leading zeros allowed. */
  predicate Number(text: Bytes, n: nat) {
    text != [] && AllDigits(text) && Value(text) == n
  }

  /** Text that the code takes for a port: nothing for the default, or a colon
      and a number, perhaps with a plus sign. */
  predicate PortText(text: Bytes, port: nat) {
    if text == [] then port == 80
    else text[0] == COLON && (Number(text[1..], port) || (|text| > 1 && text[1] == PLUS && Number(text[2..], port)))
  }

  /** The port of RFC 1945: `port = *DIGIT`, and nothing stands for 80. */
  predicate RfcPort(text: Bytes, port: nat) {
    if text == [] || text == [COLON] then port == 80 else text[0] == COLON && Number(text[1..], port)
  }

  lemma U16Exactly(s: Bytes, n: nat)
    ensures ParseU16(s) == Some(n) <==> n <= 0xffff && (Number(s, n) || (s != [] && s[0] == PLUS && Number(s[1..], n)))
  {
    assert s != [] && AllDigits(s) ==> IsDigit(s[0]);
  }

  predicate PathText(text: Bytes, path: Bytes) {
    text == path || (text == [] && path == [SLASH])
  }

  /** An absolute path, or none. */
  predicate PathOk(text: Bytes) {
    text == [] || (text[0] == SLASH && PathBytesOk(text))
  }

  function PathOf(text: Bytes): Bytes {
    if text == [] then [SLASH] else text
  }

  function Assemble(host: Bytes, port: Bytes, path: Bytes): Bytes {
    Scheme() + (host + port + path)
  }

  ghost predicate Denotes(input: Bytes, u: Address) {
    exists port, path :: PortText(port, u.port) && PathText(path, u.path) && input == Assemble(u.host, port, path)
  }

  ghost predicate RfcDenotes(input: Bytes, u: Address) {
    exists port, path :: RfcPort(port, u.port) && PathText(path, u.path) && input == Assemble(u.host, port, path)
  }

  lemma PortTextBytes(text: Bytes, port: nat)
    requires PortText(text, port) || RfcPort(text, port)
    ensures !Has(text, SLASH)
    ensures text != [] ==> !Has(text[1..], COLON)
  {
    forall i | 1 <= i < |text|
      ensures text[i] == PLUS || IsDigit(text[i])
    {
      assert Number(text[1..], port) ==> text[i] == text[1..][i - 1];
      assert i > 1 ==> text[i] == text[2..][i - 2];
    }
  }

  /** Where the authority of an assembled URL ends. */
  lemma AssembledSplits(host: Bytes, port: Bytes, path: Bytes)
    requires HostOk(host) && !Has(port, SLASH) && (path == [] || path[0] == SLASH)
    ensures var input := Assemble(host, port, path);
            && StartsWith(input, Scheme())
            && SplitPath(input[|Scheme()|..]) == (host + port, PathOf(path))
  {
    var input, authority := Assemble(host, port, path), host + port;
    var rest := authority + path;
    assert input[..|Scheme()|] == Scheme() && input[|Scheme()|..] == rest;
    AuthorityHasNoSlash(host, port);
    if path == [] {
      assert rest == authority;
    } else {
      assert rest[..|authority|] == authority;
      FindIs(rest, SLASH, |authority|);
      assert rest[|authority|..] == path;
    }
  }

  /** Whatever fits the grammar with valid parts is parsed into those parts. */
  lemma GrammarParses(u: Address, port: Bytes, path: Bytes)
    requires Valid(u) && PortText(port, u.port) && PathText(path, u.path)
    ensures Parse(Assemble(u.host, port, path)) == Ok(u)
  {
    PortTextBytes(port, u.port);
    AssembledSplits(u.host, port, path);
    AuthoritySplits(u.host, port, u.port);
  }

  lemma AuthorityHasNoSlash(host: Bytes, port: Bytes)
    requires HostOk(host) && !Has(port, SLASH)
    ensures !Has(host + port, SLASH)
  {
    forall i | 0 <= i < |host + port|
      ensures (host + port)[i] != SLASH
    {
      if i >= |host| {
        assert (host + port)[i] == port[i - |host|];
      } else {
        assert IsHostByte(host[i]);
      }
    }
  }

  lemma AuthoritySplits(host: Bytes, port: Bytes, value: nat)
    requires HostOk(host) && PortText(port, value) && value <= 0xffff
    ensures SplitPort(host + port) == Some((host, value))
  {
    var authority := host + port;
    PortTextBytes(port, value);
    if port == [] {
      assert authority == host;
      HostHasNoColon(host);
    } else {
      assert authority[|host| + 1..] == port[1..];
      FindLastIs(authority, COLON, |host|);
      assert authority[..|host|] == host;
      assert |port| > 1 ==> port[1..][0] == port[1] && port[1..][1..] == port[2..];
      U16Exactly(port[1..], value);
    }
  }

  lemma HostHasNoColon(host: Bytes)
    requires HostOk(host)
    ensures FindLast(host, COLON).None?
  {
    assert forall i :: 0 <= i < |host| ==> IsHostByte(host[i]) && host[i] != COLON;
  }

  lemma SplitPathJoins(rest: Bytes) returns (text: Bytes)
    ensures PathText(text, SplitPath(rest).1) && rest == SplitPath(rest).0 + text
    ensures SplitPath(rest).1 != [] && SplitPath(rest).1[0] == SLASH
  {
    text := if Find(rest, SLASH).None? then [] else SplitPath(rest).1;
  }

  lemma SplitPortJoins(authority: Bytes) returns (text: Bytes)
    requires SplitPort(authority).Some?
    ensures var (host, port) := SplitPort(authority).value;
            PortText(text, port) && authority == host + text && port <= 0xffff
  {
    var colon := FindLast(authority, COLON);
    text := if colon.None? then [] else authority[colon.value..];
    if colon.Some? {
      assert text[1..] == authority[colon.value + 1..];
      assert |text| > 1 ==> text[1..][0] == text[1] && text[1..][1..] == text[2..];
      U16Exactly(text[1..], SplitPort(authority).value.1);
    }
  }

  /** Whatever is parsed is valid, and its parts make up the input. */
  lemma ParsedFitsGrammar(input: Bytes)
    requires Parse(input).Ok?
    ensures Valid(Parse(input).value) && Denotes(input, Parse(input).value)
  {
    var u := Parse(input).value;
    var rest := input[|Scheme()|..];
    assert input == Scheme() + rest;
    var path := SplitPathJoins(rest);
    var port := SplitPortJoins(SplitPath(rest).0);
    assert SplitPort(SplitPath(rest).0).value == (u.host, u.port) && SplitPath(rest).1 == u.path;
    assert input == Assemble(u.host, port, path);
  }

  /** The parser accepts exactly the URLs with valid parts and a port text of
      its own kind, and returns the parts. */
  lemma ParsesExactlyTheGrammar(input: Bytes, u: Address)
    ensures Parse(input) == Ok(u) <==> Valid(u) && Denotes(input, u)
  {
    if Parse(input) == Ok(u) {
      ParsedFitsGrammar(input);
    }
    if Valid(u) && Denotes(input, u) {
      var port, path :| PortText(port, u.port) && PathText(path, u.path) && input == Assemble(u.host, port, path);
      GrammarParses(u, port, path);
    }
  }

  /** `tail` is what follows the last colon before the path. */
  ghost predicate Parts(host: Bytes, tail: Bytes, path: Bytes) {
    !Has(host, SLASH) && !Has(tail, SLASH) && !Has(tail, COLON) && (path == [] || path[0] == SLASH)
  }

  /** Behind the last colon before the path is no number up to 65535. */
  ghost predicate PortFault(input: Bytes) {
    exists host, tail, path ::
      Parts(host, tail, path) && input == Assemble(host, [COLON] + tail, path) && ParseU16(tail).None?
  }

  lemma FaultySplits(host: Bytes, tail: Bytes, path: Bytes)
    requires Parts(host, tail, path)
    ensures var input := Assemble(host, [COLON] + tail, path);
            && StartsWith(input, Scheme())
            && SplitPath(input[|Scheme()|..]).0 == host + ([COLON] + tail)
            && SplitPort(host + ([COLON] + tail)) ==
               if ParseU16(tail).None? then None else Some((host, ParseU16(tail).value))
  {
    var port := [COLON] + tail;
    var input, authority := Assemble(host, port, path), host + port;
    assert input[..|Scheme()|] == Scheme() && input[|Scheme()|..] == authority + path;
    assert !Has(authority, SLASH);
    if path == [] {
      assert authority + path == authority;
    } else {
      assert (authority + path)[..|authority|] == authority;
      FindIs(authority + path, SLASH, |authority|);
    }
    assert authority[|host| + 1..] == tail && authority[..|host|] == host;
    FindLastIs(authority, COLON, |host|);
  }

  lemma PortErrorIsFault(input: Bytes)
    requires Parse(input) == Err(BadPort)
    ensures PortFault(input)
  {
    var rest := input[|Scheme()|..];
    assert input == Scheme() + rest;
    var authority := SplitPath(rest).0;
    var path := SplitPathJoins(rest);
    var colon := FindLast(authority, COLON).value;
    var host, tail := authority[..colon], authority[colon + 1..];
    AuthorityParts(rest, colon);
    assert Parts(host, tail, path);
    assert ParseU16(tail).None?;
    assert input == Assemble(host, [COLON] + tail, path);
  }

  lemma AuthorityParts(rest: Bytes, colon: nat)
    requires FindLast(SplitPath(rest).0, COLON) == Some(colon)
    ensures var authority := SplitPath(rest).0;
            && authority == authority[..colon] + ([COLON] + authority[colon + 1..])
            && Parts(authority[..colon], authority[colon + 1..], [])
  {
    var authority := SplitPath(rest).0;
    var tail := authority[colon + 1..];
    assert !Has(authority, SLASH);
    assert forall i :: 0 <= i < |tail| ==> tail[i] == authority[i + (colon + 1)];
  }

  /** The error tells which part is at fault: the scheme, the port's number, or
      else the host, a zero port or the path. */
  lemma ErrorsNameTheFault(input: Bytes)
    ensures Parse(input) == Err(NotHttp) <==> !StartsWith(input, Scheme())
    ensures Parse(input) == Err(BadPort) <==> PortFault(input)
    ensures Parse(input) == Err(BadUrl) <==>
            StartsWith(input, Scheme()) && !PortFault(input) && forall u :: !(Valid(u) && Denotes(input, u))
  {
    if PortFault(input) {
      var host, tail, path :|
        Parts(host, tail, path) && input == Assemble(host, [COLON] + tail, path) && ParseU16(tail).None?;
      FaultySplits(host, tail, path);
    }
    if Parse(input) == Err(BadPort) {
      PortErrorIsFault(input);
    }
    forall u
      ensures Parse(input) == Ok(u) <==> Valid(u) && Denotes(input, u)
    {
      ParsesExactlyTheGrammar(input, u);
    }
  }

  // ---------------------------------------------------------------------
  // Where the parser and section 3.2.2 of RFC 1945 part

  predicate PlusPort(port: Bytes) {
    && |port| > 2 && port[0] == COLON && port[1] == PLUS && AllDigits(port[2..])
    && 1 <= Value(port[2..]) <= 0xffff
  }

  /** A colon without a port, or a port with a plus sign, between valid parts. */
  ghost predicate Disputed(input: Bytes) {
    exists host, port, path ::
      HostOk(host) && PathOk(path) && (port == [COLON] || PlusPort(port)) && input == Assemble(host, port, path)
  }

  lemma BareColonIsRefused(host: Bytes, path: Bytes)
    requires HostOk(host) && PathOk(path)
    ensures Parse(Assemble(host, [COLON], path)) == Err(BadPort)
    ensures var u := Address(host, DEFAULT_PORT, PathOf(path)); Valid(u) && RfcDenotes(Assemble(host, [COLON], path), u)
  {
    AssembledSplits(host, [COLON], path);
    var authority := host + [COLON];
    assert authority[|host| + 1..] == [];
    FindLastIs(authority, COLON, |host|);
    assert RfcPort([COLON], DEFAULT_PORT) && PathText(path, PathOf(path));
  }

  lemma SlashComesNoEarlier(a: Bytes, b: Bytes, c: Bytes, d: Bytes)
    requires a + b == c + d && !Has(c, SLASH) && (b == [] || b[0] == SLASH)
    ensures |c| <= |a|
  {
    assert forall i :: 0 <= i < |c| ==> (c + d)[i] == c[i] && c[i] != SLASH;
    assert b != [] ==> (a + b)[|a|] == SLASH;
  }

  /** Text up to the first slash is determined. */
  lemma SlashSplitsOnce(a: Bytes, b: Bytes, c: Bytes, d: Bytes)
    requires a + b == c + d && !Has(a, SLASH) && !Has(c, SLASH)
    requires (b == [] || b[0] == SLASH) && (d == [] || d[0] == SLASH)
    ensures a == c
  {
    SlashComesNoEarlier(a, b, c, d);
    SlashComesNoEarlier(c, d, a, b);
    assert a == (a + b)[..|a|] && c == (c + d)[..|c|];
  }

  /** The port text of a URL is determined by its host. */
  lemma AssembleDeterminesPort(host: Bytes, p: Bytes, path: Bytes, q: Bytes, tail: Bytes)
    requires Assemble(host, p, path) == Assemble(host, q, tail) && !Has(p, SLASH) && !Has(q, SLASH)
    requires (path == [] || path[0] == SLASH) && (tail == [] || tail[0] == SLASH)
    ensures p == q
  {
    var n := |Scheme()| + |host|;
    assert Assemble(host, p, path)[n..] == p + path;
    assert Assemble(host, q, tail)[n..] == q + tail;
    SlashSplitsOnce(p, path, q, tail);
  }

  lemma PlusPortHasNoSlash(port: Bytes)
    requires PlusPort(port)
    ensures !Has(port, SLASH)
  {
    PortTextBytes(port, Value(port[2..]));
  }

  lemma PlusIsNoRfcPort(port: Bytes, n: nat)
    requires PlusPort(port)
    ensures !RfcPort(port, n)
  {
    assert port[1..][0] == PLUS;
  }

  lemma PlusIsAccepted(host: Bytes, port: Bytes, path: Bytes)
    requires HostOk(host) && PathOk(path) && PlusPort(port)
    ensures var u := Address(host, Value(port[2..]), PathOf(path));
            Parse(Assemble(host, port, path)) == Ok(u) && !RfcDenotes(Assemble(host, port, path), u)
  {
    var u := Address(host, Value(port[2..]), PathOf(path));
    GrammarParses(u, port, path);
    PlusIsNotDenoted(u, port, path);
  }

  lemma PlusIsNotDenoted(u: Address, port: Bytes, path: Bytes)
    requires PathOk(path) && u.path == PathOf(path) && PlusPort(port)
    ensures !RfcDenotes(Assemble(u.host, port, path), u)
  {
    PlusPortHasNoSlash(port);
    PlusIsNoRfcPort(port, u.port);
    forall q, tail | PathText(tail, u.path) && Assemble(u.host, port, path) == Assemble(u.host, q, tail)
      ensures !RfcPort(q, u.port)
    {
      if RfcPort(q, u.port) {
        PortTextBytes(q, u.port);
        AssembleDeterminesPort(u.host, port, path, q, tail);
      }
    }
  }

  /** The parser agrees with the RFC about an input, whatever it denotes, if
      and only if the input is not a URL with a bare colon or a plus sign. */
  lemma AgreesWithRfcExactly(input: Bytes)
    ensures (forall u :: Parse(input) == Ok(u) <==> Valid(u) && RfcDenotes(input, u)) <==> !Disputed(input)
  {
    if Disputed(input) {
      var host, port, path :|
        HostOk(host) && PathOk(path) && (port == [COLON] || PlusPort(port)) && input == Assemble(host, port, path);
      if port == [COLON] {
        BareColonIsRefused(host, path);
      } else {
        PlusIsAccepted(host, port, path);
      }
    } else {
      forall u
        ensures Parse(input) == Ok(u) <==> Valid(u) && RfcDenotes(input, u)
      {
        UndisputedAgrees(input, u);
      }
    }
  }

  lemma UndisputedAgrees(input: Bytes, u: Address)
    requires !Disputed(input)
    ensures Parse(input) == Ok(u) <==> Valid(u) && RfcDenotes(input, u)
  {
    if Parse(input) == Ok(u) {
      ParsedFitsGrammar(input);
      var port, path :| PortText(port, u.port) && PathText(path, u.path) && input == Assemble(u.host, port, path);
      assert PathOk(path) && !PlusPort(port);
      assert RfcPort(port, u.port);
    }
    if Valid(u) && RfcDenotes(input, u) {
      var port, path :| RfcPort(port, u.port) && PathText(path, u.path) && input == Assemble(u.host, port, path);
      assert PathOk(path) && port != [COLON];
      GrammarParses(u, port, path);
    }
  }

  /** "http://a:/" is refused although the RFC gives it port 80. */
  lemma BareColonExample()
    ensures Parse(Assemble([97], [COLON], [SLASH])) == Err(BadPort)
    ensures RfcDenotes(Assemble([97], [COLON], [SLASH]), Address([97], DEFAULT_PORT, [SLASH]))
  {
    BareColonIsRefused([97], [SLASH]);
  }

  /** "http://a:+80/" is accepted although no port of the RFC has a sign. */
  lemma PlusExample()
    ensures Parse(Assemble([97], [COLON, PLUS, 56, 48], [SLASH])) == Ok(Address([97], 80, [SLASH]))
    ensures !RfcDenotes(Assemble([97], [COLON, PLUS, 56, 48], [SLASH]), Address([97], 80, [SLASH]))
  {
    var port: Bytes := [COLON, PLUS, 56, 48];
    assert port[2..] == [56, 48] && [56, 48][..1] == [56] && [56][..0] == [];
    assert Value([56]) == 8 && Value([56, 48]) == 80;
    PlusIsAccepted([97], port, [SLASH]);
  }

  function Print(u: Address): Bytes {
    Assemble(u.host, [COLON] + Decimal(u.port), u.path)
  }

  /** Printing a valid host, port and path gives a URL that parses back. */
  lemma PrintedParsesBack(u: Address)
    requires Valid(u)
    ensures Parse(Print(u)) == Ok(u)
    ensures u.port == DEFAULT_PORT ==> Parse(Assemble(u.host, [], u.path)) == Ok(u)
    ensures u.port == DEFAULT_PORT && u.path == [SLASH] ==> Parse(Assemble(u.host, [], [])) == Ok(u)
  {
    assert ([COLON] + Decimal(u.port))[1..] == Decimal(u.port);
    GrammarParses(u, [COLON] + Decimal(u.port), u.path);
    if u.port == DEFAULT_PORT {
      GrammarParses(u, [], u.path);
      if u.path == [SLASH] {
        GrammarParses(u, [], []);
      }
    }
  }
}
