// Requests printed as RFC 9112 defines them (section 3 for the request line, 5 for fields, 6.3 for
// sized bodies, 7.1 for the chunked coding), and the proof that the header reader gets them back.
module HttpPrint {
  import opened Options
  import opened Bytes
  import opened HttpRequests

  datatype Chunk = Chunk(data: string, extension: string)

  datatype Payload =
    | NoBody
    | Sized(body: string)
    | Chunked(chunks: seq<Chunk>, lastExtension: string, trailers: seq<Header>)

  datatype Message = Message(line: RequestLine, headers: seq<Header>, payload: Payload)

  // ----- printing

  function DigitChar(n: nat): char
    requires n < 16
  {
    if n < 10 then (48 + n) as char else (87 + n) as char
  }

  function Digits(n: nat, radix: nat): (s: string)
    requires radix == 10 || radix == 16
    ensures |s| >= 1
  {
    if n < radix then [DigitChar(n)] else Digits(n / radix, radix) + [DigitChar(n % radix)]
  }

  function PrintLine(line: RequestLine): string {
    line.verb + " " + line.url + " " + line.version
  }

  function PrintHeader(h: Header): string {
    h.name + ":" + (" " + h.value)
  }

  function PrintHeaders(headers: seq<Header>): (r: seq<string>)
    ensures |r| == |headers|
  {
    if headers == [] then [] else [PrintHeader(headers[0])] + PrintHeaders(headers[1..])
  }

  function FramingHeaders(payload: Payload): seq<Header> {
    match payload
    case NoBody => []
    case Sized(body) => [Header("Content-Length", Digits(|body|, 10))]
    case Chunked(_, _, _) => [Header("Transfer-Encoding", "chunked")]
  }

  function AllHeaders(m: Message): seq<Header> {
    m.headers + FramingHeaders(m.payload)
  }

  function PrintBlock(m: Message): string {
    Join([PrintLine(m.line)] + PrintHeaders(AllHeaders(m)), CRLF)
  }

  function SizeLine(size: nat, extension: string): string {
    Digits(size, 16) + extension
  }

  function PrintChunks(chunks: seq<Chunk>): string {
    if chunks == [] then ""
    else SizeLine(|chunks[0].data|, chunks[0].extension) + CRLF + (chunks[0].data + (CRLF + PrintChunks(chunks[1..])))
  }

  function PrintTrailers(trailers: seq<Header>): string {
    if trailers == [] then CRLF else Join(PrintHeaders(trailers), CRLF) + BLANK_LINE
  }

  function PrintPayload(payload: Payload): string {
    match payload
    case NoBody => ""
    case Sized(body) => body
    case Chunked(chunks, extension, trailers) =>
      PrintChunks(chunks) + (SizeLine(0, extension) + CRLF + PrintTrailers(trailers))
  }

  function Print(m: Message): string {
    PrintBlock(m) + BLANK_LINE + PrintPayload(m.payload)
  }

  // ----- the requests that can be printed

  predicate WellFormedLine(line: RequestLine) {
    IsToken(line.verb) && |line.verb| <= 32 && IsUrl(line.url)
    && (line.version == "HTTP/1.0" || line.version == "HTTP/1.1")
  }

  predicate WellFormedHeader(h: Header) {
    IsToken(h.name) && IsValue(h.value) && Strip(h.value, BLANKS) == h.value
    && Lower(h.name) != "content-length" && Lower(h.name) != "transfer-encoding"
  }

  predicate WellFormedHeaders(headers: seq<Header>) {
    forall i | 0 <= i < |headers| :: WellFormedHeader(headers[i])
  }

  predicate WellFormedExtension(e: string) {
    e == "" || (e[0] == ';' && '\r' !in e)
  }

  // `bound` is the longest size line.
  predicate WellFormedChunk(c: Chunk, bound: nat) {
    c.data != "" && |Digits(|c.data|, 16)| <= 16 && WellFormedExtension(c.extension)
    && |SizeLine(|c.data|, c.extension)| <= bound
  }

  predicate WellFormedPayload(p: Payload, bound: nat) {
    match p
    case NoBody => true
    case Sized(body) => |Digits(|body|, 10)| <= 19
    case Chunked(chunks, extension, trailers) =>
      (forall i | 0 <= i < |chunks| :: WellFormedChunk(chunks[i], bound))
      && WellFormedExtension(extension) && |SizeLine(0, extension)| <= bound
      && WellFormedHeaders(trailers) && |PrintTrailers(trailers)| <= HEADER_LIMIT
  }

  predicate WellFormed(m: Message, bound: nat) {
    WellFormedLine(m.line) && WellFormedHeaders(m.headers) && WellFormedPayload(m.payload, bound)
    && |PrintBlock(m)| + 4 <= HEADER_LIMIT
  }

  // ----- numbers

  lemma DigitCharValue(n: nat)
    requires n < 16
    ensures DigitValue(DigitChar(n)) == n
  {
  }

  lemma DivMod(n: nat, radix: nat)
    requires radix == 10 || radix == 16
    ensures (n / radix) * radix + n % radix == n && n % radix < radix && (radix <= n ==> n / radix < n)
  {
    if radix == 10 {
      assert (n / 10) * 10 + n % 10 == n;
    } else {
      assert (n / 16) * 16 + n % 16 == n;
    }
  }

  lemma NumberSnoc(s: string, c: char, radix: nat)
    ensures Number(s + [c], radix) == Number(s, radix) * radix + DigitValue(c)
  {
    assert (s + [c])[..|s|] == s;
  }

  lemma DigitsSnoc(n: nat, radix: nat)
    requires (radix == 10 || radix == 16) && radix <= n
    requires Number(Digits(n / radix, radix), radix) == n / radix
    ensures Number(Digits(n, radix), radix) == n
  {
    DivMod(n, radix);
    NumberSnoc(Digits(n / radix, radix), DigitChar(n % radix), radix);
    DigitCharValue(n % radix);
  }

  lemma OneDigit(n: nat, radix: nat)
    requires n < radix <= 16
    ensures Number([DigitChar(n)], radix) == n
  {
    assert "" + [DigitChar(n)] == [DigitChar(n)];
    NumberSnoc("", DigitChar(n), radix);
    DigitCharValue(n);
  }

  lemma {:induction false} DigitsNumber(n: nat, radix: nat)
    requires radix == 10 || radix == 16
    ensures Number(Digits(n, radix), radix) == n
  {
    if n < radix {
      OneDigit(n, radix);
    } else {
      DivMod(n, radix);
      DigitsNumber(n / radix, radix);
      DigitsSnoc(n, radix);
    }
  }

  predicate PlainDigit(c: char, radix: nat) {
    '0' <= c <= '9' || (radix > 10 && 'a' <= c <= 'f')
  }

  lemma {:induction false} DigitsPlain(n: nat, radix: nat)
    requires radix == 10 || radix == 16
    ensures forall i | 0 <= i < |Digits(n, radix)| :: PlainDigit(Digits(n, radix)[i], radix)
  {
    if n >= radix {
      DigitsPlain(n / radix, radix);
    }
  }

  // ----- one line at a time

  lemma TokenBytes(s: string)
    requires IsToken(s)
    ensures ' ' !in s && ':' !in s && '\r' !in s
  {
    forall i | 0 <= i < |s| ensures s[i] != ' ' && s[i] != ':' && s[i] != '\r' {
      assert TokenChar(s[i]);
    }
  }

  lemma UrlBytes(s: string)
    requires IsUrl(s)
    ensures ' ' !in s && '\r' !in s
  {
    forall i | 0 <= i < |s| ensures s[i] != ' ' && s[i] != '\r' {
      assert UrlChar(s[i]);
    }
  }

  lemma LineParts(line: RequestLine)
    requires WellFormedLine(line)
    ensures Partition(PrintLine(line), " ") == Parts(line.verb, true, line.url + " " + line.version)
    ensures Partition(line.url + " " + line.version, " ") == Parts(line.url, true, line.version)
  {
    TokenBytes(line.verb);
    UrlBytes(line.url);
    assert PrintLine(line) == line.verb + " " + (line.url + " " + line.version);
    PartitionFirst(line.verb, " ", line.url + " " + line.version);
    PartitionFirst(line.url, " ", line.version);
  }

  lemma LineBytes(line: RequestLine)
    requires WellFormedLine(line)
    ensures '\r' !in PrintLine(line) && PrintLine(line) != ""
  {
    TokenBytes(line.verb);
    UrlBytes(line.url);
  }

  lemma LineRoundTrip(line: RequestLine)
    requires WellFormedLine(line)
    ensures ParseRequestLine(PrintLine(line)) == Some(line)
  {
    LineParts(line);
  }

  lemma HeaderRoundTrip(h: Header)
    requires IsToken(h.name) && IsValue(h.value) && Strip(h.value, BLANKS) == h.value
    ensures ParseHeaderLine(PrintHeader(h)) == Ok(h)
    ensures '\r' !in PrintHeader(h) && PrintHeader(h) != "" && PrintHeader(h)[0] != '\r'
  {
    TokenBytes(h.name);
    PartitionFirst(h.name, ":", " " + h.value);
    var v := " " + h.value;
    forall i | 0 <= i < |v| ensures ValueChar(v[i]) {
      assert i > 0 ==> v[i] == h.value[i - 1];
    }
    assert v[1..] == h.value;
    assert forall i | 0 <= i < |h.value| :: ValueChar(h.value[i]) && h.value[i] != '\r';
  }

  // ----- whole header blocks

  ghost predicate CleanLines(lines: seq<string>) {
    forall i | 0 <= i < |lines| :: lines[i] != "" && '\r' !in lines[i]
  }

  ghost predicate Readable(headers: seq<Header>) {
    forall i | 0 <= i < |headers| ::
      IsToken(headers[i].name) && IsValue(headers[i].value) && Strip(headers[i].value, BLANKS) == headers[i].value
  }

  lemma {:induction false} HeaderLinesRoundTrip(headers: seq<Header>)
    requires Readable(headers)
    ensures ParseHeaderLines(PrintHeaders(headers)) == Ok(headers)
    ensures CleanLines(PrintHeaders(headers))
  {
    if headers != [] {
      assert headers == [headers[0]] + headers[1..];
      HeaderRoundTrip(headers[0]);
      HeaderLinesRoundTrip(headers[1..]);
      assert PrintHeaders(headers)[1..] == PrintHeaders(headers[1..]);
    }
  }

  lemma HeadersRoundTrip(headers: seq<Header>)
    requires Readable(headers) && headers != []
    ensures ParseHeaders(Join(PrintHeaders(headers), CRLF)) == Ok(headers)
  {
    HeaderLinesRoundTrip(headers);
    var lines := PrintHeaders(headers);
    SplitJoin(lines, CRLF);
    assert lines[0] != "";
  }

  // The blank line is found behind the last line, not earlier.
  lemma {:induction false} BlockEnd(lines: seq<string>, rest: string)
    requires |lines| >= 1 && CleanLines(lines)
    ensures Find(Join(lines, CRLF) + BLANK_LINE + rest, BLANK_LINE) == |Join(lines, CRLF)|
  {
    var l := lines[0];
    if |lines| == 1 {
      var w := l + BLANK_LINE + rest;
      forall k: nat | k < |l| ensures !At(w, k, BLANK_LINE) {
        assert w[k] == l[k] && l[k] in l;
      }
      FindAtFront(l, BLANK_LINE, rest);
    } else {
      var tail := Join(lines[1..], CRLF) + BLANK_LINE + rest;
      var p := l + CRLF;
      assert Join(lines, CRLF) + BLANK_LINE + rest == p + tail;
      BlockEnd(lines[1..], rest);
      LineSkip(l, tail);
      FindSkip(p, tail, BLANK_LINE);
    }
  }

  lemma LineSkip(l: string, tail: string)
    requires '\r' !in l && tail != "" && tail[0] != '\r'
    ensures forall k: nat :: k < |l + CRLF| ==> !At(l + CRLF + tail, k, BLANK_LINE)
  {
    var w := l + CRLF + tail;
    forall k: nat | k < |l + CRLF| ensures !At(w, k, BLANK_LINE) {
      if k < |l| {
        assert w[k] == l[k] && l[k] in l;
      } else if k == |l| {
        assert w[k + 2] == tail[0];
      } else {
        assert w[k] == '\n';
      }
    }
  }

  // ----- the framing the printed headers declare

  lemma {:induction false} ValuesSkip(a: seq<Header>, b: seq<Header>, name: string)
    requires forall i | 0 <= i < |a| :: Lower(a[i].name) != name
    ensures Values(a + b, name) == Values(b, name)
  {
    hide Lower;
    if a == [] {
      assert a + b == b;
    } else {
      ValuesSkip(a[1..], b, name);
      assert (a + b)[1..] == a[1..] + b && (a + b)[0] == a[0];
    }
  }

  lemma LowerIs(s: string, r: string)
    requires |r| == |s| && forall i | 0 <= i < |s| :: r[i] == LowerChar(s[i])
    ensures Lower(s) == r
  {
  }

  lemma LowerNames()
    ensures Lower("Content-Length") == "content-length"
    ensures Lower("Transfer-Encoding") == "transfer-encoding"
    ensures Lower("chunked") == "chunked"
  {
    hide Lower;
    LowerIs("Content-Length", "content-length");
    LowerIs("Transfer-Encoding", "transfer-encoding");
    LowerIs("chunked", "chunked");
  }

  lemma OneMember(v: string)
    requires v != "" && ',' !in v && v[0] !in WHITESPACE && v[|v| - 1] !in WHITESPACE
    ensures Members([v]) == [v]
  {
    PartitionNone(v, ",");
    assert Split(v, ",") == [v];
    assert StripAll([v]) == [Strip(v, WHITESPACE)];
    assert [v][1..] == [];
  }

  lemma DigitsMember(n: nat)
    ensures Members([Digits(n, 10)]) == [Digits(n, 10)]
    ensures |Digits(n, 10)| <= 19 ==> IsDecimal(Digits(n, 10))
  {
    DigitsPlain(n, 10);
    var d := Digits(n, 10);
    assert forall i | 0 <= i < |d| :: PlainDigit(d[i], 10) && d[i] != ',' && d[i] !in WHITESPACE;
    OneMember(d);
  }

  lemma NoFraming(headers: seq<Header>)
    requires Values(headers, "content-length") == [] && Values(headers, "transfer-encoding") == []
    ensures FramingOf(headers) == Ok(FixedLength(0))
  {
    assert Members([]) == [];
  }

  lemma ChunkedFraming(headers: seq<Header>)
    requires Values(headers, "content-length") == [] && Values(headers, "transfer-encoding") == ["chunked"]
    ensures FramingOf(headers) == Ok(ChunkedCoding)
  {
    hide Lower, Members;
    OneMember("chunked");
    LowerNames();
    LowerOne("chunked");
  }

  lemma LowerOne(v: string)
    ensures LowerAll([v]) == [Lower(v)]
  {
    assert [v][1..] == [];
  }

  lemma SizedFraming(headers: seq<Header>, n: nat)
    requires Values(headers, "content-length") == [Digits(n, 10)] && Values(headers, "transfer-encoding") == []
    requires |Digits(n, 10)| <= 19
    ensures FramingOf(headers) == Ok(FixedLength(n))
  {
    DigitsMember(n);
    DigitsNumber(n, 10);
  }

  lemma ValuesOne(h: Header, name: string)
    ensures Values([h], name) == if Lower(h.name) == name then [h.value] else []
  {
    assert [h][1..] == [];
  }

  function DeclaredFraming(p: Payload): Framing {
    match p
    case NoBody => FixedLength(0)
    case Sized(body) => FixedLength(|body|)
    case Chunked(_, _, _) => ChunkedCoding
  }

  lemma PrintedFraming(m: Message, bound: nat)
    requires WellFormed(m, bound)
    ensures FramingOf(AllHeaders(m)) == Ok(DeclaredFraming(m.payload))
  {
    hide Lower, FramingOf, IsToken, IsValue, Strip, Digits, Join;
    var f := FramingHeaders(m.payload);
    assert forall i | 0 <= i < |m.headers| :: WellFormedHeader(m.headers[i]);
    ValuesSkip(m.headers, f, "content-length");
    ValuesSkip(m.headers, f, "transfer-encoding");
    LowerNames();
    match m.payload
    case NoBody => NoFraming(AllHeaders(m));
    case Sized(body) =>
      ValuesOne(f[0], "content-length");
      ValuesOne(f[0], "transfer-encoding");
      SizedFraming(AllHeaders(m), |body|);
    case Chunked(_, _, _) =>
      ValuesOne(f[0], "content-length");
      ValuesOne(f[0], "transfer-encoding");
      ChunkedFraming(AllHeaders(m));
  }

  lemma DigitsValue(n: nat)
    ensures IsValue(Digits(n, 10)) && Strip(Digits(n, 10), BLANKS) == Digits(n, 10)
  {
    DigitsPlain(n, 10);
    var d := Digits(n, 10);
    assert forall i | 0 <= i < |d| :: PlainDigit(d[i], 10) && ValueChar(d[i]) && d[i] !in BLANKS;
  }

  lemma FramingReadable(p: Payload)
    ensures Readable(FramingHeaders(p))
  {
    hide Digits, Strip, IsToken, IsValue;
    FramingNames();
    match p
    case NoBody =>
    case Sized(body) => DigitsValue(|body|);
    case Chunked(_, _, _) => StripChunked();
  }

  lemma FramingNames()
    ensures IsToken("Content-Length") && IsToken("Transfer-Encoding") && IsValue("chunked")
  {
  }

  lemma StripChunked()
    ensures Strip("chunked", BLANKS) == "chunked"
  {
  }

  lemma PrintedReadable(m: Message, bound: nat)
    requires WellFormed(m, bound)
    ensures Readable(AllHeaders(m))
  {
    hide Lower, Digits, Join, Strip, IsToken, IsValue;
    FramingReadable(m.payload);
    assert forall i | 0 <= i < |m.headers| :: WellFormedHeader(m.headers[i]);
  }

  // The request as it is stored, before its body is known.
  function OpenedRequest(m: Message, key: Key): Request {
    Request(m.line, AllHeaders(m), None, HeaderWarnings(AllHeaders(m)), key)
  }

  // Reading the printed header block gives back the request line, the fields in order and the framing.
  lemma OpenPrinted(m: Message, bound: nat, key: Key)
    requires WellFormed(m, bound)
    ensures Open(PrintBlock(m), key)
         == Opened(OpenedRequest(m, key), ContentType(AllHeaders(m)), DeclaredFraming(m.payload))
  {
    hide Lower, FramingOf, ContentType, HeaderWarnings, ParseRequestLine, ParseHeaders, IsToken, IsValue, Strip, Digits,
      Join, Split;
    PrintedReadable(m, bound);
    PrintedFraming(m, bound);
    LineRoundTrip(m.line);
    BlockParts(m, bound);
  }

  lemma BlockParts(m: Message, bound: nat)
    requires WellFormed(m, bound)
    ensures Partition(PrintBlock(m), CRLF).head == PrintLine(m.line)
    ensures ParseHeaders(Partition(PrintBlock(m), CRLF).tail) == Ok(AllHeaders(m))
  {
    hide Lower, Digits, Strip, IsToken, IsValue, PrintLine;
    var headers := AllHeaders(m);
    LineBytes(m.line);
    PrintedReadable(m, bound);
    var lines := [PrintLine(m.line)] + PrintHeaders(headers);
    if headers == [] {
      PartitionNone(PrintLine(m.line), CRLF);
    } else {
      assert lines[1..] == PrintHeaders(headers);
      PartitionFirst(PrintLine(m.line), CRLF, Join(PrintHeaders(headers), CRLF));
      HeadersRoundTrip(headers);
    }
  }

  lemma PrintedBlockEnd(m: Message, bound: nat, rest: string)
    requires WellFormed(m, bound)
    ensures Find(PrintBlock(m) + BLANK_LINE + rest, BLANK_LINE) == |PrintBlock(m)|
  {
    hide Lower, Digits, Strip, IsToken, IsValue, PrintLine, Join;
    LineBytes(m.line);
    PrintedReadable(m, bound);
    HeaderLinesRoundTrip(AllHeaders(m));
    BlockEnd([PrintLine(m.line)] + PrintHeaders(AllHeaders(m)), rest);
  }
}
