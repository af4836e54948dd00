// Request lines, header fields and body framing of HTTP/1.x, as the capture reads them.
module HttpRequests {
  import opened Options
  import opened Bytes

  const CAPTURE_LIMIT: nat := 262144
  const HEADER_LIMIT: nat := 65536
  const CRLF := "\r\n"
  const BLANK_LINE := "\r\n\r\n"

  // The socket or TLS identity a byte stream belongs to.
  type Key = nat

  // Every reason for which the program raises ValueError while parsing.
  datatype Fault =
    | HeaderLimit | ChunkLineLimit | TrailerLimit
    | MalformedHeaderLine | MalformedHeader
    | ConflictingFraming | UnsupportedCoding | InvalidLength
    | MalformedChunkSize | MissingChunkTerminator | FramingInTrailers
  {
    // The message contains "capture limit exceeded".
    predicate IsLimit() {
      HeaderLimit? || ChunkLineLimit? || TrailerLimit?
    }
  }

  datatype Warning =
    | HeadersIncomplete | MultipleContentTypes | EncodedBody | BodyLimit
    | Failed(fault: Fault) | StreamEnded | StreamEvicted | ShortRead

  datatype Result<+T> = Ok(value: T) | Raised(fault: Fault)

  datatype Header = Header(name: string, value: string)

  datatype RequestLine = RequestLine(verb: string, url: string, version: string)

  datatype Request = Request(line: RequestLine, headers: seq<Header>, trailers: Option<seq<Header>>,
                             warnings: seq<Warning>, stream: Key)

  datatype Framing = FixedLength(length: nat) | ChunkedCoding

  // ----- characters and small parsers

  predicate TokenChar(c: char) {
    c in "!#$%&'*+.^_`|~-" || '0' <= c <= '9' || 'A' <= c <= 'Z' || 'a' <= c <= 'z'
  }

  predicate IsToken(s: string) {
    s != "" && forall i | 0 <= i < |s| :: TokenChar(s[i])
  }

  predicate UrlChar(c: char) {
    c > ' ' && c != 127 as char
  }

  predicate IsUrl(s: string) {
    s != "" && forall i | 0 <= i < |s| :: UrlChar(s[i])
  }

  predicate ValueChar(c: char) {
    c == '\t' || (c >= ' ' && c != 127 as char)
  }

  predicate IsValue(s: string) {
    forall i | 0 <= i < |s| :: ValueChar(s[i])
  }

  function LowerChar(c: char): char {
    if 'A' <= c <= 'Z' then (c as int + 32) as char else c
  }

  function Lower(s: string): (r: string)
    ensures |r| == |s| && forall i | 0 <= i < |s| :: r[i] == LowerChar(s[i])
  {
    if s == "" then "" else [LowerChar(s[0])] + Lower(s[1..])
  }

  const BLANKS: set<char> := {' ', '\t'}

  // The Latin-1 characters Python's str.strip() removes.
  const WHITESPACE: set<char> :=
    {' ', 9 as char, 10 as char, 11 as char, 12 as char, 13 as char, 28 as char, 29 as char, 30 as char,
     31 as char, 133 as char, 160 as char}

  function Strip(s: string, blanks: set<char>): string {
    if s != "" && s[0] in blanks then Strip(s[1..], blanks)
    else if s != "" && s[|s| - 1] in blanks then Strip(s[..|s| - 1], blanks)
    else s
  }

  function DigitValue(c: char): nat {
    if '0' <= c <= '9' then (c as int - 48) as nat
    else if 'a' <= c <= 'f' then (c as int - 87) as nat
    else if 'A' <= c <= 'F' then (c as int - 55) as nat
    else 0
  }

  predicate IsDecimal(s: string) {
    1 <= |s| <= 19 && forall i | 0 <= i < |s| :: '0' <= s[i] <= '9'
  }

  predicate HexDigit(c: char) {
    '0' <= c <= '9' || 'a' <= c <= 'f' || 'A' <= c <= 'F'
  }

  predicate IsHex(s: string) {
    1 <= |s| <= 16 && forall i | 0 <= i < |s| :: HexDigit(s[i])
  }

  function Number(s: string, radix: nat): nat {
    if s == "" then 0 else Number(s[..|s| - 1], radix) * radix + DigitValue(s[|s| - 1])
  }

  // The request-line pattern: method, one space, target, one space, version.
  function ParseRequestLine(line: string): Option<RequestLine> {
    var verb := Partition(line, " ");
    var url := Partition(verb.tail, " ");
    if verb.found && url.found && 1 <= |verb.head| <= 32 && IsUrl(url.head)
       && (url.tail == "HTTP/1.0" || url.tail == "HTTP/1.1") && IsToken(verb.head)
    then Some(RequestLine(verb.head, url.head, url.tail)) else None
  }

  function ParseHeaderLine(line: string): Result<Header> {
    var p := Partition(line, ":");
    if !p.found then Raised(MalformedHeaderLine)
    else if !IsToken(p.head) || !IsValue(p.tail) then Raised(MalformedHeader)
    else Ok(Header(p.head, Strip(p.tail, BLANKS)))
  }

  function ParseHeaderLines(lines: seq<string>): Result<seq<Header>> {
    if lines == [] then Ok([])
    else
      match ParseHeaderLine(lines[0])
      case Raised(f) => Raised(f)
      case Ok(h) =>
        match ParseHeaderLines(lines[1..])
        case Raised(f) => Raised(f)
        case Ok(hs) => Ok([h] + hs)
  }

  function ParseHeaders(block: string): Result<seq<Header>> {
    if block == "" then Ok([]) else ParseHeaderLines(Split(block, CRLF))
  }

  // The headers before the first malformed line, each line read on its own.
  function ReadableHeaders(lines: seq<string>): seq<Header> {
    if lines == [] then []
    else
      match ParseHeaders(lines[0])
      case Raised(_) => []
      case Ok(hs) => hs + ReadableHeaders(lines[1..])
  }

  function Values(headers: seq<Header>, name: string): seq<string> {
    if headers == [] then []
    else (if Lower(headers[0].name) == name then [headers[0].value] else []) + Values(headers[1..], name)
  }

  function StripAll(items: seq<string>): seq<string> {
    if items == [] then [] else [Strip(items[0], WHITESPACE)] + StripAll(items[1..])
  }

  // The comma-separated members of several field values.
  function Members(values: seq<string>): seq<string> {
    if values == [] then [] else StripAll(Split(values[0], ",")) + Members(values[1..])
  }

  function LowerAll(items: seq<string>): seq<string> {
    if items == [] then [] else [Lower(items[0])] + LowerAll(items[1..])
  }

  predicate IsEncoded(headers: seq<Header>) {
    exists i | 0 <= i < |LowerAll(Members(Values(headers, "content-encoding")))| ::
      LowerAll(Members(Values(headers, "content-encoding")))[i] != "identity"
  }

  function ContentType(headers: seq<Header>): string {
    var types := Values(headers, "content-type");
    if |types| == 1 && !IsEncoded(headers) then types[0] else ""
  }

  function HeaderWarnings(headers: seq<Header>): seq<Warning> {
    (if |Values(headers, "content-type")| > 1 then [MultipleContentTypes] else [])
    + (if IsEncoded(headers) then [EncodedBody] else [])
  }

  function FramingOf(headers: seq<Header>): Result<Framing> {
    var lengths := Values(headers, "content-length");
    var transfer := Values(headers, "transfer-encoding");
    if lengths != [] && transfer != [] then Raised(ConflictingFraming)
    else if transfer != [] then
      if LowerAll(Members(transfer)) != ["chunked"] then Raised(UnsupportedCoding) else Ok(ChunkedCoding)
    else
      var numbers := Members(lengths);
      if numbers == [] then Ok(FixedLength(0))
      else if (exists i | 0 <= i < |numbers| :: !IsDecimal(numbers[i]))
           || (exists i | 0 <= i < |numbers| :: Number(numbers[i], 10) != Number(numbers[0], 10))
      then Raised(InvalidLength)
      else Ok(FixedLength(Number(numbers[0], 10)))
  }

  // What reading a complete header block leads to: the request line is not one, the request is known
  // but a ValueError is raised, or the body follows.
  datatype Opening =
    | NotHttp
    | Broken(request: Request, contentType: string, fault: Fault)
    | Opened(request: Request, contentType: string, framing: Framing)

  function Open(block: string, key: Key): Opening {
    var p := Partition(block, CRLF);
    match ParseRequestLine(p.head)
    case None => NotHttp
    case Some(line) =>
      match ParseHeaders(p.tail)
      case Raised(fault) => Broken(Request(line, [], None, [], key), "", fault)
      case Ok(headers) =>
        var request := Request(line, headers, None, HeaderWarnings(headers), key);
        match FramingOf(headers)
        case Raised(fault) => Broken(request, ContentType(headers), fault)
        case Ok(framing) => Opened(request, ContentType(headers), framing)
  }
}
