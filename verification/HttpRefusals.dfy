// Which bytes are refused, and what the record of a request says that is refused, closed, evicted or read short.
module HttpRefusals {
  import opened Options
  import opened Bytes
  import opened HttpRequests
  import opened HttpStream
  import opened HttpCuts
  import opened HttpFields
  import opened HttpPrint
  import opened HttpRoundTrip
  import opened HttpTable

  // ----- lines

  // The line spells the field: a token, a colon, and a value with spaces and tabs around it.
  ghost predicate Spells(l: string, h: Header) {
    exists c, a, b :: SpellsAt(l, h, c, a, b)
  }

  ghost predicate IsField(l: string) {
    exists h :: Spells(l, h)
  }

  predicate SpellsAt(l: string, h: Header, c: int, a: int, b: int) {
    0 <= c < |l| && l[c] == ':' && (forall k | 0 <= k < c :: l[k] != ':')
    && IsToken(l[..c]) && IsValue(l[c + 1..]) && h.name == l[..c]
    && Around(l[c + 1..], a, b, BLANKS) && h.value == l[c + 1..][a..b] && Trimmed(h.value, BLANKS)
  }

  // A token is of visible ASCII characters that delimit nothing (RFC 9110, section 5.6.2); a target is of
  // characters above the space and a value of these, spaces and tabs, without the delete character.
  lemma CharactersExact(c: char)
    ensures TokenChar(c) <==> '!' <= c <= '~' && c !in "\"(),/:;<=>?@[\\]{}"
    ensures UrlChar(c) <==> 33 <= c as int && c as int != 127
    ensures ValueChar(c) <==> c as int == 9 || (32 <= c as int && c as int != 127)
  {
  }

  lemma ColonParts(l: string, c: int)
    requires 0 <= c < |l| && l[c] == ':' && forall k | 0 <= k < c :: l[k] != ':'
    ensures Partition(l, ":") == Parts(l[..c], true, l[c + 1..])
  {
    assert l == l[..c] + ":" + l[c + 1..];
    PartitionFirst(l[..c], ":", l[c + 1..]);
  }

  lemma FirstColon(l: string)
    ensures ':' !in l ==> !Partition(l, ":").found
    ensures ':' in l ==> exists c :: 0 <= c < |l| && l[c] == ':' && forall k | 0 <= k < c :: l[k] != ':'
  {
    if ':' !in l {
      PartitionNone(l, ":");
    } else {
      var c := FirstOf(l, ':');
    }
  }

  lemma {:induction false} FirstOf(l: string, x: char) returns (c: int)
    requires x in l
    ensures 0 <= c < |l| && l[c] == x && forall k | 0 <= k < c :: l[k] != x
    decreases |l|
  {
    if l[0] == x {
      c := 0;
    } else {
      assert x in l[1..];
      c := FirstOf(l[1..], x);
      assert forall k | 0 <= k < c :: l[1..][k] != x && l[1..][k] == l[k + 1];
      c := c + 1;
    }
  }

  lemma {:induction false} StripBlank(s: string, blanks: set<char>)
    requires Blank(s, blanks)
    ensures Strip(s, blanks) == ""
    decreases |s|
  {
    if s != "" {
      StripBlank(s[1..], blanks);
    }
  }

  lemma StripAround(s: string, a: int, b: int, blanks: set<char>)
    requires Around(s, a, b, blanks) && Trimmed(s[a..b], blanks)
    ensures Strip(s, blanks) == s[a..b]
  {
    if a < b {
      StripFinds(s, a, b, blanks);
    } else {
      assert s == s[..a] + s[b..];
      StripBlank(s, blanks);
    }
  }

  // A header line is read exactly as the field it spells; one that spells none is refused.
  lemma HeaderLineExact(l: string, h: Header, fault: Fault)
    ensures ParseHeaderLine(l) == Ok(h) <==> Spells(l, h)
    ensures ParseHeaderLine(l) == Raised(fault) <==>
      fault == (if ':' in l then MalformedHeader else MalformedHeaderLine) && !IsField(l)
  {
    hide IsToken, IsValue, Strip, Partition, Around, Trimmed, Spells;
    forall g: Header ensures ParseHeaderLine(l) == Ok(g) <==> Spells(l, g) {
      HeaderLineSpells(l, g);
    }
    FirstColon(l);
    if ':' in l {
      var c :| 0 <= c < |l| && l[c] == ':' && forall k | 0 <= k < c :: l[k] != ':';
      ColonParts(l, c);
    }
    if ParseHeaderLine(l).Ok? {
      assert Spells(l, ParseHeaderLine(l).value);
    }
  }

  lemma HeaderLineSpells(l: string, h: Header)
    ensures ParseHeaderLine(l) == Ok(h) <==> Spells(l, h)
  {
    hide IsToken, IsValue, Strip, Partition, Blank;
    FirstColon(l);
    if Spells(l, h) {
      var c, a, b :| SpellsAt(l, h, c, a, b);
      ColonParts(l, c);
      StripAround(l[c + 1..], a, b, BLANKS);
    }
    if ParseHeaderLine(l) == Ok(h) {
      var c :| 0 <= c < |l| && l[c] == ':' && forall k | 0 <= k < c :: l[k] != ':';
      ColonParts(l, c);
      var a, b := StripSplits(l[c + 1..], BLANKS);
      assert SpellsAt(l, h, c, a, b);
    }
  }

  ghost predicate AllSpell(lines: seq<string>, headers: seq<Header>) {
    |lines| == |headers| && forall i :: 0 <= i < |lines| ==> Spells(lines[i], headers[i])
  }

  // The first line that spells no field decides the fault.
  ghost predicate FirstBad(lines: seq<string>, fault: Fault) {
    exists i :: 0 <= i < |lines| && Unspelled(lines[i], fault) && forall j :: 0 <= j < i ==> IsField(lines[j])
  }

  ghost predicate Unspelled(l: string, fault: Fault) {
    fault == (if ':' in l then MalformedHeader else MalformedHeaderLine) && !IsField(l)
  }

  lemma {:induction false} LinesSpelled(lines: seq<string>, headers: seq<Header>)
    requires AllSpell(lines, headers)
    ensures ParseHeaderLines(lines) == Ok(headers)
  {
    hide Spells, ParseHeaderLine;
    if lines != [] {
      HeaderLineExact(lines[0], headers[0], MalformedHeader);
      LinesSpelled(lines[1..], headers[1..]);
      assert headers == [headers[0]] + headers[1..];
    }
  }

  lemma {:induction false} LinesRefused(lines: seq<string>, i: int, fault: Fault)
    requires 0 <= i < |lines| && Unspelled(lines[i], fault) && forall j :: 0 <= j < i ==> IsField(lines[j])
    ensures ParseHeaderLines(lines) == Raised(fault)
    decreases i
  {
    hide Spells, ParseHeaderLine;
    if i == 0 {
      HeaderLineExact(lines[0], Header("", ""), fault);
    } else {
      assert IsField(lines[0]);
      var h :| Spells(lines[0], h);
      HeaderLineExact(lines[0], h, fault);
      assert forall j :: 0 <= j < i - 1 ==> lines[1..][j] == lines[j + 1];
      LinesRefused(lines[1..], i - 1, fault);
    }
  }

  // A line is read as a request line exactly when it is one printed.
  lemma RequestLineExact(l: string, line: RequestLine)
    ensures ParseRequestLine(l) == Some(line) <==> WellFormedLine(line) && l == PrintLine(line)
  {
    hide IsToken, IsUrl, Partition;
    if WellFormedLine(line) && l == PrintLine(line) {
      LineRoundTrip(line);
    }
    if ParseRequestLine(l) == Some(line) {
      var verb := Partition(l, " ");
      var url := Partition(verb.tail, " ");
      assert l == verb.head + " " + (url.head + " " + url.tail);
      assert PrintLine(line) == verb.head + " " + (url.head + " " + url.tail);
    }
  }

  // ----- header blocks

  function LinesOf(block: string): seq<string> {
    if block == "" then [] else Split(block, CRLF)
  }

  lemma BlockLines(block: string)
    ensures ParseHeaders(block) == ParseHeaderLines(LinesOf(block))
  {
    hide Split;
  }

  // No request line, no request.
  lemma NotHttpRefused(block: string, key: Key)
    requires forall line :: WellFormedLine(line) ==> Partition(block, CRLF).head != PrintLine(line)
    ensures Open(block, key) == NotHttp
  {
    hide ParseRequestLine, WellFormedLine, PrintLine, Partition;
    var l := Partition(block, CRLF).head;
    if ParseRequestLine(l).Some? {
      RequestLineExact(l, ParseRequestLine(l).value);
    }
  }

  // A block whose first line is a request line and whose other lines spell fields opens with the framing they
  // declare, or is refused for the reason they give.
  lemma BlockExact(block: string, line: RequestLine, headers: seq<Header>, key: Key, framing: Framing, fault: Fault)
    requires WellFormedLine(line) && Partition(block, CRLF).head == PrintLine(line)
    requires AllSpell(LinesOf(Partition(block, CRLF).tail), headers)
    ensures var request := Request(line, headers, None, HeaderWarnings(headers), key);
      && (Open(block, key) == Opened(request, ContentType(headers), framing) <==> Declares(headers, framing))
      && (Open(block, key) == Broken(request, ContentType(headers), fault) <==> Refuses(headers, fault))
  {
    hide ParseRequestLine, PrintLine, Partition, AllSpell, Declares, Refuses, HeaderWarnings, ContentType, FramingOf,
      ParseHeaders, ParseHeaderLines, LinesOf;
    RequestLineExact(Partition(block, CRLF).head, line);
    BlockLines(Partition(block, CRLF).tail);
    LinesSpelled(LinesOf(Partition(block, CRLF).tail), headers);
    FramingExact(headers, framing, fault);
  }

  // A line that spells no field is refused, and nothing but the request line is kept.
  lemma BadLineRefused(block: string, line: RequestLine, key: Key, fault: Fault)
    requires WellFormedLine(line) && Partition(block, CRLF).head == PrintLine(line)
    requires FirstBad(LinesOf(Partition(block, CRLF).tail), fault)
    ensures Open(block, key) == Broken(Request(line, [], None, [], key), "", fault)
  {
    hide ParseRequestLine, PrintLine, Partition, FramingOf, ParseHeaders, ParseHeaderLines, LinesOf, Unspelled, IsField;
    RequestLineExact(Partition(block, CRLF).head, line);
    var lines := LinesOf(Partition(block, CRLF).tail);
    BlockLines(Partition(block, CRLF).tail);
    var i :| 0 <= i < |lines| && Unspelled(lines[i], fault) && forall j :: 0 <= j < i ==> IsField(lines[j]);
    LinesRefused(lines, i, fault);
  }

  // ----- records of requests that are not complete

  // `r` is `request` cut off in state `st`: the body bytes kept so far, the declared length and no other, the
  // given status, and the warning.
  predicate CutOff(r: Record, st: State, request: Request, status: Status, warning: Warning) {
    var total := if st.expected.Some? then st.expected.value else st.bodySeen;
    var truncated := total > |st.body| || status == Truncated;
    var warnings := request.warnings + [warning];
    && !r.complete
    && r.body == Body(st.body, st.expected, truncated, status, st.contentType)
    && r.request.(warnings := []) == request.(warnings := [])
    && r.request.warnings == warnings + (if truncated && BodyLimit !in warnings && total > CAPTURE_LIMIT then [BodyLimit] else [])
  }

  // Without a given status, a body beyond the capture limit is truncated and any other incomplete.
  function StatusOf(st: State, status: Option<Status>): Status {
    if status.Some? then status.value else if st.bodySeen > CAPTURE_LIMIT then Truncated else Incomplete
  }

  lemma Unfinished(st: State, status: Option<Status>, warning: Warning)
    requires Valid(st) && st.request.Some? && (status.Some? ==> status.value != Complete)
    ensures var out := Finish(st, false, status, Some(warning));
      |out| == 1 && CutOff(out[0], st, st.request.value, StatusOf(st, status), warning)
  {
    assert st.body[..|st.body|] == st.body;
  }

  // A stream closed, evicted or cut short inside a header block names its request when the request line is there,
  // with the fields before the first unreadable one.
  lemma PartialExact(st: State, line: RequestLine, lines: seq<string>, last: string, headers: seq<Header>)
    requires WellFormedLine(line) && '\r' !in last && forall l :: l in lines ==> l != "" && '\r' !in l
    requires |headers| <= |lines| && (forall i :: 0 <= i < |headers| ==> Spells(lines[i], headers[i]))
    requires |headers| < |lines| ==> !IsField(lines[|headers|])
    requires st.buffer == PrintLine(line) + CRLF + Join(lines + [last], CRLF) && |st.buffer| <= HEADER_LIMIT
    ensures PartialRequest(st) == Some(Request(line, headers, None, [HeadersIncomplete], st.key))
  {
    hide ReadableHeaders, Join, Spells, Split, Partition, PrintLine, ParseRequestLine;
    LineBytes(line);
    PartitionFirst(PrintLine(line), CRLF, Join(lines + [last], CRLF));
    RequestLineExact(PrintLine(line), line);
    SplitJoin(lines + [last], CRLF);
    assert (lines + [last])[..|lines|] == lines;
    ReadableSpelled(lines, headers);
  }

  lemma {:induction false} ReadableSpelled(lines: seq<string>, headers: seq<Header>)
    requires forall l :: l in lines ==> l != "" && '\r' !in l
    requires |headers| <= |lines| && (forall i :: 0 <= i < |headers| ==> Spells(lines[i], headers[i]))
    requires |headers| < |lines| ==> !IsField(lines[|headers|])
    ensures ReadableHeaders(lines) == headers
    decreases |lines|
  {
    hide Spells, ParseHeaderLine, Split;
    if lines != [] {
      assert lines[0] in lines;
      assert forall l :: l in lines[1..] ==> l in lines;
      OneLine(lines[0]);
      if headers == [] {
        HeaderLineExact(lines[0], Header("", ""), if ':' in lines[0] then MalformedHeader else MalformedHeaderLine);
      } else {
        HeaderLineExact(lines[0], headers[0], MalformedHeader);
        ReadableSpelled(lines[1..], headers[1..]);
        assert headers == [headers[0]] + headers[1..];
      }
    }
  }

  lemma OneLine(l: string)
    requires l != "" && '\r' !in l
    ensures ParseHeaders(l) == match ParseHeaderLine(l) case Ok(h) => Ok([h]) case Raised(f) => Raised(f)
  {
    hide ParseHeaderLine, Partition;
    PartitionNone(l, CRLF);
    assert Split(l, CRLF) == [l];
    assert [l][1..] == [] && ParseHeaderLines([]) == Ok([]);
    assert ParseHeaderLine(l).Ok? ==> [ParseHeaderLine(l).value] + [] == [ParseHeaderLine(l).value];
  }

  // Without a request line there is nothing to record.
  lemma NothingPartial(st: State)
    requires st.request == None
    requires forall line :: WellFormedLine(line) ==>
      Partition(Take(st.buffer, HEADER_LIMIT), CRLF) != Parts(PrintLine(line), true, Partition(Take(st.buffer, HEADER_LIMIT), CRLF).tail)
    ensures forall status, warning :: Finish(st, false, status, warning) == []
  {
    hide ParseRequestLine, WellFormedLine, PrintLine, Partition;
    var l := Partition(Take(st.buffer, HEADER_LIMIT), CRLF).head;
    if ParseRequestLine(l).Some? {
      RequestLineExact(l, ParseRequestLine(l).value);
    }
  }

  lemma PartialRecord(st: State, request: Request, status: Option<Status>, warning: Warning)
    requires Valid(st) && st.request == None && PartialRequest(st) == Some(request) && (status.Some? ==> status.value != Complete)
    ensures var out := Finish(st, false, status, Some(warning));
      |out| == 1 && CutOff(out[0], st, request, StatusOf(st, status), warning)
  {
    hide PartialRequest;
    assert st.body[..|st.body|] == st.body;
  }

  // ----- refused streams

  lemma RefusedRecord(st: State, fault: Fault)
    requires Valid(st) && st.request.Some?
    ensures var limit := fault == HeaderLimit || fault == ChunkLineLimit || fault == TrailerLimit;
      var out := Failure(st, fault);
      |out| == 1 && CutOff(out[0], st, st.request.value, if limit then Truncated else Malformed, Failed(fault))
  {
    hide Finish, CutOff;
    Unfinished(st, Some(if fault.IsLimit() then Truncated else Malformed), Failed(fault));
  }

  lemma HeaderMove(key: Key, block: string, rest: string)
    requires Find(block + BLANK_LINE + rest, BLANK_LINE) == |block| && |block| + 4 <= HEADER_LIMIT
    ensures Step(Idle(key, block + BLANK_LINE + rest)) == Begin(Idle(key, rest), Open(block, key))
  {
    hide Open, Failure, Begin, Find;
    var w := block + BLANK_LINE + rest;
    assert w[..|block|] == block && w[|block| + 4..] == rest;
  }

  // A refused block gives one record: malformed, not complete, without a body or a length, and the last of its
  // warnings says why; the stream is given up.
  lemma RefusedRun(key: Key, block: string, rest: string, request: Request, contentType: string, fault: Fault)
    requires Find(block + BLANK_LINE + rest, BLANK_LINE) == |block| && |block| + 4 <= HEADER_LIMIT
    requires Open(block, key) == Broken(request, contentType, fault)
    ensures !fault.IsLimit()
    ensures Run(Idle(key, block + BLANK_LINE + rest))
         == Rejected([Record(request.(warnings := request.warnings + [Failed(fault)]),
                             Body("", None, false, Malformed, contentType), false)])
  {
    hide Open, Find, Step, Failure;
    HeaderMove(key, block, rest);
    BrokenFault(block, key);
    BrokenRecord(key, rest, request, contentType, fault);
  }

  lemma BrokenRecord(key: Key, rest: string, request: Request, contentType: string, fault: Fault)
    requires !fault.IsLimit()
    ensures Failure(Idle(key, rest).(request := Some(request), contentType := contentType), fault)
         == [Record(request.(warnings := request.warnings + [Failed(fault)]), Body("", None, false, Malformed, contentType), false)]
  {
    var warned := request.warnings + [Failed(fault)];
    assert warned + [] == warned;
  }

  lemma BrokenFault(block: string, key: Key)
    ensures Open(block, key).Broken? ==> !Open(block, key).fault.IsLimit()
  {
    hide ParseRequestLine, Values, Members, HeaderWarnings, ContentType;
    BrokenLines(Partition(block, CRLF).tail);
  }

  lemma BrokenLines(block: string)
    ensures ParseHeaders(block).Raised? ==> !ParseHeaders(block).fault.IsLimit()
  {
    if block != "" {
      BrokenEach(Split(block, CRLF));
    }
  }

  lemma {:induction false} BrokenEach(lines: seq<string>)
    ensures ParseHeaderLines(lines).Raised? ==> !ParseHeaderLines(lines).fault.IsLimit()
  {
    if lines != [] {
      BrokenEach(lines[1..]);
    }
  }

  // The printed fields, in any order and number: with a length and a coding, with a coding that is not chunked
  // alone, or with an unreadable or a second different length, the request is refused with that warning.
  lemma PrintedRefused(line: RequestLine, headers: seq<Header>, key: Key, rest: string, fault: Fault)
    requires WellFormedLine(line) && Readable(headers) && Refuses(headers, fault)
    requires |Join([PrintLine(line)] + PrintHeaders(headers), CRLF)| + 4 <= HEADER_LIMIT
    ensures Run(Idle(key, Join([PrintLine(line)] + PrintHeaders(headers), CRLF) + BLANK_LINE + rest))
         == Rejected([Record(Request(line, headers, None, HeaderWarnings(headers) + [Failed(fault)], key),
                             Body("", None, false, Malformed, ContentType(headers)), false)])
  {
    hide Refuses, Run, Open, Join, HeaderWarnings, ContentType, FramingOf, PrintLine;
    PrintedParts(line, headers, key, rest);
    FramingExact(headers, ChunkedCoding, fault);
    PrintedOpens(line, headers, key);
    RefusedRun(key, Join([PrintLine(line)] + PrintHeaders(headers), CRLF), rest,
               Request(line, headers, None, HeaderWarnings(headers), key), ContentType(headers), fault);
  }

  // Every other list of fields declares a framing, and the body is read in it.
  lemma PrintedDeclared(line: RequestLine, headers: seq<Header>, key: Key, rest: string, framing: Framing)
    requires WellFormedLine(line) && Readable(headers) && Declares(headers, framing)
    requires |Join([PrintLine(line)] + PrintHeaders(headers), CRLF)| + 4 <= HEADER_LIMIT
    ensures Step(Idle(key, Join([PrintLine(line)] + PrintHeaders(headers), CRLF) + BLANK_LINE + rest))
         == Next(State(key, rest, Some(Request(line, headers, None, HeaderWarnings(headers), key)), "", 0,
                       if framing.FixedLength? then Fixed else ChunkSize, if framing.FixedLength? then framing.length else 0,
                       if framing.FixedLength? then Some(framing.length) else None, ContentType(headers)), [])
  {
    hide Declares, Open, Join, HeaderWarnings, ContentType, FramingOf, PrintLine, Step;
    PrintedParts(line, headers, key, rest);
    FramingExact(headers, framing, InvalidLength);
    PrintedOpens(line, headers, key);
    HeaderMove(key, Join([PrintLine(line)] + PrintHeaders(headers), CRLF), rest);
  }

  lemma PrintedParts(line: RequestLine, headers: seq<Header>, key: Key, rest: string)
    requires WellFormedLine(line) && Readable(headers)
    ensures var block := Join([PrintLine(line)] + PrintHeaders(headers), CRLF);
      Find(block + BLANK_LINE + rest, BLANK_LINE) == |block|
  {
    hide PrintLine, Join;
    LineBytes(line);
    HeaderLinesRoundTrip(headers);
    BlockEnd([PrintLine(line)] + PrintHeaders(headers), rest);
  }

  lemma PrintedOpens(line: RequestLine, headers: seq<Header>, key: Key)
    requires WellFormedLine(line) && Readable(headers)
    ensures Open(Join([PrintLine(line)] + PrintHeaders(headers), CRLF), key)
         == match FramingOf(headers)
            case Raised(fault) => Broken(Request(line, headers, None, HeaderWarnings(headers), key), ContentType(headers), fault)
            case Ok(framing) => Opened(Request(line, headers, None, HeaderWarnings(headers), key), ContentType(headers), framing)
  {
    hide HeaderWarnings, ContentType, FramingOf, PrintLine, ParseRequestLine, ParseHeaders;
    LineRoundTrip(line);
    LineBytes(line);
    var lines := [PrintLine(line)] + PrintHeaders(headers);
    if headers == [] {
      PartitionNone(PrintLine(line), CRLF);
      assert ParseHeaders("") == Ok([]) by { NoHeaders(); }
    } else {
      assert lines[1..] == PrintHeaders(headers);
      PartitionFirst(PrintLine(line), CRLF, Join(PrintHeaders(headers), CRLF));
      HeadersRoundTrip(headers);
    }
  }

  lemma NoHeaders()
    ensures ParseHeaders("") == Ok([])
  {
  }

  // ----- bodies that are refused

  // The chunk size: 1 to 16 hexadecimal digits before the first semicolon.
  predicate SizeSpelled(l: string, p: int) {
    0 <= p <= |l| && (p == |l| || l[p] == ';') && (forall k | 0 <= k < p :: l[k] != ';')
    && 1 <= p <= 16
    && forall k | 0 <= k < p :: '0' <= l[k] <= '9' || 'a' <= l[k] <= 'f' || 'A' <= l[k] <= 'F'
  }

  lemma SizeRead(l: string)
    ensures IsHex(Partition(l, ";").head) <==> exists p :: SizeSpelled(l, p)
    ensures forall p :: SizeSpelled(l, p) ==> Partition(l, ";").head == l[..p]
  {
    hide IsHex, Partition;
    forall p | SizeSpelled(l, p) ensures Partition(l, ";").head == l[..p] && IsHex(l[..p]) {
      SizeIsHead(l, p);
    }
    if IsHex(Partition(l, ";").head) {
      HeadIsSize(l);
    }
  }

  lemma SizeIsHead(l: string, p: int)
    requires SizeSpelled(l, p)
    ensures Partition(l, ";").head == l[..p] && IsHex(l[..p])
  {
    hide Partition;
    if p == |l| {
      PartitionNone(l, ";");
    } else {
      assert l == l[..p] + ";" + l[p + 1..];
      PartitionFirst(l[..p], ";", l[p + 1..]);
    }
  }

  lemma HeadIsSize(l: string)
    requires IsHex(Partition(l, ";").head)
    ensures SizeSpelled(l, |Partition(l, ";").head|)
  {
    var head := Partition(l, ";").head;
    assert l[..|head|] == head;
    assert forall k | 0 <= k < |head| :: l[k] == head[k] && HexDigit(head[k]);
  }

  // A chunk-size line opens its chunk, or ends the body, exactly when it spells a size; otherwise, and when it is
  // too long, the request is refused.
  lemma ChunkLineExact(st: State, l: string, rest: string)
    requires Valid(st) && st.mode == ChunkSize && st.buffer == l + CRLF + rest && '\r' !in l
    ensures |l| <= 8192 && (exists p :: SizeSpelled(l, p)) ==>
      exists p :: SizeSpelled(l, p)
        && Step(st) == Next(st.(buffer := rest, remaining := Number(l[..p], 16), mode := if Number(l[..p], 16) > 0 then ChunkData else Trailers), [])
    ensures |l| <= 8192 && (forall p :: !SizeSpelled(l, p)) ==>
      exists r :: Run(st) == Rejected([r]) && CutOff(r, st, st.request.value, Malformed, Failed(MalformedChunkSize))
    ensures |l| > 8192 ==>
      exists r :: Run(st) == Rejected([r]) && CutOff(r, st, st.request.value, Truncated, Failed(ChunkLineLimit))
  {
    hide Number, Failure, CutOff, SizeSpelled, IsHex, Partition;
    SizeRead(l);
    LineFound(l, rest);
    RefusedRecord(st.(buffer := rest), ChunkLineLimit);
    RefusedRecord(st.(buffer := rest), MalformedChunkSize);
    SameCut(st, rest);
    if |l| <= 8192 && exists p :: SizeSpelled(l, p) {
      var p :| SizeSpelled(l, p);
    }
  }

  lemma LineFound(l: string, rest: string)
    requires '\r' !in l
    ensures var w := l + CRLF + rest;
      Find(w, CRLF) == |l| && w[..|l|] == l && w[|l| + 2..] == rest
  {
    PartitionFirst(l, CRLF, rest);
    forall k: nat | k < |l| ensures !At(l + CRLF + rest, k, CRLF) {
      assert (l + CRLF + rest)[k] == l[k] && l[k] in l;
    }
    FindAtFront(l, CRLF, rest);
  }

  lemma SameCut(st: State, rest: string)
    requires st.request.Some?
    ensures forall r, status, warning ::
      CutOff(r, st.(buffer := rest), st.request.value, status, warning) ==> CutOff(r, st, st.request.value, status, warning)
  {
  }

  // Chunk data must be followed by a line end.
  lemma TerminatorExact(st: State)
    requires Valid(st) && st.mode == ChunkCrlf && |st.buffer| >= 2
    ensures st.buffer[0] == '\r' && st.buffer[1] == '\n' ==> Step(st) == Next(st.(buffer := st.buffer[2..], mode := ChunkSize), [])
    ensures !(st.buffer[0] == '\r' && st.buffer[1] == '\n') ==>
      exists r :: Run(st) == Rejected([r]) && CutOff(r, st, st.request.value, Malformed, Failed(MissingChunkTerminator))
  {
    hide Failure, CutOff;
    RefusedRecord(st, MissingChunkTerminator);
    assert st.buffer[..2] == [st.buffer[0], st.buffer[1]];
  }

  // Trailers may not change the framing.
  lemma TrailersRefused(st: State, trailers: seq<Header>, rest: string)
    requires Valid(st) && st.mode == Trailers && Readable(trailers) && trailers != []
    requires st.buffer == Join(PrintHeaders(trailers), CRLF) + BLANK_LINE + rest
    requires |Join(PrintHeaders(trailers), CRLF)| + 4 <= HEADER_LIMIT
    requires Has(trailers, "content-length") || Has(trailers, "transfer-encoding")
    ensures exists r ::
      Run(st) == Rejected([r]) && CutOff(r, st, st.request.value.(trailers := Some(trailers)), Malformed, Failed(FramingInTrailers))
  {
    hide Failure, CutOff, Join, ParseHeaders, Lower, Find;
    HeaderLinesRoundTrip(trailers);
    HeadersRoundTrip(trailers);
    TrailersEnd(PrintHeaders(trailers), rest);
    var st' := st.(request := Some(st.request.value.(trailers := Some(trailers))));
    RefusedRecord(st', FramingInTrailers);
    SameTrailers(st, trailers);
    ForbiddenHas(trailers);
  }

  lemma ForbiddenHas(trailers: seq<Header>)
    ensures (exists i | 0 <= i < |trailers| :: ForbiddenTrailer(trailers[i]))
        <==> Has(trailers, "content-length") || Has(trailers, "transfer-encoding")
  {
    hide Lower;
    if exists i | 0 <= i < |trailers| :: ForbiddenTrailer(trailers[i]) {
      var i :| 0 <= i < |trailers| && ForbiddenTrailer(trailers[i]);
      assert Lower(trailers[i].name) == "content-length" || Lower(trailers[i].name) == "transfer-encoding";
    }
    if Has(trailers, "content-length") {
      var i :| 0 <= i < |trailers| && Lower(trailers[i].name) == "content-length";
      assert ForbiddenTrailer(trailers[i]);
    }
    if Has(trailers, "transfer-encoding") {
      var i :| 0 <= i < |trailers| && Lower(trailers[i].name) == "transfer-encoding";
      assert ForbiddenTrailer(trailers[i]);
    }
  }

  lemma SameTrailers(st: State, trailers: seq<Header>)
    requires st.request.Some?
    ensures var request := st.request.value.(trailers := Some(trailers));
      forall r, status, warning :: CutOff(r, st.(request := Some(request)), request, status, warning) ==> CutOff(r, st, request, status, warning)
  {
  }

  // ----- header blocks without an end

  // With no blank line in sight: too many bytes are refused, bytes that can begin no request are dropped without a
  // record, and all others wait.
  lemma NoBlankLine(key: Key, buffer: string)
    requires Find(buffer, BLANK_LINE) < 0
    ensures |buffer| > 65536 ==>
      Run(Idle(key, buffer)) == Rejected(Finish(Idle(key, buffer), false, Some(Truncated), Some(Failed(HeaderLimit))))
    ensures |buffer| <= 65536 && (forall n :: FirstWord(buffer, n) ==> n == 0 || (n <= 32 && IsToken(buffer[..n]))) ==>
      Run(Idle(key, buffer)) == Waiting([], Idle(key, buffer))
    ensures |buffer| <= 65536 && (exists n :: FirstWord(buffer, n) && n > 0 && (n > 32 || !IsToken(buffer[..n]))) ==>
      Run(Idle(key, buffer)) == Rejected([])
  {
    hide Finish, Find, IsToken, Partition, FirstWord;
    var n := WordIs(buffer);
  }

  // A header block that ends too late is refused like one that does not end.
  lemma LongBlockRefused(key: Key, buffer: string)
    requires Find(buffer, BLANK_LINE) + 4 > 65536
    ensures Run(Idle(key, buffer)) == Rejected(Finish(Idle(key, buffer), false, Some(Truncated), Some(Failed(HeaderLimit))))
  {
    hide Finish, Find, Open, BadPrefix;
  }

  // A chunk-size line without an end waits until it is too long.
  lemma EndlessChunkLine(st: State)
    requires Valid(st) && st.mode == ChunkSize && Find(st.buffer, CRLF) < 0
    ensures |st.buffer| <= 8192 ==> Run(st) == Waiting([], st)
    ensures |st.buffer| > 8192 ==>
      exists r :: Run(st) == Rejected([r]) && CutOff(r, st, st.request.value, Truncated, Failed(ChunkLineLimit))
  {
    hide Failure, CutOff, Find;
    RefusedRecord(st, ChunkLineLimit);
  }

  // So do trailers, whose lines must spell fields.
  lemma EndlessTrailers(st: State, fault: Fault)
    requires Valid(st) && st.mode == Trailers && !At(st.buffer, 0, CRLF)
    ensures var end := Find(st.buffer, BLANK_LINE);
      && (end < 0 && |st.buffer| <= 65536 ==> Run(st) == Waiting([], st))
      && ((end < 0 && |st.buffer| > 65536) || end + 4 > 65536 ==>
            exists r :: Run(st) == Rejected([r]) && CutOff(r, st, st.request.value, Truncated, Failed(TrailerLimit)))
      && (0 <= end && end + 4 <= 65536 && FirstBad(LinesOf(st.buffer[..end]), fault) ==>
            exists r :: Run(st) == Rejected([r]) && CutOff(r, st, st.request.value, Malformed, Failed(fault)))
  {
    hide Failure, CutOff, Find, ParseHeaders, ParseHeaderLines, LinesOf, ForbiddenTrailer, Unspelled, IsField;
    RefusedRecord(st, TrailerLimit);
    RefusedRecord(st, fault);
    var end := Find(st.buffer, BLANK_LINE);
    if 0 <= end && FirstBad(LinesOf(st.buffer[..end]), fault) {
      var lines := LinesOf(st.buffer[..end]);
      BlockLines(st.buffer[..end]);
      var i :| 0 <= i < |lines| && Unspelled(lines[i], fault) && forall j :: 0 <= j < i ==> IsField(lines[j]);
      LinesRefused(lines, i, fault);
      UnspelledFault(lines[i], fault);
    }
  }

  lemma UnspelledFault(l: string, fault: Fault)
    requires Unspelled(l, fault)
    ensures !fault.IsLimit() && fault != HeaderLimit && fault != ChunkLineLimit && fault != TrailerLimit
  {
  }

  // The bytes before the first space, or all of them.
  predicate FirstWord(s: string, n: int) {
    0 <= n <= |s| && (n == |s| || s[n] == ' ') && forall k | 0 <= k < n :: s[k] != ' '
  }

  lemma WordIs(s: string) returns (n: int)
    ensures FirstWord(s, n) && Partition(s, " ").head == s[..n] && forall m :: FirstWord(s, m) ==> m == n
  {
    if ' ' in s {
      n := FirstOf(s, ' ');
      assert s == s[..n] + " " + s[n + 1..];
      PartitionFirst(s[..n], " ", s[n + 1..]);
    } else {
      n := |s|;
      PartitionNone(s, " ");
      assert s[..n] == s;
    }
    forall m | FirstWord(s, m) ensures m == n {
      OneWord(s, m, n);
    }
  }

  lemma OneWord(s: string, m: int, n: int)
    requires FirstWord(s, m) && FirstWord(s, n)
    ensures m == n
  {
  }

  // ----- closed, evicted and short streams

  // What is recorded of a stream that goes away: its request, if one is under way or its line has arrived, cut off.
  ghost predicate Gone(st: State, status: Option<Status>, warning: Warning, out: seq<Record>) {
    match (if st.request.Some? then st.request else PartialRequest(st))
    case None => out == []
    case Some(request) => |out| == 1 && CutOff(out[0], st, request, StatusOf(st, status), warning)
  }

  lemma GoneRecord(st: State, status: Option<Status>, warning: Warning)
    requires Valid(st) && (status.Some? ==> status.value != Complete)
    ensures Gone(st, status, warning, Finish(st, false, status, Some(warning)))
  {
    hide CutOff, PartialRequest, Seal, Valid;
    if st.request.Some? {
      Unfinished(st, status, warning);
    } else if PartialRequest(st).Some? {
      PartialRecord(st, PartialRequest(st).value, status, warning);
    }
  }

  // Closing a stream removes it, and records its request as incomplete; closing any other does nothing.
  lemma FlushRecords(t: Table, key: Key, max: nat)
    requires Good(t, max)
    ensures (forall i :: 0 <= i < |t| ==> t[i].key != key) ==> Flush(t, key) == Effect(t, [])
    ensures forall i :: 0 <= i < |t| && t[i].key == key ==>
      Gone(t[i], None, StreamEnded, Flush(t, key).out) && Flush(t, key).table == t[..i] + t[i + 1..]
  {
    hide Gone, Finish, Settled;
    forall i | 0 <= i < |t| && t[i].key == key
      ensures Gone(t[i], None, StreamEnded, Flush(t, key).out) && Flush(t, key).table == t[..i] + t[i + 1..]
    {
      assert IndexOf(t, key) == i;
      TableValid(t, i, max);
      GoneRecord(t[i], None, StreamEnded);
    }
  }

  lemma TableValid(t: Table, i: nat, max: nat)
    requires Good(t, max) && i < |t|
    ensures Valid(t[i])
  {
  }

  // Evicted streams are recorded one after the other, oldest first.
  lemma {:induction false} EvictRecords(t: Table, i: nat, max: nat)
    requires Good(t, max) && i < |t|
    ensures Evict(t) == Evict(t[..i]) + Finish(t[i], false, None, Some(StreamEvicted)) + Evict(t[i + 1..])
    ensures Gone(t[i], None, StreamEvicted, Finish(t[i], false, None, Some(StreamEvicted)))
    decreases |t|
  {
    hide Gone, Finish, Settled;
    TableValid(t, i, max);
    GoneRecord(t[i], None, StreamEvicted);
    if i == 0 {
      assert t[..0] == [];
    } else {
      assert t[1..][..i - 1] == t[..i][1..] && t[1..][i - 1 + 1..] == t[i + 1..];
      TailGood(t, max);
      EvictRecords(t[1..], i - 1, max);
    }
  }

  lemma TailGood(t: Table, max: nat)
    requires Good(t, max) && t != []
    ensures Good(t[1..], max)
  {
    hide Settled;
  }

  // A read that was short ends the stream: after what it completes, the request under way is recorded as
  // truncated.
  lemma ShortReadRecords(t: Table, max: nat, key: Key, data: string, total: nat)
    requires max >= 1 && Good(t, max) && data != "" && total > |data|
    requires FeedStream(StateOf(t, key), data).Waiting?
    ensures var outcome := FeedStream(StateOf(t, key), data);
      var others := Remove(t, key);
      var surplus := if |others| + 1 > max then |others| + 1 - max else 0;
      exists cut :: Gone(outcome.state, Some(Truncated), ShortRead, cut)
        && Feed(t, max, key, data, Some(total)) == Effect(others[surplus..], Evict(others[..surplus]) + (outcome.out + cut))
  {
    hide Gone, Finish, Settled, FeedStream, Evict;
    FeedStreamSettles(t, key, data, max);
    var st := FeedStream(StateOf(t, key), data).state;
    assert Valid(st) by { SettledValid(st); }
    GoneRecord(st, Some(Truncated), ShortRead);
  }

  // Nothing read from an unknown stream is nothing.
  lemma FeedNothing(t: Table, max: nat, key: Key, total: Option<nat>)
    requires max >= 1 && forall i :: 0 <= i < |t| ==> t[i].key != key
    ensures Feed(t, max, key, "", total) == Effect(t, [])
  {
  }

  // What is kept of the table by a read: the other streams but the oldest when there are too many, and this one
  // behind them unless it was given up, was read short, or holds neither a request nor bytes.
  lemma FeedKeeps(t: Table, max: nat, key: Key, data: string, total: Option<nat>)
    requires max >= 1 && (data != "" || exists i :: 0 <= i < |t| && t[i].key == key)
    ensures var outcome, others := FeedStream(StateOf(t, key), data), Remove(t, key);
      var short := total.Some? && total.value > |data|;
      exists surplus: nat :: surplus <= |others|
        && surplus == (if |others| >= max then |others| - (max - 1) else 0)
        && Feed(t, max, key, data, total).table
           == others[surplus..]
              + (if outcome.Waiting? && !short && (outcome.state.request != None || outcome.state.buffer != "") then [outcome.state] else [])
  {
    hide FeedStream, Evict, Finish, Remove, StateOf, IndexOf;
    assert data == "" ==> IndexOf(t, key) >= 0;
    var others := Remove(t, key);
    var surplus: nat := if |others| >= max then |others| - (max - 1) else 0;
    assert surplus <= |others|;
    assert others[surplus..] + [] == others[surplus..];
  }

  lemma SettledValid(st: State)
    requires Settled(st)
    ensures Valid(st)
  {
  }

  // ----- an example

  // POST / with a length and a coding: refused, whatever follows.
  lemma BothFieldsRefused(key: Key, rest: string)
    ensures var line := RequestLine("POST", "/", "HTTP/1.1");
      var headers := [Header("Content-Length", "3"), Header("Transfer-Encoding", "chunked")];
      Run(Idle(key, Join([PrintLine(line)] + PrintHeaders(headers), CRLF) + BLANK_LINE + rest))
      == Rejected([Record(Request(line, headers, None, HeaderWarnings(headers) + [Failed(ConflictingFraming)], key),
                          Body("", None, false, Malformed, ContentType(headers)), false)])
  {
    hide Run, HeaderWarnings, ContentType, Join, PrintLine, PrintHeader, Lower, IsToken, IsValue, Strip;
    var line := RequestLine("POST", "/", "HTTP/1.1");
    var headers := [Header("Content-Length", "3"), Header("Transfer-Encoding", "chunked")];
    LowerNames();
    assert Has(headers, "content-length") by { assert Lower(headers[0].name) == "content-length"; }
    assert Has(headers, "transfer-encoding") by { assert Lower(headers[1].name) == "transfer-encoding"; }
    ExampleReadable(line);
    ExampleShort(line);
    PrintedRefused(line, headers, key, rest, ConflictingFraming);
  }

  lemma ExampleReadable(line: RequestLine)
    requires line == RequestLine("POST", "/", "HTTP/1.1")
    ensures WellFormedLine(line)
    ensures Readable([Header("Content-Length", "3"), Header("Transfer-Encoding", "chunked")])
  {
    hide Strip;
    FramingNames();
    StripChunked();
    StripThree();
    assert IsToken("POST") && IsUrl("/") && IsValue("3");
  }

  lemma StripThree()
    ensures Strip("3", BLANKS) == "3"
  {
  }

  lemma ExampleShort(line: RequestLine)
    requires line == RequestLine("POST", "/", "HTTP/1.1")
    ensures |Join([PrintLine(line)] + PrintHeaders([Header("Content-Length", "3"), Header("Transfer-Encoding", "chunked")]), CRLF)| <= 200
  {
    var a, b := PrintHeader(Header("Content-Length", "3")), PrintHeader(Header("Transfer-Encoding", "chunked"));
    var headers := [Header("Content-Length", "3"), Header("Transfer-Encoding", "chunked")];
    assert headers[1..] == [headers[1]] && headers[1..][1..] == [];
    assert PrintHeaders(headers) == [a, b];
    JoinThree(PrintLine(line), a, b);
    assert [PrintLine(line)] + [a, b] == [PrintLine(line), a, b];
  }

  lemma JoinThree(a: string, b: string, c: string)
    ensures |Join([a, b, c], CRLF)| == |a| + |b| + |c| + 4
  {
    assert [a, b, c][1..] == [b, c] && [b, c][1..] == [c];
    assert Join([c], CRLF) == c && Join([b, c], CRLF) == b + CRLF + c;
  }
}
