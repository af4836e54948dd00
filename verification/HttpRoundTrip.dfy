// Feeding printed requests gives exactly those requests back.
module HttpRoundTrip {
  import opened Options
  import opened Bytes
  import opened HttpRequests
  import opened HttpStream
  import opened HttpCuts
  import opened HttpPrint

  // ----- what is expected of a printed request

  function ChunkedBody(chunks: seq<Chunk>): string {
    if chunks == [] then "" else chunks[0].data + ChunkedBody(chunks[1..])
  }

  function BodyOf(p: Payload): string {
    match p
    case NoBody => ""
    case Sized(body) => body
    case Chunked(chunks, _, _) => ChunkedBody(chunks)
  }

  function TrailersOf(p: Payload): Option<seq<Header>> {
    if p.Chunked? && p.trailers != [] then Some(p.trailers) else None
  }

  // The request with its fields and trailers in order, and its body: whole and complete up to the
  // capture limit, else its first CAPTURE_LIMIT bytes, marked truncated.
  function Expected(m: Message, key: Key): Record {
    var body := BodyOf(m.payload);
    var whole := |body| <= CAPTURE_LIMIT;
    var headers := AllHeaders(m);
    Record(
      Request(m.line, headers, TrailersOf(m.payload),
              HeaderWarnings(headers) + (if whole then [] else [BodyLimit]), key),
      Body(Take(body, CAPTURE_LIMIT), Some(|body|), !whole, if whole then Complete else Truncated,
           ContentType(headers)),
      whole)
  }

  function PrintAll(ms: seq<Message>): string {
    if ms == [] then "" else Print(ms[0]) + PrintAll(ms[1..])
  }

  function ExpectedAll(ms: seq<Message>, key: Key): seq<Record> {
    if ms == [] then [] else [Expected(ms[0], key)] + ExpectedAll(ms[1..], key)
  }

  // ----- runs

  function Idle(key: Key, buffer: string): State {
    Fresh(key).(buffer := buffer)
  }

  // `st` runs to `st'` with the records `out`. When no size line is longer than `bound` and `bound` is
  // less than 8192, none of exactly 8192 bytes is met on the way.
  ghost predicate Runs(st: State, out: seq<Record>, st': State, bound: nat) {
    Run(st) == Run(st').After(out) && (bound < 8192 ==> HasEdgeLine(st) == HasEdgeLine(st'))
  }

  lemma RunsStep(st: State, st': State, out: seq<Record>, bound: nat)
    requires Step(st) == Next(st', out) && (bound < 8192 ==> !EdgeMove(st))
    ensures Runs(st, out, st', bound)
  {
    hide Step;
  }

  lemma RunsTrans(a: State, out1: seq<Record>, b: State, out2: seq<Record>, c: State, bound: nat)
    requires Runs(a, out1, b, bound) && Runs(b, out2, c, bound)
    ensures Runs(a, out1 + out2, c, bound)
  {
    hide Run, HasEdgeLine, Step;
    AfterAfter(Run(c), out1, out2);
  }

  // ----- bodies

  // A state inside the body, of which `seen` has been read.
  function InBody(st: State, seen: string): State {
    st.(body := Take(seen, CAPTURE_LIMIT), bodySeen := |seen|)
  }

  lemma KeepTake(seen: string, data: string, rest: string)
    ensures Keep(Take(seen, CAPTURE_LIMIT), data + rest, |data|) == Take(seen + data, CAPTURE_LIMIT)
  {
    var kept := Take(seen, CAPTURE_LIMIT);
    if |seen| <= CAPTURE_LIMIT {
      var n := Min(|data|, CAPTURE_LIMIT - |seen|);
      assert (data + rest)[..n] == data[..n];
      assert Take(seen + data, CAPTURE_LIMIT) == seen + data[..n];
    } else {
      assert (data + rest)[..0] == "" && kept + "" == kept;
      assert (seen + data)[..CAPTURE_LIMIT] == seen[..CAPTURE_LIMIT];
    }
  }

  // Draining a buffer that holds the rest of the body or chunk.
  lemma DrainBody(st: State, seen: string, data: string, rest: string)
    requires st == InBody(st, seen) && st.buffer == data + rest && st.remaining == |data|
    ensures Drain(st) == InBody(st, seen + data).(buffer := rest, remaining := 0)
  {
    KeepTake(seen, data, rest);
    assert (data + rest)[|data|..] == rest;
  }

  // Sealing a complete body of which `seen` was read.
  lemma SealComplete(st: State, seen: string, request: Request)
    requires st == InBody(st, seen) && (st.expected == None || st.expected == Some(|seen|))
    requires BodyLimit !in request.warnings
    ensures var whole := |seen| <= CAPTURE_LIMIT;
      Seal(st, request, true, None, None)
      == Record(request.(warnings := request.warnings + (if whole then [] else [BodyLimit])),
                Body(Take(seen, CAPTURE_LIMIT), Some(|seen|), !whole, if whole then Complete else Truncated, st.contentType),
                whole)
  {
    assert request.warnings + [] == request.warnings;
    assert Take(Take(seen, CAPTURE_LIMIT), CAPTURE_LIMIT) == Take(seen, CAPTURE_LIMIT);
  }

  // ----- the chunked coding

  lemma SizeLineBytes(n: nat, extension: string)
    requires WellFormedExtension(extension)
    ensures '\r' !in SizeLine(n, extension)
    ensures Partition(SizeLine(n, extension), ";").head == Digits(n, 16)
  {
    DigitsPlain(n, 16);
    var d := Digits(n, 16);
    assert forall i | 0 <= i < |d| :: PlainDigit(d[i], 16) && d[i] != ';' && d[i] != '\r';
    if extension == "" {
      assert SizeLine(n, extension) == d;
      PartitionNone(d, ";");
    } else {
      assert SizeLine(n, extension) == d + ";" + extension[1..];
      PartitionFirst(d, ";", extension[1..]);
    }
  }

  lemma DigitsHex(n: nat)
    requires |Digits(n, 16)| <= 16
    ensures IsHex(Digits(n, 16)) && Number(Digits(n, 16), 16) == n
  {
    DigitsPlain(n, 16);
    DigitsNumber(n, 16);
    var d := Digits(n, 16);
    assert forall i | 0 <= i < |d| :: PlainDigit(d[i], 16) && HexDigit(d[i]);
  }

  lemma SizeLineStep(st: State, n: nat, extension: string, rest: string)
    requires st.mode == ChunkSize && st.buffer == SizeLine(n, extension) + CRLF + rest
    requires WellFormedExtension(extension) && |SizeLine(n, extension)| <= 8192 && |Digits(n, 16)| <= 16
    ensures Find(st.buffer, CRLF) == |SizeLine(n, extension)|
    ensures Step(st)
         == Next(st.(buffer := rest, remaining := n, mode := if n > 0 then ChunkData else Trailers), [])
  {
    hide Digits, SizeLine, Failure;
    var line := SizeLine(n, extension);
    SizeLineBytes(n, extension);
    DigitsHex(n);
    PartitionFirst(line, CRLF, rest);
    assert st.buffer[..|line|] == line && st.buffer[|line| + 2..] == rest;
  }

  lemma CrlfStep(st: State, rest: string)
    requires st.mode == ChunkCrlf && st.buffer == CRLF + rest
    ensures Step(st) == Next(st.(buffer := rest, mode := ChunkSize), [])
  {
    assert (CRLF + rest)[..2] == CRLF && (CRLF + rest)[2..] == rest;
  }

  lemma DataStep(st: State, seen: string, data: string, rest: string)
    requires st.mode == ChunkData && st == InBody(st, seen) && st.buffer == data + rest && st.remaining == |data|
    ensures Step(st) == Next(InBody(st, seen + data).(buffer := rest, remaining := 0, mode := ChunkCrlf), [])
  {
    DrainBody(st, seen, data, rest);
  }

  lemma OneChunk(st: State, seen: string, c: Chunk, tail: string, bound: nat)
    requires WellFormedChunk(c, bound) && bound <= 8192
    requires st.mode == ChunkSize && st == InBody(st, seen) && st.remaining == 0
    requires st.buffer == SizeLine(|c.data|, c.extension) + CRLF + (c.data + (CRLF + tail))
    ensures Runs(st, [], InBody(st, seen + c.data).(buffer := tail), bound)
  {
    hide Step, Digits, SizeLine, Runs, InBody;
    var n := |c.data|;
    SizeLineStep(st, n, c.extension, c.data + (CRLF + tail));
    var a := st.(buffer := c.data + (CRLF + tail), remaining := n, mode := ChunkData);
    RunsStep(st, a, [], bound);
    InBodyAgain(st, a, seen);
    DataStep(a, seen, c.data, CRLF + tail);
    var b := InBody(a, seen + c.data).(buffer := CRLF + tail, remaining := 0, mode := ChunkCrlf);
    RunsStep(a, b, [], bound);
    InBodySame(st, seen + c.data, tail, n, c.data + (CRLF + tail));
    CrlfStep(b, tail);
    var e := InBody(st, seen + c.data).(buffer := tail);
    RunsStep(b, e, [], bound);
    RunsTrans(st, [], a, [], b, bound);
    var none: seq<Record> := [];
    assert none + none == none;
    RunsTrans(st, [], b, [], e, bound);
  }

  lemma InBodyAgain(st: State, a: State, seen: string)
    requires st == InBody(st, seen) && a.body == st.body && a.bodySeen == st.bodySeen
    ensures a == InBody(a, seen)
  {
  }

  lemma InBodySame(st: State, seen: string, tail: string, n: nat, buffer: string)
    requires st.mode == ChunkSize && st.remaining == 0
    ensures InBody(st.(buffer := buffer, remaining := n, mode := ChunkData), seen)
              .(buffer := CRLF + tail, remaining := 0, mode := ChunkCrlf).(buffer := tail, mode := ChunkSize)
         == InBody(st, seen).(buffer := tail)
    ensures InBody(st.(buffer := buffer, remaining := n, mode := ChunkData), seen)
              .(buffer := CRLF + tail, remaining := 0, mode := ChunkCrlf).buffer == CRLF + tail
  {
  }

  lemma {:induction false} AllChunks(st: State, seen: string, chunks: seq<Chunk>, tail: string, bound: nat)
    requires bound <= 8192 && forall i | 0 <= i < |chunks| :: WellFormedChunk(chunks[i], bound)
    requires st.mode == ChunkSize && st == InBody(st, seen) && st.remaining == 0
    requires st.buffer == PrintChunks(chunks) + tail
    ensures Runs(st, [], InBody(st, seen + ChunkedBody(chunks)).(buffer := tail), bound)
    decreases |chunks|
  {
    hide Step, Digits, SizeLine, HasEdgeLine, Run;
    if chunks == [] {
      assert "" + tail == tail && seen + "" == seen;
      AfterAfter(Run(st), [], []);
    } else {
      var c, rest := chunks[0], PrintChunks(chunks[1..]) + tail;
      var line := SizeLine(|c.data|, c.extension);
      assert line + CRLF + (c.data + (CRLF + PrintChunks(chunks[1..]))) + tail == line + CRLF + (c.data + (CRLF + rest));
      OneChunk(st, seen, c, rest, bound);
      var st' := InBody(st, seen + c.data).(buffer := rest);
      AllChunks(st', seen + c.data, chunks[1..], tail, bound);
      assert seen + c.data + ChunkedBody(chunks[1..]) == seen + ChunkedBody(chunks);
      RunsTrans(st, [], st', [], InBody(st, seen + ChunkedBody(chunks)).(buffer := tail), bound);
    }
  }

  // ----- one request

  // The state right behind the header block.
  function AfterHeaders(m: Message, key: Key, buffer: string): State {
    var framing := DeclaredFraming(m.payload);
    var sized := framing.FixedLength?;
    State(key, buffer, Some(OpenedRequest(m, key)), "", 0, if sized then Fixed else ChunkSize,
          if sized then framing.length else 0, if sized then Some(framing.length) else None,
          ContentType(AllHeaders(m)))
  }

  lemma HeadersStep(m: Message, key: Key, rest: string, bound: nat)
    requires WellFormed(m, bound)
    ensures Step(Idle(key, PrintBlock(m) + BLANK_LINE + rest)) == Next(AfterHeaders(m, key, rest), [])
  {
    hide PrintBlock, OpenedRequest, ContentType, AllHeaders, Failure, Open;
    PrintedBlockEnd(m, bound, rest);
    OpenPrinted(m, bound, key);
    var block := PrintBlock(m);
    var w := block + BLANK_LINE + rest;
    assert w[..|block|] == block && w[|block| + 4..] == rest;
  }

  lemma NoBodyLimitWarning(m: Message, key: Key)
    ensures BodyLimit !in OpenedRequest(m, key).warnings
  {
    hide IsEncoded, Values;
  }

  // The record of a request whose body and trailers have been read.
  lemma FinishExpected(st: State, m: Message, key: Key)
    requires st == InBody(st, BodyOf(m.payload)) && st.key == key
    requires st.request == Some(OpenedRequest(m, key).(trailers := TrailersOf(m.payload)))
    requires st.contentType == ContentType(AllHeaders(m))
    requires st.expected == None || st.expected == Some(|BodyOf(m.payload)|)
    ensures Finish(st, true, None, None) == [Expected(m, key)]
  {
    hide ContentType, HeaderWarnings, AllHeaders, BodyOf, Seal;
    NoBodyLimitWarning(m, key);
    SealComplete(st, BodyOf(m.payload), st.request.value);
  }

  lemma SizedStep(m: Message, key: Key, rest: string)
    requires !m.payload.Chunked?
    ensures Step(AfterHeaders(m, key, PrintPayload(m.payload) + rest)) == Next(Idle(key, rest), [Expected(m, key)])
  {
    hide OpenedRequest, ContentType, AllHeaders, Expected, Finish;
    var body := BodyOf(m.payload);
    assert PrintPayload(m.payload) == body;
    var st := AfterHeaders(m, key, body + rest);
    assert st == InBody(st, "");
    assert "" + body == body;
    DrainBody(st, "", body, rest);
    SameOpened(m, key);
    FinishExpected(Drain(st), m, key);
  }

  lemma SameOpened(m: Message, key: Key)
    requires TrailersOf(m.payload) == None
    ensures OpenedRequest(m, key).(trailers := TrailersOf(m.payload)) == OpenedRequest(m, key)
  {
  }

  lemma TrailersReadable(trailers: seq<Header>)
    requires WellFormedHeaders(trailers) && trailers != []
    ensures ParseHeaders(Join(PrintHeaders(trailers), CRLF)) == Ok(trailers)
    ensures CleanLines(PrintHeaders(trailers))
    ensures !exists i | 0 <= i < |trailers| :: ForbiddenTrailer(trailers[i])
  {
    hide Lower, Strip, IsToken, IsValue, ParseHeaders, Join, CleanLines;
    assert forall i | 0 <= i < |trailers| :: WellFormedHeader(trailers[i]);
    HeaderLinesRoundTrip(trailers);
    HeadersRoundTrip(trailers);
  }

  lemma TrailersEnd(lines: seq<string>, rest: string)
    requires |lines| >= 1 && CleanLines(lines)
    ensures var block := Join(lines, CRLF);
      var w := block + BLANK_LINE + rest;
      !At(w, 0, CRLF) && Find(w, BLANK_LINE) == |block| && w[..|block|] == block && w[|block| + 4..] == rest
  {
    hide Join, CleanLines;
    BlockEnd(lines, rest);
    FirstByte(lines);
  }

  lemma FirstByte(lines: seq<string>)
    requires |lines| >= 1 && CleanLines(lines)
    ensures Join(lines, CRLF) != "" && Join(lines, CRLF)[0] != '\r'
  {
    assert lines[0][0] in lines[0];
  }

  lemma TrailersStep(st: State, m: Message, key: Key, rest: string)
    requires m.payload.Chunked? && WellFormedHeaders(m.payload.trailers)
    requires |PrintTrailers(m.payload.trailers)| <= HEADER_LIMIT
    requires st == InBody(st, BodyOf(m.payload)) && st.key == key && st.mode == Trailers
    requires st.request == Some(OpenedRequest(m, key)) && st.contentType == ContentType(AllHeaders(m))
    requires st.expected == None && st.remaining == 0 && st.buffer == PrintTrailers(m.payload.trailers) + rest
    ensures Step(st) == Next(Idle(key, rest), [Expected(m, key)])
  {
    hide OpenedRequest, ContentType, AllHeaders, Expected, Finish, BodyOf, ParseHeaders, Failure;
    var trailers := m.payload.trailers;
    if trailers == [] {
      assert (CRLF + rest)[2..] == rest;
      SameOpened(m, key);
      FinishExpected(st.(buffer := rest), m, key);
    } else {
      TrailersReadable(trailers);
      TrailersEnd(PrintHeaders(trailers), rest);
      var st' := st.(request := Some(OpenedRequest(m, key).(trailers := Some(trailers))), buffer := rest);
      FinishExpected(st', m, key);
    }
  }

  lemma ZeroDigits()
    ensures |Digits(0, 16)| == 1
  {
  }

  lemma ChunkedSteps(m: Message, key: Key, rest: string, bound: nat)
    requires WellFormed(m, bound) && bound <= 8192 && m.payload.Chunked?
    ensures Runs(AfterHeaders(m, key, PrintPayload(m.payload) + rest), [Expected(m, key)], Idle(key, rest), bound)
  {
    hide Step, OpenedRequest, ContentType, AllHeaders, Expected, PrintTrailers, PrintChunks, Digits, Runs, PrintBlock;
    var Chunked(chunks, extension, trailers) := m.payload;
    var size := SizeLine(0, extension);
    var last := PrintTrailers(trailers) + rest;
    var st := AfterHeaders(m, key, PrintPayload(m.payload) + rest);
    assert st.buffer == PrintChunks(chunks) + (size + CRLF + last);
    assert st == InBody(st, "");
    AllChunks(st, "", chunks, size + CRLF + last, bound);
    var body := ChunkedBody(chunks);
    assert "" + body == body;
    var a := InBody(st, body).(buffer := size + CRLF + last);
    ZeroDigits();
    SizeLineStep(a, 0, extension, last);
    var b := a.(buffer := last, remaining := 0, mode := Trailers);
    RunsStep(a, b, [], bound);
    TrailersStep(b, m, key, rest);
    RunsStep(b, Idle(key, rest), [Expected(m, key)], bound);
    RunsTrans(a, [], b, [Expected(m, key)], Idle(key, rest), bound);
    assert [] + [Expected(m, key)] == [Expected(m, key)];
    RunsTrans(st, [], a, [Expected(m, key)], Idle(key, rest), bound);
  }

  lemma OneMessage(m: Message, key: Key, rest: string, bound: nat)
    requires WellFormed(m, bound) && bound <= 8192
    ensures Runs(Idle(key, Print(m) + rest), [Expected(m, key)], Idle(key, rest), bound)
  {
    hide Step, OpenedRequest, ContentType, AllHeaders, Expected, PrintPayload, Runs, PrintBlock, AfterHeaders;
    assert Print(m) + rest == PrintBlock(m) + BLANK_LINE + (PrintPayload(m.payload) + rest);
    var st := AfterHeaders(m, key, PrintPayload(m.payload) + rest);
    HeadersStep(m, key, PrintPayload(m.payload) + rest, bound);
    RunsStep(Idle(key, Print(m) + rest), st, [], bound);
    if m.payload.Chunked? {
      ChunkedSteps(m, key, rest, bound);
    } else {
      SizedStep(m, key, rest);
      NotChunkSize(m, key, PrintPayload(m.payload) + rest);
      RunsStep(st, Idle(key, rest), [Expected(m, key)], bound);
    }
    assert [] + [Expected(m, key)] == [Expected(m, key)];
    RunsTrans(Idle(key, Print(m) + rest), [], st, [Expected(m, key)], Idle(key, rest), bound);
  }

  lemma NotChunkSize(m: Message, key: Key, buffer: string)
    requires !m.payload.Chunked?
    ensures AfterHeaders(m, key, buffer).mode == Fixed
  {
  }

  // ----- any list of requests

  lemma {:induction false} AllMessages(ms: seq<Message>, key: Key, bound: nat)
    requires bound <= 8192 && forall i | 0 <= i < |ms| :: WellFormed(ms[i], bound)
    ensures Runs(Idle(key, PrintAll(ms)), ExpectedAll(ms, key), Idle(key, ""), bound)
  {
    hide Step, Expected, Print, WellFormed, Runs;
    if ms == [] {
      RunsNothing(Idle(key, ""), bound);
    } else {
      OneMessage(ms[0], key, PrintAll(ms[1..]), bound);
      AllMessages(ms[1..], key, bound);
      RunsTrans(Idle(key, PrintAll(ms)), [Expected(ms[0], key)], Idle(key, PrintAll(ms[1..])),
                ExpectedAll(ms[1..], key), Idle(key, ""), bound);
    }
  }

  lemma RunsNothing(st: State, bound: nat)
    ensures Runs(st, [], st, bound)
  {
    hide Step, Run;
    AfterAfter(Run(st), [], []);
  }

  lemma IdleWaits(key: Key)
    ensures Run(Idle(key, "")) == Waiting([], Fresh(key)) && !HasEdgeLine(Idle(key, ""))
    ensures Settled(Fresh(key))
  {
    assert Find("", BLANK_LINE) == -1;
  }

  // Printing any list of requests and parsing the concatenation gives exactly those requests, in
  // order, and leaves the stream as if nothing had been sent.
  lemma RoundTrip(ms: seq<Message>, key: Key)
    requires forall i | 0 <= i < |ms| :: WellFormed(ms[i], 8192)
    ensures Run(Idle(key, PrintAll(ms))) == Waiting(ExpectedAll(ms, key), Fresh(key))
  {
    hide Step, Expected, Print, WellFormed;
    AllMessages(ms, key, 8192);
    IdleWaits(key);
    assert ExpectedAll(ms, key) + [] == ExpectedAll(ms, key);
  }

  // The same through any cutting of the printed bytes, when no size line has 8192 bytes.
  lemma RoundTripInPieces(ms: seq<Message>, key: Key, pieces: seq<string>)
    requires forall i | 0 <= i < |ms| :: WellFormed(ms[i], 8191)
    requires Concat(pieces) == PrintAll(ms)
    ensures FeedAll(Fresh(key), pieces) == Waiting(ExpectedAll(ms, key), Fresh(key))
  {
    hide Step, Expected, Print, WellFormed, FeedAll;
    AllMessages(ms, key, 8191);
    IdleWaits(key);
    assert ExpectedAll(ms, key) + [] == ExpectedAll(ms, key);
    assert Extend(Fresh(key), PrintAll(ms)) == Idle(key, PrintAll(ms));
    CutIndependence(Fresh(key), pieces);
  }
}
