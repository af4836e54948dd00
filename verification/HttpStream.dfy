// One direction of an HTTP/1.x byte stream: the state the capture keeps for it and the moves of its
// mode-driven parser, as a function of that state.
module HttpStream {
  import opened Options
  import opened Bytes
  import opened HttpRequests

  datatype Mode = Headers | Fixed | ChunkSize | ChunkData | ChunkCrlf | Trailers

  datatype State = State(
    key: Key, buffer: string, request: Option<Request>, body: string, bodySeen: nat,
    mode: Mode, remaining: nat, expected: Option<nat>, contentType: string)

  datatype Status = Complete | Incomplete | Truncated | Malformed

  // The bytes kept of a body. `contentType` decides which decoded forms the program adds.
  datatype Body = Body(data: string, total: Option<nat>, truncated: bool, status: Status, contentType: string)

  datatype Record = Record(request: Request, body: Body, complete: bool)

  // ----- records

  function BodyRecord(data: string, total: nat, contentType: string, status: Status): Body {
    var captured := Take(data, CAPTURE_LIMIT);
    var size := if total < |data| then |data| else total;
    var truncated := size > |captured| || status == Truncated;
    Body(captured, Some(size), truncated, if truncated && status == Complete then Truncated else status, contentType)
  }

  // The request named by a header block that is not complete yet.
  function PartialRequest(st: State): Option<Request> {
    var p := Partition(Take(st.buffer, HEADER_LIMIT), CRLF);
    if !p.found then None
    else
      match ParseRequestLine(p.head)
      case None => None
      case Some(line) =>
        var lines := Split(p.tail, CRLF);
        Some(Request(line, ReadableHeaders(lines[..|lines| - 1]), None, [HeadersIncomplete], st.key))
  }

  function Seal(st: State, request: Request, complete: bool, status: Option<Status>, warning: Option<Warning>): Record {
    var total := if st.expected.Some? then st.expected.value else st.bodySeen;
    var final :=
      if status.Some? then status.value
      else if st.bodySeen > CAPTURE_LIMIT then Truncated
      else if complete then Complete else Incomplete;
    var full := BodyRecord(st.body, total, st.contentType, final);
    var body := if !complete && st.expected == None then full.(total := None) else full;
    var warned := request.warnings + (if warning.Some? then [warning.value] else []);
    var warnings := warned + (if body.truncated && BodyLimit !in warned && total > CAPTURE_LIMIT then [BodyLimit] else []);
    Record(request.(warnings := warnings), body, complete && body.status == Complete)
  }

  // At most one record, as a sequence that is appended to the results.
  function Finish(st: State, complete: bool, status: Option<Status>, warning: Option<Warning>): seq<Record> {
    match (if st.request.Some? then st.request else PartialRequest(st))
    case None => []
    case Some(request) => [Seal(st, request, complete, status, warning)]
  }

  function Failure(st: State, fault: Fault): seq<Record> {
    Finish(st, false, Some(if fault.IsLimit() then Truncated else Malformed), Some(Failed(fault)))
  }

  // ----- one move of the parser

  datatype Move =
    | Wait(state: State)                      // more bytes are needed
    | Next(state: State, out: seq<Record>)    // go round the loop again
    | Stop(out: seq<Record>)                  // the stream is given up

  // The body after `count` more bytes of it, of which only those within the capture limit are kept.
  function Keep(body: string, buffer: string, count: nat): string
    requires count <= |buffer|
  {
    if |body| <= CAPTURE_LIMIT then body + buffer[..Min(count, CAPTURE_LIMIT - |body|)] else body
  }

  function TakeBody(st: State, count: nat): State
    requires count <= |st.buffer|
  {
    st.(body := Keep(st.body, st.buffer, count),
        buffer := st.buffer[count..],
        bodySeen := st.bodySeen + count)
  }

  function Fresh(key: Key): State {
    State(key, "", None, "", 0, Headers, 0, None, "")
  }

  function Completed(st: State): State {
    st.(request := None, body := "", bodySeen := 0, mode := Headers, expected := None, contentType := "")
  }

  // The bytes before the first space cannot begin a request.
  predicate BadPrefix(buffer: string) {
    var prefix := Partition(buffer, " ").head;
    prefix != "" && (|prefix| > 32 || !IsToken(prefix))
  }

  // The header block has been removed from the buffer and read as `opening`.
  function Begin(st: State, opening: Opening): Move {
    match opening
    case NotHttp => Stop([])
    case Broken(request, contentType, fault) =>
      Stop(Failure(st.(request := Some(request), contentType := contentType), fault))
    case Opened(request, contentType, framing) =>
      var st' := st.(request := Some(request), contentType := contentType);
      match framing
      case FixedLength(n) => Next(st'.(expected := Some(n), remaining := n, mode := Fixed), [])
      case ChunkedCoding => Next(st'.(mode := ChunkSize), [])
  }

  function StepHeaders(st: State): Move {
    var end := Find(st.buffer, BLANK_LINE);
    if end < 0 then
      if |st.buffer| > HEADER_LIMIT then Stop(Failure(st, HeaderLimit))
      else if BadPrefix(st.buffer) then Stop([])
      else Wait(st)
    else if end + 4 > HEADER_LIMIT then Stop(Failure(st, HeaderLimit))
    else Begin(st.(buffer := st.buffer[end + 4..]), Open(st.buffer[..end], st.key))
  }

  // Move what the buffer holds of the current body or chunk.
  function Drain(st: State): State {
    var count := Min(|st.buffer|, st.remaining);
    TakeBody(st, count).(remaining := st.remaining - count)
  }

  function StepFixed(st: State): Move {
    var st' := Drain(st);
    if st'.remaining > 0 then Wait(st')
    else Next(Completed(st'), Finish(st', true, None, None))
  }

  function StepChunkSize(st: State): Move {
    var end := Find(st.buffer, CRLF);
    if end < 0 then
      if |st.buffer| > 8192 then Stop(Failure(st, ChunkLineLimit)) else Wait(st)
    else
      var rest := st.(buffer := st.buffer[end + 2..]);
      var size := Partition(st.buffer[..end], ";").head;
      if end > 8192 then Stop(Failure(rest, ChunkLineLimit))
      else if !IsHex(size) then Stop(Failure(rest, MalformedChunkSize))
      else
        var n := Number(size, 16);
        Next(rest.(remaining := n, mode := if n > 0 then ChunkData else Trailers), [])
  }

  function StepChunkData(st: State): Move {
    var st' := Drain(st);
    if st'.remaining > 0 then Wait(st') else Next(st'.(mode := ChunkCrlf), [])
  }

  function StepChunkCrlf(st: State): Move {
    if |st.buffer| < 2 then Wait(st)
    else if st.buffer[..2] != CRLF then Stop(Failure(st, MissingChunkTerminator))
    else Next(st.(buffer := st.buffer[2..], mode := ChunkSize), [])
  }

  predicate ForbiddenTrailer(h: Header) {
    Lower(h.name) == "content-length" || Lower(h.name) == "transfer-encoding"
  }

  function StepTrailers(st: State): Move {
    if At(st.buffer, 0, CRLF) then
      var st' := st.(buffer := st.buffer[2..]);
      Next(Completed(st'), Finish(st', true, None, None))
    else
      var end := Find(st.buffer, BLANK_LINE);
      if end < 0 then
        if |st.buffer| > HEADER_LIMIT then Stop(Failure(st, TrailerLimit)) else Wait(st)
      else if end + 4 > HEADER_LIMIT then Stop(Failure(st, TrailerLimit))
      else
        match ParseHeaders(st.buffer[..end])
        case Raised(fault) => Stop(Failure(st, fault))
        case Ok(trailers) =>
          var st' := if st.request.Some? then st.(request := Some(st.request.value.(trailers := Some(trailers)))) else st;
          if exists i | 0 <= i < |trailers| :: ForbiddenTrailer(trailers[i]) then Stop(Failure(st', FramingInTrailers))
          else
            var st'' := st'.(buffer := st.buffer[end + 4..]);
            Next(Completed(st''), Finish(st'', true, None, None))
  }

  function Step(st: State): Move {
    match st.mode
    case Headers => StepHeaders(st)
    case Fixed => StepFixed(st)
    case ChunkSize => StepChunkSize(st)
    case ChunkData => StepChunkData(st)
    case ChunkCrlf => StepChunkCrlf(st)
    case Trailers => StepTrailers(st)
  }

  // ----- running until more bytes are needed

  datatype Outcome = Waiting(out: seq<Record>, state: State) | Rejected(out: seq<Record>) {
    function After(before: seq<Record>): Outcome {
      match this
      case Waiting(out, st) => Waiting(before + out, st)
      case Rejected(out) => Rejected(before + out)
    }
  }

  function Rank(mode: Mode): nat {
    if mode == Fixed || mode == ChunkData then 1 else 0
  }

  predicate Shrinks(st: State, m: Move) {
    m.Next? ==>
      |m.state.buffer| < |st.buffer|
      || (|m.state.buffer| == |st.buffer| && Rank(m.state.mode) < Rank(st.mode))
  }

  lemma HeadersShrink(st: State)
    requires st.mode == Headers
    ensures Shrinks(st, StepHeaders(st))
  {
  }

  lemma TrailersShrink(st: State)
    requires st.mode == Trailers
    ensures Shrinks(st, StepTrailers(st))
  {
  }

  // Every move that goes round the loop consumes bytes or leaves a body mode.
  lemma StepShrinks(st: State)
    ensures Shrinks(st, Step(st))
  {
    match st.mode
    case Headers => HeadersShrink(st);
    case Fixed =>
    case ChunkSize =>
    case ChunkData =>
    case ChunkCrlf =>
    case Trailers => TrailersShrink(st);
  }

  function Run(st: State): Outcome
    decreases |st.buffer|, Rank(st.mode)
  {
    StepShrinks(st);
    match Step(st)
    case Wait(st') => Waiting([], st')
    case Stop(out) => Rejected(out)
    case Next(st', out) => Run(st').After(out)
  }

  // ----- what holds of every state the parser reaches

  ghost predicate Valid(st: State) {
    && (st.mode == Headers <==> st.request == None)
    && |st.body| == Min(st.bodySeen, CAPTURE_LIMIT)
    && (st.mode == Fixed ==> st.expected == Some(st.bodySeen + st.remaining))
    && (st.mode != Fixed ==> st.expected == None)
    && (st.mode == ChunkData ==> st.remaining > 0)
    && (st.mode != Fixed && st.mode != ChunkData ==> st.remaining == 0)
    && (st.mode == Headers ==> st == Fresh(st.key).(buffer := st.buffer))
    && (st.request.Some? ==> st.request.value.stream == st.key)
  }

  ghost predicate KeepsValid(st: State, m: Move) {
    !m.Stop? ==> Valid(m.state) && m.state.key == st.key
  }

  lemma DrainKeepsValid(st: State)
    requires Valid(st) && (st.mode == Fixed || st.mode == ChunkData)
    ensures Drain(st).remaining > 0 ==> Valid(Drain(st))
    ensures |Drain(st).body| == Min(Drain(st).bodySeen, CAPTURE_LIMIT)
    ensures Drain(st).bodySeen + Drain(st).remaining == st.bodySeen + st.remaining
  {
  }

  lemma OpenStream(block: string, key: Key)
    ensures !Open(block, key).NotHttp? ==> Open(block, key).request.stream == key
  {
    hide ParseHeaders, ParseRequestLine, FramingOf;
  }

  lemma BeginKeepsValid(st: State, opening: Opening)
    requires Valid(st) && st.mode == Headers
    requires !opening.NotHttp? ==> opening.request.stream == st.key
    ensures KeepsValid(st, Begin(st, opening))
  {
  }

  lemma HeadersKeepValid(st: State)
    requires Valid(st) && st.mode == Headers
    ensures KeepsValid(st, StepHeaders(st))
  {
    hide Open, Begin, Find, Failure, BadPrefix;
    var end := Find(st.buffer, BLANK_LINE);
    if 0 <= end && end + 4 <= HEADER_LIMIT {
      OpenStream(st.buffer[..end], st.key);
      BeginKeepsValid(st.(buffer := st.buffer[end + 4..]), Open(st.buffer[..end], st.key));
    }
  }

  lemma BodiesKeepValid(st: State)
    requires Valid(st)
    ensures st.mode == Fixed ==> KeepsValid(st, StepFixed(st))
    ensures st.mode == ChunkData ==> KeepsValid(st, StepChunkData(st))
  {
    if st.mode == Fixed || st.mode == ChunkData {
      DrainKeepsValid(st);
    }
  }

  lemma TrailersKeepValid(st: State)
    requires Valid(st) && st.mode == Trailers
    ensures KeepsValid(st, StepTrailers(st))
  {
  }

  lemma StepKeepsValid(st: State)
    requires Valid(st)
    ensures KeepsValid(st, Step(st))
  {
    match st.mode
    case Headers => HeadersKeepValid(st);
    case Fixed => BodiesKeepValid(st);
    case ChunkSize =>
    case ChunkData => BodiesKeepValid(st);
    case ChunkCrlf =>
    case Trailers => TrailersKeepValid(st);
  }

  lemma {:induction false} RunKeepsValid(st: State)
    requires Valid(st)
    ensures Run(st).Waiting? ==> Valid(Run(st).state) && Run(st).state.key == st.key
    decreases |st.buffer|, Rank(st.mode)
  {
    StepKeepsValid(st);
    StepShrinks(st);
    if Step(st).Next? {
      RunKeepsValid(Step(st).state);
    }
  }
}
