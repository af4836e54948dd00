// The result of parsing a byte stream does not depend on how the bytes were cut into reads, except
// for chunk-size lines of exactly 8192 bytes.
module HttpCuts {
  import opened Options
  import opened Bytes
  import opened HttpRequests
  import opened HttpStream

  function Extend(st: State, data: string): State {
    st.(buffer := st.buffer + data)
  }

  // ----- one move, with more bytes behind the buffer

  // The line whose length the two limit checks of the chunk-size mode treat differently.
  predicate EdgeMove(st: State) {
    st.mode == ChunkSize && Find(st.buffer, CRLF) == 8192
  }

  // Some chunk-size line met while parsing the buffer has exactly 8192 bytes.
  predicate HasEdgeLine(st: State)
    decreases |st.buffer|, Rank(st.mode)
  {
    StepShrinks(st);
    EdgeMove(st) || (Step(st).Next? && HasEdgeLine(Step(st).state))
  }

  ghost predicate Extends(before: Move, after: Move, d: string) {
    match before
    case Next(st, out) => after == Next(Extend(st, d), out)
    case Stop(out) => after == Stop(out)
    case Wait(st) => after == Step(Extend(st, d))
  }

  lemma PartialRequestExtend(st: State, d: string)
    requires |st.buffer| >= HEADER_LIMIT
    ensures PartialRequest(Extend(st, d)) == PartialRequest(st)
  {
    assert Take(st.buffer + d, HEADER_LIMIT) == Take(st.buffer, HEADER_LIMIT);
  }

  lemma SealIgnoresBuffer(st: State, b: string, request: Request, status: Option<Status>, warning: Option<Warning>)
    ensures Seal(st.(buffer := b), request, false, status, warning) == Seal(st, request, false, status, warning)
  {
  }

  lemma SealExtend(st: State, d: string, fault: Fault)
    requires st.request.Some? || |st.buffer| >= HEADER_LIMIT
    ensures Failure(Extend(st, d), fault) == Failure(st, fault)
  {
    if st.request == None {
      PartialRequestExtend(st, d);
    }
    var request := if st.request.Some? then st.request else PartialRequest(st);
    if request.Some? {
      SealIgnoresBuffer(st, st.buffer + d, request.value,
                        Some(if fault.IsLimit() then Truncated else Malformed), Some(Failed(fault)));
    }
  }

  lemma BadPrefixExtend(s: string, d: string)
    requires BadPrefix(s)
    ensures BadPrefix(s + d)
  {
    FindExtend(s, d, " ");
    var p, q := Partition(s, " ").head, Partition(s + d, " ").head;
    assert p == q[..|p|];
    assert !IsToken(p) ==> exists i :: 0 <= i < |p| && !TokenChar(q[i]);
  }

  // A buffer that is refused for its prefix holds no request line.
  lemma BadPrefixNoRequest(w: string, n: nat)
    requires BadPrefix(w) && n <= |w|
    ensures ParseRequestLine(Partition(w[..n], CRLF).head) == None
  {
    hide IsToken, IsUrl;
    var line := Partition(w[..n], CRLF).head;
    assert line == w[..|line|];
    assert w == line + w[|line|..];
    FindExtend(line, w[|line|..], " ");
    var i := Find(line, " ");
    if 0 <= i {
      assert Find(w, " ") == i && w[..i] == line[..i];
      assert Partition(line, " ").head == Partition(w, " ").head;
    }
  }

  // A buffer refused for its prefix leads to no record when the limit check or the end of the
  // header block refuses it instead.
  lemma BadPrefixSilent(st: State)
    requires st.request == None && BadPrefix(st.buffer)
    ensures Failure(st, HeaderLimit) == []
  {
    BadPrefixUnnamed(st);
  }

  lemma BadPrefixUnnamed(st: State)
    requires BadPrefix(st.buffer)
    ensures PartialRequest(st) == None
  {
    var n := Min(|st.buffer|, HEADER_LIMIT);
    BadPrefixNoRequest(st.buffer, n);
    assert Take(st.buffer, HEADER_LIMIT) == st.buffer[..n];
  }

  lemma BadPrefixNotHttp(b: string, n: nat, key: Key)
    requires BadPrefix(b) && n <= |b|
    ensures Open(b[..n], key) == NotHttp
  {
    BadPrefixNoRequest(b, n);
  }

  lemma OpenHeadersExtend(st: State, d: string)
    requires Valid(st) && st.mode == Headers && Find(st.buffer, BLANK_LINE) < 0
    ensures Extends(StepHeaders(st), StepHeaders(Extend(st, d)), d)
  {
    var b := st.buffer;
    FindExtend(b, d, BLANK_LINE);
    if |b| > HEADER_LIMIT {
      SealExtend(st, d, HeaderLimit);
    } else if BadPrefix(b) {
      BadPrefixExtend(b, d);
      BadPrefixSilent(Extend(st, d));
      if 0 <= Find(b + d, BLANK_LINE) {
        BadPrefixNotHttp(b + d, Find(b + d, BLANK_LINE), st.key);
      }
    }
  }

  lemma HeadersExtend(st: State, d: string)
    requires Valid(st) && st.mode == Headers
    ensures Extends(StepHeaders(st), StepHeaders(Extend(st, d)), d)
  {
    var b := st.buffer;
    var end := Find(b, BLANK_LINE);
    if end < 0 {
      OpenHeadersExtend(st, d);
    } else {
      FindExtend(b, d, BLANK_LINE);
      ClosedHeadersExtend(st, d, end);
    }
  }

  lemma ClosedHeadersExtend(st: State, d: string, end: int)
    requires Valid(st) && st.mode == Headers
    requires 0 <= end && Find(st.buffer, BLANK_LINE) == end && Find(st.buffer + d, BLANK_LINE) == end
    ensures Extends(StepHeaders(st), StepHeaders(Extend(st, d)), d)
  {
    hide Open, Failure;
    var b := st.buffer;
    if end + 4 > HEADER_LIMIT {
      SealExtend(st, d, HeaderLimit);
    } else {
      assert (b + d)[..end] == b[..end] && (b + d)[end + 4..] == b[end + 4..] + d;
      BeginExtend(st.(buffer := b[end + 4..]), Open(b[..end], st.key), d);
    }
  }

  lemma BeginExtend(st: State, opening: Opening, d: string)
    requires Valid(st) && st.mode == Headers
    ensures !Begin(st, opening).Wait?
    ensures Extends(Begin(st, opening), Begin(Extend(st, d), opening), d)
  {
    if opening.Broken? {
      var st' := st.(request := Some(opening.request), contentType := opening.contentType);
      SealExtend(st', d, opening.fault);
      assert Extend(st', d) == Extend(st, d).(request := Some(opening.request), contentType := opening.contentType);
    }
  }

  lemma KeepTwice(body: string, b: string, d: string, n: nat)
    requires |body| <= CAPTURE_LIMIT && n <= |d|
    ensures Keep(Keep(body, b, |b|), d, n) == Keep(body, b + d, |b| + n)
  {
    var kept := Min(|b|, CAPTURE_LIMIT - |body|);
    var kept' := Min(n, CAPTURE_LIMIT - |body + b[..kept]|);
    assert (b + d)[..kept + kept'] == b[..kept] + d[..kept'];
    assert body + (b[..kept] + d[..kept']) == body + b[..kept] + d[..kept'];
  }

  // Two drains in a row keep the bytes one drain keeps.
  lemma DrainTwice(st: State, d: string)
    requires |st.body| <= CAPTURE_LIMIT && |st.buffer| < st.remaining
    ensures Drain(Extend(st, d)) == Drain(Extend(Drain(st), d))
  {
    var b, n := st.buffer, Min(|d|, st.remaining - |st.buffer|);
    assert "" + d == d;
    assert (b + d)[|b| + n..] == d[n..];
    KeepTwice(st.body, b, d, n);
  }

  lemma DrainWhole(st: State, d: string)
    requires |st.body| <= CAPTURE_LIMIT && st.remaining <= |st.buffer|
    ensures Drain(Extend(st, d)) == Extend(Drain(st), d)
  {
    var b, n := st.buffer, st.remaining;
    assert (b + d)[n..] == b[n..] + d;
    var kept := Min(n, CAPTURE_LIMIT - |st.body|);
    assert (b + d)[..kept] == b[..kept];
  }

  lemma DrainExtend(st: State, d: string)
    requires |st.body| <= CAPTURE_LIMIT
    ensures Drain(st).remaining == 0 ==> Drain(Extend(st, d)) == Extend(Drain(st), d)
    ensures Drain(st).remaining > 0 ==> Drain(Extend(st, d)) == Drain(Extend(Drain(st), d))
  {
    if st.remaining <= |st.buffer| {
      DrainWhole(st, d);
    } else {
      DrainTwice(st, d);
    }
  }

  lemma BodiesExtend(st: State, d: string)
    requires Valid(st)
    ensures st.mode == Fixed ==> Extends(StepFixed(st), StepFixed(Extend(st, d)), d)
    ensures st.mode == ChunkData ==> Extends(StepChunkData(st), StepChunkData(Extend(st, d)), d)
  {
    DrainExtend(st, d);
    DrainKeepsMode(st);
    DrainKeepsMode(Extend(st, d));
  }

  lemma DrainKeepsMode(st: State)
    ensures Drain(st).mode == st.mode && Drain(st).request == st.request
  {
  }

  lemma ChunkSizeExtend(st: State, d: string)
    requires Valid(st) && st.mode == ChunkSize && !EdgeMove(Extend(st, d))
    ensures Extends(StepChunkSize(st), StepChunkSize(Extend(st, d)), d)
  {
    var b := st.buffer;
    FindExtend(b, d, CRLF);
    var end := Find(b, CRLF);
    if end < 0 {
      SealExtend(st, d, ChunkLineLimit);
      var end' := Find(b + d, CRLF);
      if 0 <= end' && |b| > 8192 {
        SealExtend(st, (b + d)[end' + 2..], ChunkLineLimit);
        SameFailure(st, (b + d)[end' + 2..], ChunkLineLimit);
      }
    } else {
      assert (b + d)[..end] == b[..end] && (b + d)[end + 2..] == b[end + 2..] + d;
      SealExtend(st.(buffer := b[end + 2..]), d, ChunkLineLimit);
      SealExtend(st.(buffer := b[end + 2..]), d, MalformedChunkSize);
    }
  }

  // With the request known, the record of a failure does not look at the buffer.
  lemma SameFailure(st: State, b: string, fault: Fault)
    requires st.request.Some?
    ensures Failure(st.(buffer := b), fault) == Failure(st, fault)
  {
  }

  lemma ChunkCrlfExtend(st: State, d: string)
    requires Valid(st) && st.mode == ChunkCrlf
    ensures Extends(StepChunkCrlf(st), StepChunkCrlf(Extend(st, d)), d)
  {
    if |st.buffer| >= 2 {
      assert (st.buffer + d)[..2] == st.buffer[..2];
      assert (st.buffer + d)[2..] == st.buffer[2..] + d;
      SealExtend(st, d, MissingChunkTerminator);
    }
  }

  lemma TrailersExtend(st: State, d: string)
    requires Valid(st) && st.mode == Trailers
    ensures Extends(StepTrailers(st), StepTrailers(Extend(st, d)), d)
  {
    hide ParseHeaders, Failure;
    var b := st.buffer;
    if |b| >= 2 {
      AtExtend(b, d, 0, CRLF);
    }
    if At(b, 0, CRLF) {
      assert (b + d)[2..] == b[2..] + d;
    } else {
      FindExtend(b, d, BLANK_LINE);
      var end := Find(b, BLANK_LINE);
      SealExtend(st, d, TrailerLimit);
      if 0 <= end && end + 4 <= HEADER_LIMIT {
        assert (b + d)[..end] == b[..end] && (b + d)[end + 4..] == b[end + 4..] + d;
        TrailerBlockExtend(st, d, ParseHeaders(b[..end]));
      }
    }
  }

  lemma TrailerBlockExtend(st: State, d: string, trailers: Result<seq<Header>>)
    requires st.request.Some?
    ensures trailers.Raised? ==> Failure(Extend(st, d), trailers.fault) == Failure(st, trailers.fault)
    ensures trailers.Ok? ==>
      var request := Some(st.request.value.(trailers := Some(trailers.value)));
      Failure(Extend(st, d).(request := request), FramingInTrailers)
      == Failure(st.(request := request), FramingInTrailers)
  {
  }

  lemma StepExtend(st: State, d: string)
    requires Valid(st) && !EdgeMove(Extend(st, d))
    ensures Extends(Step(st), Step(Extend(st, d)), d)
  {
    match st.mode
    case Headers => HeadersExtend(st, d);
    case Fixed => BodiesExtend(st, d);
    case ChunkSize => ChunkSizeExtend(st, d);
    case ChunkData => BodiesExtend(st, d);
    case ChunkCrlf => ChunkCrlfExtend(st, d);
    case Trailers => TrailersExtend(st, d);
  }

  // ----- whole runs

  lemma AfterAfter(o: Outcome, a: seq<Record>, b: seq<Record>)
    ensures o.After(b).After(a) == o.After(a + b)
    ensures o.After([]) == o
  {
    assert a + (b + o.out) == (a + b) + o.out;
    assert [] + o.out == o.out;
  }

  lemma ExtendNothing(st: State)
    ensures Extend(st, "") == st
  {
    assert st.buffer + "" == st.buffer;
  }

  lemma ExtendTwice(st: State, a: string, b: string)
    ensures Extend(Extend(st, a), b) == Extend(st, a + b)
  {
    assert st.buffer + a + b == st.buffer + (a + b);
  }

  // Parsing what has arrived and then the rest is parsing everything at once.
  lemma {:induction false} RunExtend(st: State, d: string)
    requires Valid(st) && !HasEdgeLine(Extend(st, d))
    ensures match Run(st)
            case Rejected(out) => Run(Extend(st, d)) == Rejected(out)
            case Waiting(out, st') =>
              Run(Extend(st, d)) == Run(Extend(st', d)).After(out) && !HasEdgeLine(Extend(st', d))
    decreases |st.buffer|, Rank(st.mode)
  {
    StepExtend(st, d);
    StepShrinks(st);
    StepKeepsValid(st);
    match Step(st)
    case Stop(out) =>
    case Wait(st') =>
      WaitExtend(st, d);
      AfterAfter(Run(Extend(st', d)), [], []);
    case Next(st', out) =>
      RunExtend(st', d);
      if Run(st').Waiting? {
        AfterAfter(Run(Extend(Run(st').state, d)), out, Run(st').out);
      }
  }

  lemma WaitExtend(st: State, d: string)
    requires Valid(st) && !HasEdgeLine(Extend(st, d)) && Step(st).Wait?
    ensures Run(Extend(st, d)) == Run(Extend(Step(st).state, d))
    ensures !HasEdgeLine(Extend(Step(st).state, d))
  {
    StepExtend(st, d);
    WaitKeepsMode(st);
  }

  lemma WaitKeepsMode(st: State)
    requires Valid(st) && Step(st).Wait?
    ensures Step(st).state.mode == st.mode
    ensures st.mode != Fixed && st.mode != ChunkData ==> Step(st).state == st
    ensures Step(Step(st).state) == Step(st)
  {
    if st.mode == Fixed || st.mode == ChunkData {
      DrainAgain(st);
    } else if st.mode == Headers {
      HeadersWait(st);
    } else if st.mode == Trailers {
      TrailersWait(st);
    }
  }

  lemma DrainAgain(st: State)
    requires Valid(st) && Drain(st).remaining > 0
    ensures Drain(Drain(st)) == Drain(st) && Drain(st).mode == st.mode
  {
    DrainKeepsMode(st);
    var st' := Drain(st);
    assert st'.buffer == "" && Keep(st'.body, "", 0) == st'.body;
  }

  lemma HeadersWait(st: State)
    requires st.mode == Headers && StepHeaders(st).Wait?
    ensures StepHeaders(st).state == st
  {
  }

  lemma TrailersWait(st: State)
    requires st.mode == Trailers && StepTrailers(st).Wait?
    ensures StepTrailers(st).state == st
  {
  }

  // A state in which nothing happens until more bytes arrive.
  ghost predicate Settled(st: State) {
    Valid(st) && Step(st) == Wait(st)
  }

  lemma {:induction false} RunSettles(st: State)
    requires Valid(st)
    ensures Run(st).Waiting? ==> Settled(Run(st).state)
    decreases |st.buffer|, Rank(st.mode)
  {
    StepShrinks(st);
    StepKeepsValid(st);
    match Step(st)
    case Stop(_) =>
    case Wait(_) => WaitKeepsMode(st);
    case Next(st', _) => RunSettles(st');
  }

  function Concat(pieces: seq<string>): string {
    if pieces == [] then "" else pieces[0] + Concat(pieces[1..])
  }

  // Successive reads of one stream, ending with the first one that is rejected.
  function FeedAll(st: State, pieces: seq<string>): Outcome
    decreases |pieces|
  {
    if pieces == [] then Waiting([], st)
    else
      match Run(Extend(st, pieces[0]))
      case Rejected(out) => Rejected(out)
      case Waiting(out, st') => FeedAll(st', pieces[1..]).After(out)
  }

  // The same records, the same verdict and the same state for every cutting of the same bytes.
  lemma {:induction false} CutIndependence(st: State, pieces: seq<string>)
    requires Settled(st) && !HasEdgeLine(Extend(st, Concat(pieces)))
    ensures FeedAll(st, pieces) == Run(Extend(st, Concat(pieces)))
    decreases |pieces|
  {
    if pieces == [] {
      ExtendNothing(st);
    } else {
      var first, rest := pieces[0], pieces[1..];
      ExtendTwice(st, first, Concat(rest));
      ValidExtend(st, first);
      RunExtend(Extend(st, first), Concat(rest));
      RunSettles(Extend(st, first));
      if Run(Extend(st, first)).Waiting? {
        CutIndependence(Run(Extend(st, first)).state, rest);
      }
    }
  }

  lemma ValidExtend(st: State, d: string)
    requires Valid(st)
    ensures Valid(Extend(st, d))
  {
  }
}
