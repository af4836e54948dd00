// Exactly when the result of parsing depends on the cuts: when a chunk-size line has 8192 bytes.
module HttpEdge {
  import opened Options
  import opened Bytes
  import opened HttpRequests
  import opened HttpStream
  import opened HttpCuts
  import opened HttpPrint
  import opened HttpRoundTrip

  // However any beginning of the stream is cut, the outcome is the same.
  ghost predicate CutIndependent(st: State, s: string) {
    forall n: nat, a: seq<string>, b: seq<string> ::
      n <= |s| && Concat(a) == s[..n] && Concat(b) == s[..n] ==> FeedAll(st, a) == FeedAll(st, b)
  }

  lemma EdgeMoveExtend(st: State, d: string)
    requires EdgeMove(st)
    ensures EdgeMove(Extend(st, d))
  {
    FindExtend(st.buffer, d, CRLF);
  }

  lemma {:induction false} EdgeLineExtend(st: State, d: string)
    requires Valid(st) && HasEdgeLine(st)
    ensures HasEdgeLine(Extend(st, d))
    decreases |st.buffer|, Rank(st.mode)
  {
    if EdgeMove(st) {
      EdgeMoveExtend(st, d);
    } else if !EdgeMove(Extend(st, d)) {
      StepExtend(st, d);
      StepShrinks(st);
      StepKeepsValid(st);
      EdgeLineExtend(Step(st).state, d);
    }
  }

  // ----- the moves made while only the bytes up to the end of the long line are there

  function Cut(st: State, n: nat): State
    requires n <= |st.buffer|
  {
    st.(buffer := st.buffer[..n])
  }

  lemma CutRestores(st: State, n: nat)
    requires n <= |st.buffer|
    ensures Extend(Cut(st, n), st.buffer[n..]) == st
  {
    assert st.buffer[..n] + st.buffer[n..] == st.buffer;
  }

  lemma FindInPrefix(s: string, n: nat, pat: string)
    requires n <= |s| && 0 <= Find(s, pat) && Find(s, pat) + |pat| <= n
    ensures Find(s[..n], pat) == Find(s, pat)
  {
    assert s[..n] + s[n..] == s;
    FindExtend(s[..n], s[n..], pat);
    AtExtend(s[..n], s[n..], Find(s, pat), pat);
  }

  // A move that goes on needs only the bytes it consumes.
  lemma StepPrefix(st: State, n: nat)
    requires Valid(st) && Step(st).Next? && n <= |st.buffer|
    requires |st.buffer| - |Step(st).state.buffer| <= n
    ensures Step(Cut(st, n)).Next?
  {
    match st.mode
    case Headers => HeadersPrefix(st, n);
    case Fixed =>
    case ChunkSize => FindInPrefix(st.buffer, n, CRLF);
      assert st.buffer[..n][..Find(st.buffer, CRLF)] == st.buffer[..Find(st.buffer, CRLF)];
    case ChunkData =>
    case ChunkCrlf => assert st.buffer[..n][..2] == st.buffer[..2];
    case Trailers => TrailersPrefix(st, n);
  }

  lemma HeadersPrefix(st: State, n: nat)
    requires Valid(st) && st.mode == Headers && StepHeaders(st).Next? && n <= |st.buffer|
    requires |st.buffer| - |StepHeaders(st).state.buffer| <= n
    ensures StepHeaders(Cut(st, n)).Next?
  {
    hide Open, Failure;
    var end := Find(st.buffer, BLANK_LINE);
    FindInPrefix(st.buffer, n, BLANK_LINE);
    assert st.buffer[..n][..end] == st.buffer[..end];
  }

  lemma TrailersPrefix(st: State, n: nat)
    requires Valid(st) && st.mode == Trailers && StepTrailers(st).Next? && n <= |st.buffer|
    requires |st.buffer| - |StepTrailers(st).state.buffer| <= n
    ensures StepTrailers(Cut(st, n)).Next?
  {
    hide ParseHeaders, Failure, Finish, ForbiddenTrailer, Find;
    assert st.buffer[..n] + st.buffer[n..] == st.buffer;
    AtExtend(st.buffer[..n], st.buffer[n..], 0, CRLF);
    if !At(st.buffer, 0, CRLF) {
      SomeTrailersPrefix(st, n);
    }
  }

  lemma SomeTrailersPrefix(st: State, n: nat)
    requires Valid(st) && st.mode == Trailers && StepTrailers(st).Next? && n <= |st.buffer|
    requires |st.buffer| - |StepTrailers(st).state.buffer| <= n
    requires !At(st.buffer, 0, CRLF) && !At(st.buffer[..n], 0, CRLF)
    ensures StepTrailers(Cut(st, n)).Next?
  {
    hide ParseHeaders, Failure, Finish, ForbiddenTrailer, Find;
    var end := Find(st.buffer, BLANK_LINE);
    FindInPrefix(st.buffer, n, BLANK_LINE);
    assert st.buffer[..n][..end] == st.buffer[..end];
  }

  // The bytes before the terminator of the first long line, and what parsing them leads to: a
  // chunk-size mode that holds the whole line and waits.
  lemma {:induction false} EdgeSplit(st: State) returns (m: nat, out: seq<Record>, held: State)
    requires Valid(st) && HasEdgeLine(st)
    ensures m + 2 <= |st.buffer| && st.buffer[m..m + 2] == CRLF
    ensures Run(Cut(st, m)) == Waiting(out, held)
    ensures Valid(held) && held.mode == ChunkSize && |held.buffer| == 8192
    ensures Find(held.buffer + CRLF, CRLF) == 8192
    decreases |st.buffer|, Rank(st.mode)
  {
    hide Step, Valid, Run;
    if EdgeMove(st) {
      m, out, held := 8192, [], Cut(st, 8192);
      EdgeHere(st);
    } else {
      StepShrinks(st);
      StepKeepsValid(st);
      var next := Step(st).state;
      var m', out', held' := EdgeSplit(next);
      m, out, held := |st.buffer| - |next.buffer| + m', Step(st).out + out', held';
      EdgeFurther(st, m', out', held');
    }
  }

  lemma EdgeFurther(st: State, n: nat, out: seq<Record>, held: State)
    requires Valid(st) && !EdgeMove(st) && Step(st).Next? && n + 2 <= |Step(st).state.buffer|
    requires Run(Cut(Step(st).state, n)) == Waiting(out, held)
    ensures var m := |st.buffer| - |Step(st).state.buffer| + n;
      && 0 <= m && m + 2 <= |st.buffer|
      && st.buffer[m..m + 2] == Step(st).state.buffer[n..n + 2]
      && Run(Cut(st, m)) == Waiting(Step(st).out + out, held)
  {
    hide Step, Valid;
    EdgeStep(st, n);
    var next := Step(st).state;
    var m := |st.buffer| - |next.buffer| + n;
    assert st.buffer[m..m + 2] == st.buffer[m..][..2] && next.buffer[n..n + 2] == next.buffer[n..][..2];
  }

  // One move, with the buffer cut some bytes after what the move consumes.
  lemma EdgeStep(st: State, n: nat)
    requires Valid(st) && !EdgeMove(st) && Step(st).Next? && n <= |Step(st).state.buffer|
    ensures var m := |st.buffer| - |Step(st).state.buffer| + n;
      && 0 <= m <= |st.buffer|
      && Step(Cut(st, m)) == Next(Cut(Step(st).state, n), Step(st).out)
      && st.buffer[m..] == Step(st).state.buffer[n..]
  {
    var next := Step(st).state;
    StepSuffix(st);
    var k := |st.buffer| - |next.buffer|;
    var m := k + n;
    StepPrefix(st, m);
    CutRestores(st, m);
    StepExtend(Cut(st, m), st.buffer[m..]);
    assert st.buffer[m..] == next.buffer[n..];
    CutUnique(Step(Cut(st, m)).state, next, n);
  }

  lemma CutUnique(cut: State, st: State, n: nat)
    requires n <= |st.buffer| && Extend(cut, st.buffer[n..]) == st
    ensures cut == Cut(st, n)
  {
    assert cut.buffer == st.buffer[..n];
  }

  lemma EdgeHere(st: State)
    requires Valid(st) && EdgeMove(st)
    ensures |st.buffer| >= 8194 && Step(Cut(st, 8192)) == Wait(Cut(st, 8192))
    ensures Run(Cut(st, 8192)) == Waiting([], Cut(st, 8192)) && Valid(Cut(st, 8192))
    ensures Find(st.buffer[..8192] + CRLF, CRLF) == 8192
    ensures st.buffer[8192..8194] == CRLF
  {
    var b := st.buffer;
    assert b[..8192] + b[8192..] == b;
    FindExtend(b[..8192], b[8192..], CRLF);
    assert b[..8194] == b[..8192] + CRLF;
    FindInPrefix(b, 8194, CRLF);
  }

  // A move leaves a suffix of the buffer.
  lemma StepSuffix(st: State)
    ensures Step(st).Next? ==>
      var k := |st.buffer| - |Step(st).state.buffer|;
      0 <= k && Step(st).state.buffer == st.buffer[k..]
  {
    match st.mode
    case Headers => HeadersSuffix(st);
    case Fixed =>
    case ChunkSize =>
    case ChunkData =>
    case ChunkCrlf =>
    case Trailers => TrailersSuffix(st);
  }

  lemma HeadersSuffix(st: State)
    requires st.mode == Headers
    ensures StepHeaders(st).Next? ==>
      StepHeaders(st).state.buffer == st.buffer[Find(st.buffer, BLANK_LINE) + 4..]
  {
    hide Open, Failure, BadPrefix, Find;
  }

  lemma TrailersSuffix(st: State)
    requires st.mode == Trailers
    ensures StepTrailers(st).Next? ==>
      var k := |st.buffer| - |StepTrailers(st).state.buffer|;
      0 <= k && StepTrailers(st).state.buffer == st.buffer[k..]
  {
    hide ParseHeaders, Failure, Finish, ForbiddenTrailer;
  }

  // ----- the two cuttings that disagree

  lemma HeldOutcomes(held: State)
    requires Valid(held) && held.mode == ChunkSize && |held.buffer| == 8192
    requires Find(held.buffer + CRLF, CRLF) == 8192
    ensures Run(Extend(held, "\r")) == Rejected(Failure(held, ChunkLineLimit))
    ensures Run(Extend(held, CRLF)) != Rejected(Failure(held, ChunkLineLimit))
  {
    var b := held.buffer;
    assert b + CRLF == (b + "\r") + "\n";
    FindExtend(b + "\r", "\n", CRLF);
    SameFailure(held, b + "\r", ChunkLineLimit);
    WholeLine(Extend(held, CRLF));
    SameFailure(held, "", ChunkLineLimit);
    FailuresDiffer(held.(buffer := ""));
  }

  lemma FailuresDiffer(st: State)
    requires st.request.Some?
    ensures Failure(st, MalformedChunkSize) != Failure(st, ChunkLineLimit)
  {
    assert Failure(st, MalformedChunkSize)[0].body.status == Malformed;
    assert Failure(st, ChunkLineLimit)[0].body.status == Truncated;
  }

  // With both bytes of the terminator there, the line is read: it is malformed, or its chunk waits.
  lemma WholeLine(st: State)
    requires Valid(st) && EdgeMove(st) && |st.buffer| == 8194
    ensures Run(st).Waiting? || Run(st) == Rejected(Failure(st.(buffer := ""), MalformedChunkSize))
  {
    var rest := st.(buffer := "");
    assert st.buffer[8194..] == "";
    if Step(st).Next? {
      assert Step(Step(st).state).Wait?;
    }
  }

  lemma ConcatTwo(a: string, b: string)
    ensures Concat([a, b]) == a + b
  {
    assert [a, b][1..] == [b] && b + "" == b;
    assert [b][1..] == [] && Concat([b]) == b;
  }

  lemma FeedTwo(st: State, a: string, b: string, out: seq<Record>, mid: State)
    requires Run(Extend(st, a)) == Waiting(out, mid)
    ensures FeedAll(st, [a, b]) == Run(Extend(mid, b)).After(out)
  {
    hide Step;
    assert [a, b][1..] == [b] && [b][1..] == [];
    match Run(Extend(mid, b))
    case Rejected(_) =>
    case Waiting(last, st') =>
      assert FeedAll(st', []) == Waiting([], st');
      assert last + [] == last;
      assert FeedAll(mid, [b]) == Waiting(last, st');
  }

  lemma AfterInjective(a: Outcome, b: Outcome, out: seq<Record>)
    requires a.After(out) == b.After(out)
    ensures a == b
  {
    assert a.out == (out + a.out)[|out|..] && b.out == (out + b.out)[|out|..];
  }

  lemma FeedThree(st: State, a: string, b: string, c: string, out: seq<Record>, mid: State)
    requires Run(Extend(st, a)) == Waiting(out, mid) && Run(Extend(mid, b)).Rejected?
    ensures FeedAll(st, [a, b, c]) == Run(Extend(mid, b)).After(out)
  {
    hide Step;
    assert [a, b, c][1..] == [b, c];
  }

  lemma EdgeDepends(key: Key, s: string)
    requires HasEdgeLine(Fresh(key).(buffer := s))
    ensures !CutIndependent(Fresh(key), s)
  {
    hide Step, Run, FeedAll, HasEdgeLine;
    var st, w := Fresh(key), Fresh(key).(buffer := s);
    var m, out, held := EdgeSplit(w);
    var line := s[..m];
    assert Extend(st, line) == Cut(w, m);
    TwoCuts(st, line, out, held);
    assert s[..m + 2] == line + CRLF;
    ConcatTwo(line, CRLF);
    ConcatThree(line);
  }

  lemma ConcatThree(line: string)
    ensures Concat([line, "\r", "\n"]) == line + CRLF
  {
    assert [line, "\r", "\n"][1..] == ["\r", "\n"];
    ConcatTwo("\r", "\n");
  }

  lemma TwoCuts(st: State, line: string, out: seq<Record>, held: State)
    requires Run(Extend(st, line)) == Waiting(out, held)
    requires Valid(held) && held.mode == ChunkSize && |held.buffer| == 8192
    requires Find(held.buffer + CRLF, CRLF) == 8192
    ensures FeedAll(st, [line, CRLF]) != FeedAll(st, [line, "\r", "\n"])
  {
    hide Step, Run, FeedAll;
    HeldOutcomes(held);
    FeedTwo(st, line, CRLF, out, held);
    FeedThree(st, line, "\r", "\n", out, held);
    if FeedAll(st, [line, CRLF]) == FeedAll(st, [line, "\r", "\n"]) {
      AfterInjective(Run(Extend(held, CRLF)), Run(Extend(held, "\r")), out);
    }
  }

  // The outcome is the same for every cutting of every beginning of the stream, if and only if no
  // chunk-size line has exactly 8192 bytes.
  lemma CutIndependentIff(key: Key, s: string)
    ensures CutIndependent(Fresh(key), s) <==> !HasEdgeLine(Fresh(key).(buffer := s))
  {
    hide Step;
    var st, w := Fresh(key), Fresh(key).(buffer := s);
    if HasEdgeLine(w) {
      EdgeDepends(key, s);
    } else {
      FreshSettled(key);
      forall n: nat, a: seq<string>, b: seq<string> | n <= |s| && Concat(a) == s[..n] && Concat(b) == s[..n]
        ensures FeedAll(st, a) == FeedAll(st, b)
      {
        assert Extend(st, s[..n]) == Cut(w, n);
        CutRestores(w, n);
        if HasEdgeLine(Cut(w, n)) {
          EdgeLineExtend(Cut(w, n), s[n..]);
        }
        CutIndependence(st, a);
        CutIndependence(st, b);
      }
    }
  }

  lemma FreshSettled(key: Key)
    ensures Settled(Fresh(key))
  {
    assert Find("", BLANK_LINE) == -1;
  }

  // ----- such streams exist

  // A printed request whose last chunk-size line has 8192 bytes, whatever follows it.
  lemma LongLineMet(m: Message, key: Key, rest: string)
    requires WellFormed(m, 8192) && m.payload.Chunked? && m.payload.chunks == []
    requires |SizeLine(0, m.payload.lastExtension)| == 8192
    ensures HasEdgeLine(Idle(key, Print(m) + rest))
    ensures !CutIndependent(Fresh(key), Print(m) + rest)
  {
    hide Step, PrintBlock, PrintTrailers, SizeLine;
    var line, tail := SizeLine(0, m.payload.lastExtension), PrintTrailers(m.payload.trailers) + rest;
    HeadersStep(m, key, line + CRLF + tail, 8192);
    assert "" + (line + CRLF + PrintTrailers(m.payload.trailers)) == line + CRLF + PrintTrailers(m.payload.trailers);
    assert Print(m) + rest == PrintBlock(m) + BLANK_LINE + (line + CRLF + tail);
    var st := AfterHeaders(m, key, line + CRLF + tail);
    LineIsEdge(st, 0, m.payload.lastExtension, tail);
    EdgeDepends(key, Print(m) + rest);
  }

  lemma LineIsEdge(st: State, n: nat, extension: string, rest: string)
    requires st.mode == ChunkSize && st.buffer == SizeLine(n, extension) + CRLF + rest
    requires WellFormedExtension(extension) && |SizeLine(n, extension)| == 8192
    ensures HasEdgeLine(st)
  {
    hide Step, SizeLine;
    SizeLineBytes(n, extension);
    PartitionFirst(SizeLine(n, extension), CRLF, rest);
  }

  // GET / with the last chunk "0;aa..." of 8192 bytes.
  function LongLine(extension: string): Message {
    Message(RequestLine("GET", "/", "HTTP/1.1"), [], Chunked([], extension, []))
  }

  lemma LongLineExists(key: Key, rest: string)
    ensures exists e :: WellFormed(LongLine(e), 8192) && HasEdgeLine(Idle(key, Print(LongLine(e)) + rest))
  {
    hide HasEdgeLine, PrintBlock, Print;
    var e := seq(8191, i => if i == 0 then ';' else 'a');
    LongLineWellFormed(e);
    LongLineMet(LongLine(e), key, rest);
  }

  lemma LongLineWellFormed(e: string)
    requires |e| == 8191 && WellFormedExtension(e)
    ensures WellFormed(LongLine(e), 8192) && |SizeLine(0, e)| == 8192
  {
    hide Lower, PrintBlock;
    ShortBlock(e);
    assert IsToken("GET") && IsUrl("/");
  }

  lemma ShortBlock(e: string)
    ensures |PrintBlock(LongLine(e))| <= 100
  {
    hide Join, PrintLine, PrintHeader;
    var line := PrintLine(LongLine(e).line);
    var te := Header("Transfer-Encoding", "chunked");
    assert AllHeaders(LongLine(e)) == [te];
    assert [te][1..] == [];
    assert PrintHeaders([te]) == [PrintHeader(te)];
    JoinTwo(line, PrintHeader(te));
    assert [line] + [PrintHeader(te)] == [line, PrintHeader(te)];
    ShortLines();
  }

  lemma ShortLines()
    ensures |PrintLine(RequestLine("GET", "/", "HTTP/1.1"))| <= 30
    ensures |PrintHeader(Header("Transfer-Encoding", "chunked"))| <= 30
  {
  }

  lemma JoinTwo(a: string, b: string)
    ensures Join([a, b], CRLF) == a + CRLF + b
  {
    assert [a, b][1..] == [b];
  }
}
