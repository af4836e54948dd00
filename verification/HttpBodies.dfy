// What is kept of a body at any moment, complete or not.
module HttpBodies {
  import opened Bytes
  import opened HttpRequests
  import opened HttpStream
  import opened HttpCuts
  import opened HttpRoundTrip

  // The body bytes the next move takes from the buffer.
  function Taken(st: State): string {
    if st.mode == Fixed || st.mode == ChunkData then st.buffer[..Min(|st.buffer|, st.remaining)] else ""
  }

  // The whole decoded body of the request in progress after the buffer has been parsed, when `seen`
  // is what was decoded of it before.
  function Decoded(st: State, seen: string): string
    decreases |st.buffer|, Rank(st.mode)
  {
    StepShrinks(st);
    match Step(st)
    case Stop(_) => seen
    case Wait(_) => seen + Taken(st)
    case Next(st', _) => Decoded(st', if st'.mode == Headers then "" else seen + Taken(st))
  }

  ghost predicate Holds(st: State, seen: string) {
    st == InBody(st, seen)
  }

  lemma DrainHolds(st: State, seen: string)
    requires Holds(st, seen) && (st.mode == Fixed || st.mode == ChunkData)
    ensures Holds(Drain(st), seen + Taken(st))
  {
    var n := Min(|st.buffer|, st.remaining);
    assert st.buffer == st.buffer[..n] + st.buffer[n..];
    KeepTake(seen, st.buffer[..n], st.buffer[n..]);
  }

  lemma HeadersHold(st: State)
    requires Valid(st) && st.mode == Headers
    ensures StepHeaders(st).Next? ==> StepHeaders(st).state.body == "" && StepHeaders(st).state.bodySeen == 0
  {
    hide Open, Failure;
  }

  lemma TrailersHold(st: State)
    requires Valid(st) && st.mode == Trailers
    ensures StepTrailers(st).Next? ==>
      StepTrailers(st).state.body == "" && StepTrailers(st).state.bodySeen == 0 && StepTrailers(st).state.mode == Headers
  {
    hide Finish, Failure, ParseHeaders;
  }

  lemma StepHolds(st: State, seen: string)
    requires Valid(st) && Holds(st, seen)
    ensures match Step(st)
            case Stop(_) => true
            case Wait(st') => Holds(st', seen + Taken(st))
            case Next(st', _) => Holds(st', if st'.mode == Headers then "" else seen + Taken(st))
  {
    hide Finish, Failure, Drain;
    assert seen + "" == seen;
    match st.mode
    case Headers =>
      HeadersHold(st);
      HeadersWaitSame(st);
      assert seen == "";
    case Fixed => DrainHolds(st, seen);
    case ChunkSize =>
    case ChunkData =>
      DrainHolds(st, seen);
      DrainKeepsMode(st);
    case ChunkCrlf =>
    case Trailers =>
      TrailersHold(st);
      TrailersWaitSame(st);
  }

  lemma HeadersWaitSame(st: State)
    requires st.mode == Headers
    ensures StepHeaders(st).Wait? ==> StepHeaders(st).state == st
  {
    if StepHeaders(st).Wait? {
      HeadersWait(st);
    }
  }

  lemma TrailersWaitSame(st: State)
    requires st.mode == Trailers
    ensures StepTrailers(st).Wait? ==> StepTrailers(st).state == st
  {
    if StepTrailers(st).Wait? {
      TrailersWait(st);
    }
  }

  // At every moment the stored body is the first CAPTURE_LIMIT bytes of the decoded body, and the
  // count of bytes seen is its length.
  lemma {:induction false} BodyIsPrefix(st: State, seen: string)
    requires Valid(st) && Holds(st, seen)
    ensures Run(st).Waiting? ==>
      Run(st).state.body == Take(Decoded(st, seen), CAPTURE_LIMIT) && Run(st).state.bodySeen == |Decoded(st, seen)|
    decreases |st.buffer|, Rank(st.mode)
  {
    StepHolds(st, seen);
    StepShrinks(st);
    StepKeepsValid(st);
    hide Step;
    match Step(st)
    case Stop(_) =>
    case Wait(_) =>
    case Next(st', _) => BodyIsPrefix(st', if st'.mode == Headers then "" else seen + Taken(st));
  }
}
