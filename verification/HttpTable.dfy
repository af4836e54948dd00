// Many byte streams at once: the table of live streams in the order of their last use, what one
// read, flush or discard does to it, and whole histories of such events.
module HttpTable {
  import opened Options
  import opened Bytes
  import opened HttpRequests
  import opened HttpStream
  import opened HttpCuts
  import opened HttpRoundTrip

  const SLICE: nat := 16384

  // Oldest use first.
  type Table = seq<State>

  // ----- one read of one stream

  function Slices(data: string): seq<string>
    decreases |data|
  {
    if data == "" then [] else if |data| <= SLICE then [data] else [data[..SLICE]] + Slices(data[SLICE..])
  }

  function FeedStream(st: State, data: string): Outcome {
    FeedAll(st, Slices(data))
  }

  // ----- the table

  function IndexOf(t: Table, key: Key): (i: int)
    ensures i == -1 || (0 <= i < |t| && t[i].key == key)
    ensures forall k :: 0 <= k < |t| && (i < 0 || k < i) ==> t[k].key != key
  {
    if t == [] then -1
    else if t[0].key == key then 0
    else
      var i := IndexOf(t[1..], key);
      if i < 0 then -1 else i + 1
  }

  function Remove(t: Table, key: Key): Table {
    var i := IndexOf(t, key);
    if i < 0 then t else t[..i] + t[i + 1..]
  }

  function StateOf(t: Table, key: Key): State {
    var i := IndexOf(t, key);
    if i < 0 then Fresh(key) else t[i]
  }

  function Evict(t: Table): seq<Record> {
    if t == [] then [] else Finish(t[0], false, None, Some(StreamEvicted)) + Evict(t[1..])
  }

  predicate IsIdle(st: State) {
    st.request == None && st.buffer == ""
  }

  // What becomes of the table, and the records that come out.
  datatype Effect = Effect(table: Table, out: seq<Record>)

  // The stream goes back into the table unless it was given up, was read short or is idle.
  function Settle(kept: Table, evicted: seq<Record>, outcome: Outcome, short: bool): Effect {
    match outcome
    case Rejected(out) => Effect(kept, evicted + out)
    case Waiting(out, st) =>
      if short then Effect(kept, evicted + (out + Finish(st, false, Some(Truncated), Some(ShortRead))))
      else if IsIdle(st) then Effect(kept, evicted + out)
      else Effect(kept + [st], evicted + out)
  }

  // `total` is the length the target reported, when it is known.
  function Feed(t: Table, max: nat, key: Key, data: string, total: Option<nat>): Effect
    requires max >= 1
  {
    if IndexOf(t, key) < 0 && data == "" then Effect(t, [])
    else
      var others := Remove(t, key);
      var surplus := if |others| + 1 > max then |others| + 1 - max else 0;
      Settle(others[surplus..], Evict(others[..surplus]), FeedStream(StateOf(t, key), data),
             total.Some? && total.value > |data|)
  }

  function Flush(t: Table, key: Key): Effect {
    var i := IndexOf(t, key);
    Effect(Remove(t, key), if i < 0 then [] else Finish(t[i], false, None, Some(StreamEnded)))
  }

  datatype Event = Read(key: Key, data: string, total: Option<nat>) | Close(key: Key) | Forget(key: Key)

  function Apply(t: Table, max: nat, e: Event): Effect
    requires max >= 1
  {
    match e
    case Read(key, data, total) => Feed(t, max, key, data, total)
    case Close(key) => Flush(t, key)
    case Forget(key) => Effect(Remove(t, key), [])
  }

  function History(t: Table, max: nat, events: seq<Event>): Effect
    requires max >= 1
    decreases |events|
  {
    if events == [] then Effect(t, [])
    else
      var first := Apply(t, max, events[0]);
      var rest := History(first.table, max, events[1..]);
      Effect(rest.table, first.out + rest.out)
  }

  // ----- what holds of every table

  ghost predicate Distinct(t: Table) {
    forall i, j :: 0 <= i < j < |t| ==> t[i].key != t[j].key
  }

  ghost predicate Good(t: Table, max: nat) {
    |t| <= max && Distinct(t) && forall i :: 0 <= i < |t| ==> Settled(t[i])
  }

  lemma {:induction false} SlicesConcat(data: string)
    ensures Concat(Slices(data)) == data
    decreases |data|
  {
    if |data| > SLICE {
      SlicesConcat(data[SLICE..]);
      assert data == data[..SLICE] + data[SLICE..];
    } else if data != "" {
      assert [data][1..] == [] && data + "" == data;
    }
  }

  // The slices a read is parsed in do not matter.
  lemma FeedStreamWhole(st: State, data: string)
    requires Settled(st) && !HasEdgeLine(Extend(st, data))
    ensures FeedStream(st, data) == Run(Extend(st, data))
  {
    hide Step, Run, HasEdgeLine, FeedAll;
    SlicesConcat(data);
    CutIndependence(st, Slices(data));
  }

  lemma {:induction false} FeedAllSettles(st: State, pieces: seq<string>)
    requires Settled(st)
    ensures FeedAll(st, pieces).Waiting? ==>
      Settled(FeedAll(st, pieces).state) && FeedAll(st, pieces).state.key == st.key
    decreases |pieces|
  {
    hide Step, Run;
    if pieces != [] {
      var st' := Extend(st, pieces[0]);
      ValidExtend(st, pieces[0]);
      RunSettles(st');
      RunKeepsValid(st');
      if Run(st').Waiting? {
        FeedAllSettles(Run(st').state, pieces[1..]);
      }
    }
  }

  // A settled stream holds at most 64 KiB of unparsed bytes.
  lemma SettledBound(st: State)
    requires Settled(st)
    ensures |st.buffer| <= HEADER_LIMIT && |st.body| <= CAPTURE_LIMIT
  {
    hide Failure, Finish, Open, ParseHeaders, Completed, Number, IsHex;
    match st.mode
    case Headers => assert StepHeaders(st).Wait?;
    case Fixed => DrainEmpties(st);
    case ChunkSize =>
    case ChunkData => DrainEmpties(st);
    case ChunkCrlf =>
    case Trailers => assert StepTrailers(st).Wait?;
  }

  lemma DrainEmpties(st: State)
    requires Settled(st) && (st.mode == Fixed || st.mode == ChunkData)
    ensures st.buffer == ""
  {
    hide Failure, Finish, Keep, Valid;
    assert Drain(st) == st;
  }

  lemma RemoveKeeps(t: Table, key: Key, max: nat)
    requires Good(t, max)
    ensures Good(Remove(t, key), max)
    ensures forall i :: 0 <= i < |Remove(t, key)| ==> Remove(t, key)[i].key != key && Remove(t, key)[i] in t
    ensures |Remove(t, key)| == if IndexOf(t, key) < 0 then |t| else |t| - 1
  {
    hide Settled, IndexOf;
    if IndexOf(t, key) >= 0 {
      OtherKeys(t, IndexOf(t, key), key);
    }
  }

  lemma OtherKeys(t: Table, i: nat, key: Key)
    requires Distinct(t) && i < |t| && t[i].key == key
    ensures forall k :: 0 <= k < |t| && k != i ==> t[k].key != key
  {
  }

  lemma FreshIsSettled(key: Key)
    ensures Settled(Fresh(key))
  {
    IdleWaits(key);
  }

  lemma SettleGood(others: Table, n: nat, max: nat, evicted: seq<Record>, outcome: Outcome, short: bool)
    requires Good(others, max) && n <= |others| && |others| - n + 1 <= max
    requires outcome.Waiting? ==>
      Settled(outcome.state) && forall i :: 0 <= i < |others| ==> others[i].key != outcome.state.key
    ensures Good(Settle(others[n..], evicted, outcome, short).table, max)
  {
    hide Settled, Finish;
  }

  lemma FeedKeepsGood(t: Table, max: nat, key: Key, data: string, total: Option<nat>)
    requires max >= 1 && Good(t, max)
    ensures Good(Feed(t, max, key, data, total).table, max)
  {
    hide FeedStream, Settled, Evict, Settle;
    RemoveKeeps(t, key, max);
    FeedStreamSettles(t, key, data, max);
    var others := Remove(t, key);
    var surplus := if |others| + 1 > max then |others| + 1 - max else 0;
    SettleGood(others, surplus, max, Evict(others[..surplus]), FeedStream(StateOf(t, key), data),
               total.Some? && total.value > |data|);
  }

  lemma FeedStreamSettles(t: Table, key: Key, data: string, max: nat)
    requires Good(t, max)
    ensures var outcome := FeedStream(StateOf(t, key), data);
      outcome.Waiting? ==> Settled(outcome.state) && outcome.state.key == key
  {
    hide FeedAll, Settled;
    FreshIsSettled(key);
    FeedAllSettles(StateOf(t, key), Slices(data));
  }

  // However the streams are read, closed and forgotten: at most `max` of them are kept, each waits
  // for more bytes, and what it buffers stays within the two capture limits.
  lemma {:induction false} HistoryBounds(max: nat, events: seq<Event>, t: Table)
    requires max >= 1 && Good(t, max)
    ensures var t' := History(t, max, events).table;
      && Good(t', max)
      && forall i :: 0 <= i < |t'| ==> |t'[i].buffer| <= HEADER_LIMIT && |t'[i].body| <= CAPTURE_LIMIT
    decreases |events|
  {
    hide Step, Settled, Feed, Finish;
    if events == [] {
      forall i | 0 <= i < |t| ensures |t[i].buffer| <= HEADER_LIMIT && |t[i].body| <= CAPTURE_LIMIT {
        SettledBound(t[i]);
      }
    } else {
      match events[0] {
        case Read(key, data, total) => FeedKeepsGood(t, max, key, data, total);
        case Close(key) => RemoveKeeps(t, key, max);
        case Forget(key) => RemoveKeeps(t, key, max);
      }
      HistoryBounds(max, events[1..], Apply(t, max, events[0]).table);
    }
  }

  // ----- streams do not disturb each other

  // The records that belong to one stream.
  function Of(records: seq<Record>, key: Key): seq<Record> {
    if records == [] then []
    else (if records[0].request.stream == key then [records[0]] else []) + Of(records[1..], key)
  }

  ghost predicate AllFrom(records: seq<Record>, key: Key) {
    forall i :: 0 <= i < |records| ==> records[i].request.stream == key
  }

  lemma {:induction false} OfAppend(a: seq<Record>, b: seq<Record>, key: Key)
    ensures Of(a + b, key) == Of(a, key) + Of(b, key)
  {
    if a == [] {
      assert a + b == b;
    } else {
      var first := if a[0].request.stream == key then [a[0]] else [];
      OfAppend(a[1..], b, key);
      OfCons(a[0], a[1..] + b, key);
      OfCons(a[0], a[1..], key);
      assert a == [a[0]] + a[1..] && a + b == [a[0]] + (a[1..] + b);
      Associative(first, Of(a[1..], key), Of(b, key));
    }
  }

  lemma OfCons(r: Record, rest: seq<Record>, key: Key)
    ensures Of([r] + rest, key) == (if r.request.stream == key then [r] else []) + Of(rest, key)
  {
    assert ([r] + rest)[1..] == rest;
  }

  lemma Associative(a: seq<Record>, b: seq<Record>, c: seq<Record>)
    ensures (a + b) + c == a + (b + c)
  {
  }

  lemma {:induction false} OfOwn(records: seq<Record>, key: Key)
    requires AllFrom(records, key)
    ensures Of(records, key) == records
  {
    if records != [] {
      OfOwn(records[1..], key);
    }
  }

  lemma {:induction false} OfForeign(records: seq<Record>, key: Key, other: Key)
    requires AllFrom(records, other) && key != other
    ensures Of(records, key) == []
  {
    if records != [] {
      OfForeign(records[1..], key, other);
    }
  }

  lemma FinishFrom(st: State, complete: bool, status: Option<Status>, warning: Option<Warning>)
    requires st.request.Some? ==> st.request.value.stream == st.key
    ensures AllFrom(Finish(st, complete, status, warning), st.key)
  {
    hide ParseRequestLine, ReadableHeaders, BodyRecord;
  }

  lemma FailureFrom(st: State, fault: Fault)
    requires st.request.Some? ==> st.request.value.stream == st.key
    ensures AllFrom(Failure(st, fault), st.key)
  {
    FinishFrom(st, false, Some(if fault.IsLimit() then Truncated else Malformed), Some(Failed(fault)));
  }

  function Out(m: Move): seq<Record> {
    if m.Wait? then [] else m.out
  }

  lemma BeginFrom(st: State, opening: Opening)
    requires Valid(st)
    requires !opening.NotHttp? ==> opening.request.stream == st.key
    ensures AllFrom(Out(Begin(st, opening)), st.key)
  {
    hide Failure;
    if opening.Broken? {
      FailureFrom(st.(request := Some(opening.request), contentType := opening.contentType), opening.fault);
    }
  }

  lemma HeadersFrom(st: State)
    requires Valid(st) && st.mode == Headers
    ensures AllFrom(Out(StepHeaders(st)), st.key)
  {
    hide Failure, Open, Begin;
    FailureFrom(st, HeaderLimit);
    var end := Find(st.buffer, BLANK_LINE);
    if 0 <= end {
      OpenStream(st.buffer[..end], st.key);
      BeginFrom(st.(buffer := st.buffer[end + 4..]), Open(st.buffer[..end], st.key));
    }
  }

  lemma TrailersFrom(st: State)
    requires Valid(st) && st.mode == Trailers
    ensures AllFrom(Out(StepTrailers(st)), st.key)
  {
    hide Failure, Finish, ParseHeaders, ForbiddenTrailer;
    FailureFrom(st, TrailerLimit);
    var end := Find(st.buffer, BLANK_LINE);
    if At(st.buffer, 0, CRLF) {
      FinishFrom(st.(buffer := st.buffer[2..]), true, None, None);
    } else if 0 <= end {
      match ParseHeaders(st.buffer[..end])
      case Raised(fault) => FailureFrom(st, fault);
      case Ok(trailers) =>
        var st' := st.(request := Some(st.request.value.(trailers := Some(trailers))));
        FailureFrom(st', FramingInTrailers);
        FinishFrom(st'.(buffer := st.buffer[end + 4..]), true, None, None);
    }
  }

  lemma StepFrom(st: State)
    requires Valid(st)
    ensures AllFrom(Out(Step(st)), st.key)
  {
    hide Failure, Finish;
    match st.mode
    case Headers => HeadersFrom(st);
    case Fixed =>
      DrainKeepsMode(st);
      FinishFrom(Drain(st), true, None, None);
    case ChunkSize =>
      var end := Find(st.buffer, CRLF);
      FailureFrom(st, ChunkLineLimit);
      if 0 <= end {
        FailureFrom(st.(buffer := st.buffer[end + 2..]), ChunkLineLimit);
        FailureFrom(st.(buffer := st.buffer[end + 2..]), MalformedChunkSize);
      }
    case ChunkData =>
    case ChunkCrlf => FailureFrom(st, MissingChunkTerminator);
    case Trailers => TrailersFrom(st);
  }

  lemma {:induction false} RunFrom(st: State)
    requires Valid(st)
    ensures AllFrom(Run(st).out, st.key)
    decreases |st.buffer|, Rank(st.mode)
  {
    StepFrom(st);
    StepShrinks(st);
    StepKeepsValid(st);
    hide Step;
    if Step(st).Next? {
      RunFrom(Step(st).state);
    }
  }

  lemma {:induction false} FeedAllFrom(st: State, pieces: seq<string>)
    requires Settled(st)
    ensures AllFrom(FeedAll(st, pieces).out, st.key)
    decreases |pieces|
  {
    hide Step, Run;
    if pieces != [] {
      var st' := Extend(st, pieces[0]);
      ValidExtend(st, pieces[0]);
      RunFrom(st');
      RunSettles(st');
      RunKeepsValid(st');
      if Run(st').Waiting? {
        FeedAllFrom(Run(st').state, pieces[1..]);
      }
    }
  }
}
