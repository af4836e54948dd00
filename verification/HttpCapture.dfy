// The capture as the program runs it: stream objects updated in place by a loop over the parser's
// modes, and the table of streams. Each method is proved against the functions of HttpStream and
// HttpTable, so what is proved of those holds of the objects.
module HttpCapture {
  import opened Options
  import opened Bytes
  import opened HttpRequests
  import opened HttpStream
  import opened HttpCuts
  import opened HttpTable

  // What one mode of the parser tells the loop: go on, wait for more bytes, or give the stream up.
  datatype Signal = Again | More | GiveUp

  ghost predicate Did(move: Move, signal: Signal, after: State, out: seq<Record>) {
    match move
    case Wait(st) => signal == More && after == st && out == []
    case Next(st, records) => signal == Again && after == st && out == records
    case Stop(records) => signal == GiveUp && out == records
  }

  class Stream {
    const key: Key
    var buffer: string
    var request: Option<Request>
    var body: string
    var bodySeen: nat
    var mode: Mode
    var remaining: nat
    var expected: Option<nat>
    var contentType: string

    constructor (key: Key)
      ensures Abs() == Fresh(key)
    {
      this.key := key;
      buffer, request, body, bodySeen := "", None, "", 0;
      mode, remaining, expected, contentType := Headers, 0, None, "";
    }

    function Abs(): State
      reads this
    {
      State(key, buffer, request, body, bodySeen, mode, remaining, expected, contentType)
    }

    method TakeBody(count: nat)
      requires count <= |buffer| && |body| <= CAPTURE_LIMIT
      modifies this
      ensures Abs() == HttpStream.TakeBody(old(Abs()), count)
    {
      var retain := Min(count, CAPTURE_LIMIT - |body|);
      body := body + buffer[..retain];
      buffer := buffer[count..];
      bodySeen := bodySeen + count;
    }

    // Take what is there of the body or chunk.
    method Drain()
      requires |body| <= CAPTURE_LIMIT
      modifies this
      ensures Abs() == HttpStream.Drain(old(Abs()))
    {
      hide Keep, HttpStream.TakeBody;
      var count := Min(|buffer|, remaining);
      ghost var st := Abs();
      TakeBody(count);
      DrainIs(st, count);
      assert remaining == st.remaining by { TakeBodyKeeps(st, count); }
      remaining := remaining - count;
    }

    static lemma TakeBodyKeeps(st: State, count: nat)
      requires count <= |st.buffer|
      ensures HttpStream.TakeBody(st, count).remaining == st.remaining
    {
    }

    static lemma DrainIs(st: State, count: nat)
      requires count == Min(|st.buffer|, st.remaining)
      ensures HttpStream.Drain(st) == HttpStream.TakeBody(st, count).(remaining := st.remaining - count)
    {
    }

    method Complete() returns (out: seq<Record>)
      modifies this
      ensures out == Finish(old(Abs()), true, None, None) && Abs() == Completed(old(Abs()))
    {
      out := Finish(Abs(), true, None, None);
      request, body, bodySeen := None, "", 0;
      mode, expected, contentType := Headers, None, "";
    }

    // Returns whether the block opens a request, or the ValueError that reading it raises.
    method NewRequest(block: string) returns (found: bool, raised: Option<Fault>)
      requires Valid(Abs()) && mode == Headers
      modifies this
      ensures Opens(old(Abs()), Open(block, key), found, raised, Abs())
    {
      hide ParseHeaders, Partition, ParseRequestLine, IsEncoded, Values, FramingOf, Lower;
      var p := Partition(block, CRLF);
      var line := ParseRequestLine(p.head);
      if line == None {
        return false, None;
      }
      request := Some(Request(line.value, [], None, [], key));
      var headers := ParseHeaders(p.tail);
      if headers.Raised? {
        return false, Some(headers.fault);
      }
      request := Some(request.value.(headers := headers.value));
      var types := Values(headers.value, "content-type");
      contentType := if |types| == 1 then types[0] else "";
      if |types| > 1 {
        request := Some(request.value.(warnings := request.value.warnings + [MultipleContentTypes]));
      }
      if IsEncoded(headers.value) {
        contentType := "";
        request := Some(request.value.(warnings := request.value.warnings + [EncodedBody]));
      }
      assert request.value.warnings == HeaderWarnings(headers.value);
      match FramingOf(headers.value)
      case Raised(fault) => return false, Some(fault);
      case Ok(ChunkedCoding) =>
        mode := ChunkSize;
        return true, None;
      case Ok(FixedLength(n)) =>
        expected := Some(n);
        remaining := n;
        mode := Fixed;
        return true, None;
    }
  }

  ghost predicate Opens(before: State, opening: Opening, found: bool, raised: Option<Fault>, after: State) {
    match opening
    case NotHttp => !found && raised == None
    case Broken(request, contentType, fault) =>
      !found && raised == Some(fault) && after == before.(request := Some(request), contentType := contentType)
    case Opened(request, contentType, framing) =>
      found && raised == None && Begin(before, opening) == Next(after, [])
  }

  // ----- the modes

  method ConsumeHeaders(stream: Stream) returns (signal: Signal, out: seq<Record>)
    requires Valid(stream.Abs()) && stream.mode == Headers
    modifies stream
    ensures Did(StepHeaders(old(stream.Abs())), signal, stream.Abs(), out)
  {
    hide Open, Failure;
    var end := Find(stream.buffer, BLANK_LINE);
    if end < 0 {
      if |stream.buffer| > HEADER_LIMIT {
        return GiveUp, Failure(stream.Abs(), HeaderLimit);
      }
      var prefix := Partition(stream.buffer, " ").head;
      if prefix != "" && (|prefix| > 32 || !IsToken(prefix)) {
        return GiveUp, [];
      }
      return More, [];
    }
    if end + 4 > HEADER_LIMIT {
      return GiveUp, Failure(stream.Abs(), HeaderLimit);
    }
    var block := stream.buffer[..end];
    stream.buffer := stream.buffer[end + 4..];
    var found, raised := stream.NewRequest(block);
    if raised.Some? {
      return GiveUp, Failure(stream.Abs(), raised.value);
    }
    return if found then Again else GiveUp, [];
  }

  method ConsumeFixed(stream: Stream) returns (signal: Signal, out: seq<Record>)
    requires Valid(stream.Abs()) && stream.mode == Fixed
    modifies stream
    ensures Did(StepFixed(old(stream.Abs())), signal, stream.Abs(), out)
  {
    hide Finish;
    stream.Drain();
    if stream.remaining > 0 {
      return More, [];
    }
    out := stream.Complete();
    signal := Again;
  }

  method ConsumeChunkSize(stream: Stream) returns (signal: Signal, out: seq<Record>)
    requires Valid(stream.Abs()) && stream.mode == ChunkSize
    modifies stream
    ensures Did(StepChunkSize(old(stream.Abs())), signal, stream.Abs(), out)
  {
    hide Failure, Number, IsHex;
    var end := Find(stream.buffer, CRLF);
    if end < 0 {
      if |stream.buffer| > 8192 {
        return GiveUp, Failure(stream.Abs(), ChunkLineLimit);
      }
      return More, [];
    }
    var line := stream.buffer[..end];
    stream.buffer := stream.buffer[end + 2..];
    var size := Partition(line, ";").head;
    if end > 8192 {
      return GiveUp, Failure(stream.Abs(), ChunkLineLimit);
    }
    if !IsHex(size) {
      return GiveUp, Failure(stream.Abs(), MalformedChunkSize);
    }
    stream.remaining := Number(size, 16);
    stream.mode := if stream.remaining > 0 then ChunkData else Trailers;
    return Again, [];
  }

  method ConsumeChunkData(stream: Stream) returns (signal: Signal, out: seq<Record>)
    requires Valid(stream.Abs()) && stream.mode == ChunkData
    modifies stream
    ensures Did(StepChunkData(old(stream.Abs())), signal, stream.Abs(), out)
  {
    stream.Drain();
    if stream.remaining > 0 {
      return More, [];
    }
    stream.mode := ChunkCrlf;
    return Again, [];
  }

  method ConsumeChunkCrlf(stream: Stream) returns (signal: Signal, out: seq<Record>)
    requires Valid(stream.Abs()) && stream.mode == ChunkCrlf
    modifies stream
    ensures Did(StepChunkCrlf(old(stream.Abs())), signal, stream.Abs(), out)
  {
    hide Failure;
    if |stream.buffer| < 2 {
      return More, [];
    }
    if stream.buffer[..2] != CRLF {
      return GiveUp, Failure(stream.Abs(), MissingChunkTerminator);
    }
    stream.buffer := stream.buffer[2..];
    stream.mode := ChunkSize;
    return Again, [];
  }

  method ConsumeTrailers(stream: Stream) returns (signal: Signal, out: seq<Record>)
    requires Valid(stream.Abs()) && stream.mode == Trailers
    modifies stream
    ensures Did(StepTrailers(old(stream.Abs())), signal, stream.Abs(), out)
  {
    hide Failure, Finish, ParseHeaders, ForbiddenTrailer;
    if |stream.buffer| >= 2 && stream.buffer[..2] == CRLF {
      stream.buffer := stream.buffer[2..];
    } else {
      var end := Find(stream.buffer, BLANK_LINE);
      if end < 0 {
        if |stream.buffer| > HEADER_LIMIT {
          return GiveUp, Failure(stream.Abs(), TrailerLimit);
        }
        return More, [];
      }
      if end + 4 > HEADER_LIMIT {
        return GiveUp, Failure(stream.Abs(), TrailerLimit);
      }
      var trailers := ParseHeaders(stream.buffer[..end]);
      if trailers.Raised? {
        return GiveUp, Failure(stream.Abs(), trailers.fault);
      }
      stream.request := Some(stream.request.value.(trailers := Some(trailers.value)));
      if exists i | 0 <= i < |trailers.value| :: ForbiddenTrailer(trailers.value[i]) {
        return GiveUp, Failure(stream.Abs(), FramingInTrailers);
      }
      stream.buffer := stream.buffer[end + 4..];
    }
    out := stream.Complete();
    signal := Again;
  }

  // ----- the loop

  ghost predicate Reached(start: Outcome, st: State, out: seq<Record>) {
    start == Run(st).After(out)
  }

  lemma Advance(start: Outcome, st: State, out: seq<Record>, signal: Signal, st': State, records: seq<Record>)
    requires Valid(st) && Reached(start, st, out) && Did(Step(st), signal, st', records)
    ensures signal == Again ==> Valid(st') && Reached(start, st', out + records) && Shrinks(st, Next(st', records))
    ensures signal == More ==> start == Waiting(out + records, st') && Valid(st')
    ensures signal == GiveUp ==> start == Rejected(out + records)
  {
    hide Valid;
    StepKeepsValid(st);
    StepShrinks(st);
    hide Step;
    if signal == Again {
      AfterAfter(Run(st'), out, records);
    }
  }

  // One mode's part of the loop body.
  method ConsumeMode(stream: Stream) returns (signal: Signal, out: seq<Record>)
    requires Valid(stream.Abs())
    modifies stream
    ensures Did(Step(old(stream.Abs())), signal, stream.Abs(), out)
  {
    hide StepHeaders, StepFixed, StepChunkSize, StepChunkData, StepChunkCrlf, StepTrailers, Did;
    match stream.mode
    case Headers => signal, out := ConsumeHeaders(stream);
    case Fixed => signal, out := ConsumeFixed(stream);
    case ChunkSize => signal, out := ConsumeChunkSize(stream);
    case ChunkData => signal, out := ConsumeChunkData(stream);
    case ChunkCrlf => signal, out := ConsumeChunkCrlf(stream);
    case Trailers => signal, out := ConsumeTrailers(stream);
  }

  // Consumes the stream's buffer. The records and the state are those of the pure parser; a stream that
  // is given up is of no further use. The program falls from the test of one mode to the next; going
  // round the loop instead visits the same modes in the same order.
  method Consume(stream: Stream) returns (valid: bool, out: seq<Record>)
    requires Valid(stream.Abs())
    modifies stream
    ensures match Run(old(stream.Abs()))
            case Waiting(records, st) => valid && out == records && stream.Abs() == st
            case Rejected(records) => !valid && out == records
  {
    hide Step, Did, Run, Valid;
    ghost var start := Run(stream.Abs());
    out := [];
    AfterAfter(start, [], []);
    while true
      invariant Valid(stream.Abs()) && Reached(start, stream.Abs(), out)
      decreases |stream.buffer|, Rank(stream.mode)
    {
      ghost var st := stream.Abs();
      var signal, records := ConsumeMode(stream);
      Advance(start, st, out, signal, stream.Abs(), records);
      out := out + records;
      if signal != Again {
        return signal == More, out;
      }
    }
  }

  // ----- the table

  // The stream objects hold these states.
  ghost predicate Holds(entries: seq<Stream>, t: Table)
    reads entries
  {
    |t| == |entries| && forall i :: 0 <= i < |t| ==> entries[i].Abs() == t[i]
  }

  lemma KeyOf(s: Stream)
    ensures s.Abs().key == s.key
  {
  }

  lemma SuffixHeld(es: seq<Stream>, t: Table, n: nat)
    requires Holds(es, t) && n <= |t|
    ensures Holds(es[n..], t[n..])
  {
  }

  lemma SnocHeld(es: seq<Stream>, t: Table, s: Stream)
    requires Holds(es, t)
    ensures Holds(es + [s], t + [s.Abs()])
  {
  }

  function Without(es: seq<Stream>, i: int): seq<Stream>
    requires i < |es|
  {
    if i < 0 then es else es[..i] + es[i + 1..]
  }

  lemma WithoutHeld(es: seq<Stream>, t: Table, key: Key)
    requires Holds(es, t)
    ensures IndexOf(t, key) < |es| && Holds(Without(es, IndexOf(t, key)), Remove(t, key))
    ensures forall s :: s in Without(es, IndexOf(t, key)) ==> s in es
  {
    hide Stream.Abs;
  }

  // Parsing one stream leaves the others as they are.
  method ConsumeApart(stream: Stream, data: string, ghost es: seq<Stream>, ghost t: Table)
    returns (valid: bool, out: seq<Record>)
    requires Settled(stream.Abs()) && Holds(es, t) && forall s :: s in es ==> s != stream
    modifies stream
    ensures match FeedStream(old(stream.Abs()), data)
            case Waiting(records, st) => valid && out == records && stream.Abs() == st
            case Rejected(records) => !valid && out == records
    ensures Holds(es, t)
  {
    hide Settled, FeedStream;
    valid, out := ConsumeSlices(stream, data);
    forall i | 0 <= i < |t| ensures es[i].Abs() == t[i] {
      assert es[i] in es;
    }
  }

  lemma Apart(es: seq<Stream>, t: Table, key: Key)
    requires Holds(es, t) && forall i :: 0 <= i < |t| ==> t[i].key != key
    ensures forall s :: s in es ==> s.key != key
  {
    forall s | s in es ensures s.key != key {
      var i :| 0 <= i < |es| && es[i] == s;
      assert t[i].key != key;
    }
  }

  // Appends the bytes slice by slice and parses after each.
  method ConsumeSlices(stream: Stream, data: string) returns (valid: bool, out: seq<Record>)
    requires Settled(stream.Abs())
    modifies stream
    ensures match FeedStream(old(stream.Abs()), data)
            case Waiting(records, st) => valid && out == records && stream.Abs() == st
            case Rejected(records) => !valid && out == records
  {
    hide Step, FeedAll, Slices, Run;
    ghost var start := FeedStream(stream.Abs(), data);
    var offset := 0;
    out := [];
    assert data[0..] == data;
    AfterAfter(start, [], []);
    while offset < |data|
      invariant 0 <= offset <= |data| && Settled(stream.Abs())
      invariant start == FeedStream(stream.Abs(), data[offset..]).After(out)
    {
      var end := Min(offset + SLICE, |data|);
      ghost var st := Extend(stream.Abs(), data[offset..end]);
      ValidExtend(stream.Abs(), data[offset..end]);
      NextSlice(stream.Abs(), data, offset, end, out);
      stream.buffer := stream.buffer + data[offset..end];
      RunSettles(st);
      var records;
      valid, records := Consume(stream);
      out := out + records;
      if !valid {
        return;
      }
      offset := end;
    }
    NothingLeft(stream.Abs(), data, out);
    return true, out;
  }

  lemma NextSlice(st: State, data: string, offset: nat, end: nat, out: seq<Record>)
    requires offset < end <= |data| && end == Min(offset + SLICE, |data|)
    ensures FeedStream(st, data[offset..]).After(out)
         == match Run(Extend(st, data[offset..end]))
            case Rejected(records) => Rejected(out + records)
            case Waiting(records, st') => FeedStream(st', data[end..]).After(out + records)
  {
    hide Run;
    var rest := data[offset..];
    var first := data[offset..end];
    if |rest| <= SLICE {
      assert first == rest && data[end..] == "";
      assert Slices(rest) == [first] + Slices(data[end..]);
    } else {
      assert rest[..SLICE] == first && rest[SLICE..] == data[end..];
    }
    assert Slices(rest)[1..] == Slices(data[end..]);
    match Run(Extend(st, first))
    case Rejected(_) =>
    case Waiting(records, st') => AfterAfter(FeedStream(st', data[end..]), out, records);
  }

  lemma NothingLeft(st: State, data: string, out: seq<Record>)
    ensures FeedStream(st, data[|data|..]).After(out) == Waiting(out, st)
  {
    hide Run;
    assert data[|data|..] == "" && out + [] == out;
  }

  class HTTPRequestCapture {
    const maxStreams: nat
    var entries: seq<Stream>  // oldest use first
    ghost var table: Table    // the states the entries hold

    ghost predicate Valid()
      reads this, entries
    {
      maxStreams >= 1 && Holds(entries, table) && Good(table, maxStreams)
    }

    constructor (maxStreams: nat)
      ensures Valid() && table == []
      ensures this.maxStreams == if maxStreams < 1 then 1 else if maxStreams > 64 then 64 else maxStreams
    {
      this.maxStreams := if maxStreams < 1 then 1 else if maxStreams > 64 then 64 else maxStreams;
      entries, table := [], [];
    }

    method Position(key: Key) returns (i: int)
      requires Holds(entries, table)
      ensures i == IndexOf(table, key)
    {
      i := 0;
      while i < |entries|
        invariant 0 <= i <= |entries|
        invariant forall k :: 0 <= k < i ==> table[k].key != key
      {
        KeyOf(entries[i]);
        if entries[i].key == key {
          return;
        }
        i := i + 1;
      }
      i := -1;
    }

    // Removes the stream of a key, if there is one.
    method Discard(key: Key)
      requires Holds(entries, table)
      modifies this`entries, this`table
      ensures Holds(entries, table) && table == Remove(old(table), key)
      ensures forall s :: s in entries ==> s in old(entries)
    {
      hide Stream.Abs, Holds, Remove;
      var i := Position(key);
      WithoutHeld(entries, table, key);
      entries, table := Without(entries, i), Remove(table, key);
    }

    method Flush(key: Key) returns (out: seq<Record>)
      requires Valid()
      modifies this`entries, this`table
      ensures Valid()
      ensures Effect(table, out) == HttpTable.Flush(old(table), key)
    {
      hide Settled, Finish;
      RemoveKeeps(table, key, maxStreams);
      var i := Position(key);
      out := [];
      if 0 <= i {
        out := Finish(entries[i].Abs(), false, None, Some(StreamEnded));
      }
      Discard(key);
    }

    // Drops the streams of oldest use until one more fits, with a record for each.
    method EvictOldest() returns (out: seq<Record>)
      requires maxStreams >= 1 && Holds(entries, table)
      modifies this`entries, this`table
      ensures Holds(entries, table)
      ensures forall s :: s in entries ==> s in old(entries)
      ensures var n := if |old(table)| + 1 > maxStreams then |old(table)| + 1 - maxStreams else 0;
        table == old(table)[n..] && out == Evict(old(table)[..n])
    {
      ghost var t, k := table, 0;
      ghost var n := if |t| + 1 > maxStreams then |t| + 1 - maxStreams else 0;
      out := [];
      while |entries| + 1 > maxStreams
        invariant 0 <= k <= n && Holds(entries, table)
        invariant table == t[k..] && entries == old(entries)[k..]
        invariant Evict(t[..n]) == out + Evict(t[k..n])
      {
        hide Finish, Stream.Abs;
        EvictNext(t, k, n, out);
        out := out + Finish(entries[0].Abs(), false, None, Some(StreamEvicted));
        SuffixHeld(entries, table, 1);
        entries, table := entries[1..], table[1..];
        k := k + 1;
      }
      assert t[n..n] == [];
    }

    static lemma EvictNext(t: Table, k: nat, n: nat, out: seq<Record>)
      requires k < n <= |t| && Evict(t[..n]) == out + Evict(t[k..n])
      ensures Evict(t[..n]) == (out + Finish(t[k], false, None, Some(StreamEvicted))) + Evict(t[k + 1..n])
    {
      hide Finish;
      assert t[k..n][1..] == t[k + 1..n];
    }

    // The stream whose turn it is, removed from the table or new.
    method Pop(key: Key) returns (stream: Stream)
      requires Valid()
      modifies this`entries, this`table
      ensures Holds(entries, table) && table == Remove(old(table), key)
      ensures forall s :: s in entries ==> s in old(entries) && s != stream
      ensures stream.Abs() == StateOf(old(table), key) && Settled(stream.Abs())
      ensures fresh(stream) || stream in old(entries)
    {
      hide Settled, Stream.Abs;
      FreshIsSettled(key);
      RemoveKeeps(table, key, maxStreams);
      var i := Position(key);
      if i < 0 {
        stream := new Stream(key);
      } else {
        stream := entries[i];
      }
      KeyOf(stream);
      Discard(key);
      Apart(entries, table, key);
    }

    // After the bytes have been parsed: the stream goes back behind all others unless it is done with.
    method PutBack(stream: Stream, valid: bool, evicted: seq<Record>, records: seq<Record>, short: bool,
                   ghost outcome: Outcome)
      returns (out: seq<Record>)
      requires Holds(entries, table)
      requires valid ==> outcome == Waiting(records, stream.Abs())
      requires !valid ==> outcome == Rejected(records)
      modifies this`entries, this`table
      ensures Holds(entries, table) && Effect(table, out) == Settle(old(table), evicted, outcome, short)
      ensures forall s :: s in entries ==> s in old(entries) || s == stream
    {
      hide Finish, Stream.Abs;
      if !valid {
        return evicted + records;
      }
      if short {
        return evicted + (records + Finish(stream.Abs(), false, Some(Truncated), Some(ShortRead)));
      }
      IdleFields(stream);
      if !(stream.request == None && stream.buffer == "") {
        SnocHeld(entries, table, stream);
        entries, table := entries + [stream], table + [stream.Abs()];
      }
      return evicted + records;
    }

    static lemma IdleFields(s: Stream)
      ensures IsIdle(s.Abs()) <==> s.request == None && s.buffer == ""
    {
    }

    // One read of one stream: the table and the records are those of the table as a value.
    method Feed(key: Key, data: string, total: Option<nat>) returns (out: seq<Record>)
      requires Valid()
      modifies this`entries, this`table, entries
      ensures Valid()
      ensures Effect(table, out) == HttpTable.Feed(old(table), maxStreams, key, data, total)
      ensures forall s :: s in entries ==> s in old(entries) || fresh(s)
    {
      hide Settled, FeedStream, Evict, Stream.Abs, Remove, Good, Settle, StateOf, Holds;
      FeedKeepsGood(table, maxStreams, key, data, total);
      var i := Position(key);
      if i < 0 && data == "" {
        return [];
      }
      ghost var st := StateOf(table, key);
      var stream := Pop(key);
      var evicted := EvictOldest();
      var valid, records := ConsumeApart(stream, data, entries, table);
      out := PutBack(stream, valid, evicted, records, total.Some? && total.value > |data|, FeedStream(st, data));
    }
  }
}
