// What one stream's reads lead to is not changed by anything that happens to the other streams, as
// long as the keys in use fit the table.
module HttpIsolation {
  import opened Options
  import opened Bytes
  import opened HttpRequests
  import opened HttpStream
  import opened HttpCuts
  import opened HttpEdge
  import opened HttpRoundTrip
  import opened HttpTable
  import HttpPrint

  ghost predicate Within(t: Table, keys: set<Key>) {
    forall i :: 0 <= i < |t| ==> t[i].key in keys
  }

  function EventKey(e: Event): Key {
    e.key
  }

  ghost predicate EventsWithin(events: seq<Event>, keys: set<Key>) {
    forall i :: 0 <= i < |events| ==> EventKey(events[i]) in keys
  }

  // The stream is only read, each time in full.
  ghost predicate OnlyRead(events: seq<Event>, key: Key) {
    forall i :: 0 <= i < |events| && EventKey(events[i]) == key ==> events[i].Read? && events[i].total == None
  }

  function ReadsOf(events: seq<Event>, key: Key): seq<string> {
    if events == [] then []
    else (if events[0].Read? && events[0].key == key then [events[0].data] else []) + ReadsOf(events[1..], key)
  }

  // The reads of one stream alone, ending with the first one that is rejected.
  function FeedReads(st: State, parts: seq<string>): Outcome
    decreases |parts|
  {
    if parts == [] then Waiting([], st)
    else
      match FeedStream(st, parts[0])
      case Rejected(out) => Rejected(out)
      case Waiting(out, st') => FeedReads(st', parts[1..]).After(out)
  }

  // ----- looking up states

  lemma StateOfAt(t: Table, i: nat)
    requires Distinct(t) && i < |t|
    ensures StateOf(t, t[i].key) == t[i]
  {
  }

  lemma StateOfMissing(t: Table, key: Key)
    requires forall i :: 0 <= i < |t| ==> t[i].key != key
    ensures StateOf(t, key) == Fresh(key)
  {
  }

  lemma RemoveOther(t: Table, key: Key, other: Key)
    requires Distinct(t) && key != other
    ensures StateOf(Remove(t, other), key) == StateOf(t, key)
  {
    var i, r := IndexOf(t, key), Remove(t, other);
    var j := IndexOf(t, other);
    if 0 <= i {
      var i' := if 0 <= j < i then i - 1 else i;
      assert r[i'] == t[i];
      StateOfAt(r, i');
    } else {
      assert forall k :: 0 <= k < |r| ==> r[k] in t;
      StateOfMissing(r, key);
    }
  }

  lemma Newest(t: Table, st: State, key: Key)
    requires Distinct(t) && forall i :: 0 <= i < |t| ==> t[i].key != st.key
    ensures StateOf(t + [st], key) == if st.key == key then st else StateOf(t, key)
  {
    var t' := t + [st];
    var i := IndexOf(t, key);
    if st.key == key {
      StateOfAt(t', |t|);
    } else if 0 <= i {
      assert t'[i] == t[i];
      StateOfAt(t', i);
    } else {
      StateOfMissing(t', key);
    }
  }

  // ----- room for one more

  lemma {:induction false} DistinctSize(t: Table, keys: set<Key>)
    requires Distinct(t) && Within(t, keys)
    ensures |t| <= |keys|
    decreases |t|
  {
    if t != [] {
      var key := t[|t| - 1].key;
      DistinctSize(t[..|t| - 1], keys - {key});
    }
  }

  lemma RoomForOne(t: Table, max: nat, key: Key, keys: set<Key>)
    requires Good(t, max) && Within(t, keys) && key in keys && |keys| <= max
    ensures |Remove(t, key)| + 1 <= max
  {
    hide Settled;
    RemoveKeeps(t, key, max);
    DistinctSize(Remove(t, key) + [Fresh(key)], keys);
  }

  // ----- one event

  lemma FeedRoom(t: Table, max: nat, key: Key, data: string, total: Option<nat>)
    requires max >= 1 && |Remove(t, key)| + 1 <= max
    ensures Feed(t, max, key, data, total)
         == if IndexOf(t, key) < 0 && data == "" then Effect(t, [])
            else Settle(Remove(t, key), [], FeedStream(StateOf(t, key), data), total.Some? && total.value > |data|)
  {
    hide Settle, FeedStream;
    assert Remove(t, key)[0..] == Remove(t, key) && Remove(t, key)[..0] == [];
  }

  lemma SettleFrom(others: Table, outcome: Outcome, short: bool, key: Key)
    requires AllFrom(outcome.out, key)
    requires outcome.Waiting? ==> Settled(outcome.state) && outcome.state.key == key
    ensures AllFrom(Settle(others, [], outcome, short).out, key)
  {
    hide Finish, Settled;
    if outcome.Waiting? {
      ShortReadFrom(outcome.state);
    }
  }

  lemma SettleTable(others: Table, outcome: Outcome, short: bool)
    ensures var t := Settle(others, [], outcome, short).table;
      t == others || (outcome.Waiting? && t == others + [outcome.state])
  {
  }

  lemma FeedStreamFrom(t: Table, key: Key, data: string, max: nat)
    requires Good(t, max)
    ensures AllFrom(FeedStream(StateOf(t, key), data).out, key)
  {
    hide FeedAll, Settled;
    FreshIsSettled(key);
    FeedAllFrom(StateOf(t, key), Slices(data));
  }

  lemma ShortReadFrom(st: State)
    requires Settled(st)
    ensures AllFrom(Finish(st, false, Some(Truncated), Some(ShortRead)), st.key)
  {
    hide Step;
    FinishFrom(st, false, Some(Truncated), Some(ShortRead));
  }

  lemma FlushFrom(st: State)
    requires Settled(st)
    ensures AllFrom(Finish(st, false, None, Some(StreamEnded)), st.key)
  {
    hide Step;
    FinishFrom(st, false, None, Some(StreamEnded));
  }

  // With room in the table, a read only concerns its own stream.
  lemma OtherRead(t: Table, max: nat, other: Key, data: string, total: Option<nat>, key: Key)
    requires max >= 1 && Good(t, max) && |Remove(t, other)| + 1 <= max && key != other
    ensures StateOf(Feed(t, max, other, data, total).table, key) == StateOf(t, key)
    ensures Of(Feed(t, max, other, data, total).out, key) == []
  {
    hide FeedStream, Settled, Settle, Feed, Good;
    FeedRoom(t, max, other, data, total);
    FeedStreamSettles(t, other, data, max);
    FeedStreamFrom(t, other, data, max);
    RemoveOther(t, key, other) by { GoodDistinct(t, max); }
    var others, outcome := Remove(t, other), FeedStream(StateOf(t, other), data);
    var short := total.Some? && total.value > |data|;
    SettleFrom(others, outcome, short, other);
    SettleTable(others, outcome, short);
    OfForeign(Settle(others, [], outcome, short).out, key, other);
    if outcome.Waiting? {
      RemoveKeeps(t, other, max);
      GoodDistinct(others, max);
      Newest(others, outcome.state, key);
    }
  }

  lemma GoodDistinct(t: Table, max: nat)
    requires Good(t, max)
    ensures Distinct(t)
  {
  }

  lemma OtherClose(t: Table, max: nat, other: Key, key: Key)
    requires Good(t, max) && key != other
    ensures StateOf(Flush(t, other).table, key) == StateOf(t, key)
    ensures Of(Flush(t, other).out, key) == []
  {
    hide Settled, Finish;
    RemoveOther(t, key, other);
    var i := IndexOf(t, other);
    if 0 <= i {
      FlushFrom(t[i]);
      OfForeign(Finish(t[i], false, None, Some(StreamEnded)), key, other);
    }
  }

  lemma OtherEvent(t: Table, max: nat, e: Event, key: Key, keys: set<Key>)
    requires max >= 1 && Good(t, max) && Within(t, keys) && EventKey(e) in keys && |keys| <= max
    requires EventKey(e) != key
    ensures StateOf(Apply(t, max, e).table, key) == StateOf(t, key)
    ensures Of(Apply(t, max, e).out, key) == []
  {
    hide Settled, Feed, Flush, StateOf, Remove;
    RoomForOne(t, max, EventKey(e), keys);
    match e
    case Read(other, data, total) => OtherRead(t, max, other, data, total, key);
    case Close(other) => OtherClose(t, max, other, key);
    case Forget(other) => RemoveOther(t, key, other);
  }

  lemma SettleOwn(others: Table, outcome: Outcome, key: Key)
    requires Distinct(others) && forall i :: 0 <= i < |others| ==> others[i].key != key
    requires outcome.Waiting? ==> Settled(outcome.state) && outcome.state.key == key
    ensures var e := Settle(others, [], outcome, false);
      && e.out == outcome.out
      && StateOf(e.table, key) == if outcome.Waiting? then outcome.state else Fresh(key)
  {
    hide Settled, StateOf;
    assert [] + outcome.out == outcome.out;
    StateOfMissing(others, key);
    if outcome.Waiting? {
      if IsIdle(outcome.state) {
        IdleIsFresh(outcome.state);
      }
      Newest(others, outcome.state, key);
    }
  }

  lemma OwnRead(t: Table, max: nat, key: Key, data: string)
    requires max >= 1 && Good(t, max) && |Remove(t, key)| + 1 <= max
    ensures var e := Feed(t, max, key, data, None);
      match FeedStream(StateOf(t, key), data)
      case Rejected(out) => Of(e.out, key) == out && StateOf(e.table, key) == Fresh(key)
      case Waiting(out, st) => Of(e.out, key) == out && StateOf(e.table, key) == st
  {
    hide FeedStream, Settled, Settle, Feed, Of;
    FeedRoom(t, max, key, data, None);
    FeedStreamSettles(t, key, data, max);
    FeedStreamFrom(t, key, data, max);
    RemoveKeeps(t, key, max);
    var outcome := FeedStream(StateOf(t, key), data);
    OfOwn(outcome.out, key);
    if IndexOf(t, key) < 0 && data == "" {
      NoData(StateOf(t, key));
    } else {
      SettleOwn(Remove(t, key), outcome, key);
    }
  }

  lemma NoData(st: State)
    ensures FeedStream(st, "") == Waiting([], st)
  {
  }

  lemma IdleIsFresh(st: State)
    requires Settled(st) && IsIdle(st)
    ensures st == Fresh(st.key)
  {
    hide Step;
  }

  // ----- whole histories

  lemma RemoveWithin(t: Table, key: Key, keys: set<Key>)
    requires Within(t, keys)
    ensures Within(Remove(t, key), keys)
  {
  }

  lemma SnocWithin(t: Table, st: State, keys: set<Key>)
    requires Within(t, keys) && st.key in keys
    ensures Within(t + [st], keys)
  {
  }

  lemma ReadWithin(t: Table, max: nat, key: Key, data: string, total: Option<nat>, keys: set<Key>)
    requires max >= 1 && Good(t, max) && Within(t, keys) && key in keys && |Remove(t, key)| + 1 <= max
    ensures Within(Feed(t, max, key, data, total).table, keys)
  {
    hide Good, Within, Feed, FeedStream, Settle, Remove, Settled;
    var outcome := FeedStream(StateOf(t, key), data);
    FeedRoom(t, max, key, data, total);
    FeedStreamSettles(t, key, data, max);
    SettleTable(Remove(t, key), outcome, total.Some? && total.value > |data|);
    RemoveWithin(t, key, keys);
    if outcome.Waiting? {
      SnocWithin(Remove(t, key), outcome.state, keys);
    }
  }

  lemma WithinKept(t: Table, max: nat, e: Event, keys: set<Key>)
    requires max >= 1 && Good(t, max) && Within(t, keys) && EventKey(e) in keys && |keys| <= max
    ensures Good(Apply(t, max, e).table, max) && Within(Apply(t, max, e).table, keys)
  {
    hide Good, Within, Feed, Flush, Remove, Settled;
    var other := EventKey(e);
    RoomForOne(t, max, other, keys);
    RemoveKeeps(t, other, max);
    RemoveWithin(t, other, keys);
    match e
    case Read(_, data, total) =>
      FeedKeepsGood(t, max, other, data, total);
      ReadWithin(t, max, other, data, total, keys);
    case Close(_) => FlushTable(t, other);
    case Forget(_) =>
  }

  lemma FlushTable(t: Table, key: Key)
    ensures Flush(t, key).table == Remove(t, key)
  {
  }

  // What the history says of one stream: its records are those of its own reads alone, and so is its
  // state, up to the first read that is rejected.
  ghost predicate SameAsAlone(effect: Effect, key: Key, alone: Outcome) {
    match alone
    case Waiting(out, st) => Of(effect.out, key) == out && StateOf(effect.table, key) == st
    case Rejected(out) => out <= Of(effect.out, key)
  }

  lemma {:induction false} Isolation(t: Table, max: nat, events: seq<Event>, key: Key, keys: set<Key>)
    requires max >= 1 && Good(t, max) && Within(t, keys) && EventsWithin(events, keys) && |keys| <= max
    requires OnlyRead(events, key)
    ensures SameAsAlone(History(t, max, events), key, FeedReads(StateOf(t, key), ReadsOf(events, key)))
    decreases |events|
  {
    hide Step, Settled, Feed, FeedStream, Of, StateOf, Apply;
    if events == [] {
      OfNothing(key);
    } else {
      var e, rest := events[0], events[1..];
      assert EventKey(e) in keys;
      WithinKept(t, max, e, keys);
      var first := Apply(t, max, e);
      Isolation(first.table, max, rest, key, keys);
      OfAppend(first.out, History(first.table, max, rest).out, key);
      if EventKey(e) != key {
        OtherEvent(t, max, e, key, keys);
        assert ReadsOf(events, key) == [] + ReadsOf(rest, key) == ReadsOf(rest, key);
        assert [] + Of(History(first.table, max, rest).out, key) == Of(History(first.table, max, rest).out, key);
      } else {
        assert e == events[0] && e == Read(key, e.data, None);
        RoomForOne(t, max, key, keys);
        OwnEvent(t, max, key, e.data);
        var own := ReadsOf(events, key);
        assert own == [e.data] + ReadsOf(rest, key);
        assert own[1..] == ReadsOf(rest, key);
      }
    }
  }

  lemma OwnEvent(t: Table, max: nat, key: Key, data: string)
    requires max >= 1 && Good(t, max) && |Remove(t, key)| + 1 <= max
    ensures SameAsAlone(Apply(t, max, Read(key, data, None)), key, FeedStream(StateOf(t, key), data))
  {
    hide Step, Settled, Feed, FeedStream, Of, StateOf;
    OwnRead(t, max, key, data);
  }

  lemma OfNothing(key: Key)
    ensures Of([], key) == []
  {
  }

  // ----- in terms of the bytes alone

  lemma {:induction false} ReadsWhole(st: State, parts: seq<string>)
    requires Settled(st) && !HasEdgeLine(Extend(st, Concat(parts)))
    ensures FeedReads(st, parts) == Run(Extend(st, Concat(parts)))
    decreases |parts|
  {
    hide Step, Run, HasEdgeLine, FeedStream;
    if parts == [] {
      NothingRead(st);
    } else {
      var first, rest := parts[0], Concat(parts[1..]);
      ExtendTwice(st, first, rest);
      var st' := Extend(st, first);
      ValidExtend(st, first);
      if HasEdgeLine(st') {
        EdgeLineExtend(st', rest);
      }
      FeedStreamWhole(st, first);
      RunExtend(st', rest);
      RunSettles(st');
      if Run(st').Waiting? {
        ReadsWhole(Run(st').state, parts[1..]);
      }
    }
  }

  lemma NothingRead(st: State)
    requires Settled(st)
    ensures Run(Extend(st, "")) == Waiting([], st)
  {
    hide Step;
    ExtendNothing(st);
  }

  // Any history of reads, closes and evictions of streams whose keys fit the table: the records of a
  // stream that is only read are those of parsing its bytes at once, and so is the state it is left in.
  lemma StreamAlone(max: nat, events: seq<Event>, key: Key, keys: set<Key>)
    requires max >= 1 && EventsWithin(events, keys) && |keys| <= max && OnlyRead(events, key)
    requires !HasEdgeLine(Idle(key, Concat(ReadsOf(events, key))))
    ensures SameAsAlone(History([], max, events), key, Run(Idle(key, Concat(ReadsOf(events, key)))))
  {
    hide Step, Run, HasEdgeLine, History, SameAsAlone;
    Isolation([], max, events, key, keys);
    StateOfMissing([], key);
    IdleWaits(key);
    var bytes := Concat(ReadsOf(events, key));
    assert Extend(Fresh(key), bytes) == Idle(key, bytes);
    ReadsWhole(Fresh(key), ReadsOf(events, key));
  }

  // Printed requests come back from their stream exactly, whatever the cuts and the other streams.
  lemma RequestsRecovered(max: nat, events: seq<Event>, key: Key, keys: set<Key>, ms: seq<HttpPrint.Message>)
    requires max >= 1 && EventsWithin(events, keys) && |keys| <= max && OnlyRead(events, key)
    requires forall i | 0 <= i < |ms| :: HttpPrint.WellFormed(ms[i], 8191)
    requires Concat(ReadsOf(events, key)) == PrintAll(ms)
    ensures Of(History([], max, events).out, key) == ExpectedAll(ms, key)
    ensures StateOf(History([], max, events).table, key) == Fresh(key)
  {
    hide Step, Run, HasEdgeLine, History;
    AllMessages(ms, key, 8191);
    IdleWaits(key);
    assert ExpectedAll(ms, key) + [] == ExpectedAll(ms, key);
    StreamAlone(max, events, key, keys);
  }
}
