// Accounting of the pauses of a debugged program, and clock readings with the pauses taken out.
module PauseClock {
  import opened Options

  // One stop of one process.
  datatype StopKey = StopKey(pid: int, id: int)

  datatype Pauses = Pauses(paused: int, stoppedAt: Option<int>, key: Option<StopKey>, resumedAt: int)

  function Max(a: int, b: int): int {
    if a >= b then a else b
  }

  // ----- the account as a value

  function Nothing(): Pauses {
    Pauses(0, None, None, 0)
  }

  function Stopped(p: Pauses, key: StopKey, stamp: int): Pauses {
    if p.key == Some(key) then p
    else p.(key := Some(key), stoppedAt := Some(Max(stamp, p.resumedAt)))
  }

  function OpenPause(p: Pauses, now: int): int {
    if p.stoppedAt.Some? then Max(0, now - p.stoppedAt.value) else 0
  }

  function TotalAt(p: Pauses, now: int): int {
    p.paused + OpenPause(p, now)
  }

  function Resumed(p: Pauses, now: int): Pauses {
    Pauses(TotalAt(p, now), None, p.key, now)
  }

  // A clock of the system. Its reading is `time * scale / divisor` ticks after its epoch.
  datatype Clock = Clock(name: string, scale: nat, divisor: nat, epoch: nat, monotonic: bool)

  function Known(last: map<Clock, int>, clock: Clock): int {
    if clock in last then last[clock] else 0
  }

  function Adjusted(total: int, last: map<Clock, int>, clock: Clock, tick: int): int
    requires clock.divisor > 0
  {
    var value := Max(0, tick - total * clock.scale / clock.divisor);
    if clock.monotonic then Max(value, Known(last, clock)) else value
  }

  function Remembered(last: map<Clock, int>, clock: Clock, value: int): map<Clock, int> {
    if clock.monotonic then last[clock := value] else last
  }

  // ----- the classes

  class PauseAccounting {
    var pausedNs: int
    var stoppedAt: Option<int>
    var key: Option<StopKey>
    var resumedAt: int

    function State(): Pauses
      reads this
    {
      Pauses(pausedNs, stoppedAt, key, resumedAt)
    }

    constructor ()
      ensures State() == Nothing()
    {
      pausedNs, stoppedAt, key, resumedAt := 0, None, None, 0;
    }

    // `now` is the reading of the clock, `observed` the time an event was noticed, when it came with one.
    method Stop(stop: StopKey, observed: Option<int>, now: int)
      modifies this
      ensures State() == Stopped(old(State()), stop, if observed == None then now else observed.value)
      ensures pausedNs == old(pausedNs) && resumedAt == old(resumedAt) && key == Some(stop)
      ensures old(key) == Some(stop) ==> stoppedAt == old(stoppedAt)
      ensures old(key) != Some(stop) ==>
        stoppedAt.Some? && stoppedAt.value >= resumedAt
        && var stamp := if observed == None then now else observed.value;
           stoppedAt.value >= stamp && (stoppedAt.value == stamp || stoppedAt.value == resumedAt)
    {
      var stamp := if observed == None then now else observed.value;
      if key == Some(stop) {
        return;
      }
      key := Some(stop);
      stoppedAt := Some(Max(stamp, resumedAt));
    }

    method Total(now: int) returns (total: int)
      ensures total == TotalAt(State(), now) && total >= pausedNs
      ensures stoppedAt == None ==> total == pausedNs
      ensures stoppedAt.Some? && stoppedAt.value <= now ==> total - pausedNs == now - stoppedAt.value
    {
      total := pausedNs;
      if stoppedAt.Some? {
        total := total + Max(0, now - stoppedAt.value);
      }
    }

    method Resume(now: int) returns (token: Pauses)
      modifies this
      ensures token == old(State()) && State() == Resumed(old(State()), now)
      ensures stoppedAt == None && resumedAt == now && key == old(key)
      ensures forall later :: TotalAt(State(), later) == TotalAt(old(State()), now)
      ensures pausedNs >= old(pausedNs)
    {
      token := Pauses(pausedNs, stoppedAt, key, resumedAt);
      if stoppedAt.Some? {
        pausedNs := pausedNs + Max(0, now - stoppedAt.value);
      }
      stoppedAt := None;
      resumedAt := now;
    }

    method Rollback(token: Pauses)
      modifies this
      ensures State() == token
      ensures forall later :: TotalAt(State(), later) == TotalAt(token, later)
    {
      pausedNs, stoppedAt, key, resumedAt := token.paused, token.stoppedAt, token.key, token.resumedAt;
    }
  }

  class AutomaticClock {
    const pauses: PauseAccounting
    var last: map<Clock, int>

    constructor ()
      ensures fresh(pauses) && pauses.State() == Nothing() && last == map[]
    {
      pauses := new PauseAccounting();
      last := map[];
    }

    // The boundary every resume goes through; `accepted` is what the process answers.
    method RunExecution(stop: StopKey, observedAt: int, now: int, accepted: bool)
      modifies pauses
      ensures var seen := Stopped(old(pauses.State()), stop, observedAt);
              && pauses.State() == (if accepted then Resumed(seen, now) else seen)
              && forall later :: TotalAt(pauses.State(), later) == TotalAt(seen, if accepted then now else later)
      ensures !accepted && old(pauses.key) == Some(stop) ==> pauses.State() == old(pauses.State())
      ensures accepted ==> pauses.stoppedAt == None && pauses.resumedAt == now
    {
      pauses.Stop(stop, None, observedAt);
      var token := pauses.Resume(now);
      if !accepted {
        pauses.Rollback(token);
      }
    }

    method Adjust(tick: int, clock: Clock, now: int) returns (value: int)
      requires clock.divisor > 0
      modifies this
      ensures value == Adjusted(TotalAt(pauses.State(), now), old(last), clock, tick)
      ensures last == Remembered(old(last), clock, value)
      ensures var moved := tick - TotalAt(pauses.State(), now) * clock.scale / clock.divisor;
              value >= 0 && value >= moved
              && (value == moved || value == 0 || (clock.monotonic && value == Known(old(last), clock)))
      ensures if clock.monotonic then value >= Known(old(last), clock) && Known(last, clock) == value else last == old(last)
      ensures forall other :: other != clock ==> Known(last, other) == Known(old(last), other)
    {
      var total := pauses.Total(now);
      value := Max(0, tick - total * clock.scale / clock.divisor);
      if clock.monotonic {
        value := Max(value, Known(last, clock));
        last := last[clock := value];
      }
    }
  }

  // ----- what really happens

  datatype Event =
    | Observe(key: StopKey, stamp: int, at: int)
    | Resume(at: int)
    | Refuse(key: StopKey, at: int)
    | Read(clock: Clock, sampled: int, at: int)

  datatype Span = Span(from: int, to: int)

  // The account and the readings beside the true pauses: since when the target is stopped and the pauses
  // that are over.
  datatype World = World(p: Pauses, last: map<Clock, int>, since: Option<int>, spans: seq<Span>, now: int)

  function Begin(): World {
    World(Nothing(), map[], None, [], 0)
  }

  // A clock's own reading.
  function Tick(clock: Clock, time: int): int
    requires clock.divisor > 0
  {
    time * clock.scale / clock.divisor + clock.epoch
  }

  // Time runs forward, a stop is noticed before it is handled, another one not before the target stopped,
  // and clocks are only read while the target is stopped.
  predicate Possible(w: World, e: Event) {
    && w.now <= e.at
    && match e
       case Observe(key, stamp, at) => stamp <= at && (w.since.Some? && w.p.key != Some(key) ==> w.since.value <= stamp)
       case Resume(_) => true
       case Refuse(_, _) => true
       case Read(clock, sampled, at) => w.since.Some? && clock.divisor > 0 && w.now <= sampled <= at
  }

  // Stops of a process are numbered upwards, so that a target that was resumed never stops under the last
  // key again; a stop seen under another key is seen after the one before it.
  predicate Numbered(w: World, e: Event) {
    match e
    case Observe(key, stamp, _) =>
      if w.since == None then w.p.key != Some(key)
      else w.p.key != Some(key) && w.p.stoppedAt.Some? ==> w.p.stoppedAt.value <= stamp
    case Refuse(key, _) => w.since == None ==> w.p.key != Some(key)
    case _ => true
  }

  function Since(w: World, stamp: int): Option<int> {
    if w.since.Some? then w.since else Some(Max(stamp, w.p.resumedAt))
  }

  function Next(w: World, e: Event): World
    requires Possible(w, e)
  {
    match e
    case Observe(key, stamp, at) => w.(p := Stopped(w.p, key, stamp), since := Since(w, stamp), now := at)
    case Resume(at) =>
      World(Resumed(w.p, at), w.last, None,
            if w.since.Some? then w.spans + [Span(w.since.value, at)] else w.spans, at)
    case Refuse(key, at) => w.(p := Stopped(w.p, key, at), since := Since(w, at), now := at)
    case Read(clock, sampled, at) =>
      var value := Adjusted(TotalAt(w.p, at), w.last, clock, Tick(clock, sampled));
      w.(last := Remembered(w.last, clock, value), now := at)
  }

  ghost predicate PossibleRun(events: seq<Event>)
    decreases |events|, 0
  {
    events == []
    || (PossibleRun(events[..|events| - 1]) && Possible(Run(events[..|events| - 1]), events[|events| - 1]))
  }

  ghost function Run(events: seq<Event>): World
    requires PossibleRun(events)
    decreases |events|, 1
  {
    if events == [] then Begin() else Next(Run(events[..|events| - 1]), events[|events| - 1])
  }

  ghost predicate NumberedRun(events: seq<Event>)
    requires PossibleRun(events)
  {
    events == []
    || (NumberedRun(events[..|events| - 1]) && Numbered(Run(events[..|events| - 1]), events[|events| - 1]))
  }

  function Length(spans: seq<Span>): int {
    if spans == [] then 0
    else Length(spans[..|spans| - 1]) + spans[|spans| - 1].to - spans[|spans| - 1].from
  }

  // How long the target has been stopped by the time `now`.
  function TrulyStopped(w: World, now: int): int {
    Length(w.spans) + if w.since.Some? then now - w.since.value else 0
  }

  // Pauses in order, none overlapping the next, all over by `end`.
  predicate InOrder(spans: seq<Span>, end: int) {
    && (forall i :: 0 <= i < |spans| ==> 0 <= spans[i].from <= spans[i].to <= end)
    && forall i, j :: 0 <= i < j < |spans| ==> spans[i].to <= spans[j].from
  }

  // ----- the account never exceeds the truth

  predicate Sound(w: World) {
    && 0 <= w.p.resumedAt <= w.now
    && InOrder(w.spans, w.p.resumedAt)
    && (w.since.Some? ==> w.p.resumedAt <= w.since.value <= w.now)
    && (w.p.stoppedAt.Some? ==> w.since.Some? && w.since.value <= w.p.stoppedAt.value <= w.now)
    && 0 <= w.p.paused <= Length(w.spans)
  }

  lemma LengthOne(spans: seq<Span>, s: Span)
    ensures Length(spans + [s]) == Length(spans) + s.to - s.from
  {
    assert (spans + [s])[..|spans|] == spans;
  }

  lemma SoundStop(w: World, key: StopKey, stamp: int, at: int)
    requires Sound(w) && w.now <= at && stamp <= at
    requires w.since.Some? && w.p.key != Some(key) ==> w.since.value <= stamp
    ensures Sound(w.(p := Stopped(w.p, key, stamp), since := Since(w, stamp), now := at))
  {
    assert InOrder(w.spans, w.p.resumedAt);
    hide InOrder;
  }

  lemma InOrderOne(spans: seq<Span>, end: int, s: Span, later: int)
    requires InOrder(spans, end) && 0 <= end <= s.from <= s.to <= later
    ensures InOrder(spans + [s], later)
  {
  }

  lemma InOrderLater(spans: seq<Span>, end: int, later: int)
    requires InOrder(spans, end) && end <= later
    ensures InOrder(spans, later)
  {
  }

  lemma SoundResume(w: World, at: int)
    requires Sound(w) && w.now <= at
    ensures Sound(Next(w, Resume(at)))
  {
    hide InOrder;
    if w.since.Some? {
      var s := Span(w.since.value, at);
      LengthOne(w.spans, s);
      InOrderOne(w.spans, w.p.resumedAt, s, at);
    } else {
      InOrderLater(w.spans, w.p.resumedAt, at);
    }
  }

  lemma SoundNext(w: World, e: Event)
    requires Sound(w) && Possible(w, e)
    ensures Sound(Next(w, e))
  {
    hide InOrder;
    match e {
      case Observe(key, stamp, at) => SoundStop(w, key, stamp, at);
      case Resume(at) => SoundResume(w, at);
      case Refuse(key, at) => SoundStop(w, key, at, at);
      case Read(_, _, _) =>
    }
  }

  lemma {:induction false} RunSound(events: seq<Event>)
    requires PossibleRun(events)
    ensures Sound(Run(events))
  {
    if events != [] {
      RunSound(events[..|events| - 1]);
      SoundNext(Run(events[..|events| - 1]), events[|events| - 1]);
    }
  }

  lemma {:induction false} LengthWithin(spans: seq<Span>, end: int)
    requires InOrder(spans, end)
    ensures 0 <= Length(spans) && (spans != [] ==> Length(spans) <= spans[|spans| - 1].to - spans[0].from)
  {
    if spans != [] {
      var rest := spans[..|spans| - 1];
      LengthWithin(rest, end);
      if rest != [] {
        assert rest[|rest| - 1].to <= spans[|spans| - 1].from;
      }
    }
  }

  // Whatever is observed, even stops seen twice or under a stale key: the pauses are disjoint, the account
  // is at most what was spent stopped, and that is at most what has elapsed since the first stop.
  lemma PauseBound(events: seq<Event>, now: int)
    requires PossibleRun(events) && Run(events).now <= now
    ensures var w := Run(events);
            && InOrder(w.spans, w.now)
            && 0 <= TotalAt(w.p, now) <= TrulyStopped(w, now)
            && (w.spans != [] ==> TrulyStopped(w, now) <= now - w.spans[0].from)
            && TrulyStopped(w, now) <= now
  {
    RunSound(events);
    var w := Run(events);
    LengthWithin(w.spans, w.p.resumedAt);
  }

  // ----- and what it misses

  // A pause is open in the account exactly while the target is stopped.
  predicate Steady(w: World) {
    Sound(w) && (w.since.Some? <==> w.p.stoppedAt.Some?)
  }

  // The true pauses less the account.
  function Missing(w: World): int {
    Length(w.spans) - w.p.paused
    + if w.since.Some? && w.p.stoppedAt.Some? then w.p.stoppedAt.value - w.since.value else 0
  }

  // A new key while the pause is open starts the pause again: what it had lasted is lost.
  function LostBy(w: World, e: Event): int {
    match e
    case Observe(key, stamp, _) => if w.p.stoppedAt.Some? && w.p.key != Some(key) then stamp - w.p.stoppedAt.value else 0
    case Refuse(key, at) => if w.p.stoppedAt.Some? && w.p.key != Some(key) then at - w.p.stoppedAt.value else 0
    case _ => 0
  }

  ghost function Lost(events: seq<Event>): int
    requires PossibleRun(events)
  {
    if events == [] then 0 else Lost(events[..|events| - 1]) + LostBy(Run(events[..|events| - 1]), events[|events| - 1])
  }

  // The stop is seen under another key, later than the pause began.
  predicate Restarts(w: World, e: Event) {
    match e
    case Observe(key, stamp, _) => w.p.stoppedAt.Some? && w.p.key != Some(key) && stamp != w.p.stoppedAt.value
    case Refuse(key, at) => w.p.stoppedAt.Some? && w.p.key != Some(key) && at != w.p.stoppedAt.value
    case _ => false
  }

  ghost predicate NeverRestarts(events: seq<Event>)
    requires PossibleRun(events)
  {
    events == []
    || (NeverRestarts(events[..|events| - 1]) && !Restarts(Run(events[..|events| - 1]), events[|events| - 1]))
  }

  lemma SteadyNext(w: World, e: Event)
    requires Steady(w) && Possible(w, e) && Numbered(w, e)
    ensures Steady(Next(w, e)) && Missing(Next(w, e)) == Missing(w) + LostBy(w, e)
    ensures LostBy(w, e) >= 0 && (LostBy(w, e) == 0 <==> !Restarts(w, e))
  {
    SoundNext(w, e);
    assert 0 <= w.p.resumedAt && (w.p.stoppedAt.Some? ==> w.p.resumedAt <= w.p.stoppedAt.value <= w.now);
    if e.Resume? && w.since.Some? {
      LengthOne(w.spans, Span(w.since.value, e.at));
    }
    hide InOrder;
  }

  lemma {:induction false} RunSteady(events: seq<Event>)
    requires PossibleRun(events) && NumberedRun(events)
    ensures Steady(Run(events)) && Missing(Run(events)) == Lost(events)
    ensures Lost(events) >= 0 && (Lost(events) == 0 <==> NeverRestarts(events))
  {
    if events != [] {
      RunSteady(events[..|events| - 1]);
      SteadyNext(Run(events[..|events| - 1]), events[|events| - 1]);
    }
  }

  // At every later moment the account falls short of the true pauses by what was lost to restarts, and it is
  // exact if and only if no open pause was ever seen again under another key and a later time.
  lemma PauseExact(events: seq<Event>, now: int)
    requires PossibleRun(events) && NumberedRun(events) && Run(events).now <= now
    ensures TotalAt(Run(events).p, now) == TrulyStopped(Run(events), now) - Lost(events)
    ensures TotalAt(Run(events).p, now) == TrulyStopped(Run(events), now) <==> NeverRestarts(events)
  {
    hide InOrder;
    RunSteady(events);
  }

  // A stop seen under a new key while the pause of the one before is open: its beginning is not counted.
  lemma RestartLoses(pid: int)
    ensures var events := [Observe(StopKey(pid, 1), 0, 0), Observe(StopKey(pid, 2), 10, 10)];
            && PossibleRun(events) && NumberedRun(events)
            && TotalAt(Run(events).p, 30) == 20 && TrulyStopped(Run(events), 30) == 30
  {
    hide PossibleRun, Run, Length, NumberedRun;
    var first, second := Observe(StopKey(pid, 1), 0, 0), Observe(StopKey(pid, 2), 10, 10);
    EmptyRun();
    RunAppend([], first);
    assert Run([] + [first]) == World(Pauses(0, Some(0), Some(StopKey(pid, 1)), 0), map[], Some(0), [], 0);
    RunAppend([] + [first], second);
    NoLength();
    assert [] + [first] + [second] == [first, second];
  }

  lemma EmptyRun()
    ensures PossibleRun([]) && Run([]) == Begin() && NumberedRun([])
  {
  }

  lemma NoLength()
    ensures Length([]) == 0
  {
  }

  lemma RunAppend(events: seq<Event>, e: Event)
    requires PossibleRun(events) && Possible(Run(events), e)
    ensures PossibleRun(events + [e]) && Run(events + [e]) == Next(Run(events), e)
    ensures NumberedRun(events + [e]) <==> NumberedRun(events) && Numbered(Run(events), e)
  {
    assert (events + [e])[..|events|] == events;
  }

  // ----- readings

  // For how long the target has run, up to the stop it is at or the last time it was resumed.
  function TrulyRunning(w: World): int {
    (if w.since.Some? then w.since.value else w.p.resumedAt) - Length(w.spans)
  }

  // The same by the account.
  function Running(w: World): int {
    (if w.p.stoppedAt.Some? then w.p.stoppedAt.value else w.p.resumedAt) - w.p.paused
  }

  // `value` is within a tick of the time `running`; it may trail by the time between sampling the clock
  // and adding up the pauses.
  predicate WithinTick(clock: Clock, value: int, running: int, skew: int) {
    && value * clock.divisor < running * clock.scale + clock.epoch * clock.divisor + clock.divisor
    && value * clock.divisor > (running - skew) * clock.scale + clock.epoch * clock.divisor - clock.divisor
  }

  predicate Behind(clock: Clock, value: int, running: int) {
    value * clock.divisor < running * clock.scale + clock.epoch * clock.divisor + clock.divisor
  }

  predicate Timely(w: World) {
    && Steady(w) && 0 <= Running(w)
    && forall clock :: clock in w.last ==> Behind(clock, w.last[clock], Running(w))
  }

  lemma BehindLater(clock: Clock, value: int, running: int, later: int)
    requires Behind(clock, value, running) && running <= later
    ensures Behind(clock, value, later)
  {
    assert later * clock.scale - running * clock.scale == (later - running) * clock.scale;
    assert (later - running) * clock.scale >= 0;
  }

  // Rounding each of two times down costs less than a tick of their difference.
  lemma FloorDifference(a: int, b: int, d: int)
    requires d > 0
    ensures a - b - d < (a / d - b / d) * d < a - b + d
  {
    assert (a / d - b / d) * d == a / d * d - b / d * d;
    assert a == a / d * d + a % d && b == b / d * d + b % d;
  }

  lemma RawWithin(clock: Clock, sampled: int, total: int, running: int, skew: int)
    requires clock.divisor > 0 && sampled - total == running - skew && 0 <= running && 0 <= skew
    ensures var value := Max(0, Tick(clock, sampled) - total * clock.scale / clock.divisor);
            WithinTick(clock, value, running, skew)
  {
    var s, d, c := clock.scale, clock.divisor, clock.epoch;
    var raw := sampled * s / d - total * s / d;
    FloorDifference(sampled * s, total * s, d);
    assert sampled * s - total * s == (running - skew) * s;
    assert running * s - (running - skew) * s == skew * s >= 0;
    assert (raw + c) * d == raw * d + c * d;
    assert running * s >= 0 && c * d >= 0;
  }

  lemma ReadWithin(w: World, clock: Clock, sampled: int, at: int)
    requires Timely(w) && Possible(w, Read(clock, sampled, at))
    ensures var value := Adjusted(TotalAt(w.p, at), w.last, clock, Tick(clock, sampled));
            && WithinTick(clock, value, Running(w), at - sampled)
            && (clock.monotonic && clock in w.last ==> w.last[clock] <= value)
  {
    hide Tick;
    var total := TotalAt(w.p, at);
    RawWithin(clock, sampled, total, Running(w), at - sampled);
    var raw := Max(0, Tick(clock, sampled) - total * clock.scale / clock.divisor);
    var value := Adjusted(total, w.last, clock, Tick(clock, sampled));
    if value != raw {
      assert value == Known(w.last, clock) && raw < value;
      Scaled(raw, value, clock.divisor);
    }
  }

  lemma Scaled(a: int, b: int, d: nat)
    requires a <= b
    ensures a * d <= b * d
  {
  }

  lemma TimelyRead(w: World, clock: Clock, sampled: int, at: int)
    requires Timely(w) && Possible(w, Read(clock, sampled, at))
    ensures Timely(Next(w, Read(clock, sampled, at)))
  {
    hide InOrder, Adjusted, Tick, TotalAt;
    ReadWithin(w, clock, sampled, at);
  }

  lemma RunningGrows(w: World, e: Event)
    requires Steady(w) && Possible(w, e) && Numbered(w, e) && !e.Read?
    ensures Running(w) <= Running(Next(w, e))
  {
    hide InOrder;
  }

  lemma TimelyNext(w: World, e: Event)
    requires Timely(w) && Possible(w, e) && Numbered(w, e)
    ensures Timely(Next(w, e))
  {
    if e.Read? {
      TimelyRead(w, e.clock, e.sampled, e.at);
    } else {
      SteadyNext(w, e);
      RunningGrows(w, e);
      hide InOrder, Behind, Steady, Running;
      var next := Next(w, e);
      forall clock | clock in next.last ensures Behind(clock, next.last[clock], Running(next)) {
        BehindLater(clock, w.last[clock], Running(w), Running(next));
      }
    }
  }

  lemma {:induction false} RunTimely(events: seq<Event>)
    requires PossibleRun(events) && NumberedRun(events)
    ensures Timely(Run(events))
  {
    if events == [] {
      assert InOrder([], 0);
    } else {
      hide InOrder;
      RunTimely(events[..|events| - 1]);
      TimelyNext(Run(events[..|events| - 1]), events[|events| - 1]);
    }
  }

  // The value read by the event at `i` of a run.
  ghost function ValueRead(events: seq<Event>, i: nat): int
    requires PossibleRun(events) && i < |events| && events[i].Read? && PossibleRun(events[..i])
    requires Possible(Run(events[..i]), events[i])
  {
    var w := Run(events[..i]);
    Adjusted(TotalAt(w.p, events[i].at), w.last, events[i].clock, Tick(events[i].clock, events[i].sampled))
  }

  lemma {:induction false} PrefixRuns(events: seq<Event>, i: nat)
    requires PossibleRun(events) && i <= |events|
    ensures PossibleRun(events[..i])
    ensures i < |events| ==> Possible(Run(events[..i]), events[i])
    ensures i < |events| ==> PossibleRun(events[..i + 1]) && Run(events[..i + 1]) == Next(Run(events[..i]), events[i])
    decreases |events|
  {
    hide Possible, Next;
    if i == |events| {
      assert events[..i] == events;
    } else if i == |events| - 1 {
      assert events[..i + 1] == events;
    } else {
      var rest := events[..|events| - 1];
      PrefixRuns(rest, i);
      assert rest[..i] == events[..i] && rest[..i + 1] == events[..i + 1];
    }
  }

  lemma {:induction false} PrefixNumbered(events: seq<Event>, i: nat)
    requires PossibleRun(events) && NumberedRun(events) && i <= |events|
    ensures PossibleRun(events[..i]) && NumberedRun(events[..i])
    decreases |events|
  {
    hide Possible, Next, Numbered;
    if i == |events| {
      assert events[..i] == events;
    } else {
      PrefixNumbered(events[..|events| - 1], i);
      assert events[..|events| - 1][..i] == events[..i];
    }
  }

  lemma ReadTruly(w: World, clock: Clock, sampled: int, at: int)
    requires Timely(w) && Possible(w, Read(clock, sampled, at))
    ensures WithinTick(clock, Adjusted(TotalAt(w.p, at), w.last, clock, Tick(clock, sampled)),
                       TrulyRunning(w) + Missing(w), at - sampled)
  {
    hide InOrder, Adjusted, Tick, TotalAt, WithinTick, Behind;
    ReadWithin(w, clock, sampled, at);
    assert Running(w) == TrulyRunning(w) + Missing(w);
  }

  // Every reading of a run is within a tick of the time the target has truly been running, more exactly of
  // that time and what was lost to restarts before it.
  lemma ReadingsWithinTick(events: seq<Event>, i: nat)
    requires PossibleRun(events) && NumberedRun(events) && i < |events| && events[i].Read?
    ensures PossibleRun(events[..i]) && Possible(Run(events[..i]), events[i])
    ensures WithinTick(events[i].clock, ValueRead(events, i), TrulyRunning(Run(events[..i])) + Lost(events[..i]),
                       events[i].at - events[i].sampled)
    ensures Lost(events[..i]) >= 0 && (Lost(events[..i]) == 0 <==> NeverRestarts(events[..i]))
  {
    hide InOrder, Adjusted, Tick, TotalAt, WithinTick, Run, PossibleRun, NumberedRun, Lost, NeverRestarts, Possible, Next,
      Timely, Steady, Missing, TrulyRunning;
    PrefixRuns(events, i);
    PrefixNumbered(events, i);
    RunSteady(events[..i]);
    RunTimely(events[..i]);
    ReadTruly(Run(events[..i]), events[i].clock, events[i].sampled, events[i].at);
  }

  lemma LastGrows(w: World, e: Event, clock: Clock)
    requires Possible(w, e) && clock.monotonic && clock in w.last
    ensures clock in Next(w, e).last && w.last[clock] <= Next(w, e).last[clock]
  {
    hide TotalAt, Tick;
  }

  lemma {:induction false} ReadingKept(events: seq<Event>, i: nat, j: nat)
    requires PossibleRun(events) && i < j <= |events| && events[i].Read? && events[i].clock.monotonic
    requires PossibleRun(events[..i]) && Possible(Run(events[..i]), events[i])
    ensures PossibleRun(events[..j])
    ensures var last := Run(events[..j]).last;
            events[i].clock in last && ValueRead(events, i) <= last[events[i].clock]
    decreases j
  {
    hide Possible, TotalAt, Tick, Adjusted, Run, PossibleRun;
    PrefixRuns(events, j);
    PrefixRuns(events, j - 1);
    if i < j - 1 {
      hide Next, ValueRead;
      ReadingKept(events, i, j - 1);
      LastGrows(Run(events[..j - 1]), events[j - 1], events[i].clock);
    }
  }

  // On any run at all, a monotonic clock never reads less than it did before.
  lemma ReadingsNeverFall(events: seq<Event>, i: nat, j: nat)
    requires PossibleRun(events) && i < j < |events| && events[i].Read? && events[j].Read?
    requires events[i].clock == events[j].clock && events[i].clock.monotonic
    ensures PossibleRun(events[..i]) && Possible(Run(events[..i]), events[i])
    ensures PossibleRun(events[..j]) && Possible(Run(events[..j]), events[j])
    ensures ValueRead(events, i) <= ValueRead(events, j)
  {
    hide TotalAt, Tick;
    PrefixRuns(events, i);
    PrefixRuns(events, j);
    ReadingKept(events, i, j);
  }
}
