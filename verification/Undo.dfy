// Edits and undo as functions of one session's state, and the proof that undo inverts any run of edits: the
// target always, and the tracked list exactly when it was current where they wrote.
module Undo {
  import opened Options
  import opened Patches
  import opened Edits
  import opened PatchLists
  import opened DebuggerMemory

  datatype Edit =
    | MemoryEdit(addr: int, before: seq<Byte>, after: seq<Byte>, stop: nat)
    | RegisterEdit(register: Name, before: seq<Byte>, after: seq<Byte>, stop: nat, thread: nat)

  const DEPTH: nat := 100

  // The most recent edits that are kept.
  function Capped(edits: seq<Edit>): seq<Edit> {
    if |edits| > DEPTH then edits[|edits| - DEPTH..] else edits
  }

  // The target at one stop, the tracked list and the undo stack.
  datatype Session = Session(
    memory: Memory, registers: Registers, patches: seq<Patch>, edits: seq<Edit>,
    stopped: bool, stop: nat, thread: nat)

  datatype Request = EditMemory(addr: int, data: seq<Byte>) | EditRegister(name: Name, data: seq<Byte>)

  // ----- what an edit that succeeds and an undo that succeeds do

  // The edit is not refused.
  ghost predicate Accepted(s: Session, request: Request) {
    s.stopped
    && match request
       case EditMemory(addr, data) => 1 <= |data| <= 4096 && Mapped(s.memory, addr, |data|)
       case EditRegister(name, data) => CellOf(name) in s.registers && |data| == |Show(s.registers, name)|
  }

  // What is pushed on the stack.
  function RecordOf(s: Session, request: Request): Edit
    requires Accepted(s, request)
  {
    match request
    case EditMemory(addr, data) => MemoryEdit(addr, Bytes(s.memory, addr, |data|), data, s.stop)
    case EditRegister(name, data) =>
      RegisterEdit(Parent(name), s.registers[CellOf(name)], Widened(s.registers, name, data), s.stop, s.thread)
  }

  function Perform(s: Session, request: Request): Session
    requires Accepted(s, request) && AllSameLengths(s.patches)
  {
    var edits := Capped(s.edits + [RecordOf(s, request)]);
    match request
    case EditMemory(addr, data) =>
      s.(memory := Put(s.memory, addr, data), patches := Recorded(s.patches, s.memory, addr, data), edits := edits)
    case EditRegister(name, data) =>
      s.(registers := s.registers[CellOf(name) := Widened(s.registers, name, data)], edits := edits)
  }

  // Undo is available at the stop (and, for a register, in the thread) of the last edit.
  predicate CanUndo(s: Session) {
    s.stopped && s.edits != [] && s.edits[|s.edits| - 1].stop == s.stop
    && (s.edits[|s.edits| - 1].RegisterEdit? ==> s.edits[|s.edits| - 1].thread == s.thread)
  }

  // None when undo is refused: the target has run, or something else has changed the edited bytes.
  function UndoOnce(s: Session): Option<Session>
    requires AllSameLengths(s.patches)
  {
    if !CanUndo(s) then None
    else
      var e, rest := s.edits[|s.edits| - 1], s.edits[..|s.edits| - 1];
      match e
      case MemoryEdit(addr, before, after, _) =>
        if |before| != |after| || !Mapped(s.memory, addr, |after|) || Bytes(s.memory, addr, |after|) != after then None
        else
          Some(s.(memory := Put(s.memory, addr, before), patches := Recorded(s.patches, s.memory, addr, before),
                  edits := rest))
      case RegisterEdit(register, before, after, _, _) =>
        var cell := CellOf(register);
        if cell !in s.registers || s.registers[cell] != after then None
        else Some(s.(registers := s.registers[cell := before], edits := rest))
  }

  // ----- what one edit and one undo keep

  // The list is the difference between the original and the current memory.
  ghost predicate Tracked(s: Session, original: Memory) {
    s.memory.Keys == original.Keys && IsDiff(s.patches, original, s.memory) && ValidRegisters(s.registers)
  }

  // The same target; the undo stack of `a` is the top of that of `b`.
  ghost predicate SameTarget(a: Session, b: Session) {
    a.(edits := [], patches := []) == b.(edits := [], patches := [])
    && |a.edits| <= |b.edits| && a.edits == b.edits[|b.edits| - |a.edits|..]
  }

  ghost predicate MovedTo(s: Session, t: Session, touched: set<int>) {
    Moved(s.patches, s.memory, t.patches, t.memory, touched)
  }

  function TouchedBy(request: Request): set<int> {
    match request
    case EditMemory(addr, data) => Span(addr, |data|)
    case EditRegister(_, _) => {}
  }

  lemma PerformKeepsTracked(s: Session, request: Request, original: Memory)
    requires Tracked(s, original) && Accepted(s, request)
    ensures AllSameLengths(s.patches) && Tracked(Perform(s, request), original)
  {
    hide IsDiff, Recorded, RecordOf;
    DiffLengths(s.patches, original, s.memory);
    match request
    case EditMemory(addr, data) => RecordedIsDiff(original, s.memory, s.patches, addr, data);
    case EditRegister(name, data) => WidenedSize(s.registers, name, data);
  }

  lemma WidenedSize(r: Registers, name: Name, data: seq<Byte>)
    requires ValidRegisters(r) && CellOf(name) in r && |data| == |Show(r, name)|
    ensures |Widened(r, name, data)| == |r[CellOf(name)]|
  {
  }

  lemma PerformMoves(s: Session, request: Request)
    requires Canonical(s.patches) && Accepted(s, request)
    ensures AllSameLengths(s.patches) && MovedTo(s, Perform(s, request), TouchedBy(request))
  {
    hide Canonical, Recorded, RecordOf, Moved;
    CanonicalLengths(s.patches);
    match request
    case EditMemory(addr, data) => RecordedMoves(s.patches, s.memory, addr, data);
    case EditRegister(_, _) => NothingMoves(s.patches, s.memory);
  }

  lemma MovedCanonical(s: Session, t: Session, touched: set<int>)
    requires MovedTo(s, t, touched)
    ensures Canonical(s.patches) && Canonical(t.patches) && AllSameLengths(s.patches) && AllSameLengths(t.patches)
  {
  }

  lemma CappedTop(edits: seq<Edit>, e: Edit)
    ensures var c := Capped(edits + [e]);
      && c != [] && c[|c| - 1] == e
      && |c| - 1 <= |edits| && c[..|c| - 1] == edits[|edits| - (|c| - 1)..]
  {
  }

  lemma PerformTop(s: Session, request: Request)
    requires Accepted(s, request) && AllSameLengths(s.patches)
    ensures var c := Perform(s, request).edits;
      && c != [] && c[|c| - 1] == RecordOf(s, request)
      && |c| - 1 <= |s.edits| && c[..|c| - 1] == s.edits[|s.edits| - (|c| - 1)..]
  {
    hide RecordOf, Recorded;
    CappedTop(s.edits, RecordOf(s, request));
  }

  // Undo of an edit, in any state that agrees on everything but the list: not refused, the target is as
  // before the edit, and the list moves with it.
  lemma UndoEdit(s: Session, request: Request, u: Session)
    requires AllSameLengths(s.patches) && Accepted(s, request) && Canonical(u.patches)
    requires SameTarget(u, Perform(s, request)) && u.edits != []
    ensures AllSameLengths(u.patches) && UndoOnce(u).Some?
    ensures SameTarget(UndoOnce(u).value, s) && MovedTo(u, UndoOnce(u).value, TouchedBy(request))
  {
    hide Canonical, Recorded, Moved;
    CanonicalLengths(u.patches);
    PerformTop(s, request);
    var n, c := |u.edits| - 1, Perform(s, request).edits;
    assert u.edits[n] == c[|c| - 1] == RecordOf(s, request);
    assert u.edits[..n] == c[..|c| - 1][|c| - 1 - n..] == s.edits[|s.edits| - n..];
    match request
    case EditMemory(addr, data) => UndoMemory(s, addr, data, u);
    case EditRegister(name, data) => UndoRegister(s, name, data, u);
  }

  lemma UndoMemory(s: Session, addr: int, data: seq<Byte>, u: Session)
    requires Accepted(s, EditMemory(addr, data)) && Canonical(u.patches) && AllSameLengths(u.patches)
    requires u.edits != [] && |u.edits| - 1 <= |s.edits|
    requires u.edits[|u.edits| - 1] == RecordOf(s, EditMemory(addr, data))
    requires u.edits[..|u.edits| - 1] == s.edits[|s.edits| - (|u.edits| - 1)..]
    requires u.(edits := [], patches := []) == s.(memory := Put(s.memory, addr, data), edits := [], patches := [])
    ensures UndoOnce(u).Some?
    ensures SameTarget(UndoOnce(u).value, s) && MovedTo(u, UndoOnce(u).value, Span(addr, |data|))
  {
    hide Canonical, Recorded, Moved;
    MemoryRestored(s.memory, addr, data);
    RecordedMoves(u.patches, u.memory, addr, Bytes(s.memory, addr, |data|));
  }

  lemma UndoRegister(s: Session, name: Name, data: seq<Byte>, u: Session)
    requires Accepted(s, EditRegister(name, data)) && Canonical(u.patches) && AllSameLengths(u.patches)
    requires u.edits != [] && |u.edits| - 1 <= |s.edits|
    requires u.edits[|u.edits| - 1] == RecordOf(s, EditRegister(name, data))
    requires u.edits[..|u.edits| - 1] == s.edits[|s.edits| - (|u.edits| - 1)..]
    requires u.(edits := [], patches := [])
          == s.(registers := s.registers[CellOf(name) := Widened(s.registers, name, data)], edits := [], patches := [])
    ensures UndoOnce(u).Some?
    ensures SameTarget(UndoOnce(u).value, s) && MovedTo(u, UndoOnce(u).value, {})
  {
    hide Canonical, Widened, Moved, Recorded;
    var cell := CellOf(name);
    assert CellOf(Parent(name)) == cell;
    assert u.registers[cell := s.registers[cell]] == s.registers;
    NothingMoves(u.patches, u.memory);
  }

  // ----- any number of edits

  ghost predicate AllAccepted(s: Session, requests: seq<Request>)
    requires AllSameLengths(s.patches)
    decreases |requests|
  {
    requests == []
    || (Accepted(s, requests[0]) && AllSameLengths(Perform(s, requests[0]).patches)
        && AllAccepted(Perform(s, requests[0]), requests[1..]))
  }

  function PerformAll(s: Session, requests: seq<Request>): Session
    requires AllSameLengths(s.patches) && AllAccepted(s, requests)
    decreases |requests|
  {
    if requests == [] then s else PerformAll(Perform(s, requests[0]), requests[1..])
  }

  // The addresses of all memory edits.
  function TouchedByAll(requests: seq<Request>): set<int> {
    if requests == [] then {} else TouchedBy(requests[0]) + TouchedByAll(requests[1..])
  }

  ghost function UndoTimes(s: Session, n: nat): Option<Session>
    requires AllSameLengths(s.patches)
    decreases n
  {
    if n == 0 then Some(s)
    else
      match UndoOnce(s)
      case None => None
      case Some(t) => if AllSameLengths(t.patches) then UndoTimes(t, n - 1) else None
  }

  // The list after any run of edits: a byte they touched is listed with what was first there and what is
  // there now, exactly when these differ; every other byte is listed as before.
  lemma {:induction false} ListAfter(s: Session, requests: seq<Request>)
    requires Canonical(s.patches) && AllSameLengths(s.patches) && AllAccepted(s, requests)
    ensures MovedTo(s, PerformAll(s, requests), TouchedByAll(requests))
    decreases |requests|
  {
    hide Canonical, Moved, Perform;
    if requests == [] {
      NothingMoves(s.patches, s.memory);
    } else {
      var t := Perform(s, requests[0]);
      PerformMoves(s, requests[0]);
      MovedCanonical(s, t, TouchedBy(requests[0]));
      ListAfter(t, requests[1..]);
      var last := PerformAll(t, requests[1..]);
      MovedTrans(s.patches, s.memory, t.patches, t.memory, last.patches, last.memory,
                 TouchedBy(requests[0]), TouchedByAll(requests[1..]));
    }
  }

  // ----- the stack

  // The records of the edits, oldest first.
  function Records(s: Session, requests: seq<Request>): (r: seq<Edit>)
    requires AllSameLengths(s.patches) && AllAccepted(s, requests)
    ensures |r| == |requests|
    decreases |requests|
  {
    if requests == [] then []
    else [RecordOf(s, requests[0])] + Records(Perform(s, requests[0]), requests[1..])
  }

  lemma CappedTwice(a: seq<Edit>, b: seq<Edit>)
    ensures Capped(Capped(a) + b) == Capped(a + b)
  {
  }

  lemma CappedSize(edits: seq<Edit>)
    ensures |Capped(edits)| == if |edits| <= DEPTH then |edits| else DEPTH
  {
  }

  lemma CappedAll(edits: seq<Edit>)
    requires |edits| <= DEPTH
    ensures Capped(edits + []) == edits
  {
    assert edits + [] == edits;
  }

  lemma PerformPushes(s: Session, request: Request)
    requires Accepted(s, request) && AllSameLengths(s.patches)
    ensures Perform(s, request).edits == Capped(s.edits + [RecordOf(s, request)])
    ensures 1 <= |Perform(s, request).edits| <= DEPTH
  {
    hide RecordOf, Recorded;
  }

  // The stack holds the last 100 of the edits that were on it and those made since.
  lemma {:induction false} StackIs(s: Session, requests: seq<Request>)
    requires AllSameLengths(s.patches) && AllAccepted(s, requests) && |s.edits| <= DEPTH
    ensures PerformAll(s, requests).edits == Capped(s.edits + Records(s, requests))
    ensures |PerformAll(s, requests).edits| == if |s.edits| + |requests| <= 100 then |s.edits| + |requests| else 100
    decreases |requests|
  {
    hide Perform, RecordOf, Capped;
    CappedSize(s.edits + Records(s, requests));
    if requests == [] {
      CappedAll(s.edits);
    } else {
      var t, e := Perform(s, requests[0]), RecordOf(s, requests[0]);
      var rest := Records(t, requests[1..]);
      PerformPushes(s, requests[0]);
      StackIs(t, requests[1..]);
      CappedTwice(s.edits + [e], rest);
      assert s.edits + [e] + rest == s.edits + Records(s, requests);
    }
  }

  // ----- undo inverts edits

  lemma UndoSnoc(s: Session, n: nat)
    requires AllSameLengths(s.patches) && UndoTimes(s, n).Some?
    ensures AllSameLengths(UndoTimes(s, n).value.patches)
    ensures UndoTimes(s, n + 1)
         == match UndoOnce(UndoTimes(s, n).value)
            case None => None
            case Some(t) => if AllSameLengths(t.patches) then Some(t) else None
    decreases n
  {
    hide UndoOnce;
    if n > 0 {
      UndoSnoc(UndoOnce(s).value, n - 1);
    }
  }

  lemma PopSize(s: Session)
    requires AllSameLengths(s.patches) && UndoOnce(s).Some?
    ensures s.edits != [] && |UndoOnce(s).value.edits| == |s.edits| - 1
  {
    hide Recorded;
  }

  lemma {:induction false} PopSizes(s: Session, n: nat)
    requires AllSameLengths(s.patches) && UndoTimes(s, n).Some?
    ensures |UndoTimes(s, n).value.edits| == |s.edits| - n
    decreases n
  {
    hide UndoOnce;
    if n > 0 {
      PopSize(s);
      PopSizes(UndoOnce(s).value, n - 1);
    }
  }

  lemma StackHolds(s: Session, requests: seq<Request>)
    requires AllSameLengths(s.patches) && AllAccepted(s, requests) && |requests| <= DEPTH
    ensures |PerformAll(s, requests).edits| >= |requests|
  {
    hide Perform;
    if requests != [] {
      var t := Perform(s, requests[0]);
      PerformPushes(s, requests[0]);
      StackIs(t, requests[1..]);
    }
  }

  // As many undos as edits lead back to the target before the edits, and the list moves with it.
  lemma {:induction false} UndoMoves(s: Session, requests: seq<Request>)
    requires Canonical(s.patches) && AllSameLengths(s.patches) && AllAccepted(s, requests) && |requests| <= DEPTH
    ensures AllSameLengths(PerformAll(s, requests).patches)
    ensures var u := UndoTimes(PerformAll(s, requests), |requests|);
      u.Some? && SameTarget(u.value, s) && MovedTo(s, u.value, TouchedByAll(requests))
    decreases |requests|
  {
    hide Recorded, Canonical, Perform, UndoOnce, Moved, SameTarget, TouchedBy;
    if requests == [] {
      UndoNothing(s);
    } else {
      var r, rest := requests[0], requests[1..];
      var t := Perform(s, r);
      PerformMoves(s, r);
      MovedCanonical(s, t, TouchedBy(r));
      UndoMoves(t, rest);
      StackHolds(s, requests);
      UndoFirst(s, r, rest);
    }
  }

  lemma UndoNothing(s: Session)
    requires Canonical(s.patches)
    ensures SameTarget(s, s) && MovedTo(s, s, {})
  {
    NothingMoves(s.patches, s.memory);
    assert s.edits[0..] == s.edits;
  }

  // The last of the undos undoes the first edit.
  lemma UndoFirst(s: Session, r: Request, rest: seq<Request>)
    requires AllSameLengths(s.patches) && Accepted(s, r) && AllSameLengths(Perform(s, r).patches)
    requires AllAccepted(Perform(s, r), rest) && MovedTo(s, Perform(s, r), TouchedBy(r))
    requires AllSameLengths(PerformAll(Perform(s, r), rest).patches)
    requires |PerformAll(Perform(s, r), rest).edits| > |rest|
    requires var u := UndoTimes(PerformAll(Perform(s, r), rest), |rest|);
      u.Some? && SameTarget(u.value, Perform(s, r)) && MovedTo(Perform(s, r), u.value, TouchedByAll(rest))
    ensures var u := UndoTimes(PerformAll(Perform(s, r), rest), |rest| + 1);
      u.Some? && SameTarget(u.value, s) && MovedTo(s, u.value, TouchedBy(r) + TouchedByAll(rest))
  {
    hide Recorded, Canonical, Perform, UndoOnce, Moved, SameTarget, TouchedBy, TouchedByAll, PerformAll, AllAccepted;
    var t := Perform(s, r);
    var last := PerformAll(t, rest);
    UndoSnoc(last, |rest|);
    PopSizes(last, |rest|);
    var u := UndoTimes(last, |rest|).value;
    MovedCanonical(t, u, TouchedByAll(rest));
    UndoEdit(s, r, u);
    var v := UndoOnce(u).value;
    MovedCanonical(u, v, TouchedBy(r));
    MovedTrans(s.patches, s.memory, t.patches, t.memory, u.patches, u.memory, TouchedBy(r), TouchedByAll(rest));
    MovedTrans(s.patches, s.memory, u.patches, u.memory, v.patches, v.memory,
               TouchedBy(r) + TouchedByAll(rest), TouchedBy(r));
    assert TouchedBy(r) + TouchedByAll(rest) + TouchedBy(r) == TouchedBy(r) + TouchedByAll(rest);
  }

  // Any run of at most 100 accepted edits at one stop, of overlapping ranges and of any names of the same
  // registers, followed by as many undos: none of them is refused, and memory and registers are what they
  // were. The list is what it was if and only if every listed byte among those edited held its listed new
  // value when the edits began.
  lemma UndoInverts(s: Session, requests: seq<Request>)
    requires Canonical(s.patches) && AllSameLengths(s.patches) && AllAccepted(s, requests) && |requests| <= DEPTH
    ensures AllSameLengths(PerformAll(s, requests).patches)
    ensures var u := UndoTimes(PerformAll(s, requests), |requests|);
      u.Some? && SameTarget(u.value, s)
      && (u.value.patches == s.patches <==> Current(DiffOf(s.patches), s.memory, TouchedByAll(requests)))
  {
    hide Canonical, AllAccepted, PerformAll, UndoTimes, Moved, DiffOf, Current;
    UndoMoves(s, requests);
    var u := UndoTimes(PerformAll(s, requests), |requests|).value;
    BackIsCurrent(s.patches, s.memory, u.patches, TouchedByAll(requests));
  }

  // In particular the list comes back in every session whose list is the difference between the original
  // and the current memory.
  lemma UndoInvertsTracked(s: Session, requests: seq<Request>, original: Memory)
    requires Tracked(s, original) && AllSameLengths(s.patches) && AllAccepted(s, requests) && |requests| <= DEPTH
    ensures AllSameLengths(PerformAll(s, requests).patches)
    ensures var u := UndoTimes(PerformAll(s, requests), |requests|);
      u.Some? && SameTarget(u.value, s) && u.value.patches == s.patches
  {
    hide Canonical, AllAccepted, PerformAll, UndoTimes, DiffOf, Current;
    DiffIsCurrent(s.patches, original, s.memory, TouchedByAll(requests));
    UndoInverts(s, requests);
  }

  lemma OneUndo(s: Session, addr: int, data: seq<Byte>)
    requires Canonical(s.patches) && AllSameLengths(s.patches) && Accepted(s, EditMemory(addr, data))
    ensures AllSameLengths(Recorded(s.patches, s.memory, addr, data)) && Mapped(Put(s.memory, addr, data), addr, |data|)
    ensures var t, before := Perform(s, EditMemory(addr, data)), Bytes(s.memory, addr, |data|);
      AllSameLengths(t.patches)
      && UndoOnce(t).Some? && UndoOnce(t).value.memory == s.memory
      && UndoOnce(t).value.patches
         == Recorded(Recorded(s.patches, s.memory, addr, data), Put(s.memory, addr, data), addr, before)
  {
    hide Canonical, Recorded, Moved, Capped;
    var r := EditMemory(addr, data);
    PerformMoves(s, r);
    MovedCanonical(s, Perform(s, r), TouchedBy(r));
    PerformTop(s, r);
    MemoryRestored(s.memory, addr, data);
  }

  // ----- stops

  // Every record was made at this stop or an earlier one; stops are numbered upwards.
  ghost predicate MadeBefore(edits: seq<Edit>, stop: nat) {
    forall i :: 0 <= i < |edits| ==> edits[i].stop <= stop
  }

  lemma PerformMade(s: Session, request: Request)
    requires AllSameLengths(s.patches) && Accepted(s, request) && MadeBefore(s.edits, s.stop)
    ensures Perform(s, request).stop == s.stop && MadeBefore(Perform(s, request).edits, s.stop)
  {
    hide Recorded, Widened, Bytes;
  }

  lemma UndoMade(s: Session)
    requires AllSameLengths(s.patches) && UndoOnce(s).Some? && MadeBefore(s.edits, s.stop)
    ensures UndoOnce(s).value.stop == s.stop && MadeBefore(UndoOnce(s).value.edits, s.stop)
  {
    hide Recorded;
  }

  // Once the target has run and stopped again, none of the edits made before can be undone, whatever memory and
  // registers hold.
  lemma LaterStopRefuses(s: Session, later: Session)
    requires MadeBefore(s.edits, s.stop) && later.edits == s.edits && later.stop > s.stop
    requires AllSameLengths(later.patches)
    ensures UndoOnce(later) == None
  {
  }

  // Not even behind edits made at the later stop: undo takes these back and no more.
  lemma UndoStopsThere(s: Session, later: Session, requests: seq<Request>)
    requires MadeBefore(s.edits, s.stop) && later.edits == s.edits && later.stop > s.stop
    requires Canonical(later.patches) && AllSameLengths(later.patches)
    requires AllAccepted(later, requests) && |requests| <= DEPTH
    ensures AllSameLengths(PerformAll(later, requests).patches)
    ensures UndoTimes(PerformAll(later, requests), |requests|).Some?
    ensures UndoTimes(PerformAll(later, requests), |requests| + 1) == None
  {
    hide Canonical, AllAccepted, PerformAll, UndoTimes, Moved, UndoOnce;
    UndoMoves(later, requests);
    var u := UndoTimes(PerformAll(later, requests), |requests|).value;
    UndoSnoc(PerformAll(later, requests), |requests|);
    assert MadeBefore(u.edits, s.stop);
    LaterStopRefuses(u.(stop := s.stop), u);
  }

  // A session at one stop in which the target had stored 3 where the list says 2: an edit and its undo bring
  // the 3 back and put it into the list.
  lemma StaleUndo()
    ensures var s := Session(map[0 := 3], map[], [Patch(0, [1], [2])], [], true, 1, 0);
      && Canonical(s.patches) && AllSameLengths(s.patches) && Accepted(s, EditMemory(0, [4]))
      && var t := Perform(s, EditMemory(0, [4]));
      && AllSameLengths(t.patches) && UndoOnce(t).Some?
      && UndoOnce(t).value.memory == s.memory && UndoOnce(t).value.patches == [Patch(0, [1], [3])]
  {
    hide Recorded, Canonical, Perform, UndoOnce;
    StaleListChanges();
    var s := Session(map[0 := 3], map[], [Patch(0, [1], [2])], [], true, 1, 0);
    OneUndo(s, 0, [4]);
  }
}
