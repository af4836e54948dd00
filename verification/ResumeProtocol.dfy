// The protocol between stop notices, user commands and fork or exec decisions: which stops are acted on,
// and when the target is asked to run again.
module ResumeProtocol {
  import opened Options

  datatype Key = Key(pid: int, id: int)

  // A stopped target, one whose resume has been accepted but that is still reported as stopped, one that
  // is reported as running, and one that is over.
  datatype Phase = Halted | Leaving | Going | Gone

  // `strays` counts the requests to run that were made while an earlier one was still in force.
  datatype Process = Process(pid: int, id: int, phase: Phase, strays: nat)

  datatype Token = Token(stop: Key, site: int)

  // The engine and its process. `last` is the stop handled last, `exec` and `fork` the call waiting for a
  // decision, `stepping` an unfinished user step, `shield` breakpoints lifted across a fork.
  datatype Session = Session(process: Process, resuming: bool, last: Option<Key>, exec: Option<Token>, fork: bool,
                             stepping: bool, shield: bool)

  datatype Preparation = PrepRaises | PrepResumes | PrepVisible | PrepInternal | PrepNothing

  datatype Hit = NoHit | AskExec(site: int) | AskFork | Passed | Resolved | Blocked | HitRaises

  datatype StepResult = StepRaises | StepMore | StepDone | StepAgain

  // What the rest of the debugger and the process answer while one stop or command is handled.
  datatype Answers = Answers(prepared: Preparation, intact: bool, script: bool, step: StepResult, hit: Hit, traced: bool,
                             gates: bool, accepts: bool)

  datatype Resolution = Dump | LetGo | StillHit | ReturnFails

  datatype Event =
    | Halts
    | Departs
    | Dies
    | StopNotice(pid: int, id: int, answers: Answers)
    | ExitNotice(pid: int, ended: bool)
    | UserResume(step: bool, answers: Answers)
    | DecideExec(token: Option<Token>, resolution: Resolution, answers: Answers)
    | DecideFork(valid: bool, fails: bool, shielded: bool, accepts: bool)
    | Kill(ok: bool)
    | Restart(pid: int, id: int, ok: bool)
    | TargetChange(pid: int, id: int)

  predicate Pending(s: Session) {
    s.exec.Some? || s.fork
  }

  predicate ReportedStopped(p: Process) {
    p.phase == Halted || p.phase == Leaving
  }

  function Current(s: Session): Key {
    Key(s.process.pid, s.process.id)
  }

  // ----- asking the target to run

  datatype Asked = Asked(session: Session, ok: bool)

  function Request(p: Process, accepts: bool): Process {
    match p.phase
    case Halted => if accepts then p.(phase := Leaving) else p
    case Gone => p
    case _ => p.(strays := p.strays + 1)
  }

  // Every resume passes here; an undecided call stops it unless a decision is being carried out.
  function Ask(s: Session, authorized: bool, accepts: bool): Asked {
    if Pending(s) && !authorized then Asked(s, false)
    else Asked(s.(process := Request(s.process, accepts)), s.process.phase == Halted && accepts)
  }

  function ResumeFailed(s: Session): Session {
    s.(resuming := false, stepping := false)
  }

  // ----- commands and handlers

  predicate MayBegin(s: Session, gates: bool) {
    !Pending(s) && !s.resuming && !s.stepping && ReportedStopped(s.process) && gates
  }

  function Resume(s: Session, step: bool, a: Answers): Session {
    if !MayBegin(s, a.gates) then s
    else
      var begun := s.(resuming := true, stepping := step || s.stepping);
      OrFailed(Ask(begun, false, a.accepts))
  }

  // A breakpoint or trap of a defense. It may ask the user, or resume the target itself, and then nobody
  // notes that a resume is under way. Not `ok` when it raises.
  function HandleHit(s: Session, a: Answers): Asked {
    match a.hit
    case NoHit => Asked(s, true)
    case AskExec(site) => Asked(s.(exec := Some(Token(Current(s), site))), true)
    case AskFork => Asked(s.(fork := true), true)
    case Passed => Ask(s, false, a.accepts)
    case Resolved => Ask(s, true, a.accepts)
    case Blocked => Asked(s, true)
    case HitRaises => Asked(s, false)
  }

  function OrFailed(asked: Asked): Session {
    if asked.ok then asked.session else ResumeFailed(asked.session)
  }

  function Continue(s: Session, a: Answers): Session {
    var asked := Ask(s, false, a.accepts);
    if asked.ok then asked.session.(resuming := true) else ResumeFailed(asked.session)
  }

  function HandleStep(s: Session, a: Answers): Session {
    match a.step
    case StepRaises => ResumeFailed(s)
    case StepMore => Continue(s, a)
    case StepDone => s.(stepping := false)
    case StepAgain => Resume(s.(stepping := false), true, a)
  }

  function HandlePlain(s: Session, a: Answers): Session {
    if a.hit != NoHit then OrFailed(HandleHit(s, a))
    else if a.traced then OrFailed(Ask(s, false, a.accepts))
    else s
  }

  // What is done about a stop that is acted on.
  function HandleStop(s: Session, a: Answers): Session {
    var s := s.(resuming := false);
    match a.prepared
    case PrepRaises => ResumeFailed(s)
    case PrepResumes => Continue(s, a)
    case PrepVisible => s
    case _ =>
      if !a.intact then s.(stepping := false)
      else if a.script then OrFailed(HandleHit(s.(stepping := false), a))
      else if s.stepping then HandleStep(s, a)
      else if a.prepared == PrepInternal then Continue(s, a)
      else if s.shield then Ask(s.(shield := false), false, a.accepts).session
      else HandlePlain(s, a)
  }

  // Is this notice about the stop the target is at, and the first about it?
  predicate ActsOn(s: Session, pid: int, id: int) {
    && (pid == 0 || pid == s.process.pid)
    && (id == 0 || (ReportedStopped(s.process) && s.process.id == id && s.last != Some(Current(s))))
  }

  function OnStop(s: Session, pid: int, id: int, a: Answers): Session {
    if !ActsOn(s, pid, id) then s
    else HandleStop(if id == 0 then s else s.(last := Some(Current(s))), a)
  }

  // `ended` for an exit or a crash, not for a detached or invalid process.
  function OnExit(s: Session, pid: int, ended: bool): Session {
    if pid != 0 && pid != s.process.pid then s
    else s.(resuming := if ended then false else s.resuming, exec := None, fork := false, stepping := false)
  }

  function OnDecideExec(s: Session, token: Option<Token>, resolution: Resolution, a: Answers): Session {
    if s.exec == None || (token.Some? && token != s.exec) || resolution == Dump || resolution == ReturnFails
       || !ReportedStopped(s.process)
    then s
    else if resolution == StillHit then HandleHit(s.(exec := None), a).session
    else
      var asked := Ask(s, true, a.accepts);
      if asked.ok then asked.session.(exec := None) else asked.session
  }

  function OnDecideFork(s: Session, valid: bool, fails: bool, shielded: bool, accepts: bool): Session {
    if !s.fork || !valid || fails then s
    else
      var asked := Ask(s.(shield := shielded || s.shield), true, accepts);
      if asked.ok then asked.session.(fork := false) else asked.session
  }

  function OnKill(s: Session, ok: bool): Session {
    if ok then s.(process := s.process.(phase := Gone), exec := None, fork := false) else s
  }

  function OnRestart(s: Session, pid: int, id: int, ok: bool): Session {
    var cleared := s.(exec := None, fork := false, last := None, stepping := false);
    if ok then cleared.(process := Process(pid, id, Halted, s.process.strays), resuming := false)
    else cleared.(process := s.process.(phase := Gone))
  }

  function OnTargetChange(s: Session, pid: int, id: int): Session {
    Session(Process(pid, id, Halted, s.process.strays), false, None, None, false, false, false)
  }

  // ----- runs

  // A session, the stops acted on so far and the processes there have been.
  datatype World = World(s: Session, handled: seq<Key>, pids: set<int>)

  function Begin(pid: int, id: int): World {
    World(Session(Process(pid, id, Halted, 0), false, None, None, false, false, false), [], {pid})
  }

  // Stops of a process are numbered upwards from 1, and a new process has a new id. Notices may come late,
  // twice or never, and may be about an earlier process; an exit is only reported of a process that is over.
  predicate Possible(w: World, e: Event) {
    match e
    case Halts => w.s.process.phase == Leaving || w.s.process.phase == Going
    case Departs => w.s.process.phase == Leaving
    case Dies => w.s.process.phase != Gone
    case StopNotice(_, id, _) => id > 0
    case ExitNotice(pid, _) => pid == 0 || pid == w.s.process.pid ==> w.s.process.phase == Gone
    case Restart(pid, id, _) => pid !in w.pids && id > 0
    case TargetChange(pid, id) => pid !in w.pids && id > 0
    case _ => true
  }

  function After(s: Session, e: Event): Session {
    match e
    case Halts => s.(process := s.process.(id := s.process.id + 1, phase := Halted))
    case Departs => s.(process := s.process.(phase := Going))
    case Dies => s.(process := s.process.(phase := Gone))
    case StopNotice(pid, id, a) => OnStop(s, pid, id, a)
    case ExitNotice(pid, ended) => OnExit(s, pid, ended)
    case UserResume(step, a) => Resume(s, step, a)
    case DecideExec(token, resolution, a) => OnDecideExec(s, token, resolution, a)
    case DecideFork(valid, fails, shielded, accepts) => OnDecideFork(s, valid, fails, shielded, accepts)
    case Kill(ok) => OnKill(s, ok)
    case Restart(pid, id, ok) => OnRestart(s, pid, id, ok)
    case TargetChange(pid, id) => OnTargetChange(s, pid, id)
  }

  function Next(w: World, e: Event): World {
    World(After(w.s, e),
          if e.StopNotice? && ActsOn(w.s, e.pid, e.id) then w.handled + [Key(w.s.process.pid, e.id)] else w.handled,
          if e.Restart? || e.TargetChange? then w.pids + {e.pid} else w.pids)
  }

  function Run(w: World, events: seq<Event>): World {
    if events == [] then w else Next(Run(w, events[..|events| - 1]), events[|events| - 1])
  }

  predicate PossibleRun(w: World, events: seq<Event>) {
    events == []
    || (PossibleRun(w, events[..|events| - 1]) && Possible(Run(w, events[..|events| - 1]), events[|events| - 1]))
  }

  // ----- what every step keeps

  predicate Distinct(keys: seq<Key>) {
    forall i, j :: 0 <= i < j < |keys| ==> keys[i] != keys[j]
  }

  // A stop that was acted on is over, is remembered, or its process is gone.
  predicate HandledKnown(w: World) {
    forall k :: k in w.handled ==>
      && k.pid in w.pids
      && (k.pid == w.s.process.pid ==>
            k.id < w.s.process.id || (k.id == w.s.process.id && (w.s.last == Some(k) || w.s.process.phase == Gone)))
  }

  predicate Orderly(w: World) {
    && w.s.process.pid in w.pids && w.s.process.id > 0
    && Distinct(w.handled) && HandledKnown(w)
  }

  // Asking moves nothing but the phase and the count.
  predicate SameStop(s: Session, t: Session) {
    t.process.pid == s.process.pid && t.process.id == s.process.id && t.last == s.last
  }

  predicate Stays(s: Session, t: Session) {
    SameStop(s, t) && (t.process.phase == Gone <==> s.process.phase == Gone)
  }

  lemma AskStays(s: Session, authorized: bool, accepts: bool)
    ensures Stays(s, Ask(s, authorized, accepts).session)
  {
  }

  lemma HitStays(s: Session, a: Answers)
    ensures Stays(s, HandleHit(s, a).session)
  {
    hide Ask;
    AskStays(s, false, a.accepts);
    AskStays(s, true, a.accepts);
  }

  lemma ResumeStays(s: Session, step: bool, a: Answers)
    ensures Stays(s, Resume(s, step, a))
  {
    hide Ask;
    AskStays(s.(resuming := true, stepping := step || s.stepping), false, a.accepts);
  }

  lemma StepStays(s: Session, a: Answers)
    ensures Stays(s, HandleStep(s, a)) && Stays(s, Continue(s, a))
  {
    hide Ask, Resume;
    AskStays(s, false, a.accepts);
    ResumeStays(s.(stepping := false), true, a);
  }

  lemma PlainStays(s: Session, a: Answers)
    ensures Stays(s, HandlePlain(s, a))
  {
    hide Ask, HandleHit;
    AskStays(s, false, a.accepts);
    HitStays(s, a);
  }

  lemma StopMoves(s: Session, a: Answers)
    ensures Stays(s, HandleStop(s, a))
  {
    hide HandleHit, Ask, HandleStep, HandlePlain, Continue;
    var q := s.(resuming := false);
    AskStays(q.(shield := false), false, a.accepts);
    HitStays(q.(stepping := false), a);
    StepStays(q, a);
    PlainStays(q, a);
  }

  lemma OtherMoves(s: Session, e: Event)
    requires e.UserResume? || e.DecideExec? || e.DecideFork? || e.ExitNotice?
    ensures Stays(s, After(s, e))
  {
    hide HandleHit, Ask, Resume, OnStop;
    match e {
      case UserResume(step, a) => ResumeStays(s, step, a);
      case DecideExec(_, _, a) =>
        HitStays(s.(exec := None), a);
        AskStays(s, true, a.accepts);
      case DecideFork(_, _, shielded, accepts) => AskStays(s.(shield := shielded || s.shield), true, accepts);
      case _ =>
    }
  }

  lemma NoticeOrderly(w: World, pid: int, id: int, a: Answers)
    requires Orderly(w) && id > 0
    ensures Orderly(Next(w, StopNotice(pid, id, a)))
  {
    hide HandleStop;
    if ActsOn(w.s, pid, id) {
      var s := w.s.(last := Some(Current(w.s)));
      StopMoves(s, a);
      assert Current(w.s) !in w.handled;
    }
  }

  lemma OrderlyNext(w: World, e: Event)
    requires Orderly(w) && Possible(w, e)
    ensures Orderly(Next(w, e))
  {
    if e.StopNotice? {
      NoticeOrderly(w, e.pid, e.id, e.answers);
    } else if e.UserResume? || e.DecideExec? || e.DecideFork? || e.ExitNotice? {
      OtherMoves(w.s, e);
      hide After;
    }
  }

  lemma {:induction false} RunOrderly(w: World, events: seq<Event>)
    requires Orderly(w) && PossibleRun(w, events)
    ensures Orderly(Run(w, events))
  {
    if events != [] {
      RunOrderly(w, events[..|events| - 1]);
      OrderlyNext(Run(w, events[..|events| - 1]), events[|events| - 1]);
    }
  }

  // However notices are repeated, delayed and mixed with commands, no stop of a process is acted on twice.
  lemma StopsHandledOnce(pid: int, id: int, events: seq<Event>)
    requires id > 0 && PossibleRun(Begin(pid, id), events)
    ensures Distinct(Run(Begin(pid, id), events).handled)
  {
    RunOrderly(Begin(pid, id), events);
  }

  // ----- what an undecided call and a request keep

  // A user resume the process accepts at a stop whose notice is still to come.
  predicate Early(s: Session, e: Event) {
    && e.UserResume? && s.process.phase == Halted && MayBegin(s, e.answers.gates) && e.answers.accepts
    && s.last != Some(Current(s))
  }

  predicate NeverEarly(w: World, events: seq<Event>) {
    events == []
    || (NeverEarly(w, events[..|events| - 1]) && !Early(Run(w, events[..|events| - 1]).s, events[|events| - 1]))
  }

  // An undecided call holds the target at the stop it was made in, and a target that is being resumed
  // leaves a stop that was acted on.
  predicate Held(s: Session) {
    && (Pending(s) ==> s.process.phase == Gone || (s.process.phase == Halted && s.last == Some(Current(s))))
    && !(s.exec.Some? && s.fork)
    && (s.process.phase == Leaving ==> s.last == Some(Current(s)))
  }

  // Nothing stray is asked, and a call is left undecided only with the target where it was.
  predicate Calm(s: Session, t: Session) {
    && t.process.strays == s.process.strays && (Pending(t) ==> t.process == s.process) && !(t.exec.Some? && t.fork)
  }

  lemma HitCalm(s: Session, a: Answers)
    requires !Pending(s) && s.process.phase == Halted
    ensures Calm(s, HandleHit(s, a).session) && Calm(s, OrFailed(HandleHit(s, a)))
  {
  }

  lemma AskCalm(s: Session, a: Answers)
    requires !Pending(s) && s.process.phase == Halted
    ensures Calm(s, Ask(s, false, a.accepts).session) && Calm(s, Continue(s, a))
  {
  }

  lemma StepCalm(s: Session, a: Answers)
    requires !Pending(s) && s.process.phase == Halted
    ensures Calm(s, HandleStep(s, a))
  {
    hide Continue;
    AskCalm(s, a);
  }

  lemma PlainCalm(s: Session, a: Answers)
    requires !Pending(s) && s.process.phase == Halted
    ensures Calm(s, HandlePlain(s, a))
  {
    hide HandleHit;
    HitCalm(s, a);
  }

  lemma HandleCalm(s: Session, a: Answers)
    requires !Pending(s) && s.process.phase == Halted
    ensures Calm(s, HandleStop(s, a))
  {
    hide HandleHit, Ask, HandleStep, HandlePlain, Continue, OrFailed;
    var q := s.(resuming := false);
    AskCalm(q, a);
    AskCalm(q.(shield := false), a);
    HitCalm(q.(stepping := false), a);
    StepCalm(q, a);
    PlainCalm(q, a);
  }

  lemma NoticeHeld(s: Session, pid: int, id: int, a: Answers)
    requires Held(s) && id > 0
    ensures Held(OnStop(s, pid, id, a)) && OnStop(s, pid, id, a).process.strays == s.process.strays
  {
    hide HandleStop;
    if ActsOn(s, pid, id) {
      var q := s.(last := Some(Current(s)));
      HandleCalm(q, a);
      StopMoves(q, a);
    }
  }

  lemma DecisionHeld(s: Session, e: Event)
    requires Held(s) && (e.DecideExec? || e.DecideFork?)
    ensures Held(After(s, e)) && After(s, e).process.strays == s.process.strays
  {
  }

  // A user resume taken up between a request and the report that the target runs.
  predicate Hasty(s: Session, e: Event) {
    e.UserResume? && s.process.phase == Leaving && MayBegin(s, e.answers.gates)
  }

  lemma HeldNext(w: World, e: Event)
    requires Held(w.s) && Possible(w, e) && !Early(w.s, e)
    ensures Held(After(w.s, e))
  {
    if e.StopNotice? {
      NoticeHeld(w.s, e.pid, e.id, e.answers);
    } else if e.DecideExec? || e.DecideFork? {
      DecisionHeld(w.s, e);
    } else {
      hide OnStop, OnDecideExec, OnDecideFork;
    }
  }

  // A hasty resume is one request too many, and nothing else is.
  lemma StraysNext(w: World, e: Event)
    requires Held(w.s) && Possible(w, e)
    ensures After(w.s, e).process.strays == w.s.process.strays + if Hasty(w.s, e) then 1 else 0
  {
    if e.StopNotice? {
      NoticeHeld(w.s, e.pid, e.id, e.answers);
    } else if e.DecideExec? || e.DecideFork? {
      DecisionHeld(w.s, e);
    } else {
      hide OnStop, OnDecideExec, OnDecideFork;
    }
  }

  lemma {:induction false} RunHeld(w: World, events: seq<Event>)
    requires Held(w.s) && PossibleRun(w, events) && NeverEarly(w, events)
    ensures Held(Run(w, events).s)
  {
    if events != [] {
      RunHeld(w, events[..|events| - 1]);
      HeldNext(Run(w, events[..|events| - 1]), events[|events| - 1]);
    }
  }

  // ----- no second request before the next stop

  predicate NeverHasty(w: World, events: seq<Event>) {
    events == []
    || (NeverHasty(w, events[..|events| - 1]) && !Hasty(Run(w, events[..|events| - 1]).s, events[|events| - 1]))
  }

  function Hastes(w: World, events: seq<Event>): nat {
    if events == [] then 0
    else
      Hastes(w, events[..|events| - 1])
      + if Hasty(Run(w, events[..|events| - 1]).s, events[|events| - 1]) then 1 else 0
  }

  lemma {:induction false} StraysAreHastes(w: World, events: seq<Event>)
    requires Held(w.s) && PossibleRun(w, events) && NeverEarly(w, events)
    ensures Run(w, events).s.process.strays == w.s.process.strays + Hastes(w, events)
    ensures Hastes(w, events) == 0 <==> NeverHasty(w, events)
  {
    if events != [] {
      var earlier := events[..|events| - 1];
      StraysAreHastes(w, earlier);
      RunHeld(w, earlier);
      StraysNext(Run(w, earlier), events[|events| - 1]);
    }
  }

  // Whatever the notices, defenses, decisions and commands: the target is asked to run again before its
  // next stop if and only if a user resume is taken up between a request and the report that it runs.
  lemma OneRequestPerStop(pid: int, id: int, events: seq<Event>)
    requires PossibleRun(Begin(pid, id), events) && NeverEarly(Begin(pid, id), events)
    ensures Run(Begin(pid, id), events).s.process.strays == 0 <==> NeverHasty(Begin(pid, id), events)
    ensures Run(Begin(pid, id), events).s.process.strays == Hastes(Begin(pid, id), events)
  {
    StraysAreHastes(Begin(pid, id), events);
  }

  // ----- an undecided call

  // What ends the wait for a decision.
  predicate Releases(s: Session, e: Event) {
    match e
    case DecideExec(token, resolution, _) =>
      s.exec.Some? && (token == None || token == s.exec) && (resolution == LetGo || resolution == StillHit)
    case DecideFork(valid, fails, _, _) => s.fork && valid && !fails
    case Kill(ok) => ok
    case Restart(_, _, _) => true
    case TargetChange(_, _) => true
    case Dies => true
    case ExitNotice(pid, _) => s.process.phase == Gone
    case _ => false
  }

  predicate NeverReleased(w: World, events: seq<Event>) {
    events == []
    || (NeverReleased(w, events[..|events| - 1]) && !Releases(Run(w, events[..|events| - 1]).s, events[|events| - 1]))
  }

  predicate SameCall(s: Session, t: Session) {
    t.process == s.process && t.exec == s.exec && t.fork == s.fork && t.last == s.last
  }

  lemma PendingHeldNext(w: World, e: Event)
    requires Held(w.s) && Possible(w, e) && Pending(w.s) && !Releases(w.s, e)
    ensures SameCall(w.s, After(w.s, e)) && Held(After(w.s, e))
  {
    hide HandleStop;
  }

  lemma {:induction false} PendingHeldRun(w: World, events: seq<Event>)
    requires Held(w.s) && Pending(w.s) && PossibleRun(w, events) && NeverReleased(w, events)
    ensures SameCall(w.s, Run(w, events).s) && Held(Run(w, events).s)
  {
    if events != [] {
      PendingHeldRun(w, events[..|events| - 1]);
      PendingHeldNext(Run(w, events[..|events| - 1]), events[|events| - 1]);
    }
  }

  // While a fork or exec call waits, the target stays at that stop and the call stays undecided, through
  // any number of notices and commands, until a decision for this very call, a kill, a new target or the
  // end of the process.
  lemma PendingHolds(pid: int, id: int, events: seq<Event>, later: seq<Event>)
    requires PossibleRun(Begin(pid, id), events) && NeverEarly(Begin(pid, id), events)
    requires var w := Run(Begin(pid, id), events);
             Pending(w.s) && PossibleRun(w, later) && NeverReleased(w, later)
    ensures var w := Run(Begin(pid, id), events);
            var t := Run(w, later).s;
            && SameCall(w.s, t)
            && (t.process.phase == Gone || (t.process.phase == Halted && t.last == Some(Current(t))))
  {
    RunHeld(Begin(pid, id), events);
    PendingHeldRun(Run(Begin(pid, id), events), later);
  }

  // ----- an early resume, and nothing else, undoes both

  const QUIET: Answers := Answers(PrepNothing, true, false, StepDone, NoHit, false, true, true)

  // On the way a call stays undecided while the target is no longer at its stop.
  predicate Escapes(w: World, events: seq<Event>) {
    && PossibleRun(w, events) && NeverEarly(w, events)
    && var t := Run(w, events).s; Pending(t) && (t.process.phase == Leaving || t.process.phase == Going)
  }

  // On the way the target is asked twice although no resume was hasty.
  predicate Repeats(w: World, events: seq<Event>) {
    && PossibleRun(w, events) && NeverEarly(w, events) && NeverHasty(w, events)
    && Run(w, events).s.process.strays > w.s.process.strays
  }

  lemma RunAppend(w: World, events: seq<Event>, e: Event)
    ensures Run(w, events + [e]) == Next(Run(w, events), e)
    ensures PossibleRun(w, events + [e]) <==> PossibleRun(w, events) && Possible(Run(w, events), e)
    ensures NeverEarly(w, events + [e]) <==> NeverEarly(w, events) && !Early(Run(w, events).s, e)
    ensures NeverHasty(w, events + [e]) <==> NeverHasty(w, events) && !Hasty(Run(w, events).s, e)
    ensures Run(w, []) == w && PossibleRun(w, []) && NeverEarly(w, []) && NeverHasty(w, [])
  {
    assert (events + [e])[..|events|] == events;
  }

  lemma EarlyEscapes(w: World, e: Event) returns (later: seq<Event>)
    requires w.s.process.id > 0 && Early(w.s, e)
    ensures Escapes(Next(w, e), later)
  {
    var v := Next(w, e);
    var notice := StopNotice(0, w.s.process.id, QUIET.(script := true, hit := AskFork));
    RunAppend(v, [], notice);
    RunAppend(v, [] + [notice], Departs);
    later := [] + [notice] + [Departs];
    hide Run, PossibleRun, NeverEarly;
    assert v.s.process.phase == Leaving && v.s.last != Some(Current(v.s)) && !Pending(v.s);
    assert Run(v, [] + [notice]).s == v.s.(resuming := false, stepping := false, fork := true, last := Some(Current(v.s)));
  }

  lemma EarlyRepeats(w: World, e: Event) returns (later: seq<Event>)
    requires w.s.process.id > 0 && Early(w.s, e)
    ensures Repeats(Next(w, e), later)
  {
    var v := Next(w, e);
    var notice := StopNotice(0, w.s.process.id, QUIET.(prepared := PrepResumes));
    RunAppend(v, [], notice);
    later := [] + [notice];
    hide Run, PossibleRun, NeverEarly, NeverHasty;
  }

  // From any state of a run without early resumes: the next event opens the way to an undecided call whose
  // target runs, and to a second request without a hasty resume, exactly when it is an early resume.
  lemma EarlyExactly(pid: int, id: int, events: seq<Event>, e: Event)
    requires id > 0 && PossibleRun(Begin(pid, id), events) && NeverEarly(Begin(pid, id), events)
    requires Possible(Run(Begin(pid, id), events), e)
    ensures var w := Run(Begin(pid, id), events);
            && (Early(w.s, e) <==> exists later :: Escapes(Next(w, e), later))
            && (Early(w.s, e) <==> exists later :: Repeats(Next(w, e), later))
  {
    hide Run, PossibleRun, NeverEarly, Early, Escapes, Repeats, Held, Next;
    var w := Run(Begin(pid, id), events);
    BeginOrderly(pid, id);
    RunOrderly(Begin(pid, id), events);
    RunHeld(Begin(pid, id), events);
    if Early(w.s, e) {
      var one := EarlyEscapes(w, e);
      var two := EarlyRepeats(w, e);
    } else {
      HeldWorld(w, e);
      forall later ensures !Escapes(Next(w, e), later) && !Repeats(Next(w, e), later) {
        NotExposed(Next(w, e), later);
      }
    }
  }

  lemma BeginOrderly(pid: int, id: int)
    requires id > 0
    ensures Orderly(Begin(pid, id)) && Held(Begin(pid, id).s)
  {
  }

  lemma HeldWorld(w: World, e: Event)
    requires Held(w.s) && Possible(w, e) && !Early(w.s, e)
    ensures Held(Next(w, e).s)
  {
    HeldNext(w, e);
  }

  lemma NotExposed(w: World, later: seq<Event>)
    requires Held(w.s)
    ensures !Escapes(w, later) && !Repeats(w, later)
  {
    if PossibleRun(w, later) && NeverEarly(w, later) {
      RunHeld(w, later);
      StraysAreHastes(w, later);
    }
  }

  // A user who resumes before the first stop is noticed: the notice then finds a fork, asks, and the target
  // runs on while the call is undecided.
  lemma EarlyUndecided(pid: int)
    ensures var events := [UserResume(false, QUIET), StopNotice(pid, 1, QUIET.(hit := AskFork)), Departs];
            && PossibleRun(Begin(pid, 1), events)
            && Pending(Run(Begin(pid, 1), events).s) && Run(Begin(pid, 1), events).s.process.phase == Going
  {
    var w := Begin(pid, 1);
    var first, second := UserResume(false, QUIET), StopNotice(pid, 1, QUIET.(hit := AskFork));
    RunAppend(w, [], first);
    RunAppend(w, [first], second);
    RunAppend(w, [first, second], Departs);
    assert [] + [first] == [first] && [first] + [second] == [first, second];
    assert [first, second] + [Departs] == [first, second, Departs];
    hide Run, PossibleRun;
    var s1 := w.s.(resuming := true, process := Process(pid, 1, Leaving, 0));
    assert Run(w, [first]).s == s1;
    assert Run(w, [first, second]).s == s1.(resuming := false, fork := true, last := Some(Key(pid, 1)));
  }

  // ----- when no resume is hasty

  // A resume that leaves no note that it is under way.
  predicate Silent(s: Session, e: Event) {
    s.process.phase != Leaving && After(s, e).process.phase == Leaving && !After(s, e).resuming
  }

  predicate Noted(w: World, events: seq<Event>) {
    events == []
    || (var s := Run(w, events[..|events| - 1]).s;
        var e := events[|events| - 1];
        Noted(w, events[..|events| - 1]) && !Silent(s, e) && !Early(s, e))
  }

  predicate Covered(s: Session) {
    Held(s) && (s.process.phase == Leaving ==> s.resuming)
  }

  lemma CoveredNext(w: World, e: Event)
    requires Covered(w.s) && Possible(w, e) && !Silent(w.s, e) && !Early(w.s, e)
    ensures Covered(After(w.s, e)) && !Hasty(w.s, e)
  {
    HeldNext(w, e);
    hide HandleStop;
    if e.StopNotice? || e.DecideExec? || e.DecideFork? {
      hide OnDecideExec, OnDecideFork;
    }
  }

  lemma {:induction false} RunCovered(w: World, events: seq<Event>)
    requires Covered(w.s) && PossibleRun(w, events) && Noted(w, events)
    ensures Covered(Run(w, events).s) && NeverHasty(w, events) && NeverEarly(w, events)
  {
    if events != [] {
      RunCovered(w, events[..|events| - 1]);
      CoveredNext(Run(w, events[..|events| - 1]), events[|events| - 1]);
    }
  }

  // When every resume is noted and user resumes follow the notice of their stop, no resume is hasty, no
  // notice is acted on while the target leaves, and no request is made twice, at whatever time the target
  // is reported as running.
  lemma NotedNeverHasty(pid: int, id: int, events: seq<Event>, e: Event)
    requires PossibleRun(Begin(pid, id), events) && Noted(Begin(pid, id), events)
    ensures NeverHasty(Begin(pid, id), events) && Run(Begin(pid, id), events).s.process.strays == 0
    ensures var s := Run(Begin(pid, id), events).s;
            s.process.phase == Leaving && Possible(Run(Begin(pid, id), events), e) ==>
              !(e.StopNotice? && ActsOn(s, e.pid, e.id)) && !Hasty(s, e)
  {
    RunCovered(Begin(pid, id), events);
    StraysAreHastes(Begin(pid, id), events);
  }

  // Deciding a fork resumes the target without a note of it, so a user who continues at once asks twice.
  lemma SilentDecision(pid: int)
    ensures var events := [StopNotice(pid, 1, QUIET.(hit := AskFork)), DecideFork(true, false, false, true),
                           UserResume(false, QUIET)];
            && PossibleRun(Begin(pid, 1), events) && NeverEarly(Begin(pid, 1), events)
            && Run(Begin(pid, 1), events).s.process.strays == 1
  {
    var w := Begin(pid, 1);
    var first, second, third := StopNotice(pid, 1, QUIET.(hit := AskFork)), DecideFork(true, false, false, true),
                                UserResume(false, QUIET);
    RunAppend(w, [], first);
    RunAppend(w, [first], second);
    RunAppend(w, [first, second], third);
    assert [] + [first] == [first] && [first] + [second] == [first, second];
    assert [first, second] + [third] == [first, second, third];
    hide Run, PossibleRun, NeverEarly;
    var s1 := w.s.(last := Some(Key(pid, 1)), fork := true);
    assert Run(w, [first]).s == s1;
    assert Run(w, [first, second]).s == s1.(fork := false, process := Process(pid, 1, Leaving, 0));
  }

  // While the target runs, a notice is acted on exactly when it has no number and names this process or
  // none; one that makes the debugger continue is then a request too many.
  lemma UnnumberedActedOn(s: Session, pid: int, id: int)
    requires s.process.phase == Going
    ensures ActsOn(s, pid, id) <==> id == 0 && (pid == 0 || pid == s.process.pid)
    ensures ActsOn(s, pid, id) && !Pending(s) ==>
      OnStop(s, pid, id, QUIET.(prepared := PrepResumes)).process.strays == s.process.strays + 1
  {
  }

  // A request for this stop is made and accepted.
  predicate Continues(s: Session, a: Answers) {
    !Pending(s) && s.process.phase == Halted && a.accepts
  }

  // What handling a stop promises, in the order the cases are tried: a preparation that raises ends the step
  // and asks nothing; one that resumes or shows the stop leaves the rest aside; a change of the code section
  // ends the step and asks nothing; a script hit ends the step; a user step goes before an internal stop,
  // that before lifted breakpoints, and those before defenses and tracer.
  ghost predicate InOrder(s: Session, a: Answers, t: Session) {
    var continued := Continues(s, a);
    var plain := a.prepared == PrepInternal || a.prepared == PrepNothing;
    var quiet := plain && a.intact && !a.script;
    && SameStop(s, t) && (!Pending(s) && Pending(t) ==> t.process == s.process)
    && (a.prepared == PrepRaises ==> t == s.(resuming := false, stepping := false))
    && (a.prepared == PrepVisible ==> t == s.(resuming := false))
    && (a.prepared == PrepResumes ==> t.exec == s.exec && t.fork == s.fork && (t.resuming <==> continued))
    && (plain && !a.intact ==> t == s.(resuming := false, stepping := false))
    && (plain && a.intact && a.script ==> !t.stepping && !t.resuming)
    && (quiet && s.stepping ==> t.exec == s.exec && t.fork == s.fork && (t.stepping ==> continued && t.resuming))
    && (quiet && !s.stepping && a.prepared == PrepInternal ==>
          t.exec == s.exec && t.fork == s.fork && (t.resuming <==> continued))
    && (t.shield <==> s.shield && !(quiet && !s.stepping && a.prepared == PrepNothing))
    && (quiet && !s.stepping && a.prepared == PrepNothing ==>
          !t.resuming && (s.shield ==> t.exec == s.exec && t.fork == s.fork))
  }

  // The undecided call and the lifted breakpoints stay.
  predicate CallKept(s: Session, t: Session) {
    t.exec == s.exec && t.fork == s.fork && t.shield == s.shield
  }

  lemma AskNotes(s: Session, authorized: bool, a: Answers)
    ensures var asked := Ask(s, authorized, a.accepts);
      && asked.session == s.(process := asked.session.process)
      && (asked.ok <==> (authorized || !Pending(s)) && s.process.phase == Halted && a.accepts)
  {
  }

  lemma ContinueNotes(s: Session, a: Answers)
    ensures var t := Continue(s, a);
      CallKept(s, t) && (t.resuming <==> Continues(s, a)) && (t.stepping ==> t.resuming)
  {
    hide Ask;
    AskNotes(s, false, a);
  }

  lemma StepNotes(s: Session, a: Answers)
    requires !s.resuming
    ensures var t := HandleStep(s, a);
      CallKept(s, t) && (t.stepping ==> Continues(s, a) && t.resuming)
  {
    hide Ask, Continue;
    ContinueNotes(s, a);
    AskNotes(s.(resuming := true, stepping := true), false, a);
  }

  lemma HitNotes(s: Session, a: Answers)
    ensures var t := OrFailed(HandleHit(s, a));
      && t.shield == s.shield && (t.resuming ==> s.resuming) && (t.stepping ==> s.stepping)
      && (!Pending(s) && Pending(t) ==> t.process == s.process)
  {
    hide Ask;
    AskNotes(s, false, a);
    AskNotes(s, true, a);
  }

  lemma PlainNotes(s: Session, a: Answers)
    ensures var t := HandlePlain(s, a);
      && t.shield == s.shield && (t.resuming ==> s.resuming) && (!Pending(s) && Pending(t) ==> t.process == s.process)
  {
    hide Ask, HandleHit;
    HitNotes(s, a);
    AskNotes(s, false, a);
  }

  lemma StopKeepsLast(s: Session, a: Answers)
    ensures HandleStop(s, a).last == s.last
  {
    hide HandleStop;
    StopMoves(s, a);
  }

  lemma StopInOrder(s: Session, a: Answers)
    ensures InOrder(s, a, HandleStop(s, a))
  {
    hide Ask, Continue, HandleStep, HandleHit, HandlePlain, OrFailed;
    StopMoves(s, a);
    var q := s.(resuming := false);
    ContinueNotes(q, a);
    StepNotes(q, a);
    HitNotes(q.(stepping := false), a);
    AskNotes(q.(shield := false), false, a);
    PlainNotes(q, a);
  }

  // ----- what makes the target run again

  // The session with its target asked to run.
  function Running(s: Session): Session {
    s.(process := s.process.(phase := Leaving))
  }

  // What a hit leads to at a stopped target: a question leaves the call for the user, a pass runs the target
  // unless a call waits, a resolved one runs it in any case, and the rest changes nothing.
  ghost predicate HitDone(s: Session, a: Answers, t: Session) {
    match a.hit
    case AskExec(site) => t == s.(exec := Some(Token(Key(s.process.pid, s.process.id), site)))
    case AskFork => t == s.(fork := true)
    case Passed => t == if a.accepts && s.exec == None && !s.fork then Running(s) else s
    case Resolved => t == if a.accepts then Running(s) else s
    case _ => t == s
  }

  lemma HitIsDone(s: Session, a: Answers)
    requires s.process.phase == Halted
    ensures HitDone(s, a, HandleHit(s, a).session)
    ensures HandleHit(s, a).ok <==>
      a.hit != HitRaises && (a.hit == Passed ==> a.accepts && s.exec == None && !s.fork) && (a.hit == Resolved ==> a.accepts)
  {
  }

  // A decision on an exec call, at a stopped target: allowing it resolves the call and runs the target; when the
  // target is found at a further hit, the call is resolved and the hit decides.
  ghost predicate ExecDecided(s: Session, token: Option<Token>, resolution: Resolution, a: Answers, t: Session) {
    if s.exec == None || (token.Some? && token != s.exec) || resolution == Dump || resolution == ReturnFails then t == s
    else if resolution == StillHit then HitDone(s.(exec := None), a, t)
    else t == if a.accepts then Running(s.(exec := None)) else s
  }

  lemma ExecIsDecided(s: Session, token: Option<Token>, resolution: Resolution, a: Answers)
    requires s.process.phase == Halted
    ensures ExecDecided(s, token, resolution, a, OnDecideExec(s, token, resolution, a))
  {
    hide HandleHit, HitDone;
    HitIsDone(s.(exec := None), a);
  }

  ghost predicate ForkDecided(s: Session, valid: bool, fails: bool, shielded: bool, accepts: bool, t: Session) {
    if !s.fork || !valid || fails then t == s
    else
      var kept := s.(shield := shielded || s.shield);
      t == if accepts then Running(kept.(fork := false)) else kept
  }

  lemma ForkIsDecided(s: Session, valid: bool, fails: bool, shielded: bool, accepts: bool)
    requires s.process.phase == Halted
    ensures ForkDecided(s, valid, fails, shielded, accepts, OnDecideFork(s, valid, fails, shielded, accepts))
  {
  }

  // A user resume is taken up exactly when nothing waits for a decision, nothing is under way, the target is
  // reported as stopped and the gates open.
  ghost predicate ResumeTaken(s: Session, step: bool, a: Answers, t: Session) {
    if s.exec != None || s.fork || s.resuming || s.stepping || !a.gates || s.process.phase == Going || s.process.phase == Gone
    then t == s
    else if s.process.phase == Halted && a.accepts then t == Running(s).(resuming := true, stepping := step)
    else !t.resuming && !t.stepping && t.exec == s.exec && t.fork == s.fork && (s.process.phase == Halted ==> t == s)
  }

  lemma ResumeIsTaken(s: Session, step: bool, a: Answers)
    ensures ResumeTaken(s, step, a, Resume(s, step, a))
  {
  }

  // The hit of a stop is looked at.
  predicate HitReached(s: Session, a: Answers) {
    (a.prepared == PrepInternal || a.prepared == PrepNothing) && a.intact
    && (a.script || (!s.stepping && a.prepared == PrepNothing && !s.shield))
  }

  // The stop makes the target run again, when it can.
  predicate AsksToRun(s: Session, a: Answers) {
    a.prepared == PrepResumes
    || ((a.prepared == PrepInternal || a.prepared == PrepNothing) && a.intact
        && if a.script then a.hit == Passed || a.hit == Resolved
           else if s.stepping then a.step == StepMore || (a.step == StepAgain && a.gates)
           else if a.prepared == PrepInternal || s.shield then true
           else a.hit == Passed || a.hit == Resolved || (a.hit == NoHit && a.traced))
  }

  // At a stopped target with no undecided call that would run: it runs exactly when the stop asks for it, a step
  // goes on exactly when it is not done, and a hit that asks leaves its call.
  ghost predicate Progresses(s: Session, a: Answers, t: Session) {
    Continues(s, a) ==>
      && t.process == (if AsksToRun(s, a) then s.process.(phase := Leaving) else s.process)
      && (s.stepping && !a.script && a.intact && (a.prepared == PrepInternal || a.prepared == PrepNothing) ==>
            (t.stepping <==> a.step == StepMore || (a.step == StepAgain && a.gates)) && (t.stepping ==> t.resuming))
      && t.exec == (if HitReached(s, a) && a.hit.AskExec? then Some(Token(Key(s.process.pid, s.process.id), a.hit.site)) else None)
      && t.fork == (HitReached(s, a) && a.hit == AskFork)
  }

  lemma AskRuns(s: Session, authorized: bool, a: Answers)
    requires Continues(s, a)
    ensures Ask(s, authorized, a.accepts) == Asked(Running(s), true)
  {
  }

  lemma StepProgresses(s: Session, a: Answers)
    requires Continues(s, a) && s.stepping && !s.resuming
    ensures HandleStep(s, a)
         == match a.step
            case StepRaises => s.(stepping := false)
            case StepMore => Running(s).(resuming := true)
            case StepDone => s.(stepping := false)
            case StepAgain => if a.gates then Running(s).(resuming := true) else s.(stepping := false)
  {
    hide Ask;
    AskRuns(s, false, a);
    AskRuns(s.(resuming := true), false, a);
  }

  lemma PlainProgresses(s: Session, a: Answers)
    requires Continues(s, a)
    ensures a.hit == NoHit ==> HandlePlain(s, a) == if a.traced then Running(s) else s
    ensures a.hit != NoHit ==> HandlePlain(s, a) == OrFailed(HandleHit(s, a))
  {
    hide Ask;
    AskRuns(s, false, a);
  }

  lemma HitProgresses(s: Session, a: Answers)
    requires Continues(s, a)
    ensures var t := OrFailed(HandleHit(s, a));
      && t.process == (if a.hit == Passed || a.hit == Resolved then s.process.(phase := Leaving) else s.process)
      && t.exec == (if a.hit.AskExec? then Some(Token(Key(s.process.pid, s.process.id), a.hit.site)) else None)
      && t.fork == (a.hit == AskFork)
  {
    hide HandleHit;
    HitIsDone(s, a);
  }

  lemma StopProgresses(s: Session, a: Answers)
    ensures Progresses(s, a, HandleStop(s, a))
  {
    hide Ask, HandleStep, HandleHit, HandlePlain, OrFailed;
    if Continues(s, a) {
      var q := s.(resuming := false);
      AskRuns(q, false, a);
      AskRuns(q.(shield := false), false, a);
      if q.stepping {
        StepProgresses(q, a);
      }
      HitProgresses(q.(stepping := false), a);
      HitProgresses(q, a);
      PlainProgresses(q, a);
    }
  }

  // ----- the engine

  class Engine {
    var process: Process
    var resuming: bool
    var lastStop: Option<Key>
    var pendingExec: Option<Token>
    var pendingFork: bool
    var stepping: bool
    var shield: bool

    function State(): Session
      reads this
    {
      Session(process, resuming, lastStop, pendingExec, pendingFork, stepping, shield)
    }

    constructor (pid: int, id: int)
      ensures State() == Begin(pid, id).s
    {
      process := Process(pid, id, Halted, 0);
      resuming, lastStop, pendingExec, pendingFork, stepping, shield := false, None, None, false, false, false;
    }

    method RunExecution(authorized: bool, accepts: bool) returns (ok: bool)
      modifies this
      ensures State() == Ask(old(State()), authorized, accepts).session
      ensures ok == Ask(old(State()), authorized, accepts).ok
      ensures ok ==> old(process.phase) == Halted && process.phase == Leaving && (authorized || !Pending(old(State())))
      ensures Pending(old(State())) && !authorized ==> State() == old(State())
    {
      if (pendingExec.Some? || pendingFork) && !authorized {
        return false;
      }
      ok := process.phase == Halted && accepts;
      process := Request(process, accepts);
    }

    method Fail()
      modifies this
      ensures State() == ResumeFailed(old(State()))
    {
      resuming := false;
      stepping := false;
    }

    method ResumeAction(step: bool, a: Answers)
      modifies this
      ensures State() == Resume(old(State()), step, a)
      ensures ResumeTaken(old(State()), step, a, State())
      ensures !MayBegin(old(State()), a.gates) ==> State() == old(State())
      ensures MayBegin(old(State()), a.gates) ==>
        if old(process.phase) == Halted && a.accepts then resuming && process.phase == Leaving && stepping == step
        else !resuming && !stepping
    {
      ResumeIsTaken(State(), step, a);
      hide ResumeTaken;
      if pendingExec.Some? || pendingFork || resuming || stepping || !ReportedStopped(process) || !a.gates {
        return;
      }
      resuming := true;
      if step {
        stepping := true;
      }
      var ok := RunExecution(false, a.accepts);
      if !ok {
        Fail();
      }
    }

    method HandleAntiDebugHit(a: Answers) returns (ok: bool)
      modifies this
      ensures State() == HandleHit(old(State()), a).session && ok == HandleHit(old(State()), a).ok
      ensures old(process.phase) == Halted ==> HitDone(old(State()), a, State())
      ensures a.hit.AskExec? || a.hit == AskFork ==> ok && Pending(State()) && process == old(process)
    {
      if process.phase == Halted {
        HitIsDone(State(), a);
      }
      hide HitDone;
      ok := true;
      match a.hit {
        case NoHit =>
        case AskExec(site) => pendingExec := Some(Token(Key(process.pid, process.id), site));
        case AskFork => pendingFork := true;
        case Passed => ok := RunExecution(false, a.accepts);
        case Resolved => ok := RunExecution(true, a.accepts);
        case Blocked =>
        case HitRaises => ok := false;
      }
    }

    method ContinueNoted(a: Answers)
      modifies this
      ensures State() == Continue(old(State()), a)
      ensures resuming <==> !Pending(old(State())) && old(process.phase) == Halted && a.accepts
    {
      var ok := RunExecution(false, a.accepts);
      if ok {
        resuming := true;
      } else {
        Fail();
      }
    }

    method AdvanceStep(a: Answers)
      modifies this
      ensures State() == HandleStep(old(State()), a)
    {
      match a.step {
        case StepRaises => Fail();
        case StepMore => ContinueNoted(a);
        case StepDone => stepping := false;
        case StepAgain =>
          stepping := false;
          ResumeAction(true, a);
      }
    }

    method HandleRest(a: Answers)
      modifies this
      ensures State() == HandlePlain(old(State()), a)
    {
      var ok := true;
      if a.hit != NoHit {
        ok := HandleAntiDebugHit(a);
      } else if a.traced {
        ok := RunExecution(false, a.accepts);
      }
      if !ok {
        Fail();
      }
    }

    method ActOnStop(a: Answers)
      modifies this
      ensures State() == HandleStop(old(State()), a)
      ensures InOrder(old(State()), a, State()) && Progresses(old(State()), a, State())
    {
      hide InOrder, Progresses, HitDone, ResumeTaken;
      StopInOrder(State(), a);
      StopProgresses(State(), a);
      resuming := false;
      var ok := true;
      if a.prepared == PrepRaises {
        Fail();
      } else if a.prepared == PrepResumes {
        ContinueNoted(a);
      } else if a.prepared == PrepVisible {
      } else if !a.intact {
        stepping := false;
      } else if a.script {
        stepping := false;
        ok := HandleAntiDebugHit(a);
        if !ok {
          Fail();
        }
      } else if stepping {
        AdvanceStep(a);
      } else if a.prepared == PrepInternal {
        ContinueNoted(a);
      } else if shield {
        shield := false;
        ok := RunExecution(false, a.accepts);
      } else {
        HandleRest(a);
      }
    }

    method OnStopEvent(pid: int, id: int, a: Answers)
      modifies this
      ensures State() == OnStop(old(State()), pid, id, a)
      ensures (pid != 0 && pid != old(process.pid)) || (id != 0 && id != old(process.id)) ==> State() == old(State())
      ensures id != 0 && old(lastStop) == Some(Key(old(process.pid), id)) ==> State() == old(State())
      ensures (pid == 0 || pid == old(process.pid)) && id == 0 ==> Progresses(old(State()), a, State())
      ensures ((pid == 0 || pid == old(process.pid)) && id != 0 && id == old(process.id)
               && old(process.phase) != Going && old(process.phase) != Gone && old(lastStop) != Some(Key(old(process.pid), id)))
        ==> Progresses(old(State()).(last := Some(Key(old(process.pid), id))), a, State()) && lastStop == Some(Key(old(process.pid), id))
    {
      hide InOrder, HandleStop, Progresses;
      StopKeepsLast(State().(last := Some(Key(process.pid, id))), a);
      if pid != 0 && pid != process.pid {
        return;
      }
      if id != 0 {
        if !ReportedStopped(process) || process.id != id {
          return;
        }
        var key := Key(process.pid, id);
        if lastStop == Some(key) {
          return;
        }
        lastStop := Some(key);
      }
      ActOnStop(a);
    }

    method OnExitEvent(pid: int, ended: bool)
      modifies this
      ensures State() == OnExit(old(State()), pid, ended)
      ensures pid == 0 || pid == process.pid ==>
        !Pending(State()) && !stepping && resuming == (old(resuming) && !ended) && shield == old(shield) && lastStop == old(lastStop)
      ensures pid != 0 && pid != process.pid ==> State() == old(State())
      ensures process == old(process)
    {
      if pid != 0 && pid != process.pid {
        return;
      }
      if ended {
        resuming := false;
      }
      stepping := false;
      pendingExec := None;
      pendingFork := false;
    }

    method DecideExecCall(token: Option<Token>, resolution: Resolution, a: Answers)
      modifies this
      ensures State() == OnDecideExec(old(State()), token, resolution, a)
      ensures (token.Some? && token != old(pendingExec)) || resolution == Dump || resolution == ReturnFails ==>
        State() == old(State())
      ensures resolution == LetGo && old(pendingExec).Some? ==>
        (pendingExec == None ==> old(process.phase) == Halted && process.phase == Leaving)
      ensures old(process.phase) == Halted ==> ExecDecided(old(State()), token, resolution, a, State())
    {
      if process.phase == Halted {
        ExecIsDecided(State(), token, resolution, a);
      }
      hide ExecDecided, HitDone;
      if pendingExec == None || (token.Some? && token != pendingExec) || resolution == Dump {
        return;
      }
      if !ReportedStopped(process) || resolution == ReturnFails {
        return;
      }
      if resolution == StillHit {
        pendingExec := None;
        var handled := HandleAntiDebugHit(a);
        return;
      }
      var ok := RunExecution(true, a.accepts);
      if ok {
        pendingExec := None;
      }
    }

    method DecideForkCall(valid: bool, fails: bool, shielded: bool, accepts: bool)
      modifies this
      ensures State() == OnDecideFork(old(State()), valid, fails, shielded, accepts)
      ensures !valid || fails ==> State() == old(State())
      ensures old(pendingFork) && !pendingFork ==> old(process.phase) == Halted && process.phase == Leaving
      ensures old(process.phase) == Halted ==> ForkDecided(old(State()), valid, fails, shielded, accepts, State())
    {
      if process.phase == Halted {
        ForkIsDecided(State(), valid, fails, shielded, accepts);
      }
      hide ForkDecided;
      if !pendingFork || !valid || fails {
        return;
      }
      if shielded {
        shield := true;
      }
      var ok := RunExecution(true, accepts);
      if ok {
        pendingFork := false;
      }
    }

    method KillTarget(ok: bool)
      modifies this
      ensures State() == OnKill(old(State()), ok)
      ensures if ok then process.phase == Gone && !Pending(State()) else State() == old(State())
    {
      if ok {
        process := process.(phase := Gone);
        pendingExec := None;
        pendingFork := false;
      }
    }

    method RestartTarget(pid: int, id: int, ok: bool)
      modifies this
      ensures State() == OnRestart(old(State()), pid, id, ok)
      ensures !Pending(State()) && lastStop == None
      ensures if ok then process.pid == pid && process.id == id && process.phase == Halted && !resuming
              else process.phase == Gone && resuming == old(resuming)
      ensures !stepping && shield == old(shield)
    {
      pendingExec, pendingFork, lastStop := None, false, None;
      process := process.(phase := Gone);
      stepping := false;
      if ok {
        process := Process(pid, id, Halted, process.strays);
        resuming := false;
      }
    }

    method PrepareTargetChange(pid: int, id: int)
      modifies this
      ensures State() == OnTargetChange(old(State()), pid, id)
      ensures !Pending(State()) && !resuming && !stepping && !shield && lastStop == None
      ensures process.pid == pid && process.id == id && process.phase == Halted
    {
      pendingExec, pendingFork, resuming, lastStop := None, false, false, None;
      stepping, shield := false, false;
      process := Process(pid, id, Halted, process.strays);
    }
  }
}
