// Runs of the defenses and the cloak: who holds which hook, and what turning the cloak off leaves.
module HookRuns {
  import opened HookOwnership
  import opened CloakRollback

  // The world and the breakpoints users and other parts of the debugger have made.
  datatype Session = Session(w: World, others: set<int>)

  datatype Op =
    | DefenseOn(d: Defense, f: Found)
    | DefenseOff(d: Defense, f: Found)
    | PtraceOn(valid: bool, f: Found)
    | PtraceOff(f: Found)
    | CsopsOn(valid: bool, f: Found)
    | CsopsOff(f: Found)
    | TurnCloakOn(a: Answers)
    | TurnCloakOff(a: Answers)
    | AddBreakpoint
    | RemoveBreakpoint(id: int)

  function HooksAfter(h: Hooks, op: Op): Hooks {
    match op
    case DefenseOn(d, f) => Enable(h, d, f).hooks
    case DefenseOff(d, f) => Disable(h, d, f)
    case PtraceOn(valid, f) => EnablePtrace(h, valid, f)
    case PtraceOff(f) => DisablePtrace(h, f)
    case CsopsOn(valid, f) => EnableCsops(h, valid, f)
    case CsopsOff(f) => DisableCsops(h, f)
    case _ => h
  }

  function Next(s: Session, op: Op): Session {
    match op
    case TurnCloakOn(a) => s.(w := CloakOn(s.w, a).0)
    case TurnCloakOff(a) => s.(w := CloakOff(s.w, a))
    case AddBreakpoint =>
      Session(s.w.(h := s.w.h.(table := s.w.h.table + {s.w.h.nextId}, nextId := s.w.h.nextId + 1)), s.others + {s.w.h.nextId})
    case RemoveBreakpoint(id) =>
      if id in s.others then Session(s.w.(h := s.w.h.(table := s.w.h.table - {id})), s.others - {id}) else s
    case _ => s.(w := s.w.(h := HooksAfter(s.w.h, op)))
  }

  function Run(ops: seq<Op>): Session {
    if ops == [] then Session(World(Hooks({}, 1, false, false, 0, {}, 0, 0), Cloak(false, {}, map[])), {})
    else Next(Run(ops[..|ops| - 1]), ops[|ops| - 1])
  }

  predicate Claimed(h: Hooks, id: int) {
    id == h.sysctl || id == h.ptrace || id == h.csops || id in h.syscalls
  }

  // The step from `h` to `g` takes away only claimed breakpoints and makes only new ones.
  predicate Moves(h: Hooks, g: Hooks) {
    && Sound(g) && h.nextId <= g.nextId
    && (forall id :: id in h.table && !Claimed(h, id) ==> id in g.table && !Claimed(g, id))
    && (forall id :: 0 < id < h.nextId && Claimed(g, id) ==> Claimed(h, id))
    && (g.ptrace == 0 || g.ptrace == h.ptrace || h.nextId <= g.ptrace)
    && (g.csops == 0 || g.csops == h.csops || h.nextId <= g.csops)
  }

  lemma SyncMoves(h: Hooks, g: Hooks, f: Found)
    requires Sound(h) && NearlySound(g) && h.nextId <= g.nextId && (g.syscalls == h.syscalls)
    requires forall id :: id in h.table && !Claimed(h, id) ==> id in g.table && !Claimed(g, id)
    requires forall id :: 0 < id < h.nextId && Claimed(g, id) ==> Claimed(h, id)
    requires g.ptrace == 0 || g.ptrace == h.ptrace || h.nextId <= g.ptrace
    requires g.csops == 0 || g.csops == h.csops || h.nextId <= g.csops
    ensures Moves(h, Sync(g, f))
  {
    SyncSound(g, f);
    hide Sound, NearlySound;
    assert Placed(h) && Placed(g);
  }

  lemma OwnHookMoves(h: Hooks, op: Op)
    requires Sound(h) && (op.PtraceOn? || op.PtraceOff? || op.CsopsOn? || op.CsopsOff?)
    ensures Moves(h, HooksAfter(h, op))
  {
    hide Sync;
    match op {
      case PtraceOn(valid, f) =>
        if h.ptrace == 0 && valid {
          SyncMoves(h, h.(ptrace := h.nextId, table := h.table + {h.nextId}, nextId := h.nextId + 1), f);
        }
      case PtraceOff(f) =>
        if h.ptrace != 0 {
          SyncMoves(h, h.(table := h.table - {h.ptrace}, ptrace := 0), f);
        }
      case CsopsOn(valid, f) =>
        if h.csops == 0 && valid {
          SyncMoves(h, h.(csops := h.nextId, table := h.table + {h.nextId}, nextId := h.nextId + 1), f);
        }
      case CsopsOff(f) =>
        if h.csops != 0 {
          SyncMoves(h, h.(table := h.table - {h.csops}, csops := 0), f);
        }
    }
  }

  lemma HooksMove(h: Hooks, op: Op)
    requires Sound(h)
    ensures Moves(h, HooksAfter(h, op))
  {
    hide Sync, Moves, Sound, Enable, Disable;
    if op.PtraceOn? || op.PtraceOff? || op.CsopsOn? || op.CsopsOff? {
      OwnHookMoves(h, op);
    } else if op.DefenseOn? {
      OnMoves(h, op.d, op.f);
    } else if op.DefenseOff? {
      OffMoves(h, op.d, op.f);
    } else {
      StayMoves(h);
    }
  }

  lemma OnMoves(h: Hooks, d: Defense, f: Found)
    requires Sound(h)
    ensures Moves(h, Enable(h, d, f).hooks)
  {
    hide Sync;
    EnableSound(h, d, f);
    if Enable(h, d, f).ok {
      SyncMoves(h, WithSysctl(SetFlag(h, d, true)), f);
    }
  }

  lemma OffMoves(h: Hooks, d: Defense, f: Found)
    requires Sound(h)
    ensures Moves(h, Disable(h, d, f))
  {
    hide Sync;
    SyncMoves(h, ReleaseSysctl(SetFlag(h, d, false)), f);
  }

  lemma StayMoves(h: Hooks)
    requires Sound(h)
    ensures Moves(h, h)
  {
  }

  // Nobody else's breakpoints are among the hooks, the cloak's entries, or what it would clean up.
  ghost predicate Apart(s: Session) {
    && Sound(s.w.h)
    && (forall id :: id in s.others ==> id in s.w.h.table && !Claimed(s.w.h, id) && id !in s.w.c.entries)
    && (forall id :: id in s.w.c.entries ==> id in s.w.h.table && !Claimed(s.w.h, id))
    && forall d :: d in s.w.c.owned ==> Cleanable(s, s.w.c.owned[d])
  }

  ghost predicate Cleanable(s: Session, ids: set<int>) {
    forall id :: id in ids ==>
      0 < id < s.w.h.nextId && id !in s.others && id !in s.w.c.entries && id != s.w.h.ptrace && id != s.w.h.csops
  }

  ghost predicate Good(s: Session) {
    Apart(s) && (!s.w.c.enabled ==> s.w.c.entries == {} && s.w.c.owned == map[])
  }

  lemma ApartMoves(s: Session, g: Hooks)
    requires Apart(s) && Moves(s.w.h, g)
    ensures Apart(s.(w := s.w.(h := g)))
  {
  }

  lemma GiveBackApart(s: Session, d: Defense, f: Found)
    requires Apart(s)
    ensures Apart(s.(w := GiveBack(s.w, d, f)))
  {
    hide Disable;
    if d in s.w.c.owned {
      var g := Disable(s.w.h, d, f);
      HooksMove(s.w.h, DefenseOff(d, f));
      ApartMoves(s, g);
      DropApart(s.(w := s.w.(h := g)), d);
    }
  }

  lemma DropApart(s: Session, d: Defense)
    requires Apart(s) && d in s.w.c.owned
    ensures Apart(s.(w := World(DropUnclaimed(s.w.h, s.w.c.owned[d]), s.w.c.(owned := s.w.c.owned - {d}))))
  {
    assert Cleanable(s, s.w.c.owned[d]);
  }

  lemma DropEntriesApart(s: Session)
    requires Apart(s)
    ensures Apart(s.(w := DropEntries(s.w)))
  {
    forall id | id in s.w.h.syscalls ensures id in s.w.h.table - s.w.c.entries {
      assert Claimed(s.w.h, id);
    }
  }

  lemma EnableAdds(h: Hooks, d: Defense, f: Found)
    requires Sound(h)
    ensures var g := Enable(h, d, f).hooks;
            g.ptrace == h.ptrace && g.csops == h.csops && forall id :: id in g.table - h.table ==> h.nextId <= id < g.nextId
  {
  }

  lemma AcquireApart(s: Session, d: Defense, f: Found)
    requires Apart(s)
    ensures Apart(s.(w := Acquire(s.w, d, f).0))
  {
    hide Enable;
    if !Flag(s.w.h, d) {
      var e := Enable(s.w.h, d, f);
      EnableSound(s.w.h, d, f);
      EnableAdds(s.w.h, d, f);
      HooksMove(s.w.h, DefenseOn(d, f));
      ApartMoves(s, e.hooks);
      if !e.ok {
        assert e.hooks.table - (e.hooks.table - s.w.h.table) == s.w.h.table;
        assert Acquire(s.w, d, f).0 == s.w;
      } else {
        hide Moves;
        assert Cleanable(s.(w := s.w.(h := e.hooks)), e.hooks.table - s.w.h.table);
      }
    }
  }

  lemma {:induction false} AddEntriesApart(s: Session, symbols: seq<Symbol>)
    requires Apart(s)
    ensures Apart(s.(w := AddEntries(s.w, symbols).0))
    decreases |symbols|
  {
    if symbols != [] && symbols[0] == Located {
      var id := s.w.h.nextId;
      var v := World(s.w.h.(table := s.w.h.table + {id}, nextId := id + 1), s.w.c.(entries := s.w.c.entries + {id}));
      assert Sound(v.h);
      assert Apart(s.(w := v));
      AddEntriesApart(s.(w := v), symbols[1..]);
    }
  }

  lemma OverGood(s: Session, g: Hooks)
    requires Good(s) && !s.w.c.enabled && Over(s.w.h, g)
    ensures Good(s.(w := s.w.(h := g)))
  {
  }

  lemma CloakOnGood(s: Session, a: Answers)
    requires Good(s)
    ensures Good(s.(w := CloakOn(s.w, a).0))
  {
    hide Over, Acquire, AddEntries, Undone, Apart;
    if !CloakOn(s.w, a).1 {
      if !s.w.c.enabled {
        IdleGood(s);
        FailedOver(s.w, a);
        OverGood(s, CloakOn(s.w, a).0.h);
      }
    } else {
      AcquireApart(s, FlagScrub, a.first);
      var s1 := s.(w := Acquire(s.w, FlagScrub, a.first).0);
      AcquireApart(s1, ParentScrub, a.second);
      var s2 := s1.(w := Acquire(s1.w, ParentScrub, a.second).0);
      AddEntriesApart(s2, a.entries);
      EnabledApart(s2.(w := AddEntries(s2.w, a.entries).0), true);
    }
  }

  lemma IdleGood(s: Session)
    requires Good(s) && !s.w.c.enabled
    ensures Idle(s.w)
  {
  }

  lemma EnabledApart(s: Session, on: bool)
    requires Apart(s)
    ensures Apart(s.(w := s.w.(c := s.w.c.(enabled := on))))
  {
  }

  lemma CloakOffGood(s: Session, a: Answers)
    requires Good(s)
    ensures Good(s.(w := CloakOff(s.w, a)))
  {
    hide GiveBack, Apart;
    DropEntriesApart(s);
    var s1 := s.(w := DropEntries(s.w));
    GiveBackApart(s1, ParentScrub, a.undoSecond);
    var s2 := s1.(w := GiveBack(s1.w, ParentScrub, a.undoSecond));
    GiveBackApart(s2, FlagScrub, a.undoFirst);
    var s3 := s2.(w := GiveBack(s2.w, FlagScrub, a.undoFirst));
    EnabledApart(s3, false);
    GiveBackOwned(s1.w, ParentScrub, a.undoSecond);
    GiveBackOwned(s2.w, FlagScrub, a.undoFirst);
    forall d ensures d !in s3.w.c.owned {
      assert d == FlagScrub || d == ParentScrub;
    }
    assert s3.w.c.owned == map[];
  }

  lemma GiveBackOwned(w: World, d: Defense, f: Found)
    ensures d !in GiveBack(w, d, f).c.owned && GiveBack(w, d, f).c.owned.Keys <= w.c.owned.Keys
    ensures GiveBack(w, d, f).c.entries == w.c.entries
  {
  }

  lemma GoodNext(s: Session, op: Op)
    requires Good(s)
    ensures Good(Next(s, op))
  {
    match op {
      case TurnCloakOn(a) => CloakOnGood(s, a);
      case TurnCloakOff(a) => CloakOffGood(s, a);
      case AddBreakpoint =>
        hide HooksAfter, CloakOn, CloakOff;
      case RemoveBreakpoint(_) =>
        hide HooksAfter, CloakOn, CloakOff;
      case _ =>
        HooksMove(s.w.h, op);
        ApartMoves(s, HooksAfter(s.w.h, op));
        hide Apart, HooksAfter;
    }
  }

  // After any run of operations the sysctl breakpoint is armed exactly while one of its owners is on, the
  // syscall hooks are armed only while wanted, and everyone else's breakpoints are in the table.
  lemma {:induction false} RunGood(ops: seq<Op>)
    ensures Good(Run(ops))
  {
    if ops != [] {
      RunGood(ops[..|ops| - 1]);
      GoodNext(Run(ops[..|ops| - 1]), ops[|ops| - 1]);
    }
  }

  lemma GiveBackKeeps(w: World, d: Defense, f: Found)
    requires Sound(w.h)
    ensures var g := GiveBack(w, d, f).h;
            && g.ptrace == w.h.ptrace && g.csops == w.h.csops
            && (forall e :: Flag(g, e) <==> Flag(w.h, e) && !(e == d && d in w.c.owned))
            && ((exists e :: Flag(g, e)) ==> g.sysctl == w.h.sysctl)
            && (Wanted(g) && w.h.syscalls != {} ==> g.syscalls == w.h.syscalls)
  {
  }

  // Turning the cloak off gives back just what it borrowed: its entry breakpoints and its two defenses go,
  // the defenses it did not turn on stay on, the shared hooks stay, under the same ids, while anyone else
  // wants them, and so does every other breakpoint.
  lemma CloakOffKeeps(ops: seq<Op>, a: Answers)
    ensures var s, t := Run(ops), Next(Run(ops), TurnCloakOff(a));
            && t.others == s.others && (forall id :: id in s.others ==> id in t.w.h.table)
            && t.w.h.ptrace == s.w.h.ptrace && t.w.h.csops == s.w.h.csops
            && (forall d :: Flag(t.w.h, d) <==> Flag(s.w.h, d) && d !in s.w.c.owned)
            && (t.w.h.ptraced || t.w.h.parent ==> t.w.h.sysctl == s.w.h.sysctl != 0 && t.w.h.sysctl in t.w.h.table)
            && (Wanted(t.w.h) && s.w.h.syscalls != {} ==>
                  t.w.h.syscalls == s.w.h.syscalls && t.w.h.syscalls <= t.w.h.table)
            && (t.w.h.ptrace != 0 ==> t.w.h.ptrace in t.w.h.table) && (t.w.h.csops != 0 ==> t.w.h.csops in t.w.h.table)
            && t.w.c == Cloak(false, {}, map[])
  {
    hide GiveBack, Run;
    RunGood(ops);
    var s := Run(ops);
    CloakOffGood(s, a);
    var u := DropEntries(s.w);
    DropEntriesApart(s);
    GiveBackKeeps(u, ParentScrub, a.undoSecond);
    var v := GiveBack(u, ParentScrub, a.undoSecond);
    GiveBackApart(s.(w := u), ParentScrub, a.undoSecond);
    GiveBackKeeps(v, FlagScrub, a.undoFirst);
    GiveBackOwned(u, ParentScrub, a.undoSecond);
    OwnedElsewhere(u, ParentScrub, a.undoSecond);
    var t := Next(s, TurnCloakOff(a)).w;
    assert t.h.ptraced ==> Flag(t.h, FlagScrub);
    assert t.h.parent ==> Flag(t.h, ParentScrub);
    assert Flag(t.h, FlagScrub) ==> Flag(v.h, FlagScrub);
    assert Flag(t.h, ParentScrub) ==> Flag(v.h, ParentScrub);
  }

  lemma OwnedElsewhere(w: World, d: Defense, f: Found)
    ensures forall e :: e != d ==> (e in GiveBack(w, d, f).c.owned <==> e in w.c.owned)
  {
  }

  // A defense a user turns on while the cloak has it borrowed goes off with the cloak.
  lemma BorrowedGoesOff(s: Session, f: Found, a: Answers)
    requires Good(s) && FlagScrub in s.w.c.owned && Flag(s.w.h, FlagScrub)
    ensures var t := Next(s, DefenseOn(FlagScrub, f));
            Enable(s.w.h, FlagScrub, f).ok && Flag(t.w.h, FlagScrub) && !Flag(Next(t, TurnCloakOff(a)).w.h, FlagScrub)
  {
    hide Disable, DropUnclaimed, Apart;
    var t := Next(s, DefenseOn(FlagScrub, f));
    Sounds(s);
    Flags(GiveBack(DropEntries(t.w), ParentScrub, a.undoSecond), a.undoFirst);
    OwnedElsewhere(DropEntries(t.w), ParentScrub, a.undoSecond);
  }

  // A cloak turned on when everything is found borrows both defenses, so such runs exist.
  lemma BorrowedRun()
    ensures var f := Found(true, true, true);
            var a := Answers(true, f, f, [], true, f, f);
            var on := [TurnCloakOn(a)];
            && FlagScrub in Run(on).w.c.owned
            && Flag(Run(on + [DefenseOn(FlagScrub, f)]).w.h, FlagScrub)
            && !Flag(Run(on + [DefenseOn(FlagScrub, f)] + [TurnCloakOff(a)]).w.h, FlagScrub)
  {
    hide Good, Disable, Enable, Next;
    var f := Found(true, true, true);
    var a := Answers(true, f, f, [], true, f, f);
    var on := [TurnCloakOn(a)];
    assert on[..0] == [] && Run([]) == Session(World(Hooks({}, 1, false, false, 0, {}, 0, 0), Cloak(false, {}, map[])), {});
    CloakBorrows(Run([]), f, a);
    RunGood(on);
    BorrowedGoesOff(Run(on), f, a);
    RunSnoc(on, DefenseOn(FlagScrub, f));
    RunSnoc(on + [DefenseOn(FlagScrub, f)], TurnCloakOff(a));
  }

  lemma RunSnoc(ops: seq<Op>, op: Op)
    ensures Run(ops + [op]) == Next(Run(ops), op)
  {
    assert (ops + [op])[..|ops|] == ops;
  }

  lemma CloakBorrows(s: Session, f: Found, a: Answers)
    requires s == Session(World(Hooks({}, 1, false, false, 0, {}, 0, 0), Cloak(false, {}, map[])), {})
    requires f == Found(true, true, true) && a == Answers(true, f, f, [], true, f, f)
    ensures FlagScrub in Next(s, TurnCloakOn(a)).w.c.owned && Flag(Next(s, TurnCloakOn(a)).w.h, FlagScrub)
  {
  }

  lemma Sounds(s: Session)
    requires Good(s)
    ensures Sound(s.w.h)
  {
  }

  lemma Flags(w: World, f: Found)
    requires FlagScrub in w.c.owned
    ensures !Flag(GiveBack(w, FlagScrub, f).h, FlagScrub)
  {
  }

  // Every look for the syscall hooks finds at least one of their symbols.
  predicate Finds(f: Found) {
    f.syscall || f.wrapper
  }

  predicate Resolves(op: Op) {
    match op
    case DefenseOn(_, f) => Finds(f)
    case DefenseOff(_, f) => Finds(f)
    case PtraceOn(_, f) => Finds(f)
    case PtraceOff(f) => Finds(f)
    case CsopsOn(_, f) => Finds(f)
    case CsopsOff(f) => Finds(f)
    case TurnCloakOn(a) => Finds(a.first) && Finds(a.second)
    case TurnCloakOff(a) => Finds(a.undoSecond) && Finds(a.undoFirst)
    case _ => true
  }

  lemma HooksInStep(h: Hooks, op: Op)
    requires Sound(h) && InStep(h) && Resolves(op)
    ensures InStep(HooksAfter(h, op))
  {
    hide Sync;
    match op {
      case DefenseOn(d, f) => EnableSound(h, d, f);
      case DefenseOff(d, f) => DisableSound(h, d, f);
      case PtraceOn(valid, f) =>
        if h.ptrace == 0 && valid {
          SyncSound(h.(ptrace := h.nextId, table := h.table + {h.nextId}, nextId := h.nextId + 1), f);
        }
      case PtraceOff(f) =>
        if h.ptrace != 0 {
          SyncSound(h.(table := h.table - {h.ptrace}, ptrace := 0), f);
        }
      case CsopsOn(valid, f) =>
        if h.csops == 0 && valid {
          SyncSound(h.(csops := h.nextId, table := h.table + {h.nextId}, nextId := h.nextId + 1), f);
        }
      case CsopsOff(f) =>
        if h.csops != 0 {
          SyncSound(h.(table := h.table - {h.csops}, csops := 0), f);
        }
      case _ =>
    }
  }

  lemma AcquireInStep(w: World, d: Defense, f: Found)
    requires Sound(w.h) && InStep(w.h) && Finds(f)
    ensures Sound(Acquire(w, d, f).0.h) && InStep(Acquire(w, d, f).0.h)
  {
    hide Sync;
    if !Flag(w.h, d) {
      EnableSound(w.h, d, f);
      var e := Enable(w.h, d, f);
      if !e.ok {
        assert e.hooks.table - (e.hooks.table - w.h.table) == w.h.table;
      }
    }
  }

  lemma {:induction false} AddEntriesSame(w: World, symbols: seq<Symbol>)
    ensures var n := AddEntries(w, symbols).0; n.h == w.h.(table := n.h.table, nextId := n.h.nextId)
    decreases |symbols|
  {
    if symbols != [] && symbols[0] == Located {
      var id := w.h.nextId;
      AddEntriesSame(World(w.h.(table := w.h.table + {id}, nextId := id + 1), w.c.(entries := w.c.entries + {id})), symbols[1..]);
    }
  }

  lemma CloakOnInStep(s: Session, a: Answers)
    requires Good(s) && InStep(s.w.h) && Finds(a.first) && Finds(a.second)
    ensures InStep(CloakOn(s.w, a).0.h)
  {
    hide Acquire, AddEntries, Undone, Over, Apart;
    if !CloakOn(s.w, a).1 {
      if !s.w.c.enabled {
        IdleGood(s);
        FailedCloakKeeps(s.w, a);
      }
    } else {
      Sounds(s);
      AcquireInStep(s.w, FlagScrub, a.first);
      AcquireInStep(Acquire(s.w, FlagScrub, a.first).0, ParentScrub, a.second);
      AddEntriesSame(Acquire(Acquire(s.w, FlagScrub, a.first).0, ParentScrub, a.second).0, a.entries);
    }
  }

  lemma GiveBackInStep(w: World, d: Defense, f: Found)
    requires Sound(w.h) && InStep(w.h) && Finds(f)
    ensures InStep(GiveBack(w, d, f).h)
  {
    hide Sync;
    DisableSound(w.h, d, f);
  }

  lemma CloakOffInStep(s: Session, a: Answers)
    requires Good(s) && InStep(s.w.h) && Finds(a.undoSecond) && Finds(a.undoFirst)
    ensures InStep(CloakOff(s.w, a).h)
  {
    hide GiveBack;
    DropEntriesApart(s);
    var u := DropEntries(s.w);
    GiveBackInStep(u, ParentScrub, a.undoSecond);
    GiveBackApart(s.(w := u), ParentScrub, a.undoSecond);
    GiveBackInStep(GiveBack(u, ParentScrub, a.undoSecond), FlagScrub, a.undoFirst);
  }

  // When the symbols can be found, the syscall hooks are armed exactly while some owner wants them.
  lemma {:induction false} RunInStep(ops: seq<Op>)
    requires forall i :: 0 <= i < |ops| ==> Resolves(ops[i])
    ensures var h := Run(ops).w.h;
      h.syscalls != {} <==> h.ptrace != 0 || h.csops != 0 || h.ptraced || h.parent
  {
    RunGood(ops);
    Sounds(Run(ops));
    if ops != [] {
      var earlier, op := ops[..|ops| - 1], ops[|ops| - 1];
      RunInStep(earlier);
      RunGood(earlier);
      InStepNext(Run(earlier), op);
    }
  }

  lemma InStepNext(s: Session, op: Op)
    requires Good(s) && InStep(s.w.h) && Resolves(op)
    ensures InStep(Next(s, op).w.h)
  {
    hide CloakOn, CloakOff, Apart;
    match op {
      case TurnCloakOn(a) => CloakOnInStep(s, a);
      case TurnCloakOff(a) => CloakOffInStep(s, a);
      case AddBreakpoint =>
      case RemoveBreakpoint(_) =>
      case _ =>
        Sounds(s);
        HooksInStep(s.w.h, op);
        hide HooksAfter;
    }
  }
}
