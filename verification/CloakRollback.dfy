// What a failed attempt to enable the analysis cloak leaves behind.
module CloakRollback {
  import opened HookOwnership

  function Extra(base: Hooks, g: Hooks): set<int> {
    (if base.sysctl == 0 && g.sysctl != 0 then {g.sysctl} else {}) + (if base.syscalls == {} then g.syscalls else {})
  }

  // `g` is `base` with perhaps more of the two defenses on, and only the hooks that takes.
  predicate NearlyOver(base: Hooks, g: Hooks) {
    && NearlySound(g) && base.nextId <= g.nextId
    && (base.ptraced ==> g.ptraced) && (base.parent ==> g.parent)
    && g.ptrace == base.ptrace && g.csops == base.csops
    && (if base.sysctl != 0 then g.sysctl == base.sysctl else g.sysctl == 0 || base.nextId <= g.sysctl)
    && (if base.syscalls != {} then g.syscalls == base.syscalls else forall id :: id in g.syscalls ==> base.nextId <= id)
    && g.table == base.table + Extra(base, g)
  }

  predicate Over(base: Hooks, g: Hooks) {
    NearlyOver(base, g) && Sound(g)
  }

  lemma OverSync(base: Hooks, g: Hooks, f: Found)
    requires Sound(base) && NearlyOver(base, g)
    ensures Over(base, Sync(g, f))
  {
    SyncSound(g, f);
    assert base.syscalls != {} ==> Wanted(g);
    hide Sound, NearlySound;
    assert Placed(base);
    var r := Sync(g, f);
    if !Wanted(g) && g.syscalls != {} {
      assert forall id :: id in g.syscalls ==> id !in base.table;
      assert Distinct(g);
      assert r.table == base.table + Extra(base, r);
    }
  }

  lemma OverSelf(base: Hooks)
    requires Sound(base)
    ensures Over(base, base)
  {
    assert base.table == base.table + Extra(base, base);
  }

  lemma OverEnable(base: Hooks, g: Hooks, d: Defense, f: Found)
    requires Sound(base) && Over(base, g)
    ensures Over(base, Enable(g, d, f).hooks)
    ensures forall e :: e != d ==> Flag(Enable(g, d, f).hooks, e) == Flag(g, e)
    ensures Flag(Enable(g, d, f).hooks, d) == (Flag(g, d) || Enable(g, d, f).ok)
  {
    EnableSound(g, d, f);
    if Enable(g, d, f).ok {
      var n := WithSysctl(SetFlag(g, d, true));
      assert n.table == base.table + Extra(base, n);
      assert NearlyOver(base, n);
      OverSync(base, n, f);
    }
  }

  lemma OverDisable(base: Hooks, g: Hooks, d: Defense, f: Found)
    requires Sound(base) && Over(base, g) && !Flag(base, d)
    ensures Over(base, Disable(g, d, f)) && !Flag(Disable(g, d, f), d)
    ensures forall e :: e != d ==> Flag(Disable(g, d, f), e) == Flag(g, e)
  {
    var n := ReleaseSysctl(SetFlag(g, d, false));
    if n.sysctl != g.sysctl {
      assert base.sysctl == 0 && g.sysctl !in base.table && g.sysctl !in g.syscalls;
      assert n.table == base.table + Extra(base, n);
    }
    assert NearlyOver(base, n);
    OverSync(base, n, f);
  }

  lemma OverDrop(base: Hooks, g: Hooks, ids: set<int>)
    requires Over(base, g) && forall id :: id in ids ==> id !in base.table
    ensures DropUnclaimed(g, ids) == g
  {
    forall id | id in g.table && id in ids ensures id in g.syscalls || id == g.sysctl {
      assert id in Extra(base, g);
    }
    assert g.table - (ids - g.syscalls - {g.sysctl}) == g.table;
  }

  // The cloak holds nothing, or what it borrowed over `base`.
  ghost predicate Borrowed(base: Hooks, w: World) {
    && Sound(base) && Over(base, w.h)
    && (forall d :: d in w.c.owned ==> !Flag(base, d) && forall id :: id in w.c.owned[d] ==> id !in base.table)
    && (forall d :: Flag(w.h, d) && !Flag(base, d) ==> d in w.c.owned)
  }

  lemma AcquireBorrows(base: Hooks, w: World, d: Defense, f: Found)
    requires Borrowed(base, w)
    ensures Borrowed(base, Acquire(w, d, f).0)
    ensures Acquire(w, d, f).0.c == w.c.(owned := Acquire(w, d, f).0.c.owned)
    ensures !Acquire(w, d, f).1 ==> Acquire(w, d, f).0 == w
  {
    hide Enable, Over, Sound;
    if !Flag(w.h, d) {
      OverEnable(base, w.h, d, f);
      EnableFails(w.h, d, f, base);
      AddedNew(base, w.h, Enable(w.h, d, f).hooks);
      FlagsOver(base, w.h);
      var e := Enable(w.h, d, f);
      if !e.ok {
        assert e.hooks.table - (e.hooks.table - w.h.table) == w.h.table;
        assert Acquire(w, d, f).0 == w;
      }
    }
  }

  lemma EnableFails(h: Hooks, d: Defense, f: Found, base: Hooks)
    requires Over(base, h)
    ensures !Enable(h, d, f).ok ==> Enable(h, d, f).hooks == h
  {
    EnableSound(h, d, f);
  }

  lemma AddedNew(base: Hooks, g: Hooks, n: Hooks)
    requires Over(base, g) && Over(base, n)
    ensures forall id :: id in n.table - g.table ==> id !in base.table
  {
  }

  lemma GiveBackBorrowed(base: Hooks, w: World, d: Defense, f: Found)
    requires Borrowed(base, w)
    ensures Borrowed(base, GiveBack(w, d, f)) && d !in GiveBack(w, d, f).c.owned
    ensures GiveBack(w, d, f).c == w.c.(owned := w.c.owned - {d})
    ensures !Flag(base, d) ==> !Flag(GiveBack(w, d, f).h, d)
  {
    hide Over, Sound, Disable, DropUnclaimed;
    if d in w.c.owned {
      OverDisable(base, w.h, d, f);
      OverDrop(base, Disable(w.h, d, f), w.c.owned[d]);
    }
  }

  lemma {:induction false} EntriesAdded(w: World, symbols: seq<Symbol>)
    requires forall id :: id in w.h.table ==> id < w.h.nextId
    requires forall id :: id in w.c.entries ==> id < w.h.nextId
    ensures var n := AddEntries(w, symbols).0;
            && w.h.nextId <= n.h.nextId
            && n.h == w.h.(table := n.h.table, nextId := n.h.nextId)
            && n.c == w.c.(entries := n.c.entries) && w.c.entries <= n.c.entries
            && n.h.table == w.h.table + (n.c.entries - w.c.entries)
            && forall id :: id in n.c.entries - w.c.entries ==> w.h.nextId <= id
    decreases |symbols|
  {
    if symbols != [] && symbols[0] == Located {
      var id := w.h.nextId;
      var v := World(w.h.(table := w.h.table + {id}, nextId := id + 1), w.c.(entries := w.c.entries + {id}));
      EntriesAdded(v, symbols[1..]);
      var n := AddEntries(w, symbols).0;
      assert n.h.table == w.h.table + {id} + (n.c.entries - v.c.entries);
      assert n.c.entries - w.c.entries == {id} + (n.c.entries - v.c.entries);
    }
  }

  lemma EntriesDropped(base: Hooks, w: World, symbols: seq<Symbol>)
    requires Borrowed(base, w) && w.c.entries == {}
    ensures Borrowed(base, DropEntries(AddEntries(w, symbols).0))
    ensures DropEntries(AddEntries(w, symbols).0).c == w.c
  {
    hide AddEntries;
    EntriesAdded(w, symbols);
    var n := AddEntries(w, symbols).0;
    assert n.c.entries - {} == n.c.entries;
    assert n.h.table - n.c.entries == w.h.table;
    var r := DropEntries(n);
    assert r.h == w.h.(nextId := r.h.nextId);
    LaterId(base, w.h, r.h.nextId);
  }

  lemma LaterId(base: Hooks, g: Hooks, id: int)
    requires Over(base, g) && g.nextId <= id
    ensures Over(base, g.(nextId := id))
  {
    assert Extra(base, g) == Extra(base, g.(nextId := id));
  }

  lemma UndoneBorrowed(base: Hooks, w: World, a: Answers)
    requires Borrowed(base, w)
    ensures var u := Undone(w, a);
            && Over(base, u.h) && u.c == w.c.(owned := map[])
            && u.h.ptraced == base.ptraced && u.h.parent == base.parent
  {
    hide Over, GiveBack;
    var v := GiveBack(w, ParentScrub, a.undoSecond);
    GiveBackBorrowed(base, w, ParentScrub, a.undoSecond);
    GiveBackBorrowed(base, v, FlagScrub, a.undoFirst);
    var u := GiveBack(v, FlagScrub, a.undoFirst);
    assert u.c.owned == map[];
    FlagsOver(base, u.h);
    forall d ensures Flag(u.h, d) == Flag(base, d) {
      assert Flag(u.h, d) && !Flag(base, d) ==> d in u.c.owned;
    }
    assert Flag(u.h, FlagScrub) == Flag(base, FlagScrub) && Flag(u.h, ParentScrub) == Flag(base, ParentScrub);
  }

  lemma FlagsOver(base: Hooks, g: Hooks)
    requires Over(base, g)
    ensures forall d :: Flag(base, d) ==> Flag(g, d)
  {
  }

  predicate Idle(w: World) {
    Sound(w.h) && !w.c.enabled && w.c.entries == {} && w.c.owned == map[]
  }

  lemma FailedOver(w: World, a: Answers)
    requires Idle(w) && !CloakOn(w, a).1
    ensures var r := CloakOn(w, a).0;
            Over(w.h, r.h) && r.c == w.c && r.h.ptraced == w.h.ptraced && r.h.parent == w.h.parent
  {
    hide Over, Acquire, AddEntries, Undone, Sound;
    OverSelf(w.h);
    assert forall d :: Flag(w.h, d) && !Flag(w.h, d) ==> d in w.c.owned;
    var (w1, ok1) := Acquire(w, FlagScrub, a.first);
    AcquireBorrows(w.h, w, FlagScrub, a.first);
    if a.permitted && ok1 {
      var (w2, ok2) := Acquire(w1, ParentScrub, a.second);
      AcquireBorrows(w.h, w1, ParentScrub, a.second);
      if !ok2 {
        UndoneBorrowed(w.h, w2, a);
      } else {
        EntriesDropped(w.h, w2, a.entries);
        UndoneBorrowed(w.h, DropEntries(AddEntries(w2, a.entries).0), a);
      }
    }
  }

  // Failing to enable the cloak leaves its own state, every flag and every owned hook as found, and the
  // table and the syscall hooks too when no defense was waiting for them.
  lemma FailedCloakKeeps(w: World, a: Answers)
    requires Idle(w) && !CloakOn(w, a).1
    ensures var r := CloakOn(w, a).0;
            && r.c == w.c && r.h.ptraced == w.h.ptraced && r.h.parent == w.h.parent
            && r.h.ptrace == w.h.ptrace && r.h.csops == w.h.csops && r.h.sysctl == w.h.sysctl
            && r.h.table == w.h.table + (if w.h.syscalls == {} then r.h.syscalls else {})
            && (InStep(w.h) ==> r.h.table == w.h.table && r.h.syscalls == w.h.syscalls)
  {
    hide CloakOn;
    FailedOver(w, a);
    var r := CloakOn(w, a).0;
    assert Extra(w.h, r.h) == if w.h.syscalls == {} then r.h.syscalls else {};
  }

  // With both defenses on already there is nothing to borrow, and nothing is looked for.
  lemma NothingBorrowed(w: World, a: Answers)
    requires Idle(w) && w.h.ptraced && w.h.parent && !CloakOn(w, a).1
    ensures CloakOn(w, a).0.h.table == w.h.table
  {
    hide AddEntries;
    EntriesAdded(w, a.entries);
    var n := AddEntries(w, a.entries).0;
    assert n.c.entries - {} == n.c.entries;
    assert n.h.table - n.c.entries == w.h.table;
  }

  const EVERYTHING: Found := Found(true, true, true)

  // All goes well until an entry symbol is missing.
  const HALFWAY: Answers := Answers(true, EVERYTHING, EVERYTHING, [Missing], true, EVERYTHING, EVERYTHING)

  lemma GivenBackInStep(w: World, d: Defense)
    requires Sound(w.h)
    ensures d in w.c.owned ==> InStep(GiveBack(w, d, EVERYTHING).h)
    ensures d !in w.c.owned ==> GiveBack(w, d, EVERYTHING) == w
  {
    hide Sync;
    DisableSound(w.h, d, EVERYTHING);
  }

  lemma AcquiredAll(w: World, d: Defense)
    requires Sound(w.h)
    ensures var r := Acquire(w, d, EVERYTHING);
            r.1 && (if Flag(w.h, d) then r.0 == w else d in r.0.c.owned)
            && (forall e :: e in w.c.owned ==> e in r.0.c.owned)
  {
    hide Sync;
  }

  // The attempt brings up the hooks a waiting defense waits for, and they stay.
  lemma HalfwayLeavesHooks(w: World)
    requires Idle(w) && !InStep(w.h) && !(w.h.ptraced && w.h.parent)
    ensures !CloakOn(w, HALFWAY).1 && InStep(CloakOn(w, HALFWAY).0.h)
  {
    hide Acquire, GiveBack, Over, Sound, InStep;
    OverSelf(w.h);
    assert forall d :: Flag(w.h, d) && !Flag(w.h, d) ==> d in w.c.owned;
    var (w1, ok1) := Acquire(w, FlagScrub, EVERYTHING);
    AcquiredAll(w, FlagScrub);
    AcquireBorrows(w.h, w, FlagScrub, EVERYTHING);
    BorrowedSound(w.h, w1);
    var (w2, ok2) := Acquire(w1, ParentScrub, EVERYTHING);
    AcquiredAll(w1, ParentScrub);
    AcquireBorrows(w.h, w1, ParentScrub, EVERYTHING);
    EntriesDropped(w.h, w2, [Missing]);
    var w3 := DropEntries(AddEntries(w2, [Missing]).0);
    GiveBackBorrowed(w.h, w3, ParentScrub, EVERYTHING);
    BorrowedSound(w.h, w3);
    GivenBackInStep(w3, ParentScrub);
    var w4 := GiveBack(w3, ParentScrub, EVERYTHING);
    BorrowedSound(w.h, w4);
    GivenBackInStep(w4, FlagScrub);
  }

  lemma BorrowedSound(base: Hooks, w: World)
    requires Borrowed(base, w)
    ensures Sound(w.h)
  {
  }

  // A failed attempt always leaves the breakpoint table as found if and only if no defense is waiting for
  // its syscall hooks, or both defenses the cloak would borrow are on.
  lemma FailedCloakRestores(w: World)
    requires Idle(w)
    ensures (forall a :: !CloakOn(w, a).1 ==> CloakOn(w, a).0.h.table == w.h.table)
            <==> InStep(w.h) || (w.h.ptraced && w.h.parent)
  {
    hide CloakOn;
    if InStep(w.h) || (w.h.ptraced && w.h.parent) {
      forall a | !CloakOn(w, a).1 ensures CloakOn(w, a).0.h.table == w.h.table {
        if InStep(w.h) {
          FailedCloakKeeps(w, a);
        } else {
          NothingBorrowed(w, a);
        }
      }
    } else {
      HalfwayLeavesHooks(w);
      HalfwayTable(w);
      assert !CloakOn(w, HALFWAY).1;
    }
  }

  lemma HalfwayTable(w: World)
    requires Idle(w) && !InStep(w.h) && !CloakOn(w, HALFWAY).1 && InStep(CloakOn(w, HALFWAY).0.h)
    ensures CloakOn(w, HALFWAY).0.h.table != w.h.table
  {
    hide CloakOn;
    FailedOver(w, HALFWAY);
    var r := CloakOn(w, HALFWAY).0;
    assert (forall id: int :: id !in r.h.syscalls) ==> r.h.syscalls == {};
    var id :| id in r.h.syscalls;
    assert id in r.h.table && id !in w.h.table;
  }

  // With a defense still waiting for its syscall hooks, a failed attempt can leave them behind.
  lemma FailedCloakLeavesHooks()
    ensures var h := Hooks({1}, 2, false, false, 0, {}, 1, 0);
            var a := Answers(true, Found(true, true, false), Found(true, true, false), [Missing], true,
                             Found(true, true, false), Found(true, true, false));
            var w := World(h, Cloak(false, {}, map[]));
            Idle(w) && !InStep(h) && !CloakOn(w, a).1 && CloakOn(w, a).0.h.syscalls != {}
  {
    var h := Hooks({1}, 2, false, false, 0, {}, 1, 0);
    var f := Found(true, true, false);
    var a := Answers(true, f, f, [Missing], true, f, f);
    var w := World(h, Cloak(false, {}, map[]));
    assert 3 in Enable(h, FlagScrub, f).hooks.syscalls;
  }
}
