// Breakpoints that several defenses share, and the cloak that borrows two of those defenses.
module HookOwnership {
  // The two defenses that share the sysctl breakpoint.
  datatype Defense = FlagScrub | ParentScrub

  // The target's breakpoint table and who wants what; the id 0 is no breakpoint.
  datatype Hooks = Hooks(table: set<int>, nextId: int, ptraced: bool, parent: bool, sysctl: int, syscalls: set<int>,
                         ptrace: int, csops: int)

  // Which symbols a call finds in the target.
  datatype Found = Found(sysctl: bool, syscall: bool, wrapper: bool)

  datatype Enabled = Enabled(hooks: Hooks, ok: bool)

  predicate Flag(h: Hooks, d: Defense) {
    if d == FlagScrub then h.ptraced else h.parent
  }

  function SetFlag(h: Hooks, d: Defense, on: bool): Hooks {
    if d == FlagScrub then h.(ptraced := on) else h.(parent := on)
  }

  predicate Wanted(h: Hooks) {
    h.ptrace != 0 || h.ptraced || h.parent || h.csops != 0
  }

  // ----- the debugger's operations

  function NewSyscalls(h: Hooks, f: Found): set<int> {
    (if f.syscall then {h.nextId} else {}) + (if f.wrapper then {h.nextId + 1} else {})
  }

  // The syscall hooks follow their owners. Ids are only required to be new.
  function Sync(h: Hooks, f: Found): Hooks {
    if Wanted(h) && h.syscalls == {} then
      h.(table := h.table + NewSyscalls(h, f), syscalls := NewSyscalls(h, f), nextId := h.nextId + 2)
    else if !Wanted(h) && h.syscalls != {} then h.(table := h.table - h.syscalls, syscalls := {})
    else h
  }

  function WithSysctl(h: Hooks): Hooks {
    if h.sysctl != 0 then h else h.(sysctl := h.nextId, table := h.table + {h.nextId}, nextId := h.nextId + 1)
  }

  function Enable(h: Hooks, d: Defense, f: Found): Enabled {
    var g := SetFlag(h, d, true);
    if g.sysctl == 0 && !f.sysctl then Enabled(SetFlag(g, d, false), false) else Enabled(Sync(WithSysctl(g), f), true)
  }

  function ReleaseSysctl(h: Hooks): Hooks {
    if !h.ptraced && !h.parent && h.sysctl != 0 then h.(table := h.table - {h.sysctl}, sysctl := 0) else h
  }

  function Disable(h: Hooks, d: Defense, f: Found): Hooks {
    Sync(ReleaseSysctl(SetFlag(h, d, false)), f)
  }

  function EnablePtrace(h: Hooks, valid: bool, f: Found): Hooks {
    if h.ptrace != 0 || !valid then h
    else Sync(h.(ptrace := h.nextId, table := h.table + {h.nextId}, nextId := h.nextId + 1), f)
  }

  function DisablePtrace(h: Hooks, f: Found): Hooks {
    if h.ptrace == 0 then h else Sync(h.(table := h.table - {h.ptrace}, ptrace := 0), f)
  }

  function EnableCsops(h: Hooks, valid: bool, f: Found): Hooks {
    if h.csops != 0 || !valid then h
    else Sync(h.(csops := h.nextId, table := h.table + {h.nextId}, nextId := h.nextId + 1), f)
  }

  function DisableCsops(h: Hooks, f: Found): Hooks {
    if h.csops == 0 then h else Sync(h.(table := h.table - {h.csops}, csops := 0), f)
  }

  // ----- the cloak's operations

  // `owned` holds, for each borrowed defense, the breakpoints that appeared when it was enabled.
  datatype Cloak = Cloak(enabled: bool, entries: set<int>, owned: map<Defense, set<int>>)

  datatype World = World(h: Hooks, c: Cloak)

  datatype Symbol = Missing | Unlocated | Located

  datatype Answers = Answers(permitted: bool, first: Found, second: Found, entries: seq<Symbol>, environment: bool,
                             undoSecond: Found, undoFirst: Found)

  // The entry hooks of the shared defenses keep their ids while anyone wants them.
  function DropUnclaimed(h: Hooks, ids: set<int>): Hooks {
    h.(table := h.table - (ids - h.syscalls - {h.sysctl}))
  }

  function GiveBack(w: World, d: Defense, f: Found): World {
    if d !in w.c.owned then w
    else World(DropUnclaimed(Disable(w.h, d, f), w.c.owned[d]), w.c.(owned := w.c.owned - {d}))
  }

  function Acquire(w: World, d: Defense, f: Found): (World, bool) {
    if Flag(w.h, d) then (w, true)
    else
      var e := Enable(w.h, d, f);
      var added := e.hooks.table - w.h.table;
      if !e.ok then (w.(h := e.hooks.(table := e.hooks.table - added)), false)
      else (World(e.hooks, w.c.(owned := w.c.owned[d := added])), true)
  }

  function AddEntries(w: World, symbols: seq<Symbol>): (World, bool)
    decreases |symbols|
  {
    if symbols == [] then (w, true)
    else if symbols[0] == Missing then (w, false)
    else if symbols[0] == Unlocated then
      (w.(h := w.h.(table := w.h.table + {w.h.nextId} - {w.h.nextId}, nextId := w.h.nextId + 1)), false)
    else
      var id := w.h.nextId;
      AddEntries(World(w.h.(table := w.h.table + {id}, nextId := id + 1), w.c.(entries := w.c.entries + {id})), symbols[1..])
  }

  function DropEntries(w: World): World {
    World(w.h.(table := w.h.table - w.c.entries), w.c.(entries := {}))
  }

  function Undone(w: World, a: Answers): World {
    GiveBack(GiveBack(w, ParentScrub, a.undoSecond), FlagScrub, a.undoFirst)
  }

  function CloakOn(w: World, a: Answers): (World, bool) {
    if w.c.enabled || !a.permitted then (w, false)
    else
      var (w1, ok1) := Acquire(w, FlagScrub, a.first);
      if !ok1 then (w1, false)
      else
        var (w2, ok2) := Acquire(w1, ParentScrub, a.second);
        if !ok2 then (Undone(w2, a), false)
        else
          var (w3, ok3) := AddEntries(w2, a.entries);
          if !ok3 || !a.environment then (Undone(DropEntries(w3), a), false)
          else (w3.(c := w3.c.(enabled := true)), true)
  }

  function CloakOff(w: World, a: Answers): World {
    var u := Undone(DropEntries(w), a);
    u.(c := u.c.(enabled := false))
  }

  // ----- what every operation keeps

  predicate Distinct(h: Hooks) {
    && (h.sysctl != 0 ==> h.sysctl != h.ptrace && h.sysctl != h.csops && h.sysctl !in h.syscalls)
    && (h.ptrace != 0 ==> h.ptrace != h.csops && h.ptrace !in h.syscalls)
    && (h.csops != 0 ==> h.csops !in h.syscalls)
  }

  predicate Placed(h: Hooks) {
    && 0 < h.nextId && (forall id :: id in h.table ==> 0 < id < h.nextId)
    && h.syscalls <= h.table
    && (h.sysctl == 0 || h.sysctl in h.table) && (h.ptrace == 0 || h.ptrace in h.table)
    && (h.csops == 0 || h.csops in h.table)
  }

  // The sysctl breakpoint is armed exactly while one of its owners is on, and the syscall hooks only while
  // someone wants them.
  predicate Sound(h: Hooks) {
    && (h.sysctl != 0 <==> h.ptraced || h.parent)
    && (h.syscalls != {} ==> Wanted(h))
    && Placed(h) && Distinct(h)
  }

  // The syscall hooks are there whenever someone wants them.
  predicate InStep(h: Hooks) {
    Wanted(h) ==> h.syscalls != {}
  }

  // Everything Sound says but what Sync establishes.
  predicate NearlySound(h: Hooks) {
    (h.sysctl != 0 <==> h.ptraced || h.parent) && Placed(h) && Distinct(h)
  }

  lemma SyncSound(h: Hooks, f: Found)
    requires NearlySound(h)
    ensures Sound(Sync(h, f))
    ensures InStep(h) || f.syscall || f.wrapper ==> InStep(Sync(h, f))
  {
    if f.syscall {
      assert h.nextId in NewSyscalls(h, f);
    } else if f.wrapper {
      assert h.nextId + 1 in NewSyscalls(h, f);
    }
  }

  lemma EnableSound(h: Hooks, d: Defense, f: Found)
    requires Sound(h)
    ensures Sound(Enable(h, d, f).hooks)
    ensures Enable(h, d, f).ok && (f.syscall || f.wrapper) ==> InStep(Enable(h, d, f).hooks)
    ensures !Enable(h, d, f).ok ==> Enable(h, d, f).hooks == h
  {
    hide Sync;
    var g := WithSysctl(SetFlag(h, d, true));
    if Enable(h, d, f).ok {
      assert NearlySound(g);
      SyncSound(g, f);
    }
  }

  lemma DisableSound(h: Hooks, d: Defense, f: Found)
    requires Sound(h)
    ensures Sound(Disable(h, d, f))
    ensures f.syscall || f.wrapper ==> InStep(Disable(h, d, f))
  {
    hide Sync;
    SyncSound(ReleaseSysctl(SetFlag(h, d, false)), f);
  }
}
