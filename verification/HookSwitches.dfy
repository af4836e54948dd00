// What turning a defense or the cloak on and off does, and exactly when it succeeds.
module HookSwitches {
  import opened HookOwnership

  // The sysctl defenses: turning one on succeeds exactly when the shared breakpoint is armed or its symbol found,
  // and then it is on; turning it off always does. Nothing else is switched.
  lemma DefenseSwitches(h: Hooks, d: Defense, f: Found)
    requires Sound(h)
    ensures Enable(h, d, f).ok <==> h.sysctl != 0 || f.sysctl
    ensures var g := Enable(h, d, f).hooks;
      && Same(h, g) && g.ptraced == (h.ptraced || (d == FlagScrub && Enable(h, d, f).ok))
      && g.parent == (h.parent || (d == ParentScrub && Enable(h, d, f).ok))
    ensures var g := Disable(h, d, f);
      && Same(h, g) && g.ptraced == (h.ptraced && d != FlagScrub) && g.parent == (h.parent && d != ParentScrub)
  {
  }

  // The breakpoints of the other two defenses.
  predicate Same(h: Hooks, g: Hooks) {
    g.ptrace == h.ptrace && g.csops == h.csops
  }

  // ptrace and csops: on exactly when the symbol is found or it was on already, off after turning off.
  lemma OwnSwitches(h: Hooks, valid: bool, f: Found)
    requires Sound(h)
    ensures var g := EnablePtrace(h, valid, f);
      (g.ptrace != 0 <==> h.ptrace != 0 || valid) && g.ptraced == h.ptraced && g.parent == h.parent && g.csops == h.csops
    ensures var g := EnableCsops(h, valid, f);
      (g.csops != 0 <==> h.csops != 0 || valid) && g.ptraced == h.ptraced && g.parent == h.parent && g.ptrace == h.ptrace
    ensures var g := DisablePtrace(h, f); g.ptrace == 0 && g.ptraced == h.ptraced && g.parent == h.parent && g.csops == h.csops
    ensures var g := DisableCsops(h, f); g.csops == 0 && g.ptraced == h.ptraced && g.parent == h.parent && g.ptrace == h.ptrace
  {
  }

  // The syscall hooks after a change: armed, for as many of their two symbols as are found, when one of the four
  // defenses is on and they were not; released when none is; left alone otherwise.
  lemma SyncExact(h: Hooks, f: Found)
    requires h.nextId > 0
    ensures var wanted := h.ptrace != 0 || h.ptraced || h.parent || h.csops != 0;
      && (wanted && h.syscalls == {} ==> |Sync(h, f).syscalls| == (if f.syscall then 1 else 0) + (if f.wrapper then 1 else 0))
      && (wanted && h.syscalls != {} ==> Sync(h, f) == h)
      && (!wanted ==> Sync(h, f).syscalls == {} && Sync(h, f).table == h.table - h.syscalls)
  {
    assert h.table - {} == h.table;
  }

  // ----- the cloak

  ghost predicate AllLocated(symbols: seq<Symbol>) {
    forall i :: 0 <= i < |symbols| ==> symbols[i] == Located
  }

  lemma {:induction false} EntriesExact(w: World, symbols: seq<Symbol>)
    ensures AddEntries(w, symbols).1 <==> AllLocated(symbols)
    ensures var v := AddEntries(w, symbols).0;
      v.h.ptraced == w.h.ptraced && v.h.parent == w.h.parent && v.c.owned == w.c.owned && v.c.entries >= w.c.entries
    decreases |symbols|
  {
    if symbols != [] && symbols[0] == Located {
      var id := w.h.nextId;
      EntriesExact(World(w.h.(table := w.h.table + {id}, nextId := id + 1), w.c.(entries := w.c.entries + {id})), symbols[1..]);
      assert forall i :: 1 <= i < |symbols| ==> symbols[i] == symbols[1..][i - 1];
    }
  }

  lemma AcquireExact(w: World, d: Defense, f: Found)
    requires Sound(w.h)
    ensures Acquire(w, d, f).1 <==> w.h.sysctl != 0 || f.sysctl
    ensures Acquire(w, d, f).1 ==>
      Flag(Acquire(w, d, f).0.h, d) && Sound(Acquire(w, d, f).0.h) && Acquire(w, d, f).0.h.sysctl != 0
    ensures Acquire(w, d, f).1 ==> forall e :: e != d ==> Flag(Acquire(w, d, f).0.h, e) == Flag(w.h, e)
    ensures Acquire(w, d, f).1 && !Flag(w.h, d) ==> d in Acquire(w, d, f).0.c.owned
    ensures Acquire(w, d, f).1 ==> forall e :: e in w.c.owned ==> e in Acquire(w, d, f).0.c.owned
  {
    EnableSound(w.h, d, f);
    DefenseSwitches(w.h, d, f);
    hide Enable;
  }

  // Turning the cloak on succeeds exactly when it is off and permitted, the shared breakpoint is armed or found,
  // every entry symbol has a location and the environment is as it should be. Then both defenses are on, and those
  // that were off before are borrowed.
  lemma CloakSwitches(w: World, a: Answers)
    requires Sound(w.h)
    ensures CloakOn(w, a).1 <==>
      !w.c.enabled && a.permitted && (w.h.sysctl != 0 || a.first.sysctl) && AllLocated(a.entries) && a.environment
    ensures CloakOn(w, a).1 ==>
      var v := CloakOn(w, a).0;
      && v.c.enabled && v.h.ptraced && v.h.parent
      && (!w.h.ptraced ==> FlagScrub in v.c.owned) && (!w.h.parent ==> ParentScrub in v.c.owned)
  {
    hide Acquire, AddEntries, Undone, Sound;
    AcquireExact(w, FlagScrub, a.first);
    var (w1, ok1) := Acquire(w, FlagScrub, a.first);
    if ok1 {
      AcquireExact(w1, ParentScrub, a.second);
      EntriesExact(Acquire(w1, ParentScrub, a.second).0, a.entries);
    }
  }
}
