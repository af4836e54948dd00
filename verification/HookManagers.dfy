// The objects that keep the shared hooks: the debugger's defenses and the cloak that borrows two of them.
module HookManagers {
  import opened HookOwnership

  class Debugger {
    var table: set<int>
    var nextId: int
    var scrubPtraced: bool
    var scrubParent: bool
    var antiSysctlBp: int
    var syscallBps: set<int>
    var antiPtraceBp: int
    var antiCsopsBp: int

    function State(): Hooks
      reads this
    {
      Hooks(table, nextId, scrubPtraced, scrubParent, antiSysctlBp, syscallBps, antiPtraceBp, antiCsopsBp)
    }

    constructor ()
      ensures State() == Hooks({}, 1, false, false, 0, {}, 0, 0)
    {
      table, nextId, scrubPtraced, scrubParent, antiSysctlBp, syscallBps := {}, 1, false, false, 0, {};
      antiPtraceBp, antiCsopsBp := 0, 0;
    }

    method CreateBreakpoint() returns (id: int)
      modifies this
      ensures id == old(nextId)
      ensures State() == old(State()).(table := old(table) + {id}, nextId := id + 1)
    {
      id := nextId;
      table := table + {id};
      nextId := nextId + 1;
    }

    method SyncSyscallBp(f: Found)
      modifies this
      ensures State() == Sync(old(State()), f)
      ensures if !Wanted(State()) then syscallBps == {} else old(syscallBps) != {} ==> syscallBps == old(syscallBps)
      ensures Wanted(State()) && (f.syscall || f.wrapper) ==> syscallBps != {}
    {
      var want := antiPtraceBp != 0 || scrubPtraced || scrubParent || antiCsopsBp != 0;
      if want && syscallBps == {} {
        var ids: set<int> := {};
        if f.syscall {
          ids := ids + {nextId};
        }
        if f.wrapper {
          ids := ids + {nextId + 1};
        }
        assert ids == NewSyscalls(old(State()), f);
        table := table + ids;
        syscallBps := ids;
        nextId := nextId + 2;
      } else if !want && syscallBps != {} {
        table := table - syscallBps;
        syscallBps := {};
      }
    }

    method SetScrub(d: Defense, on: bool)
      modifies this
      ensures State() == SetFlag(old(State()), d, on)
    {
      if d == FlagScrub {
        scrubPtraced := on;
      } else {
        scrubParent := on;
      }
    }

    method EnableScrub(d: Defense, f: Found) returns (ok: bool)
      modifies this
      ensures State() == Enable(old(State()), d, f).hooks && ok == Enable(old(State()), d, f).ok
      ensures ok <==> old(antiSysctlBp) != 0 || f.sysctl
      ensures Flag(State(), d) == ok && (old(antiSysctlBp) != 0 ==> antiSysctlBp == old(antiSysctlBp))
      ensures !ok ==> table == old(table) && syscallBps == old(syscallBps)
    {
      SetScrub(d, true);
      if antiSysctlBp == 0 {
        if !f.sysctl {
          SetScrub(d, false);
          return false;
        }
        var id := CreateBreakpoint();
        antiSysctlBp := id;
      }
      SyncSyscallBp(f);
      return true;
    }

    method DisableScrub(d: Defense, f: Found)
      modifies this
      ensures State() == Disable(old(State()), d, f)
      ensures !Flag(State(), d)
      ensures antiSysctlBp == if scrubPtraced || scrubParent then old(antiSysctlBp) else 0
    {
      SetScrub(d, false);
      if !scrubPtraced && !scrubParent && antiSysctlBp != 0 {
        table := table - {antiSysctlBp};
        antiSysctlBp := 0;
      }
      SyncSyscallBp(f);
    }

    method EnableAntiPtrace(valid: bool, f: Found)
      modifies this
      ensures State() == EnablePtrace(old(State()), valid, f)
      ensures old(antiPtraceBp) != 0 || !valid ==> State() == old(State())
      ensures old(antiPtraceBp) == 0 && valid && old(nextId) > 0 ==> antiPtraceBp == old(nextId) && antiPtraceBp in table
    {
      if antiPtraceBp != 0 || !valid {
        return;
      }
      var id := CreateBreakpoint();
      antiPtraceBp := id;
      SyncSyscallBp(f);
    }

    method DisableAntiPtrace(f: Found)
      modifies this
      ensures State() == DisablePtrace(old(State()), f)
      ensures antiPtraceBp == 0 && (old(antiPtraceBp) != 0 && !Wanted(State()) ==> syscallBps == {})
    {
      if antiPtraceBp == 0 {
        return;
      }
      table := table - {antiPtraceBp};
      antiPtraceBp := 0;
      SyncSyscallBp(f);
    }

    method EnableAntiCsops(valid: bool, f: Found)
      modifies this
      ensures State() == EnableCsops(old(State()), valid, f)
      ensures old(antiCsopsBp) != 0 || !valid ==> State() == old(State())
      ensures old(antiCsopsBp) == 0 && valid && old(nextId) > 0 ==> antiCsopsBp == old(nextId) && antiCsopsBp in table
    {
      if antiCsopsBp != 0 || !valid {
        return;
      }
      var id := CreateBreakpoint();
      antiCsopsBp := id;
      SyncSyscallBp(f);
    }

    method DisableAntiCsops(f: Found)
      modifies this
      ensures State() == DisableCsops(old(State()), f)
      ensures antiCsopsBp == 0 && (old(antiCsopsBp) != 0 && !Wanted(State()) ==> syscallBps == {})
    {
      if antiCsopsBp == 0 {
        return;
      }
      table := table - {antiCsopsBp};
      antiCsopsBp := 0;
      SyncSyscallBp(f);
    }
  }

  class AnalysisCloak {
    const debugger: Debugger
    var enabled: bool
    var bpIds: set<int>
    var ownedExisting: map<Defense, set<int>>

    constructor (debugger: Debugger)
      ensures this.debugger == debugger && Cloak(enabled, bpIds, ownedExisting) == Cloak(false, {}, map[])
    {
      this.debugger := debugger;
      enabled, bpIds, ownedExisting := false, {}, map[];
    }

    function State(): World
      reads this, debugger
    {
      World(debugger.State(), Cloak(enabled, bpIds, ownedExisting))
    }

    method AcquireExisting(d: Defense, f: Found) returns (ok: bool)
      modifies this, debugger
      ensures (State(), ok) == Acquire(old(State()), d, f)
      ensures ok ==> Flag(debugger.State(), d)
      ensures ok ==> forall e :: e != d ==> Flag(debugger.State(), e) == old(Flag(debugger.State(), e))
    {
      if (if d == FlagScrub then debugger.scrubPtraced else debugger.scrubParent) {
        return true;
      }
      var before := debugger.table;
      ok := debugger.EnableScrub(d, f);
      var added := debugger.table - before;
      if !ok {
        debugger.table := debugger.table - added;
        return false;
      }
      ownedExisting := ownedExisting[d := added];
    }

    method GiveBackExisting(d: Defense, f: Found)
      modifies this, debugger
      ensures State() == GiveBack(old(State()), d, f)
    {
      if d in ownedExisting {
        debugger.DisableScrub(d, f);
        var shared := debugger.syscallBps + {debugger.antiSysctlBp};
        assert ownedExisting[d] - shared == ownedExisting[d] - debugger.syscallBps - {debugger.antiSysctlBp};
        debugger.table := debugger.table - (ownedExisting[d] - shared);
        ownedExisting := ownedExisting - {d};
      }
    }

    method RollbackExisting(a: Answers)
      modifies this, debugger
      ensures State() == Undone(old(State()), a)
    {
      GiveBackExisting(ParentScrub, a.undoSecond);
      GiveBackExisting(FlagScrub, a.undoFirst);
    }

    method DeleteEntries()
      modifies this, debugger
      ensures State() == DropEntries(old(State()))
    {
      debugger.table := debugger.table - bpIds;
      bpIds := {};
    }

    method HookEntries(symbols: seq<Symbol>) returns (ok: bool)
      modifies this, debugger
      ensures (State(), ok) == AddEntries(old(State()), symbols)
      ensures forall d :: Flag(debugger.State(), d) == old(Flag(debugger.State(), d))
    {
      var i := 0;
      while i < |symbols|
        invariant i <= |symbols| && AddEntries(State(), symbols[i..]) == AddEntries(old(State()), symbols)
        invariant forall d :: Flag(debugger.State(), d) == old(Flag(debugger.State(), d))
      {
        assert symbols[i..][1..] == symbols[i + 1..];
        if symbols[i] == Missing {
          return false;
        }
        var id := debugger.CreateBreakpoint();
        if symbols[i] == Unlocated {
          debugger.table := debugger.table - {id};
          return false;
        }
        bpIds := bpIds + {id};
        i := i + 1;
      }
      return true;
    }

    method Enable(a: Answers) returns (ok: bool)
      modifies this, debugger
      ensures (State(), ok) == CloakOn(old(State()), a)
      ensures ok ==> !old(enabled) && enabled && forall d :: Flag(debugger.State(), d)
    {
      if enabled || !a.permitted {
        return false;
      }
      ok := AcquireExisting(FlagScrub, a.first);
      if !ok {
        return false;
      }
      ok := AcquireExisting(ParentScrub, a.second);
      if !ok {
        RollbackExisting(a);
        return false;
      }
      ok := HookEntries(a.entries);
      if !ok || !a.environment {
        DeleteEntries();
        RollbackExisting(a);
        return false;
      }
      enabled := true;
    }

    method Disable(a: Answers)
      modifies this, debugger
      ensures State() == CloakOff(old(State()), a)
      ensures !enabled && bpIds == {} && ownedExisting.Keys <= old(ownedExisting).Keys - {FlagScrub, ParentScrub}
    {
      DeleteEntries();
      RollbackExisting(a);
      enabled := false;
    }
  }
}

