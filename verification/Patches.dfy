// Overlapping edits kept as a list of runs: how the list is computed, and why it is the one canonical
// difference between the original and the current bytes.
module Patches {
  type Byte = nat

  type Memory = map<int, Byte>

  datatype Patch = Patch(addr: int, orig: seq<Byte>, data: seq<Byte>)

  datatype Change = Change(before: Byte, after: Byte)

  type Changes = map<int, Change>

  // ----- the program's computation, as functions

  // The first original byte and the latest replacement win.
  function Touch(values: Changes, a: int, first: Byte, latest: Byte): Changes {
    values[a := Change(if a in values then values[a].before else first, latest)]
  }

  predicate SameLengths(p: Patch) {
    |p.orig| == |p.data|
  }

  function OverlayBytes(values: Changes, p: Patch, n: nat): Changes
    requires SameLengths(p) && n <= |p.data|
  {
    if n == 0 then values
    else Touch(OverlayBytes(values, p, n - 1), p.addr + n - 1, p.orig[n - 1], p.data[n - 1])
  }

  predicate AllSameLengths(patches: seq<Patch>) {
    forall i | 0 <= i < |patches| :: SameLengths(patches[i])
  }

  function Overlay(patches: seq<Patch>): Changes
    requires AllSameLengths(patches)
  {
    if patches == [] then map[]
    else
      var last := patches[|patches| - 1];
      OverlayBytes(Overlay(patches[..|patches| - 1]), last, |last.data|)
  }

  function End(p: Patch): int {
    p.addr + |p.data|
  }

  // One more address, in ascending order.
  function Append(runs: seq<Patch>, a: int, c: Change): seq<Patch> {
    if c.before == c.after then runs
    else if runs == [] || a != End(runs[|runs| - 1]) then runs + [Patch(a, [c.before], [c.after])]
    else
      var last := runs[|runs| - 1];
      runs[..|runs| - 1] + [Patch(last.addr, last.orig + [c.before], last.data + [c.after])]
  }

  function Group(values: Changes, addresses: seq<int>): seq<Patch>
    requires forall i | 0 <= i < |addresses| :: addresses[i] in values
  {
    if addresses == [] then []
    else
      var a := addresses[|addresses| - 1];
      Append(Group(values, addresses[..|addresses| - 1]), a, values[a])
  }

  lemma HasMinimum(s: set<int>)
    requires s != {}
    ensures exists m :: m in s && forall x | x in s :: m <= x
    decreases |s|
  {
    assert (forall y: int :: y !in s) ==> s == {};
    var y :| y in s;
    var t := s - {y};
    if t == {} {
      LeastOf(s, t, y, y);
    } else {
      HasMinimum(t);
      var m :| m in t && forall x | x in t :: m <= x;
      LeastOf(s, t, y, m);
    }
  }

  lemma LeastOf(s: set<int>, t: set<int>, y: int, m: int)
    requires y in s && t == s - {y} && m in s && forall x | x in t :: m <= x
    ensures exists m :: m in s && forall x | x in s :: m <= x
  {
    var least := if y <= m then y else m;
    assert least in s;
    forall x | x in s ensures least <= x {
      assert x == y || x in t;
    }
  }

  // The elements of a set in ascending order.
  function Sorted(s: set<int>): (r: seq<int>)
    ensures forall i | 0 <= i < |r| :: r[i] in s
  {
    if s == {} then []
    else
      HasMinimum(s);
      var m :| m in s && forall x | x in s :: m <= x;
      [m] + Sorted(s - {m})
  }

  lemma SortedStep(s: set<int>)
    requires s != {}
    ensures Sorted(s) != [] && Sorted(s)[0] in s && forall x | x in s :: Sorted(s)[0] <= x
    ensures Sorted(s) == [Sorted(s)[0]] + Sorted(s - {Sorted(s)[0]})
  {
    HasMinimum(s);
  }

  lemma {:induction false} SortedFacts(s: set<int>)
    ensures forall x | x in s :: x in Sorted(s)
    ensures forall i, j | 0 <= i < j < |Sorted(s)| :: Sorted(s)[i] < Sorted(s)[j]
  {
    if s != {} {
      SortedStep(s);
      var m := Sorted(s)[0];
      SortedFacts(s - {m});
      OneMore(s, m, Sorted(s - {m}));
    }
  }

  lemma OneMore(s: set<int>, m: int, rest: seq<int>)
    requires m in s && forall x | x in s :: m <= x
    requires forall x | x in s - {m} :: x in rest
    requires forall i | 0 <= i < |rest| :: rest[i] in s - {m}
    requires forall i, j | 0 <= i < j < |rest| :: rest[i] < rest[j]
    ensures forall x | x in s :: x in [m] + rest
    ensures forall i, j | 0 <= i < j < |[m] + rest| :: ([m] + rest)[i] < ([m] + rest)[j]
  {
    forall x | x in s ensures x in [m] + rest {
      assert x == m || x in s - {m};
    }
  }

  function Normal(patches: seq<Patch>): seq<Patch>
    requires AllSameLengths(patches)
  {
    var values := Overlay(patches);
    Group(values, Sorted(values.Keys))
  }

  // The program's loops. A patch whose two sides differ in length is refused.
  method Normalized(patches: seq<Patch>) returns (ok: bool, runs: seq<Patch>)
    ensures ok <==> AllSameLengths(patches)
    ensures ok ==> runs == Normal(patches)
  {
    var values: Changes := map[];
    runs := [];
    var k := 0;
    while k < |patches|
      invariant 0 <= k <= |patches| && AllSameLengths(patches[..k])
      invariant values == Overlay(patches[..k])
    {
      var patch := patches[k];
      if |patch.orig| != |patch.data| {
        return false, [];
      }
      var n := 0;
      ghost var before := values;
      while n < |patch.data|
        invariant 0 <= n <= |patch.data| && values == OverlayBytes(before, patch, n)
      {
        values := Touch(values, patch.addr + n, patch.orig[n], patch.data[n]);
        n := n + 1;
      }
      assert patches[..k + 1][..k] == patches[..k];
      k := k + 1;
    }
    assert patches[..k] == patches;
    var addresses := Sorted(values.Keys);
    k := 0;
    while k < |addresses|
      invariant 0 <= k <= |addresses| && runs == Group(values, addresses[..k])
    {
      var a := addresses[k];
      assert addresses[..k + 1][..k] == addresses[..k];
      runs := Append(runs, a, values[a]);
      k := k + 1;
    }
    assert addresses[..k] == addresses;
    ok := true;
  }

  // ----- what a list of runs says

  function CoveredTo(p: Patch, n: nat): (r: Changes)
    requires SameLengths(p) && n <= |p.data|
    ensures forall a :: a in r <==> p.addr <= a < p.addr + n
    ensures forall a :: a in r ==> r[a] == Change(p.orig[a - p.addr], p.data[a - p.addr])
  {
    if n == 0 then map[] else CoveredTo(p, n - 1)[p.addr + n - 1 := Change(p.orig[n - 1], p.data[n - 1])]
  }

  function Covered(p: Patch): Changes
    requires SameLengths(p)
  {
    CoveredTo(p, |p.data|)
  }

  function DiffOf(runs: seq<Patch>): Changes
    requires AllSameLengths(runs)
  {
    if runs == [] then map[] else DiffOf(runs[..|runs| - 1]) + Covered(runs[|runs| - 1])
  }

  predicate ProperRun(p: Patch) {
    |p.data| >= 1 && SameLengths(p) && forall i | 0 <= i < |p.data| :: p.orig[i] != p.data[i]
  }

  // Sorted and disjoint, each run as long as possible, and no byte listed that does not change.
  predicate Canonical(runs: seq<Patch>) {
    (forall k | 0 <= k < |runs| :: ProperRun(runs[k]))
    && forall k | 0 <= k < |runs| - 1 :: End(runs[k]) < runs[k + 1].addr
  }

  // The bytes that differ.
  function Differences(from: Memory, to: Memory): Changes {
    map a | a in from && a in to && from[a] != to[a] :: Change(from[a], to[a])
  }

  ghost predicate IsDiff(runs: seq<Patch>, from: Memory, to: Memory) {
    Canonical(runs) && DiffOf(runs) == Differences(from, to)
  }

  // ----- grouping

  function Effective(values: Changes): Changes {
    map a | a in values && values[a].before != values[a].after :: values[a]
  }

  lemma CanonicalPrefix(runs: seq<Patch>, n: nat)
    requires Canonical(runs) && n <= |runs|
    ensures Canonical(runs[..n])
  {
  }

  // Every listed address is below the end of the last run, and below the start of the last run or in it.
  lemma {:induction false} DiffBelow(runs: seq<Patch>, a: int)
    requires Canonical(runs) && runs != [] && a in DiffOf(runs)
    ensures a < End(runs[|runs| - 1])
    decreases |runs|
  {
    var init := runs[..|runs| - 1];
    if a in DiffOf(init) {
      CanonicalPrefix(runs, |runs| - 1);
      DiffBelow(init, a);
      assert End(runs[|runs| - 2]) < runs[|runs| - 2 + 1].addr;
    }
  }

  lemma InitBelow(runs: seq<Patch>, a: int)
    requires Canonical(runs) && runs != [] && a in DiffOf(runs[..|runs| - 1])
    ensures a + 1 < runs[|runs| - 1].addr
  {
    CanonicalPrefix(runs, |runs| - 1);
    DiffBelow(runs[..|runs| - 1], a);
    assert End(runs[|runs| - 2]) < runs[|runs| - 2 + 1].addr;
  }

  lemma CoveredSnoc(p: Patch, c: Change)
    requires SameLengths(p)
    ensures Covered(Patch(p.addr, p.orig + [c.before], p.data + [c.after])) == Covered(p)[End(p) := c]
  {
    var q := Patch(p.addr, p.orig + [c.before], p.data + [c.after]);
    assert forall a :: a in Covered(q) <==> p.addr <= a < End(p) + 1;
  }

  lemma DiffSnoc(runs: seq<Patch>, p: Patch)
    requires AllSameLengths(runs) && SameLengths(p)
    ensures AllSameLengths(runs + [p]) && DiffOf(runs + [p]) == DiffOf(runs) + Covered(p)
  {
    assert (runs + [p])[..|runs|] == runs;
  }

  lemma CanonicalSnoc(runs: seq<Patch>, p: Patch)
    requires Canonical(runs) && ProperRun(p) && (runs != [] ==> End(runs[|runs| - 1]) < p.addr)
    ensures Canonical(runs + [p])
  {
    var r := runs + [p];
    forall k | 0 <= k < |r| ensures ProperRun(r[k]) {
      assert k < |runs| ==> r[k] == runs[k];
    }
    forall k | 0 <= k < |r| - 1 ensures End(r[k]) < r[k + 1].addr {
      assert r[k] == runs[k] && (k + 1 < |runs| ==> r[k + 1] == runs[k + 1]);
    }
  }

  lemma NewRun(runs: seq<Patch>, a: int, c: Change)
    requires Canonical(runs) && (runs != [] ==> End(runs[|runs| - 1]) < a) && c.before != c.after
    ensures Canonical(runs + [Patch(a, [c.before], [c.after])])
    ensures DiffOf(runs + [Patch(a, [c.before], [c.after])]) == DiffOf(runs)[a := c]
  {
    hide Canonical, DiffOf, Covered;
    var p := Patch(a, [c.before], [c.after]);
    CanonicalSnoc(runs, p);
    CanonicalLengths(runs);
    DiffSnoc(runs, p);
    CoveredOne(a, c);
  }

  lemma CoveredOne(a: int, c: Change)
    ensures Covered(Patch(a, [c.before], [c.after])) == map[a := c]
  {
    assert forall x :: x in Covered(Patch(a, [c.before], [c.after])) <==> x == a;
  }

  lemma CanonicalLengths(runs: seq<Patch>)
    requires Canonical(runs)
    ensures AllSameLengths(runs)
  {
  }

  lemma LongerRun(runs: seq<Patch>, c: Change)
    requires Canonical(runs) && runs != [] && c.before != c.after
    ensures var last := runs[|runs| - 1];
      var r := runs[..|runs| - 1] + [Patch(last.addr, last.orig + [c.before], last.data + [c.after])];
      Canonical(r) && DiffOf(r) == DiffOf(runs)[End(last) := c]
  {
    hide Canonical, Covered, DiffOf;
    var init, last := runs[..|runs| - 1], runs[|runs| - 1];
    var longer := Patch(last.addr, last.orig + [c.before], last.data + [c.after]);
    CanonicalPrefix(runs, |runs| - 1);
    CanonicalLast(runs);
    LongerProper(last, c);
    CanonicalLengths(runs);
    DiffSnoc(init, longer);
    DiffSnoc(init, last);
    assert runs == init + [last];
    CoveredSnoc(last, c);
    CanonicalSnoc(init, longer);
  }

  lemma LongerProper(p: Patch, c: Change)
    requires ProperRun(p) && c.before != c.after
    ensures ProperRun(Patch(p.addr, p.orig + [c.before], p.data + [c.after]))
  {
  }

  lemma CanonicalLast(runs: seq<Patch>)
    requires Canonical(runs) && runs != []
    ensures ProperRun(runs[|runs| - 1]) && AllSameLengths(runs[..|runs| - 1])
    ensures |runs| >= 2 ==> End(runs[..|runs| - 1][|runs| - 2]) < runs[|runs| - 1].addr
  {
    assert |runs| >= 2 ==> End(runs[|runs| - 2]) < runs[|runs| - 2 + 1].addr;
  }

  lemma AppendDiff(runs: seq<Patch>, a: int, c: Change)
    requires Canonical(runs) && (runs != [] ==> End(runs[|runs| - 1]) <= a)
    ensures Canonical(Append(runs, a, c))
    ensures DiffOf(Append(runs, a, c)) == if c.before == c.after then DiffOf(runs) else DiffOf(runs)[a := c]
    ensures Append(runs, a, c) != [] ==> End(Append(runs, a, c)[|Append(runs, a, c)| - 1]) <= a + 1
  {
    hide DiffOf, Canonical;
    CanonicalLengths(runs);
    if c.before != c.after {
      if runs == [] || a != End(runs[|runs| - 1]) {
        NewRun(runs, a, c);
      } else {
        LongerRun(runs, c);
      }
    }
  }

  // The changes among the given addresses.
  ghost predicate Lists(diff: Changes, values: Changes, addresses: seq<int>)
    requires forall i | 0 <= i < |addresses| :: addresses[i] in values
  {
    (forall a :: a in diff ==> a in addresses && diff[a] == values[a] && diff[a].before != diff[a].after)
    && forall i | 0 <= i < |addresses| && values[addresses[i]].before != values[addresses[i]].after :: addresses[i] in diff
  }

  lemma ListsSnoc(diff: Changes, values: Changes, addresses: seq<int>, a: int)
    requires a in values && forall i | 0 <= i < |addresses| :: addresses[i] in values
    requires Lists(diff, values, addresses)
    ensures Lists(if values[a].before == values[a].after then diff else diff[a := values[a]], values, addresses + [a])
  {
  }

  lemma {:induction false} GroupDiff(values: Changes, addresses: seq<int>)
    requires forall i | 0 <= i < |addresses| :: addresses[i] in values
    requires forall i, j | 0 <= i < j < |addresses| :: addresses[i] < addresses[j]
    ensures Canonical(Group(values, addresses))
    ensures Lists(DiffOf(Group(values, addresses)), values, addresses)
    ensures Group(values, addresses) != [] ==>
      addresses != [] && End(Group(values, addresses)[|Group(values, addresses)| - 1]) <= addresses[|addresses| - 1] + 1
    decreases |addresses|
  {
    hide Append, Lists, DiffOf, Canonical;
    if addresses == [] {
      NothingListed(values);
    } else {
      var init, a := addresses[..|addresses| - 1], addresses[|addresses| - 1];
      GroupDiff(values, init);
      CanonicalLengths(Group(values, init));
      AppendDiff(Group(values, init), a, values[a]);
      ListsSnoc(DiffOf(Group(values, init)), values, init, a);
      assert addresses == init + [a];
    }
  }

  lemma NothingListed(values: Changes)
    ensures Canonical([]) && Lists(DiffOf([]), values, [])
  {
  }

  lemma NormalIsCanonical(patches: seq<Patch>)
    requires AllSameLengths(patches)
    ensures Canonical(Normal(patches)) && DiffOf(Normal(patches)) == Effective(Overlay(patches))
  {
    hide Overlay, DiffOf, Canonical, Group;
    var values := Overlay(patches);
    SortedFacts(values.Keys);
    GroupDiff(values, Sorted(values.Keys));
    CanonicalLengths(Normal(patches));
    ListsAll(DiffOf(Normal(patches)), values, Sorted(values.Keys));
  }

  lemma ListsAll(diff: Changes, values: Changes, addresses: seq<int>)
    requires forall i | 0 <= i < |addresses| :: addresses[i] in values
    requires forall a | a in values :: a in addresses
    requires Lists(diff, values, addresses)
    ensures diff == Effective(values)
  {
    forall a | a in Effective(values) ensures a in diff {
      var i :| 0 <= i < |addresses| && addresses[i] == a;
      assert values[addresses[i]].before != values[addresses[i]].after;
    }
    forall a | a in diff ensures a in Effective(values) && diff[a] == Effective(values)[a] {
      assert diff[a] == values[a];
    }
    assert diff.Keys == Effective(values).Keys;
  }

  // ----- there is only one

  lemma LastInDiff(r: seq<Patch>, a: int)
    requires Canonical(r) && r != [] && a in Covered(r[|r| - 1])
    ensures a in DiffOf(r) && DiffOf(r)[a] == Covered(r[|r| - 1])[a]
  {
  }

  lemma SameEnd(r: seq<Patch>, s: seq<Patch>)
    requires Canonical(r) && Canonical(s) && r != [] && s != [] && DiffOf(r) == DiffOf(s)
    ensures End(r[|r| - 1]) <= End(s[|s| - 1])
  {
    hide DiffOf;
    LastInDiff(r, End(r[|r| - 1]) - 1);
    DiffBelow(s, End(r[|r| - 1]) - 1);
  }

  lemma LastRunUnique(r: seq<Patch>, s: seq<Patch>)
    requires Canonical(r) && Canonical(s) && r != [] && s != [] && DiffOf(r) == DiffOf(s)
    ensures r[|r| - 1] == s[|s| - 1]
  {
    hide DiffOf, Covered, Canonical;
    var p, q := r[|r| - 1], s[|s| - 1];
    SameEnd(r, s);
    SameEnd(s, r);
    StartUnique(r, s);
    StartUnique(s, r);
    LastProper(r);
    LastProper(s);
    forall i | 0 <= i < |p.data| ensures p.orig[i] == q.orig[i] && p.data[i] == q.data[i] {
      SameCell(r, s, i);
    }
  }

  lemma LastProper(r: seq<Patch>)
    requires Canonical(r) && r != []
    ensures ProperRun(r[|r| - 1])
  {
  }

  lemma SameCell(r: seq<Patch>, s: seq<Patch>, i: nat)
    requires Canonical(r) && Canonical(s) && r != [] && s != [] && DiffOf(r) == DiffOf(s)
    requires r[|r| - 1].addr == s[|s| - 1].addr && SameLengths(r[|r| - 1]) && SameLengths(s[|s| - 1])
    requires i < |r[|r| - 1].data| == |s[|s| - 1].data|
    ensures r[|r| - 1].orig[i] == s[|s| - 1].orig[i] && r[|r| - 1].data[i] == s[|s| - 1].data[i]
  {
    hide DiffOf, Covered, Canonical;
    CoveredAt(r[|r| - 1], i);
    CoveredAt(s[|s| - 1], i);
    SameByte(r, s, r[|r| - 1].addr + i);
  }

  lemma CoveredAt(p: Patch, i: nat)
    requires SameLengths(p) && i < |p.data|
    ensures p.addr + i in Covered(p) && Covered(p)[p.addr + i] == Change(p.orig[i], p.data[i])
  {
  }

  lemma SameByte(r: seq<Patch>, s: seq<Patch>, a: int)
    requires Canonical(r) && Canonical(s) && r != [] && s != [] && DiffOf(r) == DiffOf(s)
    requires a in Covered(r[|r| - 1]) && a in Covered(s[|s| - 1])
    ensures Covered(r[|r| - 1])[a] == Covered(s[|s| - 1])[a]
  {
    hide DiffOf, Covered;
    LastInDiff(r, a);
    LastInDiff(s, a);
  }

  lemma StartUnique(r: seq<Patch>, s: seq<Patch>)
    requires Canonical(r) && Canonical(s) && r != [] && s != [] && DiffOf(r) == DiffOf(s)
    requires End(r[|r| - 1]) == End(s[|s| - 1])
    ensures s[|s| - 1].addr <= r[|r| - 1].addr
  {
    var p, q := r[|r| - 1], s[|s| - 1];
    if p.addr < q.addr {
      var a := q.addr - 1;
      LastInDiff(r, a);
      assert a !in Covered(q);
      InitBelow(s, a);
    }
  }

  lemma {:induction false} CanonicalUnique(r: seq<Patch>, s: seq<Patch>)
    requires Canonical(r) && Canonical(s) && DiffOf(r) == DiffOf(s)
    ensures r == s
    decreases |r|
  {
    hide DiffOf, Canonical, Covered;
    CanonicalLengths(r);
    CanonicalLengths(s);
    if r == [] || s == [] {
      EmptyDiff(r);
      EmptyDiff(s);
    } else {
      LastRunUnique(r, s);
      var r', s' := r[..|r| - 1], s[..|s| - 1];
      InitDiff(r);
      InitDiff(s);
      CanonicalPrefix(r, |r| - 1);
      CanonicalPrefix(s, |s| - 1);
      CanonicalLengths(r');
      CanonicalLengths(s');
      CanonicalUnique(r', s');
      assert r == r' + [r[|r| - 1]] && s == s' + [s[|s| - 1]];
    }
  }

  lemma EmptyDiff(r: seq<Patch>)
    requires Canonical(r)
    ensures r == [] <==> DiffOf(r) == map[]
  {
    if r != [] {
      assert r[|r| - 1].addr in Covered(r[|r| - 1]);
    }
  }

  lemma InitDiff(r: seq<Patch>)
    requires Canonical(r) && r != []
    ensures AllSameLengths(r[..|r| - 1]) && SameLengths(r[|r| - 1])
    ensures DiffOf(r[..|r| - 1]) == DiffOf(r) - Covered(r[|r| - 1]).Keys
  {
    var init, p := r[..|r| - 1], r[|r| - 1];
    forall a | a in DiffOf(init) ensures a !in Covered(p) {
      InitBelow(r, a);
    }
  }

  // ----- histories of edits

  predicate Mapped(m: Memory, addr: int, n: nat)
    decreases n
  {
    n == 0 || (addr in m && Mapped(m, addr + 1, n - 1))
  }

  lemma {:induction false} MappedAt(m: Memory, addr: int, n: nat, i: nat)
    requires Mapped(m, addr, n) && i < n
    ensures addr + i in m
    decreases n
  {
    if i > 0 {
      MappedAt(m, addr + 1, n - 1, i - 1);
    }
  }

  // The bytes at `addr`.
  function Bytes(m: Memory, addr: int, n: nat): (r: seq<Byte>)
    requires Mapped(m, addr, n)
    ensures |r| == n
    decreases n
  {
    if n == 0 then [] else [m[addr]] + Bytes(m, addr + 1, n - 1)
  }

  lemma {:induction false} BytesAt(m: Memory, addr: int, n: nat, i: nat)
    requires Mapped(m, addr, n) && i < n
    ensures addr + i in m && Bytes(m, addr, n)[i] == m[addr + i]
    decreases n
  {
    if i > 0 {
      BytesAt(m, addr + 1, n - 1, i - 1);
    }
  }

  // Memory after the bytes of `data` are stored where memory is mapped.
  function Put(m: Memory, addr: int, data: seq<Byte>): Memory {
    map a | a in m :: if addr <= a < addr + |data| then data[a - addr] else m[a]
  }

  // The patch records what was there.
  predicate Fits(m: Memory, p: Patch) {
    SameLengths(p) && Mapped(m, p.addr, |p.orig|) && Bytes(m, p.addr, |p.orig|) == p.orig
  }

  function Replay(m: Memory, patches: seq<Patch>): Memory {
    if patches == [] then m
    else Put(Replay(m, patches[..|patches| - 1]), patches[|patches| - 1].addr, patches[|patches| - 1].data)
  }

  // Every patch's original bytes are the memory at that moment.
  predicate Consistent(m: Memory, patches: seq<Patch>) {
    patches == []
    || (Consistent(m, patches[..|patches| - 1]) && Fits(Replay(m, patches[..|patches| - 1]), patches[|patches| - 1]))
  }

  lemma {:induction false} ConsistentLengths(m: Memory, patches: seq<Patch>)
    requires Consistent(m, patches)
    ensures AllSameLengths(patches)
    decreases |patches|
  {
    if patches != [] {
      ConsistentLengths(m, patches[..|patches| - 1]);
      assert patches == patches[..|patches| - 1] + [patches[|patches| - 1]];
    }
  }

  lemma {:induction false} ReplayKeys(m: Memory, patches: seq<Patch>)
    ensures Replay(m, patches).Keys == m.Keys
    decreases |patches|
  {
    if patches != [] {
      ReplayKeys(m, patches[..|patches| - 1]);
    }
  }

  // The recorded changes are the changes from `from` to `to`, apart from bytes written back.
  ghost predicate Records(values: Changes, from: Memory, to: Memory) {
    from.Keys == to.Keys
    && (forall a :: a in values ==> a in from && values[a] == Change(from[a], to[a]))
    && forall a :: a in from && a !in values ==> from[a] == to[a]
  }

  lemma TouchRecords(values: Changes, from: Memory, to: Memory, a: int, v: Byte)
    requires Records(values, from, to) && a in to
    ensures Records(Touch(values, a, to[a], v), from, to[a := v])
  {
    assert a !in values ==> from[a] == to[a];
  }

  lemma PutNext(m: Memory, addr: int, data: seq<Byte>, n: nat)
    requires n < |data| && addr + n in m
    ensures Put(m, addr, data[..n + 1]) == Put(m, addr, data[..n])[addr + n := data[n]]
    ensures Put(m, addr, data[..n])[addr + n] == m[addr + n]
  {
  }

  lemma PutNothing(m: Memory, addr: int, data: seq<Byte>)
    ensures Put(m, addr, data[..0]) == m
  {
  }

  lemma {:induction false} OverlayBytesRecords(values: Changes, p: Patch, n: nat, from: Memory, to: Memory)
    requires Records(values, from, to) && Fits(to, p) && n <= |p.data|
    ensures Records(OverlayBytes(values, p, n), from, Put(to, p.addr, p.data[..n]))
    decreases n
  {
    hide Records, Touch, Mapped, Bytes;
    if n == 0 {
      PutNothing(to, p.addr, p.data);
    } else {
      OverlayBytesRecords(values, p, n - 1, from, to);
      MappedAt(to, p.addr, |p.orig|, n - 1);
      BytesAt(to, p.addr, |p.orig|, n - 1);
      PutNext(to, p.addr, p.data, n - 1);
      TouchRecords(OverlayBytes(values, p, n - 1), from, Put(to, p.addr, p.data[..n - 1]), p.addr + n - 1, p.data[n - 1]);
    }
  }

  lemma {:induction false} OverlayRecords(m: Memory, patches: seq<Patch>)
    requires Consistent(m, patches)
    ensures AllSameLengths(patches) && Records(Overlay(patches), m, Replay(m, patches))
    decreases |patches|
  {
    ConsistentLengths(m, patches);
    if patches != [] {
      var init, last := patches[..|patches| - 1], patches[|patches| - 1];
      OverlayRecords(m, init);
      OverlayBytesRecords(Overlay(init), last, |last.data|, m, Replay(m, init));
      assert last.data[..|last.data|] == last.data;
    }
  }

  // For any consistent history the program's list is the canonical difference between the memory
  // before it and the memory after it.
  lemma NormalIsDiff(m: Memory, patches: seq<Patch>)
    requires Consistent(m, patches)
    ensures AllSameLengths(patches) && IsDiff(Normal(patches), m, Replay(m, patches))
  {
    hide Overlay, Normal, DiffOf, Canonical;
    OverlayRecords(m, patches);
    NormalIsCanonical(patches);
    EffectiveIsDifferences(Overlay(patches), m, Replay(m, patches));
  }

  lemma EffectiveIsDifferences(values: Changes, from: Memory, to: Memory)
    requires Records(values, from, to)
    ensures Effective(values) == Differences(from, to)
  {
    forall a | a in Effective(values) ensures a in Differences(from, to) {
      assert values[a] == Change(from[a], to[a]);
    }
    forall a | a in Differences(from, to) ensures a in Effective(values) && values[a] == Change(from[a], to[a]) {
      assert a in values;
    }
    assert Effective(values).Keys == Differences(from, to).Keys;
  }

  // There is only one such list.
  lemma DiffUnique(r: seq<Patch>, s: seq<Patch>, from: Memory, to: Memory)
    requires IsDiff(r, from, to) && IsDiff(s, from, to)
    ensures r == s
  {
    hide DiffOf, Canonical;
    CanonicalUnique(r, s);
  }

  // ----- recording one patch at a time

  // The list after each patch has been recorded into the list before it.
  function RecordAll(patches: seq<Patch>): (r: seq<Patch>)
    requires AllSameLengths(patches)
    ensures Canonical(r)
    decreases |patches|
  {
    if patches == [] then []
    else
      var last := patches[|patches| - 1];
      var r := RecordAll(patches[..|patches| - 1]) + [last];
      NormalIsCanonical(r);
      Normal(r)
  }

  // A memory that agrees with the original bytes of the list.
  ghost predicate Holds(m: Memory, diff: Changes) {
    forall a :: a in diff ==> a in m && m[a] == diff[a].before
  }

  function Patched(m: Memory, diff: Changes): Memory {
    map a | a in m :: if a in diff then diff[a].after else m[a]
  }

  lemma RunFits(m: Memory, p: Patch)
    requires SameLengths(p) && forall a :: p.addr <= a < End(p) ==> a in m && m[a] == p.orig[a - p.addr]
    ensures Fits(m, p)
  {
    RangeMapped(m, p.addr, |p.orig|);
    forall i | 0 <= i < |p.orig| ensures Bytes(m, p.addr, |p.orig|)[i] == p.orig[i] {
      BytesAt(m, p.addr, |p.orig|, i);
    }
  }

  lemma {:induction false} RangeMapped(m: Memory, addr: int, n: nat)
    requires forall a :: addr <= a < addr + n ==> a in m
    ensures Mapped(m, addr, n)
    decreases n
  {
    if n > 0 {
      RangeMapped(m, addr + 1, n - 1);
    }
  }

  lemma PatchedRun(m: Memory, diff: Changes, p: Patch)
    requires SameLengths(p)
    ensures Put(Patched(m, diff), p.addr, p.data) == Patched(m, diff + Covered(p))
  {
    forall a | a in m ensures Put(Patched(m, diff), p.addr, p.data)[a] == Patched(m, diff + Covered(p))[a] {
      assert a in Covered(p) <==> p.addr <= a < End(p);
    }
  }

  // The last run still finds its original bytes when the runs before it have been applied.
  lemma LastFits(m: Memory, runs: seq<Patch>)
    requires Canonical(runs) && AllSameLengths(runs) && runs != [] && Holds(m, DiffOf(runs))
    ensures AllSameLengths(runs[..|runs| - 1]) && Fits(Patched(m, DiffOf(runs[..|runs| - 1])), runs[|runs| - 1])
  {
    hide DiffOf, Canonical, Covered, Fits;
    CanonicalPrefix(runs, |runs| - 1);
    CanonicalLengths(runs[..|runs| - 1]);
    InitDiff(runs);
    var diff, last := DiffOf(runs[..|runs| - 1]), runs[|runs| - 1];
    forall a | last.addr <= a < End(last) ensures a in m && Patched(m, diff)[a] == last.orig[a - last.addr] {
      CoveredAt(last, a - last.addr);
      LastInDiff(runs, a);
    }
    RunFits(Patched(m, diff), last);
  }

  // A canonical list, read as a history, leads from its original bytes to its replacement bytes.
  lemma {:induction false} ReplayCanonical(m: Memory, runs: seq<Patch>)
    requires Canonical(runs) && AllSameLengths(runs) && Holds(m, DiffOf(runs))
    ensures Consistent(m, runs) && Replay(m, runs) == Patched(m, DiffOf(runs))
    decreases |runs|
  {
    hide Canonical, Covered, Fits;
    if runs == [] {
      assert Patched(m, map[]) == m;
    } else {
      var init, last := runs[..|runs| - 1], runs[|runs| - 1];
      CanonicalPrefix(runs, |runs| - 1);
      CanonicalLengths(init);
      InitDiff(runs);
      ReplayCanonical(m, init);
      LastFits(m, runs);
      PatchedRun(m, DiffOf(init), last);
    }
  }

  lemma DifferencesHold(from: Memory, to: Memory)
    requires from.Keys == to.Keys
    ensures Holds(from, Differences(from, to)) && Patched(from, Differences(from, to)) == to
  {
  }

  // Recording patch after patch into the list gives what the whole history gives at once.
  lemma {:induction false} RecordAllIsNormal(m: Memory, patches: seq<Patch>)
    requires Consistent(m, patches)
    ensures AllSameLengths(patches) && RecordAll(patches) == Normal(patches)
    ensures IsDiff(RecordAll(patches), m, Replay(m, patches))
    decreases |patches|
  {
    hide Normal, DiffOf, Canonical, Fits;
    ConsistentLengths(m, patches);
    NormalIsDiff(m, patches);
    if patches == [] {
      assert Normal(patches) == [] by { NormalOfNothing(); }
    } else {
      var init, last := patches[..|patches| - 1], patches[|patches| - 1];
      RecordAllIsNormal(m, init);
      ReplayKeys(m, init);
      RecordOne(m, Replay(m, init), RecordAll(init), last);
      DiffUnique(RecordAll(patches), Normal(patches), m, Replay(m, patches));
    }
  }

  lemma NormalOfNothing()
    ensures Normal([]) == []
  {
    assert Overlay([]) == map[];
  }

  // Recording one more patch keeps the list the difference between original and current memory.
  lemma RecordOne(from: Memory, to: Memory, runs: seq<Patch>, p: Patch)
    requires IsDiff(runs, from, to) && Fits(to, p) && from.Keys == to.Keys
    ensures AllSameLengths(runs + [p]) && IsDiff(Normal(runs + [p]), from, Put(to, p.addr, p.data))
  {
    hide Normal, DiffOf, Canonical, Fits;
    CanonicalLengths(runs);
    DifferencesHold(from, to);
    ReplayCanonical(from, runs);
    assert (runs + [p])[..|runs|] == runs;
    NormalIsDiff(from, runs + [p]);
  }
}
