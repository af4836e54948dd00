// Searching readable regions chunk by chunk, with the tail of each chunk carried into the next.
module MemorySearch {
  import opened Bytes

  const CHUNK: nat := 4194304

  // A readable region in scope.
  datatype Region = Region(base: int, data: string)

  // ----- the naive search

  // Every place before `k` where the needle starts, in ascending order, overlapping ones included.
  function Starts(r: Region, needle: string, k: nat): seq<int> {
    if k == 0 then []
    else Starts(r, needle, k - 1) + (if At(r.data, k - 1, needle) then [r.base + k - 1] else [])
  }

  function AllStarts(r: Region, needle: string): seq<int> {
    Starts(r, needle, |r.data|)
  }

  function Everywhere(regions: seq<Region>, needle: string): seq<int> {
    if regions == [] then []
    else Everywhere(regions[..|regions| - 1], needle) + AllStarts(regions[|regions| - 1], needle)
  }

  function First(hits: seq<int>, n: nat): seq<int> {
    if |hits| <= n then hits else hits[..n]
  }

  // A search that asks for no hit still reports the first one.
  function Wanted(maxHits: nat): nat {
    if maxHits == 0 then 1 else maxHits
  }

  lemma {:induction false} StartsPrefix(r: Region, needle: string, k: nat, n: nat)
    requires k <= n
    ensures Starts(r, needle, k) <= Starts(r, needle, n)
    decreases n
  {
    if k < n {
      StartsPrefix(r, needle, k, n - 1);
    }
  }

  // Nothing starts where too few bytes are left.
  lemma {:induction false} StartsTail(r: Region, needle: string, k: nat, n: nat)
    requires k <= n && k + |needle| > |r.data|
    ensures Starts(r, needle, n) == Starts(r, needle, k)
    decreases n
  {
    if k < n {
      StartsTail(r, needle, k, n - 1);
    }
  }

  lemma {:induction false} StartsNone(r: Region, needle: string, k: nat, n: nat)
    requires k <= n && forall i: nat :: k <= i < n ==> !At(r.data, i, needle)
    ensures Starts(r, needle, n) == Starts(r, needle, k)
    decreases n
  {
    if k < n {
      StartsNone(r, needle, k, n - 1);
    }
  }

  // A window of the region shows the occurrences that lie in it.
  lemma WindowAt(r: Region, needle: string, from: nat, to: nat, i: nat)
    requires from <= to <= |r.data|
    ensures At(r.data[from..to], i, needle) <==> At(r.data, from + i, needle) && from + i + |needle| <= to
  {
    if from + i + |needle| <= to {
      assert r.data[from..to][i..i + |needle|] == r.data[from + i..from + i + |needle|];
    }
  }

  // The places that a search of the prefix of length `off` has covered.
  function Covered(off: nat, needle: string): nat {
    if off < |needle| then 0 else off - |needle| + 1
  }

  datatype Stop = Finished | Enough | Exhausted

  // ----- one window

  function Max(a: nat, b: nat): nat {
    if a <= b then b else a
  }

  // Searches the window [from, to) for the places not covered by the part of the region in front of
  // it, and appends them to `before`; stops at once when the limit is reached.
  method SearchWindow(r: Region, needle: string, from: nat, to: nat, before: seq<int>, limit: nat)
    returns (hits: seq<int>, enough: bool, ghost k: nat)
    requires needle != "" && from <= to <= |r.data| && |before| < limit
    ensures before <= hits
    ensures from <= k <= |r.data| && Starts(r, needle, k) == Starts(r, needle, from) + hits[|before|..]
    ensures if enough then |hits| == limit else |hits| < limit && k == Max(from, Covered(to, needle))
  {
    hide Starts, At;
    var buf := r.data[from..to];
    var start := 0;
    hits, enough, k := before, false, from;
    while true
      invariant 0 <= start <= |buf| && k == from + start && start + |needle| <= Max(|buf| + 1, |needle|)
      invariant before <= hits && Starts(r, needle, k) == Starts(r, needle, from) + hits[|before|..]
      invariant |hits| < limit
      decreases |buf| - start
    {
      var idx := FindFrom(buf, needle, start);
      if idx < 0 {
        NoneLeft(r, needle, from, to, start);
        k := Max(from, Covered(to, needle));
        return;
      }
      NextHit(r, needle, from, to, start, idx);
      assert (hits + [r.base + from + idx])[|before|..] == hits[|before|..] + [r.base + from + idx];
      hits := hits + [r.base + from + idx];
      start := idx + 1;
      k := from + start;
      if |hits| >= limit {
        enough := true;
        return;
      }
    }
  }

  lemma NoneLeft(r: Region, needle: string, from: nat, to: nat, start: nat)
    requires from <= to <= |r.data| && needle != ""
    requires forall i: nat :: start <= i ==> !At(r.data[from..to], i, needle)
    requires start + |needle| <= Max(to - from + 1, |needle|)
    ensures Starts(r, needle, Max(from, Covered(to, needle))) == Starts(r, needle, from + start)
  {
    var n := Covered(to, needle);
    if n > from + start {
      forall i: nat | from + start <= i < n ensures !At(r.data, i, needle) {
        WindowAt(r, needle, from, to, i - from);
      }
      StartsNone(r, needle, from + start, n);
    }
  }

  lemma GapEmpty(r: Region, needle: string, from: nat, to: nat, start: nat, idx: nat)
    requires from <= to <= |r.data| && start <= idx && from + idx + |needle| <= to
    requires forall i: nat :: start <= i < idx ==> !At(r.data[from..to], i, needle)
    ensures forall i: nat :: from + start <= i < from + idx ==> !At(r.data, i, needle)
  {
    hide At;
    forall i: nat | from + start <= i < from + idx ensures !At(r.data, i, needle) {
      WindowAt(r, needle, from, to, i - from);
    }
  }

  lemma NextHit(r: Region, needle: string, from: nat, to: nat, start: nat, idx: nat)
    requires from <= to <= |r.data| && needle != "" && start <= idx && At(r.data[from..to], idx, needle)
    requires forall i: nat :: start <= i < idx ==> !At(r.data[from..to], i, needle)
    ensures idx + |needle| <= to - from
    ensures Starts(r, needle, from + idx + 1) == Starts(r, needle, from + start) + [r.base + from + idx]
  {
    assert idx + |needle| <= to - from;
    hide At;
    WindowAt(r, needle, from, to, idx);
    GapEmpty(r, needle, from, to, start, idx);
    StartsNone(r, needle, from + start, from + idx);
  }

  // ----- one region

  // What has been read so far ends in `carry`, which may hold the start of an occurrence but not all of it.
  predicate Carried(r: Region, needle: string, off: nat, carry: string)
    requires needle != "" && off <= |r.data|
  {
    |carry| == Min(off, |needle| - 1) && carry == r.data[off - |carry|..off]
  }

  // The last `n` bytes, or all of them.
  function LastBytes(s: string, n: nat): string {
    if |s| <= n then s else s[|s| - n..]
  }

  function NextCarry(buf: string, needle: string): string
    requires needle != ""
  {
    if |needle| > 1 then LastBytes(buf, |needle| - 1) else ""
  }

  lemma CarryWindow(r: Region, needle: string, off: nat, take: nat, carry: string)
    requires needle != "" && off + take <= |r.data| && Carried(r, needle, off, carry)
    ensures |carry| <= off && off - |carry| == Covered(off, needle) <= Covered(off + take, needle) <= off + take
    ensures carry + r.data[off..off + take] == r.data[off - |carry|..off + take]
  {
  }

  lemma CarryNext(r: Region, needle: string, off: nat, from: nat, to: nat)
    requires needle != "" && off <= to <= |r.data| && from == Covered(off, needle) <= to
    ensures Carried(r, needle, to, NextCarry(r.data[from..to], needle))
  {
    var next := NextCarry(r.data[from..to], needle);
    assert |next| == Min(to, |needle| - 1);
    assert next == r.data[to - |next|..to];
  }

  // The hits in one more window extend those of the region.
  lemma MoreFound(r: Region, needle: string, k: nat, k': nat, before: seq<int>, found: seq<int>, hits: seq<int>)
    requires found == before + Starts(r, needle, k) && found <= hits
    requires Starts(r, needle, k') == Starts(r, needle, k) + hits[|found|..]
    ensures hits == before + Starts(r, needle, k')
  {
    hide Starts;
  }

  lemma EndsCovered(r: Region, needle: string)
    requires needle != ""
    ensures Carried(r, needle, 0, "")
    ensures Covered(0, needle) == 0 && Covered(|r.data|, needle) <= |r.data| < Covered(|r.data|, needle) + |needle|
  {
  }

  // The chunk loop over one region. `carry` is the end of what has been read, too short to hold the
  // needle, so that an occurrence across two chunks is seen once.
  method SearchRegion(r: Region, needle: string, chunk: nat, before: seq<int>, limit: nat, scanned0: nat, budget: nat)
    returns (hits: seq<int>, scanned: nat, stop: Stop, ghost k: nat)
    requires needle != "" && chunk >= 1 && |before| < limit
    ensures k <= |r.data| && hits == before + Starts(r, needle, k)
    ensures stop == Finished ==> k == |r.data| && |hits| < limit && scanned == scanned0 + |r.data|
    ensures stop == Enough ==> |hits| == limit
    ensures stop == Exhausted ==> |hits| < limit && scanned >= budget
    ensures scanned0 <= scanned <= scanned0 + |r.data|
  {
    hide Starts, At, Covered, NextCarry, Carried;
    EndsCovered(r, needle);
    var off := 0;
    var carry := "";
    hits, scanned, stop, k := before, scanned0, Finished, 0;
    StartsZero(r, needle);
    while off < |r.data|
      invariant 0 <= off <= |r.data| && scanned == scanned0 + off && Carried(r, needle, off, carry)
      invariant k == Covered(off, needle) <= off && hits == before + Starts(r, needle, k)
      invariant |hits| < limit
    {
      if scanned >= budget {
        return hits, scanned, Exhausted, k;
      }
      var take := Min(chunk, |r.data| - off);
      var data := r.data[off..off + take];
      scanned := scanned + |data|;
      var buf := carry + data;
      CarryWindow(r, needle, off, take, carry);
      CarryNext(r, needle, off, off - |carry|, off + take);
      ghost var found, covered := hits, k;
      var enough;
      hits, enough, k := SearchWindow(r, needle, off - |carry|, off + take, hits, limit);
      MoreFound(r, needle, covered, k, before, found, hits);
      if enough {
        return hits, scanned, Enough, k;
      }
      carry := NextCarry(buf, needle);
      off := off + take;
    }
    StartsTail(r, needle, k, |r.data|);
    k := |r.data|;
  }

  lemma StartsZero(r: Region, needle: string)
    ensures Starts(r, needle, 0) == []
  {
  }

  // ----- all regions

  lemma {:induction false} EverywherePrefix(regions: seq<Region>, needle: string, n: nat, added: seq<int>)
    requires n < |regions| && added <= AllStarts(regions[n], needle)
    ensures Everywhere(regions[..n], needle) + added <= Everywhere(regions, needle)
    decreases |regions|
  {
    var init := regions[..|regions| - 1];
    if n < |regions| - 1 {
      EverywherePrefix(init, needle, n, added);
      assert init[..n] == regions[..n];
    }
  }

  // The chunked search. The hits are the first ones of the naive search, in its order, as many as were
  // asked for; only when the byte budget runs out may there be fewer.
  method Search(regions: seq<Region>, needle: string, maxHits: nat, budget: nat)
    returns (hits: seq<int>, scanned: nat)
    ensures needle == "" ==> hits == [] && scanned == 0
    ensures needle != "" ==> hits <= Everywhere(regions, needle) && |hits| <= Wanted(maxHits)
    ensures needle != "" && scanned < budget ==> hits == First(Everywhere(regions, needle), Wanted(maxHits))
  {
    hide Starts;
    hits, scanned := [], 0;
    if needle == "" {
      return;
    }
    var limit := Wanted(maxHits);
    var i := 0;
    assert regions[..0] == [];
    while i < |regions|
      invariant 0 <= i <= |regions|
      invariant hits == Everywhere(regions[..i], needle) && |hits| < limit
    {
      var stop;
      ghost var k;
      hits, scanned, stop, k := SearchRegion(regions[i], needle, CHUNK, hits, limit, scanned, budget);
      if stop != Finished {
        PartOfRegion(regions[i], needle, k);
        EverywherePrefix(regions, needle, i, Starts(regions[i], needle, k));
        return;
      }
      assert regions[..i + 1][..i] == regions[..i];
      i := i + 1;
    }
    assert regions[..i] == regions;
  }

  lemma PartOfRegion(r: Region, needle: string, k: nat)
    requires k <= |r.data|
    ensures Starts(r, needle, k) <= AllStarts(r, needle)
  {
    StartsPrefix(r, needle, k, |r.data|);
  }
}
