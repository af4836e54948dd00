// Byte strings and the few library operations the HTTP capture relies on.
// A byte is written as the Latin-1 character with the same code, so byte literals read as in the
// program; nothing below depends on a code being less than 256.
module Bytes {
  // What `partition` returns: the part before the first separator and the part after it.
  datatype Parts = Parts(head: string, found: bool, tail: string)

  predicate At(s: string, i: nat, pat: string) {
    i + |pat| <= |s| && s[i..i + |pat|] == pat
  }

  function FindFrom(s: string, pat: string, i: nat): (r: int)
    ensures r == -1 || (i <= r && At(s, r, pat))
    ensures forall k: nat :: i <= k && (r < 0 || k < r) ==> !At(s, k, pat)
    decreases |s| - i
  {
    if i + |pat| > |s| then -1
    else if At(s, i, pat) then i
    else FindFrom(s, pat, i + 1)
  }

  // Index of the first occurrence, or -1.
  function Find(s: string, pat: string): (r: int)
    ensures r == -1 || (0 <= r && At(s, r, pat))
    ensures forall k: nat :: (r < 0 || k < r) ==> !At(s, k, pat)
  {
    FindFrom(s, pat, 0)
  }

  function Partition(s: string, sep: string): (p: Parts)
    ensures p.found ==> s == p.head + sep + p.tail
    ensures !p.found ==> s == p.head && p.tail == ""
  {
    var i := Find(s, sep);
    if i < 0 then Parts(s, false, "") else Parts(s[..i], true, s[i + |sep|..])
  }

  // All pieces between separators.
  function Split(s: string, sep: string): (r: seq<string>)
    requires sep != ""
    ensures |r| >= 1
    decreases |s|
  {
    var p := Partition(s, sep);
    if p.found then [p.head] + Split(p.tail, sep) else [s]
  }

  function Join(lines: seq<string>, sep: string): string
    requires |lines| >= 1
  {
    if |lines| == 1 then lines[0] else lines[0] + sep + Join(lines[1..], sep)
  }

  function Take(s: string, n: nat): string {
    if |s| <= n then s else s[..n]
  }

  function Min(a: int, b: int): int {
    if a <= b then a else b
  }

  lemma FindUnique(s: string, pat: string, i: nat)
    requires At(s, i, pat) && forall k: nat :: k < i ==> !At(s, k, pat)
    ensures Find(s, pat) == i
  {
  }

  // An occurrence that lies inside `s` is one of `s + d`, and conversely.
  lemma AtExtend(s: string, d: string, i: nat, pat: string)
    requires i + |pat| <= |s|
    ensures At(s + d, i, pat) == At(s, i, pat)
  {
    assert (s + d)[i..i + |pat|] == s[i..i + |pat|];
  }

  // A search that succeeded is not changed by more bytes; one that failed can only succeed at a
  // place that needs at least one of the new bytes.
  lemma FindExtend(s: string, d: string, pat: string)
    ensures Find(s, pat) >= 0 ==> Find(s + d, pat) == Find(s, pat)
    ensures Find(s, pat) < 0 ==> Find(s + d, pat) < 0 || Find(s + d, pat) + |pat| > |s|
  {
    var r := Find(s, pat);
    if r >= 0 {
      AtExtend(s, d, r, pat);
      forall k: nat | k < r ensures !At(s + d, k, pat) {
        AtExtend(s, d, k, pat);
      }
      FindUnique(s + d, pat, r);
    } else {
      var q := Find(s + d, pat);
      if q >= 0 && q + |pat| <= |s| {
        AtExtend(s, d, q, pat);
      }
    }
  }

  // A search that skips a prefix which holds no part of an occurrence.
  lemma FindSkip(p: string, s: string, pat: string)
    requires forall k: nat :: k < |p| ==> !At(p + s, k, pat)
    ensures Find(p + s, pat) == if Find(s, pat) < 0 then -1 else |p| + Find(s, pat)
  {
    var r := Find(s, pat);
    forall k: nat | |p| <= k ensures At(p + s, k, pat) == At(s, k - |p|, pat) {
      if k + |pat| <= |p + s| {
        assert (p + s)[k..k + |pat|] == s[k - |p|..k - |p| + |pat|];
      }
    }
    if r >= 0 {
      FindUnique(p + s, pat, |p| + r);
    }
  }

  lemma FindAtFront(s: string, pat: string, rest: string)
    requires forall k: nat :: k < |s| ==> !At(s + pat + rest, k, pat)
    ensures Find(s + pat + rest, pat) == |s|
  {
    assert (s + pat + rest)[|s|..|s| + |pat|] == pat;
    FindUnique(s + pat + rest, pat, |s|);
  }

  // A piece without the separator's first byte is found whole.
  lemma PartitionFirst(s: string, sep: string, rest: string)
    requires sep != "" && sep[0] !in s
    ensures Partition(s + sep + rest, sep) == Parts(s, true, rest)
  {
    var w := s + sep + rest;
    forall k: nat | k < |s| ensures !At(w, k, sep) {
      assert w[k] == s[k] && s[k] in s;
    }
    FindAtFront(s, sep, rest);
    assert w[..|s|] == s && w[|s| + |sep|..] == rest;
  }

  lemma PartitionNone(s: string, sep: string)
    requires sep != "" && sep[0] !in s
    ensures Find(s, sep) < 0 && Partition(s, sep) == Parts(s, false, "")
  {
    forall k: nat | k < |s| ensures !At(s, k, sep) {
      assert s[k] in s;
    }
  }

  lemma {:induction false} SplitJoin(lines: seq<string>, sep: string)
    requires |lines| >= 1 && sep != ""
    requires forall l :: l in lines ==> sep[0] !in l
    ensures Split(Join(lines, sep), sep) == lines
  {
    hide Partition;
    assert lines[0] in lines;
    if |lines| == 1 {
      PartitionNone(lines[0], sep);
    } else {
      PartitionFirst(lines[0], sep, Join(lines[1..], sep));
      SplitJoin(lines[1..], sep);
      assert lines == [lines[0]] + lines[1..];
    }
  }
}
