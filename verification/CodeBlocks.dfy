// Decoded basic blocks of a listing and the edges between them.
module CodeBlocks {
  import opened Options
  import opened Arm64

  datatype BranchKind = CallKind | Terminal | Conditional

  datatype Block = Block(addr: int, rows: seq<Row>)

  datatype EdgeKind = Taken | Jumped | Indirect | Fallthrough

  datatype Source = Decoded | Observed | Unresolved

  datatype Edge = Edge(from: int, to: Option<int>, kind: EdgeKind, source: Source)

  // A direct call does not end a block.
  function KindOf(i: Instr): Option<BranchKind> {
    match i
    case CallReg(_) => Some(CallKind)
    case Jump(_) => Some(Terminal)
    case JumpReg(_) => Some(Terminal)
    case Return => Some(Terminal)
    case BranchIf(_) => Some(Conditional)
    case _ => None
  }

  // The address among the operands of a branch.
  function TargetOf(i: Instr): Option<int> {
    if i.Jump? || i.BranchIf? then i.target else None
  }

  function Addresses(rows: seq<Row>): set<int> {
    set i | 0 <= i < |rows| :: rows[i].addr
  }

  // Where blocks begin: the first row, targets of branches, and what follows a branch.
  function LeadersOf(row: Row, addresses: set<int>): set<int> {
    if KindOf(row.instr) == None then {}
    else
      var target := TargetOf(row.instr);
      (if target.Some? && target.value in addresses then {target.value} else {})
      + (if row.addr + 4 in addresses then {row.addr + 4} else {})
  }

  function Leaders(rows: seq<Row>, addresses: set<int>, n: nat): set<int>
    requires n <= |rows| && |rows| >= 1
  {
    if n == 0 then {rows[0].addr as int} else Leaders(rows, addresses, n - 1) + LeadersOf(rows[n - 1], addresses)
  }

  function AppendRow(blocks: seq<Block>, row: Row, leaders: set<int>): seq<Block> {
    if row.addr in leaders || blocks == [] then blocks + [Block(row.addr, [row])]
    else
      var last := blocks[|blocks| - 1];
      blocks[..|blocks| - 1] + [last.(rows := last.rows + [row])]
  }

  function Blocks(rows: seq<Row>, leaders: set<int>, n: nat): seq<Block>
    requires n <= |rows|
  {
    if n == 0 then [] else AppendRow(Blocks(rows, leaders, n - 1), rows[n - 1], leaders)
  }

  function Destinations(observed: seq<(int, int)>, addr: int): seq<int> {
    if observed == [] then []
    else (if observed[0].0 == addr then [observed[0].1] else []) + Destinations(observed[1..], addr)
  }

  function IndirectEdges(from: int, targets: seq<int>): seq<Edge> {
    if targets == [] then [] else [Edge(from, Some(targets[0]), Indirect, Observed)] + IndirectEdges(from, targets[1..])
  }

  function EdgesOf(b: Block, addresses: set<int>, observed: seq<(int, int)>): seq<Edge>
    requires b.rows != []
  {
    var last := b.rows[|b.rows| - 1];
    var kind := KindOf(last.instr);
    (if last.instr.Jump? || kind == Some(Conditional) then
       [Edge(b.addr, TargetOf(last.instr), if kind == Some(Conditional) then Taken else Jumped, Decoded)]
     else if last.instr.JumpReg? || last.instr.CallReg? then
       var targets := Destinations(observed, last.addr);
       if targets == [] then [Edge(b.addr, None, Indirect, Unresolved)] else IndirectEdges(b.addr, targets)
     else [])
    + (if kind != Some(Terminal) && last.addr + 4 in addresses then
         [Edge(b.addr, Some(last.addr + 4), Fallthrough, Decoded)] else [])
  }

  predicate NonEmpty(blocks: seq<Block>) {
    forall j | 0 <= j < |blocks| :: blocks[j].rows != []
  }

  function Edges(blocks: seq<Block>, addresses: set<int>, observed: seq<(int, int)>, n: nat): seq<Edge>
    requires n <= |blocks| && NonEmpty(blocks)
  {
    if n == 0 then [] else Edges(blocks, addresses, observed, n - 1) + EdgesOf(blocks[n - 1], addresses, observed)
  }

  lemma {:induction false} BlocksNonEmpty(rows: seq<Row>, leaders: set<int>, n: nat)
    requires n <= |rows|
    ensures NonEmpty(Blocks(rows, leaders, n)) && (n > 0 ==> Blocks(rows, leaders, n) != [])
  {
    if n > 0 {
      BlocksNonEmpty(rows, leaders, n - 1);
    }
  }

  // The program's loops.
  method BlocksFor(rows: seq<Row>, observed: seq<(int, int)>) returns (blocks: seq<Block>, edges: seq<Edge>)
    ensures rows == [] ==> blocks == [] && edges == []
    ensures rows != [] ==>
      var addresses := Addresses(rows);
      && blocks == Blocks(rows, Leaders(rows, addresses, |rows|), |rows|) && NonEmpty(blocks)
      && edges == Edges(blocks, addresses, observed, |blocks|)
  {
    hide EdgesOf, LeadersOf, AppendRow;
    blocks, edges := [], [];
    if rows == [] {
      return;
    }
    var addresses := Addresses(rows);
    var leaders: set<int> := {rows[0].addr};
    var i := 0;
    while i < |rows|
      invariant 0 <= i <= |rows| && leaders == Leaders(rows, addresses, i)
    {
      leaders := leaders + LeadersOf(rows[i], addresses);
      i := i + 1;
    }
    i := 0;
    while i < |rows|
      invariant 0 <= i <= |rows| && blocks == Blocks(rows, leaders, i)
    {
      blocks := AppendRow(blocks, rows[i], leaders);
      i := i + 1;
    }
    BlocksNonEmpty(rows, leaders, |rows|);
    i := 0;
    while i < |blocks|
      invariant 0 <= i <= |blocks| && edges == Edges(blocks, addresses, observed, i)
    {
      edges := edges + EdgesOf(blocks[i], addresses, observed);
      i := i + 1;
    }
  }

  // ----- blocks partition the rows

  // The number of rows in the blocks before block `j`.
  function Offset(blocks: seq<Block>, j: nat): nat
    requires j <= |blocks|
  {
    if j == 0 then 0 else Offset(blocks, j - 1) + |blocks[j - 1].rows|
  }

  // Block `j` holds the rows from `Offset(j)` on, begins at a leader and holds no other.
  ghost predicate Spans(rows: seq<Row>, leaders: set<int>, blocks: seq<Block>, j: nat)
    requires j < |blocks|
  {
    var s, b := Offset(blocks, j), blocks[j];
    && b.rows != [] && s + |b.rows| <= |rows| && b.rows == rows[s..s + |b.rows|] && b.addr == rows[s].addr
    && (rows[s].addr in leaders)
    && forall k :: s < k < s + |b.rows| ==> rows[k].addr !in leaders
  }

  ghost predicate Partition(rows: seq<Row>, leaders: set<int>, blocks: seq<Block>, n: nat) {
    (forall j :: 0 <= j < |blocks| ==> Spans(rows, leaders, blocks, j)) && Offset(blocks, |blocks|) == n
  }

  lemma {:induction false} OffsetSame(a: seq<Block>, b: seq<Block>, j: nat)
    requires j <= |a| && j <= |b| && forall k :: 0 <= k < j ==> a[k] == b[k]
    ensures Offset(a, j) == Offset(b, j)
  {
    if j > 0 {
      OffsetSame(a, b, j - 1);
    }
  }

  lemma SpansSame(rows: seq<Row>, leaders: set<int>, a: seq<Block>, b: seq<Block>, j: nat)
    requires j < |a| && j < |b| && (forall k :: 0 <= k <= j ==> a[k] == b[k]) && Spans(rows, leaders, a, j)
    ensures Spans(rows, leaders, b, j)
  {
    OffsetSame(a, b, j);
  }

  lemma StartBlock(rows: seq<Row>, leaders: set<int>, blocks: seq<Block>, n: nat)
    requires n < |rows| && Partition(rows, leaders, blocks, n) && rows[n].addr in leaders
    ensures Partition(rows, leaders, blocks + [Block(rows[n].addr, [rows[n]])], n + 1)
  {
    var b := blocks + [Block(rows[n].addr, [rows[n]])];
    forall j | 0 <= j < |b| ensures Spans(rows, leaders, b, j) {
      if j < |blocks| {
        SpansSame(rows, leaders, blocks, b, j);
      } else {
        OffsetSame(blocks, b, j);
        assert rows[n..n + 1] == [rows[n]];
      }
    }
    OffsetSame(blocks, b, |blocks|);
  }

  lemma ExtendBlock(rows: seq<Row>, leaders: set<int>, blocks: seq<Block>, n: nat)
    requires n < |rows| && Partition(rows, leaders, blocks, n) && rows[n].addr !in leaders && blocks != []
    ensures Partition(rows, leaders, AppendRow(blocks, rows[n], leaders), n + 1)
  {
    var m := |blocks| - 1;
    var b := AppendRow(blocks, rows[n], leaders);
    assert Spans(rows, leaders, blocks, m);
    OffsetSame(blocks, b, m);
    assert Spans(rows, leaders, b, m) by {
      var s := Offset(blocks, m);
      assert n == s + |blocks[m].rows|;
      assert rows[s..n + 1] == rows[s..n] + [rows[n]];
    }
    forall j | 0 <= j < |b| ensures Spans(rows, leaders, b, j) {
      if j < m {
        SpansSame(rows, leaders, blocks, b, j);
      }
    }
  }

  // The blocks, in order, are the rows, in order.
  lemma {:induction false} BlocksPartition(rows: seq<Row>, leaders: set<int>, n: nat)
    requires n <= |rows| && rows != [] && rows[0].addr in leaders
    ensures Partition(rows, leaders, Blocks(rows, leaders, n), n)
  {
    hide Partition, AppendRow;
    if n == 0 {
      NoBlocks(rows, leaders);
    } else {
      BlocksPartition(rows, leaders, n - 1);
      BlocksNonEmpty(rows, leaders, n - 1);
      NextRow(rows, leaders, Blocks(rows, leaders, n - 1), n - 1);
    }
  }

  lemma NoBlocks(rows: seq<Row>, leaders: set<int>)
    ensures Partition(rows, leaders, [], 0)
  {
  }

  lemma NextRow(rows: seq<Row>, leaders: set<int>, blocks: seq<Block>, n: nat)
    requires n < |rows| && Partition(rows, leaders, blocks, n) && (blocks == [] ==> n == 0) && rows[0].addr in leaders
    ensures Partition(rows, leaders, AppendRow(blocks, rows[n], leaders), n + 1)
  {
    hide Partition;
    if rows[n].addr in leaders {
      StartBlock(rows, leaders, blocks, n);
    } else {
      ExtendBlock(rows, leaders, blocks, n);
    }
  }

  // ----- what blocks and edges say about execution

  ghost predicate Listing(rows: seq<Row>) {
    forall i :: 0 <= i < |rows| ==> rows[i].addr == rows[0].addr + 4 * i
  }

  // Control can leave the next address for another, a direct call excepted.
  predicate Branches(i: Instr) {
    i.Jump? || i.BranchIf? || i.JumpReg? || i.CallReg? || i.Return?
  }

  // Control can pass to the next address; a call comes back.
  predicate FallsThrough(i: Instr) {
    !i.Jump? && !i.JumpReg? && !i.Return?
  }

  // The row can be followed by the instruction at `a`, by falling through or by a decoded branch.
  predicate Goes(row: Row, a: int) {
    (a == row.addr + 4 && FallsThrough(row.instr)) || ((row.instr.Jump? || row.instr.BranchIf?) && row.instr.target == Some(a))
  }

  lemma KindsMean(i: Instr)
    ensures KindOf(i) == None <==> !Branches(i)
    ensures KindOf(i) == Some(Terminal) <==> !FallsThrough(i)
    ensures KindOf(i) == Some(Conditional) <==> i.BranchIf?
    ensures TargetOf(i) == if i.Jump? || i.BranchIf? then i.target else None
  {
  }

  // Blocks begin nowhere else: at the first row, at the target of a branch and behind a branch.
  lemma {:induction false} LeadersExact(rows: seq<Row>, addresses: set<int>, n: nat, a: int)
    requires n <= |rows| && rows != []
    ensures a in Leaders(rows, addresses, n) <==>
      a == rows[0].addr
      || exists i :: 0 <= i < n && a in addresses && Branches(rows[i].instr)
           && (a == rows[i].addr + 4 || Goes(rows[i], a))
    decreases n
  {
    if n > 0 {
      LeadersExact(rows, addresses, n - 1, a);
      KindsMean(rows[n - 1].instr);
      assert a in LeadersOf(rows[n - 1], addresses) <==>
        a in addresses && Branches(rows[n - 1].instr) && (a == rows[n - 1].addr + 4 || Goes(rows[n - 1], a));
    }
  }

  lemma {:induction false} LeadersContain(rows: seq<Row>, addresses: set<int>, n: nat, i: nat, a: int)
    requires i < n <= |rows| && a in LeadersOf(rows[i], addresses)
    ensures a in Leaders(rows, addresses, n)
    decreases n
  {
    hide LeadersOf;
    if i < n - 1 {
      LeadersContain(rows, addresses, n - 1, i, a);
    }
  }

  lemma {:induction false} FirstLeads(rows: seq<Row>, addresses: set<int>, n: nat)
    requires n <= |rows| && rows != []
    ensures rows[0].addr in Leaders(rows, addresses, n)
  {
    if n > 0 {
      FirstLeads(rows, addresses, n - 1);
    }
  }

  lemma InListing(rows: seq<Row>, i: nat)
    requires Listing(rows) && i < |rows|
    ensures rows[i].addr in Addresses(rows)
    ensures rows[i].addr + 4 in Addresses(rows) <==> i + 1 < |rows|
  {
    if i + 1 < |rows| {
      assert rows[i + 1].addr == rows[i].addr + 4;
    }
  }

  // Only the last row of a block can branch away or return.
  lemma OnlyLastBranches(rows: seq<Row>, j: nat, k: nat)
    requires rows != [] && Listing(rows)
    requires var b := Blocks(rows, Leaders(rows, Addresses(rows), |rows|), |rows|);
      j < |b| && k + 1 < |b[j].rows|
    ensures var b := Blocks(rows, Leaders(rows, Addresses(rows), |rows|), |rows|);
      !Branches(b[j].rows[k].instr)
  {
    hide LeadersOf, AppendRow;
    var addresses := Addresses(rows);
    var leaders := Leaders(rows, addresses, |rows|);
    var b := Blocks(rows, leaders, |rows|);
    FirstLeads(rows, addresses, |rows|);
    BlocksPartition(rows, leaders, |rows|);
    assert Spans(rows, leaders, b, j);
    var i := Offset(b, j) + k;
    assert b[j].rows[k] == rows[i];
    InListing(rows, i);
    assert rows[i + 1].addr == rows[i].addr + 4;
    KindsMean(rows[i].instr);
    if KindOf(rows[i].instr) != None {
      FollowsBranch(rows[i], addresses);
      LeadersContain(rows, addresses, |rows|, i, rows[i].addr + 4);
    }
  }

  lemma FollowsBranch(row: Row, addresses: set<int>)
    requires KindOf(row.instr) != None
    ensures row.addr + 4 in addresses ==> row.addr + 4 in LeadersOf(row, addresses)
    ensures TargetOf(row.instr).Some? && TargetOf(row.instr).value in addresses ==>
      TargetOf(row.instr).value in LeadersOf(row, addresses)
  {
  }

  ghost predicate StartsBlock(blocks: seq<Block>, a: int) {
    exists j :: 0 <= j < |blocks| && blocks[j].addr == a
  }

  lemma {:induction false} OffsetFind(blocks: seq<Block>, n: nat, i: nat) returns (j: nat)
    requires n <= |blocks| && i < Offset(blocks, n)
    ensures j < n && Offset(blocks, j) <= i < Offset(blocks, j) + |blocks[j].rows|
    decreases n
  {
    if Offset(blocks, n - 1) <= i {
      j := n - 1;
    } else {
      j := OffsetFind(blocks, n - 1, i);
    }
  }

  // A row whose address leads starts a block.
  lemma LeaderStarts(rows: seq<Row>, leaders: set<int>, blocks: seq<Block>, i: nat)
    requires Partition(rows, leaders, blocks, |rows|) && i < |rows| && rows[i].addr in leaders
    ensures StartsBlock(blocks, rows[i].addr)
  {
    var j := OffsetFind(blocks, |blocks|, i);
    assert Spans(rows, leaders, blocks, j);
    assert blocks[j].addr == rows[i].addr;
  }

  lemma {:induction false} EdgesContain(blocks: seq<Block>, addresses: set<int>, observed: seq<(int, int)>, n: nat, j: nat, e: Edge)
    requires j < n <= |blocks| && NonEmpty(blocks) && e in EdgesOf(blocks[j], addresses, observed)
    ensures e in Edges(blocks, addresses, observed, n)
    decreases n
  {
    hide EdgesOf;
    if j < n - 1 {
      EdgesContain(blocks, addresses, observed, n - 1, j, e);
    }
  }

  // The edges of a block include every way its last row can go within the listing.
  lemma LastRowEdges(b: Block, addresses: set<int>, observed: seq<(int, int)>, a: int)
    requires b.rows != [] && Goes(b.rows[|b.rows| - 1], a) && a in addresses
    ensures LeadsTo(EdgesOf(b, addresses, observed), b.addr, a)
  {
    var last := b.rows[|b.rows| - 1];
    if TargetOf(last.instr) == Some(a) {
      var kind := if KindOf(last.instr) == Some(Conditional) then Taken else Jumped;
      assert Edge(b.addr, Some(a), kind, Decoded) in EdgesOf(b, addresses, observed);
    } else {
      assert Edge(b.addr, Some(a), Fallthrough, Decoded) in EdgesOf(b, addresses, observed);
    }
  }

  // A decoded edge joins the two addresses.
  ghost predicate LeadsTo(edges: seq<Edge>, from: int, to: int) {
    exists e :: e in edges && e.from == from && e.to == Some(to) && e.source == Decoded
  }

  // Every way a row can go within the listing is there: it is the next row of the same block, or the
  // row is the last of its block, a decoded edge leads there, and a block starts there.
  lemma FlowCovered(rows: seq<Row>, observed: seq<(int, int)>, i: nat, a: int) returns (j: nat)
    requires rows != [] && Listing(rows) && i < |rows| && Goes(rows[i], a) && a in Addresses(rows)
    ensures var addresses := Addresses(rows);
      var blocks := Blocks(rows, Leaders(rows, addresses, |rows|), |rows|);
      && NonEmpty(blocks) && j < |blocks|
      && Offset(blocks, j) <= i < Offset(blocks, j) + |blocks[j].rows| && rows[i] == blocks[j].rows[i - Offset(blocks, j)]
      && Offset(blocks, j) + |blocks[j].rows| <= |rows|
      && (if i + 1 < Offset(blocks, j) + |blocks[j].rows| then a == rows[i + 1].addr
          else StartsBlock(blocks, a) && LeadsTo(Edges(blocks, addresses, observed, |blocks|), blocks[j].addr, a))
  {
    hide LeadersOf, AppendRow, EdgesOf, Edges, Goes, Partition;
    var addresses := Addresses(rows);
    var leaders := Leaders(rows, addresses, |rows|);
    var blocks := Blocks(rows, leaders, |rows|);
    FirstLeads(rows, addresses, |rows|);
    BlocksPartition(rows, leaders, |rows|);
    BlocksNonEmpty(rows, leaders, |rows|);
    j := BlockOf(rows, leaders, blocks, i);
    var s := Offset(blocks, j);
    if i + 1 < s + |blocks[j].rows| {
      OnlyLastBranches(rows, j, i - s);
      KindsMean(rows[i].instr);
      assert rows[i + 1].addr == rows[i].addr + 4;
      PlainGoes(rows[i], a);
    } else {
      GoesToLeader(rows, leaders, blocks, j, i, a);
      LastRowEdges(blocks[j], addresses, observed, a);
      var e :| e in EdgesOf(blocks[j], addresses, observed) && e.from == blocks[j].addr && e.to == Some(a) && e.source == Decoded;
      EdgesContain(blocks, addresses, observed, |blocks|, j, e);
    }
  }

  lemma BlockOf(rows: seq<Row>, leaders: set<int>, blocks: seq<Block>, i: nat) returns (j: nat)
    requires Partition(rows, leaders, blocks, |rows|) && i < |rows|
    ensures j < |blocks| && Offset(blocks, j) <= i < Offset(blocks, j) + |blocks[j].rows|
    ensures rows[i] == blocks[j].rows[i - Offset(blocks, j)] && Offset(blocks, j) + |blocks[j].rows| <= |rows|
  {
    j := OffsetFind(blocks, |blocks|, i);
    assert Spans(rows, leaders, blocks, j);
  }

  lemma PlainGoes(row: Row, a: int)
    requires KindOf(row.instr) == None && Goes(row, a)
    ensures a == row.addr + 4
  {
  }

  lemma {:induction false} GoesToLeader(rows: seq<Row>, leaders: set<int>, blocks: seq<Block>, j: nat, i: nat, a: int)
    requires rows != [] && Listing(rows) && leaders == Leaders(rows, Addresses(rows), |rows|)
    requires Partition(rows, leaders, blocks, |rows|) && j < |blocks| && i + 1 == Offset(blocks, j) + |blocks[j].rows|
    requires i < |rows| && Goes(rows[i], a) && a in Addresses(rows)
    ensures StartsBlock(blocks, a)
  {
    hide LeadersOf;
    var addresses := Addresses(rows);
    InListing(rows, i);
    var n :| 0 <= n < |rows| && rows[n].addr == a;
    if KindOf(rows[i].instr) != None {
      FollowsBranch(rows[i], addresses);
      LeadersContain(rows, addresses, |rows|, i, a);
      LeaderStarts(rows, leaders, blocks, n);
    } else {
      PlainGoes(rows[i], a);
      assert n == i + 1;
      NextBlock(rows, leaders, blocks, j);
    }
  }

  lemma NextBlock(rows: seq<Row>, leaders: set<int>, blocks: seq<Block>, j: nat)
    requires Partition(rows, leaders, blocks, |rows|) && j < |blocks|
    requires Offset(blocks, j) + |blocks[j].rows| < |rows|
    ensures StartsBlock(blocks, rows[Offset(blocks, j) + |blocks[j].rows|].addr)
  {
    assert j + 1 < |blocks| by {
      assert Offset(blocks, j + 1) == Offset(blocks, j) + |blocks[j].rows|;
    }
    assert Spans(rows, leaders, blocks, j + 1);
    assert blocks[j + 1].addr == rows[Offset(blocks, j + 1)].addr;
  }

  // The edges a block should have: where its last row branches to, kinds told apart, what was observed of an
  // indirect one or that nothing was, and the next address when control can pass there within the listing.
  predicate Expected(b: Block, addresses: set<int>, observed: seq<(int, int)>, e: Edge)
    requires b.rows != []
  {
    var last := b.rows[|b.rows| - 1];
    && e.from == b.addr
    && match e.source
       case Unresolved =>
         (last.instr.JumpReg? || last.instr.CallReg?) && e.to == None && e.kind == Indirect
         && forall k | 0 <= k < |observed| :: observed[k].0 != last.addr
       case Observed =>
         (last.instr.JumpReg? || last.instr.CallReg?) && e.to.Some? && e.kind == Indirect
         && (last.addr as int, e.to.value) in observed
       case Decoded =>
         (last.instr.Jump? && e.to == last.instr.target && e.kind == Jumped)
         || (last.instr.BranchIf? && e.to == last.instr.target && e.kind == Taken)
         || (FallsThrough(last.instr) && last.addr + 4 in addresses && e.to == Some(last.addr + 4) && e.kind == Fallthrough)
  }

  // No edge is invented and none is missing.
  lemma EdgesExact(b: Block, addresses: set<int>, observed: seq<(int, int)>, e: Edge)
    requires b.rows != []
    ensures e in EdgesOf(b, addresses, observed) <==> Expected(b, addresses, observed, e)
  {
    hide EdgesOf, Expected;
    var last := b.rows[|b.rows| - 1];
    if last.instr.JumpReg? || last.instr.CallReg? {
      IndirectExact(b, addresses, observed, e);
    } else {
      DirectExact(b, addresses, observed, e);
    }
  }

  lemma DirectExact(b: Block, addresses: set<int>, observed: seq<(int, int)>, e: Edge)
    requires b.rows != []
    requires var i := b.rows[|b.rows| - 1].instr; !i.JumpReg? && !i.CallReg?
    ensures e in EdgesOf(b, addresses, observed) <==> Expected(b, addresses, observed, e)
  {
  }

  lemma IndirectExact(b: Block, addresses: set<int>, observed: seq<(int, int)>, e: Edge)
    requires b.rows != []
    requires var i := b.rows[|b.rows| - 1].instr; i.JumpReg? || i.CallReg?
    ensures e in EdgesOf(b, addresses, observed) <==> Expected(b, addresses, observed, e)
  {
    hide IndirectEdges, Destinations;
    ObservedExact(b.addr, observed, b.rows[|b.rows| - 1].addr, e);
  }

  // What is said of an indirect branch at `addr`.
  lemma ObservedExact(from: int, observed: seq<(int, int)>, addr: int, e: Edge)
    ensures var targets := Destinations(observed, addr);
      e in (if targets == [] then [Edge(from, None, Indirect, Unresolved)] else IndirectEdges(from, targets))
      <==> e.from == from && e.kind == Indirect
           && ((e.source == Unresolved && e.to == None && forall k | 0 <= k < |observed| :: observed[k].0 != addr)
               || (e.source == Observed && e.to.Some? && (addr, e.to.value) in observed))
  {
    hide IndirectEdges, Destinations;
    NoneObserved(observed, addr);
    IndirectOnly(from, Destinations(observed, addr), e);
    if e.to.Some? {
      DestinationsObserved(observed, addr, e.to.value);
    }
  }

  lemma {:induction false} NoneObserved(observed: seq<(int, int)>, addr: int)
    ensures Destinations(observed, addr) == [] <==> forall k | 0 <= k < |observed| :: observed[k].0 != addr
  {
    if observed != [] {
      NoneObserved(observed[1..], addr);
    }
  }

  // The last row of the block can go where a decoded edge leads, and an indirect one was observed there.
  lemma EdgesTrue(b: Block, addresses: set<int>, observed: seq<(int, int)>, e: Edge)
    requires b.rows != [] && e in EdgesOf(b, addresses, observed) && e.to.Some?
    ensures e.from == b.addr
    ensures e.source == Decoded ==> Goes(b.rows[|b.rows| - 1], e.to.value)
    ensures e.source == Observed ==> (b.rows[|b.rows| - 1].addr as int, e.to.value) in observed
  {
    EdgesExact(b, addresses, observed, e);
  }

  lemma {:induction false} IndirectOnly(from: int, targets: seq<int>, e: Edge)
    ensures e in IndirectEdges(from, targets) <==>
      e.from == from && e.to.Some? && e.to.value in targets && e.kind == Indirect && e.source == Observed
  {
    if targets != [] {
      IndirectOnly(from, targets[1..], e);
    }
  }

  lemma {:induction false} DestinationsObserved(observed: seq<(int, int)>, addr: int, a: int)
    ensures a in Destinations(observed, addr) <==> (addr, a) in observed
  {
    if observed != [] {
      DestinationsObserved(observed[1..], addr, a);
    }
  }
}
