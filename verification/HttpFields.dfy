// What header fields declare, said of their bytes: the pieces between commas, the blanks around them, and which
// framing follows (RFC 9112, section 6.3), with a refusal for every list of fields that declares none.
module HttpFields {
  import opened Options
  import opened Bytes
  import opened HttpRequests

  // ----- blanks around a word

  predicate Blank(s: string, blanks: set<char>) {
    forall i | 0 <= i < |s| :: s[i] in blanks
  }

  // `s` is `s[a..b]` with blanks around it.
  predicate Around(s: string, a: int, b: int, blanks: set<char>) {
    0 <= a <= b <= |s| && Blank(s[..a], blanks) && Blank(s[b..], blanks)
  }

  predicate Trimmed(s: string, blanks: set<char>) {
    s != "" ==> s[0] !in blanks && s[|s| - 1] !in blanks
  }

  lemma {:induction false} StripSplits(s: string, blanks: set<char>) returns (a: int, b: int)
    ensures Around(s, a, b, blanks) && s[a..b] == Strip(s, blanks) && Trimmed(Strip(s, blanks), blanks)
    decreases |s|
  {
    hide Blank;
    if s != "" && s[0] in blanks {
      a, b := StripSplits(s[1..], blanks);
      LongerFront(s, a, b, blanks);
      a, b := a + 1, b + 1;
    } else if s != "" && s[|s| - 1] in blanks {
      a, b := StripSplits(s[..|s| - 1], blanks);
      LongerBack(s, a, b, blanks);
    } else {
      a, b := 0, |s|;
      WholeAround(s, blanks);
    }
  }

  lemma WholeAround(s: string, blanks: set<char>)
    ensures Around(s, 0, |s|, blanks) && s[0..|s|] == s
  {
  }

  lemma LongerFront(s: string, a: int, b: int, blanks: set<char>)
    requires s != "" && s[0] in blanks && Around(s[1..], a, b, blanks)
    ensures Around(s, a + 1, b + 1, blanks) && s[1..][a..b] == s[a + 1..b + 1]
  {
    assert s[1..][b..] == s[b + 1..];
    assert s[..a + 1] == [s[0]] + s[1..][..a];
  }

  lemma LongerBack(s: string, a: int, b: int, blanks: set<char>)
    requires s != "" && s[|s| - 1] in blanks && Around(s[..|s| - 1], a, b, blanks)
    ensures Around(s, a, b, blanks) && s[..|s| - 1][a..b] == s[a..b]
  {
    assert s[..|s| - 1][..a] == s[..a];
    assert s[b..] == s[..|s| - 1][b..] + [s[|s| - 1]];
  }

  // Without blanks at its ends, the word between blanks is what stripping leaves.
  lemma {:induction false} StripFinds(s: string, a: int, b: int, blanks: set<char>)
    requires Around(s, a, b, blanks) && a < b && Trimmed(s[a..b], blanks)
    ensures Strip(s, blanks) == s[a..b]
    decreases |s|
  {
    if a > 0 {
      ShorterFront(s, a, b, blanks);
      StripFinds(s[1..], a - 1, b - 1, blanks);
    } else if b < |s| {
      ShorterBack(s, b, blanks);
      StripFinds(s[..|s| - 1], 0, b, blanks);
    } else {
      assert s[0..|s|] == s;
    }
  }

  lemma ShorterFront(s: string, a: int, b: int, blanks: set<char>)
    requires Around(s, a, b, blanks) && 0 < a < b
    ensures s[0] in blanks && Around(s[1..], a - 1, b - 1, blanks) && s[1..][a - 1..b - 1] == s[a..b]
  {
    assert s[0] == s[..a][0];
    assert s[1..][..a - 1] == s[..a][1..] && s[1..][b - 1..] == s[b..];
  }

  lemma ShorterBack(s: string, b: int, blanks: set<char>)
    requires Around(s, 0, b, blanks) && 0 < b < |s| && Trimmed(s[0..b], blanks)
    ensures s[0] !in blanks && s[|s| - 1] in blanks
    ensures Around(s[..|s| - 1], 0, b, blanks) && s[..|s| - 1][0..b] == s[0..b]
  {
    assert s[0] == s[0..b][0];
    assert s[|s| - 1] == s[b..][|s| - 1 - b];
    assert s[..|s| - 1][b..] == s[b..][..|s| - 1 - b] && s[..|s| - 1][..0] == [];
  }

  // ----- pieces between commas

  predicate Piece(v: string, from: int, to: int) {
    0 <= from <= to <= |v| && (from == 0 || v[from - 1] == ',') && (to == |v| || v[to] == ',')
    && forall k | from <= k < to :: v[k] != ','
  }

  // `item` is what stands between two commas of `v`, or a comma and an end of it.
  ghost predicate IsPiece(v: string, item: string) {
    exists from, to :: Piece(v, from, to) && v[from..to] == item
  }

  lemma PiecesListed(v: string, item: string)
    ensures item in Split(v, ",") <==> IsPiece(v, item)
  {
    hide Split;
    if item in Split(v, ",") {
      var from, to := ListedPiece(v, item);
    }
    if IsPiece(v, item) {
      var from, to :| Piece(v, from, to) && v[from..to] == item;
      PieceListed(v, from, to);
    }
  }

  lemma CommaAt(s: string, i: nat)
    ensures At(s, i, ",") <==> i < |s| && s[i] == ','
  {
    if i < |s| {
      assert s[i..i + 1] == [s[i]];
    }
  }

  // The piece before the first comma, and the rest.
  lemma FirstPiece(v: string) returns (p: nat)
    ensures p <= |v| && v[..p] == Partition(v, ",").head && (forall k | 0 <= k < p :: v[k] != ',')
    ensures Partition(v, ",").found <==> p < |v|
    ensures p < |v| ==> v[p] == ',' && v[p + 1..] == Partition(v, ",").tail
  {
    var i := Find(v, ",");
    forall k: nat | k < |v| ensures At(v, k, ",") <==> v[k] == ',' {
      CommaAt(v, k);
    }
    p := if i < 0 then |v| else i;
    if i >= 0 {
      CommaAt(v, i);
    } else {
      assert v[..p] == v;
    }
  }

  lemma {:induction false} PieceListed(v: string, from: int, to: int)
    requires Piece(v, from, to)
    ensures v[from..to] in Split(v, ",")
    decreases |v|
  {
    hide Partition;
    var p := FirstPiece(v);
    if p == |v| {
      assert from == 0 && to == |v|;
      assert v[0..|v|] == v;
    } else if from == 0 {
      assert to == p;
      assert v[0..p] == v[..p];
    } else {
      assert from > p;
      var rest := v[p + 1..];
      assert rest[from - p - 1..to - p - 1] == v[from..to];
      assert from - p - 1 > 0 ==> rest[from - p - 2] == v[from - 1];
      PieceListed(rest, from - p - 1, to - p - 1);
    }
  }

  lemma {:induction false} ListedPiece(v: string, item: string) returns (from: int, to: int)
    requires item in Split(v, ",")
    ensures Piece(v, from, to) && v[from..to] == item
    decreases |v|
  {
    hide Partition;
    var p := FirstPiece(v);
    HeadPiece(v, p);
    if item == v[..p] {
      from, to := 0, p;
    } else {
      from, to := ListedPiece(v[p + 1..], item);
      ShiftedPiece(v, p, from, to);
      from, to := from + p + 1, to + p + 1;
    }
  }

  lemma HeadPiece(v: string, p: nat)
    requires p <= |v| && (p < |v| ==> v[p] == ',') && forall k | 0 <= k < p :: v[k] != ','
    ensures Piece(v, 0, p) && v[0..p] == v[..p] && v[..|v|] == v
  {
  }

  lemma ShiftedPiece(v: string, p: nat, from: int, to: int)
    requires p < |v| && v[p] == ',' && Piece(v[p + 1..], from, to)
    ensures Piece(v, from + p + 1, to + p + 1) && v[p + 1..][from..to] == v[from + p + 1..to + p + 1]
  {
    var rest := v[p + 1..];
    assert forall k | 0 <= k < |rest| :: rest[k] == v[k + p + 1];
    forall k | from + p + 1 <= k < to + p + 1 ensures v[k] != ',' {
      assert rest[k - p - 1] != ',';
    }
  }

  // ----- members of field values

  lemma {:induction false} StripAllHas(items: seq<string>, m: string)
    ensures m in StripAll(items) <==> exists i :: 0 <= i < |items| && m == Strip(items[i], WHITESPACE)
  {
    if items != [] {
      StripAllHas(items[1..], m);
      assert forall i :: 1 <= i < |items| ==> items[i] == items[1..][i - 1];
      assert forall i :: 0 <= i < |items[1..]| ==> items[1..][i] == items[i + 1];
    }
  }

  ghost predicate MemberOf(v: string, m: string) {
    exists item :: IsPiece(v, item) && m == Strip(item, WHITESPACE)
  }

  lemma MemberListed(v: string, m: string)
    ensures m in StripAll(Split(v, ",")) <==> MemberOf(v, m)
  {
    hide Strip, Split, IsPiece;
    var items := Split(v, ",");
    StripAllHas(items, m);
    if m in StripAll(items) {
      var i :| 0 <= i < |items| && m == Strip(items[i], WHITESPACE);
      PiecesListed(v, items[i]);
    }
    if MemberOf(v, m) {
      var item :| IsPiece(v, item) && m == Strip(item, WHITESPACE);
      PiecesListed(v, item);
      var i :| 0 <= i < |items| && items[i] == item;
    }
  }

  lemma {:induction false} MembersHas(values: seq<string>, m: string)
    ensures m in Members(values) <==> exists i :: 0 <= i < |values| && MemberOf(values[i], m)
  {
    hide MemberOf, StripAll, Split;
    if values != [] {
      MembersHas(values[1..], m);
      MemberListed(values[0], m);
      assert forall i :: 1 <= i < |values| ==> values[i] == values[1..][i - 1];
      assert forall i :: 0 <= i < |values[1..]| ==> values[1..][i] == values[i + 1];
    }
  }

  ghost predicate Has(headers: seq<Header>, name: string) {
    exists i :: 0 <= i < |headers| && Lower(headers[i].name) == name
  }

  lemma {:induction false} ValuesHas(headers: seq<Header>, name: string, v: string)
    ensures v in Values(headers, name)
        <==> exists i :: 0 <= i < |headers| && Lower(headers[i].name) == name && headers[i].value == v
  {
    hide Lower;
    if headers != [] {
      ValuesHas(headers[1..], name, v);
      assert forall i :: 1 <= i < |headers| ==> headers[i] == headers[1..][i - 1];
      assert forall i :: 0 <= i < |headers[1..]| ==> headers[1..][i] == headers[i + 1];
    }
  }

  lemma ValuesNone(headers: seq<Header>, name: string)
    ensures Values(headers, name) == [] <==> !Has(headers, name)
  {
    hide Lower;
    if Values(headers, name) != [] {
      var v := Values(headers, name)[0];
      assert v in Values(headers, name);
      ValuesHas(headers, name, v);
    }
    if Has(headers, name) {
      var i :| 0 <= i < |headers| && Lower(headers[i].name) == name;
      ValuesHas(headers, name, headers[i].value);
    }
  }

  // One field of the name, and no other.
  ghost predicate Only(headers: seq<Header>, name: string, i: int) {
    0 <= i < |headers| && Lower(headers[i].name) == name
    && forall j :: 0 <= j < |headers| && Lower(headers[j].name) == name ==> j == i
  }

  lemma {:induction false} ValuesCount(headers: seq<Header>, name: string)
    ensures |Values(headers, name)| == 1 <==> exists i :: Only(headers, name, i)
    ensures forall i :: Only(headers, name, i) ==> Values(headers, name) == [headers[i].value]
  {
    hide Lower;
    if headers != [] {
      var rest := headers[1..];
      ValuesCount(rest, name);
      ValuesNone(rest, name);
      assert forall i :: 1 <= i < |headers| ==> headers[i] == rest[i - 1];
      assert forall i :: 0 <= i < |rest| ==> rest[i] == headers[i + 1];
      if Lower(headers[0].name) == name {
        assert forall i :: Only(headers, name, i) ==> i == 0;
        assert !Has(rest, name) ==> Only(headers, name, 0);
        assert Has(rest, name) ==> forall i :: !Only(headers, name, i);
      } else {
        assert forall i :: Only(headers, name, i) ==> Only(rest, name, i - 1);
        assert forall i :: Only(rest, name, i) ==> Only(headers, name, i + 1);
      }
    }
  }

  // ----- what lengths and codings declare

  // A piece that spells the number `n` in 1 to 19 decimal digits, with blanks around it.
  ghost predicate Reads(piece: string, n: nat) {
    exists a, b :: Around(piece, a, b, WHITESPACE) && 1 <= b - a <= 19
      && (forall k | a <= k < b :: '0' <= piece[k] <= '9') && Number(piece[a..b], 10) == n
  }

  lemma ReadsStripped(piece: string, n: nat)
    ensures Reads(piece, n) <==> IsDecimal(Strip(piece, WHITESPACE)) && Number(Strip(piece, WHITESPACE), 10) == n
  {
    hide Number, Strip, Blank;
    if Reads(piece, n) {
      var a, b :| Around(piece, a, b, WHITESPACE) && 1 <= b - a <= 19
        && (forall k | a <= k < b :: '0' <= piece[k] <= '9') && Number(piece[a..b], 10) == n;
      StripFinds(piece, a, b, WHITESPACE);
    }
    if IsDecimal(Strip(piece, WHITESPACE)) && Number(Strip(piece, WHITESPACE), 10) == n {
      var a, b := StripSplits(piece, WHITESPACE);
      assert forall k | a <= k < b :: piece[k] == piece[a..b][k - a];
    }
  }

  // Every piece of every length field spells `n`.
  ghost predicate DeclaresLength(headers: seq<Header>, n: nat) {
    Has(headers, "content-length")
    && forall i, item :: 0 <= i < |headers| && Lower(headers[i].name) == "content-length" && IsPiece(headers[i].value, item) ==>
         Reads(item, n)
  }

  // The word "chunked" in any case, with blanks around it.
  ghost predicate SpellsChunked(v: string) {
    exists a, b :: Around(v, a, b, WHITESPACE) && Lower(v[a..b]) == "chunked"
  }

  // One coding field, and in it nothing but "chunked".
  ghost predicate DeclaresChunks(headers: seq<Header>) {
    exists i :: Only(headers, "transfer-encoding", i) && SpellsChunked(headers[i].value)
  }

  lemma ChunkedWord(w: string)
    requires Lower(w) == "chunked"
    ensures w != "" && Trimmed(w, WHITESPACE) && ',' !in w
  {
    assert |w| == 7;
    forall i | 0 <= i < |w| ensures w[i] != ',' && w[i] !in WHITESPACE {
      assert LowerChar(w[i]) == "chunked"[i];
    }
  }

  lemma NoCommaAround(v: string, a: int, b: int)
    requires Around(v, a, b, WHITESPACE) && ',' !in v[a..b]
    ensures ',' !in v
  {
    forall k | 0 <= k < |v| ensures v[k] != ',' {
      assert k < a ==> v[k] == v[..a][k];
      assert a <= k < b ==> v[k] == v[a..b][k - a];
      assert b <= k ==> v[k] == v[b..][k - b];
    }
  }

  lemma SpellsStripped(v: string)
    ensures SpellsChunked(v) <==> Lower(Strip(v, WHITESPACE)) == "chunked"
    ensures SpellsChunked(v) ==> ',' !in v
  {
    hide Lower, Strip, Blank, Trimmed;
    if SpellsChunked(v) {
      var a, b :| Around(v, a, b, WHITESPACE) && Lower(v[a..b]) == "chunked";
      ChunkedWord(v[a..b]);
      StripFinds(v, a, b, WHITESPACE);
      NoCommaAround(v, a, b);
    }
    if Lower(Strip(v, WHITESPACE)) == "chunked" {
      var a, b := StripSplits(v, WHITESPACE);
    }
  }

  lemma {:induction false} MembersMany(values: seq<string>)
    ensures |Members(values)| >= |values|
  {
    if values != [] {
      StripAllSize(Split(values[0], ","));
      MembersMany(values[1..]);
    }
  }

  lemma {:induction false} StripAllSize(items: seq<string>)
    ensures |StripAll(items)| == |items|
  {
    if items != [] {
      StripAllSize(items[1..]);
    }
  }

  lemma {:induction false} LowerAllSize(items: seq<string>)
    ensures |LowerAll(items)| == |items|
  {
    if items != [] {
      LowerAllSize(items[1..]);
    }
  }

  lemma NoComma(v: string)
    requires ',' !in v
    ensures Split(v, ",") == [v]
  {
    PartitionNone(v, ",");
  }

  lemma OnePiece(v: string)
    requires |Split(v, ",")| == 1
    ensures Split(v, ",") == [v]
  {
    hide Partition;
  }

  // The members of some coding fields are the one coding chunked.
  lemma CodingExact(values: seq<string>)
    requires values != []
    ensures LowerAll(Members(values)) == ["chunked"] <==> |values| == 1 && SpellsChunked(values[0])
  {
    hide Lower, Strip, Split, SpellsChunked;
    SpellsStripped(values[0]);
    LowerAllSize(Members(values));
    MembersMany(values);
    if |values| == 1 {
      assert values[1..] == [] && Members(values) == StripAll(Split(values[0], ","));
      StripAllSize(Split(values[0], ","));
      if |Members(values)| == 1 {
        OnePiece(values[0]);
        OneStripped(values[0]);
      } else if ',' !in values[0] {
        NoComma(values[0]);
      }
    }
  }

  lemma OneStripped(v: string)
    ensures StripAll([v]) == [Strip(v, WHITESPACE)]
    ensures LowerAll([Strip(v, WHITESPACE)]) == [Lower(Strip(v, WHITESPACE))]
  {
    assert [v][1..] == [];
  }

  // ----- the framing

  // The refusal a list of fields asks for: both kinds of field, a coding that is not chunked alone, or a length
  // that cannot be read or differs from another.
  ghost predicate Refuses(headers: seq<Header>, fault: Fault) {
    var sized, coded := Has(headers, "content-length"), Has(headers, "transfer-encoding");
    if sized && coded then fault == ConflictingFraming
    else if coded then fault == UnsupportedCoding && !DeclaresChunks(headers)
    else sized && fault == InvalidLength && forall n: nat :: !DeclaresLength(headers, n)
  }

  // The framing a list of fields declares; without either field there is no body.
  ghost predicate Declares(headers: seq<Header>, framing: Framing) {
    match framing
    case ChunkedCoding => DeclaresChunks(headers) && !Has(headers, "content-length")
    case FixedLength(n) =>
      !Has(headers, "transfer-encoding") && if Has(headers, "content-length") then DeclaresLength(headers, n) else n == 0
  }

  lemma LengthRead(headers: seq<Header>, n: nat)
    requires Has(headers, "content-length")
    ensures DeclaresLength(headers, n) <==>
      forall m :: m in Members(Values(headers, "content-length")) ==> IsDecimal(m) && Number(m, 10) == n
  {
    hide Lower, Strip, Number, Members, Values, Reads, IsPiece, IsDecimal;
    var members := Members(Values(headers, "content-length"));
    if DeclaresLength(headers, n) {
      forall m | m in members ensures IsDecimal(m) && Number(m, 10) == n {
        var i, item := ReadMember(headers, "content-length", m);
        ReadsStripped(item, n);
      }
    }
    if forall m :: m in members ==> IsDecimal(m) && Number(m, 10) == n {
      forall i, item | 0 <= i < |headers| && Lower(headers[i].name) == "content-length" && IsPiece(headers[i].value, item)
        ensures Reads(item, n)
      {
        MemberRead(headers, "content-length", i, item);
        ReadsStripped(item, n);
      }
    }
  }

  // Members are the pieces of the fields of the name, stripped.
  lemma ReadMember(headers: seq<Header>, name: string, m: string) returns (i: int, item: string)
    requires m in Members(Values(headers, name))
    ensures 0 <= i < |headers| && Lower(headers[i].name) == name && IsPiece(headers[i].value, item)
    ensures m == Strip(item, WHITESPACE)
  {
    hide Lower, Strip, Members, Values, IsPiece;
    var values := Values(headers, name);
    MembersHas(values, m);
    var k :| 0 <= k < |values| && MemberOf(values[k], m);
    ValuesHas(headers, name, values[k]);
    i :| 0 <= i < |headers| && Lower(headers[i].name) == name && headers[i].value == values[k];
    item :| IsPiece(values[k], item) && m == Strip(item, WHITESPACE);
  }

  lemma MemberRead(headers: seq<Header>, name: string, i: int, item: string)
    requires 0 <= i < |headers| && Lower(headers[i].name) == name && IsPiece(headers[i].value, item)
    ensures Strip(item, WHITESPACE) in Members(Values(headers, name))
  {
    hide Lower, Strip, Members, Values, IsPiece;
    var values, v := Values(headers, name), headers[i].value;
    ValuesHas(headers, name, v);
    var k :| 0 <= k < |values| && values[k] == v;
    assert MemberOf(values[k], Strip(item, WHITESPACE));
    MembersHas(values, Strip(item, WHITESPACE));
  }

  // Every length field has a piece.
  lemma SomeMember(headers: seq<Header>)
    requires Has(headers, "content-length")
    ensures Members(Values(headers, "content-length")) != []
  {
    hide Lower, Members;
    ValuesNone(headers, "content-length");
    MembersMany(Values(headers, "content-length"));
  }

  lemma LengthExact(headers: seq<Header>, framing: Framing, fault: Fault)
    requires Has(headers, "content-length") && !Has(headers, "transfer-encoding")
    ensures FramingOf(headers) == Ok(framing) <==> Declares(headers, framing)
    ensures FramingOf(headers) == Raised(fault) <==> Refuses(headers, fault)
  {
    hide Lower, Members, Values, DeclaresLength, Number, IsDecimal, Has, DeclaresChunks;
    var numbers := Members(Values(headers, "content-length"));
    ValuesNone(headers, "content-length");
    ValuesNone(headers, "transfer-encoding");
    NotChunked(headers);
    SomeMember(headers);
    var first := Number(numbers[0], 10);
    assert numbers[0] in numbers;
    forall n: nat ensures DeclaresLength(headers, n) <==> FramingOf(headers) == Ok(FixedLength(n)) {
      LengthRead(headers, n);
      if DeclaresLength(headers, n) {
        assert forall i | 0 <= i < |numbers| :: numbers[i] in numbers;
      }
    }
  }

  lemma NotChunked(headers: seq<Header>)
    requires !Has(headers, "transfer-encoding")
    ensures !DeclaresChunks(headers)
  {
  }

  lemma CodedExact(headers: seq<Header>)
    requires Has(headers, "transfer-encoding")
    ensures LowerAll(Members(Values(headers, "transfer-encoding"))) == ["chunked"] <==> DeclaresChunks(headers)
  {
    hide Lower, Members, Values, SpellsChunked;
    var values := Values(headers, "transfer-encoding");
    ValuesNone(headers, "transfer-encoding");
    ValuesCount(headers, "transfer-encoding");
    CodingExact(values);
  }

  // Every list of fields either declares a framing, and this one is used, or is refused for the reason it gives.
  lemma FramingExact(headers: seq<Header>, framing: Framing, fault: Fault)
    ensures FramingOf(headers) == Ok(framing) <==> Declares(headers, framing)
    ensures FramingOf(headers) == Raised(fault) <==> Refuses(headers, fault)
  {
    hide Lower, Members, Values, DeclaresLength, DeclaresChunks, Has, Number, IsDecimal;
    ValuesNone(headers, "content-length");
    ValuesNone(headers, "transfer-encoding");
    if Has(headers, "transfer-encoding") {
      CodedExact(headers);
    } else {
      NotChunked(headers);
      if Has(headers, "content-length") {
        LengthExact(headers, framing, fault);
      } else {
        NoNumbers();
      }
    }
  }

  lemma NoNumbers()
    ensures Members([]) == []
  {
  }

  // ----- warnings and the type of the body

  // A content coding other than identity is named.
  ghost predicate Coded(headers: seq<Header>) {
    exists i, item :: 0 <= i < |headers| && Lower(headers[i].name) == "content-encoding" && IsPiece(headers[i].value, item)
      && Lower(Strip(item, WHITESPACE)) != "identity"
  }

  lemma {:induction false} LowerAllHas(items: seq<string>, w: string)
    ensures (exists i :: 0 <= i < |LowerAll(items)| && LowerAll(items)[i] != w) <==> exists m :: m in items && Lower(m) != w
  {
    hide Lower;
    if items != [] {
      LowerAllHas(items[1..], w);
      var low, rest := LowerAll(items), LowerAll(items[1..]);
      assert low == [Lower(items[0])] + rest;
      assert forall i :: 0 <= i < |rest| ==> rest[i] == low[i + 1];
      if exists m :: m in items && Lower(m) != w {
        var m :| m in items && Lower(m) != w;
        assert m == items[0] || m in items[1..];
        assert m == items[0] ==> low[0] != w;
      }
      if exists i :: 0 <= i < |low| && low[i] != w {
        var i :| 0 <= i < |low| && low[i] != w;
        assert i == 0 ==> items[0] in items;
        assert i > 0 ==> rest[i - 1] != w;
      }
    }
  }

  lemma CodedExactly(headers: seq<Header>)
    ensures IsEncoded(headers) <==> Coded(headers)
  {
    hide Lower, Strip, Members, Values, IsPiece, LowerAll;
    var members := Members(Values(headers, "content-encoding"));
    LowerAllHas(members, "identity");
    if IsEncoded(headers) {
      var m :| m in members && Lower(m) != "identity";
      var i, item := ReadMember(headers, "content-encoding", m);
    }
    if Coded(headers) {
      var i, item :| 0 <= i < |headers| && Lower(headers[i].name) == "content-encoding" && IsPiece(headers[i].value, item)
        && Lower(Strip(item, WHITESPACE)) != "identity";
      MemberRead(headers, "content-encoding", i, item);
    }
  }

  // The body's type is that of the only type field, unless the body is coded; several type fields and a coded
  // body are warned of, in this order, and nothing else is.
  lemma TypeExact(headers: seq<Header>, i: int)
    ensures Only(headers, "content-type", i) && !Coded(headers) ==> ContentType(headers) == headers[i].value
    ensures (forall j :: !Only(headers, "content-type", j)) || Coded(headers) ==> ContentType(headers) == ""
    ensures HeaderWarnings(headers)
         == (if Has(headers, "content-type") && (forall j :: !Only(headers, "content-type", j)) then [MultipleContentTypes] else [])
            + (if Coded(headers) then [EncodedBody] else [])
  {
    hide Lower, Values, IsEncoded, Coded;
    CodedExactly(headers);
    ValuesCount(headers, "content-type");
    ValuesNone(headers, "content-type");
  }
}
