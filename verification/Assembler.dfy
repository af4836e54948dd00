// Assembling a listing: one pass lays the lines out and collects labels, a second one encodes the
// relative instructions and hands the rest to the compiler, and the words are spliced into its code.
module Assembler {
  import opened Options
  import opened RelativeCode

  const MAX_SOURCE: nat := 16384
  const MAX_LINES: nat := 256

  datatype Target = Symbol(name: string) | Number(value: int)

  // A stripped source line. `Malformed` stands for directives and lines that are no instruction.
  datatype Line =
    | Label(name: string)
    | Plain(text: string)
    | Relative(op: Operation, target: Target)
    | Malformed

  datatype Placed = Placed(pc: int, line: Line)

  datatype Outcome = Code(bytes: seq<int>) | Error

  // What the compiler makes of a listing, when it accepts it and leaves nothing to relocate.
  type Compiler = seq<string> -> Option<seq<int>>

  predicate Emits(line: Line) {
    line.Plain? || line.Relative?
  }

  // ----- the layout

  // How many instructions come before line `i`.
  function Place(lines: seq<Line>, i: nat): (n: nat)
    requires i <= |lines|
    ensures n <= i
  {
    if i == 0 then 0 else Place(lines, i - 1) + (if Emits(lines[i - 1]) then 1 else 0)
  }

  function Pc(lines: seq<Line>, address: int, i: nat): int
    requires i <= |lines|
  {
    address + 4 * Place(lines, i)
  }

  function Labels(lines: seq<Line>, address: int, n: nat): map<string, int>
    requires n <= |lines|
  {
    if n == 0 then map[]
    else
      var earlier := Labels(lines, address, n - 1);
      if lines[n - 1].Label? then earlier[lines[n - 1].name := Pc(lines, address, n - 1)] else earlier
  }

  function Layout(lines: seq<Line>, address: int, n: nat): (r: seq<Placed>)
    requires n <= |lines|
    ensures |r| == Place(lines, n)
  {
    if n == 0 then []
    else
      Layout(lines, address, n - 1)
      + (if Emits(lines[n - 1]) then [Placed(Pc(lines, address, n - 1), lines[n - 1])] else [])
  }

  predicate Defined(lines: seq<Line>, n: nat, name: string)
    requires n <= |lines|
  {
    exists k :: 0 <= k < n && lines[k] == Label(name)
  }

  // The first `n` lines are well formed and define no label twice.
  predicate Tidy(lines: seq<Line>, n: nat)
    requires n <= |lines|
  {
    && (forall k :: 0 <= k < n ==> lines[k] != Malformed)
    && forall j, k :: 0 <= j < k < n && lines[j].Label? ==> lines[j] != lines[k]
  }

  // ----- one instruction

  function Find(names: map<string, int>, name: string): Option<int> {
    if name in names then Some(names[name]) else None
  }

  // Labels of the listing come before the symbols of the program.
  function Destination(target: Target, labels: map<string, int>, resolve: map<string, int>): Option<int> {
    match target
    case Number(value) => Some(value)
    case Symbol(name) => if name in labels then Some(labels[name]) else Find(resolve, name)
  }

  function WordOf(p: Placed, labels: map<string, int>, resolve: map<string, int>): Option<int> {
    if !p.line.Relative? then None
    else
      match Destination(p.line.target, labels, resolve)
      case None => None
      case Some(destination) =>
        var r := Encode(p.line.op, p.pc, destination);
        if r.Word? then Some(r.word) else None
  }

  function TextOf(line: Line): string {
    if line.Plain? then line.text else "nop"
  }

  function Listing(layout: seq<Placed>): (r: seq<string>)
    ensures |r| == |layout|
  {
    if layout == [] then []
    else Listing(layout[..|layout| - 1]) + [TextOf(layout[|layout| - 1].line)]
  }

  function LittleEndian(word: int): seq<int> {
    [word % 256, word / 256 % 256, word / 65536 % 256, word / 16777216 % 256]
  }

  // The word at byte `k` of some code.
  function WordAt(code: seq<int>, k: nat): int
    requires k + 4 <= |code|
  {
    code[k] + 256 * code[k + 1] + 65536 * code[k + 2] + 16777216 * code[k + 3]
  }

  lemma LittleEndianInverse(word: int)
    requires IsWord(word)
    ensures WordAt(LittleEndian(word), 0) == word
  {
    var a := word / 256;
    var b := a / 256;
    assert word / 65536 == b && word / 16777216 == b / 256;
    assert word == 256 * a + word % 256 && a == 256 * b + a % 256;
  }

  // ----- what assembling promises

  // Every relative line names a destination its instruction can reach.
  predicate Encodable(lines: seq<Line>, address: int, resolve: map<string, int>) {
    var labels := Labels(lines, address, |lines|);
    forall i :: 0 <= i < |lines| && lines[i].Relative? ==>
      WordOf(Placed(Pc(lines, address, i), lines[i]), labels, resolve).Some?
  }

  predicate Acceptable(size: nat, lines: seq<Line>, address: int, resolve: map<string, int>, compile: Compiler) {
    && size <= MAX_SOURCE && address >= 0 && address % 4 == 0
    && Tidy(lines, |lines|)
    && 1 <= Place(lines, |lines|) <= MAX_LINES
    && Encodable(lines, address, resolve)
    && var compiled := compile(Listing(Layout(lines, address, |lines|)));
       compiled.Some? && |compiled.value| == 4 * Place(lines, |lines|)
  }

  // The code holds the word of every relative line and the compiled bytes of every other.
  predicate Holds(lines: seq<Line>, address: int, resolve: map<string, int>, compiled: seq<int>, code: seq<int>)
    requires Encodable(lines, address, resolve)
  {
    && |code| == |compiled| == 4 * Place(lines, |lines|)
    && forall i :: 0 <= i < |lines| && Emits(lines[i]) ==> HoldsLine(lines, address, resolve, compiled, code, i)
  }

  predicate HoldsLine(lines: seq<Line>, address: int, resolve: map<string, int>, compiled: seq<int>, code: seq<int>, i: nat)
    requires i < |lines| && Emits(lines[i])
    requires Encodable(lines, address, resolve)
  {
    var k := 4 * Place(lines, i);
    && k + 4 <= |code| == |compiled|
    && code[k..k + 4] ==
       if lines[i].Plain? then compiled[k..k + 4]
       else LittleEndian(WordOf(Placed(Pc(lines, address, i), lines[i]), Labels(lines, address, |lines|), resolve).value)
  }

  // ----- lines and instructions

  lemma {:induction false} PlaceMonotone(lines: seq<Line>, i: nat, j: nat)
    requires i <= j <= |lines|
    ensures Place(lines, i) <= Place(lines, j)
    ensures (forall k :: i <= k < j ==> !Emits(lines[k])) ==> Place(lines, i) == Place(lines, j)
    decreases j
  {
    if i < j {
      PlaceMonotone(lines, i, j - 1);
    }
  }

  lemma {:induction false} LayoutAt(lines: seq<Line>, address: int, n: nat, i: nat)
    requires i < n <= |lines| && Emits(lines[i])
    ensures Place(lines, i) < Place(lines, n)
    ensures Layout(lines, address, n)[Place(lines, i)] == Placed(Pc(lines, address, i), lines[i])
    decreases n
  {
    if i < n - 1 {
      LayoutAt(lines, address, n - 1, i);
    }
  }

  lemma {:induction false} LineAt(lines: seq<Line>, address: int, n: nat, m: nat) returns (i: nat)
    requires n <= |lines| && m < Place(lines, n)
    ensures i < n && Emits(lines[i]) && Place(lines, i) == m
    ensures Layout(lines, address, n)[m] == Placed(Pc(lines, address, i), lines[i])
    decreases n
  {
    if Emits(lines[n - 1]) && m == Place(lines, n - 1) {
      i := n - 1;
    } else {
      i := LineAt(lines, address, n - 1, m);
    }
  }

  lemma {:induction false} LabelsDefined(lines: seq<Line>, address: int, n: nat, name: string)
    requires n <= |lines|
    ensures name in Labels(lines, address, n) <==> Defined(lines, n, name)
  {
    if n > 0 {
      LabelsDefined(lines, address, n - 1, name);
      if lines[n - 1] == Label(name) {
        assert Defined(lines, n, name);
      } else if Defined(lines, n - 1, name) {
        var k :| 0 <= k < n - 1 && lines[k] == Label(name);
        assert lines[k] == Label(name);
      }
    }
  }

  // A label stands for the place where it is written.
  lemma {:induction false} LabelPlace(lines: seq<Line>, address: int, n: nat, j: nat)
    requires j < n <= |lines| && lines[j].Label? && Tidy(lines, n)
    ensures lines[j].name in Labels(lines, address, n)
    ensures Labels(lines, address, n)[lines[j].name] == Pc(lines, address, j)
    decreases n
  {
    if j < n - 1 {
      assert lines[j] != lines[n - 1];
      LabelPlace(lines, address, n - 1, j);
    }
  }

  lemma TidyStep(lines: seq<Line>, address: int, n: nat)
    requires n < |lines| && Tidy(lines, n)
    ensures Tidy(lines, n + 1) <==>
            lines[n] != Malformed && !(lines[n].Label? && lines[n].name in Labels(lines, address, n))
  {
    if lines[n].Label? {
      LabelsDefined(lines, address, n, lines[n].name);
      if Defined(lines, n, lines[n].name) {
        var k :| 0 <= k < n && lines[k] == Label(lines[n].name);
        assert lines[k] == lines[n];
      }
    }
  }

  lemma TidyPrefix(lines: seq<Line>, n: nat)
    requires n <= |lines| && Tidy(lines, |lines|)
    ensures Tidy(lines, n)
  {
  }

  // ----- the three loops

  method LayOut(lines: seq<Line>, address: int) returns (ok: bool, labels: map<string, int>, layout: seq<Placed>)
    ensures ok <==> Tidy(lines, |lines|)
    ensures ok ==> labels == Labels(lines, address, |lines|) && layout == Layout(lines, address, |lines|)
  {
    labels, layout := map[], [];
    var offset := 0;
    for i := 0 to |lines|
      invariant Tidy(lines, i) && offset == 4 * Place(lines, i)
      invariant labels == Labels(lines, address, i) && layout == Layout(lines, address, i)
    {
      TidyStep(lines, address, i);
      match lines[i] {
        case Label(name) =>
          if name in labels {
            NotTidy(lines, i + 1);
            return false, labels, layout;
          }
          labels := labels[name := address + offset];
        case Malformed =>
          NotTidy(lines, i + 1);
          return false, labels, layout;
        case _ =>
          layout := layout + [Placed(address + offset, lines[i])];
          offset := offset + 4;
      }
    }
    return true, labels, layout;
  }

  lemma NotTidy(lines: seq<Line>, n: nat)
    requires n <= |lines| && !Tidy(lines, n)
    ensures !Tidy(lines, |lines|)
  {
    if Tidy(lines, |lines|) {
      TidyPrefix(lines, n);
    }
  }

  method EncodeAll(layout: seq<Placed>, labels: map<string, int>, resolve: map<string, int>)
    returns (ok: bool, listing: seq<string>, replacements: map<nat, int>)
    ensures ok <==> forall m :: 0 <= m < |layout| && layout[m].line.Relative? ==> WordOf(layout[m], labels, resolve).Some?
    ensures ok ==> listing == Listing(layout)
    ensures ok ==> forall m: nat :: m in replacements <==> m < |layout| && layout[m].line.Relative?
    ensures ok ==> forall m :: m in replacements ==> WordOf(layout[m], labels, resolve) == Some(replacements[m])
  {
    hide WordOf;
    listing, replacements := [], map[];
    for m := 0 to |layout|
      invariant listing == Listing(layout[..m])
      invariant forall k: nat :: k in replacements <==> k < m && layout[k].line.Relative?
      invariant forall k :: k in replacements ==> WordOf(layout[k], labels, resolve) == Some(replacements[k])
    {
      assert layout[..m + 1][..m] == layout[..m];
      if layout[m].line.Relative? {
        var word := WordOf(layout[m], labels, resolve);
        if word == None {
          return false, listing, replacements;
        }
        replacements := replacements[m := word.value];
        listing := listing + ["nop"];
      } else {
        listing := listing + [TextOf(layout[m].line)];
      }
    }
    assert layout[..|layout|] == layout;
    return true, listing, replacements;
  }

  predicate Spliced(code: seq<int>, before: seq<int>, replacements: map<nat, int>, m: nat)
    requires 4 * m + 4 <= |code| == |before|
  {
    code[4 * m..4 * m + 4] == if m in replacements then LittleEndian(replacements[m]) else before[4 * m..4 * m + 4]
  }

  method Splice(compiled: seq<int>, replacements: map<nat, int>, n: nat) returns (code: seq<int>)
    requires |compiled| == 4 * n
    ensures |code| == 4 * n
    ensures forall m: nat :: m < n ==> Spliced(code, compiled, replacements, m)
  {
    code := compiled;
    for m := 0 to n
      invariant |code| == 4 * n
      invariant code[4 * m..] == compiled[4 * m..]
      invariant forall k: nat :: k < m ==> Spliced(code, compiled, replacements, k)
    {
      var next := code;
      if m in replacements {
        next := code[..4 * m] + LittleEndian(replacements[m]) + code[4 * m + 4..];
      }
      SplicedStep(code, next, compiled, replacements, m);
      code := next;
    }
  }

  lemma SplicedStep(code: seq<int>, next: seq<int>, compiled: seq<int>, replacements: map<nat, int>, m: nat)
    requires 4 * m + 4 <= |code| == |compiled| && code[4 * m..] == compiled[4 * m..]
    requires next == if m in replacements then code[..4 * m] + LittleEndian(replacements[m]) + code[4 * m + 4..] else code
    ensures |next| == |code| && next[4 * m + 4..] == compiled[4 * m + 4..]
    ensures forall k: nat :: k < m && Spliced(code, compiled, replacements, k) ==> Spliced(next, compiled, replacements, k)
    ensures Spliced(next, compiled, replacements, m)
  {
    hide LittleEndian;
    LittleEndianLength();
    assert code[4 * m..][4..] == code[4 * m + 4..] && compiled[4 * m..][4..] == compiled[4 * m + 4..];
    assert code[4 * m..][..4] == code[4 * m..4 * m + 4] && compiled[4 * m..][..4] == compiled[4 * m..4 * m + 4];
    assert next[..4 * m] == code[..4 * m];
    forall k: nat | k < m && Spliced(code, compiled, replacements, k)
      ensures Spliced(next, compiled, replacements, k)
    {
      assert next[4 * k..4 * k + 4] == next[..4 * m][4 * k..4 * k + 4];
      assert code[4 * k..4 * k + 4] == code[..4 * m][4 * k..4 * k + 4];
    }
  }

  lemma LittleEndianLength()
    ensures forall word :: |LittleEndian(word)| == 4
  {
  }

  method Assemble(size: nat, lines: seq<Line>, address: int, resolve: map<string, int>, compile: Compiler)
    returns (r: Outcome)
    ensures r.Code? <==> Acceptable(size, lines, address, resolve, compile)
    ensures r.Code? ==> Holds(lines, address, resolve, compile(Listing(Layout(lines, address, |lines|))).value, r.bytes)
  {
    if size > MAX_SOURCE || address < 0 || address % 4 != 0 {
      return Error;
    }
    var tidy, labels, layout := LayOut(lines, address);
    if !tidy || !(1 <= |layout| <= MAX_LINES) {
      return Error;
    }
    var ok, listing, replacements := EncodeAll(layout, labels, resolve);
    EncodableLayout(lines, address, resolve);
    if !ok {
      return Error;
    }
    var compiled := compile(listing);
    if compiled == None || |compiled.value| != |layout| * 4 {
      return Error;
    }
    var code := Splice(compiled.value, replacements, |layout|);
    SplicedHolds(lines, address, resolve, compiled.value, replacements, code);
    return Code(code);
  }

  lemma EncodableLayout(lines: seq<Line>, address: int, resolve: map<string, int>)
    ensures var labels, layout := Labels(lines, address, |lines|), Layout(lines, address, |lines|);
            Encodable(lines, address, resolve) <==>
            forall m :: 0 <= m < |layout| && layout[m].line.Relative? ==> WordOf(layout[m], labels, resolve).Some?
  {
    hide WordOf, Labels, Layout;
    var labels, layout := Labels(lines, address, |lines|), Layout(lines, address, |lines|);
    if Encodable(lines, address, resolve) {
      forall m | 0 <= m < |layout| && layout[m].line.Relative?
        ensures WordOf(layout[m], labels, resolve).Some?
      {
        var i := LineAt(lines, address, |lines|, m);
      }
    }
    if forall m :: 0 <= m < |layout| && layout[m].line.Relative? ==> WordOf(layout[m], labels, resolve).Some? {
      forall i | 0 <= i < |lines| && lines[i].Relative?
        ensures WordOf(Placed(Pc(lines, address, i), lines[i]), labels, resolve).Some?
      {
        LayoutAt(lines, address, |lines|, i);
        assert layout[Place(lines, i)].line.Relative?;
      }
    }
  }

  lemma SplicedHolds(lines: seq<Line>, address: int, resolve: map<string, int>, compiled: seq<int>,
                     replacements: map<nat, int>, code: seq<int>)
    requires Encodable(lines, address, resolve)
    requires |code| == |compiled| == 4 * Place(lines, |lines|)
    requires forall m: nat :: m < Place(lines, |lines|) ==> Spliced(code, compiled, replacements, m)
    requires var layout := Layout(lines, address, |lines|);
             && (forall m: nat :: m in replacements <==> m < |layout| && layout[m].line.Relative?)
             && forall m :: m in replacements ==>
                  WordOf(layout[m], Labels(lines, address, |lines|), resolve) == Some(replacements[m])
    ensures Holds(lines, address, resolve, compiled, code)
  {
    hide WordOf, Labels, Layout, LittleEndian, Encodable;
    forall i | 0 <= i < |lines| && Emits(lines[i])
      ensures HoldsLine(lines, address, resolve, compiled, code, i)
    {
      LayoutAt(lines, address, |lines|, i);
      assert Spliced(code, compiled, replacements, Place(lines, i));
    }
  }

  // ----- what the assembled code means

  lemma DestinationHit(lines: seq<Line>, address: int, resolve: map<string, int>, compiled: seq<int>, code: seq<int>,
                       i: nat, destination: int)
    requires 0 <= address && address + 4 * |lines| < SPACE && InSpace(destination)
    requires Encodable(lines, address, resolve) && Holds(lines, address, resolve, compiled, code)
    requires i < |lines| && lines[i].Relative?
    requires Destination(lines[i].target, Labels(lines, address, |lines|), resolve) == Some(destination)
    ensures var at := 4 * Place(lines, i);
            && at + 4 <= |code|
            && Decode(WordAt(code, at), address + at) == Meaning(lines[i].op, destination)
  {
    hide Decode, Meaning, Encode, LittleEndian, Labels, Destination, WordAt, IsWord;
    var p := Placed(Pc(lines, address, i), lines[i]);
    var word := WordOf(p, Labels(lines, address, |lines|), resolve);
    assert HoldsLine(lines, address, resolve, compiled, code, i);
    EncodedMeans(p.line.op, p.pc, destination);
    LittleEndianInverse(word.value);
    SameWord(code, 4 * Place(lines, i), LittleEndian(word.value));
  }

  // A label stands for the instruction after it, which is inside the code.
  lemma NextInstruction(lines: seq<Line>, address: int, j: nat, k: nat)
    requires Tidy(lines, |lines|) && j <= k < |lines| && lines[j].Label?
    requires Emits(lines[k]) && forall m :: j <= m < k ==> !Emits(lines[m])
    ensures Find(Labels(lines, address, |lines|), lines[j].name) == Some(Pc(lines, address, k))
    ensures Place(lines, k) < Place(lines, |lines|) <= |lines|
  {
    hide Labels;
    LabelPlace(lines, address, |lines|, j);
    PlaceMonotone(lines, j, k);
    PlaceMonotone(lines, k + 1, |lines|);
  }

  // A relative instruction of the assembled code decodes to the destination its line names; when that is
  // a label, to the address of the instruction after the label.
  lemma LabelsHit(lines: seq<Line>, address: int, resolve: map<string, int>, compiled: seq<int>, code: seq<int>,
                  i: nat, j: nat, k: nat)
    requires 0 <= address && address + 4 * |lines| < SPACE && Tidy(lines, |lines|)
    requires Encodable(lines, address, resolve) && Holds(lines, address, resolve, compiled, code)
    requires i < |lines| && lines[i].Relative?
    requires j <= k < |lines| && lines[j].Label? && lines[i].target == Symbol(lines[j].name)
    requires Emits(lines[k]) && forall m :: j <= m < k ==> !Emits(lines[m])
    ensures Pc(lines, address, k) - address + 4 <= |code|
    ensures var at := 4 * Place(lines, i);
            && at + 4 <= |code|
            && Decode(WordAt(code, at), address + at) == Meaning(lines[i].op, Pc(lines, address, k))
  {
    hide Decode, Meaning, Encode, LittleEndian, Labels, WordOf, WordAt, HoldsLine, Encodable, Tidy;
    NextInstruction(lines, address, j, k);
    DestinationHit(lines, address, resolve, compiled, code, i, Pc(lines, address, k));
  }

  // The same for a destination given as a number or found among the program's symbols.
  lemma AddressesHit(lines: seq<Line>, address: int, resolve: map<string, int>, compiled: seq<int>, code: seq<int>,
                     i: nat, destination: int)
    requires 0 <= address && address + 4 * |lines| < SPACE && InSpace(destination)
    requires Encodable(lines, address, resolve) && Holds(lines, address, resolve, compiled, code)
    requires i < |lines| && lines[i].Relative?
    requires match lines[i].target
             case Number(value) => destination == value
             case Symbol(name) => !Defined(lines, |lines|, name) && name in resolve && destination == resolve[name]
    ensures var at := 4 * Place(lines, i);
            && at + 4 <= |code|
            && Decode(WordAt(code, at), address + at) == Meaning(lines[i].op, destination)
  {
    hide Decode, Meaning, Encode, LittleEndian, Labels, WordOf, WordAt, HoldsLine, Encodable;
    if lines[i].target.Symbol? {
      LabelsDefined(lines, address, |lines|, lines[i].target.name);
    }
    DestinationHit(lines, address, resolve, compiled, code, i, destination);
  }

  lemma SameWord(code: seq<int>, at: nat, bytes: seq<int>)
    requires at + 4 <= |code| && code[at..at + 4] == bytes
    ensures |bytes| == 4 && WordAt(code, at) == WordAt(bytes, 0)
  {
    assert forall k :: 0 <= k < 4 ==> bytes[k] == code[at + k];
  }
}
