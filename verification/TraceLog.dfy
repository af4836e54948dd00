// The disk-backed instruction history: a file of numbered lines, the offsets kept while it is written,
// reopening it, and paging through it. How a row is spelled on its line is a parameter.
module TraceLog {
  import opened Options

  const MAX_BYTES: nat := 134217728
  const MAX_RECORDS: nat := 100000
  const MAX_LINE: nat := 262144
  const SCAN: nat := 5000

  datatype Body = Instruction(text: string) | Event(text: string) | Omitted(original: nat)

  datatype Row = Row(n: nat, body: Body)

  type Encoder = Row -> string
  type Decoder = string -> Option<Row>

  // ----- lines of a file

  function Min(a: int, b: int): int {
    if a <= b then a else b
  }

  // Where the first newline at or after `k` is, or the end.
  function NewlineAt(file: string, k: nat): (r: nat)
    requires k <= |file|
    ensures k <= r <= |file| && '\n' !in file[k..r] && (r < |file| ==> file[r] == '\n')
    decreases |file| - k
  {
    if k == |file| || file[k] == '\n' then k
    else
      assert file[k..NewlineAt(file, k + 1)] == [file[k]] + file[k + 1..NewlineAt(file, k + 1)];
      NewlineAt(file, k + 1)
  }

  // The line at `k`, its newline included, cut at the longest line there may be.
  function ReadLine(file: string, k: nat): (line: string)
    requires k <= |file|
    ensures k + |line| <= |file| && (k < |file| ==> line != [])
  {
    file[k..Min(Min(NewlineAt(file, k) + 1, k + MAX_LINE), |file|)]
  }

  lemma {:induction false} NewlineIs(file: string, k: nat, i: nat)
    requires k <= i < |file| && file[i] == '\n' && forall j :: k <= j < i ==> file[j] != '\n'
    ensures NewlineAt(file, k) == i
    decreases i - k
  {
    if k < i {
      NewlineIs(file, k + 1, i);
    }
  }

  lemma ReadLineOf(before: string, text: string, rest: string)
    requires '\n' !in text && |text| < MAX_LINE
    ensures ReadLine(before + text + "\n" + rest, |before|) == text + "\n"
  {
    var file := before + text + "\n" + rest;
    var end := |before| + |text|;
    assert file[|before|..end] == text && file[end] == '\n';
    forall j | |before| <= j < end ensures file[j] != '\n' {
      assert file[j] == text[j - |before|];
    }
    NewlineIs(file, |before|, end);
    assert file[|before|..end + 1] == text + "\n";
  }

  // ----- what a recording looks like

  // A row is spelled on one line and reads back; the stand-in of an oversized row is short.
  ghost predicate Faithful(encode: Encoder, decode: Decoder) {
    && (forall r :: '\n' !in encode(r) && decode(encode(r)) == Some(r))
    && forall r: Row :: r.n <= MAX_RECORDS && r.body.Omitted? && r.body.original < 0x1_0000_0000_0000_0000
         ==> |encode(r)| + 1 < MAX_LINE
  }

  function Text(rows: seq<Row>, encode: Encoder): string {
    if rows == [] then "" else Text(rows[..|rows| - 1], encode) + encode(rows[|rows| - 1]) + "\n"
  }

  function Offsets(start: nat, rows: seq<Row>, encode: Encoder): (r: seq<nat>)
    ensures |r| == |rows|
  {
    if rows == [] then []
    else
      var earlier := rows[..|rows| - 1];
      Offsets(start, earlier, encode) + [start + |Text(earlier, encode)|]
  }

  predicate Numbered(rows: seq<Row>, encode: Encoder) {
    forall i :: 0 <= i < |rows| ==> rows[i].n == i + 1 && |encode(rows[i])| + 1 < MAX_LINE
  }

  // The file on disk, where its rows start, and the limits of the recording.
  datatype Log = Log(file: string, offsets: seq<nat>, enabled: bool, readonly: bool, maxRecords: nat, maxBytes: nat)

  ghost predicate Holds(log: Log, header: string, rows: seq<Row>, encode: Encoder) {
    && '\n' !in header && |header| + 1 < MAX_LINE
    && log.file == header + "\n" + Text(rows, encode)
    && log.offsets == Offsets(|header| + 1, rows, encode)
    && Numbered(rows, encode) && |rows| <= log.maxRecords <= MAX_RECORDS && |log.file| <= log.maxBytes <= MAX_BYTES
  }

  // ----- appending

  function RowFor(n: nat, body: Body, encode: Encoder): Row {
    var row := Row(n, body);
    if |encode(row)| + 1 >= MAX_LINE then Row(n, Omitted(|encode(row)| + 1)) else row
  }

  predicate Full(log: Log, line: string) {
    |log.offsets| >= log.maxRecords || |log.file| + |line| > log.maxBytes
  }

  function Append(log: Log, body: Body, encode: Encoder): Log {
    if !log.enabled || log.readonly then log
    else
      var line := encode(RowFor(|log.offsets| + 1, body, encode)) + "\n";
      if Full(log, line) then log.(enabled := false)
      else log.(file := log.file + line, offsets := log.offsets + [|log.file|])
  }

  function Started(header: string, maxRecords: nat, maxBytes: nat): Option<Log> {
    if !(1 <= maxRecords <= MAX_RECORDS && 4096 <= maxBytes <= MAX_BYTES) then None
    else if |header| + 1 >= Min(maxBytes, MAX_LINE) then None
    else Some(Log(header + "\n", [], true, false, maxRecords, maxBytes))
  }

  // A recording may be started exactly for 1 to 100000 rows, 4 KiB to 128 MiB, and a header that leaves room and
  // fits on a line; it holds the header alone.
  lemma StartedExact(header: string, maxRecords: nat, maxBytes: nat)
    ensures Started(header, maxRecords, maxBytes).Some? <==>
      1 <= maxRecords <= 100000 && 4096 <= maxBytes <= 134217728 && |header| + 1 < maxBytes && |header| + 1 < 262144
    ensures Started(header, maxRecords, maxBytes).Some? ==>
      Started(header, maxRecords, maxBytes).value == Log(header + "\n", [], true, false, maxRecords, maxBytes)
  {
  }

  function Appends(log: Log, bodies: seq<Body>, encode: Encoder): Log {
    if bodies == [] then log else Append(Appends(log, bodies[..|bodies| - 1], encode), bodies[|bodies| - 1], encode)
  }

  // The rows a run of appends leaves, given those already there.
  function Kept(log: Log, rows: seq<Row>, body: Body, encode: Encoder): seq<Row> {
    if Append(log, body, encode).offsets == log.offsets then rows
    else rows + [RowFor(|log.offsets| + 1, body, encode)]
  }

  function KeptAll(log: Log, bodies: seq<Body>, encode: Encoder): seq<Row> {
    if bodies == [] then []
    else
      var earlier := bodies[..|bodies| - 1];
      Kept(Appends(log, earlier, encode), KeptAll(log, earlier, encode), bodies[|bodies| - 1], encode)
  }

  predicate Sized(bodies: seq<Body>, encode: Encoder) {
    forall i, n :: 0 <= i < |bodies| && 0 <= n <= MAX_RECORDS ==> |encode(Row(n, bodies[i]))| + 1 < 0x1_0000_0000_0000_0000
  }

  lemma AppendHolds(log: Log, header: string, rows: seq<Row>, body: Body, encode: Encoder, decode: Decoder)
    requires Faithful(encode, decode) && Holds(log, header, rows, encode)
    requires forall n: nat :: n <= MAX_RECORDS ==> |encode(Row(n, body))| + 1 < 0x1_0000_0000_0000_0000
    ensures Holds(Append(log, body, encode), header, Kept(log, rows, body, encode), encode)
  {
    hide RowFor, Faithful;
    if Append(log, body, encode).offsets != log.offsets {
      var row := RowFor(|rows| + 1, body, encode);
      assert (rows + [row])[..|rows|] == rows;
      RowFits(|rows| + 1, body, encode, decode);
    }
  }

  lemma RowFits(n: nat, body: Body, encode: Encoder, decode: Decoder)
    requires Faithful(encode, decode) && n <= MAX_RECORDS
    requires |encode(Row(n, body))| + 1 < 0x1_0000_0000_0000_0000
    ensures var row := RowFor(n, body, encode);
      row.n == n && '\n' !in encode(row) && |encode(row)| + 1 < MAX_LINE
  {
  }

  // Whatever is appended, the file is the header and the rows kept, numbered from 1, and the offsets point
  // at them; oversized rows are replaced and the limits hold.
  lemma {:induction false} AppendsHold(log: Log, header: string, bodies: seq<Body>, encode: Encoder, decode: Decoder)
    requires Faithful(encode, decode) && Holds(log, header, [], encode) && Sized(bodies, encode)
    ensures Holds(Appends(log, bodies, encode), header, KeptAll(log, bodies, encode), encode)
  {
    if bodies != [] {
      var earlier := bodies[..|bodies| - 1];
      AppendsHold(log, header, earlier, encode, decode);
      AppendHolds(Appends(log, earlier, encode), header, KeptAll(log, earlier, encode), bodies[|bodies| - 1], encode, decode);
    }
  }

  // ----- which rows are kept

  // The row written for a body: itself when its line is shorter than 256 KiB, and a note of its size otherwise.
  ghost predicate Stands(row: Row, n: nat, body: Body, encode: Encoder) {
    row.n == n && row.body == if |encode(Row(n, body))| + 1 < 262144 then body else Omitted(|encode(Row(n, body))| + 1)
  }

  // There is no room for the next row: enough rows, or its line would pass the limit of bytes.
  ghost predicate NoRoom(log: Log, header: string, rows: seq<Row>, body: Body, encode: Encoder) {
    |rows| >= log.maxRecords
    || exists row :: Stands(row, |rows| + 1, body, encode)
         && |header| + 1 + |Text(rows, encode)| + |encode(row)| + 1 > log.maxBytes
  }

  // `rows` are the first of the bodies, up to the first one there is no room for, and nothing after it.
  ghost predicate KeepsFirst(log: Log, header: string, bodies: seq<Body>, rows: seq<Row>, encode: Encoder) {
    |rows| <= |bodies| && (forall i :: 0 <= i < |rows| ==> Stands(rows[i], i + 1, bodies[i], encode))
    && (|rows| < |bodies| ==> NoRoom(log, header, rows, bodies[|rows|], encode))
  }

  lemma RowStands(n: nat, body: Body, encode: Encoder)
    ensures Stands(RowFor(n, body, encode), n, body, encode)
  {
  }

  lemma {:induction false} LimitsStay(log: Log, bodies: seq<Body>, encode: Encoder)
    ensures var end := Appends(log, bodies, encode);
      end.maxRecords == log.maxRecords && end.maxBytes == log.maxBytes && end.readonly == log.readonly
  {
    if bodies != [] {
      LimitsStay(log, bodies[..|bodies| - 1], encode);
    }
  }

  // One more body while the recording goes on: kept when there is room, and the end of the recording when not.
  lemma NextKept(log: Log, end: Log, header: string, rows: seq<Row>, body: Body, encode: Encoder)
    requires Holds(end, header, rows, encode) && end.enabled && !end.readonly
    requires end.maxRecords == log.maxRecords && end.maxBytes == log.maxBytes
    ensures if NoRoom(log, header, rows, body, encode)
            then !Append(end, body, encode).enabled && Kept(end, rows, body, encode) == rows
            else Append(end, body, encode).enabled && |Kept(end, rows, body, encode)| == |rows| + 1
                 && Kept(end, rows, body, encode)[..|rows|] == rows
                 && Stands(Kept(end, rows, body, encode)[|rows|], |rows| + 1, body, encode)
  {
    hide RowFor, Text;
    RowStands(|rows| + 1, body, encode);
    assert |end.offsets| == |rows|;
  }

  // Of any bodies appended to a new recording, the first are kept as given, each shorter than the limit of a line
  // and otherwise with a note in its place; the recording ends at the first for which there is no room.
  lemma {:induction false} KeptExact(log: Log, header: string, bodies: seq<Body>, encode: Encoder, decode: Decoder)
    requires Faithful(encode, decode) && Holds(log, header, [], encode) && Sized(bodies, encode)
    requires log.enabled && !log.readonly
    ensures KeepsFirst(log, header, bodies, KeptAll(log, bodies, encode), encode)
    ensures Appends(log, bodies, encode).enabled <==> |KeptAll(log, bodies, encode)| == |bodies|
  {
    hide Holds, Append, Kept, NoRoom, Faithful, Stands;
    if bodies != [] {
      var earlier, body := bodies[..|bodies| - 1], bodies[|bodies| - 1];
      KeptExact(log, header, earlier, encode, decode);
      AppendsHold(log, header, earlier, encode, decode);
      LimitsStay(log, earlier, encode);
      var end, rows := Appends(log, earlier, encode), KeptAll(log, earlier, encode);
      if end.enabled {
        NextKept(log, end, header, rows, body, encode);
      } else {
        EndedKeeps(end, rows, body, encode);
      }
    }
  }

  lemma EndedKeeps(end: Log, rows: seq<Row>, body: Body, encode: Encoder)
    requires !end.enabled
    ensures Append(end, body, encode) == end && Kept(end, rows, body, encode) == rows
  {
  }

  // ----- reading a row

  function ReadRow(log: Log, index: nat, decode: Decoder): Option<Row> {
    if !(1 <= index <= |log.offsets|) || log.offsets[index - 1] > |log.file| then None
    else
      var line := ReadLine(log.file, log.offsets[index - 1]);
      if line == [] then None else decode(line[..|line| - 1])
  }

  lemma {:induction false} TextSplit(rows: seq<Row>, k: nat, encode: Encoder) returns (rest: string)
    requires k < |rows|
    ensures Text(rows, encode) == Text(rows[..k], encode) + encode(rows[k]) + "\n" + rest
    ensures k + 1 == |rows| ==> rest == ""
    ensures k + 1 <= |rows| ==> Text(rows, encode) == Text(rows[..k + 1], encode) + rest
    decreases |rows|
  {
    if k == |rows| - 1 {
      rest := "";
      assert rows[..k + 1] == rows;
      assert Text(rows, encode) == Text(rows[..k], encode) + encode(rows[k]) + "\n" + rest;
    } else {
      var shorter := rows[..|rows| - 1];
      var inner := TextSplit(shorter, k, encode);
      assert shorter[..k] == rows[..k] && shorter[..k + 1] == rows[..k + 1];
      rest := inner + encode(rows[|rows| - 1]) + "\n";
      assert Text(rows, encode) == Text(rows[..k], encode) + encode(rows[k]) + "\n" + rest;
      assert Text(rows, encode) == Text(rows[..k + 1], encode) + rest;
    }
  }

  lemma {:induction false} OffsetAt(start: nat, rows: seq<Row>, k: nat, encode: Encoder)
    requires k < |rows|
    ensures Offsets(start, rows, encode)[k] == start + |Text(rows[..k], encode)|
    decreases |rows|
  {
    if k < |rows| - 1 {
      OffsetAt(start, rows[..|rows| - 1], k, encode);
      assert rows[..|rows| - 1][..k] == rows[..k];
    }
  }

  // The line at the place where row `k` starts.
  lemma LineOf(header: string, rows: seq<Row>, k: nat, encode: Encoder)
    requires k < |rows| && Numbered(rows, encode) && '\n' !in encode(rows[k])
    ensures var file := header + "\n" + Text(rows, encode);
            var at := |header| + 1 + |Text(rows[..k], encode)|;
            && at + |encode(rows[k])| + 1 <= |file|
            && ReadLine(file, at) == encode(rows[k]) + "\n"
            && at + |encode(rows[k])| + 1 == |header| + 1 + |Text(rows[..k + 1], encode)|
  {
    hide ReadLine, NewlineAt;
    var rest := TextSplit(rows, k, encode);
    var before := header + "\n" + Text(rows[..k], encode);
    assert header + "\n" + Text(rows, encode) == before + encode(rows[k]) + "\n" + rest;
    ReadLineOf(before, encode(rows[k]), rest);
    assert rows[..k + 1][..k] == rows[..k];
  }

  // Every row reads back as it was written.
  lemma ReadBack(log: Log, header: string, rows: seq<Row>, k: nat, encode: Encoder, decode: Decoder)
    requires Faithful(encode, decode) && Holds(log, header, rows, encode) && k < |rows|
    ensures ReadRow(log, k + 1, decode) == Some(rows[k])
  {
    hide ReadLine, Text, Offsets;
    OffsetAt(|header| + 1, rows, k, encode);
    LineOf(header, rows, k, encode);
    var line := encode(rows[k]) + "\n";
    assert line[..|line| - 1] == encode(rows[k]);
  }

  // ----- reopening

  // The offsets of the rows from `k` on, when they are whole lines numbered from `count + 1`.
  function Scan(file: string, k: nat, count: nat, decode: Decoder): Option<seq<nat>>
    requires k <= |file|
    decreases |file| - k
  {
    var line := ReadLine(file, k);
    if line == [] then Some([])
    else if line[|line| - 1] != '\n' then None
    else
      match decode(line[..|line| - 1])
      case None => None
      case Some(row) =>
        if row.n != count + 1 || count + 1 > MAX_RECORDS then None
        else
          match Scan(file, k + |line|, count + 1, decode)
          case None => None
          case Some(later) => Some([k] + later)
  }

  function Reopened(file: string, isHeader: string -> bool, decode: Decoder): Option<seq<nat>> {
    if |file| > MAX_BYTES then None
    else
      var header := ReadLine(file, 0);
      if !isHeader(header) then None else Scan(file, |header|, 0, decode)
  }

  // ----- which files are opened

  // A whole line: a newline at its end and nowhere else, and not too long.
  predicate WholeLine(line: string) {
    1 <= |line| <= MAX_LINE && line[|line| - 1] == '\n' && forall i :: 0 <= i < |line| - 1 ==> line[i] != '\n'
  }

  function Concat(lines: seq<string>): string {
    if lines == [] then "" else lines[0] + Concat(lines[1..])
  }

  // Whole lines that read as rows numbered from `count + 1`, not more than there may be.
  ghost predicate RowLines(lines: seq<string>, count: nat, decode: Decoder) {
    count + |lines| <= MAX_RECORDS
    && forall i :: 0 <= i < |lines| ==>
         WholeLine(lines[i]) && decode(lines[i][..|lines[i]| - 1]).Some? && decode(lines[i][..|lines[i]| - 1]).value.n == count + i + 1
  }

  lemma ReadWhole(file: string, k: nat, line: string)
    requires k + |line| <= |file| && file[k..k + |line|] == line && WholeLine(line)
    ensures ReadLine(file, k) == line
  {
    var end := k + |line| - 1;
    assert file[end] == line[|line| - 1];
    forall j | k <= j < end ensures file[j] != '\n' {
      assert file[j] == line[j - k];
    }
    NewlineIs(file, k, end);
  }

  lemma SplitAt(file: string, k: nat, n: nat)
    requires k + n <= |file|
    ensures file[k..] == file[k..k + n] + file[k + n..]
  {
  }

  lemma WholeRead(file: string, k: nat)
    requires k <= |file|
    ensures var line := ReadLine(file, k);
      line != [] && line[|line| - 1] == '\n' ==> WholeLine(line) && file[k..] == line + file[k + |line|..]
  {
    var line := ReadLine(file, k);
    if line != [] && line[|line| - 1] == '\n' {
      var r := NewlineAt(file, k);
      assert line == file[k..k + |line|] && |line| <= r + 1 - k;
      SplitAt(file, k, |line|);
      forall i | 0 <= i < |line| - 1 ensures line[i] != '\n' {
        assert file[k..r][i] == line[i];
      }
    }
  }

  lemma {:induction false} ScanLines(file: string, k: nat, count: nat, lines: seq<string>, decode: Decoder)
    requires k <= |file| && file[k..] == Concat(lines) && RowLines(lines, count, decode)
    ensures Scan(file, k, count, decode).Some?
    decreases |lines|
  {
    hide ReadLine;
    if lines == [] {
      NothingRead(file, k);
    } else {
      var line := lines[0];
      assert file[k..][..|line|] == line;
      ReadWhole(file, k, line);
      assert file[k + |line|..] == file[k..][|line|..];
      assert forall i :: 0 <= i < |lines[1..]| ==> lines[1..][i] == lines[i + 1];
      ScanLines(file, k + |line|, count + 1, lines[1..], decode);
    }
  }

  lemma NothingRead(file: string, k: nat)
    requires k <= |file| && file[k..] == ""
    ensures ReadLine(file, k) == []
  {
  }

  lemma {:induction false} LinesScanned(file: string, k: nat, count: nat, decode: Decoder) returns (lines: seq<string>)
    requires k <= |file| && Scan(file, k, count, decode).Some? && count <= MAX_RECORDS
    ensures file[k..] == Concat(lines) && RowLines(lines, count, decode)
    decreases |file| - k
  {
    hide ReadLine;
    var line := ReadLine(file, k);
    if line == [] {
      lines := [];
      assert k == |file|;
    } else {
      WholeRead(file, k);
      var rest := LinesScanned(file, k + |line|, count + 1, decode);
      lines := [line] + rest;
      assert lines[1..] == rest;
    }
  }

  // A file is opened exactly when it is not too large, its first line is a header, and the rest are whole lines
  // that read as rows numbered from 1, at most 100000 of them.
  lemma ReopenedExact(file: string, isHeader: string -> bool, decode: Decoder)
    ensures Reopened(file, isHeader, decode).Some? <==>
      |file| <= 134217728 && isHeader(ReadLine(file, 0))
      && exists lines :: file == ReadLine(file, 0) + Concat(lines) && RowLines(lines, 0, decode)
  {
    hide ReadLine, Scan;
    var header := ReadLine(file, 0);
    HeaderPrefix(file);
    if Reopened(file, isHeader, decode).Some? {
      var lines := LinesScanned(file, |header|, 0, decode);
    }
    if exists lines :: file == header + Concat(lines) && RowLines(lines, 0, decode) {
      var lines :| file == header + Concat(lines) && RowLines(lines, 0, decode);
      assert file[|header|..] == Concat(lines);
      ScanLines(file, |header|, 0, lines, decode);
    }
  }

  lemma HeaderPrefix(file: string)
    ensures |ReadLine(file, 0)| <= |file| && file == ReadLine(file, 0) + file[|ReadLine(file, 0)|..]
  {
  }

  lemma {:induction false} ScanRows(header: string, rows: seq<Row>, k: nat, encode: Encoder, decode: Decoder)
    requires k <= |rows| <= MAX_RECORDS && Numbered(rows, encode) && Faithful(encode, decode)
    ensures var file := header + "\n" + Text(rows, encode);
            var at := |header| + 1 + |Text(rows[..k], encode)|;
            at <= |file| && Scan(file, at, k, decode) == Some(Offsets(|header| + 1, rows, encode)[k..])
    decreases |rows| - k
  {
    hide ReadLine, Text, Offsets;
    var file := header + "\n" + Text(rows, encode);
    var at := |header| + 1 + |Text(rows[..k], encode)|;
    if k == |rows| {
      assert rows[..k] == rows && at == |file|;
      AtEnd(file);
      assert Scan(file, at, k, decode) == Some([]);
      assert Offsets(|header| + 1, rows, encode)[k..] == [];
    } else {
      LineOf(header, rows, k, encode);
      OffsetAt(|header| + 1, rows, k, encode);
      ScanRows(header, rows, k + 1, encode, decode);
      var line := encode(rows[k]) + "\n";
      assert line[..|line| - 1] == encode(rows[k]);
      assert Offsets(|header| + 1, rows, encode)[k..] == [at] + Offsets(|header| + 1, rows, encode)[k + 1..];
    }
  }

  lemma AtEnd(file: string)
    ensures ReadLine(file, |file|) == []
  {
  }

  // Reopening a recording gives back the offsets it was written with.
  lemma ReopenInverse(log: Log, header: string, rows: seq<Row>, isHeader: string -> bool, encode: Encoder, decode: Decoder)
    requires Faithful(encode, decode) && Holds(log, header, rows, encode) && isHeader(header + "\n")
    ensures Reopened(log.file, isHeader, decode) == Some(log.offsets)
  {
    hide ReadLine, Text, Scan;
    NoText(encode);
    ReadLineOf("", header, Text(rows, encode));
    assert "" + header + "\n" + Text(rows, encode) == log.file;
    assert rows[..0] == [];
    ScanRows(header, rows, 0, encode, decode);
  }

  lemma NoText(encode: Encoder)
    ensures Text([], encode) == ""
  {
  }

  // A recording that is started, appended to in whatever way and opened again has the same offsets, and
  // row `k` reads as the k-th one kept, under its own number.
  lemma RecordingReopens(header: string, count: nat, size: nat, bodies: seq<Body>, k: nat,
                         isHeader: string -> bool, encode: Encoder, decode: Decoder)
    requires Faithful(encode, decode) && Sized(bodies, encode)
    requires '\n' !in header && isHeader(header + "\n") && Started(header, count, size).Some?
    ensures var log := Started(header, count, size).value;
            var end := Appends(log, bodies, encode);
            var rows := KeptAll(log, bodies, encode);
            && Reopened(end.file, isHeader, decode) == Some(end.offsets)
            && |rows| == |end.offsets| <= count && |end.file| <= size
            && (k < |rows| ==> rows[k].n == k + 1 && ReadRow(end, k + 1, decode) == Some(rows[k]))
  {
    hide Reopened, ReadRow, Append;
    var log := Started(header, count, size).value;
    NoText(encode);
    assert header + "\n" + "" == log.file;
    AppendsHold(log, header, bodies, encode, decode);
    AppendsLimits(log, bodies, encode);
    var end, rows := Appends(log, bodies, encode), KeptAll(log, bodies, encode);
    ReopenInverse(end, header, rows, isHeader, encode, decode);
    if k < |rows| {
      ReadBack(end, header, rows, k, encode, decode);
    }
  }

  lemma {:induction false} AppendsLimits(log: Log, bodies: seq<Body>, encode: Encoder)
    ensures Appends(log, bodies, encode).maxRecords == log.maxRecords
    ensures Appends(log, bodies, encode).maxBytes == log.maxBytes
  {
    if bodies != [] {
      AppendsLimits(log, bodies[..|bodies| - 1], encode);
    }
  }

  // What is accepted on reopening reads back as rows numbered in order.
  lemma {:induction false} ScanNumbered(file: string, k: nat, count: nat, decode: Decoder, i: nat)
    requires k <= |file| && Scan(file, k, count, decode).Some? && i < |Scan(file, k, count, decode).value|
    ensures var offsets := Scan(file, k, count, decode).value;
            var line := if offsets[i] <= |file| then ReadLine(file, offsets[i]) else [];
            && line != [] && decode(line[..|line| - 1]).Some? && decode(line[..|line| - 1]).value.n == count + i + 1
    decreases |file| - k
  {
    hide ReadLine;
    if i > 0 {
      ScanNumbered(file, k + |ReadLine(file, k)|, count + 1, decode, i - 1);
    }
  }

  // ----- paging

  type Filter = Row -> bool

  // The rows from `low + 1` to `high` that match, in order.
  function Matching(rows: seq<Row>, low: nat, high: nat, keep: Filter): seq<Row>
    requires low <= high <= |rows|
    decreases high
  {
    if low == high then []
    else Matching(rows, low, high - 1, keep) + (if keep(rows[high - 1]) then [rows[high - 1]] else [])
  }

  lemma {:induction false} MatchingSplit(rows: seq<Row>, low: nat, mid: nat, high: nat, keep: Filter)
    requires low <= mid <= high <= |rows|
    ensures Matching(rows, low, high, keep) == Matching(rows, low, mid, keep) + Matching(rows, mid, high, keep)
    decreases high
  {
    if mid < high {
      MatchingSplit(rows, low, mid, high - 1, keep);
    }
  }

  function Reversed(rows: seq<Row>): seq<Row> {
    if rows == [] then [] else [rows[|rows| - 1]] + Reversed(rows[..|rows| - 1])
  }

  datatype Page = Page(rows: seq<Row>, next: nat, complete: bool, scanned: nat)

  // What a page forward from `offset` holds: all matches up to `next`, which is past at least one row unless
  // there is none; it stops at the limit, after 5000 rows or at the end, and at nothing else.
  ghost predicate ForwardPage(rows: seq<Row>, offset: nat, limit: nat, keep: Filter, page: Page) {
    && offset <= page.next
    && (|rows| <= offset ==> page.next == offset && page.rows == [])
    && (offset < |rows| ==>
          && offset < page.next <= Min(|rows|, offset + SCAN)
          && page.rows == Matching(rows, offset, page.next, keep)
          && (|page.rows| == limit || page.next == Min(|rows|, offset + SCAN)))
    && |page.rows| <= limit
    && (page.complete <==> |rows| <= page.next)
    && page.scanned == page.next - offset
  }

  // The same backward from the row before `before`, newest first.
  ghost predicate BackwardPage(rows: seq<Row>, before: int, limit: nat, keep: Filter, page: Page) {
    var start := Min(before - 1, |rows|);
    && (start <= 0 ==> page.next == 0 && page.rows == [])
    && (start > 0 ==>
          && 0 < page.next <= start
          && page.rows == Reversed(Matching(rows, page.next - 1, start, keep))
          && (|page.rows| == limit || page.next == (if start > SCAN then start - SCAN + 1 else 1)))
    && |page.rows| <= limit
    && (page.complete <==> page.next <= 1)
  }

  // ----- the recorder

  class InstructionTrace {
    var path: string
    var offsets: seq<nat>
    var enabled: bool
    var readonly: bool
    var maxRecords: nat
    var maxBytes: nat

    // `path` stands for the contents of the file behind it.
    function State(): Log
      reads this
    {
      Log(path, offsets, enabled, readonly, maxRecords, maxBytes)
    }

    constructor ()
      ensures State() == Log("", [], false, false, MAX_RECORDS, MAX_BYTES)
    {
      path, offsets, enabled, readonly, maxRecords, maxBytes := "", [], false, false, MAX_RECORDS, MAX_BYTES;
    }

    method Start(header: string, count: nat, size: nat) returns (ok: bool)
      modifies this
      ensures ok <==> Started(header, count, size).Some?
      ensures State() == if ok then Started(header, count, size).value else old(State())
    {
      if !(1 <= count <= MAX_RECORDS && 4096 <= size <= MAX_BYTES) || |header| + 1 >= Min(size, MAX_LINE) {
        return false;
      }
      path, offsets := header + "\n", [];
      maxRecords, maxBytes, enabled, readonly := count, size, true, false;
      return true;
    }

    method AppendLocked(body: Body, encode: Encoder) returns (written: bool)
      modifies this
      ensures State() == Append(old(State()), body, encode)
      ensures written <==> offsets != old(offsets)
    {
      if !enabled || readonly {
        return false;
      }
      var row := Row(|offsets| + 1, body);
      var line := encode(row) + "\n";
      if |line| >= MAX_LINE {
        row := Row(row.n, Omitted(|line|));
        line := encode(row) + "\n";
      }
      var offset := |path|;
      if |offsets| >= maxRecords || offset + |line| > maxBytes {
        enabled := false;
        return false;
      }
      path := path + line;
      offsets := offsets + [offset];
      return true;
    }

    method Read(index: int, decode: Decoder) returns (row: Option<Row>)
      ensures row == if index < 1 then None else ReadRow(State(), index, decode)
    {
      if !(1 <= index <= |offsets|) || offsets[index - 1] > |path| {
        return None;
      }
      var line := ReadLine(path, offsets[index - 1]);
      if line == [] {
        return None;
      }
      return decode(line[..|line| - 1]);
    }

    method Open(file: string, isHeader: string -> bool, decode: Decoder) returns (ok: bool)
      modifies this
      ensures ok <==> !old(State()).enabled && Reopened(file, isHeader, decode).Some?
      ensures State() ==
              if ok then old(State()).(file := file, offsets := Reopened(file, isHeader, decode).value, readonly := true)
              else old(State())
    {
      hide ReadLine;
      if enabled || |file| > MAX_BYTES {
        return false;
      }
      var header := ReadLine(file, 0);
      if !isHeader(header) {
        return false;
      }
      var found: seq<nat> := [];
      var position := |header|;
      var line := ReadLine(file, position);
      JoinedNothing(Scan(file, position, 0, decode));
      while line != []
        invariant position <= |file| && line == ReadLine(file, position) && State() == old(State())
        invariant Scan(file, |header|, 0, decode) == Joined(found, Scan(file, position, |found|, decode))
        decreases |file| - position
      {
        if line[|line| - 1] != '\n' {
          return false;
        }
        var row := decode(line[..|line| - 1]);
        if row == None || row.value.n != |found| + 1 || |found| + 1 > MAX_RECORDS {
          return false;
        }
        JoinedStep(found, position, Scan(file, position + |line|, |found| + 1, decode));
        found := found + [position];
        position := position + |line|;
        line := ReadLine(file, position);
      }
      assert found + [] == found;
      assert Reopened(file, isHeader, decode) == Some(found);
      path, offsets, readonly := file, found, true;
      return true;
    }

    method QueryForward(offset: nat, limit: nat, keep: Filter, decode: Decoder, ghost rows: seq<Row>) returns (page: Page)
      requires 1 <= limit && |rows| == |offsets|
      requires forall k :: 0 <= k < |rows| ==> ReadRow(State(), k + 1, decode) == Some(rows[k])
      ensures ForwardPage(rows, offset, limit, keep, page)
    {
      hide ReadRow;
      var found: seq<Row> := [];
      var index := offset;
      var last := Min(|offsets|, offset + SCAN);
      while index < last && |found| < limit
        invariant offset <= index && (offset < last ==> index <= last) && (last <= offset ==> index == offset && found == [])
        invariant offset < last ==> found == Matching(rows, offset, index, keep)
        invariant |found| <= limit
      {
        index := index + 1;
        var row := Read(index, decode);
        assert row == Some(rows[index - 1]);
        if keep(row.value) {
          found := found + [row.value];
        }
      }
      return Page(found, index, index >= |offsets|, index - offset);
    }

    method QueryBackward(before: int, limit: nat, keep: Filter, decode: Decoder, ghost rows: seq<Row>) returns (page: Page)
      requires 1 <= limit && |rows| == |offsets|
      requires forall k :: 0 <= k < |rows| ==> ReadRow(State(), k + 1, decode) == Some(rows[k])
      ensures BackwardPage(rows, before, limit, keep, page)
    {
      hide ReadRow, Matching, Reversed;
      EmptyPage(rows, keep);
      var found: seq<Row> := [];
      var start := Min(before - 1, |offsets|);
      if start <= 0 {
        return Page([], 0, true, 0);
      }
      var end := if start > SCAN then start - SCAN else 0;
      var index := start;
      while index > end && |found| < limit
        invariant end <= index <= start
        invariant found == Reversed(Matching(rows, index, start, keep))
        invariant |found| <= limit && (index == start ==> found == [])
      {
        var row := Read(index, decode);
        assert row == Some(rows[index - 1]);
        ReversedStep(rows, index, start, keep);
        if keep(row.value) {
          found := found + [row.value];
        }
        index := index - 1;
      }
      return Page(found, index + 1, index == 0, start - index);
    }
  }

  function Joined(found: seq<nat>, later: Option<seq<nat>>): Option<seq<nat>> {
    if later == None then None else Some(found + later.value)
  }

  lemma JoinedNothing(later: Option<seq<nat>>)
    ensures Joined([], later) == later
  {
    if later.Some? {
      assert [] + later.value == later.value;
    }
  }

  lemma JoinedStep(found: seq<nat>, position: nat, later: Option<seq<nat>>)
    ensures Joined(found, Joined([position], later)) == Joined(found + [position], later)
  {
    if later.Some? {
      assert found + ([position] + later.value) == found + [position] + later.value;
    }
  }

  lemma MatchingFirst(rows: seq<Row>, low: nat, high: nat, keep: Filter)
    requires low < high <= |rows|
    ensures Matching(rows, low, high, keep) == (if keep(rows[low]) then [rows[low]] else []) + Matching(rows, low + 1, high, keep)
  {
    MatchingSplit(rows, low, low + 1, high, keep);
    assert Matching(rows, low, low + 1, keep) == Matching(rows, low, low, keep) + (if keep(rows[low]) then [rows[low]] else []);
  }

  lemma {:induction false} ReversedFirst(first: seq<Row>, rows: seq<Row>)
    requires |first| == 1
    ensures Reversed(first + rows) == Reversed(rows) + first
  {
    if rows == [] {
      assert first + rows == first && first[..0] == [];
    } else {
      assert (first + rows)[..|first + rows| - 1] == first + rows[..|rows| - 1];
      ReversedFirst(first, rows[..|rows| - 1]);
    }
  }

  lemma EmptyPage(rows: seq<Row>, keep: Filter)
    ensures forall k: nat :: k <= |rows| ==> Reversed(Matching(rows, k, k, keep)) == []
  {
  }

  lemma ReversedStep(rows: seq<Row>, index: nat, high: nat, keep: Filter)
    requires 0 < index <= high <= |rows|
    ensures Reversed(Matching(rows, index - 1, high, keep)) ==
            Reversed(Matching(rows, index, high, keep)) + (if keep(rows[index - 1]) then [rows[index - 1]] else [])
  {
    MatchingFirst(rows, index - 1, high, keep);
    if keep(rows[index - 1]) {
      ReversedFirst([rows[index - 1]], Matching(rows, index, high, keep));
    } else {
      assert [] + Matching(rows, index, high, keep) == Matching(rows, index, high, keep);
    }
  }

  // ----- paging to the end

  // Pages taken one after another, each from where the one before ended, until one is complete.
  ghost predicate Pages(rows: seq<Row>, offset: nat, limit: nat, keep: Filter, pages: seq<Page>)
    decreases |pages|
  {
    && pages != []
    && ForwardPage(rows, offset, limit, keep, pages[0])
    && (pages[0].complete <==> |pages| == 1)
    && (|pages| > 1 ==> Pages(rows, pages[0].next, limit, keep, pages[1..]))
  }

  function AllRows(pages: seq<Page>): seq<Row> {
    if pages == [] then [] else pages[0].rows + AllRows(pages[1..])
  }

  // Paging shows every matching row exactly once and in order, in at most as many pages as there are rows.
  lemma {:induction false} PagesComplete(rows: seq<Row>, offset: nat, limit: nat, keep: Filter, pages: seq<Page>)
    requires offset < |rows| && Pages(rows, offset, limit, keep, pages)
    ensures AllRows(pages) == Matching(rows, offset, |rows|, keep)
    ensures |pages| <= |rows| - offset
    decreases |pages|
  {
    var page := pages[0];
    if |pages| > 1 {
      PagesComplete(rows, page.next, limit, keep, pages[1..]);
      MatchingSplit(rows, offset, page.next, |rows|, keep);
    } else {
      assert pages[1..] == [];
    }
  }

  // Pages none of which is complete.
  ghost predicate Unfinished(rows: seq<Row>, offset: nat, limit: nat, keep: Filter, pages: seq<Page>)
    decreases |pages|
  {
    pages != [] ==>
      && ForwardPage(rows, offset, limit, keep, pages[0]) && !pages[0].complete
      && Unfinished(rows, pages[0].next, limit, keep, pages[1..])
  }

  // There are fewer pages in a row that are not complete than rows, so that paging ends.
  lemma {:induction false} PagingEnds(rows: seq<Row>, offset: nat, limit: nat, keep: Filter, pages: seq<Page>)
    requires pages != [] && Unfinished(rows, offset, limit, keep, pages)
    ensures |pages| < |rows| - offset
    decreases |pages|
  {
    if |pages| > 1 {
      PagingEnds(rows, pages[0].next, limit, keep, pages[1..]);
    }
  }

  ghost predicate BackPages(rows: seq<Row>, before: int, limit: nat, keep: Filter, pages: seq<Page>)
    decreases |pages|
  {
    && pages != []
    && BackwardPage(rows, before, limit, keep, pages[0])
    && (pages[0].complete <==> |pages| == 1)
    && (|pages| > 1 ==> BackPages(rows, pages[0].next, limit, keep, pages[1..]))
  }

  lemma {:induction false} ReversedConcat(a: seq<Row>, b: seq<Row>)
    ensures Reversed(a + b) == Reversed(b) + Reversed(a)
  {
    if b == [] {
      assert a + b == a && Reversed(b) + Reversed(a) == Reversed(a);
    } else {
      assert (a + b)[..|a + b| - 1] == a + b[..|b| - 1];
      ReversedConcat(a, b[..|b| - 1]);
    }
  }

  // Paging backward shows every matching row before the start exactly once, newest first.
  lemma {:induction false} BackPagesComplete(rows: seq<Row>, before: int, limit: nat, keep: Filter, pages: seq<Page>)
    requires BackPages(rows, before, limit, keep, pages) && 0 < Min(before - 1, |rows|)
    ensures AllRows(pages) == Reversed(Matching(rows, 0, Min(before - 1, |rows|), keep))
    ensures |pages| <= Min(before - 1, |rows|)
    decreases |pages|
  {
    hide Reversed, Matching;
    var start := Min(before - 1, |rows|);
    var page := pages[0];
    if |pages| > 1 {
      BackPagesComplete(rows, page.next, limit, keep, pages[1..]);
      MatchingSplit(rows, 0, page.next - 1, start, keep);
      ReversedConcat(Matching(rows, 0, page.next - 1, keep), Matching(rows, page.next - 1, start, keep));
    } else {
      assert pages[1..] == [] && AllRows([]) == [] && page.rows + [] == page.rows;
    }
  }

  ghost predicate UnfinishedBack(rows: seq<Row>, before: int, limit: nat, keep: Filter, pages: seq<Page>)
    decreases |pages|
  {
    pages != [] ==>
      && BackwardPage(rows, before, limit, keep, pages[0]) && !pages[0].complete
      && UnfinishedBack(rows, pages[0].next, limit, keep, pages[1..])
  }

  lemma {:induction false} PagingBackEnds(rows: seq<Row>, before: int, limit: nat, keep: Filter, pages: seq<Page>)
    requires pages != [] && UnfinishedBack(rows, before, limit, keep, pages)
    ensures |pages| < Min(before - 1, |rows|)
    decreases |pages|
  {
    hide Reversed, Matching;
    if |pages| > 1 {
      PagingBackEnds(rows, pages[0].next, limit, keep, pages[1..]);
    }
  }
}
