// The line-number program: its bytes, and a reader that follows section 6.2 of DWARF 5.
module DwarfLine {
  import opened Bytes
  import opened Leb128
  import opened DwarfRecorder

  function EncodeOp(op: OpCode): seq<Byte> {
    match op
    case AdvancePc(offset) => [2] + ULeb(offset)
    case AdvanceLine(delta) => [3] + SLeb(delta)
    case Copy => [1]
  }

  function EncodeOps(ops: seq<OpCode>): seq<Byte> {
    if ops == [] then [] else EncodeOps(ops[..|ops| - 1]) + EncodeOp(ops[|ops| - 1])
  }

  lemma EncodeOneMore(out: seq<Byte>, ops: seq<OpCode>, i: nat)
    requires i < |ops|
    ensures out + EncodeOps(ops[..i]) + EncodeOp(ops[i]) == out + EncodeOps(ops[..i + 1])
  {
    assert ops[..i + 1][..i] == ops[..i];
  }

  method ToDwarf5Format(op: OpCode, result: seq<Byte>) returns (out: seq<Byte>)
    ensures out == result + EncodeOp(op)
  {
    match op {
      case AdvancePc(offset) => out := EncodeULEB128(offset, result + [2]);
      case AdvanceLine(delta) => out := EncodeSLEB128(delta, result + [3]);
      case Copy => out := result + [1];
    }
  }

  // ---- The reader's state machine, section 6.2.2, with registers that never wrap ----

  datatype Registers = Registers(address: nat, opIndex: nat, line: int, file: nat, isStmt: bool)

  datatype TableRow = TableRow(address: nat, line: int, file: nat, isStmt: bool, endSequence: bool)

  type Positive = n: int | 0 < n witness 1

  // What a header says about its program: how far an advance goes, how special opcodes are spread, and how
  // many operands each standard opcode takes; opcode_base is one more than there are of these.
  datatype LineHeader = LineHeader(minInstLength: nat, maxOps: Positive, defaultIsStmt: bool,
                                   lineBase: int, lineRange: Positive, operands: seq<Byte>)

  // The registers a sequence starts with; `line` is what the line register starts with.
  function Fresh(line: int, h: LineHeader): Registers {
    Registers(0, 0, line, 1, h.defaultIsStmt)
  }

  datatype Instruction =
    | Special(adjusted: nat)
    | CopyRow
    | MovePc(offset: nat)
    | MoveLine(delta: int)
    | SetFile(file: nat)
    | EndSequence
    | Unknown

  datatype Fetched = Nothing | Fetched(instruction: Instruction, length: nat)

  // How many bytes n operands take.
  function Operands(p: seq<Byte>, n: nat): (l: Option<nat>)
    ensures l.Some? ==> l.value <= |p| && (0 < n ==> p != [])
  {
    if n == 0 then Some(0)
    else if p == [] then None
    else
      match Operands(p[Length(p)..], n - 1)
      case None => None
      case Some(more) => Some(Length(p) + more)
  }

  // A standard opcode with the operands the header gives it; those unknown to this reader only take theirs.
  function Standard(opcode: Byte, operands: nat, p: seq<Byte>): Instruction
    requires 0 < operands ==> p != []
  {
    if opcode == 1 && operands == 0 then CopyRow
    else if opcode == 2 && operands == 1 then MovePc(UValue(p))
    else if opcode == 3 && operands == 1 then MoveLine(SValue(p))
    else if opcode == 4 && operands == 1 then SetFile(UValue(p))
    else Unknown
  }

  // An extended opcode, behind its zero byte and its size.
  function Extended(p: seq<Byte>): (f: Fetched)
    requires p != []
    ensures f.Fetched? ==> 0 < f.length <= |p|
  {
    if |p| == 1 then Nothing
    else
      var n, size := Length(p[1..]), UValue(p[1..]);
      if size == 0 || |p| < 1 + n + size then Nothing
      else Fetched(if p[1 + n] == 1 then EndSequence else Unknown, 1 + n + size)
  }

  // Special, standard and extended opcodes (sections 6.2.5.1 to 6.2.5.3).
  function Fetch(p: seq<Byte>, h: LineHeader): (f: Fetched)
    requires p != []
    ensures f.Fetched? ==> 0 < f.length <= |p|
  {
    if p[0] > |h.operands| then Fetched(Special(p[0] - |h.operands| - 1), 1)
    else if p[0] == 0 then Extended(p)
    else
      match Operands(p[1..], h.operands[p[0] - 1])
      case None => Nothing
      case Some(length) => Fetched(Standard(p[0], h.operands[p[0] - 1], p[1..]), 1 + length)
  }

  // The address and op_index registers after an operation advance.
  function Advanced(r: Registers, advance: nat, h: LineHeader): Registers {
    r.(address := r.address + h.minInstLength * ((r.opIndex + advance) / h.maxOps),
       opIndex := (r.opIndex + advance) % h.maxOps)
  }

  // The registers after an instruction.
  function Moved(r: Registers, i: Instruction, line: int, h: LineHeader): Registers {
    match i
    case Special(adjusted) =>
      Advanced(r, adjusted / h.lineRange, h).(line := r.line + h.lineBase + adjusted % h.lineRange)
    case MovePc(offset) => Advanced(r, offset, h)
    case MoveLine(delta) => r.(line := r.line + delta)
    case SetFile(file) => r.(file := file)
    case EndSequence => Fresh(line, h)
    case _ => r
  }

  function RowAt(r: Registers, endSequence: bool): TableRow {
    TableRow(r.address, r.line, r.file, r.isStmt, endSequence)
  }

  // The row an instruction appends: the end of a sequence shows the registers before they are reset.
  function RowsOf(r: Registers, i: Instruction, line: int, h: LineHeader): seq<TableRow> {
    match i
    case Special(_) => [RowAt(Moved(r, i, line, h), false)]
    case CopyRow => [RowAt(r, false)]
    case EndSequence => [RowAt(r, true)]
    case _ => []
  }

  function Run(p: seq<Byte>, r: Registers, line: int, h: LineHeader): Option<seq<TableRow>>
    decreases |p|
  {
    if p == [] then Some([])
    else
      match Fetch(p, h)
      case Nothing => None
      case Fetched(i, n) => Prepend(RowsOf(r, i, line, h), Run(p[n..], Moved(r, i, line, h), line, h))
  }

  function Prepend(rows: seq<TableRow>, later: Option<seq<TableRow>>): Option<seq<TableRow>> {
    match later
    case None => None
    case Some(more) => Some(rows + more)
  }

  lemma PrependTwice(a: seq<TableRow>, b: seq<TableRow>, later: Option<seq<TableRow>>)
    ensures Prepend(a, Prepend(b, later)) == Prepend(a + b, later)
    ensures Prepend([], later) == later
  {
    if later.Some? {
      assert a + (b + later.value) == (a + b) + later.value;
      assert [] + later.value == later.value;
    }
  }

  // ---- What the opcodes mean to such a reader ----

  datatype Tracker = Tracker(address: nat, line: int, file: nat, rows: seq<TableRow>) {
    function After(op: OpCode): Tracker {
      match op
      case AdvancePc(offset) => this.(address := address + offset)
      case AdvanceLine(delta) => this.(line := line + delta)
      case Copy => this.(rows := rows + Shown(op))
    }

    function Shown(op: OpCode): seq<TableRow> {
      if op.Copy? then [RowAt(Held(), false)] else []
    }

    function Ahead(pc: nat, ln: int): Tracker {
      Tracker(address + pc, line + ln, file, rows)
    }

    function Held(): Registers {
      Registers(address, 0, line, file, true)
    }
  }

  // Tracking starts with these values of the line and file registers.
  function Track(ops: seq<OpCode>, line: int, file: nat): Tracker {
    if ops == [] then Tracker(0, line, file, []) else Track(ops[..|ops| - 1], line, file).After(ops[|ops| - 1])
  }

  // The opcodes never select a file.
  lemma {:induction false} TrackKeepsFile(ops: seq<OpCode>, line: int, file: nat)
    ensures var t := Track(ops, line, file);
      t.file == file && forall i :: 0 <= i < |t.rows| ==> t.rows[i].file == file
  {
    if ops != [] {
      TrackKeepsFile(ops[..|ops| - 1], line, file);
    }
  }

  // The file the program selects.
  const FILE_INDEX: nat := 1

  function Meaning(op: OpCode): Instruction {
    match op
    case AdvancePc(offset) => MovePc(offset)
    case AdvanceLine(delta) => MoveLine(delta)
    case Copy => CopyRow
  }

  // Headers under which an operand of DW_LNS_advance_pc counts bytes, every row is a statement, and the four
  // standard opcodes in use take the operands of section 6.2.5.2.
  predicate Plain(h: LineHeader) {
    h.minInstLength == h.maxOps == 1 && h.defaultIsStmt && [0, 1, 1, 1] <= h.operands
  }

  lemma PlainOperands(h: LineHeader)
    requires Plain(h)
    ensures |h.operands| >= 4
    ensures h.operands[0] == 0 && h.operands[1] == h.operands[2] == h.operands[3] == 1
  {
  }

  lemma OneOperand(p: seq<Byte>)
    requires p != []
    ensures Operands(p, 1) == Some(Length(p))
  {
    assert Operands(p[Length(p)..], 0) == Some(0);
  }

  // An opcode read from its bytes, whatever follows them.
  lemma FetchEncoded(op: OpCode, tail: seq<Byte>, h: LineHeader)
    requires Plain(h)
    ensures Fetch(EncodeOp(op) + tail, h) == Fetched(Meaning(op), |EncodeOp(op)|)
  {
    PlainOperands(h);
    if op.AdvancePc? {
      URoundTrip(op.offset, tail);
      HeadFirst(2, ULeb(op.offset), tail);
      OneOperand(ULeb(op.offset) + tail);
    } else if op.AdvanceLine? {
      SRoundTrip(op.delta, tail);
      HeadFirst(3, SLeb(op.delta), tail);
      OneOperand(SLeb(op.delta) + tail);
    }
  }

  lemma RunOp(op: OpCode, tail: seq<Byte>, t: Tracker, line: int, h: LineHeader)
    requires Plain(h)
    ensures Run(EncodeOp(op) + tail, t.Held(), line, h)
      == Prepend(t.Shown(op), Run(tail, t.After(op).Held(), line, h))
  {
    var p := EncodeOp(op) + tail;
    FetchEncoded(op, tail, h);
    assert p[|EncodeOp(op)|..] == tail;
    assert Moved(t.Held(), Meaning(op), line, h) == t.After(op).Held();
    assert RowsOf(t.Held(), Meaning(op), line, h) == t.Shown(op);
  }

  // Reading the bytes of the opcodes back is tracking the opcodes.
  lemma {:induction false} RunEncoded(ops: seq<OpCode>, tail: seq<Byte>, file: nat, line: int, h: LineHeader)
    requires Plain(h)
    ensures Run(EncodeOps(ops) + tail, Track([], line, file).Held(), line, h)
      == Prepend(Track(ops, line, file).rows, Run(tail, Track(ops, line, file).Held(), line, h))
  {
    if ops == [] {
      assert EncodeOps(ops) + tail == tail;
      PrependTwice([], [], Run(tail, Track([], line, file).Held(), line, h));
    } else {
      var init, op := ops[..|ops| - 1], ops[|ops| - 1];
      var t := Track(init, line, file);
      assert EncodeOps(ops) + tail == EncodeOps(init) + (EncodeOp(op) + tail);
      calc {
        Run(EncodeOps(ops) + tail, Track([], line, file).Held(), line, h);
        { RunEncoded(init, EncodeOp(op) + tail, file, line, h); }
        Prepend(t.rows, Run(EncodeOp(op) + tail, t.Held(), line, h));
        { RunOneMore(t, op, tail, line, h); }
        Prepend(t.After(op).rows, Run(tail, t.After(op).Held(), line, h));
      }
    }
  }

  lemma RunOneMore(t: Tracker, op: OpCode, tail: seq<Byte>, line: int, h: LineHeader)
    requires Plain(h)
    ensures Prepend(t.rows, Run(EncodeOp(op) + tail, t.Held(), line, h))
      == Prepend(t.After(op).rows, Run(tail, t.After(op).Held(), line, h))
  {
    RunOp(op, tail, t, line, h);
    PrependTwice(t.rows, t.Shown(op), Run(tail, t.After(op).Held(), line, h));
    assert t.rows + t.Shown(op) == t.After(op).rows;
  }

  function Program(ops: seq<OpCode>): seq<Byte> {
    [4, FILE_INDEX] + EncodeOps(ops) + [0, 1, 1]
  }

  lemma ProgramRows(ops: seq<OpCode>, line: int, h: LineHeader)
    requires Plain(h)
    ensures
      var t := Track(ops, line, FILE_INDEX);
      Run(Program(ops), Fresh(line, h), line, h) == Some(t.rows + [RowAt(t.Held(), true)])
  {
    var body := EncodeOps(ops) + [0, 1, 1];
    assert Program(ops) == [4, 1] + body;
    FileSet(body, Fresh(line, h), line, h);
    RunEncoded(ops, [0, 1, 1], 1, line, h);
    SequenceEnd(Track(ops, line, FILE_INDEX).Held(), line, h);
  }

  lemma FileSet(rest: seq<Byte>, r: Registers, line: int, h: LineHeader)
    requires r.file == 1 && Plain(h)
    ensures Run([4, 1] + rest, r, line, h) == Run(rest, r, line, h)
  {
    var p := [4, 1] + rest;
    PlainOperands(h);
    OneOperand(p[1..]);
    assert p[1..][0] == 1;
    assert Fetch(p, h) == Fetched(SetFile(1), 2);
    assert p[2..] == rest;
    PrependTwice([], [], Run(rest, r, line, h));
  }

  lemma SequenceEnd(r: Registers, line: int, h: LineHeader)
    ensures Run([0, 1, 1], r, line, h) == Some([RowAt(r, true)])
  {
    var p: seq<Byte> := [0, 1, 1];
    assert p[1..] == [1, 1];
    assert Fetch(p, h) == Fetched(EndSequence, 3);
    assert p[3..] == [] && Run([], Fresh(line, h), line, h) == Some([]);
    var row := RowsOf(r, EndSequence, line, h);
    assert row + [] == row;
  }

  // ---- The rows a reader sees against the rows recorded ----

  ghost predicate SameWord(a: int, b: int) {
    (a - b) % WORD32 == 0
  }

  // Row by row equal once both registers are cut to 32 bits; the reader's line starts at `line`.
  ghost predicate Congruent(seen: seq<TableRow>, rows: seq<Row>, line: int) {
    |seen| == |rows| && forall i :: 0 <= i < |rows| ==>
      !seen[i].endSequence && seen[i].isStmt && SameWord(seen[i].address, rows[i].destination)
      && SameWord(seen[i].line - line, rows[i].source)
  }

  ghost predicate Exact(seen: seq<TableRow>, rows: seq<Row>, line: int) {
    |seen| == |rows| && forall i :: 0 <= i < |rows| ==>
      seen[i].address == rows[i].destination && seen[i].line - line == rows[i].source
  }

  function Before(rows: seq<Row>, i: nat): Row
    requires i <= |rows|
  {
    if i == 0 then ORIGIN else rows[i - 1]
  }

  // Destinations never go back and sources never jump by 2^31 or more.
  ghost predicate GentleStep(from: Row, to: Row) {
    from.destination <= to.destination && -0x8000_0000 <= to.source - from.source < 0x8000_0000
  }

  ghost predicate Gentle(rows: seq<Row>) {
    forall i :: 0 <= i < |rows| ==> GentleStep(Before(rows, i), rows[i])
  }

  lemma TrackOne(ops: seq<OpCode>, op: OpCode, line: int)
    ensures Track(ops + [op], line, FILE_INDEX) == Track(ops, line, FILE_INDEX).After(op)
  {
    assert (ops + [op])[..|ops|] == ops;
  }

  lemma TrackPc(ops: seq<OpCode>, from: U32, to: U32, line: int)
    ensures Track(ops + PcStep(from, to), line, FILE_INDEX) == Track(ops, line, FILE_INDEX).Ahead(Minus(to, from), 0)
  {
    if from == to {
      assert ops + PcStep(from, to) == ops;
    } else {
      TrackOne(ops, AdvancePc(Minus(to, from)), line);
    }
  }

  lemma TrackLine(ops: seq<OpCode>, from: U32, to: U32, line: int)
    ensures Track(ops + LineStep(from, to), line, FILE_INDEX)
      == Track(ops, line, FILE_INDEX).Ahead(0, Signed(Minus(to, from)))
  {
    if from == to {
      assert ops + LineStep(from, to) == ops;
    } else {
      TrackOne(ops, AdvanceLine(Signed(Minus(to, from))), line);
    }
  }

  function Reached(t: Tracker, from: Row, to: Row): Tracker {
    t.Ahead(Minus(to.destination, from.destination), Signed(Minus(to.source, from.source))).After(Copy)
  }

  lemma TrackStep(ops: seq<OpCode>, from: Row, to: Row, line: int)
    ensures Track(ops + Step(from, to), line, FILE_INDEX) == Reached(Track(ops, line, FILE_INDEX), from, to)
  {
    var pc, ln := PcStep(from.destination, to.destination), LineStep(from.source, to.source);
    StepInParts(ops, from, to);
    TrackPc(ops, from.destination, to.destination, line);
    TrackLine(ops + pc, from.source, to.source, line);
    TrackOne(ops + pc + ln, Copy, line);
  }

  lemma TrackRow(init: seq<Row>, row: Row, line: int)
    ensures Track(Deltas(init + [row]), line, FILE_INDEX)
      == Reached(Track(Deltas(init), line, FILE_INDEX), Position(init), row)
  {
    OneMoreRow(init, row);
    TrackStep(Deltas(init), Position(init), row, line);
  }

  lemma Turn(x: int)
    ensures (x + WORD32) % WORD32 == x % WORD32 == (x - WORD32) % WORD32
  {
  }

  lemma MoveWord(a: int, from: U32, to: U32)
    requires SameWord(a, from)
    ensures SameWord(a + Minus(to, from), to) && SameWord(a + Signed(Minus(to, from)), to)
  {
    var up, signed := Minus(to, from), Signed(Minus(to, from));
    assert a + up - to == a - from || a + up - to == a - from + WORD32;
    assert a + signed - to == a + up - to || a + signed - to == a + up - to - WORD32;
    Turn(a - from);
    Turn(a + up - to);
  }

  lemma CongruentGrows(seen: seq<TableRow>, last: TableRow, init: seq<Row>, row: Row, line: int)
    requires Congruent(seen, init, line)
    requires !last.endSequence && last.isStmt
    requires SameWord(last.address, row.destination) && SameWord(last.line - line, row.source)
    ensures Congruent(seen + [last], init + [row], line)
  {
  }

  // Whatever is recorded, a reader's rows are statements at the recorded pairs modulo 2^32.
  lemma {:induction false} ReadersAgree(rows: seq<Row>, line: int)
    ensures Congruent(Track(Deltas(rows), line, FILE_INDEX).rows, rows, line)
    ensures Near(Track(Deltas(rows), line, FILE_INDEX), Position(rows), line)
  {
    if rows != [] {
      var init, row := rows[..|rows| - 1], rows[|rows| - 1];
      assert rows == init + [row];
      ReadersAgree(init, line);
      TrackRow(init, row, line);
      RowAgrees(Track(Deltas(init), line, FILE_INDEX), init, row, line);
    }
  }

  lemma RowAgrees(t: Tracker, init: seq<Row>, row: Row, line: int)
    requires Congruent(t.rows, init, line) && Near(t, Position(init), line)
    ensures Congruent(Reached(t, Position(init), row).rows, init + [row], line)
    ensures Near(Reached(t, Position(init), row), row, line)
  {
    var s := Reached(t, Position(init), row);
    MoveWord(t.address, Position(init).destination, row.destination);
    MoveWord(t.line - line, Position(init).source, row.source);
    CongruentGrows(t.rows, RowAt(s.Held(), false), init, row, line);
  }

  ghost predicate Near(t: Tracker, row: Row, line: int) {
    SameWord(t.address, row.destination) && SameWord(t.line - line, row.source)
  }

  // Its registers, wider than 32 bits, hold exactly the recorded values if and only if the destinations
  // never decrease and no source step needs more than 31 bits.
  lemma {:induction false} ExactlyWhenGentle(rows: seq<Row>, line: int)
    ensures Exact(Track(Deltas(rows), line, FILE_INDEX).rows, rows, line) <==> Gentle(rows)
    ensures Gentle(rows) ==> At(Track(Deltas(rows), line, FILE_INDEX), Position(rows), line)
  {
    if rows != [] {
      var init, row := rows[..|rows| - 1], rows[|rows| - 1];
      var t, s := Track(Deltas(init), line, FILE_INDEX), Track(Deltas(rows), line, FILE_INDEX);
      assert rows == init + [row];
      ExactlyWhenGentle(init, line);
      TrackRow(init, row, line);
      ReadersAgree(init, line);
      ExactSplits(t.rows, RowAt(s.Held(), false), init, row, line);
      GentleSplits(init, row);
    }
  }

  // A destination that goes back by one reaches a reader as one almost 2^32 further on.
  lemma BackwardsRowIsFarOff(line: int)
    ensures var rows := [Row(1, 0), Row(0, 0)];
      var seen := Track(Deltas(rows), line, FILE_INDEX).rows;
      |seen| == 2 && seen[1].address == WORD32
  {
    var rows := [Row(1, 0), Row(0, 0)];
    assert rows == [Row(1, 0)] + [Row(0, 0)] && [Row(1, 0)] == [] + [Row(1, 0)];
    TrackRow([], Row(1, 0), line);
    TrackRow([Row(1, 0)], Row(0, 0), line);
  }

  ghost predicate At(t: Tracker, row: Row, line: int) {
    t.address == row.destination && t.line - line == row.source
  }

  lemma ExactSplits(seen: seq<TableRow>, last: TableRow, init: seq<Row>, row: Row, line: int)
    requires |seen| == |init|
    ensures Exact(seen + [last], init + [row], line) <==>
      Exact(seen, init, line) && last.address == row.destination && last.line - line == row.source
  {
    var all, rows := seen + [last], init + [row];
    assert forall i :: 0 <= i < |init| ==> all[i] == seen[i] && rows[i] == init[i];
    if Exact(all, rows, line) {
      assert all[|init|] == last && rows[|init|] == row;
      forall i | 0 <= i < |init|
        ensures seen[i].address == init[i].destination && seen[i].line - line == init[i].source
      {
        assert all[i] == seen[i] && rows[i] == init[i];
      }
    }
  }

  lemma GentleSplits(init: seq<Row>, row: Row)
    ensures Gentle(init + [row]) <==> Gentle(init) && GentleStep(Position(init), row)
  {
    var rows := init + [row];
    assert forall i :: 0 <= i < |init| ==> rows[i] == init[i] && Before(rows, i) == Before(init, i);
    assert rows[|init|] == row && Before(rows, |init|) == Position(init);
    if Gentle(rows) {
      assert GentleStep(Before(rows, |init|), rows[|init|]);
    }
  }
}
