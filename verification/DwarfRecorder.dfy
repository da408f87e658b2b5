// The line-table recorder: which source offset each emitted machine instruction belongs to, kept as
// differences between consecutive rows.
module DwarfRecorder {
  import opened Bytes
  import opened Leb128

  // The address of a stack element, used only as a key.
  type StackElement = nat

  datatype Event =
    | Register(element: StackElement, source: U32)
    | StartDeferred(element: StackElement)
    | Start(source: U32)
    | Finish
    | Record(destination: U32)
    | StartFunction(destination: U32)
    | FinishFunction(destination: U32)

  datatype Row = Row(destination: U32, source: U32)

  datatype OpCode = AdvancePc(offset: U32) | AdvanceLine(delta: I32) | Copy

  datatype Function = Function(lowPc: U32, highPc: U32)

  function Earlier(h: seq<Event>): seq<Event>
    requires h != []
  {
    h[..|h| - 1]
  }

  function Latest(h: seq<Event>): Event
    requires h != []
  {
    h[|h| - 1]
  }

  // The source offset an element waits with: its latest registration, unless it was started since.
  ghost function Registered(h: seq<Event>, element: StackElement): Option<U32> {
    if h == [] then None
    else match Latest(h)
      case Register(e, s) => if e == element then Some(s) else Registered(Earlier(h), element)
      case StartDeferred(e) => if e == element then None else Registered(Earlier(h), element)
      case _ => Registered(Earlier(h), element)
  }

  // Walking back from the end, the first start whose finish is not among the later events; `closed`
  // finishes are still to be paired up.
  ghost function OpenSource(h: seq<Event>, closed: nat): Option<U32> {
    if h == [] then None
    else match Latest(h)
      case Finish => OpenSource(Earlier(h), closed + 1)
      case Start(s) => if closed == 0 then Some(s) else OpenSource(Earlier(h), closed - 1)
      case StartDeferred(e) =>
        if closed == 0 then Registered(Earlier(h), e) else OpenSource(Earlier(h), closed - 1)
      case _ => OpenSource(Earlier(h), closed)
  }

  // What the table has to say: each recorded destination with the innermost operation then open.
  ghost function Recorded(h: seq<Event>): seq<Row> {
    if h == [] then []
    else
      var rows := Recorded(Earlier(h));
      if Latest(h).Record? && OpenSource(Earlier(h), 0).Some? then
        rows + [Row(Latest(h).destination, OpenSource(Earlier(h), 0).value)]
      else rows
  }

  // Each function with the last end reported before the next one began.
  ghost function Functions(h: seq<Event>): seq<Function> {
    if h == [] then []
    else
      var fs := Functions(Earlier(h));
      match Latest(h)
      case StartFunction(d) => fs + [Function(d, 0)]
      case FinishFunction(d) => if fs == [] then [] else fs[|fs| - 1 := fs[|fs| - 1].(highPc := d)]
      case _ => fs
  }

  lemma Appended(h: seq<Event>, e: Event)
    ensures Earlier(h + [e]) == h && Latest(h + [e]) == e
  {
  }

  // ---- What the table says of well-bracketed operations ----

  // Operations opened and not closed.
  function Depth(b: seq<Event>): int {
    if b == [] then 0
    else
      var before := Depth(Earlier(b));
      match Latest(b)
      case Start(_) => before + 1
      case StartDeferred(_) => before + 1
      case Finish => before - 1
      case _ => before
  }

  // Every operation is closed again, and none that was open before.
  ghost predicate Balanced(b: seq<Event>) {
    Depth(b) == 0 && forall i :: 0 <= i <= |b| ==> Depth(b[..i]) >= 0
  }

  lemma Shortened(h: seq<Event>, b: seq<Event>)
    requires b != []
    ensures Earlier(h + b) == h + Earlier(b) && Latest(h + b) == Latest(b)
    ensures forall i :: 0 <= i < |b| ==> Earlier(b)[..i] == b[..i]
  {
  }

  // Events that close nothing opened before them leave it open, as deep as they opened operations.
  lemma {:induction false} StaysOpen(h: seq<Event>, b: seq<Event>, k: nat)
    requires forall i :: 0 <= i <= |b| ==> Depth(b[..i]) >= 0
    ensures Depth(b) >= 0 && OpenSource(h + b, Depth(b) + k) == OpenSource(h, k)
  {
    assert b[..|b|] == b;
    if b == [] {
      assert h + b == h;
    } else {
      Shortened(h, b);
      StaysOpen(h, Earlier(b), k);
    }
  }

  // Whatever runs and ends inside an operation, a destination recorded next belongs to the operation.
  lemma RecordsInnermost(h: seq<Event>, source: U32, b: seq<Event>, destination: U32)
    requires Balanced(b)
    ensures Recorded(h + [Start(source)] + b + [Record(destination)])
      == Recorded(h + [Start(source)] + b) + [Row(destination, source)]
  {
    StaysOpen(h + [Start(source)], b, 0);
    Appended(h, Start(source));
    Appended(h + [Start(source)] + b, Record(destination));
  }

  // Once it ends, what was open before it is again.
  lemma OperationEnds(h: seq<Event>, source: U32, b: seq<Event>, k: nat)
    requires Balanced(b)
    ensures OpenSource(h + [Start(source)] + b + [Finish], k) == OpenSource(h, k)
  {
    StaysOpen(h + [Start(source)], b, k + 1);
    Appended(h, Start(source));
    Appended(h + [Start(source)] + b, Finish);
  }

  // Outside of all operations nothing is recorded.
  lemma NothingOpen(b: seq<Event>, destination: U32)
    requires Balanced(b)
    ensures Recorded(b + [Record(destination)]) == Recorded(b)
  {
    StaysOpen([], b, 0);
    assert [] + b == b;
    Appended(b, Record(destination));
  }

  // Events that neither register nor start the element.
  ghost predicate Spares(m: seq<Event>, element: StackElement) {
    forall e :: e in m ==> (e.Register? ==> e.element != element) && (e.StartDeferred? ==> e.element != element)
  }

  lemma {:induction false} StillWaits(h: seq<Event>, m: seq<Event>, element: StackElement)
    requires Spares(m, element)
    ensures Registered(h + m, element) == Registered(h, element)
  {
    if m == [] {
      assert h + m == h;
    } else {
      Shortened(h, m);
      StillWaits(h, Earlier(m), element);
    }
  }

  // A deferred operation stands for the offset its element was registered with last.
  lemma RecordsDeferred(h: seq<Event>, element: StackElement, source: U32, m: seq<Event>, b: seq<Event>,
                        destination: U32)
    requires Spares(m, element) && Balanced(b)
    ensures
      var before := h + [Register(element, source)] + m + [StartDeferred(element)] + b;
      Recorded(before + [Record(destination)]) == Recorded(before) + [Row(destination, source)]
  {
    var waiting := h + [Register(element, source)];
    StillWaits(waiting, m, element);
    Appended(h, Register(element, source));
    StaysOpen(waiting + m + [StartDeferred(element)], b, 0);
    Appended(waiting + m, StartDeferred(element));
    Appended(waiting + m + [StartDeferred(element)] + b, Record(destination));
  }

  // A function spans from its start to the last end reported before another one starts.
  lemma {:induction false} FunctionSpans(h: seq<Event>, low: U32, m: seq<Event>, high: U32)
    requires forall e :: e in m ==> !e.StartFunction?
    ensures Functions(h + [Event.StartFunction(low)] + m + [Event.FinishFunction(high)])
      == Functions(h) + [Function(low, high)]
  {
    var begun := h + [Event.StartFunction(low)];
    LastStarted(h, low, m);
    Appended(begun + m, Event.FinishFunction(high));
  }

  lemma {:induction false} LastStarted(h: seq<Event>, low: U32, m: seq<Event>)
    requires forall e :: e in m ==> !e.StartFunction?
    ensures
      var fs := Functions(h + [Event.StartFunction(low)] + m);
      |fs| == |Functions(h)| + 1 && fs[..|fs| - 1] == Functions(h) && fs[|fs| - 1].lowPc == low
  {
    var begun := h + [Event.StartFunction(low)];
    if m == [] {
      assert begun + m == begun;
      Appended(h, Event.StartFunction(low));
    } else {
      LastStarted(h, low, Earlier(m));
      Shortened(begun, m);
    }
  }

  // uint32_t arithmetic and the conversions between the two signednesses.
  function Plus(a: U32, b: U32): U32 {
    if a + b < WORD32 then a + b else a + b - WORD32
  }

  function Minus(a: U32, b: U32): U32 {
    if a >= b then a - b else a - b + WORD32
  }

  function Signed(u: U32): I32 {
    if u < 0x8000_0000 then u else u - WORD32
  }

  function Unsigned(i: I32): U32 {
    if i >= 0 then i else i + WORD32
  }

  // The registers dump starts with.
  const ORIGIN := Row(0, 0)

  function Position(rows: seq<Row>): Row {
    if rows == [] then ORIGIN else rows[|rows| - 1]
  }

  function PcStep(from: U32, to: U32): seq<OpCode> {
    if to == from then [] else [AdvancePc(Minus(to, from))]
  }

  function LineStep(from: U32, to: U32): seq<OpCode> {
    if to == from then [] else [AdvanceLine(Signed(Minus(to, from)))]
  }

  function Step(from: Row, to: Row): seq<OpCode> {
    PcStep(from.destination, to.destination) + LineStep(from.source, to.source) + [Copy]
  }

  function Deltas(rows: seq<Row>): seq<OpCode> {
    if rows == [] then []
    else Deltas(rows[..|rows| - 1]) + Step(Position(rows[..|rows| - 1]), rows[|rows| - 1])
  }

  lemma OneMoreRow(rows: seq<Row>, row: Row)
    ensures Deltas(rows + [row]) == Deltas(rows) + Step(Position(rows), row)
    ensures Position(rows + [row]) == row
  {
    assert (rows + [row])[..|rows|] == rows;
  }

  // The two registers of dump and the rows it has printed.
  datatype Machine = Machine(address: U32, line: U32, rows: seq<Row>)

  function Execute(m: Machine, op: OpCode): Machine {
    match op
    case AdvancePc(offset) => m.(address := Plus(m.address, offset))
    case AdvanceLine(delta) => m.(line := Plus(m.line, Unsigned(delta)))
    case Copy => m.(rows := m.rows + [Row(m.address, m.line)])
  }

  function Replay(ops: seq<OpCode>): Machine {
    if ops == [] then Machine(0, 0, [])
    else Execute(Replay(ops[..|ops| - 1]), ops[|ops| - 1])
  }

  lemma ReplayOne(ops: seq<OpCode>, op: OpCode)
    ensures Replay(ops + [op]) == Execute(Replay(ops), op)
  {
    assert (ops + [op])[..|ops|] == ops;
  }

  lemma ReplayPc(ops: seq<OpCode>, to: U32)
    ensures Replay(ops + PcStep(Replay(ops).address, to)) == Replay(ops).(address := to)
  {
    var from := Replay(ops).address;
    if from == to {
      assert ops + PcStep(from, to) == ops;
    } else {
      ReplayOne(ops, AdvancePc(Minus(to, from)));
    }
  }

  lemma ReplayLine(ops: seq<OpCode>, to: U32)
    ensures Replay(ops + LineStep(Replay(ops).line, to)) == Replay(ops).(line := to)
  {
    var from := Replay(ops).line;
    if from == to {
      assert ops + LineStep(from, to) == ops;
    } else {
      ReplayOne(ops, AdvanceLine(Signed(Minus(to, from))));
    }
  }

  lemma StepInParts(ops: seq<OpCode>, from: Row, to: Row)
    ensures ops + Step(from, to)
      == ops + PcStep(from.destination, to.destination) + LineStep(from.source, to.source) + [Copy]
  {
  }

  lemma ReplayStep(ops: seq<OpCode>, from: Row, to: Row)
    requires Replay(ops).address == from.destination && Replay(ops).line == from.source
    ensures Replay(ops + Step(from, to)) == Machine(to.destination, to.source, Replay(ops).rows + [to])
  {
    StepInParts(ops, from, to);
    ReplayPc(ops, to.destination);
    ReplayLine(ops + PcStep(from.destination, to.destination), to.source);
    ReplayOne(ops + PcStep(from.destination, to.destination) + LineStep(from.source, to.source), Copy);
  }

  // Replaying the differences gives back the rows, whatever they are.
  lemma {:induction false} ReplayDeltas(rows: seq<Row>)
    ensures Replay(Deltas(rows)) == Machine(Position(rows).destination, Position(rows).source, rows)
  {
    if rows != [] {
      var init, row := rows[..|rows| - 1], rows[|rows| - 1];
      assert rows == init + [row];
      ReplayDeltas(init);
      OneMoreRow(init, row);
      ReplayStep(Deltas(init), Position(init), row);
    }
  }

  function Destinations(rows: seq<Row>): (d: seq<U32>)
    ensures |d| == |rows| && forall i :: 0 <= i < |rows| ==> d[i] == rows[i].destination
  {
    if rows == [] then [] else Destinations(rows[..|rows| - 1]) + [rows[|rows| - 1].destination]
  }

  class Dwarf5Generator {
    ghost var history: seq<Event>
    var fileName: seq<Byte>
    var sequences: seq<OpCode>
    var functions: seq<Function>
    var currentSourceOffset: U32
    var currentDestinationOffset: U32
    var pendingDeferActions: map<StackElement, U32>
    var sourceOffsetStack: seq<U32>

    ghost predicate Valid()
      reads this
    {
      && (forall closed: nat :: OpenSource(history, closed) == Held(closed))
      && (forall e: StackElement :: Registered(history, e) ==
            if e in pendingDeferActions then Some(pendingDeferActions[e]) else None)
      && sequences == Deltas(Recorded(history))
      && Position(Recorded(history)) == Row(currentDestinationOffset, currentSourceOffset)
      && functions == Functions(history)
    }

    ghost function Held(depth: nat): Option<U32>
      reads this
    {
      if depth < |sourceOffsetStack| then Some(sourceOffsetStack[|sourceOffsetStack| - 1 - depth]) else None
    }

    constructor ()
      ensures Valid() && history == [] && fileName == []
    {
      history, fileName, sequences, functions := [], [], [], [];
      currentSourceOffset, currentDestinationOffset := 0, 0;
      pendingDeferActions, sourceOffsetStack := map[], [];
    }

    method RegisterPendingDeferAction(stackElement: StackElement, sourceOffset: U32)
      requires Valid()
      modifies this
      ensures Valid() && history == old(history) + [Register(stackElement, sourceOffset)]
      ensures fileName == old(fileName)
    {
      pendingDeferActions := pendingDeferActions[stackElement := sourceOffset];
      Appended(history, Register(stackElement, sourceOffset));
      history := history + [Register(stackElement, sourceOffset)];
    }

    // The element must be pending: the original asserts it.
    method StartDeferredOp(stackElement: StackElement)
      requires Valid() && stackElement in pendingDeferActions
      modifies this
      ensures Valid() && history == old(history) + [StartDeferred(stackElement)]
      ensures fileName == old(fileName)
    {
      sourceOffsetStack := sourceOffsetStack + [pendingDeferActions[stackElement]];
      pendingDeferActions := pendingDeferActions - {stackElement};
      Appended(history, StartDeferred(stackElement));
      history := history + [StartDeferred(stackElement)];
    }

    method StartOp(sourceOffset: U32)
      requires Valid()
      modifies this
      ensures Valid() && history == old(history) + [Start(sourceOffset)]
      ensures fileName == old(fileName)
    {
      sourceOffsetStack := sourceOffsetStack + [sourceOffset];
      Appended(history, Start(sourceOffset));
      history := history + [Start(sourceOffset)];
    }

    // Some operation must be open: the original asserts it.
    method FinishOp()
      requires Valid() && sourceOffsetStack != []
      modifies this
      ensures Valid() && history == old(history) + [Finish]
      ensures fileName == old(fileName)
    {
      sourceOffsetStack := sourceOffsetStack[..|sourceOffsetStack| - 1];
      Appended(history, Finish);
      history := history + [Finish];
    }

    method RecordLocation(destinationOffset: U32)
      requires Valid()
      modifies this
      ensures Valid() && history == old(history) + [Record(destinationOffset)]
      ensures fileName == old(fileName)
    {
      ghost var open := OpenSource(history, 0);
      assert open == Held(0);
      Appended(history, Record(destinationOffset));
      ghost var rows := Recorded(history);
      if sourceOffsetStack != [] {
        AddSourceDestinationMap(sourceOffsetStack[|sourceOffsetStack| - 1], destinationOffset);
        OneMoreRow(rows, Row(destinationOffset, sourceOffsetStack[|sourceOffsetStack| - 1]));
      }
      history := history + [Record(destinationOffset)];
    }

    method AddSourceDestinationMap(sourceOffset: U32, destinationOffset: U32)
      modifies this`sequences, this`currentSourceOffset, this`currentDestinationOffset
      ensures sequences == old(sequences) +
        Step(Row(old(currentDestinationOffset), old(currentSourceOffset)), Row(destinationOffset, sourceOffset))
      ensures currentDestinationOffset == destinationOffset && currentSourceOffset == sourceOffset
    {
      if destinationOffset != currentDestinationOffset {
        sequences := sequences + [AdvancePc(Minus(destinationOffset, currentDestinationOffset))];
      }
      if sourceOffset != currentSourceOffset {
        sequences := sequences + [AdvanceLine(Signed(Minus(sourceOffset, currentSourceOffset)))];
      }
      sequences := sequences + [Copy];
      currentSourceOffset := sourceOffset;
      currentDestinationOffset := destinationOffset;
    }

    method StartFunction(destinationOffset: U32)
      requires Valid()
      modifies this
      ensures Valid() && history == old(history) + [Event.StartFunction(destinationOffset)]
      ensures fileName == old(fileName)
    {
      functions := functions + [Function(destinationOffset, 0)];
      Appended(history, Event.StartFunction(destinationOffset));
      history := history + [Event.StartFunction(destinationOffset)];
    }

    // Some function must have been started: the original asserts it.
    method FinishFunction(destinationOffset: U32)
      requires Valid() && functions != []
      modifies this
      ensures Valid() && history == old(history) + [Event.FinishFunction(destinationOffset)]
      ensures fileName == old(fileName)
    {
      functions := functions[|functions| - 1 := functions[|functions| - 1].(highPc := destinationOffset)];
      Appended(history, Event.FinishFunction(destinationOffset));
      history := history + [Event.FinishFunction(destinationOffset)];
    }

    method SetWasmFileName(name: seq<Byte>)
      requires Valid()
      modifies this`fileName
      ensures Valid() && fileName == name && history == old(history)
    {
      fileName := name;
    }

    // The rows dump prints are the recorded pairs, in order.
    method Dump() returns (printed: seq<Row>)
      requires Valid()
      ensures printed == Recorded(history)
    {
      var address: U32, line: U32 := 0, 0;
      printed := [];
      var i := 0;
      while i < |sequences|
        invariant 0 <= i <= |sequences|
        invariant Replay(sequences[..i]) == Machine(address, line, printed)
      {
        assert sequences[..i + 1][..i] == sequences[..i];
        match sequences[i] {
          case AdvancePc(offset) => address := Plus(address, offset);
          case AdvanceLine(delta) => line := Plus(line, Unsigned(delta));
          case Copy => printed := printed + [Row(address, line)];
        }
        i := i + 1;
      }
      assert sequences[..i] == sequences;
      ReplayDeltas(Recorded(history));
    }

    // The machine offsets alone.
    method GetInstructions() returns (output: seq<U32>)
      requires Valid()
      ensures output == Destinations(Recorded(history))
    {
      var address: U32 := 0;
      output := [];
      var i := 0;
      while i < |sequences|
        invariant 0 <= i <= |sequences|
        invariant Replay(sequences[..i]).address == address
        invariant Destinations(Replay(sequences[..i]).rows) == output
      {
        assert sequences[..i + 1][..i] == sequences[..i];
        match sequences[i] {
          case AdvancePc(offset) => address := Plus(address, offset);
          case AdvanceLine(_) =>
          case Copy => output := output + [address];
        }
        i := i + 1;
      }
      assert sequences[..i] == sequences;
      ReplayDeltas(Recorded(history));
    }
  }
}
