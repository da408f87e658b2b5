// The disassembler's walk: it consumes every element of a binary module, from the end of the file to its
// start, and prints a line for each.
module Disassembly {
  import opened Bytes
  import opened Bits
  import opened BinaryFormat
  import opened BinaryReaders
  import opened BinaryLayout

  // A printed element and the offset of its first byte.
  datatype Line = Line(item: Item, offset: nat)

  function Listing(items: Items): seq<Line> {
    match items
    case Done => []
    case More(head, tail) => [Line(head, Size(tail))] + Listing(tail)
  }

  lemma ListingStep(output: seq<Line>, items: Items)
    requires items.More?
    ensures output + Listing(items) == (output + [Line(items.head, Size(items.tail))]) + Listing(items.tail)
  {
  }

  // The bytes a line is printed for lie at its offset.
  ghost predicate Shows(file: seq<Byte>, line: Line) {
    && line.offset + Width(line.item) <= |file|
    && match line.item
       case U8(b) => file[line.offset] == b
       case Num(v) => Word(file, line.offset) == v
       case Blob(bytes, padding) => file[line.offset..line.offset + Width(line.item)] == bytes + padding
  }

  ghost predicate Adjoins(lines: seq<Line>, i: nat, end: nat)
    requires i < |lines|
  {
    lines[i].offset + Width(lines[i].item) == if i == 0 then end else lines[i - 1].offset
  }

  ghost predicate AllAdjoin(lines: seq<Line>, end: nat) {
    forall i {:trigger Adjoins(lines, i, end)} :: 0 <= i < |lines| ==> Adjoins(lines, i, end)
  }

  // From the end of a file to its start the lines show all of it, each up to where the one before it starts.
  ghost predicate Tiles(file: seq<Byte>, lines: seq<Line>) {
    && (forall i :: 0 <= i < |lines| ==> Shows(file, lines[i]))
    && AllAdjoin(lines, |file|)
    && if lines == [] then file == [] else lines[|lines| - 1].offset == 0
  }

  lemma {:induction false} ListingTiles(file: seq<Byte>, items: Items)
    requires file == Encoded(items) && |file| < WORD32
    ensures Tiles(file, Listing(items))
    decreases items
  {
    if items.More? {
      ListingTiles(Encoded(items.tail), items.tail);
      LineShown(file, items);
      TilesMore(file, Line(items.head, Size(items.tail)), Encoded(items.tail), Listing(items.tail));
    }
  }

  lemma TilesMore(file: seq<Byte>, line: Line, rest: seq<Byte>, later: seq<Line>)
    requires Tiles(rest, later) && rest <= file
    requires Shows(file, line) && line.offset == |rest| && |rest| + Width(line.item) == |file|
    ensures Tiles(file, [line] + later)
  {
    var lines := [line] + later;
    forall i | 0 <= i < |lines|
      ensures Shows(file, lines[i])
    {
      if i > 0 {
        ShownLonger(rest, file, later[i - 1]);
      }
    }
    AdjoinMore(line, later, |rest|, |file|);
    assert later != [] ==> lines[|lines| - 1] == later[|later| - 1];
  }

  lemma AdjoinMore(line: Line, later: seq<Line>, start: nat, end: nat)
    requires AllAdjoin(later, start) && line.offset == start && start + Width(line.item) == end
    ensures AllAdjoin([line] + later, end)
  {
    var lines := [line] + later;
    forall i | 0 <= i < |lines|
      ensures Adjoins(lines, i, end)
    {
      if i > 0 {
        assert Adjoins(later, i - 1, start);
        assert lines[i] == later[i - 1] && lines[i - 1] == if i == 1 then line else later[i - 2];
      }
    }
  }

  lemma LineShown(file: seq<Byte>, items: Items)
    requires file == Encoded(items) && items.More? && |file| < WORD32
    ensures Shows(file, Line(items.head, Size(items.tail)))
  {
    assert file[..|file|] == file;
    PopItem(file, |file|, items);
    match items.head {
      case U8(_) => PopU8(file, |file|, items);
      case Num(_) => PopNum(file, |file|, items);
      case Blob(_, _) =>
    }
  }

  lemma ShownLonger(rest: seq<Byte>, file: seq<Byte>, line: Line)
    requires Shows(rest, line) && rest <= file
    ensures Shows(file, line)
  {
    assert file[line.offset..line.offset + Width(line.item)] == rest[line.offset..line.offset + Width(line.item)];
  }

  lemma OneFunction(fs: seq<ExportedFunction>, i: nat, rest: Items)
    requires i < |fs|
    ensures Functions(fs[i..], rest)
      == More(Num(fs[i].index), Sized(fs[i].name, Called(fs[i].callable, Functions(fs[i + 1..], rest))))
  {
    assert fs[i..][0] == fs[i] && fs[i..][1..] == fs[i + 1..];
  }

  class DisassemblerImpl {
    const binaryData: seq<Byte>
    var stepPtr: nat
    var outputBuffer: seq<Line>
    ghost var todo: Items
    ghost const whole: seq<Line>

    // The cursor is in front of what is still to be printed.
    ghost predicate Valid()
      reads this
    {
      At(binaryData, stepPtr, todo) && outputBuffer + Listing(todo) == whole
    }

    constructor (data: seq<Byte>, ghost items: Items)
      requires |data| < WORD32 && data == Encoded(items)
      ensures Valid() && todo == items && whole == Listing(items) && binaryData == data
    {
      binaryData, stepPtr, outputBuffer := data, |data|, [];
      todo, whole := items, Listing(items);
      new;
      assert data[..|data|] == data;
    }

    method ConsumeU32() returns (v: U32)
      requires Valid() && todo.More? && todo.head.Num?
      modifies this
      ensures Valid() && v == old(todo).head.v && todo == old(todo).tail && stepPtr + 4 == old(stepPtr)
    {
      PopNum(binaryData, stepPtr, todo);
      ListingStep(outputBuffer, todo);
      stepPtr := stepPtr - 4;
      v := Word(binaryData, stepPtr);
      outputBuffer := outputBuffer + [Line(Num(v), stepPtr)];
      todo := todo.tail;
    }

    method ConsumeU8() returns (b: Byte)
      requires Valid() && todo.More? && todo.head.U8?
      modifies this
      ensures Valid() && b == old(todo).head.b && todo == old(todo).tail
    {
      PopU8(binaryData, stepPtr, todo);
      ListingStep(outputBuffer, todo);
      stepPtr := stepPtr - 1;
      b := binaryData[stepPtr];
      outputBuffer := outputBuffer + [Line(U8(b), stepPtr)];
      todo := todo.tail;
    }

    // consumeBinary and consumeString: padded to a power of two, or to nothing.
    method ConsumeBytes(size: U32, paddedAlignmentPow2: nat)
      requires Valid() && todo.More? && todo.head.Blob? && size == |todo.head.bytes|
      requires paddedAlignmentPow2 in {0, 2}
      requires |todo.head.padding| == if paddedAlignmentPow2 == 2 then Gap(size) else 0
      requires paddedAlignmentPow2 == 2 ==> stepPtr + 4 <= |binaryData|
      modifies this
      ensures Valid() && todo == old(todo).tail
    {
      ListingStep(outputBuffer, todo);
      var item;
      item, stepPtr := ReadPadded(binaryData, stepPtr, size, paddedAlignmentPow2, todo);
      outputBuffer := outputBuffer + [Line(item, stepPtr)];
      todo := todo.tail;
    }

    method ConsumeText(ghost t: Text, ghost rest: Items)
      requires Valid() && todo == Sized(t, rest)
      modifies this
      ensures Valid() && todo == rest
    {
      SizedSize(t, rest);
      var length := ConsumeU32();
      ConsumeBytes(length, 2);
    }

    method ConsumeConstant(wide: bool, ghost c: Constant, ghost rest: Items)
      requires Valid() && todo == Value(c, rest) && (wide <==> ConstantSize(c) == 8)
      modifies this
      ensures Valid() && todo == rest
    {
      if wide {
        ConsumeBytes(8, 0);
      } else {
        var v := ConsumeU32();
      }
    }

    // More Info, after the length word.
    method WalkInfo(ghost m: Module, ghost rest: Items)
      requires Valid() && todo == Section(m, 0, rest)
      modifies this
      ensures Valid() && todo == rest
    {
      var version := ConsumeU32();
      var stacktraceEntry := ConsumeU32();
      var landingPadOffset := ConsumeU32();
      var linkDataLength := ConsumeU32();
    }

    method WalkTableFunctions(ghost ws: seq<U32>, ghost rest: Items)
      requires Valid() && todo == More(Num(Narrow(|ws|)), TableFunctions(ws, rest))
      modifies this
      ensures Valid() && todo == rest
    {
      TableFunctionsCovered(ws, rest);
      var count := ConsumeU32();
      var i := 0;
      while i < count
        invariant 0 <= i <= |ws| == count
        invariant Valid() && todo == TableFunctions(ws[i..], rest)
      {
        assert ws[i..][1..] == ws[i + 1..];
        var wrapperOffset := ConsumeU32();
        i := i + 1;
      }
    }

    method WalkTable(ghost es: seq<TableEntry>, ghost rest: Items)
      requires Valid() && todo == More(Num(Narrow(|es|)), Table(es, rest))
      modifies this
      ensures Valid() && todo == rest
    {
      TableCovered(es, rest);
      var count := ConsumeU32();
      var i := 0;
      while i < count
        invariant 0 <= i <= |es| == count
        invariant Valid() && todo == Table(es[i..], rest)
      {
        assert es[i..][1..] == es[i + 1..];
        var signatureIndex := ConsumeU32();
        var functionOffset := ConsumeU32();
        i := i + 1;
      }
    }

    method WalkLinkStatus(ghost bs: seq<Byte>, ghost filler: seq<Byte>, ghost rest: Items)
      requires Valid() && todo == More(Num(Narrow(|bs|)), More(Blob(filler, []), Statuses(bs, rest)))
      requires |filler| == Gap(|bs|)
      modifies this
      ensures Valid() && todo == rest
    {
      StatusesCovered(bs, rest);
      var count := ConsumeU32();
      RoundsUp(|bs|);
      var linkStatusPadding := RoundUpToPow2(count, 2, 32) - count;
      ConsumeBytes(linkStatusPadding, 0);
      WalkStatuses(count, bs, rest);
    }

    method WalkStatuses(count: U32, ghost bs: seq<Byte>, ghost rest: Items)
      requires Valid() && todo == Statuses(bs, rest) && count == |bs|
      modifies this
      ensures Valid() && todo == rest
    {
      var i := 0;
      while i < count
        invariant 0 <= i <= |bs| == count
        invariant Valid() && todo == Statuses(bs[i..], rest)
      {
        assert bs[i..][1..] == bs[i + 1..];
        var status := ConsumeU8();
        i := i + 1;
      }
    }

    method WalkFunctions(ghost fs: seq<ExportedFunction>, ghost rest: Items)
      requires Valid() && todo == SizedSection(FunctionsSize(fs), |fs|, Functions(fs, rest))
      modifies this
      ensures Valid() && todo == rest
    {
      FunctionsCovered(fs, rest);
      var size := ConsumeU32();
      var count := ConsumeU32();
      var i := 0;
      while i < count
        invariant 0 <= i <= |fs| == count
        invariant Valid() && todo == Functions(fs[i..], rest)
      {
        OneFunction(fs, i, rest);
        WalkFunction(fs[i], Functions(fs[i + 1..], rest));
        i := i + 1;
      }
    }

    method WalkFunction(ghost f: ExportedFunction, ghost rest: Items)
      requires Valid() && todo == More(Num(f.index), Sized(f.name, Called(f.callable, rest)))
      modifies this
      ensures Valid() && todo == rest
    {
      var functionIndex := ConsumeU32();
      ConsumeText(f.name, Called(f.callable, rest));
      ConsumeText(f.callable.signature, Sized(f.callable.wrapper, rest));
      ConsumeText(f.callable.wrapper, rest);
    }

    // Constants are as wide as their type; a slot in the link data is always a word.
    method WalkGlobal(ghost g: ExportedGlobal, ghost rest: Items)
      requires Valid() && todo == Sized(g.name, More(Blob(g.filler, []), Exposed(g.exposure, rest)))
      modifies this
      ensures Valid() && todo == rest
    {
      ConsumeText(g.name, More(Blob(g.filler, []), Exposed(g.exposure, rest)));
      ConsumeBytes(2, 0);
      var letter := ConsumeU8();
      var isMutable := ConsumeU8();
      if isMutable != 0 {
        var linkOffset := ConsumeU32();
      } else if letter == 0x69 || letter == 0x66 {
        ConsumeConstant(false, g.exposure.value, rest);
      } else if letter == 0x49 || letter == 0x46 {
        ConsumeConstant(true, g.exposure.value, rest);
      } else {
        assert false;
      }
    }

    method WalkGlobals(ghost gs: seq<ExportedGlobal>, ghost rest: Items)
      requires Valid() && todo == SizedSection(GlobalsSize(gs), |gs|, Globals(gs, rest))
      modifies this
      ensures Valid() && todo == rest
    {
      GlobalsCovered(gs, rest);
      var size := ConsumeU32();
      var count := ConsumeU32();
      var i := 0;
      while i < count
        invariant 0 <= i <= |gs| == count
        invariant Valid() && todo == Globals(gs[i..], rest)
      {
        assert gs[i..][1..] == gs[i + 1..];
        WalkGlobal(gs[i], Globals(gs[i + 1..], rest));
        i := i + 1;
      }
    }

    method WalkImports(ghost imps: seq<Import>, ghost rest: Items)
      requires Valid() && todo == SizedSection(ImportsSize(imps), |imps|, Imports(imps, rest))
      modifies this
      ensures Valid() && todo == rest
    {
      ImportsCovered(imps, rest);
      var size := ConsumeU32();
      var count := ConsumeU32();
      var i := 0;
      while i < count
        invariant 0 <= i <= |imps| == count
        invariant Valid() && todo == Imports(imps[i..], rest)
      {
        assert imps[i..][1..] == imps[i + 1..];
        ghost var one, more := imps[i], More(Num(imps[i].linkOffset), Imports(imps[i + 1..], rest));
        ConsumeText(one.moduleName, Sized(one.name, Sized(one.signature, more)));
        ConsumeText(one.name, Sized(one.signature, more));
        ConsumeText(one.signature, more);
        var linkOffset := ConsumeU32();
        i := i + 1;
      }
    }

    method WalkMutableGlobal(ghost g: MutableGlobal, ghost rest: Items)
      requires Valid() && todo == More(Blob(g.filler, []), More(U8(MachineType(g.initial)),
                                       More(Num(g.linkOffset), Value(g.initial, rest))))
      modifies this
      ensures Valid() && todo == rest
    {
      ConsumeBytes(3, 0);
      var code := ConsumeU8();
      var linkOffset := ConsumeU32();
      if code == 1 || code == 3 {
        ConsumeConstant(false, g.initial, rest);
      } else if code == 2 || code == 4 {
        ConsumeConstant(true, g.initial, rest);
      } else {
        assert false;
      }
    }

    method WalkMutableGlobals(ghost gs: seq<MutableGlobal>, ghost rest: Items)
      requires Valid() && todo == SizedSection(MutableGlobalsSize(gs), |gs|, MutableGlobals(gs, rest))
      modifies this
      ensures Valid() && todo == rest
    {
      MutableGlobalsCovered(gs, rest);
      var size := ConsumeU32();
      var count := ConsumeU32();
      var i := 0;
      while i < count
        invariant 0 <= i <= |gs| == count
        invariant Valid() && todo == MutableGlobals(gs[i..], rest)
      {
        assert gs[i..][1..] == gs[i + 1..];
        WalkMutableGlobal(gs[i], MutableGlobals(gs[i + 1..], rest));
        i := i + 1;
      }
    }

    method WalkStart(ghost cs: seq<Callable>, ghost rest: Items)
      requires Valid() && todo == More(Num(Narrow(StartSize(cs))), Start(cs, rest)) && |cs| <= 1
      modifies this
      ensures Valid() && todo == rest
    {
      StartCovered(cs, rest);
      var size := ConsumeU32();
      if size > 0 {
        assert cs[1..] == [];
        ConsumeText(cs[0].signature, Sized(cs[0].wrapper, rest));
        ConsumeText(cs[0].wrapper, rest);
      }
    }

    method WalkNames(ghost ns: seq<FunctionName>, ghost rest: Items)
      requires Valid() && todo == SizedSection(NamesSize(ns), |ns|, Names(ns, rest))
      modifies this
      ensures Valid() && todo == rest
    {
      NamesCovered(ns, rest);
      var size := ConsumeU32();
      var count := ConsumeU32();
      var i := 0;
      while i < count
        invariant 0 <= i <= |ns| == count
        invariant Valid() && todo == Names(ns[i..], rest)
      {
        assert ns[i..][1..] == ns[i + 1..];
        var functionIndex := ConsumeU32();
        ConsumeText(ns[i].name, Names(ns[i + 1..], rest));
        i := i + 1;
      }
    }

    method WalkSegments(ghost ds: seq<DataSegment>, ghost rest: Items)
      requires Valid() && todo == More(Num(Narrow(|ds|)), Segments(ds, rest))
      modifies this
      ensures Valid() && todo == rest
    {
      SegmentsCovered(ds, rest);
      var count := ConsumeU32();
      var i := 0;
      while i < count
        invariant 0 <= i <= |ds| == count
        invariant Valid() && todo == Segments(ds[i..], rest)
      {
        assert ds[i..][1..] == ds[i + 1..];
        var start := ConsumeU32();
        ConsumeText(ds[i].bytes, Segments(ds[i + 1..], rest));
        i := i + 1;
      }
    }

    // Function bodies up to the start of the file.
    method WalkBodies(ghost bs: seq<Text>)
      requires Valid() && todo == Bodies(bs)
      modifies this
      ensures Valid() && todo == Done
    {
      ghost var i := 0;
      while stepPtr > 0
        invariant 0 <= i <= |bs|
        invariant Valid() && todo == Bodies(bs[i..])
        decreases stepPtr
      {
        assert bs[i..] != [];
        assert bs[i..][1..] == bs[i + 1..];
        SizedSize(bs[i], Bodies(bs[i + 1..]));
        var functionBodySize := ConsumeU32();
        ConsumeBytes(functionBodySize, 2);
        i := i + 1;
      }
      if bs[i..] != [] {
        SizedSize(bs[i], Bodies(bs[i..][1..]));
      }
    }
  }

  lemma PaddedSize(size: U32, k: nat)
    requires k == 0 || (k == 2 && size + 3 < WORD32)
    ensures size < Pow2(32) && RoundUpToPow2(size, k, 32) == size + if k == 2 then Gap(size) else 0
  {
    FourAndWord();
    if k == 2 {
      RoundsUp(size);
    } else {
      MaskLow(size, 0);
      assert size % 1 == 0;
    }
  }

  method PaddedLength(size: U32, k: nat) returns (padded: nat)
    requires k == 0 || (k == 2 && size + 3 < WORD32)
    ensures padded == size + if k == 2 then Gap(size) else 0
  {
    PaddedSize(size, k);
    padded := RoundUpToPow2(size, k, 32);
  }

  // Step back over the bytes and their padding, then take both.
  method ReadPadded(data: seq<Byte>, p: nat, size: U32, k: nat, ghost items: Items) returns (item: Item, start: nat)
    requires At(data, p, items) && items.More? && items.head.Blob? && size == |items.head.bytes| && k in {0, 2}
    requires |items.head.padding| == (if k == 2 then Gap(size) else 0) && (k == 2 ==> p + 4 <= |data|)
    ensures item == items.head && At(data, start, items.tail)
  {
    PopBlob(data, p, items, size, |items.head.padding|);
    var padded := PaddedLength(size, k);
    start := p - padded;
    item := Blob(data[start..start + size], data[start + size..p]);
  }

  // disassemble: everything in the file is printed, element by element, with its offset; and where each
  // section is finished the cursor stands where skipping by stored sizes leads.
  method Disassemble(binaryData: seq<Byte>, ghost m: Module, ghost p: seq<int>)
    returns (output: seq<Line>, boundaries: seq<nat>)
    requires WellFormed(m) && binaryData == Image(m) && Places(m, p)
    ensures output == Listing(All(m)) && Tiles(binaryData, output)
    ensures boundaries == p[1..]
  {
    ListingTiles(binaryData, All(m));
    var d := new DisassemblerImpl(binaryData, All(m));
    var length := d.ConsumeU32();
    boundaries := WalkFront(d, m, p);
    boundaries := WalkExports(d, boundaries, m, p);
    boundaries := WalkImported(d, boundaries, m, p);
    boundaries := WalkBack(d, boundaries, m, p);
    output := d.outputBuffer;
    assert output == output + Listing(Done);
  }

  method WalkFront(d: DisassemblerImpl, ghost m: Module, ghost p: seq<int>) returns (boundaries: seq<nat>)
    requires WellFormed(m) && Places(m, p) && d.Valid() && d.todo == From(m, 0)
    modifies d
    ensures d.Valid() && d.todo == From(m, 4) && boundaries == p[1..5]
  {
    d.WalkInfo(m, From(m, 1));
    boundaries := [d.stepPtr];
    d.WalkTableFunctions(m.tableFunctions, From(m, 2));
    boundaries := boundaries + [d.stepPtr];
    d.WalkTable(m.table, From(m, 3));
    boundaries := boundaries + [d.stepPtr];
    d.WalkLinkStatus(m.linkStatus, m.linkFiller, From(m, 4));
    boundaries := boundaries + [d.stepPtr];
  }

  method WalkExports(d: DisassemblerImpl, before: seq<nat>, ghost m: Module, ghost p: seq<int>)
    returns (boundaries: seq<nat>)
    requires WellFormed(m) && Places(m, p) && d.Valid() && d.todo == From(m, 4) && before == p[1..5]
    modifies d
    ensures d.Valid() && d.todo == From(m, 7) && boundaries == p[1..8]
  {
    d.WalkFunctions(m.functions, From(m, 5));
    boundaries := before + [d.stepPtr];
    d.WalkGlobals(m.globals, From(m, 6));
    boundaries := boundaries + [d.stepPtr];
    var initialMemorySize := d.ConsumeU32();
    boundaries := boundaries + [d.stepPtr];
  }

  method WalkImported(d: DisassemblerImpl, before: seq<nat>, ghost m: Module, ghost p: seq<int>)
    returns (boundaries: seq<nat>)
    requires WellFormed(m) && Places(m, p) && d.Valid() && d.todo == From(m, 7) && before == p[1..8]
    modifies d
    ensures d.Valid() && d.todo == From(m, 9) && boundaries == p[1..10]
  {
    d.WalkImports(m.imports, From(m, 8));
    boundaries := before + [d.stepPtr];
    d.WalkMutableGlobals(m.mutableGlobals, From(m, 9));
    boundaries := boundaries + [d.stepPtr];
  }

  method WalkBack(d: DisassemblerImpl, before: seq<nat>, ghost m: Module, ghost p: seq<int>)
    returns (boundaries: seq<nat>)
    requires WellFormed(m) && Places(m, p) && d.Valid() && d.todo == From(m, 9) && before == p[1..10]
    modifies d
    ensures d.Valid() && d.todo == Done && boundaries == p[1..]
  {
    d.WalkStart(m.start, From(m, 10));
    boundaries := before + [d.stepPtr];
    d.WalkNames(m.names, From(m, 11));
    boundaries := boundaries + [d.stepPtr];
    d.WalkSegments(m.segments, From(m, 12));
    boundaries := boundaries + [d.stepPtr];
    d.WalkBodies(m.bodies);
  }

  // The status kept for an imported function: the table is indexed from its start.
  function KeptStatus(file: seq<Byte>, linkStatusStart: nat, i: nat): Byte
    requires linkStatusStart + i < |file|
  {
    file[linkStatusStart + i]
  }

  // The walk numbers link statuses from the end of their section, the format from its start: the byte
  // printed for function i is the one kept for function n - 1 - i.
  lemma StatusLabelled(m: Module, p: seq<int>, i: nat)
    requires WellFormed(m) && Places(m, p) && i < |m.linkStatus|
    ensures 0 <= p[4] && p[4] + |m.linkStatus| <= |Image(m)|
    ensures KeptStatus(Image(m), p[4], |m.linkStatus| - 1 - i) == m.linkStatus[i]
  {
    assert p[3] == Size(From(m, 3)) && p[4] == Size(From(m, 4));
    StatusesLaid(m, i);
    StatusesLaid(m, 0);
  }

  // So its labels are right for exactly the modules whose statuses read the same from both ends.
  lemma StatusLabelsRight(m: Module, p: seq<int>)
    requires WellFormed(m) && Places(m, p) && p[4] >= 0 && p[4] + |m.linkStatus| <= |Image(m)|
    ensures (forall i: nat :: i < |m.linkStatus| ==> m.linkStatus[i] == KeptStatus(Image(m), p[4], i))
      <==> (forall i: nat :: i < |m.linkStatus| ==> m.linkStatus[i] == m.linkStatus[|m.linkStatus| - 1 - i])
  {
    var n := |m.linkStatus|;
    forall i: nat | i < n
      ensures KeptStatus(Image(m), p[4], i) == m.linkStatus[n - 1 - i]
    {
      StatusLabelled(m, p, n - 1 - i);
    }
  }

  // With two imports of different status both labels are wrong.
  lemma StatusLabelsSwapped(m: Module, p: seq<int>, i: nat)
    requires WellFormed(m) && Places(m, p) && m.linkStatus == [0, 1] && i < 2
    ensures 0 <= p[4] && p[4] + 2 <= |Image(m)| && m.linkStatus[i] != KeptStatus(Image(m), p[4], i)
  {
    StatusLabelled(m, p, 1 - i);
  }
}
