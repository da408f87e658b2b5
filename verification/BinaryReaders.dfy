// The loader's view of a binary module: section ends found by skipping stored sizes, and the lookups
// that walk one section.
module BinaryReaders {
  import opened Bytes
  import opened Bits
  import opened BinaryFormat

  const VERSION_NUMBER: U32 := 3

  datatype InitResult = Ready | NotAligned | VersionNotSupported

  // readNextValue<uint32_t>: step back over the word, then read it.
  method ReadNextValue(data: seq<Byte>, stepPtr: nat, ghost items: Items) returns (v: U32, next: nat)
    requires At(data, stepPtr, items) && items.More? && items.head.Num?
    ensures v == items.head.v
    ensures stepPtr == next + 4 && At(data, next, items.tail)
  {
    PopNum(data, stepPtr, items);
    next := stepPtr - 4;
    v := Word(data, next);
  }

  // The stored size of a section is the distance from its content to the next section.
  ghost predicate Skips(items: Items, rest: Items) {
    && items.More? && Below(rest, items.tail) && Size(items.tail) >= Size(rest)
    && items.head == Num(Narrow(Size(items.tail) - Size(rest)))
  }

  // A section that starts with its own size is skipped by that size; also where its content ends.
  method SkipSized(data: seq<Byte>, stepPtr: nat, ghost items: Items, ghost rest: Items)
    returns (size: U32, end: nat, next: nat)
    requires At(data, stepPtr, items) && Skips(items, rest)
    ensures size == Size(items.tail) - Size(rest)
    ensures end == Size(items.tail) && At(data, end, items.tail)
    ensures next == Size(rest) && At(data, next, rest)
  {
    size, end := ReadNextValue(data, stepPtr, items);
    Skip(data, end, items.tail, rest);
    next := end - size;
  }

  lemma CountedSkips(content: nat, count: nat, items: Items, rest: Items)
    requires Below(rest, items) && Size(items) == content + Size(rest)
    ensures Skips(SizedSection(content, count, items), rest)
  {
    MoreBelow(rest, Num(Narrow(count)), items);
  }

  lemma SizesSkip(m: Module, k: nat, rest: Items)
    requires k in {4, 5, 7, 8, 9, 10}
    ensures Skips(Section(m, k, rest), rest)
  {
    match k {
      case 4 =>
        FunctionsCovered(m.functions, rest);
        FunctionsBelow(m.functions, rest);
        CountedSkips(FunctionsSize(m.functions), |m.functions|, Functions(m.functions, rest), rest);
      case 5 =>
        GlobalsCovered(m.globals, rest);
        GlobalsBelow(m.globals, rest);
        CountedSkips(GlobalsSize(m.globals), |m.globals|, Globals(m.globals, rest), rest);
      case 7 =>
        ImportsCovered(m.imports, rest);
        ImportsBelow(m.imports, rest);
        CountedSkips(ImportsSize(m.imports), |m.imports|, Imports(m.imports, rest), rest);
      case 8 =>
        MutableGlobalsCovered(m.mutableGlobals, rest);
        MutableGlobalsBelow(m.mutableGlobals, rest);
        CountedSkips(MutableGlobalsSize(m.mutableGlobals), |m.mutableGlobals|, MutableGlobals(m.mutableGlobals, rest),
          rest);
      case 9 =>
        StartCovered(m.start, rest);
        StartBelow(m.start, rest);
      case _ =>
        NamesCovered(m.names, rest);
        NamesBelow(m.names, rest);
        CountedSkips(NamesSize(m.names), |m.names|, Names(m.names, rest), rest);
    }
  }

  // Skipping the sections that hold a count of fixed-size elements.
  lemma CountsSkip(m: Module, k: nat, rest: Items)
    requires k in {1, 2}
    ensures
      var n := if k == 1 then |m.tableFunctions| else |m.table|;
      var items := Section(m, k, rest);
      && items.More? && items.head == Num(Narrow(n)) && Below(rest, items.tail)
      && Size(items.tail) == (if k == 1 then 4 else 8) * n + Size(rest)
  {
    if k == 1 {
      TableFunctionsCovered(m.tableFunctions, rest);
      TableFunctionsBelow(m.tableFunctions, rest);
    } else {
      TableCovered(m.table, rest);
      TableBelow(m.table, rest);
    }
  }

  method SkipCounted(data: seq<Byte>, stepPtr: nat, width: nat, ghost n: nat, ghost items: Items, ghost rest: Items)
    returns (count: U32, next: nat)
    requires At(data, stepPtr, items) && items.More? && items.head == Num(Narrow(n)) && Below(rest, items.tail)
    requires 1 <= width && Size(items.tail) == width * n + Size(rest)
    ensures count == n && next == Size(rest) && At(data, next, rest)
  {
    var end;
    count, end := ReadNextValue(data, stepPtr, items);
    Skip(data, end, items.tail, rest);
    assert n <= width * n by { MulMono(n, 1, width); }
    next := end - width * count;
  }

  lemma StatusesSkip(m: Module, rest: Items)
    requires |m.linkFiller| == Gap(|m.linkStatus|)
    ensures
      var n, items := |m.linkStatus|, Section(m, 3, rest);
      && items.More? && items.head == Num(Narrow(n)) && Below(rest, items.tail)
      && Size(items.tail) == Gap(n) + n + Size(rest)
  {
    StatusesCovered(m.linkStatus, rest);
    StatusesBelow(m.linkStatus, rest);
    MoreBelow(rest, Blob(m.linkFiller, []), Statuses(m.linkStatus, rest));
  }

  method SkipStatuses(data: seq<Byte>, stepPtr: nat, ghost n: nat, ghost items: Items, ghost rest: Items)
    returns (next: nat)
    requires At(data, stepPtr, items) && items.More? && items.head == Num(Narrow(n)) && Below(rest, items.tail)
    requires Size(items.tail) == Gap(n) + n + Size(rest) && n + 3 < WORD32
    ensures next == Size(rest) && At(data, next, rest)
  {
    var count, end;
    count, end := ReadNextValue(data, stepPtr, items);
    Skip(data, end, items.tail, rest);
    RoundsUp(n);
    var padding := RoundUpToPow2(count, 2, 32) - count;
    next := end - padding - count;
  }

  lemma SectionBelow(m: Module, k: nat, rest: Items)
    requires k < 11 && |m.linkFiller| == Gap(|m.linkStatus|)
    ensures Below(rest, Section(m, k, rest))
  {
    if k == 0 {
      TwoBelow(rest, Num(m.landingPad), Num(m.linkDataLength), rest);
      TwoBelow(rest, Num(m.version), Num(m.stacktrace), More(Num(m.landingPad), More(Num(m.linkDataLength), rest)));
    } else if k <= 2 {
      CountsSkip(m, k, rest);
    } else if k == 3 {
      StatusesSkip(m, rest);
    } else if k != 6 {
      SizesSkip(m, k, rest);
    }
    var items := Section(m, k, rest);
    if k > 0 {
      MoreBelow(rest, items.head, items.tail);
    }
  }

  // The file up to each section boundary is what remains to be read there.
  lemma {:induction false} Placed(m: Module, k: nat)
    requires WellFormed(m) && k <= 11
    ensures At(Image(m), Size(From(m, k)), From(m, k))
    decreases k
  {
    var file := Image(m);
    if k == 0 {
      assert file[..|file|] == file;
      PopNum(file, |file|, All(m));
    } else {
      Placed(m, k - 1);
      SectionBelow(m, k - 1, From(m, k));
      Skip(file, Size(From(m, k - 1)), From(m, k - 1), From(m, k));
    }
  }

  // A size below 2^32 - 3 for every length kept in the file: there are words around it.
  lemma StatusesShort(m: Module)
    requires WellFormed(m)
    ensures |m.linkStatus| + 3 < WORD32
  {
    var rest := From(m, 4);
    StatusesSkip(m, rest);
    AllBelow(m, 3);
  }

  // Every place in the file lies before its end.
  lemma {:induction false} AllBelow(m: Module, k: nat)
    requires k <= SECTIONS
    ensures Size(From(m, k)) + 4 <= Size(All(m))
    ensures k > 0 ==> Size(From(m, k)) + 16 <= Size(From(m, 0))
    decreases k
  {
    if k > 0 {
      AllBelow(m, k - 1);
      SectionCovered(m, k - 1, From(m, k));
    }
  }

  // The section boundaries of a module, as distances from the start of its file: the places a reader of
  // every element passes.
  ghost predicate Places(m: Module, p: seq<int>) {
    |p| == SECTIONS && forall k {:trigger From(m, k)} :: 0 <= k < SECTIONS ==> p[k] == Size(From(m, k))
  }

  // What init does with each kind of section, between its boundaries.
  method SkipSection(file: seq<Byte>, stepPtr: nat, k: nat, ghost m: Module, ghost p: seq<int>)
    returns (size: U32, end: nat, next: nat)
    requires WellFormed(m) && file == Image(m) && Places(m, p)
    requires k in {4, 5, 7, 8, 9, 10} && stepPtr == p[k]
    ensures size == p[k] - 4 - p[k + 1]
    ensures end == p[k] - 4 && next == p[k + 1] && end <= |file| < WORD32
    ensures k == 9 ==> (size == 0 <==> m.start == [])
  {
    Placed(m, k);
    SizesSkip(m, k, From(m, k + 1));
    StartCovered(m.start, From(m, 10));
    size, end, next := SkipSized(file, stepPtr, From(m, k), From(m, k + 1));
  }

  method SkipTable(file: seq<Byte>, stepPtr: nat, k: nat, width: nat, ghost m: Module, ghost p: seq<int>)
    returns (count: U32, next: nat)
    requires WellFormed(m) && file == Image(m) && Places(m, p)
    requires k in {1, 2} && width == 4 * k && stepPtr == p[k]
    ensures count == |m.table| && next == p[k + 1]
  {
    Placed(m, k);
    CountsSkip(m, k, From(m, k + 1));
    count, next := SkipCounted(file, stepPtr, width, |m.table|, From(m, k), From(m, k + 1));
  }

  method SkipLinkStatus(file: seq<Byte>, stepPtr: nat, ghost m: Module, ghost p: seq<int>) returns (next: nat)
    requires WellFormed(m) && file == Image(m) && Places(m, p) && stepPtr == p[3]
    ensures next == p[4]
  {
    Placed(m, 3);
    StatusesSkip(m, From(m, 4));
    StatusesShort(m);
    next := SkipStatuses(file, stepPtr, |m.linkStatus|, From(m, 3), From(m, 4));
  }

  method ReadMemory(file: seq<Byte>, stepPtr: nat, ghost m: Module, ghost p: seq<int>) returns (v: U32, next: nat)
    requires WellFormed(m) && file == Image(m) && Places(m, p) && stepPtr == p[6]
    ensures v == m.memory && next == p[7]
  {
    Placed(m, 6);
    v, next := ReadNextValue(file, stepPtr, From(m, 6));
    assert From(m, 6).tail == From(m, 7);
  }

  method ReadSegmentCount(file: seq<Byte>, stepPtr: nat, ghost m: Module, ghost p: seq<int>) returns (v: U32, next: nat)
    requires WellFormed(m) && file == Image(m) && Places(m, p) && stepPtr == p[11]
    ensures v == |m.segments| && next == p[11] - 4
  {
    Placed(m, 11);
    SegmentsCovered(m.segments, From(m, 12));
    v, next := ReadNextValue(file, stepPtr, From(m, 11));
  }

  // BinaryModule: positions in the file instead of addresses.
  class BinaryModule {
    var moduleBinaryLength: U32
    var stacktraceEntryCount: U32
    var debugMode: bool
    var landingPad: Option<int>
    var linkDataLength: U32
    var tableEntryFunctionsStart: nat
    var tableSize: U32
    var tableStart: nat
    var linkStatusStart: nat
    var exportedFunctionsEnd: nat
    var exportedGlobalsEnd: nat
    var initialMemorySize: U32
    var dynamicallyImportedFunctionsSectionEnd: nat
    var mutableGlobalsSectionEnd: nat
    var startFunctionBinaryOffset: U32
    var functionNameSectionEnd: nat
    var numDataSegments: U32
    var dataSegmentsEnd: nat

    constructor () {
    }

    // The scalar fields of the module.
    ghost predicate KnowsInfo(m: Module, p: seq<int>, size: nat)
      requires |p| == SECTIONS
      reads this`moduleBinaryLength, this`stacktraceEntryCount, this`debugMode, this`landingPad, this`linkDataLength
    {
      && moduleBinaryLength == size - 4
      && stacktraceEntryCount == m.stacktrace % 0x8000_0000
      && (debugMode <==> m.stacktrace >= 0x8000_0000)
      && landingPad == (if m.landingPad == UINT32_MAX then None else Some(p[1] + 4 - m.landingPad))
      && linkDataLength == m.linkDataLength
    }

    // Every section found by skipping is the place a reader of all the elements reaches.
    ghost predicate KnowsTables(m: Module, p: seq<int>)
      requires |p| == SECTIONS
      reads this`tableEntryFunctionsStart, this`tableSize, this`tableStart, this`linkStatusStart
    {
      tableEntryFunctionsStart == p[2] && tableSize == |m.table| && tableStart == p[3] && linkStatusStart == p[4]
    }

    ghost predicate KnowsExports(m: Module, p: seq<int>)
      requires |p| == SECTIONS
      reads this`exportedFunctionsEnd, this`exportedGlobalsEnd, this`initialMemorySize,
        this`dynamicallyImportedFunctionsSectionEnd, this`mutableGlobalsSectionEnd
    {
      && exportedFunctionsEnd == p[4] - 4
      && exportedGlobalsEnd == p[5] - 4
      && initialMemorySize == m.memory
      && dynamicallyImportedFunctionsSectionEnd == p[7] - 4
      && mutableGlobalsSectionEnd == p[8] - 4
    }

    ghost predicate KnowsRest(m: Module, p: seq<int>, size: nat)
      requires |p| == SECTIONS
      reads this`startFunctionBinaryOffset, this`functionNameSectionEnd, this`numDataSegments, this`dataSegmentsEnd
    {
      && startFunctionBinaryOffset == (if m.start == [] then UINT32_MAX else size - (p[9] - 4))
      && functionNameSectionEnd == p[10] - 4
      && numDataSegments == |m.segments|
      && dataSegmentsEnd == p[11] - 4
    }

    ghost predicate KnowsSections(m: Module, p: seq<int>, size: nat)
      requires |p| == SECTIONS
      reads this`tableEntryFunctionsStart, this`tableSize, this`tableStart, this`linkStatusStart,
        this`exportedFunctionsEnd, this`exportedGlobalsEnd, this`initialMemorySize,
        this`dynamicallyImportedFunctionsSectionEnd, this`mutableGlobalsSectionEnd,
        this`startFunctionBinaryOffset, this`functionNameSectionEnd, this`numDataSegments, this`dataSegmentsEnd
    {
      KnowsTables(m, p) && KnowsExports(m, p) && KnowsRest(m, p, size)
    }

    ghost predicate Describes(m: Module, p: seq<int>, size: nat)
      requires |p| == SECTIONS
      reads this
    {
      KnowsInfo(m, p, size) && KnowsSections(m, p, size)
    }

    // init: the alignment is 16 on x86-64 and 8 elsewhere.
    method Init(file: seq<Byte>, address: nat, alignment: nat, ghost m: Module, ghost p: seq<int>)
      returns (r: InitResult)
      requires WellFormed(m) && file == Image(m) && Places(m, p)
      requires alignment in {8, 16}
      modifies this
      ensures r == NotAligned <==> address % alignment != 0
      ensures r == VersionNotSupported <==> address % alignment == 0 && m.version != 3
      ensures r == Ready ==> Describes(m, p, |file|)
    {
      if address % alignment != 0 {
        return NotAligned;
      }
      var ok, stepPtr := InitInfo(file, m, p);
      if !ok {
        return VersionNotSupported;
      }
      InitSections(file, stepPtr, m, p);
      r := Ready;
    }

    method InitInfo(file: seq<Byte>, ghost m: Module, ghost p: seq<int>) returns (ok: bool, stepPtr: nat)
      requires WellFormed(m) && file == Image(m) && Places(m, p)
      modifies this`moduleBinaryLength, this`stacktraceEntryCount, this`debugMode, this`landingPad, this`linkDataLength
      ensures ok <==> m.version == VERSION_NUMBER
      ensures ok ==> KnowsInfo(m, p, |file|) && stepPtr == p[1]
    {
      var version, stacktraceEntry, landingPadOffset;
      ghost var items := From(m, 0);
      assert file[..|file|] == file;
      moduleBinaryLength, stepPtr := ReadNextValue(file, |file|, All(m));
      version, stepPtr := ReadNextValue(file, stepPtr, items);
      ok := version == VERSION_NUMBER;
      if ok {
        items := items.tail;
        stacktraceEntry, stepPtr := ReadNextValue(file, stepPtr, items);
        stacktraceEntryCount := stacktraceEntry % 0x8000_0000;
        debugMode := stacktraceEntry >= 0x8000_0000;
        items := items.tail;
        landingPadOffset, stepPtr := ReadNextValue(file, stepPtr, items);
        landingPad := if landingPadOffset != UINT32_MAX then Some(stepPtr - landingPadOffset) else None;
        items := items.tail;
        linkDataLength, stepPtr := ReadNextValue(file, stepPtr, items);
        assert items.tail == From(m, 1);
      }
    }

    method InitSections(file: seq<Byte>, start: nat, ghost m: Module, ghost p: seq<int>)
      requires WellFormed(m) && file == Image(m) && Places(m, p) && start == p[1]
      modifies this`tableEntryFunctionsStart, this`tableSize, this`tableStart, this`linkStatusStart,
        this`exportedFunctionsEnd, this`exportedGlobalsEnd, this`initialMemorySize,
        this`dynamicallyImportedFunctionsSectionEnd, this`mutableGlobalsSectionEnd,
        this`startFunctionBinaryOffset, this`functionNameSectionEnd, this`numDataSegments, this`dataSegmentsEnd
      ensures KnowsSections(m, p, |file|)
    {
      var stepPtr := InitTables(file, start, m, p);
      stepPtr := InitExports(file, stepPtr, m, p);
      InitRest(file, stepPtr, m, p);
    }

    method InitTables(file: seq<Byte>, start: nat, ghost m: Module, ghost p: seq<int>) returns (stepPtr: nat)
      requires WellFormed(m) && file == Image(m) && Places(m, p) && start == p[1]
      modifies this`tableEntryFunctionsStart, this`tableSize, this`tableStart, this`linkStatusStart
      ensures KnowsTables(m, p) && stepPtr == p[4]
    {
      var numTableFunctionEntries;
      numTableFunctionEntries, stepPtr := SkipTable(file, start, 1, 4, m, p);
      tableEntryFunctionsStart := stepPtr;
      tableSize, stepPtr := SkipTable(file, stepPtr, 2, 8, m, p);
      assert numTableFunctionEntries == tableSize;
      tableStart := stepPtr;
      stepPtr := SkipLinkStatus(file, stepPtr, m, p);
      linkStatusStart := stepPtr;
    }

    method InitExports(file: seq<Byte>, start: nat, ghost m: Module, ghost p: seq<int>) returns (stepPtr: nat)
      requires WellFormed(m) && file == Image(m) && Places(m, p) && start == p[4]
      modifies this`exportedFunctionsEnd, this`exportedGlobalsEnd, this`initialMemorySize,
        this`dynamicallyImportedFunctionsSectionEnd, this`mutableGlobalsSectionEnd
      ensures KnowsExports(m, p) && stepPtr == p[9]
    {
      var size;
      size, exportedFunctionsEnd, stepPtr := SkipSection(file, start, 4, m, p);
      size, exportedGlobalsEnd, stepPtr := SkipSection(file, stepPtr, 5, m, p);
      initialMemorySize, stepPtr := ReadMemory(file, stepPtr, m, p);
      size, dynamicallyImportedFunctionsSectionEnd, stepPtr := SkipSection(file, stepPtr, 7, m, p);
      size, mutableGlobalsSectionEnd, stepPtr := SkipSection(file, stepPtr, 8, m, p);
    }

    method InitRest(file: seq<Byte>, start: nat, ghost m: Module, ghost p: seq<int>)
      requires WellFormed(m) && file == Image(m) && Places(m, p) && start == p[9]
      modifies this`startFunctionBinaryOffset, this`functionNameSectionEnd, this`numDataSegments, this`dataSegmentsEnd
      ensures KnowsRest(m, p, |file|)
    {
      var size, end, stepPtr;
      size, end, stepPtr := SkipSection(file, start, 9, m, p);
      startFunctionBinaryOffset := if size > 0 then |file| - end else UINT32_MAX;
      size, functionNameSectionEnd, stepPtr := SkipSection(file, stepPtr, 10, m, p);
      numDataSegments, dataSegmentsEnd := ReadSegmentCount(file, stepPtr, m, p);
    }
  }
}
