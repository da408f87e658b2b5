// Runtime::initializeModule on the bytes of the basedata and on the data section of the binary: the globals survive
// every other write, and the linear memory starts out as the section says.
module ModuleSetup {
  import opened Bytes
  import opened BinaryFormat
  import opened BinaryReaders
  import opened BinaryLookup
  import opened GlobalSlots
  import opened EagerMemory
  import Basedata
  import A = ActiveRuntime
  import P = PassiveRuntime
  import AM = ActiveMemory
  import PM = PassiveMemory

  // ---- The data section ----

  // What a reader has of the section: every start and every byte.
  ghost predicate SameSegments(segments: seq<Segment>, ds: seq<DataSegment>) {
    && |segments| == |ds|
    && forall i :: 0 <= i < |ds| ==> segments[i].start == ds[i].start && segments[i].data == ds[i].bytes.bytes
  }

  lemma SegmentsPlaced(m: Module, p: seq<int>)
    requires BinaryFormat.WellFormed(m) && Places(m, p)
    ensures p[11] >= 4 && At(Image(m), p[11] - 4, Segments(m.segments, From(m, 12)))
  {
    Placed(m, 11);
    PopNum(Image(m), p[11], From(m, 11));
  }

  lemma OneSegment(ds: seq<DataSegment>, i: nat, rest: Items)
    requires i < |ds|
    ensures Segments(ds[i..], rest) == More(Num(ds[i].start), Sized(ds[i].bytes, Segments(ds[i + 1..], rest)))
  {
    assert ds[i..][0] == ds[i] && ds[i..][1..] == ds[i + 1..];
  }

  // The start, the size and the bytes of every segment, from the end of the section.
  method ReadSegments(file: seq<Byte>, binary: BinaryModule, ghost m: Module, ghost p: seq<int>)
    returns (segments: seq<Segment>)
    requires BinaryFormat.WellFormed(m) && file == Image(m) && Places(m, p) && binary.Describes(m, p, |file|)
    ensures SameSegments(segments, m.segments)
  {
    SegmentsPlaced(m, p);
    var cursor: nat := binary.dataSegmentsEnd;
    ghost var rest := From(m, 12);
    segments := [];
    var i := 0;
    while i < binary.numDataSegments
      invariant 0 <= i <= |m.segments|
      invariant At(file, cursor, Segments(m.segments[i..], rest))
      invariant SameSegments(segments, m.segments[..i])
    {
      OneSegment(m.segments, i, rest);
      var dataSegmentStart, dataSegmentSize;
      dataSegmentStart, cursor := ReadNextValue(file, cursor, Segments(m.segments[i..], rest));
      dataSegmentSize, cursor := ReadText(file, cursor, m.segments[i].bytes, Segments(m.segments[i + 1..], rest));
      segments := segments + [Segment(dataSegmentStart, file[cursor..cursor + dataSegmentSize])];
      i := i + 1;
    }
  }

  // All segments end by that address.
  ghost predicate EndBy(m: Module, top: nat) {
    forall i :: 0 <= i < |m.segments| ==> m.segments[i].start + |m.segments[i].bytes.bytes| <= top
  }

  ghost predicate IsCovered(m: Module, i: nat, a: nat)
    requires i < |m.segments|
  {
    m.segments[i].start <= a < m.segments[i].start + |m.segments[i].bytes.bytes|
  }

  // What the data section says of the byte at an address: that of the last segment that covers it, or zero.
  ghost predicate ByteAsSaid(m: Module, a: nat, b: Byte) {
    && ((forall i :: 0 <= i < |m.segments| ==> !IsCovered(m, i, a)) ==> b == 0)
    && forall i :: LastToSay(m, i, a) ==> b == m.segments[i].bytes.bytes[a - m.segments[i].start]
  }

  ghost predicate LastToSay(m: Module, i: int, a: nat) {
    0 <= i < |m.segments| && IsCovered(m, i, a) && forall j :: i < j < |m.segments| ==> !IsCovered(m, j, a)
  }

  // And of the whole linear memory.
  ghost predicate MemoryAsSaid(m: Module, e: Eager, maxPages: nat) {
    && e.pages == m.memory && e.maxPages == maxPages && |e.bytes| == 0x1_0000 * m.memory
    && forall a :: 0 <= a < |e.bytes| ==> ByteAsSaid(m, a, e.bytes[a])
  }

  lemma LoadedAsSaid(m: Module, segments: seq<Segment>, maxPages: nat)
    requires SameSegments(segments, m.segments) && AllFit(segments, WASM_PAGE * m.memory)
    ensures MemoryAsSaid(m, Eager(Loaded(WASM_PAGE * m.memory, segments), m.memory, maxPages), maxPages)
  {
    var size := WASM_PAGE * m.memory;
    forall a | 0 <= a < size
      ensures ByteAsSaid(m, a, Loaded(size, segments)[a])
    {
      LoadedByteAsSaid(m, segments, a);
    }
  }

  lemma LoadedByteAsSaid(m: Module, segments: seq<Segment>, a: nat)
    requires SameSegments(segments, m.segments) && AllFit(segments, WASM_PAGE * m.memory) && a < WASM_PAGE * m.memory
    ensures ByteAsSaid(m, a, Loaded(WASM_PAGE * m.memory, segments)[a])
  {
    var size := WASM_PAGE * m.memory;
    assert forall i :: 0 <= i < |m.segments| ==>
      (IsCovered(m, i, a) <==> Covers(segments[i].start, |segments[i].data|, a));
    if forall i :: 0 <= i < |m.segments| ==> !IsCovered(m, i, a) {
      LoadedZero(size, segments, a);
    }
    forall i | LastToSay(m, i, a)
      ensures Loaded(size, segments)[a] == m.segments[i].bytes.bytes[a - m.segments[i].start]
    {
      assert LastToCover(segments, i, a);
      LoadedByte(size, segments, i, a);
    }
  }

  lemma FitAsSaid(m: Module, segments: seq<Segment>, top: nat)
    requires SameSegments(segments, m.segments)
    ensures AllFit(segments, top) <==> EndBy(m, top)
  {
    if AllFit(segments, top) {
      forall i | 0 <= i < |m.segments|
        ensures m.segments[i].start + |m.segments[i].bytes.bytes| <= top
      {
        assert End(segments[i]) <= top;
      }
    }
  }

  // A runtime in active mode, made from the binary of a module with memory: with a host that has room for the
  // segments it succeeds if and only if every segment fits.
  method MakeActive(rt: A.Runtime, file: seq<Byte>, binary: BinaryModule, basedataSize: U32, ghost m: Module,
                    ghost p: seq<int>)
    returns (r: ProbeResult)
    requires BinaryFormat.WellFormed(m) && file == Image(m) && Places(m, p) && binary.Describes(m, p, |file|)
    requires A.ACTUAL_LINMEM_BYTE_SIZE <= basedataSize && rt.memoryManager.jobMemory.Valid()
    requires m.memory <= rt.maxPages <= MAX_WASM_PAGES && EndBy(m, UINT32_MAX)
    modifies rt`wasmPages, rt.memoryManager, rt.memoryManager.jobMemory`data, rt.memoryManager.jobMemory`calls
    modifies rt.memoryManager.jobMemory`bytes
    ensures r == Ok ==> rt.Valid() && EndBy(m, 0x1_0000 * m.memory)
    ensures r == Ok ==> MemoryAsSaid(m, rt.View().lazy.memory, rt.maxPages)
    ensures rt.memoryManager.jobMemory.reliable ==> forall top: nat ::
      EndBy(m, top) && AM.Grantable(basedataSize + Min(top, 0x1_0000 * m.memory), rt.memoryManager.jobMemory.maxRam) ==>
        r == if EndBy(m, 0x1_0000 * m.memory) then Ok else OutOfBounds
  {
    var segments := ReadSegments(file, binary, m, p);
    FitAsSaid(m, segments, UINT32_MAX);
    FitAsSaid(m, segments, WASM_PAGE * m.memory);
    r := rt.InitializeModule(basedataSize, binary.initialMemorySize, segments);
    if r == Ok {
      LoadedAsSaid(m, segments, rt.maxPages);
    }
    forall top: nat | EndBy(m, top)
      ensures HighestEnd(segments) <= top
    {
      FitAsSaid(m, segments, top);
      HighestIsLeast(segments, top);
    }
  }

  // The same in passive mode.
  method MakePassive(rt: P.Runtime, file: seq<Byte>, binary: BinaryModule, basedataSize: U32, ghost m: Module,
                     ghost p: seq<int>)
    returns (r: ProbeResult)
    requires BinaryFormat.WellFormed(m) && file == Image(m) && Places(m, p) && binary.Describes(m, p, |file|)
    requires P.LINMEM_WASM_SIZE <= basedataSize && rt.allocator.virtualMemory.Valid()
    requires rt.allocator.pagedMemoryLimit < WORD64
    requires m.memory <= rt.maxPages <= MAX_WASM_PAGES && EndBy(m, UINT32_MAX)
    modifies rt`basedataSize, rt.allocator
    modifies rt.allocator.virtualMemory`data, rt.allocator.virtualMemory`bytes, rt.allocator.virtualMemory`totalSize
    ensures r == Ok ==> rt.Valid() && EndBy(m, 0x1_0000 * m.memory)
    ensures r == Ok ==> MemoryAsSaid(m, rt.View().lazy.memory, rt.maxPages)
    ensures rt.allocator.pagedBasedataSize == PM.PageUp(basedataSize, rt.allocator.virtualMemory.pageBits)
    ensures rt.allocator.virtualMemory.reliable ==> forall top: nat ::
      EndBy(m, top) && old(rt.allocator.pagedMemoryLimit) >= rt.allocator.pagedBasedataSize
        + PM.PageUp(Min(top, 0x1_0000 * m.memory), rt.allocator.virtualMemory.pageBits) ==>
        r == if EndBy(m, 0x1_0000 * m.memory) then Ok else OutOfBounds
  {
    var segments := ReadSegments(file, binary, m, p);
    FitAsSaid(m, segments, UINT32_MAX);
    FitAsSaid(m, segments, WASM_PAGE * m.memory);
    r := rt.InitializeModule(basedataSize, binary.initialMemorySize, segments);
    if r == Ok {
      LoadedAsSaid(m, segments, rt.maxPages);
    }
    ghost var size := WASM_PAGE * m.memory;
    forall top: nat | EndBy(m, top)
      ensures PM.PageUp(Min(HighestEnd(segments), size), rt.allocator.virtualMemory.pageBits)
        <= PM.PageUp(Min(top, size), rt.allocator.virtualMemory.pageBits)
    {
      FitAsSaid(m, segments, top);
      HighestIsLeast(segments, top);
      PM.PageUpMono(Min(HighestEnd(segments), size), Min(top, size), rt.allocator.virtualMemory.pageBits);
    }
  }

  // ---- The basedata ----

  // Bytes written to a field, and to a slot of the link data.
  datatype FieldWrite = FieldWrite(field: nat, data: seq<Byte>)
  datatype LinkWrite = LinkWrite(offset: nat, data: seq<Byte>)

  ghost predicate Writable(fs: seq<Basedata.Field>, w: FieldWrite) {
    w.field < |fs| && |w.data| == fs[w.field].width
  }

  ghost predicate AllWritable(fs: seq<Basedata.Field>, ws: seq<FieldWrite>) {
    forall i :: 0 <= i < |ws| ==> Writable(fs, ws[i])
  }

  // Fields that lie apart in a block of that size, which ends at the linear memory.
  ghost predicate Block(fs: seq<Basedata.Field>, size: nat) {
    Basedata.Stacked(fs, 0, size)
  }

  // Where a field starts in the block.
  function Place(fs: seq<Basedata.Field>, size: nat, field: nat): (at: nat)
    requires Block(fs, size) && field < |fs|
    ensures at + fs[field].width <= size
  {
    Basedata.Within(fs, 0, size, field);
    size - fs[field].offset
  }

  // The block after these writes, in order.
  ghost function Put(fs: seq<Basedata.Field>, block: seq<Byte>, ws: seq<FieldWrite>): (r: seq<Byte>)
    requires Block(fs, |block|) && AllWritable(fs, ws)
    ensures |r| == |block|
  {
    if ws == [] then block
    else
      var last := ws[|ws| - 1];
      assert Writable(fs, last);
      Splice(Put(fs, block, ws[..|ws| - 1]), Place(fs, |block|, last.field), last.data)
  }

  lemma PutMore(fs: seq<Basedata.Field>, block: seq<Byte>, ws: seq<FieldWrite>, i: nat)
    requires Block(fs, |block|) && AllWritable(fs, ws) && i < |ws|
    ensures Writable(fs, ws[i])
    ensures Put(fs, block, ws[..i + 1]) == Splice(Put(fs, block, ws[..i]), Place(fs, |block|, ws[i].field), ws[i].data)
  {
    assert ws[..i + 1][..i] == ws[..i];
  }

  lemma {:induction false} PutSum(fs: seq<Basedata.Field>, block: seq<Byte>, a: seq<FieldWrite>, b: seq<FieldWrite>)
    requires Block(fs, |block|) && AllWritable(fs, a) && AllWritable(fs, b)
    ensures AllWritable(fs, a + b) && Put(fs, block, a + b) == Put(fs, Put(fs, block, a), b)
  {
    if b == [] {
      assert a + b == a;
    } else {
      var n := |b| - 1;
      PutSum(fs, block, a, b[..n]);
      assert (a + b)[..|a + b| - 1] == a + b[..n];
    }
  }

  // In the end a field holds what was written to it last: writes to other fields do not touch it.
  lemma {:induction false} LastWriteHolds(fs: seq<Basedata.Field>, block: seq<Byte>, ws: seq<FieldWrite>, i: nat)
    requires Block(fs, |block|) && AllWritable(fs, ws) && i < |ws|
    requires forall j :: i < j < |ws| ==> ws[j].field != ws[i].field
    ensures Writable(fs, ws[i]) && Place(fs, |block|, ws[i].field) == |block| - fs[ws[i].field].offset
    ensures HasAt(Put(fs, block, ws), Place(fs, |block|, ws[i].field), ws[i].data)
  {
    var n := |ws| - 1;
    var before, last := Put(fs, block, ws[..n]), ws[n];
    assert Writable(fs, ws[i]) && Writable(fs, last);
    var at := Place(fs, |block|, last.field);
    if i < n {
      LastWriteHolds(fs, block, ws[..n], i);
      FieldsApart(fs, |block|, ws[i].field, last.field);
      StillHas(before, at, last.data, Place(fs, |block|, ws[i].field), ws[i].data);
    } else {
      JustWritten(before, at, last.data);
    }
  }

  // The two words the runtimes keep up to date lie where the layout of a build with interruption requests has the page
  // count and the cached size.
  lemma RuntimeWords(c: Basedata.Config)
    requires c.interruptionRequest && !c.target.TriCore?
    ensures |Basedata.Fields(c)| > 2
    ensures Basedata.Fields(c)[1] == Basedata.Field(A.LINMEM_WASM_SIZE, 4)
    ensures Basedata.Fields(c)[2] == Basedata.Field(A.ACTUAL_LINMEM_BYTE_SIZE, 4)
    ensures P.LINMEM_WASM_SIZE == A.LINMEM_WASM_SIZE
  {
    Basedata.JoinedSeven(Basedata.Parts(c));
  }

  lemma StillHas(s: seq<Byte>, at: nat, data: seq<Byte>, from: nat, kept: seq<Byte>)
    requires at + |data| <= |s| && HasAt(s, from, kept) && (from + |kept| <= at || at + |data| <= from)
    ensures HasAt(Splice(s, at, data), from, kept)
  {
    SpliceApart(s, at, data, from, from + |kept|);
  }

  lemma JustWritten(s: seq<Byte>, at: nat, data: seq<Byte>)
    requires at + |data| <= |s|
    ensures HasAt(Splice(s, at, data), at, data)
  {
    assert Splice(s, at, data)[at..at + |data|] == data;
  }

  lemma FieldsApart(fs: seq<Basedata.Field>, size: nat, f: nat, g: nat)
    requires Block(fs, size) && f < |fs| && g < |fs| && f != g
    ensures Place(fs, size, f) + fs[f].width <= Place(fs, size, g)
      || Place(fs, size, g) + fs[g].width <= Place(fs, size, f)
  {
    if f < g {
      Basedata.StackedApart(fs, 0, size, f, g);
    } else {
      Basedata.StackedApart(fs, 0, size, g, f);
    }
  }

  // The parts of the basedata: link data, stacktrace array and the block of all fields.
  ghost function LinkPart(b: seq<Byte>, length: nat): seq<Byte>
    requires 8 + length <= |b|
  {
    b[8..8 + length]
  }

  ghost function RecordPart(b: seq<Byte>, length: nat, count: nat): seq<Byte>
    requires 8 + length + 4 * count <= |b|
  {
    b[8 + length..8 + length + 4 * count]
  }

  ghost function FieldPart(b: seq<Byte>, size: nat): (f: seq<Byte>)
    requires size <= |b|
    ensures |f| == size
  {
    b[|b| - size..]
  }

  ghost predicate Fits(b: seq<Byte>, size: nat, length: nat, count: nat) {
    8 + length + 4 * count + size <= |b|
  }

  // Writes to fields change the block of fields and nothing in front of it.
  method WriteFields(b: seq<Byte>, fs: seq<Basedata.Field>, size: nat, ws: seq<FieldWrite>, ghost length: nat,
                     ghost count: nat)
    returns (r: seq<Byte>)
    requires Fits(b, size, length, count) && Block(fs, size) && AllWritable(fs, ws)
    ensures |r| == |b| && FieldPart(r, size) == Put(fs, FieldPart(b, size), ws)
    ensures LinkPart(r, length) == LinkPart(b, length) && RecordPart(r, length, count) == RecordPart(b, length, count)
  {
    var front := |b| - size;
    ghost var block := FieldPart(b, size);
    r := b;
    var i := 0;
    while i < |ws|
      invariant 0 <= i <= |ws| && |r| == |b|
      invariant r[..front] == b[..front] && r[front..] == Put(fs, block, ws[..i])
    {
      PutMore(fs, block, ws, i);
      var at := Place(fs, size, ws[i].field);
      SpliceBehind(r, front, at, ws[i].data);
      r := Splice(r, front + at, ws[i].data);
      i := i + 1;
    }
    assert ws[..i] == ws;
    InFront(r, b, front, length, count);
  }

  lemma InFront(a: seq<Byte>, b: seq<Byte>, front: nat, length: nat, count: nat)
    requires 8 + length + 4 * count <= front <= |a| == |b| && a[..front] == b[..front]
    ensures LinkPart(a, length) == LinkPart(b, length) && RecordPart(a, length, count) == RecordPart(b, length, count)
  {
    SliceInFront(a, front, 8, 8 + length);
    SliceInFront(b, front, 8, 8 + length);
    SliceInFront(a, front, 8 + length, 8 + length + 4 * count);
    SliceInFront(b, front, 8 + length, 8 + length + 4 * count);
  }

  lemma SliceInFront(s: seq<Byte>, front: nat, from: nat, to: nat)
    requires from <= to <= front <= |s|
    ensures s[from..to] == s[..front][from..to]
  {
  }

  // The addresses of imported functions.
  method WriteLinks(b: seq<Byte>, size: nat, links: seq<LinkWrite>, length: nat, ghost count: nat)
    returns (r: seq<Byte>)
    requires Fits(b, size, length, count)
    requires forall i :: 0 <= i < |links| ==> links[i].offset + |links[i].data| <= length
    ensures |r| == |b| && FieldPart(r, size) == FieldPart(b, size)
  {
    r := b;
    var i := 0;
    while i < |links|
      invariant 0 <= i <= |links| && |r| == |b| && FieldPart(r, size) == FieldPart(b, size)
    {
      SpliceApart(r, 8 + links[i].offset, links[i].data, |b| - size, |b|);
      r := Splice(r, 8 + links[i].offset, links[i].data);
      i := i + 1;
    }
  }

  // The initial values of the mutable globals.
  method WriteGlobals(b: seq<Byte>, size: nat, file: seq<Byte>, binary: BinaryModule, ghost m: Module,
                      ghost p: seq<int>,
                      ghost count: nat) returns (r: seq<Byte>)
    requires BinaryFormat.WellFormed(m) && file == Image(m) && Places(m, p) && binary.Describes(m, p, |file|)
    requires Fits(b, size, m.linkDataLength, count) && SlotsFit(m.mutableGlobals, m.linkDataLength)
    requires SlotsApart(m.mutableGlobals)
    ensures |r| == |b| && FieldPart(r, size) == FieldPart(b, size)
    ensures Current(LinkPart(r, m.linkDataLength), m.mutableGlobals) == Initial(m.mutableGlobals)
  {
    var length := binary.linkDataLength;
    var filled := InitializeGlobals(file, binary, b[8..8 + length], m, p);
    InitialValuesIterate(b[8..8 + length], m.mutableGlobals);
    r := Splice(b, 8, filled);
    assert LinkPart(r, length) == filled;
    SpliceApart(b, 8, filled, |b| - size, |b|);
  }

  function Ones(n: nat): (s: seq<Byte>)
    ensures |s| == n && forall i :: 0 <= i < n ==> s[i] == 0xFF
  {
    seq(n, _ => 0xFF)
  }

  // resetStacktraceAndDebugRecords
  method ResetRecords(b: seq<Byte>, size: nat, length: nat, count: nat) returns (r: seq<Byte>)
    requires Fits(b, size, length, count)
    ensures |r| == |b| && FieldPart(r, size) == FieldPart(b, size) && LinkPart(r, length) == LinkPart(b, length)
    ensures RecordPart(r, length, count) == Ones(4 * count)
  {
    r := Splice(b, 8 + length, Ones(4 * count));
    SpliceApart(b, 8 + length, Ones(4 * count), |b| - size, |b|);
    SpliceApart(b, 8 + length, Ones(4 * count), 8, 8 + length);
  }

  // initializeModule on the basedata, for every build and whatever is written to the fields before and after the
  // globals, before and after the stacktrace records are reset: iterating the globals yields the encoded initial
  // values, every record is reset, and the fields are as if nothing but their own writes had happened.
  method InitializeBasedata(b: seq<Byte>, c: Basedata.Config, file: seq<Byte>, binary: BinaryModule,
                            early: seq<FieldWrite>, links: seq<LinkWrite>, late: seq<FieldWrite>, last: seq<FieldWrite>,
                            ghost m: Module, ghost p: seq<int>) returns (r: seq<Byte>, values: seq<(Byte, seq<Byte>)>)
    requires BinaryFormat.WellFormed(m) && file == Image(m) && Places(m, p) && binary.Describes(m, p, |file|)
    requires Basedata.Housed(c, m.linkDataLength, m.stacktrace % 0x8000_0000)
    requires |b| == Basedata.Length(c, m.linkDataLength, m.stacktrace % 0x8000_0000)
    requires SlotsFit(m.mutableGlobals, m.linkDataLength) && SlotsApart(m.mutableGlobals)
    requires AllWritable(Basedata.Fields(c), early + late + last)
    requires forall i :: 0 <= i < |links| ==> links[i].offset + |links[i].data| <= m.linkDataLength
    ensures |r| == |b| && |values| == |m.mutableGlobals|
    ensures forall i :: 0 <= i < |values| ==> Given(values[i], m.mutableGlobals[i].initial)
    ensures Holds(r, Basedata.Fields(c), early + late + last, m.mutableGlobals, m.linkDataLength,
                  m.stacktrace % 0x8000_0000)
    ensures Fits(r, Basedata.LastFrameRefPtr(c), m.linkDataLength, m.stacktrace % 0x8000_0000)
    ensures RecordPart(r, m.linkDataLength, m.stacktrace % 0x8000_0000) == Ones(4 * (m.stacktrace % 0x8000_0000))
    ensures Block(Basedata.Fields(c), Basedata.LastFrameRefPtr(c)) && Basedata.LastFrameRefPtr(c) <= |b|
    ensures FieldPart(r, Basedata.LastFrameRefPtr(c))
      == Put(Basedata.Fields(c), FieldPart(b, Basedata.LastFrameRefPtr(c)), early + late + last)
  {
    var length, count := binary.linkDataLength, binary.stacktraceEntryCount;
    Basedata.LayoutFollows(c, length, count);
    Basedata.FieldsStacked(c);
    var fs, size := Basedata.Fields(c), Basedata.LastFrameRefPtr(c);
    r := InitializeParts(b, fs, size, length, count, file, binary, early, links, late, last, m, p);
    values := IterateMutableGlobals(file, binary, r[8..8 + length], m, p);
    InitialGiven(m.mutableGlobals);
    BasedataHolds(b, r, fs, size, early + late + last, m.mutableGlobals, length, count);
  }

  method InitializeParts(b: seq<Byte>, fs: seq<Basedata.Field>, size: nat, length: nat, count: nat, file: seq<Byte>,
                         binary: BinaryModule, early: seq<FieldWrite>, links: seq<LinkWrite>, late: seq<FieldWrite>,
                         last: seq<FieldWrite>, ghost m: Module, ghost p: seq<int>) returns (r: seq<Byte>)
    requires BinaryFormat.WellFormed(m) && file == Image(m) && Places(m, p) && binary.Describes(m, p, |file|)
    requires length == m.linkDataLength && Fits(b, size, length, count) && Block(fs, size)
    requires SlotsFit(m.mutableGlobals, m.linkDataLength) && SlotsApart(m.mutableGlobals)
    requires AllWritable(fs, early + late + last)
    requires forall i :: 0 <= i < |links| ==> links[i].offset + |links[i].data| <= length
    ensures |r| == |b| && Current(LinkPart(r, length), m.mutableGlobals) == Initial(m.mutableGlobals)
    ensures RecordPart(r, length, count) == Ones(4 * count)
    ensures FieldPart(r, size) == Put(fs, FieldPart(b, size), early + late + last)
  {
    WritableParts(fs, early, late, last);
    r := WriteFields(b, fs, size, early, length, count);
    r := WriteLinks(r, size, links, length, count);
    r := WriteGlobals(r, size, file, binary, m, p, count);
    r := WriteFields(r, fs, size, late, length, count);
    r := ResetRecords(r, size, length, count);
    r := WriteFields(r, fs, size, last, length, count);
    PutSum(fs, FieldPart(b, size), early, late);
    PutSum(fs, FieldPart(b, size), early + late, last);
  }

  // No later write goes to the same field.
  ghost predicate LastToField(ws: seq<FieldWrite>, i: nat) {
    i < |ws| && forall j :: i < j < |ws| ==> ws[j].field != ws[i].field
  }

  // What the basedata holds, byte by byte: every global's value behind the eight bytes in front, the records reset
  // behind the link data, and in every field what was written to it last.
  ghost predicate Holds(r: seq<Byte>, fs: seq<Basedata.Field>, ws: seq<FieldWrite>, gs: seq<MutableGlobal>, length: nat,
                        count: nat) {
    && (forall i :: 0 <= i < |gs| ==> ValueLies(r, 8 + gs[i].linkOffset % 0x1_0000, gs[i].initial))
    && (forall k :: 8 + length <= k < 8 + length + 4 * count ==> k < |r| && r[k] == 0xFF)
    && (forall i: nat :: LastToField(ws, i) ==>
          && ws[i].field < |fs| && fs[ws[i].field].offset <= |r|
          && HasAt(r, |r| - fs[ws[i].field].offset, ws[i].data))
  }

  lemma BasedataHolds(b: seq<Byte>, r: seq<Byte>, fs: seq<Basedata.Field>, size: nat, ws: seq<FieldWrite>,
                      gs: seq<MutableGlobal>, length: nat, count: nat)
    requires |r| == |b| && Fits(r, size, length, count) && Block(fs, size) && AllWritable(fs, ws)
    requires SlotsFit(gs, length) && Current(LinkPart(r, length), gs) == Initial(gs)
    requires RecordPart(r, length, count) == Ones(4 * count)
    requires FieldPart(r, size) == Put(fs, FieldPart(b, size), ws)
    ensures Holds(r, fs, ws, gs, length, count)
  {
    forall i | 0 <= i < |gs|
      ensures ValueLies(r, 8 + gs[i].linkOffset % 0x1_0000, gs[i].initial)
    {
      GlobalHeld(r, gs, length, i);
    }
    forall k | 8 + length <= k < 8 + length + 4 * count
      ensures r[k] == 0xFF
    {
      assert RecordPart(r, length, count)[k - 8 - length] == r[k];
    }
    forall i: nat | LastToField(ws, i)
      ensures ws[i].field < |fs| && fs[ws[i].field].offset <= |r|
      ensures HasAt(r, |r| - fs[ws[i].field].offset, ws[i].data)
    {
      FieldHeld(b, r, fs, size, ws, i);
    }
  }

  lemma {:induction false} GlobalHeld(r: seq<Byte>, gs: seq<MutableGlobal>, length: nat, i: nat)
    requires 8 + length <= |r| && i < |gs|
    requires SlotsFit(gs, length) && Current(LinkPart(r, length), gs) == Initial(gs)
    ensures ValueLies(r, 8 + gs[i].linkOffset % 0x1_0000, gs[i].initial)
  {
    var slot, n := Slot(gs[i]), ConstantSize(gs[i].initial);
    var link := LinkPart(r, length);
    assert slot + n <= length;
    assert Current(link, gs)[i].1 == link[slot..slot + n] && Initial(gs)[i].1 == ValueBytes(gs[i].initial);
    assert Current(link, gs)[i] == Initial(gs)[i];
    SliceInSlice(r, 8, 8 + length, slot, n);
    HeldLies(r, 8 + slot, gs[i].initial);
  }

  lemma {:induction false} FieldHeld(b: seq<Byte>, r: seq<Byte>, fs: seq<Basedata.Field>, size: nat,
                                     ws: seq<FieldWrite>, i: nat)
    requires |r| == |b| && size <= |r| && Block(fs, size) && AllWritable(fs, ws) && LastToField(ws, i)
    requires FieldPart(r, size) == Put(fs, FieldPart(b, size), ws)
    ensures ws[i].field < |fs| && fs[ws[i].field].offset <= |r|
    ensures HasAt(r, |r| - fs[ws[i].field].offset, ws[i].data)
  {
    LastWriteHolds(fs, FieldPart(b, size), ws, i);
    var at, n := Place(fs, size, ws[i].field), |ws[i].data|;
    var front := |r| - size;
    SliceInSlice(r, front, |r|, at, n);
    assert FieldPart(r, size) == r[front..|r|];
  }

  lemma WritableParts(fs: seq<Basedata.Field>, early: seq<FieldWrite>, late: seq<FieldWrite>, last: seq<FieldWrite>)
    requires AllWritable(fs, early + late + last)
    ensures AllWritable(fs, early) && AllWritable(fs, late) && AllWritable(fs, last)
  {
    var all := early + late + last;
    SliceWritable(fs, all, 0, |early|);
    SliceWritable(fs, all, |early|, |early + late|);
    SliceWritable(fs, all, |early + late|, |all|);
    assert all[..|early|] == early && all[|early|..|early + late|] == late && all[|early + late|..] == last;
  }

  lemma SliceWritable(fs: seq<Basedata.Field>, ws: seq<FieldWrite>, from: nat, to: nat)
    requires AllWritable(fs, ws) && from <= to <= |ws|
    ensures AllWritable(fs, ws[from..to])
  {
    forall i | 0 <= i < to - from
      ensures Writable(fs, ws[from..to][i])
    {
      assert ws[from..to][i] == ws[from + i];
    }
  }
}
