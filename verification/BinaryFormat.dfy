// The binary module: what it holds, the items it is written as, and their bytes. A reader starts at the
// end of the file and moves towards its start, so the first item lies last.
module BinaryFormat {
  import opened Bytes
  import opened Bits

  // ---- Items ----

  datatype Item = U8(b: Byte) | Num(v: U32) | Blob(bytes: seq<Byte>, padding: seq<Byte>)

  datatype Items = Done | More(head: Item, tail: Items)

  function ItemBytes(i: Item): seq<Byte> {
    match i
    case U8(b) => [b]
    case Num(v) => LE32(v)
    case Blob(bytes, padding) => bytes + padding
  }

  // The file, from its start to the place where these items remain to be read.
  function Encoded(items: Items): seq<Byte> {
    match items
    case Done => []
    case More(head, tail) => Encoded(tail) + ItemBytes(head)
  }

  function Width(i: Item): (n: nat)
    ensures n == |ItemBytes(i)|
  {
    match i
    case U8(_) => 1
    case Num(_) => 4
    case Blob(bytes, padding) => |bytes| + |padding|
  }

  function Size(items: Items): (n: nat)
    ensures n == |Encoded(items)|
  {
    match items
    case Done => 0
    case More(head, tail) => Width(head) + Size(tail)
  }

  // ---- The module ----

  // How far a length is from the next multiple of four.
  function Gap(n: nat): nat {
    (4 - n % 4) % 4
  }

  // Bytes with what pads them to four; nothing is said about the content of the padding.
  datatype PaddedText = Text(bytes: seq<Byte>, padding: seq<Byte>)

  type Text = t: PaddedText | |t.padding| == Gap(|t.bytes|) witness Text([], [])

  type Two = s: seq<Byte> | |s| == 2 witness [0, 0]
  type Three = s: seq<Byte> | |s| == 3 witness [0, 0, 0]
  type Eight = s: seq<Byte> | |s| == 8 witness [0, 0, 0, 0, 0, 0, 0, 0]

  datatype Constant = I32(v: U32) | I64(d: Eight) | F32(v: U32) | F64(d: Eight)

  datatype Callable = Callable(signature: Text, wrapper: Text)

  datatype ExportedFunction = ExportedFunction(index: U32, name: Text, callable: Callable)

  // An exported global is either a slot in the link data or a constant.
  datatype Exposure = Mutable(kind: Byte, linkOffset: U32) | Immutable(value: Constant)

  datatype ExportedGlobal = ExportedGlobal(name: Text, filler: Two, exposure: Exposure)

  datatype Import = Import(moduleName: Text, name: Text, signature: Text, linkOffset: U32)

  datatype MutableGlobal = MutableGlobal(filler: Three, linkOffset: U32, initial: Constant)

  datatype FunctionName = FunctionName(index: U32, name: Text)

  datatype DataSegment = DataSegment(start: U32, bytes: Text)

  datatype TableEntry = TableEntry(signature: U32, offset: U32)

  // Lists are in the order a reader meets them, from the end of the file.
  datatype Module = Module(
    version: U32,
    stacktrace: U32,
    landingPad: U32,
    linkDataLength: U32,
    tableFunctions: seq<U32>,
    table: seq<TableEntry>,
    linkStatus: seq<Byte>,
    linkFiller: seq<Byte>,
    functions: seq<ExportedFunction>,
    globals: seq<ExportedGlobal>,
    memory: U32,
    imports: seq<Import>,
    mutableGlobals: seq<MutableGlobal>,
    start: seq<Callable>,
    names: seq<FunctionName>,
    segments: seq<DataSegment>,
    bodies: seq<Text>
  )

  // A start function is there or not, every table entry has its wrapper offset, and function bodies are
  // not empty of bytes in the file because each carries its size.
  predicate WellFormed(m: Module) {
    && |m.start| <= 1
    && |m.tableFunctions| == |m.table|
    && |m.linkFiller| == Gap(|m.linkStatus|)
    && Size(All(m)) < WORD32
  }

  // The type letters of signatures, and the codes of machine types.
  function SignatureLetter(c: Constant): Byte {
    match c
    case I32(_) => 0x69
    case I64(_) => 0x49
    case F32(_) => 0x66
    case F64(_) => 0x46
  }

  function MachineType(c: Constant): Byte {
    match c
    case I32(_) => 1
    case I64(_) => 2
    case F32(_) => 3
    case F64(_) => 4
  }

  // ---- Each part written in front of the items that follow it ----

  function Sized(t: Text, rest: Items): Items {
    More(Num(Narrow(|t.bytes|)), More(Blob(t.bytes, t.padding), rest))
  }

  function Value(c: Constant, rest: Items): Items {
    match c
    case I32(v) => More(Num(v), rest)
    case F32(v) => More(Num(v), rest)
    case I64(d) => More(Blob(d, []), rest)
    case F64(d) => More(Blob(d, []), rest)
  }

  function Called(c: Callable, rest: Items): Items {
    Sized(c.signature, Sized(c.wrapper, rest))
  }

  function TableFunctions(ws: seq<U32>, rest: Items): Items {
    if ws == [] then rest else More(Num(ws[0]), TableFunctions(ws[1..], rest))
  }

  function Table(es: seq<TableEntry>, rest: Items): Items {
    if es == [] then rest else More(Num(es[0].signature), More(Num(es[0].offset), Table(es[1..], rest)))
  }

  function Statuses(bs: seq<Byte>, rest: Items): Items {
    if bs == [] then rest else More(U8(bs[0]), Statuses(bs[1..], rest))
  }

  function Functions(fs: seq<ExportedFunction>, rest: Items): Items {
    if fs == [] then rest
    else More(Num(fs[0].index), Sized(fs[0].name, Called(fs[0].callable, Functions(fs[1..], rest))))
  }

  function Exposed(e: Exposure, rest: Items): Items {
    match e
    case Mutable(kind, linkOffset) => More(U8(kind), More(U8(1), More(Num(linkOffset), rest)))
    case Immutable(c) => More(U8(SignatureLetter(c)), More(U8(0), Value(c, rest)))
  }

  function Globals(gs: seq<ExportedGlobal>, rest: Items): Items {
    if gs == [] then rest
    else Sized(gs[0].name, More(Blob(gs[0].filler, []), Exposed(gs[0].exposure, Globals(gs[1..], rest))))
  }

  function Imports(imps: seq<Import>, rest: Items): Items {
    if imps == [] then rest
    else Sized(imps[0].moduleName,
      Sized(imps[0].name, Sized(imps[0].signature, More(Num(imps[0].linkOffset), Imports(imps[1..], rest)))))
  }

  function MutableGlobals(gs: seq<MutableGlobal>, rest: Items): Items {
    if gs == [] then rest
    else
      More(Blob(gs[0].filler, []), More(U8(MachineType(gs[0].initial)),
           More(Num(gs[0].linkOffset), Value(gs[0].initial, MutableGlobals(gs[1..], rest)))))
  }

  function Start(cs: seq<Callable>, rest: Items): Items {
    if cs == [] then rest else Called(cs[0], Start(cs[1..], rest))
  }

  function Names(ns: seq<FunctionName>, rest: Items): Items {
    if ns == [] then rest else More(Num(ns[0].index), Sized(ns[0].name, Names(ns[1..], rest)))
  }

  function Segments(ds: seq<DataSegment>, rest: Items): Items {
    if ds == [] then rest else More(Num(ds[0].start), Sized(ds[0].bytes, Segments(ds[1..], rest)))
  }

  function Bodies(bs: seq<Text>): Items {
    if bs == [] then Done else Sized(bs[0], Bodies(bs[1..]))
  }

  // ---- Byte sizes, as the layout table gives them ----

  function TextSize(t: Text): nat {
    4 + |t.bytes| + |t.padding|
  }

  function ConstantSize(c: Constant): nat {
    if c.I32? || c.F32? then 4 else 8
  }

  function CallableSize(c: Callable): nat {
    TextSize(c.signature) + TextSize(c.wrapper)
  }

  function FunctionsSize(fs: seq<ExportedFunction>): nat {
    if fs == [] then 0 else 4 + TextSize(fs[0].name) + CallableSize(fs[0].callable) + FunctionsSize(fs[1..])
  }

  function ExposureSize(e: Exposure): nat {
    2 + if e.Mutable? then 4 else ConstantSize(e.value)
  }

  function GlobalsSize(gs: seq<ExportedGlobal>): nat {
    if gs == [] then 0 else TextSize(gs[0].name) + 2 + ExposureSize(gs[0].exposure) + GlobalsSize(gs[1..])
  }

  function ImportsSize(imps: seq<Import>): nat {
    if imps == [] then 0
    else
      var i := imps[0];
      TextSize(i.moduleName) + TextSize(i.name) + TextSize(i.signature) + 4 + ImportsSize(imps[1..])
  }

  function MutableGlobalsSize(gs: seq<MutableGlobal>): nat {
    if gs == [] then 0 else 8 + ConstantSize(gs[0].initial) + MutableGlobalsSize(gs[1..])
  }

  function StartSize(cs: seq<Callable>): nat {
    if cs == [] then 0 else CallableSize(cs[0]) + StartSize(cs[1..])
  }

  function NamesSize(ns: seq<FunctionName>): nat {
    if ns == [] then 0 else 4 + TextSize(ns[0].name) + NamesSize(ns[1..])
  }

  function SegmentsSize(ds: seq<DataSegment>): nat {
    if ds == [] then 0 else 4 + TextSize(ds[0].bytes) + SegmentsSize(ds[1..])
  }

  function BodiesSize(bs: seq<Text>): nat {
    if bs == [] then 0 else TextSize(bs[0]) + BodiesSize(bs[1..])
  }

  // ---- The whole file: section k and everything a reader meets after it ----

  function SizedSection(content: nat, count: nat, items: Items): Items {
    More(Num(Narrow(content + 4)), More(Num(Narrow(count)), items))
  }

  const SECTIONS := 13

  function Section(m: Module, k: nat, rest: Items): Items {
    match k
    case 0 => More(Num(m.version), More(Num(m.stacktrace), More(Num(m.landingPad), More(Num(m.linkDataLength), rest))))
    case 1 => More(Num(Narrow(|m.tableFunctions|)), TableFunctions(m.tableFunctions, rest))
    case 2 => More(Num(Narrow(|m.table|)), Table(m.table, rest))
    case 3 => More(Num(Narrow(|m.linkStatus|)), More(Blob(m.linkFiller, []), Statuses(m.linkStatus, rest)))
    case 4 => SizedSection(FunctionsSize(m.functions), |m.functions|, Functions(m.functions, rest))
    case 5 => SizedSection(GlobalsSize(m.globals), |m.globals|, Globals(m.globals, rest))
    case 6 => More(Num(m.memory), rest)
    case 7 => SizedSection(ImportsSize(m.imports), |m.imports|, Imports(m.imports, rest))
    case 8 => SizedSection(MutableGlobalsSize(m.mutableGlobals), |m.mutableGlobals|,
      MutableGlobals(m.mutableGlobals, rest))
    case 9 => More(Num(Narrow(StartSize(m.start))), Start(m.start, rest))
    case 10 => SizedSection(NamesSize(m.names), |m.names|, Names(m.names, rest))
    case 11 => More(Num(Narrow(|m.segments|)), Segments(m.segments, rest))
    case _ => Bodies(m.bodies)
  }

  function From(m: Module, k: nat): Items
    requires k <= SECTIONS
    decreases SECTIONS - k, m
  {
    if k == SECTIONS then Done else Section(m, k, From(m, k + 1))
  }

  // The length word comes first and does not count itself.
  function All(m: Module): Items {
    More(Num(Narrow(Size(From(m, 0)))), From(m, 0))
  }

  function Image(m: Module): seq<Byte> {
    Encoded(All(m))
  }

  // ---- Reading one item back ----

  // The cursor stands at p with these items still to be read.
  ghost predicate At(data: seq<Byte>, p: nat, items: Items) {
    p <= |data| < WORD32 && data[..p] == Encoded(items)
  }

  lemma PopItem(data: seq<Byte>, p: nat, items: Items)
    requires At(data, p, items) && items.More?
    ensures
      var n := |ItemBytes(items.head)|;
      n <= p && At(data, p - n, items.tail) && data[p - n..p] == ItemBytes(items.head)
  {
    var b, n := ItemBytes(items.head), |ItemBytes(items.head)|;
    assert data[..p][..p - n] == data[..p - n];
    assert data[..p][p - n..] == data[p - n..p];
    assert (Encoded(items.tail) + b)[..p - n] == Encoded(items.tail);
    assert (Encoded(items.tail) + b)[p - n..] == b;
  }

  lemma PopNum(data: seq<Byte>, p: nat, items: Items)
    requires At(data, p, items) && items.More? && items.head.Num?
    ensures 4 <= p && At(data, p - 4, items.tail) && Word(data, p - 4) == items.head.v
  {
    PopItem(data, p, items);
    LE32RoundTrip(items.head.v);
    var w := data[p - 4..p];
    assert w[0] == data[p - 4] && w[1] == data[p - 3] && w[2] == data[p - 2] && w[3] == data[p - 1];
  }

  lemma PopBlob(data: seq<Byte>, p: nat, items: Items, size: nat, gap: nat)
    requires At(data, p, items) && items.More? && items.head.Blob?
    requires size == |items.head.bytes| && gap == |items.head.padding|
    ensures size + gap <= p && At(data, p - size - gap, items.tail)
    ensures data[p - size - gap..p - gap] == items.head.bytes && data[p - gap..p] == items.head.padding
  {
    PopItem(data, p, items);
    var whole, from := data[p - size - gap..p], p - size - gap;
    assert whole == items.head.bytes + items.head.padding;
    assert whole[..size] == data[from..from + size];
    assert whole[size..] == data[p - gap..p];
  }

  lemma PopU8(data: seq<Byte>, p: nat, items: Items)
    requires At(data, p, items) && items.More? && items.head.U8?
    ensures 1 <= p && At(data, p - 1, items.tail) && data[p - 1] == items.head.b
  {
    PopItem(data, p, items);
    assert data[p - 1..p][0] == data[p - 1];
  }

  lemma FourAndWord()
    ensures Pow2(2) == 4 && Pow2(32) == WORD32
  {
    Pow2Words();
    assert Pow2(2) == 2 * Pow2(1) == 4 * Pow2(0);
  }

  lemma NextMultiple(n: nat)
    ensures n % 4 == 0 ==> Gap(n) == 0
    ensures n % 4 != 0 ==> n + Gap(n) == n - n % 4 + 4
  {
  }

  // deltaToNextPow2 is the gap, and roundUpToPow2 the padded length, of every length that leaves room for
  // the padding.
  lemma RoundsUp(n: nat)
    requires n + 3 < WORD32
    ensures n < Pow2(32) && RoundUpToPow2(n, 2, 32) == n + Gap(n)
  {
    FourAndWord();
    NextMultiple(n);
    if n % Pow2(2) != 0 {
      RoundUpToPow2Unaligned(n, 2, 32);
    } else {
      MaskLow(n, 2);
    }
  }

  // ---- Walking over every element covers exactly the bytes the section sizes count ----

  lemma TwoMore(a: Item, b: Item, rest: Items)
    ensures Size(More(a, More(b, rest))) == Width(a) + Width(b) + Size(rest)
  {
    assert Size(More(b, rest)) == Width(b) + Size(rest);
  }

  lemma SizedSize(t: Text, rest: Items)
    ensures Size(Sized(t, rest)) == TextSize(t) + Size(rest)
  {
    TwoMore(Num(Narrow(|t.bytes|)), Blob(t.bytes, t.padding), rest);
  }

  lemma CalledSize(c: Callable, rest: Items)
    ensures Size(Called(c, rest)) == CallableSize(c) + Size(rest)
  {
    SizedSize(c.signature, Sized(c.wrapper, rest));
    SizedSize(c.wrapper, rest);
  }

  lemma {:induction false} FunctionsCovered(fs: seq<ExportedFunction>, rest: Items)
    ensures Size(Functions(fs, rest)) == FunctionsSize(fs) + Size(rest)
    ensures |fs| <= FunctionsSize(fs)
  {
    if fs != [] {
      var f, more := fs[0], Functions(fs[1..], rest);
      FunctionsCovered(fs[1..], rest);
      CalledSize(f.callable, more);
      SizedSize(f.name, Called(f.callable, more));
    }
  }

  lemma ExposedSize(e: Exposure, rest: Items)
    ensures Size(Exposed(e, rest)) == ExposureSize(e) + Size(rest)
  {
    match e {
      case Mutable(kind, linkOffset) => TwoMore(U8(kind), U8(1), More(Num(linkOffset), rest));
      case Immutable(c) => TwoMore(U8(SignatureLetter(c)), U8(0), Value(c, rest));
    }
  }

  lemma {:induction false} GlobalsCovered(gs: seq<ExportedGlobal>, rest: Items)
    ensures Size(Globals(gs, rest)) == GlobalsSize(gs) + Size(rest)
    ensures |gs| <= GlobalsSize(gs)
  {
    if gs != [] {
      var more := Globals(gs[1..], rest);
      GlobalsCovered(gs[1..], rest);
      ExposedSize(gs[0].exposure, more);
      SizedSize(gs[0].name, More(Blob(gs[0].filler, []), Exposed(gs[0].exposure, more)));
    }
  }

  lemma {:induction false} ImportsCovered(imps: seq<Import>, rest: Items)
    ensures Size(Imports(imps, rest)) == ImportsSize(imps) + Size(rest)
    ensures |imps| <= ImportsSize(imps)
  {
    if imps != [] {
      var one := More(Num(imps[0].linkOffset), Imports(imps[1..], rest));
      ImportsCovered(imps[1..], rest);
      SizedSize(imps[0].signature, one);
      SizedSize(imps[0].name, Sized(imps[0].signature, one));
      SizedSize(imps[0].moduleName, Sized(imps[0].name, Sized(imps[0].signature, one)));
    }
  }

  lemma {:induction false} MutableGlobalsCovered(gs: seq<MutableGlobal>, rest: Items)
    ensures Size(MutableGlobals(gs, rest)) == MutableGlobalsSize(gs) + Size(rest)
    ensures |gs| <= MutableGlobalsSize(gs)
  {
    if gs != [] {
      var g, more := gs[0], MutableGlobals(gs[1..], rest);
      MutableGlobalsCovered(gs[1..], rest);
      var two := More(Num(g.linkOffset), Value(g.initial, more));
      TwoMore(Blob(g.filler, []), U8(MachineType(g.initial)), two);
      assert Size(Value(g.initial, more)) == ConstantSize(g.initial) + Size(more);
    }
  }

  lemma {:induction false} StartCovered(cs: seq<Callable>, rest: Items)
    ensures Size(Start(cs, rest)) == StartSize(cs) + Size(rest)
    ensures StartSize(cs) == 0 <==> cs == []
  {
    if cs != [] {
      StartCovered(cs[1..], rest);
      CalledSize(cs[0], Start(cs[1..], rest));
    }
  }

  lemma {:induction false} NamesCovered(ns: seq<FunctionName>, rest: Items)
    ensures Size(Names(ns, rest)) == NamesSize(ns) + Size(rest)
    ensures |ns| <= NamesSize(ns)
  {
    if ns != [] {
      NamesCovered(ns[1..], rest);
      SizedSize(ns[0].name, Names(ns[1..], rest));
    }
  }

  lemma {:induction false} SegmentsCovered(ds: seq<DataSegment>, rest: Items)
    ensures Size(Segments(ds, rest)) == SegmentsSize(ds) + Size(rest)
    ensures |ds| <= SegmentsSize(ds)
  {
    if ds != [] {
      SegmentsCovered(ds[1..], rest);
      SizedSize(ds[0].bytes, Segments(ds[1..], rest));
    }
  }

  lemma {:induction false} BodiesCovered(bs: seq<Text>)
    ensures Size(Bodies(bs)) == BodiesSize(bs)
  {
    if bs != [] {
      BodiesCovered(bs[1..]);
      SizedSize(bs[0], Bodies(bs[1..]));
    }
  }

  lemma {:induction false} TableFunctionsCovered(ws: seq<U32>, rest: Items)
    ensures Size(TableFunctions(ws, rest)) == 4 * |ws| + Size(rest)
  {
    if ws != [] {
      TableFunctionsCovered(ws[1..], rest);
    }
  }

  lemma {:induction false} TableCovered(es: seq<TableEntry>, rest: Items)
    ensures Size(Table(es, rest)) == 8 * |es| + Size(rest)
  {
    if es != [] {
      TableCovered(es[1..], rest);
      TwoMore(Num(es[0].signature), Num(es[0].offset), Table(es[1..], rest));
    }
  }

  lemma {:induction false} StatusesCovered(bs: seq<Byte>, rest: Items)
    ensures Size(Statuses(bs, rest)) == |bs| + Size(rest)
  {
    if bs != [] {
      StatusesCovered(bs[1..], rest);
    }
  }

  // ---- Every entry is a whole number of words ----

  lemma Sum4(a: nat, b: nat)
    requires a % 4 == 0 && b % 4 == 0
    ensures (a + b) % 4 == 0
  {
  }

  lemma TextAligned(t: Text)
    ensures TextSize(t) % 4 == 0
  {
  }

  lemma CallableAligned(c: Callable)
    ensures CallableSize(c) % 4 == 0
  {
    TextAligned(c.signature);
    TextAligned(c.wrapper);
    Sum4(TextSize(c.signature), TextSize(c.wrapper));
  }

  lemma FunctionAligned(f: ExportedFunction)
    ensures (TextSize(f.name) + CallableSize(f.callable)) % 4 == 0
  {
    TextAligned(f.name);
    CallableAligned(f.callable);
    Sum4(TextSize(f.name), CallableSize(f.callable));
  }

  lemma {:induction false} FunctionsAligned(fs: seq<ExportedFunction>)
    ensures FunctionsSize(fs) % 4 == 0
  {
    if fs != [] {
      FunctionAligned(fs[0]);
      FunctionsAligned(fs[1..]);
      var one := TextSize(fs[0].name) + CallableSize(fs[0].callable);
      Sum4(4, one);
      Sum4(4 + one, FunctionsSize(fs[1..]));
    }
  }

  lemma {:induction false} GlobalsAligned(gs: seq<ExportedGlobal>)
    ensures GlobalsSize(gs) % 4 == 0
  {
    if gs != [] {
      TextAligned(gs[0].name);
      GlobalsAligned(gs[1..]);
      Sum4(TextSize(gs[0].name), GlobalsSize(gs[1..]));
    }
  }

  lemma ImportAligned(i: Import)
    ensures (TextSize(i.moduleName) + TextSize(i.name) + TextSize(i.signature)) % 4 == 0
  {
    TextAligned(i.moduleName);
    TextAligned(i.name);
    TextAligned(i.signature);
    Sum4(TextSize(i.moduleName), TextSize(i.name));
    Sum4(TextSize(i.moduleName) + TextSize(i.name), TextSize(i.signature));
  }

  lemma {:induction false} ImportsAligned(imps: seq<Import>)
    ensures ImportsSize(imps) % 4 == 0
  {
    if imps != [] {
      var i := imps[0];
      ImportAligned(i);
      ImportsAligned(imps[1..]);
      var one := TextSize(i.moduleName) + TextSize(i.name) + TextSize(i.signature);
      Sum4(one, 4);
      Sum4(one + 4, ImportsSize(imps[1..]));
    }
  }

  lemma {:induction false} MutableGlobalsAligned(gs: seq<MutableGlobal>)
    ensures MutableGlobalsSize(gs) % 4 == 0
  {
    if gs != [] {
      MutableGlobalsAligned(gs[1..]);
    }
  }

  lemma {:induction false} StartAligned(cs: seq<Callable>)
    ensures StartSize(cs) % 4 == 0
  {
    if cs != [] {
      CallableAligned(cs[0]);
      StartAligned(cs[1..]);
      Sum4(CallableSize(cs[0]), StartSize(cs[1..]));
    }
  }

  lemma {:induction false} NamesAligned(ns: seq<FunctionName>)
    ensures NamesSize(ns) % 4 == 0
  {
    if ns != [] {
      TextAligned(ns[0].name);
      NamesAligned(ns[1..]);
      Sum4(TextSize(ns[0].name), NamesSize(ns[1..]));
    }
  }

  lemma {:induction false} SegmentsAligned(ds: seq<DataSegment>)
    ensures SegmentsSize(ds) % 4 == 0
  {
    if ds != [] {
      TextAligned(ds[0].bytes);
      SegmentsAligned(ds[1..]);
      Sum4(TextSize(ds[0].bytes), SegmentsSize(ds[1..]));
    }
  }

  lemma {:induction false} BodiesAligned(bs: seq<Text>)
    ensures BodiesSize(bs) % 4 == 0
  {
    if bs != [] {
      TextAligned(bs[0]);
      BodiesAligned(bs[1..]);
      Sum4(TextSize(bs[0]), BodiesSize(bs[1..]));
    }
  }

  // What section k takes.
  function SectionSize(m: Module, k: nat): nat {
    match k
    case 0 => 16
    case 1 => 4 + 4 * |m.tableFunctions|
    case 2 => 4 + 8 * |m.table|
    case 3 => 4 + |m.linkFiller| + |m.linkStatus|
    case 4 => 8 + FunctionsSize(m.functions)
    case 5 => 8 + GlobalsSize(m.globals)
    case 6 => 4
    case 7 => 8 + ImportsSize(m.imports)
    case 8 => 8 + MutableGlobalsSize(m.mutableGlobals)
    case 9 => 4 + StartSize(m.start)
    case 10 => 8 + NamesSize(m.names)
    case 11 => 4 + SegmentsSize(m.segments)
    case _ => BodiesSize(m.bodies)
  }

  lemma SizedSectionSize(content: nat, count: nat, items: Items)
    ensures Size(SizedSection(content, count, items)) == 8 + Size(items)
  {
    TwoMore(Num(Narrow(content + 4)), Num(Narrow(count)), items);
  }

  // Walking over a section's elements moves the cursor by the size of the section.
  lemma SectionCovered(m: Module, k: nat, rest: Items)
    requires k < SECTIONS && (k == 12 ==> rest == Done)
    ensures Size(Section(m, k, rest)) == SectionSize(m, k) + Size(rest)
  {
    match k {
      case 0 =>
        TwoMore(Num(m.landingPad), Num(m.linkDataLength), rest);
        TwoMore(Num(m.version), Num(m.stacktrace), More(Num(m.landingPad), More(Num(m.linkDataLength), rest)));
      case 1 => TableFunctionsCovered(m.tableFunctions, rest);
      case 2 => TableCovered(m.table, rest);
      case 3 =>
        StatusesCovered(m.linkStatus, rest);
        TwoMore(Num(Narrow(|m.linkStatus|)), Blob(m.linkFiller, []), Statuses(m.linkStatus, rest));
      case 4 =>
        FunctionsCovered(m.functions, rest);
        SizedSectionSize(FunctionsSize(m.functions), |m.functions|, Functions(m.functions, rest));
      case 5 =>
        GlobalsCovered(m.globals, rest);
        SizedSectionSize(GlobalsSize(m.globals), |m.globals|, Globals(m.globals, rest));
      case 6 =>
      case 7 =>
        ImportsCovered(m.imports, rest);
        SizedSectionSize(ImportsSize(m.imports), |m.imports|, Imports(m.imports, rest));
      case 8 =>
        MutableGlobalsCovered(m.mutableGlobals, rest);
        SizedSectionSize(MutableGlobalsSize(m.mutableGlobals), |m.mutableGlobals|,
          MutableGlobals(m.mutableGlobals, rest));
      case 9 => StartCovered(m.start, rest);
      case 10 =>
        NamesCovered(m.names, rest);
        SizedSectionSize(NamesSize(m.names), |m.names|, Names(m.names, rest));
      case 11 => SegmentsCovered(m.segments, rest);
      case _ => BodiesCovered(m.bodies);
    }
  }

  lemma WordsAligned(n: nat)
    ensures 4 * n % 4 == 0
  {
  }

  lemma PaddedAligned(n: nat)
    ensures (4 + Gap(n) + n) % 4 == 0
  {
  }

  // The content of the sized sections, without the words in front of it.
  function ContentSize(m: Module, k: nat): nat {
    match k
    case 4 => FunctionsSize(m.functions)
    case 5 => GlobalsSize(m.globals)
    case 7 => ImportsSize(m.imports)
    case 8 => MutableGlobalsSize(m.mutableGlobals)
    case 9 => StartSize(m.start)
    case 10 => NamesSize(m.names)
    case 11 => SegmentsSize(m.segments)
    case _ => BodiesSize(m.bodies)
  }

  lemma ContentAligned(m: Module, k: nat)
    requires k >= 4 && k != 6
    ensures ContentSize(m, k) % 4 == 0
  {
    FunctionsAligned(m.functions);
    GlobalsAligned(m.globals);
    ImportsAligned(m.imports);
    MutableGlobalsAligned(m.mutableGlobals);
    StartAligned(m.start);
    NamesAligned(m.names);
    SegmentsAligned(m.segments);
    BodiesAligned(m.bodies);
  }

  lemma SectionAligned(m: Module, k: nat)
    requires |m.linkFiller| == Gap(|m.linkStatus|)
    ensures SectionSize(m, k) % 4 == 0
  {
    if k == 1 {
      WordsAligned(1 + |m.tableFunctions|);
    } else if k == 2 {
      WordsAligned(1 + 2 * |m.table|);
    } else if k == 3 {
      PaddedAligned(|m.linkStatus|);
    } else if k >= 4 && k != 6 {
      var head := if k == 9 || k == 11 then 4 else if k >= 12 then 0 else 8;
      ContentAligned(m, k);
      assert SectionSize(m, k) == head + ContentSize(m, k);
      Sum4(head, ContentSize(m, k));
    }
  }

  // Every section boundary is a whole number of words from the file's start.
  lemma {:induction false} BoundariesAligned(m: Module, k: nat)
    requires k <= SECTIONS && |m.linkFiller| == Gap(|m.linkStatus|)
    ensures Size(From(m, k)) % 4 == 0
    decreases SECTIONS - k
  {
    if k < SECTIONS {
      BoundariesAligned(m, k + 1);
      SectionCovered(m, k, From(m, k + 1));
      SectionAligned(m, k);
      Sum4(SectionSize(m, k), Size(From(m, k + 1)));
    }
  }

  // The entries of each section that is a list; in section 3 they are single bytes.
  function EntryCount(m: Module, k: nat): nat {
    match k
    case 1 => |m.tableFunctions|
    case 2 => |m.table|
    case 4 => |m.functions|
    case 5 => |m.globals|
    case 7 => |m.imports|
    case 8 => |m.mutableGlobals|
    case 9 => |m.start|
    case 10 => |m.names|
    case 11 => |m.segments|
    case 12 => |m.bodies|
    case _ => 0
  }

  // What remains to be read in front of entry i of section k, as the readers' loops have it.
  function FromEntry(m: Module, k: nat, i: nat): Items
    requires k < SECTIONS && i <= EntryCount(m, k)
  {
    var rest := From(m, k + 1);
    match k
    case 1 => TableFunctions(m.tableFunctions[i..], rest)
    case 2 => Table(m.table[i..], rest)
    case 4 => Functions(m.functions[i..], rest)
    case 5 => Globals(m.globals[i..], rest)
    case 7 => Imports(m.imports[i..], rest)
    case 8 => MutableGlobals(m.mutableGlobals[i..], rest)
    case 9 => Start(m.start[i..], rest)
    case 10 => Names(m.names[i..], rest)
    case 11 => Segments(m.segments[i..], rest)
    case 12 => Bodies(m.bodies[i..])
    case _ => From(m, k)
  }

  function FromEntrySize(m: Module, k: nat, i: nat): nat
    requires k < SECTIONS && i <= EntryCount(m, k)
  {
    match k
    case 1 => 4 * |m.tableFunctions[i..]|
    case 2 => 8 * |m.table[i..]|
    case 4 => FunctionsSize(m.functions[i..])
    case 5 => GlobalsSize(m.globals[i..])
    case 7 => ImportsSize(m.imports[i..])
    case 8 => MutableGlobalsSize(m.mutableGlobals[i..])
    case 9 => StartSize(m.start[i..])
    case 10 => NamesSize(m.names[i..])
    case 11 => SegmentsSize(m.segments[i..])
    case 12 => BodiesSize(m.bodies[i..])
    case _ => 0
  }

  lemma EntriesCovered(m: Module, k: nat, i: nat)
    requires k < SECTIONS && i <= EntryCount(m, k) && k !in {0, 3, 6}
    ensures Size(FromEntry(m, k, i)) == FromEntrySize(m, k, i) + Size(From(m, k + 1))
  {
    var rest := From(m, k + 1);
    match k {
      case 1 => TableFunctionsCovered(m.tableFunctions[i..], rest);
      case 2 => TableCovered(m.table[i..], rest);
      case 4 => FunctionsCovered(m.functions[i..], rest);
      case 5 => GlobalsCovered(m.globals[i..], rest);
      case 7 => ImportsCovered(m.imports[i..], rest);
      case 8 => MutableGlobalsCovered(m.mutableGlobals[i..], rest);
      case 9 => StartCovered(m.start[i..], rest);
      case 10 => NamesCovered(m.names[i..], rest);
      case 11 => SegmentsCovered(m.segments[i..], rest);
      case _ => BodiesCovered(m.bodies[i..]);
    }
  }

  lemma EntrySizesAligned(m: Module, k: nat, i: nat)
    requires k < SECTIONS && i <= EntryCount(m, k)
    ensures FromEntrySize(m, k, i) % 4 == 0
  {
    match k {
      case 1 => WordsAligned(|m.tableFunctions[i..]|);
      case 2 => WordsAligned(2 * |m.table[i..]|);
      case 4 => FunctionsAligned(m.functions[i..]);
      case 5 => GlobalsAligned(m.globals[i..]);
      case 7 => ImportsAligned(m.imports[i..]);
      case 8 => MutableGlobalsAligned(m.mutableGlobals[i..]);
      case 9 => StartAligned(m.start[i..]);
      case 10 => NamesAligned(m.names[i..]);
      case 11 => SegmentsAligned(m.segments[i..]);
      case 12 => BodiesAligned(m.bodies[i..]);
      case _ =>
    }
  }

  // In front of every entry of every section the cursor is a whole number of words from the file's start and from
  // its end.
  lemma EntriesAligned(m: Module, k: nat, i: nat)
    requires k < SECTIONS && i <= EntryCount(m, k) && |m.linkFiller| == Gap(|m.linkStatus|)
    ensures Size(FromEntry(m, k, i)) % 4 == 0 && (Size(All(m)) - Size(FromEntry(m, k, i))) % 4 == 0
  {
    BoundariesAligned(m, 0);
    EntryAligned(m, k, i);
    Difference4(4 + Size(From(m, 0)), Size(FromEntry(m, k, i)));
  }

  lemma Difference4(a: nat, b: nat)
    requires a % 4 == 0 && b % 4 == 0
    ensures (a - b) % 4 == 0
  {
  }

  lemma EntryAligned(m: Module, k: nat, i: nat)
    requires k < SECTIONS && i <= EntryCount(m, k) && |m.linkFiller| == Gap(|m.linkStatus|)
    ensures Size(FromEntry(m, k, i)) % 4 == 0
  {
    if k in {0, 3, 6} {
      BoundariesAligned(m, k);
    } else {
      BoundariesAligned(m, k + 1);
      EntriesCovered(m, k, i);
      EntrySizesAligned(m, k, i);
      Sum4(FromEntrySize(m, k, i), Size(From(m, k + 1)));
    }
  }

  // ---- What remains after a section lies in front of it ----

  ghost predicate Below(low: Items, items: Items) {
    Encoded(low) <= Encoded(items)
  }

  lemma MoreBelow(low: Items, i: Item, items: Items)
    requires Below(low, items)
    ensures Below(low, More(i, items))
  {
  }

  lemma TwoBelow(low: Items, a: Item, b: Item, items: Items)
    requires Below(low, items)
    ensures Below(low, More(a, More(b, items)))
  {
    MoreBelow(low, b, items);
    MoreBelow(low, a, More(b, items));
  }

  lemma SizedBelow(low: Items, t: Text, items: Items)
    requires Below(low, items)
    ensures Below(low, Sized(t, items))
  {
    TwoBelow(low, Num(Narrow(|t.bytes|)), Blob(t.bytes, t.padding), items);
  }

  lemma CalledBelow(low: Items, c: Callable, items: Items)
    requires Below(low, items)
    ensures Below(low, Called(c, items))
  {
    SizedBelow(low, c.wrapper, items);
    SizedBelow(low, c.signature, Sized(c.wrapper, items));
  }

  lemma {:induction false} FunctionsBelow(fs: seq<ExportedFunction>, rest: Items)
    ensures Below(rest, Functions(fs, rest))
  {
    if fs != [] {
      var more := Functions(fs[1..], rest);
      FunctionsBelow(fs[1..], rest);
      CalledBelow(rest, fs[0].callable, more);
      SizedBelow(rest, fs[0].name, Called(fs[0].callable, more));
      MoreBelow(rest, Num(fs[0].index), Sized(fs[0].name, Called(fs[0].callable, more)));
    }
  }

  lemma ExposedBelow(low: Items, e: Exposure, items: Items)
    requires Below(low, items)
    ensures Below(low, Exposed(e, items))
  {
    match e {
      case Mutable(kind, linkOffset) =>
        MoreBelow(low, Num(linkOffset), items);
        TwoBelow(low, U8(kind), U8(1), More(Num(linkOffset), items));
      case Immutable(c) =>
        TwoBelow(low, U8(SignatureLetter(c)), U8(0), Value(c, items));
    }
  }

  lemma {:induction false} GlobalsBelow(gs: seq<ExportedGlobal>, rest: Items)
    ensures Below(rest, Globals(gs, rest))
  {
    if gs != [] {
      var one := Exposed(gs[0].exposure, Globals(gs[1..], rest));
      GlobalsBelow(gs[1..], rest);
      ExposedBelow(rest, gs[0].exposure, Globals(gs[1..], rest));
      MoreBelow(rest, Blob(gs[0].filler, []), one);
      SizedBelow(rest, gs[0].name, More(Blob(gs[0].filler, []), one));
    }
  }

  lemma {:induction false} ImportsBelow(imps: seq<Import>, rest: Items)
    ensures Below(rest, Imports(imps, rest))
  {
    if imps != [] {
      var i, one := imps[0], More(Num(imps[0].linkOffset), Imports(imps[1..], rest));
      ImportsBelow(imps[1..], rest);
      MoreBelow(rest, Num(i.linkOffset), Imports(imps[1..], rest));
      SizedBelow(rest, i.signature, one);
      SizedBelow(rest, i.name, Sized(i.signature, one));
      SizedBelow(rest, i.moduleName, Sized(i.name, Sized(i.signature, one)));
    }
  }

  lemma {:induction false} MutableGlobalsBelow(gs: seq<MutableGlobal>, rest: Items)
    ensures Below(rest, MutableGlobals(gs, rest))
  {
    if gs != [] {
      var g, value := gs[0], Value(gs[0].initial, MutableGlobals(gs[1..], rest));
      MutableGlobalsBelow(gs[1..], rest);
      MoreBelow(rest, value.head, value.tail);
      MoreBelow(rest, Num(g.linkOffset), value);
      TwoBelow(rest, Blob(g.filler, []), U8(MachineType(g.initial)), More(Num(g.linkOffset), value));
    }
  }

  lemma {:induction false} StartBelow(cs: seq<Callable>, rest: Items)
    ensures Below(rest, Start(cs, rest))
  {
    if cs != [] {
      StartBelow(cs[1..], rest);
      CalledBelow(rest, cs[0], Start(cs[1..], rest));
    }
  }

  lemma {:induction false} NamesBelow(ns: seq<FunctionName>, rest: Items)
    ensures Below(rest, Names(ns, rest))
  {
    if ns != [] {
      NamesBelow(ns[1..], rest);
      SizedBelow(rest, ns[0].name, Names(ns[1..], rest));
      MoreBelow(rest, Num(ns[0].index), Sized(ns[0].name, Names(ns[1..], rest)));
    }
  }

  lemma {:induction false} TableFunctionsBelow(ws: seq<U32>, rest: Items)
    ensures Below(rest, TableFunctions(ws, rest))
  {
    if ws != [] {
      TableFunctionsBelow(ws[1..], rest);
      MoreBelow(rest, Num(ws[0]), TableFunctions(ws[1..], rest));
    }
  }

  lemma {:induction false} TableBelow(es: seq<TableEntry>, rest: Items)
    ensures Below(rest, Table(es, rest))
  {
    if es != [] {
      TableBelow(es[1..], rest);
      TwoBelow(rest, Num(es[0].signature), Num(es[0].offset), Table(es[1..], rest));
    }
  }

  lemma {:induction false} StatusesBelow(bs: seq<Byte>, rest: Items)
    ensures Below(rest, Statuses(bs, rest))
  {
    if bs != [] {
      StatusesBelow(bs[1..], rest);
      MoreBelow(rest, U8(bs[0]), Statuses(bs[1..], rest));
    }
  }

  // Moving the cursor by the bytes between two places, without looking at them.
  lemma Skip(data: seq<Byte>, p: nat, items: Items, rest: Items)
    requires At(data, p, items) && Below(rest, items)
    ensures Size(rest) <= p == Size(items) && At(data, Size(rest), rest)
  {
    assert Encoded(rest) == Encoded(items)[..Size(rest)] == data[..p][..Size(rest)] == data[..Size(rest)];
  }
}
