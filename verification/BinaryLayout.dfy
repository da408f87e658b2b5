// The bytes of a binary module by their distance from its sections, without the items it is written as.
module BinaryLayout {
  import opened Bytes
  import opened BinaryFormat
  import opened BinaryReaders

  // ---- Records, from the cursor that stands behind them ----

  ghost predicate WordAt(file: seq<Byte>, p: int, v: int) {
    4 <= p <= |file| && Word(file, p - 4) == v
  }

  ghost predicate ByteAt(file: seq<Byte>, p: int, b: int) {
    0 <= p < |file| && file[p] == b
  }

  // A length and, in front of it, that many bytes from a place that leaves them padded to four.
  function Taken(t: Text): nat {
    4 + (|t.bytes| + 3) / 4 * 4
  }

  ghost predicate TextAt(file: seq<Byte>, p: int, t: Text) {
    && WordAt(file, p, |t.bytes|) && Taken(t) <= p
    && file[p - Taken(t)..p - Taken(t) + |t.bytes|] == t.bytes
  }

  function ValueTaken(c: Constant): nat {
    match c case I32(_) => 4 case F32(_) => 4 case I64(_) => 8 case F64(_) => 8
  }

  ghost predicate ValueAt(file: seq<Byte>, p: int, c: Constant) {
    match c
    case I32(v) => WordAt(file, p, v)
    case F32(v) => WordAt(file, p, v)
    case I64(d) => 8 <= p <= |file| && file[p - 8..p] == d
    case F64(d) => 8 <= p <= |file| && file[p - 8..p] == d
  }

  function Letter(c: Constant): char {
    match c case I32(_) => 'i' case I64(_) => 'I' case F32(_) => 'f' case F64(_) => 'F'
  }

  function Code(c: Constant): int {
    match c case I32(_) => 1 case I64(_) => 2 case F32(_) => 3 case F64(_) => 4
  }

  ghost predicate CallableAt(file: seq<Byte>, p: int, c: Callable, next: int) {
    && TextAt(file, p, c.signature) && TextAt(file, p - Taken(c.signature), c.wrapper)
    && next == p - Taken(c.signature) - Taken(c.wrapper)
  }

  ghost predicate FunctionAt(file: seq<Byte>, p: int, f: ExportedFunction, next: int) {
    && WordAt(file, p, f.index) && TextAt(file, p - 4, f.name)
    && CallableAt(file, p - 4 - Taken(f.name), f.callable, next)
  }

  // Two bytes of alignment, the type letter, whether it is mutable, then a link data offset or the value.
  ghost predicate ExposureAt(file: seq<Byte>, p: int, e: Exposure, next: int) {
    match e
    case Mutable(kind, linkOffset) =>
      ByteAt(file, p - 3, kind) && ByteAt(file, p - 4, 1) && WordAt(file, p - 4, linkOffset) && next == p - 8
    case Immutable(c) =>
      && ByteAt(file, p - 3, Letter(c) as int) && ByteAt(file, p - 4, 0)
      && ValueAt(file, p - 4, c) && next == p - 4 - ValueTaken(c)
  }

  ghost predicate GlobalAt(file: seq<Byte>, p: int, g: ExportedGlobal, next: int) {
    TextAt(file, p, g.name) && ExposureAt(file, p - Taken(g.name), g.exposure, next)
  }

  ghost predicate ImportAt(file: seq<Byte>, p: int, i: Import, next: int) {
    && TextAt(file, p, i.moduleName) && TextAt(file, p - Taken(i.moduleName), i.name)
    && TextAt(file, p - Taken(i.moduleName) - Taken(i.name), i.signature)
    && WordAt(file, p - Taken(i.moduleName) - Taken(i.name) - Taken(i.signature), i.linkOffset)
    && next == p - Taken(i.moduleName) - Taken(i.name) - Taken(i.signature) - 4
  }

  // Three bytes of alignment, the type code, the link data offset, the initial value.
  ghost predicate MutableGlobalAt(file: seq<Byte>, p: int, g: MutableGlobal, next: int) {
    && ByteAt(file, p - 4, Code(g.initial)) && WordAt(file, p - 4, g.linkOffset)
    && ValueAt(file, p - 8, g.initial) && next == p - 8 - ValueTaken(g.initial)
  }

  ghost predicate NameAt(file: seq<Byte>, p: int, n: FunctionName, next: int) {
    WordAt(file, p, n.index) && TextAt(file, p - 4, n.name) && next == p - 4 - Taken(n.name)
  }

  ghost predicate SegmentAt(file: seq<Byte>, p: int, d: DataSegment, next: int) {
    WordAt(file, p, d.start) && TextAt(file, p - 4, d.bytes) && next == p - 4 - Taken(d.bytes)
  }

  // ---- One record read off its items ----

  lemma TextLaid(file: seq<Byte>, p: nat, t: Text, rest: Items)
    requires At(file, p, Sized(t, rest))
    ensures TextAt(file, p, t) && p == Taken(t) + Size(rest) && At(file, Size(rest), rest)
  {
    var items, n, gap := Sized(t, rest), |t.bytes|, |t.padding|;
    SizedSize(t, rest);
    PaddedToFour(n);
    assert Taken(t) == 4 + n + gap;
    PopNum(file, p, items);
    PopBlob(file, p - 4, items.tail, n, gap);
    assert p - 4 - n - gap == p - Taken(t) && p - 4 - gap == p - Taken(t) + n;
  }

  lemma PaddedToFour(n: nat)
    ensures n + Gap(n) == (n + 3) / 4 * 4
  {
  }

  lemma ValueLaid(file: seq<Byte>, p: nat, c: Constant, rest: Items)
    requires At(file, p, Value(c, rest))
    ensures ValueAt(file, p, c) && p == ValueTaken(c) + Size(rest) && At(file, Size(rest), rest)
  {
    var items := Value(c, rest);
    if c.I32? || c.F32? {
      PopNum(file, p, items);
    } else {
      PopBlob(file, p, items, 8, 0);
    }
  }

  lemma CallableLaid(file: seq<Byte>, p: nat, c: Callable, rest: Items)
    requires At(file, p, Called(c, rest))
    ensures CallableAt(file, p, c, Size(rest)) && At(file, Size(rest), rest)
  {
    TextLaid(file, p, c.signature, Sized(c.wrapper, rest));
    TextLaid(file, p - Taken(c.signature), c.wrapper, rest);
  }

  lemma FunctionLaid(file: seq<Byte>, p: nat, f: ExportedFunction, rest: Items)
    requires At(file, p, More(Num(f.index), Sized(f.name, Called(f.callable, rest))))
    ensures FunctionAt(file, p, f, Size(rest)) && At(file, Size(rest), rest)
  {
    PopNum(file, p, More(Num(f.index), Sized(f.name, Called(f.callable, rest))));
    TextLaid(file, p - 4, f.name, Called(f.callable, rest));
    CallableLaid(file, p - 4 - Taken(f.name), f.callable, rest);
  }

  lemma ExposureLaid(file: seq<Byte>, p: nat, filler: Two, e: Exposure, rest: Items)
    requires At(file, p, More(Blob(filler, []), Exposed(e, rest)))
    ensures ExposureAt(file, p, e, Size(rest)) && At(file, Size(rest), rest)
  {
    var items := Exposed(e, rest);
    PopBlob(file, p, More(Blob(filler, []), items), 2, 0);
    PopU8(file, p - 2, items);
    PopU8(file, p - 3, items.tail);
    match e {
      case Mutable(kind, linkOffset) => PopNum(file, p - 4, items.tail.tail);
      case Immutable(c) => ValueLaid(file, p - 4, c, rest);
    }
  }

  lemma GlobalLaid(file: seq<Byte>, p: nat, g: ExportedGlobal, rest: Items)
    requires At(file, p, Sized(g.name, More(Blob(g.filler, []), Exposed(g.exposure, rest))))
    ensures GlobalAt(file, p, g, Size(rest)) && At(file, Size(rest), rest)
  {
    TextLaid(file, p, g.name, More(Blob(g.filler, []), Exposed(g.exposure, rest)));
    ExposureLaid(file, p - Taken(g.name), g.filler, g.exposure, rest);
  }

  lemma ImportLaid(file: seq<Byte>, p: nat, i: Import, rest: Items)
    requires At(file, p, Sized(i.moduleName, Sized(i.name, Sized(i.signature, More(Num(i.linkOffset), rest)))))
    ensures ImportAt(file, p, i, Size(rest)) && At(file, Size(rest), rest)
  {
    var one := More(Num(i.linkOffset), rest);
    TextLaid(file, p, i.moduleName, Sized(i.name, Sized(i.signature, one)));
    TextLaid(file, p - Taken(i.moduleName), i.name, Sized(i.signature, one));
    TextLaid(file, p - Taken(i.moduleName) - Taken(i.name), i.signature, one);
    PopNum(file, p - Taken(i.moduleName) - Taken(i.name) - Taken(i.signature), one);
  }

  lemma MutableGlobalLaid(file: seq<Byte>, p: nat, g: MutableGlobal, rest: Items)
    requires At(file, p, More(Blob(g.filler, []), More(U8(MachineType(g.initial)),
                              More(Num(g.linkOffset), Value(g.initial, rest)))))
    ensures MutableGlobalAt(file, p, g, Size(rest)) && At(file, Size(rest), rest)
  {
    var value := Value(g.initial, rest);
    var items := More(U8(MachineType(g.initial)), More(Num(g.linkOffset), value));
    PopBlob(file, p, More(Blob(g.filler, []), items), 3, 0);
    PopU8(file, p - 3, items);
    PopNum(file, p - 4, items.tail);
    ValueLaid(file, p - 8, g.initial, rest);
  }

  // ---- Every entry of every list ----

  // Entry i of section k lies in front of p, the entry behind it in front of next.
  ghost predicate EntryAt(file: seq<Byte>, m: Module, k: nat, i: nat, p: int, next: int)
    requires i < EntryCount(m, k)
  {
    match k
    case 1 => WordAt(file, p, m.tableFunctions[i]) && next == p - 4
    case 2 => WordAt(file, p, m.table[i].signature) && WordAt(file, p - 4, m.table[i].offset) && next == p - 8
    case 4 => FunctionAt(file, p, m.functions[i], next)
    case 5 => GlobalAt(file, p, m.globals[i], next)
    case 7 => ImportAt(file, p, m.imports[i], next)
    case 8 => MutableGlobalAt(file, p, m.mutableGlobals[i], next)
    case 9 => CallableAt(file, p, m.start[i], next)
    case 10 => NameAt(file, p, m.names[i], next)
    case 11 => SegmentAt(file, p, m.segments[i], next)
    case _ => TextAt(file, p, m.bodies[i]) && next == p - Taken(m.bodies[i])
  }

  lemma EntryLaid(file: seq<Byte>, m: Module, k: nat, i: nat)
    requires k < SECTIONS && i < EntryCount(m, k)
    requires At(file, Size(FromEntry(m, k, i)), FromEntry(m, k, i))
    ensures EntryAt(file, m, k, i, Size(FromEntry(m, k, i)), Size(FromEntry(m, k, i + 1)))
    ensures At(file, Size(FromEntry(m, k, i + 1)), FromEntry(m, k, i + 1))
  {
    if k <= 2 {
      WordsLaid(file, m, k, i);
    } else if k <= 7 {
      ExchangeLaid(file, m, k, i);
    } else if k <= 9 {
      InternalLaid(file, m, k, i);
    } else {
      LastLaid(file, m, k, i);
    }
  }

  lemma WordsLaid(file: seq<Byte>, m: Module, k: nat, i: nat)
    requires k in {1, 2} && i < EntryCount(m, k)
    requires At(file, Size(FromEntry(m, k, i)), FromEntry(m, k, i))
    ensures EntryAt(file, m, k, i, Size(FromEntry(m, k, i)), Size(FromEntry(m, k, i + 1)))
    ensures At(file, Size(FromEntry(m, k, i + 1)), FromEntry(m, k, i + 1))
  {
    var p, items := Size(FromEntry(m, k, i)), FromEntry(m, k, i);
    if k == 1 {
      assert m.tableFunctions[i..][1..] == m.tableFunctions[i + 1..];
      PopNum(file, p, items);
    } else {
      assert m.table[i..][1..] == m.table[i + 1..];
      PopNum(file, p, items);
      PopNum(file, p - 4, items.tail);
    }
  }

  lemma ExchangeLaid(file: seq<Byte>, m: Module, k: nat, i: nat)
    requires k in {4, 5, 7} && i < EntryCount(m, k)
    requires At(file, Size(FromEntry(m, k, i)), FromEntry(m, k, i))
    ensures EntryAt(file, m, k, i, Size(FromEntry(m, k, i)), Size(FromEntry(m, k, i + 1)))
    ensures At(file, Size(FromEntry(m, k, i + 1)), FromEntry(m, k, i + 1))
  {
    var p, rest := Size(FromEntry(m, k, i)), FromEntry(m, k, i + 1);
    if k == 4 {
      assert m.functions[i..][1..] == m.functions[i + 1..];
      FunctionLaid(file, p, m.functions[i], rest);
    } else if k == 5 {
      assert m.globals[i..][1..] == m.globals[i + 1..];
      GlobalLaid(file, p, m.globals[i], rest);
    } else {
      assert m.imports[i..][1..] == m.imports[i + 1..];
      ImportLaid(file, p, m.imports[i], rest);
    }
  }

  lemma InternalLaid(file: seq<Byte>, m: Module, k: nat, i: nat)
    requires k in {8, 9} && i < EntryCount(m, k)
    requires At(file, Size(FromEntry(m, k, i)), FromEntry(m, k, i))
    ensures EntryAt(file, m, k, i, Size(FromEntry(m, k, i)), Size(FromEntry(m, k, i + 1)))
    ensures At(file, Size(FromEntry(m, k, i + 1)), FromEntry(m, k, i + 1))
  {
    var p, rest := Size(FromEntry(m, k, i)), FromEntry(m, k, i + 1);
    if k == 8 {
      assert m.mutableGlobals[i..][1..] == m.mutableGlobals[i + 1..];
      MutableGlobalLaid(file, p, m.mutableGlobals[i], rest);
    } else {
      assert m.start[i..][1..] == m.start[i + 1..];
      CallableLaid(file, p, m.start[i], rest);
    }
  }

  lemma NameLaid(file: seq<Byte>, p: nat, n: FunctionName, rest: Items)
    requires At(file, p, More(Num(n.index), Sized(n.name, rest)))
    ensures NameAt(file, p, n, Size(rest)) && At(file, Size(rest), rest)
  {
    PopNum(file, p, More(Num(n.index), Sized(n.name, rest)));
    TextLaid(file, p - 4, n.name, rest);
  }

  lemma SegmentLaid(file: seq<Byte>, p: nat, d: DataSegment, rest: Items)
    requires At(file, p, More(Num(d.start), Sized(d.bytes, rest)))
    ensures SegmentAt(file, p, d, Size(rest)) && At(file, Size(rest), rest)
  {
    PopNum(file, p, More(Num(d.start), Sized(d.bytes, rest)));
    TextLaid(file, p - 4, d.bytes, rest);
  }

  lemma LastLaid(file: seq<Byte>, m: Module, k: nat, i: nat)
    requires k in {10, 11, 12} && i < EntryCount(m, k)
    requires At(file, Size(FromEntry(m, k, i)), FromEntry(m, k, i))
    ensures EntryAt(file, m, k, i, Size(FromEntry(m, k, i)), Size(FromEntry(m, k, i + 1)))
    ensures At(file, Size(FromEntry(m, k, i + 1)), FromEntry(m, k, i + 1))
  {
    var p, rest := Size(FromEntry(m, k, i)), FromEntry(m, k, i + 1);
    if k == 10 {
      assert m.names[i..][1..] == m.names[i + 1..];
      NameLaid(file, p, m.names[i], rest);
    } else if k == 11 {
      assert m.segments[i..][1..] == m.segments[i + 1..];
      SegmentLaid(file, p, m.segments[i], rest);
    } else {
      assert m.bodies[i..][1..] == m.bodies[i + 1..];
      TextLaid(file, p, m.bodies[i], rest);
    }
  }

  // ---- Where the lists start, and the words in front of them ----

  // How many words lie in front of the entries of a section.
  function Words(k: nat): nat {
    if k in {4, 5, 7, 8, 10} then 2 else if k == 12 then 0 else 1
  }

  lemma ListStarts(m: Module, k: nat)
    requires WellFormed(m) && k < SECTIONS && k !in {0, 3, 6}
    ensures At(Image(m), Size(FromEntry(m, k, 0)), FromEntry(m, k, 0))
    ensures Size(FromEntry(m, k, 0)) == Size(From(m, k)) - 4 * Words(k)
    decreases k, 0
  {
    var file, p := Image(m), Size(From(m, k));
    NothingDropped(m);
    if k == 12 {
      EntryPlaced(m, 11, |m.segments|);
    } else {
      Placed(m, k);
      PopNum(file, p, From(m, k));
      if k in {4, 5, 7, 8, 10} {
        PopNum(file, p - 4, From(m, k).tail);
      }
    }
  }

  lemma NothingDropped(m: Module)
    ensures m.tableFunctions[0..] == m.tableFunctions && m.table[0..] == m.table && m.functions[0..] == m.functions
    ensures m.globals[0..] == m.globals && m.imports[0..] == m.imports && m.mutableGlobals[0..] == m.mutableGlobals
    ensures m.start[0..] == m.start && m.names[0..] == m.names && m.segments[0..] == m.segments
    ensures m.bodies[0..] == m.bodies
  {
  }

  lemma {:induction false} EntryPlaced(m: Module, k: nat, i: nat)
    requires WellFormed(m) && k < SECTIONS && k !in {0, 3, 6} && i <= EntryCount(m, k)
    ensures At(Image(m), Size(FromEntry(m, k, i)), FromEntry(m, k, i))
    decreases k, 1, i
  {
    if i == 0 {
      ListStarts(m, k);
    } else {
      EntryPlaced(m, k, i - 1);
      EntryLaid(Image(m), m, k, i - 1);
    }
  }

  // The entries of a section, the first `Words(k)` words behind its boundary, the last at the next boundary.
  lemma EntriesLaid(m: Module, k: nat, i: nat)
    requires WellFormed(m) && k < SECTIONS && i < EntryCount(m, k)
    ensures EntryAt(Image(m), m, k, i, Size(FromEntry(m, k, i)), Size(FromEntry(m, k, i + 1)))
  {
    EntryPlaced(m, k, i);
    EntryLaid(Image(m), m, k, i);
  }

  // Behind the last entry of a section lies the next boundary, behind the last section the start of the file.
  lemma ListEnds(m: Module, k: nat)
    requires k < SECTIONS && k !in {0, 3, 6}
    ensures FromEntry(m, k, EntryCount(m, k)) == From(m, k + 1)
    ensures Size(From(m, 13)) == 0
  {
    AllDropped(m);
    match k {
      case 1 =>
      case 2 =>
      case 4 =>
      case 5 =>
      case 7 =>
      case 8 =>
      case 9 =>
      case 10 =>
      case 11 =>
      case _ =>
    }
  }

  lemma AllDropped(m: Module)
    ensures m.tableFunctions[|m.tableFunctions|..] == [] && m.table[|m.table|..] == []
    ensures m.functions[|m.functions|..] == [] && m.globals[|m.globals|..] == [] && m.imports[|m.imports|..] == []
    ensures m.mutableGlobals[|m.mutableGlobals|..] == [] && m.start[|m.start|..] == []
    ensures m.names[|m.names|..] == [] && m.segments[|m.segments|..] == [] && m.bodies[|m.bodies|..] == []
  {
  }

  // The words of the first section, one after the other in front of the length of the file.
  lemma InfoLaid(m: Module)
    requires WellFormed(m)
    ensures
      var file := Image(m);
      && WordAt(file, |file|, |file| - 4) && WordAt(file, |file| - 4, m.version)
      && WordAt(file, |file| - 8, m.stacktrace) && WordAt(file, |file| - 12, m.landingPad)
      && WordAt(file, |file| - 16, m.linkDataLength) && Size(From(m, 1)) == |file| - 20
  {
    var file, items := Image(m), From(m, 0);
    assert file[..|file|] == file;
    PopNum(file, |file|, All(m));
    PopNum(file, |file| - 4, items);
    PopNum(file, |file| - 8, items.tail);
    PopNum(file, |file| - 12, items.tail.tail);
    PopNum(file, |file| - 16, items.tail.tail.tail);
  }

  // In front of a section: its size, which leads from behind that word to the next boundary, and its count.
  lemma SizesLaid(m: Module, k: nat)
    requires WellFormed(m) && k in {4, 5, 7, 8, 9, 10}
    ensures
      var file, p := Image(m), Size(From(m, k));
      && WordAt(file, p, p - 4 - Size(From(m, k + 1)))
      && (k != 9 ==> WordAt(file, p - 4, EntryCount(m, k)))
  {
    Placed(m, k);
    SizesSkip(m, k, From(m, k + 1));
    SizeWord(Image(m), From(m, k), From(m, k + 1));
    if k != 9 {
      CountsFit(m, k, From(m, k + 1));
      CountFollows(m, k, From(m, k + 1));
      CountWord(Image(m), From(m, k), EntryCount(m, k));
    }
  }

  lemma SizeWord(file: seq<Byte>, items: Items, rest: Items)
    requires At(file, Size(items), items) && Skips(items, rest)
    ensures WordAt(file, Size(items), Size(items) - 4 - Size(rest))
  {
    PopNum(file, Size(items), items);
  }

  lemma CountWord(file: seq<Byte>, items: Items, n: nat)
    requires At(file, Size(items), items) && items.More? && items.head.Num?
    requires items.tail.More? && items.tail.head == Num(Narrow(n)) && n <= Size(items)
    ensures WordAt(file, Size(items) - 4, n)
  {
    PopNum(file, Size(items), items);
    PopNum(file, Size(items) - 4, items.tail);
  }

  lemma CountFollows(m: Module, k: nat, rest: Items)
    requires k in {4, 5, 7, 8, 10}
    ensures
      var items := Section(m, k, rest);
      items.More? && items.head.Num? && items.tail.More? && items.tail.head == Num(Narrow(EntryCount(m, k)))
  {
  }

  lemma CountsFit(m: Module, k: nat, rest: Items)
    requires k in {4, 5, 7, 8, 10}
    ensures EntryCount(m, k) <= Size(Section(m, k, rest))
  {
    if k == 4 {
      FunctionsCovered(m.functions, rest);
    } else if k == 5 {
      GlobalsCovered(m.globals, rest);
    } else if k == 7 {
      ImportsCovered(m.imports, rest);
    } else if k == 8 {
      MutableGlobalsCovered(m.mutableGlobals, rest);
    } else {
      NamesCovered(m.names, rest);
    }
  }

  // What the sections that start with a count alone, or are a word, say there.
  function Counted(m: Module, k: nat): nat {
    match k
    case 1 => |m.tableFunctions|
    case 2 => |m.table|
    case 3 => |m.linkStatus|
    case 6 => m.memory
    case _ => |m.segments|
  }

  lemma CountLaid(m: Module, k: nat)
    requires WellFormed(m) && k in {1, 2, 3, 6, 11}
    ensures WordAt(Image(m), Size(From(m, k)), Counted(m, k))
    ensures k == 6 ==> Size(From(m, 7)) == Size(From(m, 6)) - 4
  {
    Placed(m, k);
    CountFits(m, k, From(m, k + 1));
    PopNum(Image(m), Size(From(m, k)), From(m, k));
  }

  lemma CountFits(m: Module, k: nat, rest: Items)
    requires k in {1, 2, 3, 6, 11}
    ensures k != 6 ==> Counted(m, k) <= Size(Section(m, k, rest))
    ensures Section(m, k, rest).More? && Section(m, k, rest).head == Num(Narrow(Counted(m, k)))
  {
    if k == 1 {
      TableFunctionsCovered(m.tableFunctions, rest);
    } else if k == 2 {
      TableCovered(m.table, rest);
    } else if k == 3 {
      StatusesCovered(m.linkStatus, rest);
    } else if k == 11 {
      SegmentsCovered(m.segments, rest);
    }
  }

  // The statuses lie at the end of their section, the first of them last.
  lemma StatusesLaid(m: Module, i: nat)
    requires WellFormed(m) && i < |m.linkStatus|
    ensures Size(From(m, 4)) == Size(From(m, 3)) - 4 - (|m.linkStatus| + 3) / 4 * 4
    ensures ByteAt(Image(m), Size(From(m, 4)) + |m.linkStatus| - 1 - i, m.linkStatus[i])
  {
    var n, file, rest := |m.linkStatus|, Image(m), From(m, 4);
    Placed(m, 3);
    assert From(m, 3) == More(Num(Narrow(n)), More(Blob(m.linkFiller, []), Statuses(m.linkStatus, rest)));
    FilledStatuses(file, Size(From(m, 3)), Narrow(n), m.linkFiller, m.linkStatus, rest);
    PaddedToFour(n);
    StatusLaid(file, m.linkStatus, rest, i);
  }

  lemma FilledStatuses(file: seq<Byte>, p: nat, n: U32, filler: seq<Byte>, bs: seq<Byte>, rest: Items)
    requires At(file, p, More(Num(n), More(Blob(filler, []), Statuses(bs, rest))))
    ensures At(file, Size(rest) + |bs|, Statuses(bs, rest)) && p == 4 + |filler| + |bs| + Size(rest)
  {
    var items := Statuses(bs, rest);
    StatusesCovered(bs, rest);
    PopNum(file, p, More(Num(n), More(Blob(filler, []), items)));
    PopItem(file, p - 4, More(Blob(filler, []), items));
  }

  lemma {:induction false} StatusLaid(file: seq<Byte>, bs: seq<Byte>, rest: Items, i: nat)
    requires At(file, Size(rest) + |bs|, Statuses(bs, rest)) && i < |bs|
    ensures ByteAt(file, Size(rest) + |bs| - 1 - i, bs[i])
  {
    var items := Statuses(bs, rest);
    assert items == More(U8(bs[0]), Statuses(bs[1..], rest));
    PopU8(file, Size(rest) + |bs|, items);
    if i > 0 {
      StatusLaid(file, bs[1..], rest, i - 1);
    }
  }

  // ---- What init keeps, from the bytes alone ----

  lemma SizeAt(m: Module, p: seq<int>, k: nat)
    requires WellFormed(m) && Places(m, p) && k in {4, 5, 7, 8, 9, 10}
    ensures WordAt(Image(m), p[k], p[k] - 4 - p[k + 1])
  {
    assert p[k] == Size(From(m, k)) && p[k + 1] == Size(From(m, k + 1));
    SizesLaid(m, k);
  }

  lemma CountAt(m: Module, p: seq<int>, k: nat)
    requires WellFormed(m) && Places(m, p) && k in {1, 2, 3, 6, 11}
    ensures WordAt(Image(m), p[k], Counted(m, k))
    ensures k == 1 ==> p[2] == p[1] - 4 - 4 * |m.tableFunctions|
    ensures k == 2 ==> p[3] == p[2] - 4 - 8 * |m.table|
    ensures k == 3 ==> p[4] == p[3] - 4 - (|m.linkStatus| + 3) / 4 * 4
    ensures k == 6 ==> p[7] == p[6] - 4
  {
    var rest := From(m, k + 1);
    assert p[k] == Size(From(m, k)) && (k <= 6 ==> p[k + 1] == Size(rest));
    CountLaid(m, k);
    SectionCovered(m, k, rest);
    PaddedToFour(|m.linkStatus|);
  }

  lemma StartAt(m: Module, p: seq<int>)
    requires Places(m, p)
    ensures p[9] - 4 - p[10] == 0 <==> m.start == []
  {
    assert p[9] == Size(From(m, 9)) && p[10] == Size(From(m, 10));
    StartCovered(m.start, From(m, 10));
  }

  // The landing pad is told by its distance from the place behind the word that follows it.
  lemma InfoKept(file: seq<Byte>, binary: BinaryModule, m: Module, p: seq<int>)
    requires WellFormed(m) && file == Image(m) && Places(m, p) && binary.KnowsInfo(m, p, |file|)
    ensures binary.moduleBinaryLength == |file| - 4
    ensures binary.stacktraceEntryCount < 0x8000_0000
    ensures WordAt(file, |file| - 8, binary.stacktraceEntryCount + if binary.debugMode then 0x8000_0000 else 0)
    ensures binary.landingPad == None <==> WordAt(file, |file| - 12, 0xFFFF_FFFF)
    ensures binary.landingPad.Some? ==> WordAt(file, |file| - 12, |file| - 16 - binary.landingPad.value)
    ensures WordAt(file, |file| - 16, binary.linkDataLength) && p[1] == |file| - 20
  {
    InfoLaid(m);
    assert p[1] == Size(From(m, 1));
  }

  // The table behind its wrapper offsets, then the statuses padded to four.
  lemma TablesKept(file: seq<Byte>, binary: BinaryModule, m: Module, p: seq<int>) returns (n: nat)
    requires WellFormed(m) && file == Image(m) && Places(m, p) && binary.KnowsTables(m, p) && p[1] == |file| - 20
    ensures WordAt(file, |file| - 20, binary.tableSize)
    ensures binary.tableEntryFunctionsStart == |file| - 24 - 4 * binary.tableSize
    ensures WordAt(file, binary.tableEntryFunctionsStart, binary.tableSize)
    ensures binary.tableStart == binary.tableEntryFunctionsStart - 4 - 8 * binary.tableSize
    ensures WordAt(file, binary.tableStart, n) && binary.linkStatusStart == binary.tableStart - 4 - (n + 3) / 4 * 4
  {
    n := |m.linkStatus|;
    CountAt(m, p, 1);
    CountAt(m, p, 2);
    CountAt(m, p, 3);
  }

  // Each section behind the one before it, over the size stored behind its end.
  ghost predicate Leads(file: seq<Byte>, end: int, next: int) {
    WordAt(file, end + 4, end - next)
  }

  lemma ExportsKept(file: seq<Byte>, binary: BinaryModule, m: Module, p: seq<int>)
    requires WellFormed(m) && file == Image(m) && Places(m, p) && binary.KnowsTables(m, p) && binary.KnowsExports(m, p)
    ensures binary.exportedFunctionsEnd == binary.linkStatusStart - 4
    ensures Leads(file, binary.exportedFunctionsEnd, binary.exportedGlobalsEnd + 4)
    ensures Leads(file, binary.exportedGlobalsEnd, binary.dynamicallyImportedFunctionsSectionEnd + 8)
    ensures WordAt(file, binary.dynamicallyImportedFunctionsSectionEnd + 8, binary.initialMemorySize)
    ensures Leads(file, binary.dynamicallyImportedFunctionsSectionEnd, binary.mutableGlobalsSectionEnd + 4)
  {
    SizeAt(m, p, 4);
    SizeAt(m, p, 5);
    CountAt(m, p, 6);
    SizeAt(m, p, 7);
  }

  // The start section between the mutable globals and the names: its size is zero if there is no start function.
  lemma RestKept(file: seq<Byte>, binary: BinaryModule, m: Module, p: seq<int>) returns (start: int)
    requires WellFormed(m) && file == Image(m) && Places(m, p)
    requires binary.KnowsExports(m, p) && binary.KnowsRest(m, p, |file|)
    ensures Leads(file, binary.mutableGlobalsSectionEnd, start + 4)
    ensures Leads(file, start, binary.functionNameSectionEnd + 4)
    ensures binary.startFunctionBinaryOffset == if WordAt(file, start + 4, 0) then 0xFFFF_FFFF else |file| - start
    ensures Leads(file, binary.functionNameSectionEnd, binary.dataSegmentsEnd + 4)
    ensures WordAt(file, binary.dataSegmentsEnd + 4, binary.numDataSegments)
  {
    start := p[9] - 4;
    SizeAt(m, p, 8);
    SizeAt(m, p, 9);
    SizeAt(m, p, 10);
    CountAt(m, p, 11);
    StartAt(m, p);
  }
}
