// Readers for the debug sections, written from DWARF 5 alone, and what they recover from the writer.
module DwarfReader {
  import opened Bytes
  import opened Leb128
  import opened DwarfRecorder
  import opened DwarfLine
  import opened DwarfSections

  // A NUL-terminated string.
  function CString(s: seq<Byte>): (c: seq<Byte>)
    ensures |c| <= |s| && 0 !in c
  {
    if s == [] || s[0] == 0 then [] else [s[0]] + CString(s[1..])
  }

  lemma {:induction false} CStringStops(name: seq<Byte>, rest: seq<Byte>)
    ensures CString(name + [0] + rest) == name <==> 0 !in name
    ensures 0 !in name ==> |CString(name + [0] + rest)| == |name|
  {
    var s := name + [0] + rest;
    if name == [] {
    } else if name[0] != 0 {
      CStringStops(name[1..], rest);
      assert s[1..] == name[1..] + [0] + rest;
      assert name == [name[0]] + name[1..];
    } else {
      assert s[0] == 0 && CString(s) == [];
    }
  }

  // ---- .debug_line, section 6.2.4 ----

  function SignedByte(b: int): int {
    if b < 128 then b else b - 256
  }

  // The fields behind header_length; opcode_base, one more than there are operand counts, lies in front of them.
  function ReadHeader(s: seq<Byte>): (h: Option<LineHeader>)
    ensures h.Some? ==> 18 + |h.value.operands| <= |s|
  {
    if |s| < 18 || s[13] == 0 || s[16] == 0 || s[17] == 0 || |s| - 17 < s[17] then None
    else Some(LineHeader(s[12], s[13], s[14] != 0, SignedByte(s[15]), s[16], s[18..][..s[17] - 1]))
  }

  // Where the header ends and the program starts.
  function ProgramStart(s: seq<Byte>): Option<nat> {
    if |s| < 12 || 12 + Word(s, 8) > |s| then None else Some(12 + Word(s, 8))
  }

  function ReadLine(s: seq<Byte>, line: int): Option<seq<TableRow>> {
    if |s| < 12 || 4 + Word(s, 0) != |s| || s[4..8] != [5, 0, 8, 0] then None
    else
      match (ReadHeader(s), ProgramStart(s))
      case (Some(h), Some(start)) =>
        if start < 18 + |h.operands| then None else Run(s[start..], Fresh(line, h), line, h)
      case (_, _) => None
  }

  datatype Strings = Malformed | Strings(strings: seq<seq<Byte>>, rest: seq<Byte>)

  function ReadStrings(s: seq<Byte>, n: nat): Strings
    decreases n
  {
    if n == 0 then Strings([], s)
    else
      var c := CString(s);
      if |c| == |s| then Malformed
      else
        match ReadStrings(s[|c| + 1..], n - 1)
        case Malformed => Malformed
        case Strings(more, rest) => Strings([c] + more, rest)
  }

  // A directory or file table whose only column is DW_LNCT_path in DW_FORM_string.
  function ReadTable(s: seq<Byte>): Strings {
    if |s| < 4 || s[..3] != [1, 1, 8] then Malformed
    else ReadStrings(s[3 + Length(s[3..])..], UValue(s[3..]))
  }

  // A directory table and a file table with nothing behind them.
  function ReadTables(s: seq<Byte>): Option<(seq<seq<Byte>>, seq<seq<Byte>>)> {
    match ReadTable(s)
    case Malformed => None
    case Strings(directories, rest) =>
      match ReadTable(rest)
      case Malformed => None
      case Strings(files, more) => if more == [] then Some((directories, files)) else None
  }

  // The directories and files of a header whose two tables fill it to its end.
  function ReadNames(s: seq<Byte>): Option<(seq<seq<Byte>>, seq<seq<Byte>>)> {
    match (ReadHeader(s), ProgramStart(s))
    case (Some(h), Some(start)) => if start < 18 + |h.operands| then None else ReadTables(s[18 + |h.operands|..start])
    case (_, _) => None
  }

  lemma LineLayout(name: seq<Byte>, ops: seq<OpCode>)
    requires |LineSection(name, ops)| < WORD32 + 4
    ensures
      var s, tail := LineSection(name, ops), HeaderTail(name);
      && |s| == 12 + |tail| + |Program(ops)|
      && 4 + Word(s, 0) == |s|
      && s[4..8] == [5, 0, 8, 0]
      && Word(s, 8) == |tail|
      && s[12..12 + |tail|] == tail
      && s[12 + |tail|..] == Program(ops)
  {
    var tail, program := HeaderTail(name), Program(ops);
    var unit, header := Narrow(8 + |tail| + |program|), Narrow(|tail|);
    FramedParts(unit, [5, 0, 8, 0], header, tail, program);
  }

  // The header as it was meant: addresses in bytes, one operation each, and special opcodes from 5 on that move
  // the line by -3 up to 10.
  const WRITTEN_HEADER := LineHeader(1, 1, true, -3, 14, [0, 1, 1, 1])

  lemma FixedFieldsRead(s: seq<Byte>)
    requires |s| >= 22 && s[12..22] == [1, 1, 1, 253, 14, 5, 0, 1, 1, 1]
    ensures ReadHeader(s) == Some(WRITTEN_HEADER)
  {
    var t := s[12..22];
    assert s[12] == t[0] && s[13] == t[1] && s[14] == t[2] && s[15] == t[3] && s[16] == t[4] && s[17] == t[5];
    assert s[18] == t[6] && s[19] == t[7] && s[20] == t[8] && s[21] == t[9];
    assert s[18..][..4] == [0, 1, 1, 1];
  }

  lemma HeaderRead(name: seq<Byte>, ops: seq<OpCode>)
    requires |LineSection(name, ops)| < WORD32 + 4
    ensures ReadHeader(LineSection(name, ops)) == Some(WRITTEN_HEADER)
  {
    LineLayout(name, ops);
    var s, tail := LineSection(name, ops), HeaderTail(name);
    assert tail[..10] == FIXED_HEADER;
    assert s[12..22] == s[12..12 + |tail|][..10];
    FixedFieldsRead(s);
  }

  // header_length ends at the first opcode and unit_length at the end of the section, so a reader runs
  // exactly the program, and under the header it finds there.
  lemma LineSectionReads(name: seq<Byte>, ops: seq<OpCode>, line: int)
    requires |LineSection(name, ops)| < WORD32 + 4
    ensures ReadLine(LineSection(name, ops), line)
      == Run(Program(ops), Fresh(line, WRITTEN_HEADER), line, WRITTEN_HEADER)
  {
    LineLayout(name, ops);
    HeaderRead(name, ops);
  }

  // The 32-bit unit length is right for exactly the sections that fit it.
  lemma UnitLengthFits(name: seq<Byte>, ops: seq<OpCode>)
    ensures 4 + Word(LineSection(name, ops), 0) == |LineSection(name, ops)|
      <==> |LineSection(name, ops)| < WORD32 + 4
  {
    var tail, program := HeaderTail(name), Program(ops);
    var unit, header := Narrow(8 + |tail| + |program|), Narrow(|tail|);
    FramedParts(unit, [5, 0, 8, 0], header, tail, program);
  }

  // The tables fill the header behind the operand counts.
  lemma TablesLie(name: seq<Byte>, ops: seq<OpCode>)
    requires |LineSection(name, ops)| < WORD32 + 4
    ensures ReadNames(LineSection(name, ops))
      == ReadTables([1, 1, 8, 1] + DIRECTORY + [0] + ([1, 1, 8, 1] + FileName(name) + [0]))
  {
    var s := LineSection(name, ops);
    LineLayout(name, ops);
    HeaderRead(name, ops);
    TailParts(FIXED_HEADER, DIRECTORY, FileName(name));
    SliceOfSlice(s, 12, 12 + |HeaderTail(name)|, 10);
    assert ReadNames(s) == ReadTables(s[22..12 + |HeaderTail(name)|]);
  }

  lemma TailParts(fixed: seq<Byte>, directory: seq<Byte>, file: seq<Byte>)
    ensures (fixed + [1, 1, 8, 1] + directory + [0] + [1, 1, 8, 1] + file + [0])[|fixed|..]
      == [1, 1, 8, 1] + directory + [0] + ([1, 1, 8, 1] + file + [0])
  {
    var tables: seq<Byte> := [1, 1, 8, 1] + directory + [0] + ([1, 1, 8, 1] + file + [0]);
    assert fixed + [1, 1, 8, 1] + directory + [0] + [1, 1, 8, 1] + file + [0] == fixed + tables;
    PrefixDropped(fixed, tables);
  }

  // The names come back unless the file name contains a NUL.
  lemma NamesRead(name: seq<Byte>, ops: seq<OpCode>)
    requires |LineSection(name, ops)| < WORD32 + 4
    ensures ReadNames(LineSection(name, ops)) == Some(([DIRECTORY], [FileName(name)])) <==> 0 !in name
  {
    var files := [1, 1, 8, 1] + FileName(name) + [0];
    TablesLie(name, ops);
    OneString(DIRECTORY, files);
    assert files + [] == files;
    OneString(FileName(name), []);
  }

  lemma NamesSpelled(name: seq<Byte>)
    ensures Spells(DIRECTORY, "tmp")
    ensures if name == [] then Spells(FileName(name), ".wasm") else FileName(name) == name
  {
  }

  // Every row names file 1, and whenever the file table can be read it has one entry, numbered 0 in DWARF 5: no row
  // of any object names a file of its table.
  lemma NoRowHasAFile(name: seq<Byte>, ops: seq<OpCode>, line: int)
    requires |LineSection(name, ops)| < WORD32 + 4
    ensures ReadLine(LineSection(name, ops), line).Some?
    ensures forall row :: row in ReadLine(LineSection(name, ops), line).value ==> row.file == FILE_INDEX
    ensures ReadNames(LineSection(name, ops)).Some? ==> |ReadNames(LineSection(name, ops)).value.1| == FILE_INDEX
  {
    LineSectionReads(name, ops, line);
    ProgramRows(ops, line, WRITTEN_HEADER);
    TrackKeepsFile(ops, line, FILE_INDEX);
    TablesLie(name, ops);
    OneFile(FileName(name));
  }

  lemma OneFile(file: seq<Byte>)
    ensures
      var names := ReadTables([1, 1, 8, 1] + DIRECTORY + [0] + ([1, 1, 8, 1] + file + [0]));
      names.Some? ==> |names.value.1| == 1
  {
    OneString(DIRECTORY, [1, 1, 8, 1] + file + [0]);
    OneEntry(file + [0]);
    assert [1, 1, 8, 1] + (file + [0]) == [1, 1, 8, 1] + file + [0];
  }

  // A table whose count is one.
  lemma OneEntry(rest: seq<Byte>)
    ensures ReadTable([1, 1, 8, 1] + rest) == ReadStrings(rest, 1)
    ensures ReadTable([1, 1, 8, 1] + rest).Strings? ==> |ReadTable([1, 1, 8, 1] + rest).strings| == 1
  {
    var s: seq<Byte> := [1, 1, 8, 1] + rest;
    assert s[3..][0] == 1 && s[4..] == rest;
  }

  lemma FirstString(t: seq<Byte>)
    requires |CString(t)| < |t|
    ensures ReadStrings(t, 1) == Strings([CString(t)], t[|CString(t)| + 1..])
  {
    var rest := t[|CString(t)| + 1..];
    assert ReadStrings(rest, 0) == Strings([], rest);
    assert [CString(t)] + [] == [CString(t)];
  }

  lemma OneString(name: seq<Byte>, rest: seq<Byte>)
    ensures ReadTable([1, 1, 8, 1] + name + [0] + rest) == Strings([name], rest) <==> 0 !in name
    ensures ReadTable([1, 1, 8, 1] + name + [0] + rest).Strings? ==>
      (ReadTable([1, 1, 8, 1] + name + [0] + rest).strings == [name] <==> 0 !in name)
  {
    var t := name + [0] + rest;
    var c := CString(t);
    assert [1, 1, 8, 1] + name + [0] + rest == [1, 1, 8, 1] + t;
    OneEntry(t);
    CStringStops(name, rest);
    assert |c| < |t| by {
      assert |c| <= |name| by { CStringShort(name, rest); }
    }
    FirstString(t);
    if 0 !in name {
      assert t[|c| + 1..] == rest;
    } else {
      assert [c][0] != [name][0];
    }
  }

  lemma {:induction false} CStringShort(name: seq<Byte>, rest: seq<Byte>)
    ensures |CString(name + [0] + rest)| <= |name|
  {
    if name != [] && name[0] != 0 {
      CStringShort(name[1..], rest);
      assert (name + [0] + rest)[1..] == name[1..] + [0] + rest;
    }
  }

  // ---- .debug_abbrev, section 7.5.3 ----

  datatype Attribute = Attribute(name: nat, form: nat)

  datatype Abbreviation = Abbreviation(tag: nat, children: bool, attributes: seq<Attribute>)

  // Every column of the table is a ULEB128 number; the one-byte children flag reads as one too.
  function Numbers(s: seq<Byte>): seq<nat> {
    if s == [] then [] else [UValue(s)] + Numbers(s[Length(s)..])
  }

  // Name and form pairs up to the pair of zeros; also what follows it.
  function ReadAttributes(t: seq<nat>): Option<(seq<Attribute>, seq<nat>)> {
    if |t| < 2 then None
    else if t[0] == t[1] == 0 then Some(([], t[2..]))
    else
      match ReadAttributes(t[2..])
      case None => None
      case Some((more, rest)) => Some(([Attribute(t[0], t[1])] + more, rest))
  }

  type Table = map<nat, Abbreviation>

  // The declarations of a table that ends with a zero code; each takes at least three numbers.
  function Declarations(t: seq<nat>, limit: nat): Table
    decreases limit
  {
    if |t| < 3 || t[0] == 0 || limit == 0 then map[]
    else
      match ReadAttributes(t[3..])
      case None => map[]
      case Some((attributes, rest)) =>
        Declarations(rest, limit - 1)[t[0] := Abbreviation(t[1], t[2] != 0, attributes)]
  }

  function ReadAbbreviations(s: seq<Byte>): Table {
    Declarations(Numbers(s), |s|)
  }

  const COMPILE_UNIT := Abbreviation(0x11, true, [])
  const SUBPROGRAM := Abbreviation(0x2E, false, [Attribute(0x11, 1), Attribute(0x12, 1)])

  lemma {:induction false} SmallNumbers(s: seq<Byte>)
    requires forall i :: 0 <= i < |s| ==> s[i] < 128
    ensures Numbers(s) == s
  {
    if s != [] {
      SmallNumbers(s[1..]);
      assert s == [s[0]] + s[1..];
    }
  }

  const WRITTEN_TABLE: Table := map[2 := SUBPROGRAM, 1 := COMPILE_UNIT]

  lemma AbbreviationsRead(s: seq<Byte>)
    requires s == ABBREVIATIONS
    ensures ReadAbbreviations(s) == WRITTEN_TABLE
  {
    SmallNumbers(s) by {
      assert s[0] == 1 && s[1] == 0x11 && s[2] == 1 && s[3] == 0 && s[4] == 0 && s[5] == 2 && s[6] == 0x2E && s[7] == 0;
      assert s[8] == 0x11 && s[9] == 1 && s[10] == 0x12 && s[11] == 1 && s[12] == 0 && s[13] == 0 && s[14] == 0;
    }
    FirstRead(s);
  }

  lemma FirstRead(t: seq<nat>)
    requires t == ABBREVIATIONS
    ensures Declarations(t, 15) == WRITTEN_TABLE
  {
    var second := t[5..];
    assert second == [2, 0x2E, 0, 0x11, 1, 0x12, 1, 0, 0, 0];
    SecondRead(second);
    assert t[3..][2..] == second;
    assert ReadAttributes(t[3..]) == Some(([], second));
  }

  lemma SecondRead(second: seq<nat>)
    requires second == [2, 0x2E, 0, 0x11, 1, 0x12, 1, 0, 0, 0]
    ensures Declarations(second, 14) == map[2 := SUBPROGRAM]
  {
    var list := second[3..];
    assert list[2..] == [0x12, 1, 0, 0, 0] && list[2..][2..] == [0, 0, 0] && list[2..][2..][2..] == [0];
    assert [Attribute(0x12, 1)] + [] == [Attribute(0x12, 1)];
    assert ReadAttributes(list[2..]) == Some(([Attribute(0x12, 1)], [0]));
    assert [Attribute(0x11, 1)] + [Attribute(0x12, 1)] == SUBPROGRAM.attributes;
    assert Declarations([0], 13) == map[];
  }

  // ---- .debug_info, section 7.5.1.1 ----

  datatype Entry = Entry(tag: nat, values: seq<(nat, nat)>)

  // Attribute values; every form the writer uses is DW_FORM_addr, eight bytes wide.
  function ReadValues(s: seq<Byte>, attributes: seq<Attribute>): Option<seq<(nat, nat)>>
    decreases |attributes|
  {
    if attributes == [] then Some([])
    else if attributes[0].form != 1 || |s| < 8 then None
    else
      match ReadValues(s[8..], attributes[1..])
      case None => None
      case Some(more) => Some([(attributes[0].name, Word64(s, 0))] + more)
  }

  // One childless entry and how many bytes it takes.
  function ReadEntry(s: seq<Byte>, table: Table): (e: Option<(Entry, nat)>)
    requires s != []
    ensures e.Some? ==> 0 < e.value.1 <= |s|
  {
    if UValue(s) !in table then None
    else
      var a := table[UValue(s)];
      var size := Length(s) + 8 * |a.attributes|;
      if a.children || size > |s| then None
      else
        match ReadValues(s[Length(s)..], a.attributes)
        case None => None
        case Some(values) => Some((Entry(a.tag, values), size))
  }

  // Entries up to the zero code that ends the parent's children, and nothing behind it.
  function ReadChildren(s: seq<Byte>, table: Table): Option<seq<Entry>> {
    if s == [] then None
    else if UValue(s) == 0 then if |s| == 1 then Some([]) else None
    else
      match ReadEntry(s, table)
      case None => None
      case Some((entry, size)) => Precede([entry], ReadChildren(s[size..], table))
  }

  function Precede(entries: seq<Entry>, later: Option<seq<Entry>>): Option<seq<Entry>> {
    match later
    case None => None
    case Some(more) => Some(entries + more)
  }

  lemma PrecedeTwice(a: seq<Entry>, b: seq<Entry>, later: Option<seq<Entry>>)
    ensures Precede(a, Precede(b, later)) == Precede(a + b, later)
    ensures Precede([], later) == later
  {
    if later.Some? {
      assert a + (b + later.value) == (a + b) + later.value;
      assert [] + later.value == later.value;
    }
  }

  function ReadInfo(s: seq<Byte>, table: Table): Option<seq<Entry>> {
    if |s| < 13 || 4 + Word(s, 0) != |s| || s[4..8] != [5, 0, 1, 8] || Word(s, 8) != 0 then None
    else if UValue(s[12..]) !in table || table[UValue(s[12..])] != COMPILE_UNIT then None
    else ReadChildren(s[12 + Length(s[12..])..], table)
  }

  function Subprogram(f: Function): Entry {
    Entry(0x2E, [(0x11, f.lowPc), (0x12, f.highPc)])
  }

  function Subprograms(fs: seq<Function>): (es: seq<Entry>)
    ensures |es| == |fs| && forall i :: 0 <= i < |fs| ==> es[i] == Subprogram(fs[i])
  {
    if fs == [] then [] else Subprograms(fs[..|fs| - 1]) + [Subprogram(fs[|fs| - 1])]
  }

  // An entry with the subprogram code and two address columns of eight bytes each.
  predicate IsSubprogram(chunk: seq<Byte>) {
    |chunk| == 17 && chunk[0] == 2
  }

  function EntryOf(chunk: seq<Byte>): Entry
    requires IsSubprogram(chunk)
  {
    Entry(0x2E, [(0x11, Word64(chunk, 1)), (0x12, Word64(chunk, 9))])
  }

  lemma ValuesRead(chunk: seq<Byte>, tail: seq<Byte>)
    requires IsSubprogram(chunk)
    ensures ReadValues(chunk[1..] + tail, SUBPROGRAM.attributes) == Some(EntryOf(chunk).values)
  {
    var a := SUBPROGRAM.attributes;
    var s := chunk[1..] + tail;
    assert s[0..4] == chunk[1..5] && s[4..8] == chunk[5..9];
    var t := s[8..];
    assert t[0..4] == chunk[9..13] && t[4..8] == chunk[13..17];
    assert a[1..] == [Attribute(0x12, 1)] && a[1..][1..] == [];
    var one := [(0x12, Word64(chunk, 9))];
    assert one + [] == one;
    assert ReadValues(t, a[1..]) == Some(one);
    assert [(0x11, Word64(chunk, 1))] + one == EntryOf(chunk).values;
  }

  lemma OneChild(chunk: seq<Byte>, tail: seq<Byte>, table: Table)
    requires IsSubprogram(chunk)
    requires 2 in table && table[2] == SUBPROGRAM
    ensures ReadChildren(chunk + tail, table) == Precede([EntryOf(chunk)], ReadChildren(tail, table))
  {
    var s := chunk + tail;
    assert s[1..] == chunk[1..] + tail;
    ValuesRead(chunk, tail);
    assert ReadEntry(s, table) == Some((EntryOf(chunk), 17));
    assert s[17..] == tail;
  }

  lemma Written(f: Function)
    ensures IsSubprogram(EntryBytes(f)) && EntryOf(EntryBytes(f)) == Subprogram(f)
  {
    var s := EntryBytes(f);
    assert s == [2] + LE64(f.lowPc) + LE64(f.highPc) + [];
    Word64At([2], f.lowPc, LE64(f.highPc));
    Word64At([2] + LE64(f.lowPc), f.highPc, []);
  }

  lemma {:induction false} ChildrenRead(fs: seq<Function>, tail: seq<Byte>, table: Table)
    requires 2 in table && table[2] == SUBPROGRAM
    ensures ReadChildren(Entries(fs) + tail, table) == Precede(Subprograms(fs), ReadChildren(tail, table))
  {
    var later := ReadChildren(tail, table);
    if fs == [] {
      assert Entries(fs) + tail == tail;
      PrecedeTwice([], [], later);
    } else {
      var init, f := fs[..|fs| - 1], fs[|fs| - 1];
      assert Entries(fs) + tail == Entries(init) + (EntryBytes(f) + tail);
      calc {
        ReadChildren(Entries(fs) + tail, table);
        { ChildrenRead(init, EntryBytes(f) + tail, table); }
        Precede(Subprograms(init), ReadChildren(EntryBytes(f) + tail, table));
        { Written(f); OneChild(EntryBytes(f), tail, table); }
        Precede(Subprograms(init), Precede([Subprogram(f)], later));
        { PrecedeTwice(Subprograms(init), [Subprogram(f)], later); }
        Precede(Subprograms(fs), later);
      }
    }
  }

  // Every function comes back with its two addresses, in order.
  lemma InfoSectionReads(s: seq<Byte>, fs: seq<Function>, table: Table)
    requires s == InfoSection(fs) && |s| < WORD32 + 4
    requires table == WRITTEN_TABLE
    ensures ReadInfo(s, table) == Some(Subprograms(fs))
  {
    assert ReadInfo(s, table) == ReadChildren(Entries(fs) + [0], table) by {
      InfoFrame(fs);
      UnitRead(s, Entries(fs) + [0], table);
    }
    assert ReadChildren(Entries(fs) + [0], table) == Some(Subprograms(fs)) by {
      AllChildren(fs, table);
    }
  }

  lemma AllChildren(fs: seq<Function>, table: Table)
    requires table == WRITTEN_TABLE
    ensures ReadChildren(Entries(fs) + [0], table) == Some(Subprograms(fs))
  {
    ChildrenRead(fs, [0], table);
    assert ReadChildren([0], table) == Some([]);
    assert Subprograms(fs) + [] == Subprograms(fs);
  }

  lemma UnitRead(s: seq<Byte>, dies: seq<Byte>, table: Table)
    requires |s| >= 13 && 4 + Word(s, 0) == |s| && s[4..8] == [5, 0, 1, 8] && Word(s, 8) == 0
    requires s[12..] == [1] + dies && table == WRITTEN_TABLE
    ensures ReadInfo(s, table) == ReadChildren(dies, table)
  {
    assert s[12..][0] == 1;
    assert s[13..] == dies;
  }

  lemma InfoFrame(fs: seq<Function>)
    requires |InfoSection(fs)| < WORD32 + 4
    ensures
      var s := InfoSection(fs);
      && 4 + Word(s, 0) == |s| && s[4..8] == [5, 0, 1, 8] && Word(s, 8) == 0
      && s[12..] == [1] + (Entries(fs) + [0])
  {
    var unit := Narrow(10 + 17 * |fs|);
    FramedParts(unit, [5, 0, 1, 8], 0, [1], Entries(fs) + [0]);
    InfoJoins(LE32(unit), LE32(0), Entries(fs));
  }

  lemma InfoJoins(unit: seq<Byte>, offset: seq<Byte>, entries: seq<Byte>)
    ensures unit + ([5, 0, 1, 8] + offset + [1] + entries + [0]) == unit + [5, 0, 1, 8] + offset + [1] + (entries + [0])
  {
  }
}
