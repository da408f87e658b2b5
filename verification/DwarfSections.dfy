// The three debug sections as the writer builds them, lengths patched in afterwards, and readers for
// them that follow sections 6.2.4, 7.5.1 and 7.5.3 of DWARF 5.
module DwarfSections {
  import opened Bytes
  import opened Leb128
  import opened DwarfRecorder
  import opened DwarfLine

  // ---- .debug_line ----

  // ".wasm", used when no file name was set
  const DEFAULT_NAME: seq<Byte> := [0x2E, 0x77, 0x61, 0x73, 0x6D]
  // "tmp"
  const DIRECTORY: seq<Byte> := [0x74, 0x6D, 0x70]

  function FileName(name: seq<Byte>): (n: seq<Byte>)
  {
    if name == [] then DEFAULT_NAME else name
  }

  const FIXED_HEADER: seq<Byte> := [1, 1, 1, 253, 14, 5, 0, 1, 1, 1]

  function HeaderTail(name: seq<Byte>): seq<Byte> {
    FIXED_HEADER + [1, 1, 8, 1] + DIRECTORY + [0] + [1, 1, 8, 1] + FileName(name) + [0]
  }

  function LineSection(name: seq<Byte>, ops: seq<OpCode>): seq<Byte> {
    LE32(Narrow(8 + |HeaderTail(name)| + |Program(ops)|)) + [5, 0, 8, 0]
    + LE32(Narrow(|HeaderTail(name)|)) + HeaderTail(name) + Program(ops)
  }

  method PushStr(str: seq<Byte>, result: seq<Byte>) returns (out: seq<Byte>)
    ensures out == result + str + [0]
  {
    out := result + str;
    out := out + [0];
  }

  method PushOps(sequences: seq<OpCode>, result: seq<Byte>) returns (out: seq<Byte>)
    ensures out == result + EncodeOps(sequences)
  {
    out := result;
    var i := 0;
    while i < |sequences|
      invariant 0 <= i <= |sequences|
      invariant out == result + EncodeOps(sequences[..i])
    {
      EncodeOneMore(result, sequences, i);
      out := ToDwarf5Format(sequences[i], out);
      i := i + 1;
    }
    assert sequences[..i] == sequences;
  }

  method PushHeaderTail(fileName: seq<Byte>, result: seq<Byte>) returns (out: seq<Byte>)
    ensures out == result + HeaderTail(fileName)
  {
    out := result + [1];         // minimum_instruction_length
    out := out + [1];            // maximum_operations_per_instruction
    out := out + [1];            // default_is_stmt
    out := out + [256 - 3];      // line_base
    out := out + [14];           // line_range
    out := out + [4 + 1];        // opcode_base
    out := out + [0, 1, 1, 1];   // standard_opcode_lengths
    assert out == result + FIXED_HEADER;
    out := out + [1, 1, 8, 1] + DIRECTORY + [0];
    out := out + [1, 1, 8, 1];
    if fileName == [] {
      out := PushStr(DEFAULT_NAME, out);
    } else {
      out := PushStr(fileName, out);
    }
  }

  // Both length fields empty.
  function LineHoles(name: seq<Byte>, ops: seq<OpCode>): seq<Byte> {
    Zeros(4) + [5, 0, 8, 0] + Zeros(4) + HeaderTail(name) + Program(ops)
  }

  lemma HeaderLengthPatched(result: seq<Byte>, hole: seq<Byte>, tail: seq<Byte>, v: U32)
    requires |hole| == 4
    ensures PutWord(result + (hole + [5, 0, 8, 0] + Zeros(4) + tail), |result| + 8, v)
      == result + (hole + [5, 0, 8, 0] + LE32(v) + tail)
  {
    var a := result + (hole + [5, 0, 8, 0]);
    assert result + (hole + [5, 0, 8, 0] + Zeros(4) + tail) == a + Zeros(4) + tail;
    Patched(a, Zeros(4), tail, v);
    assert result + (hole + [5, 0, 8, 0] + LE32(v) + tail) == a + LE32(v) + tail;
  }

  lemma UnitLengthPatched(result: seq<Byte>, rest: seq<Byte>, v: U32)
    ensures PutWord(result + (Zeros(4) + rest), |result|, v) == result + (LE32(v) + rest)
  {
    assert result + (Zeros(4) + rest) == result + Zeros(4) + rest;
    Patched(result, Zeros(4), rest, v);
    assert result + (LE32(v) + rest) == result + LE32(v) + rest;
  }

  lemma LinePatched(result: seq<Byte>, name: seq<Byte>, ops: seq<OpCode>, headerLength: U32, unitLength: U32)
    requires headerLength == Narrow(|HeaderTail(name)|)
    requires unitLength == Narrow(8 + |HeaderTail(name)| + |Program(ops)|)
    ensures PutWord(PutWord(result + LineHoles(name, ops), |result| + 8, headerLength), |result|, unitLength)
      == result + LineSection(name, ops)
  {
    var tail := HeaderTail(name) + Program(ops);
    var rest := [5, 0, 8, 0] + LE32(headerLength) + tail;
    HeaderLengthPatched(result, Zeros(4), tail, headerLength);
    UnitLengthPatched(result, rest, unitLength);
    LineParts(LE32(unitLength), LE32(headerLength), HeaderTail(name), Program(ops));
    LineParts(Zeros(4), Zeros(4), HeaderTail(name), Program(ops));
    LineParts(Zeros(4), LE32(headerLength), HeaderTail(name), Program(ops));
  }

  lemma LineParts(unit: seq<Byte>, header: seq<Byte>, a: seq<Byte>, b: seq<Byte>)
    ensures unit + [5, 0, 8, 0] + header + a + b == unit + [5, 0, 8, 0] + header + (a + b)
      == unit + ([5, 0, 8, 0] + header + (a + b))
  {
  }

  method PushLineHeader(result: seq<Byte>) returns (out: seq<Byte>, headerLengthOffset: nat)
    ensures out == result + (Zeros(4) + [5, 0, 8, 0] + Zeros(4))
    ensures headerLengthOffset == |result| + 8
  {
    out := result + Zeros(4);
    out := out + [5, 0];         // version
    out := out + [8];            // address_size
    out := out + [0];            // segment_selector_size
    headerLengthOffset := |out|;
    out := out + Zeros(4);
  }

  method PushProgram(sequences: seq<OpCode>, result: seq<Byte>) returns (out: seq<Byte>)
    ensures out == result + Program(sequences)
  {
    out := result + [4];         // DW_LNS_set_file
    out := out + [1];
    out := PushOps(sequences, out);
    out := out + [0];            // extended opcode
    out := out + [1];            // its length
    out := out + [1];            // DW_LNE_end_sequence
  }

  method PushLineUnit(fileName: seq<Byte>, sequences: seq<OpCode>, result: seq<Byte>)
    returns (out: seq<Byte>, headerLengthOffset: nat, headerEnd: nat)
    ensures out == result + LineHoles(fileName, sequences)
    ensures headerLengthOffset == |result| + 8 && headerEnd == headerLengthOffset + 4 + |HeaderTail(fileName)|
  {
    out, headerLengthOffset := PushLineHeader(result);
    out := PushHeaderTail(fileName, out);
    headerEnd := |out|;
    out := PushProgram(sequences, out);
    ghost var holes := Zeros(4) + [5, 0, 8, 0] + Zeros(4);
    Associates(result, holes, HeaderTail(fileName));
    Associates(result, holes + HeaderTail(fileName), Program(sequences));
  }

  // createDebugLineSection: both length fields are left empty and filled in at the end.
  method CreateDebugLineSection(fileName: seq<Byte>, sequences: seq<OpCode>, result: seq<Byte>) returns (out: seq<Byte>)
    ensures out == result + LineSection(fileName, sequences)
  {
    var unitLengthOffset := |result|;
    var headerLengthOffset, headerEnd;
    out, headerLengthOffset, headerEnd := PushLineUnit(fileName, sequences, result);
    var headerLength := Narrow(headerEnd - (headerLengthOffset + 4));
    out := PutWord(out, headerLengthOffset, headerLength);
    var unitLength := Narrow(|out| - (unitLengthOffset + 4));
    out := PutWord(out, unitLengthOffset, unitLength);
    LinePatched(result, fileName, sequences, headerLength, unitLength);
  }

  // ---- .debug_abbrev ----

  const ABBREVIATIONS: seq<Byte> := [1, 0x11, 1, 0, 0, 2, 0x2E, 0, 0x11, 1, 0x12, 1, 0, 0, 0]

  method CreateDebugAbbrevSection(result: seq<Byte>) returns (out: seq<Byte>)
    ensures out == result + ABBREVIATIONS
  {
    out := EncodeULEB128(1, result);
    out := EncodeULEB128(0x11, out);
    out := out + [1, 0, 0];
    out := EncodeULEB128(2, out);
    out := EncodeULEB128(0x2E, out);
    out := out + [0];
    out := EncodeULEB128(0x11, out);
    out := EncodeULEB128(1, out);
    out := EncodeULEB128(0x12, out);
    out := EncodeULEB128(1, out);
    out := out + [0, 0, 0];
    assert out == result + ABBREVIATIONS;
  }

  // ---- .debug_info ----

  function Entries(fs: seq<Function>): (s: seq<Byte>)
    ensures |s| == 17 * |fs|
  {
    if fs == [] then []
    else Entries(fs[..|fs| - 1]) + EntryBytes(fs[|fs| - 1])
  }

  function EntryBytes(f: Function): (s: seq<Byte>)
    ensures |s| == 17
  {
    [2] + LE64(f.lowPc) + LE64(f.highPc)
  }

  function InfoSection(fs: seq<Function>): (s: seq<Byte>)
    ensures |s| == 14 + 17 * |fs|
  {
    LE32(Narrow(10 + 17 * |fs|)) + InfoRest(fs)
  }

  function InfoRest(fs: seq<Function>): (s: seq<Byte>)
    ensures |s| == 10 + 17 * |fs|
  {
    [5, 0, 1, 8] + LE32(0) + [1] + Entries(fs) + [0]
  }

  lemma OneMoreEntry(out: seq<Byte>, fs: seq<Function>, i: nat)
    requires i < |fs|
    ensures out + Entries(fs[..i]) + [2] + LE64(fs[i].lowPc) + LE64(fs[i].highPc) == out + Entries(fs[..i + 1])
  {
    assert fs[..i + 1][..i] == fs[..i];
  }

  method PushEntries(functions: seq<Function>, result: seq<Byte>) returns (out: seq<Byte>)
    ensures out == result + Entries(functions)
  {
    out := result;
    var i := 0;
    while i < |functions|
      invariant 0 <= i <= |functions|
      invariant out == result + Entries(functions[..i])
    {
      OneMoreEntry(result, functions, i);
      out := EncodeULEB128(2, out);
      out := out + LE64(functions[i].lowPc);
      out := out + LE64(functions[i].highPc);
      i := i + 1;
    }
    assert functions[..i] == functions;
  }

  method PushInfoUnit(functions: seq<Function>, result: seq<Byte>) returns (out: seq<Byte>)
    ensures out == result + (Zeros(4) + InfoRest(functions))
  {
    out := result + Zeros(4);
    out := out + [5, 0];         // version
    out := out + [1];            // DW_UT_compile
    out := out + [8];            // address_size
    out := out + LE32(0);        // debug_abbrev_offset
    out := EncodeULEB128(1, out);
    out := PushEntries(functions, out);
    out := out + [0];
  }

  // createDebugInfoSection: the unit length is filled in at the end.
  method CreateDebugInfoSection(functions: seq<Function>, result: seq<Byte>) returns (out: seq<Byte>)
    ensures out == result + InfoSection(functions)
  {
    var unitLengthOffset := |result|;
    out := PushInfoUnit(functions, result);
    var unitLength := Narrow(|out| - (unitLengthOffset + 4));
    out := PutWord(out, unitLengthOffset, unitLength);
    UnitLengthPatched(result, InfoRest(functions), unitLength);
  }
}
