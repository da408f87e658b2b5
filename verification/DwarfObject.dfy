// The ELF object around the debug sections, and a reader of ELF-64 objects that gets the recorded
// storage back out of it.
module DwarfObject {
  import opened Bytes
  import opened DwarfRecorder
  import opened DwarfLine
  import opened DwarfSections
  import opened DwarfReader

  datatype Target = X86_64 | AArch64 | TriCore

  function Machine(target: Target): (m: seq<Byte>)
    ensures |m| == 2
  {
    match target
    case X86_64 => [0x3E, 0]
    case AArch64 => [0xB7, 0]
    case TriCore => [0x2C, 0]
  }

  // Section names, and the string table that holds them one after the other.
  const SHSTRTAB: seq<Byte> := [0x2E, 0x73, 0x68, 0x73, 0x74, 0x72, 0x74, 0x61, 0x62]
  const DEBUG_LINE: seq<Byte> := [0x2E, 0x64, 0x65, 0x62, 0x75, 0x67, 0x5F, 0x6C, 0x69, 0x6E, 0x65]
  const DEBUG_ABBREV: seq<Byte> := [0x2E, 0x64, 0x65, 0x62, 0x75, 0x67, 0x5F, 0x61, 0x62, 0x62, 0x72, 0x65, 0x76]
  const DEBUG_INFO: seq<Byte> := [0x2E, 0x64, 0x65, 0x62, 0x75, 0x67, 0x5F, 0x69, 0x6E, 0x66, 0x6F]

  function StringTable(): (s: seq<Byte>)
    ensures |s| == 49
  {
    [0] + (SHSTRTAB + [0]) + (DEBUG_LINE + [0]) + (DEBUG_ABBREV + [0]) + (DEBUG_INFO + [0])
  }

  const IDENT: seq<Byte> := [0x7F, 0x45, 0x4C, 0x46, 2, 1, 1] + Zeros(9)
  const COUNTS: seq<Byte> := [0x40, 0] + [0, 0] + [0, 0] + [0x40, 0] + [5, 0] + [1, 0]

  function FileHeader(target: Target, tableOffset: seq<Byte>): (s: seq<Byte>)
    requires |tableOffset| == 4
    ensures |s| == 64
  {
    HeaderStart(target) + tableOffset + HeaderEnd()
  }

  function HeaderStart(target: Target): (s: seq<Byte>)
    ensures |s| == 40
  {
    IDENT + [0, 0] + Machine(target) + LE32(1) + LE64(0) + LE64(0)
  }

  function HeaderEnd(): (s: seq<Byte>)
    ensures |s| == 20
  {
    LE32(0) + LE32(0) + COUNTS
  }

  const SHT_STRTAB := 3
  const SHT_PROGBITS := 1

  datatype SectionHeader = SectionHeader(name: U32, kind: U32, offset: nat, size: nat)

  ghost predicate Fits(h: SectionHeader) {
    h.offset < WORD64 && h.size < WORD64
  }

  function HeaderBytes(h: SectionHeader): (s: seq<Byte>)
    requires Fits(h)
    ensures |s| == 64
  {
    LE32(h.name) + LE32(h.kind) + (LE64(0) + LE64(0)) + LE64(h.offset) + LE64(h.size)
    + (Zeros(4) + Zeros(4) + LE64(1) + LE64(0))
  }

  function Plan(line: nat, abbrev: nat, info: nat): (p: seq<SectionHeader>)
    ensures |p| == 4
  {
    [SectionHeader(1, SHT_STRTAB, 64, 49),
     SectionHeader(11, SHT_PROGBITS, 113, line),
     SectionHeader(23, SHT_PROGBITS, 113 + line, abbrev),
     SectionHeader(37, SHT_PROGBITS, 113 + line + abbrev, info)]
  }

  function SectionTable(p: seq<SectionHeader>): (s: seq<Byte>)
    requires |p| == 4 && forall i :: 0 <= i < 4 ==> Fits(p[i])
    ensures |s| == 320
  {
    Zeros(64) + HeaderBytes(p[0]) + HeaderBytes(p[1]) + HeaderBytes(p[2]) + HeaderBytes(p[3])
  }

  // The vectors of a 64-bit host are far below 2^63 bytes.
  ghost predicate Addressable(line: nat, abbrev: nat, info: nat) {
    113 + line + abbrev + info < WORD64
  }

  function Image(target: Target, line: seq<Byte>, abbrev: seq<Byte>, info: seq<Byte>): (s: seq<Byte>)
    requires Addressable(|line|, |abbrev|, |info|)
    ensures |s| == 433 + |line| + |abbrev| + |info|
  {
    FileHeader(target, LE32(Narrow(113 + |line| + |abbrev| + |info|))) + Body(line, abbrev, info)
    + SectionTable(Plan(|line|, |abbrev|, |info|))
  }

  function Body(line: seq<Byte>, abbrev: seq<Byte>, info: seq<Byte>): (s: seq<Byte>)
    ensures |s| == 49 + |line| + |abbrev| + |info|
  {
    StringTable() + line + abbrev + info
  }

  // ---- The writer ----

  method WriteSectionHeader(h: SectionHeader, result: seq<Byte>) returns (out: seq<Byte>)
    requires Fits(h)
    ensures out == result + HeaderBytes(h)
  {
    out := result + LE32(h.name);
    out := out + LE32(h.kind);
    out := out + LE64(0);
    out := out + LE64(0);
    out := out + LE64(h.offset);
    out := out + LE64(h.size);
    out := out + Zeros(4);
    out := out + Zeros(4);
    out := out + LE64(1);
    out := out + LE64(0);
  }

  method PushFileHeader(target: Target) returns (out: seq<Byte>, tableOffset: nat)
    ensures out == FileHeader(target, LE32(0)) && tableOffset == 40
  {
    out := [0x7F, 0x45, 0x4C, 0x46];
    out := out + [2, 1, 1];
    out := out + Zeros(16 - |out|);
    out := out + [0, 0];
    out := out + Machine(target);
    out := out + LE32(1);
    out := out + LE64(0);
    out := out + LE64(0);
    tableOffset := |out|;
    assert out == HeaderStart(target);
    out := out + (LE32(0) + LE32(0));
    out := out + LE32(0);
    out := out + COUNTS;
  }

  method PushStrings(result: seq<Byte>) returns (out: seq<Byte>, at: seq<nat>)
    ensures out == result + StringTable() && at == [1, 11, 23, 37]
  {
    var start := |result|;
    out := result + [0];
    var a := |out| - start;
    out := PushStr(SHSTRTAB, out);
    var b := |out| - start;
    out := PushStr(DEBUG_LINE, out);
    var c := |out| - start;
    out := PushStr(DEBUG_ABBREV, out);
    var d := |out| - start;
    out := PushStr(DEBUG_INFO, out);
    at := [a, b, c, d];
    OneMoreString(result, [0], SHSTRTAB);
    OneMoreString(result, [0] + (SHSTRTAB + [0]), DEBUG_LINE);
    OneMoreString(result, [0] + (SHSTRTAB + [0]) + (DEBUG_LINE + [0]), DEBUG_ABBREV);
    OneMoreString(result, [0] + (SHSTRTAB + [0]) + (DEBUG_LINE + [0]) + (DEBUG_ABBREV + [0]), DEBUG_INFO);
  }

  lemma OneMoreString(result: seq<Byte>, done: seq<Byte>, str: seq<Byte>)
    ensures result + done + str + [0] == result + (done + (str + [0]))
  {
  }

  lemma TableOffsetPatched(target: Target, rest: seq<Byte>, v: U32)
    ensures PutWord(FileHeader(target, LE32(0)) + rest, 40, v) == FileHeader(target, LE32(v)) + rest
  {
    var a, c := HeaderStart(target), HeaderEnd() + rest;
    assert FileHeader(target, LE32(0)) + rest == a + LE32(0) + c;
    Patched(a, LE32(0), c, v);
    assert FileHeader(target, LE32(v)) + rest == a + LE32(v) + c;
  }

  method PushSectionTable(names: seq<nat>, line: nat, abbrev: nat, info: nat, result: seq<Byte>)
    returns (out: seq<Byte>)
    requires names == [1, 11, 23, 37]
    requires Addressable(line, abbrev, info)
    ensures out == result + SectionTable(Plan(line, abbrev, info))
  {
    out := result + Zeros(64);
    out := WriteSectionHeader(SectionHeader(names[0], SHT_STRTAB, 64, 49), out);
    out := WriteSectionHeader(SectionHeader(names[1], SHT_PROGBITS, 113, line), out);
    out := WriteSectionHeader(SectionHeader(names[2], SHT_PROGBITS, 113 + line, abbrev), out);
    out := WriteSectionHeader(SectionHeader(names[3], SHT_PROGBITS, 113 + line + abbrev, info), out);
  }

  lemma AppendedBody(header: seq<Byte>, line: seq<Byte>, abbrev: seq<Byte>, info: seq<Byte>)
    ensures header + StringTable() + line + abbrev + info == header + Body(line, abbrev, info)
  {
  }

  method PushBody(fileName: seq<Byte>, sequences: seq<OpCode>, functions: seq<Function>, result: seq<Byte>)
    returns (out: seq<Byte>, names: seq<nat>, line: nat, abbrev: nat, info: nat)
    ensures out == result + Body(LineSection(fileName, sequences), ABBREVIATIONS, InfoSection(functions))
    ensures names == [1, 11, 23, 37]
    ensures line == |LineSection(fileName, sequences)| && abbrev == |ABBREVIATIONS| && info == |InfoSection(functions)|
  {
    out, names := PushStrings(result);
    var debugLineOffset := |out|;
    out := CreateDebugLineSection(fileName, sequences, out);
    var debugAbbrevOffset := |out|;
    out := CreateDebugAbbrevSection(out);
    var debugInfoOffset := |out|;
    out := CreateDebugInfoSection(functions, out);
    line := debugAbbrevOffset - debugLineOffset;
    abbrev := debugInfoOffset - debugAbbrevOffset;
    info := |out| - debugInfoOffset;
    AppendedBody(result, LineSection(fileName, sequences), ABBREVIATIONS, InfoSection(functions));
  }

  // toDwarfObject: everything is appended to one vector, and e_shoff is patched, as a 32-bit word,
  // once the table's place is known.
  method BuildObject(fileName: seq<Byte>, sequences: seq<OpCode>, functions: seq<Function>, target: Target)
    returns (result: seq<Byte>)
    requires Addressable(|LineSection(fileName, sequences)|, |ABBREVIATIONS|, |InfoSection(functions)|)
    ensures result == Image(target, LineSection(fileName, sequences), ABBREVIATIONS, InfoSection(functions))
  {
    var eShoffOffset, names, line, abbrev, info;
    result, eShoffOffset := PushFileHeader(target);
    result, names, line, abbrev, info := PushBody(fileName, sequences, functions, result);
    var end := |result|;
    TableOffsetPatched(target, Body(LineSection(fileName, sequences), ABBREVIATIONS, InfoSection(functions)),
      Narrow(end));
    result := PutWord(result, eShoffOffset, Narrow(end));
    assert end == 113 + line + abbrev + info;
    result := PushSectionTable(names, line, abbrev, info, result);
  }

  method ToDwarfObject(g: Dwarf5Generator, target: Target) returns (result: seq<Byte>)
    requires g.Valid()
    requires Addressable(|LineSection(g.fileName, g.sequences)|, |ABBREVIATIONS|, |InfoSection(g.functions)|)
    ensures result == ObjectOf(g.history, g.fileName, target)
  {
    result := BuildObject(g.fileName, g.sequences, g.functions, target);
  }

  ghost predicate HasObject(h: seq<Event>, name: seq<Byte>) {
    Addressable(|LineSection(name, Deltas(Recorded(h)))|, |ABBREVIATIONS|, |InfoSection(Functions(h))|)
  }

  // The object for everything that was reported to the recorder.
  ghost function ObjectOf(h: seq<Event>, name: seq<Byte>, target: Target): seq<Byte>
    requires HasObject(h, name)
  {
    Image(target, LineSection(name, Deltas(Recorded(h))), ABBREVIATIONS, InfoSection(Functions(h)))
  }

  // ---- A reader of ELF-64, little-endian ----

  function Half(s: seq<Byte>, p: nat): nat
    requires p + 2 <= |s|
  {
    s[p] as int + 256 * (s[p + 1] as int)
  }

  function ParseHeader(h: seq<Byte>): SectionHeader
    requires |h| == 64
  {
    SectionHeader(Word(h, 0), Word(h, 4), Word64(h, 24), Word64(h, 32))
  }

  // Entry k of the table that e_shoff points at, if the file holds it.
  function HeaderOf(s: seq<Byte>, k: nat): Option<SectionHeader>
    requires |s| >= 64
  {
    var at := Word64(s, 0x28) + 64 * k;
    if at + 64 > |s| then None else Some(ParseHeader(s[at..at + 64]))
  }

  function Contents(s: seq<Byte>, h: SectionHeader): Option<seq<Byte>> {
    if h.offset + h.size > |s| then None else Some(s[h.offset..h.offset + h.size])
  }

  datatype Section = Section(name: seq<Byte>, bytes: seq<Byte>)

  // Section k with its name looked up in the section e_shstrndx names.
  function SectionOf(s: seq<Byte>, k: nat): Option<Section>
    requires |s| >= 64
  {
    match (HeaderOf(s, k), HeaderOf(s, Half(s, 0x3E)))
    case (Some(h), Some(n)) =>
      (match (Contents(s, h), Contents(s, n))
       case (Some(bytes), Some(names)) =>
         if h.name > |names| then None else Some(Section(CString(names[h.name..]), bytes))
       case (_, _) => None)
    case (_, _) => None
  }

  function Sections(s: seq<Byte>): (r: seq<Option<Section>>)
    requires |s| >= 64
    ensures |r| == Half(s, 0x3C)
  {
    seq(Half(s, 0x3C), k requires 0 <= k < Half(s, 0x3C) => SectionOf(s, k))
  }

  // The bytes of the first section with the given name.
  function Find(sections: seq<Option<Section>>, name: seq<Byte>): Option<seq<Byte>> {
    if sections == [] || sections[0].None? then None
    else if sections[0].value.name == name then Some(sections[0].value.bytes)
    else Find(sections[1..], name)
  }

  lemma Pieces(a: seq<Byte>, b: seq<Byte>, c: seq<Byte>, d: seq<Byte>, e: seq<Byte>, f: seq<Byte>)
    requires |a| == |b| == 4 && |c| == 16 && |d| == |e| == 8 && |f| == 24
    ensures
      var s := a + b + c + d + e + f;
      && s[0..4] == a && s[4..8] == b
      && s[24..28] == d[0..4] && s[28..32] == d[4..8]
      && s[32..36] == e[0..4] && s[36..40] == e[4..8]
  {
    var s := a + b + c + d + e + f;
    assert s[24..32] == d && s[32..40] == e;
  }

  // No flags, no address, no link and no entries of a fixed size; aligned to a byte.
  predicate PlainSection(s: seq<Byte>) {
    && |s| == 64 && Word64(s, 8) == 0 && Word64(s, 16) == 0 && Word(s, 40) == 0 && Word(s, 44) == 0
    && Word64(s, 48) == 1 && Word64(s, 56) == 0
  }

  lemma PlainRest(h: SectionHeader)
    requires Fits(h)
    ensures PlainSection(HeaderBytes(h))
  {
    SmallWord(0);
    SmallWord(1);
    var a, rest := LE32(h.name) + LE32(h.kind), LE64(h.offset) + LE64(h.size);
    assert HeaderBytes(h) == a + Zeros(16) + rest + (Zeros(8) + [1] + Zeros(15));
  }

  lemma HeaderParsed(h: SectionHeader)
    requires Fits(h)
    ensures ParseHeader(HeaderBytes(h)) == h
    ensures PlainSection(HeaderBytes(h))
  {
    PlainRest(h);
    Pieces(LE32(h.name), LE32(h.kind), LE64(0) + LE64(0), LE64(h.offset), LE64(h.size),
           Zeros(4) + Zeros(4) + LE64(1) + LE64(0));
    LE32RoundTrip(h.name);
    LE32RoundTrip(h.kind);
    LE64RoundTrip(h.offset);
    LE64RoundTrip(h.size);
  }

  // ---- The layout, on any pieces of the right sizes ----

  lemma FiveHeaders(front: seq<Byte>, z: seq<Byte>, a: seq<Byte>, b: seq<Byte>, c: seq<Byte>, d: seq<Byte>)
    requires |z| == |a| == |b| == |c| == |d| == 64
    ensures
      var s, n := front + (z + a + b + c + d), |front|;
      && |s| == n + 320
      && s[n..n + 64] == z && s[n + 64..n + 128] == a && s[n + 128..n + 192] == b
      && s[n + 192..n + 256] == c && s[n + 256..n + 320] == d
  {
  }

  lemma FourBodies(head: seq<Byte>, names: seq<Byte>, a: seq<Byte>, b: seq<Byte>, c: seq<Byte>, table: seq<Byte>)
    requires |head| == 64 && |names| == 49
    ensures
      var s := head + (names + a + b + c) + table;
      && s[..64] == head && s[64..113] == names && s[113..113 + |a|] == a
      && s[113 + |a|..113 + |a| + |b|] == b && s[113 + |a| + |b|..113 + |a| + |b| + |c|] == c
  {
  }

  lemma HeaderFields(target: Target, offset: seq<Byte>, rest: seq<Byte>)
    requires |offset| == 4
    ensures
      var s := FileHeader(target, offset) + rest;
      Word64(s, 0x28) == Word(offset, 0) && Half(s, 0x3C) == 5 && Half(s, 0x3E) == 1
  {
    var s := FileHeader(target, offset) + rest;
    var end := HeaderEnd();
    assert s[40..44] == offset;
    assert s[44..48] == end[0..4] == LE32(0);
    LE32RoundTrip(0);
    assert COUNTS[8] == 5 && COUNTS[9] == 0 && COUNTS[10] == 1 && COUNTS[11] == 0;
    assert s[60] == end[16] == COUNTS[8] && s[61] == end[17] == COUNTS[9];
    assert s[62] == end[18] == COUNTS[10] && s[63] == end[19] == COUNTS[11];
  }

  lemma OffsetRead(target: Target, offset: U32, rest: seq<Byte>)
    ensures
      var s := FileHeader(target, LE32(offset)) + rest;
      Word64(s, 0x28) == offset && Half(s, 0x3C) == 5 && Half(s, 0x3E) == 1
  {
    HeaderFields(target, LE32(offset), rest);
    LE32RoundTrip(offset);
  }

  lemma FileHeaderRead(target: Target, line: seq<Byte>, abbrev: seq<Byte>, info: seq<Byte>, s: seq<Byte>)
    requires Addressable(|line|, |abbrev|, |info|)
    requires s == Image(target, line, abbrev, info)
    ensures Half(s, 0x3C) == 5 && Half(s, 0x3E) == 1
    ensures Word64(s, 0x28) == Narrow(113 + |line| + |abbrev| + |info|)
  {
    var end := 113 + |line| + |abbrev| + |info|;
    var rest := Body(line, abbrev, info) + SectionTable(Plan(|line|, |abbrev|, |info|));
    OffsetRead(target, Narrow(end), rest);
    Associates(FileHeader(target, LE32(Narrow(end))), Body(line, abbrev, info),
      SectionTable(Plan(|line|, |abbrev|, |info|)));
  }

  // The identification and the fixed fields of an ELF-64 little-endian file without segments.
  ghost predicate IsElf(s: seq<Byte>, machine: nat) {
    && |s| >= 64 && s[0] == 0x7F && Spells(s[1..4], "ELF") && s[4] == 2 && s[5] == 1 && s[6] == 1
    && (forall i :: 7 <= i < 16 ==> s[i] == 0)
    && Half(s, 0x10) == 0 && Half(s, 0x12) == machine && Word(s, 0x14) == 1
    && Word64(s, 0x18) == 0 && Word64(s, 0x20) == 0 && Word(s, 0x30) == 0
    && Half(s, 0x34) == 64 && Half(s, 0x36) == 0 && Half(s, 0x38) == 0 && Half(s, 0x3A) == 64
  }

  lemma StartRead(target: Target, s: seq<Byte>)
    requires |s| >= 64 && HeaderStart(target) <= s
    ensures s[..16] == IDENT
    ensures Half(s, 0x10) == 0 && Half(s, 0x12) == MachineNumber(target) && Word(s, 0x14) == 1
    ensures Word64(s, 0x18) == 0 && Word64(s, 0x20) == 0
  {
    var h := HeaderStart(target);
    SmallWord(0);
    SmallWord(1);
    assert h == IDENT + ([0, 0] + Machine(target) + [1, 0, 0, 0] + Zeros(16));
    assert h[16..40] == [0, 0] + Machine(target) + [1, 0, 0, 0] + Zeros(16);
    forall i | 16 <= i < 40
      ensures s[i] == h[16..40][i - 16]
    {
    }
  }

  lemma EndRead(s: seq<Byte>)
    requires |s| >= 64 && s[44..64] == HeaderEnd()
    ensures Word(s, 0x30) == 0 && Half(s, 0x34) == 64 && Half(s, 0x36) == 0 && Half(s, 0x38) == 0 && Half(s, 0x3A) == 64
  {
    var e := HeaderEnd();
    SmallWord(0);
    assert e == Zeros(8) + COUNTS;
    forall i | 48 <= i < 60
      ensures s[i] == if i == 52 || i == 58 then 64 else 0
    {
      assert s[i] == s[44..64][i - 44];
    }
  }

  function MachineNumber(target: Target): nat {
    match target case X86_64 => 62 case AArch64 => 183 case TriCore => 44
  }

  lemma HeaderIsElf(target: Target, s: seq<Byte>)
    requires |s| >= 64 && HeaderStart(target) <= s && s[44..64] == HeaderEnd()
    ensures IsElf(s, MachineNumber(target))
  {
    StartRead(target, s);
    EndRead(s);
    assert s[1..4] == IDENT[1..4];
    forall i | 0 <= i < 16
      ensures s[i] == IDENT[i]
    {
      assert s[i] == s[..16][i];
    }
  }

  lemma ObjectIsElf(target: Target, line: seq<Byte>, abbrev: seq<Byte>, info: seq<Byte>)
    requires Addressable(|line|, |abbrev|, |info|)
    ensures IsElf(Image(target, line, abbrev, info), MachineNumber(target))
  {
    var offset := LE32(Narrow(113 + |line| + |abbrev| + |info|));
    var rest := Body(line, abbrev, info) + SectionTable(Plan(|line|, |abbrev|, |info|));
    Associates(FileHeader(target, offset), Body(line, abbrev, info), SectionTable(Plan(|line|, |abbrev|, |info|)));
    HeaderFollowed(target, offset, rest);
    HeaderIsElf(target, Image(target, line, abbrev, info));
  }

  lemma HeaderFollowed(target: Target, offset: seq<Byte>, rest: seq<Byte>)
    requires |offset| == 4
    ensures HeaderStart(target) <= FileHeader(target, offset) + rest
    ensures (FileHeader(target, offset) + rest)[44..64] == HeaderEnd()
  {
    assert (FileHeader(target, offset) + rest)[..40] == HeaderStart(target);
  }

  // The file's section table offset is exact for exactly the images whose sections end below 2^32.
  lemma TableOffsetFits(target: Target, line: seq<Byte>, abbrev: seq<Byte>, info: seq<Byte>, s: seq<Byte>)
    requires Addressable(|line|, |abbrev|, |info|)
    requires s == Image(target, line, abbrev, info)
    ensures Word64(s, 0x28) == 113 + |line| + |abbrev| + |info| <==> 113 + |line| + |abbrev| + |info| < WORD32
  {
    FileHeaderRead(target, line, abbrev, info, s);
  }

  lemma EntryAt(s: seq<Byte>, k: nat, at: nat, bytes: seq<Byte>, h: SectionHeader)
    requires |s| >= 64 && at == Word64(s, 0x28) + 64 * k && at + 64 <= |s|
    requires s[at..at + 64] == bytes && ParseHeader(bytes) == h
    ensures HeaderOf(s, k) == Some(h)
  {
  }

  // Entry k of the section table and the bytes it describes.
  ghost predicate Lists(s: seq<Byte>, k: nat, h: SectionHeader, bytes: seq<Byte>) {
    |s| >= 64 && HeaderOf(s, k) == Some(h) && Contents(s, h) == Some(bytes)
  }

  // All five entries, the empty one first, and what they describe.
  function Entries(line: seq<Byte>, abbrev: seq<Byte>, info: seq<Byte>): (p: seq<SectionHeader>)
    ensures |p| == 5
  {
    [SectionHeader(0, 0, 0, 0)] + Plan(|line|, |abbrev|, |info|)
  }

  function Parts(line: seq<Byte>, abbrev: seq<Byte>, info: seq<Byte>): (p: seq<seq<Byte>>)
    ensures |p| == 5
  {
    [[], StringTable(), line, abbrev, info]
  }

  // What an object's file header and section table say.
  ghost predicate Laid(s: seq<Byte>, line: seq<Byte>, abbrev: seq<Byte>, info: seq<Byte>) {
    && |s| == 433 + |line| + |abbrev| + |info|
    && Half(s, 0x3C) == 5 && Half(s, 0x3E) == 1 && Word64(s, 0x28) == |s| - 320
    && forall k :: 0 <= k < 5 ==> Lists(s, k, Entries(line, abbrev, info)[k], Parts(line, abbrev, info)[k])
  }

  function Pick(z: seq<Byte>, a: seq<Byte>, b: seq<Byte>, c: seq<Byte>, d: seq<Byte>, k: nat): seq<Byte> {
    if k == 0 then z else if k == 1 then a else if k == 2 then b else if k == 3 then c else d
  }

  lemma OneOfFive(front: seq<Byte>, z: seq<Byte>, a: seq<Byte>, b: seq<Byte>, c: seq<Byte>, d: seq<Byte>, k: nat)
    requires |z| == |a| == |b| == |c| == |d| == 64 && k < 5
    ensures |front + (z + a + b + c + d)| == |front| + 320
    ensures (front + (z + a + b + c + d))[|front| + 64 * k..|front| + 64 * k + 64] == Pick(z, a, b, c, d, k)
  {
    FiveHeaders(front, z, a, b, c, d);
  }

  lemma TableSlice(front: seq<Byte>, p: seq<SectionHeader>, k: nat)
    requires |p| == 4 && forall i :: 0 <= i < 4 ==> Fits(p[i])
    requires k < 5
    ensures
      var at := |front| + 64 * k;
      (front + SectionTable(p))[at..at + 64] == if k == 0 then Zeros(64) else HeaderBytes(p[k - 1])
  {
    var a, b, c, d := HeaderBytes(p[0]), HeaderBytes(p[1]), HeaderBytes(p[2]), HeaderBytes(p[3]);
    OneOfFive(front, Zeros(64), a, b, c, d, k);
    assert SectionTable(p) == Zeros(64) + a + b + c + d;
    assert Pick(Zeros(64), a, b, c, d, k) == if k == 0 then Zeros(64) else HeaderBytes(p[k - 1]);
  }

  lemma EntryParsed(p: seq<SectionHeader>, k: nat, bytes: seq<Byte>)
    requires |p| == 4 && k < 5 && forall i :: 0 <= i < 4 ==> Fits(p[i])
    requires bytes == if k == 0 then Zeros(64) else HeaderBytes(p[k - 1])
    ensures |bytes| == 64 && ParseHeader(bytes) == if k == 0 then SectionHeader(0, 0, 0, 0) else p[k - 1]
  {
    if k > 0 {
      HeaderParsed(p[k - 1]);
    }
  }

  // e_shoff leads to five entries: an empty one and the planned ones.
  lemma EntryFollows(s: seq<Byte>, front: seq<Byte>, p: seq<SectionHeader>, k: nat)
    requires |p| == 4 && forall i :: 0 <= i < 4 ==> Fits(p[i])
    requires s == front + SectionTable(p) && |front| >= 64 && Word64(s, 0x28) == |front|
    requires k < 5
    ensures HeaderOf(s, k) == Some(if k == 0 then SectionHeader(0, 0, 0, 0) else p[k - 1])
  {
    var h := if k == 0 then SectionHeader(0, 0, 0, 0) else p[k - 1];
    var at := |front| + 64 * k;
    EntrySliced(front, p, k);
    EntryAt(s, k, at, s[at..at + 64], h);
  }

  lemma EntrySliced(front: seq<Byte>, p: seq<SectionHeader>, k: nat)
    requires |p| == 4 && (forall i :: 0 <= i < 4 ==> Fits(p[i])) && k < 5
    ensures
      var at := |front| + 64 * k;
      ParseHeader((front + SectionTable(p))[at..at + 64]) == if k == 0 then SectionHeader(0, 0, 0, 0) else p[k - 1]
  {
    TableSlice(front, p, k);
    EntryParsed(p, k, (front + SectionTable(p))[|front| + 64 * k..|front| + 64 * k + 64]);
  }

  lemma ImageIsLaid(target: Target, line: seq<Byte>, abbrev: seq<Byte>, info: seq<Byte>)
    requires 113 + |line| + |abbrev| + |info| < WORD32
    ensures Laid(Image(target, line, abbrev, info), line, abbrev, info)
  {
    var s := Image(target, line, abbrev, info);
    FileHeaderRead(target, line, abbrev, info, s);
    forall k | 0 <= k < 5
      ensures Lists(s, k, Entries(line, abbrev, info)[k], Parts(line, abbrev, info)[k])
    {
      EntryListed(target, line, abbrev, info, k);
    }
  }

  lemma EntryListed(target: Target, line: seq<Byte>, abbrev: seq<Byte>, info: seq<Byte>, k: nat)
    requires 113 + |line| + |abbrev| + |info| < WORD32 && k < 5
    ensures Lists(Image(target, line, abbrev, info), k, Entries(line, abbrev, info)[k], Parts(line, abbrev, info)[k])
  {
    var p := Plan(|line|, |abbrev|, |info|);
    var s := Image(target, line, abbrev, info);
    var header := FileHeader(target, LE32(Narrow(113 + |line| + |abbrev| + |info|)));
    FileHeaderRead(target, line, abbrev, info, s);
    EntryFollows(s, header + Body(line, abbrev, info), p, k);
    BodiesRead(s, header, line, abbrev, info, SectionTable(p), k);
  }

  lemma BodiesRead(s: seq<Byte>, header: seq<Byte>, line: seq<Byte>, abbrev: seq<Byte>, info: seq<Byte>,
                   table: seq<Byte>, k: nat)
    requires |header| == 64 && s == header + Body(line, abbrev, info) + table && k < 5
    ensures Contents(s, Entries(line, abbrev, info)[k]) == Some(Parts(line, abbrev, info)[k])
  {
    FourBodies(header, StringTable(), line, abbrev, info, table);
  }

  // The named sections tile the file from the end of its header to the section table, which ends it.
  lemma SectionsTileTheFile(s: seq<Byte>, line: seq<Byte>, abbrev: seq<Byte>, info: seq<Byte>, k: nat)
    requires Laid(s, line, abbrev, info) && 1 <= k < 5
    ensures HeaderOf(s, k).Some?
    ensures HeaderOf(s, k).value.offset
      == if k == 1 then 64 else HeaderOf(s, k - 1).value.offset + HeaderOf(s, k - 1).value.size
    ensures k == 4 ==> HeaderOf(s, k).value.offset + HeaderOf(s, k).value.size == Word64(s, 0x28)
    ensures Word64(s, 0x28) + 5 * 64 == |s|
  {
    var e, parts := Entries(line, abbrev, info), Parts(line, abbrev, info);
    assert Lists(s, k, e[k], parts[k]) && Lists(s, k - 1, e[k - 1], parts[k - 1]);
  }

  const NAMES := [[], SHSTRTAB, DEBUG_LINE, DEBUG_ABBREV, DEBUG_INFO]
  const NAME_OFFSETS := [0, 1, 11, 23, 37]

  lemma NamesInTable(k: nat)
    requires k < 5
    ensures CString(StringTable()[NAME_OFFSETS[k]..]) == NAMES[k]
  {
    var t := StringTable();
    if k == 1 {
      NameAt(t, 1, SHSTRTAB, 11);
    } else if k == 2 {
      NameAt(t, 11, DEBUG_LINE, 23);
    } else if k == 3 {
      NameAt(t, 23, DEBUG_ABBREV, 37);
    } else if k == 4 {
      NameAt(t, 37, DEBUG_INFO, 49);
    }
  }

  lemma NameAt(t: seq<Byte>, from: nat, name: seq<Byte>, to: nat)
    requires from <= to <= |t| && t[from..to] == name + [0] && 0 !in name
    ensures CString(t[from..]) == name
  {
    assert t[from..] == t[from..to] + t[to..];
    CStringStops(name, t[to..]);
  }

  function Expected(parts: seq<seq<Byte>>): (e: seq<Option<Section>>)
    requires |parts| == 5
  {
    seq(5, k requires 0 <= k < 5 => Some(Section(NAMES[k], parts[k])))
  }

  lemma SectionRead(s: seq<Byte>, k: nat, h: SectionHeader, bytes: seq<Byte>, n: SectionHeader)
    requires Lists(s, k, h, bytes) && Lists(s, 1, n, StringTable()) && Half(s, 0x3E) == 1
    requires k < 5 && h.name == NAME_OFFSETS[k]
    ensures SectionOf(s, k) == Some(Section(NAMES[k], bytes))
  {
    NamesInTable(k);
  }

  lemma SectionNames()
    ensures NAMES[0] == [] && Spells(NAMES[1], ".shstrtab") && Spells(NAMES[2], ".debug_line")
    ensures Spells(NAMES[3], ".debug_abbrev") && Spells(NAMES[4], ".debug_info")
  {
  }

  // The name table is a string table and the debug sections are program-defined.
  lemma KindsRead(s: seq<Byte>, line: seq<Byte>, abbrev: seq<Byte>, info: seq<Byte>)
    requires Laid(s, line, abbrev, info)
    ensures forall k :: 0 <= k < 5 ==> HeaderOf(s, k).Some? && HeaderOf(s, k).value.kind == [0, 3, 1, 1, 1][k]
  {
    var p := Entries(line, abbrev, info);
    forall k | 0 <= k < 5
      ensures HeaderOf(s, k).Some? && HeaderOf(s, k).value.kind == [0, 3, 1, 1, 1][k]
    {
      assert HeaderOf(s, k) == Some(p[k]);
    }
  }

  // Every section is found under its name with exactly the bytes written for it.
  lemma SectionsRead(s: seq<Byte>, line: seq<Byte>, abbrev: seq<Byte>, info: seq<Byte>)
    requires Laid(s, line, abbrev, info)
    ensures Sections(s) == Expected(Parts(line, abbrev, info))
  {
    var p, parts := Entries(line, abbrev, info), Parts(line, abbrev, info);
    forall k | 0 <= k < 5
      ensures SectionOf(s, k) == Some(Section(NAMES[k], parts[k]))
    {
      SectionRead(s, k, p[k], parts[k], p[1]);
    }
  }

  lemma {:induction false} FoundAt(sections: seq<Option<Section>>, k: nat)
    requires forall i :: 0 <= i <= k < |sections| ==> sections[i].Some?
    requires k < |sections|
    requires forall i :: 0 <= i < k ==> sections[i].value.name != sections[k].value.name
    ensures Find(sections, sections[k].value.name) == Some(sections[k].value.bytes)
  {
    if k > 0 {
      FoundAt(sections[1..], k - 1);
    }
  }

  lemma NamesDiffer()
    ensures forall i, j :: 0 <= i < j < 5 ==> NAMES[i] != NAMES[j]
  {
    assert SHSTRTAB[1] == 0x73 && DEBUG_LINE[1] == DEBUG_ABBREV[1] == DEBUG_INFO[1] == 0x64;
    assert DEBUG_LINE[7] == 0x6C && DEBUG_ABBREV[7] == 0x61 && DEBUG_INFO[7] == 0x69;
  }

  lemma SectionFound(s: seq<Byte>, line: seq<Byte>, abbrev: seq<Byte>, info: seq<Byte>, k: nat)
    requires Laid(s, line, abbrev, info) && k < 5
    ensures Find(Sections(s), NAMES[k]) == Some(Parts(line, abbrev, info)[k])
  {
    SectionsRead(s, line, abbrev, info);
    NamesDiffer();
    FoundAt(Expected(Parts(line, abbrev, info)), k);
  }

  // ---- What a debugger gets back ----

  function LineRows(sections: seq<Option<Section>>, line: int): Option<seq<TableRow>> {
    match Find(sections, DEBUG_LINE)
    case None => None
    case Some(section) => ReadLine(section, line)
  }

  function FunctionEntries(sections: seq<Option<Section>>): Option<seq<Entry>> {
    match (Find(sections, DEBUG_INFO), Find(sections, DEBUG_ABBREV))
    case (Some(info), Some(abbrev)) => ReadInfo(info, ReadAbbreviations(abbrev))
    case (_, _) => None
  }

  ghost predicate SmallObject(h: seq<Event>, name: seq<Byte>) {
    113 + |LineSection(name, Deltas(Recorded(h)))| + |ABBREVIATIONS| + |InfoSection(Functions(h))| < WORD32
  }

  // Line rows that tell the recorded pairs modulo 2^32 and then end the sequence, and that tell exactly
  // the pairs if and only if the pairs are gentle.
  ghost predicate Tells(seen: Option<seq<TableRow>>, rows: seq<Row>, line: int) {
    && seen.Some? && |seen.value| == |rows| + 1 && seen.value[|rows|].endSequence
    && Congruent(seen.value[..|rows|], rows, line)
    && (Exact(seen.value[..|rows|], rows, line) <==> Gentle(rows))
  }

  lemma SectionTells(rows: seq<Row>, name: seq<Byte>, line: int)
    requires |LineSection(name, Deltas(rows))| < WORD32 + 4
    ensures Tells(ReadLine(LineSection(name, Deltas(rows)), line), rows, line)
  {
    LineSectionReads(name, Deltas(rows), line);
    ProgramRows(Deltas(rows), line, WRITTEN_HEADER);
    ReadersAgree(rows, line);
    ExactlyWhenGentle(rows, line);
    var t := Track(Deltas(rows), line, FILE_INDEX);
    assert (t.rows + [RowAt(t.Held(), true)])[..|t.rows|] == t.rows;
  }

  lemma TellsRows(sections: seq<Option<Section>>, rows: seq<Row>, name: seq<Byte>, line: int)
    requires |LineSection(name, Deltas(rows))| < WORD32 + 4
    requires Find(sections, DEBUG_LINE) == Some(LineSection(name, Deltas(rows)))
    ensures Tells(LineRows(sections, line), rows, line)
  {
    SectionTells(rows, name, line);
  }

  lemma TellsFunctions(sections: seq<Option<Section>>, fs: seq<Function>, table: seq<Byte>)
    requires ReadAbbreviations(table) == WRITTEN_TABLE && |InfoSection(fs)| < WORD32 + 4
    requires Find(sections, DEBUG_ABBREV) == Some(table)
    requires Find(sections, DEBUG_INFO) == Some(InfoSection(fs))
    ensures FunctionEntries(sections) == Some(Subprograms(fs))
  {
    InfoSectionReads(InfoSection(fs), fs, ReadAbbreviations(table));
  }

  // From the bytes of the object alone a debugger gets the recorded pairs and every function with its
  // address range.
  lemma ObjectRecoversStorage(h: seq<Event>, name: seq<Byte>, target: Target, line: int)
    requires SmallObject(h, name)
    ensures Tells(LineRows(Sections(ObjectOf(h, name, target)), line), Recorded(h), line)
    ensures FunctionEntries(Sections(ObjectOf(h, name, target))) == Some(Subprograms(Functions(h)))
  {
    var section, info := LineSection(name, Deltas(Recorded(h))), InfoSection(Functions(h));
    var s := ObjectOf(h, name, target);
    ImageIsLaid(target, section, ABBREVIATIONS, info);
    SectionFound(s, section, ABBREVIATIONS, info, 2);
    SectionFound(s, section, ABBREVIATIONS, info, 3);
    SectionFound(s, section, ABBREVIATIONS, info, 4);
    TellsRows(Sections(s), Recorded(h), name, line);
    AbbreviationsRead(ABBREVIATIONS);
    TellsFunctions(Sections(s), Functions(h), ABBREVIATIONS);
  }
}
