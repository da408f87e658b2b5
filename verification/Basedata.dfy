// The layout of the basedata in front of linear memory: eight bytes, the link data, the stacktrace array,
// then fields at fixed distances from the linear memory.
module Basedata {
  import opened Bytes
  import opened Bits

  datatype Target = X86_64 | AArch64 | TriCore(dynamicAux: bool)

  // The build options the offsets depend on.
  datatype Config = Config(
    target: Target,
    interruptionRequest: bool,
    nativeStackFence: bool,
    builtinFunctions: bool,
    activeStackOverflowCheck: bool,
    boundsChecks: bool
  )

  // A field starts `offset` bytes in front of the linear memory.
  datatype Field = Field(offset: nat, width: nat)

  function PointerWidth(c: Config): nat {
    if c.target.TriCore? then 4 else 8
  }

  function Optional(present: bool, f: Field): seq<Field> {
    if present then [f] else []
  }

  // From the linear memory outwards, each part continuing where the one before it ends.
  function StatusFields(c: Config): (fs: seq<Field>) {
    Optional(c.interruptionRequest, Field(8, 8))
  }

  function StatusEnd(c: Config): nat {
    if c.interruptionRequest then 8 else 0
  }

  function SizeFields(c: Config): seq<Field> {
    var cont0 := StatusEnd(c);
    match c.target
    case TriCore(true) =>
      [Field(cont0 + 4, 4), Field(cont0 + 8, 4), Field(cont0 + 12, 4), Field(cont0 + 16, 4)]
    case TriCore(false) =>
      [Field(cont0 + 8, 4), Field(cont0 + 12, 4), Field(cont0 + 16, 4)]
    case _ =>
      [Field(cont0 + 4, 4), Field(cont0 + 8, 4)]
  }

  function SizeEnd(c: Config): nat {
    StatusEnd(c) + if c.target.TriCore? then 16 else 8
  }

  function TrapFields(c: Config): seq<Field> {
    var fence := SizeEnd(c);
    var cont1 := fence + if c.nativeStackFence then 8 else 0;
    var w := PointerWidth(c);
    Optional(c.nativeStackFence, Field(fence + 8, 8)) + [Field(cont1 + w, w), Field(cont1 + 2 * w, w)]
  }

  function TrapEnd(c: Config): nat {
    SizeEnd(c) + (if c.nativeStackFence then 8 else 0) + 2 * PointerWidth(c)
  }

  function BuiltinFields(c: Config): seq<Field> {
    var at := TrapEnd(c);
    if c.builtinFunctions then [Field(at + 8, 4), Field(at + 16, 8), Field(at + 24, 8)] else []
  }

  function BuiltinEnd(c: Config): nat {
    TrapEnd(c) + if c.builtinFunctions then 24 else 0
  }

  function SpillSize(c: Config): nat {
    match c.target
    case X86_64 => 8
    case AArch64 => 16
    case TriCore(_) => 0
  }

  function RuntimeFields(c: Config): seq<Field> {
    var at, spill := BuiltinEnd(c), SpillSize(c);
    [Field(at + 8, 8), Field(at + 16, 8), Field(at + 16 + spill, spill), Field(at + 24 + spill, 8),
      Field(at + 32 + spill, 8)]
  }

  function RuntimeEnd(c: Config): nat {
    BuiltinEnd(c) + 32 + SpillSize(c)
  }

  function GuardFields(c: Config): seq<Field> {
    var at := RuntimeEnd(c);
    var cont3 := at + if c.activeStackOverflowCheck then 8 else 0;
    Optional(c.activeStackOverflowCheck, Field(at + 8, 8))
    + if c.boundsChecks then [] else [Field(cont3 + 8, 8), Field(cont3 + 16, 8)]
  }

  function GuardEnd(c: Config): nat {
    RuntimeEnd(c) + (if c.activeStackOverflowCheck then 8 else 0) + if c.boundsChecks then 0 else 16
  }

  // Table, module and link status addresses, and the last frame.
  function AddressFields(c: Config): seq<Field> {
    var at := GuardEnd(c);
    [Field(at + 8, 8), Field(at + 16, 8), Field(at + 24, 8), Field(at + 32, 8)]
  }

  function LastFrameRefPtr(c: Config): nat {
    GuardEnd(c) + 32
  }

  // ---- The variable part ----

  // The padded size of the stacktrace array, with its 32-bit multiplication and its conversion to int32_t.
  function ArraySize(count: U32): int {
    Pow2Words();
    var padded := RoundUpToPow2(4 * count % WORD32, 3, 32);
    if padded < 0x8000_0000 then padded else padded - WORD32
  }

  // getStacktraceArrayBase
  function StacktraceArrayBase(c: Config, count: U32): int {
    LastFrameRefPtr(c) + ArraySize(count)
  }

  function GetLast(c: Config, count: U32): int {
    if count > 0 then StacktraceArrayBase(c, count) else LastFrameRefPtr(c)
  }

  // Basedata::length, with its 32-bit sum
  function Length(c: Config, linkDataLength: U32, count: U32): U32 {
    (8 + linkDataLength + GetLast(c, count)) % WORD32
  }

  // ---- Disjointness ----

  // Fields listed outwards: each ends at or beyond the start of the one before it.
  ghost predicate Stacked(fs: seq<Field>, from: nat, to: nat) {
    && from <= to
    && (fs != [] ==> from + fs[0].width <= fs[0].offset && fs[|fs| - 1].offset <= to)
    && forall i :: 1 <= i < |fs| ==> Beyond(fs, i)
  }

  ghost predicate Beyond(fs: seq<Field>, i: nat)
    requires 1 <= i < |fs|
  {
    fs[i - 1].offset + fs[i].width <= fs[i].offset
  }

  lemma StackedSum(a: seq<Field>, b: seq<Field>, from: nat, mid: nat, to: nat)
    requires Stacked(a, from, mid) && Stacked(b, mid, to)
    ensures Stacked(a + b, from, to)
  {
    var s := a + b;
    forall i | 1 <= i < |s|
      ensures Beyond(s, i)
    {
      if i < |a| {
        assert Beyond(a, i) && s[i - 1] == a[i - 1] && s[i] == a[i];
      } else if i == |a| {
        assert s[i - 1] == a[|a| - 1] && s[i] == b[0];
      } else {
        assert Beyond(b, i - |a|) && s[i - 1] == b[i - 1 - |a|] && s[i] == b[i - |a|];
      }
    }
    if b != [] {
      Within(b, mid, to, |b| - 1);
    }
  }

  // Any two fields of a stack are apart.
  lemma {:induction false} StackedApart(fs: seq<Field>, from: nat, to: nat, i: nat, j: nat)
    requires Stacked(fs, from, to) && i < j < |fs|
    ensures fs[i].offset + fs[j].width <= fs[j].offset
    decreases j
  {
    assert Beyond(fs, j);
    if i < j - 1 {
      StackedApart(fs, from, to, i, j - 1);
    }
  }

  lemma {:induction false} BeyondStart(fs: seq<Field>, from: nat, to: nat, i: nat)
    requires Stacked(fs, from, to) && i < |fs|
    ensures from + fs[i].width <= fs[i].offset
  {
    if i > 0 {
      assert Beyond(fs, i);
      BeyondStart(fs, from, to, i - 1);
    }
  }

  lemma Within(fs: seq<Field>, from: nat, to: nat, i: nat)
    requires Stacked(fs, from, to) && i < |fs|
    ensures from + fs[i].width <= fs[i].offset <= to
  {
    BeyondStart(fs, from, to, i);
    if i < |fs| - 1 {
      StackedApart(fs, from, to, i, |fs| - 1);
    }
  }

  function Joined(parts: seq<seq<Field>>): seq<Field> {
    if parts == [] then [] else Joined(parts[..|parts| - 1]) + parts[|parts| - 1]
  }

  lemma {:induction false} JoinedStacked(parts: seq<seq<Field>>, ends: seq<nat>)
    requires |ends| == |parts| + 1
    requires forall k :: 0 <= k < |parts| ==> Stacked(parts[k], ends[k], ends[k + 1])
    ensures Stacked(Joined(parts), ends[0], ends[|parts|])
  {
    if parts != [] {
      var n := |parts| - 1;
      JoinedStacked(parts[..n], ends[..n + 1]);
      StackedSum(Joined(parts[..n]), parts[n], ends[0], ends[n], ends[n + 1]);
    }
  }

  function Parts(c: Config): (p: seq<seq<Field>>)
    ensures |p| == 7
  {
    [StatusFields(c), SizeFields(c), TrapFields(c), BuiltinFields(c), RuntimeFields(c), GuardFields(c),
      AddressFields(c)]
  }

  function Ends(c: Config): (e: seq<nat>)
    ensures |e| == 8
  {
    [0, StatusEnd(c), SizeEnd(c), TrapEnd(c), BuiltinEnd(c), RuntimeEnd(c), GuardEnd(c), LastFrameRefPtr(c)]
  }

  function Fields(c: Config): seq<Field> {
    Joined(Parts(c))
  }

  lemma StatusStacked(c: Config)
    ensures Stacked(StatusFields(c), 0, StatusEnd(c)) && Stacked(SizeFields(c), StatusEnd(c), SizeEnd(c))
  {
  }

  lemma TrapStacked(c: Config)
    ensures Stacked(TrapFields(c), SizeEnd(c), TrapEnd(c))
  {
  }

  lemma BuiltinStacked(c: Config)
    ensures Stacked(BuiltinFields(c), TrapEnd(c), BuiltinEnd(c))
  {
  }

  lemma RuntimeStacked(c: Config)
    ensures Stacked(RuntimeFields(c), BuiltinEnd(c), RuntimeEnd(c))
  {
  }

  lemma GuardStacked(c: Config)
    ensures Stacked(GuardFields(c), RuntimeEnd(c), GuardEnd(c))
    ensures Stacked(AddressFields(c), GuardEnd(c), LastFrameRefPtr(c))
  {
  }

  lemma AllStacked(p: seq<seq<Field>>, e: seq<nat>)
    requires |p| == 7 && |e| == 8
    requires Stacked(p[0], e[0], e[1]) && Stacked(p[1], e[1], e[2]) && Stacked(p[2], e[2], e[3])
    requires Stacked(p[3], e[3], e[4])
    requires Stacked(p[4], e[4], e[5]) && Stacked(p[5], e[5], e[6]) && Stacked(p[6], e[6], e[7])
    ensures Stacked(Joined(p), e[0], e[7])
  {
    JoinedStacked(p, e);
  }

  lemma AllAligned(c: Config)
    ensures LastFrameRefPtr(c) % 8 == 0
  {
  }

  lemma PartsStacked(c: Config)
    ensures Stacked(Fields(c), 0, LastFrameRefPtr(c))
  {
    StatusStacked(c);
    TrapStacked(c);
    BuiltinStacked(c);
    RuntimeStacked(c);
    GuardStacked(c);
    AllStacked(Parts(c), Ends(c));
  }

  // For every build, all fields lie between the linear memory and the last frame reference, in the order
  // of their offsets and without touching; and that reference keeps eight-byte alignment.
  lemma FieldsStacked(c: Config)
    ensures Stacked(Fields(c), 0, LastFrameRefPtr(c))
    ensures LastFrameRefPtr(c) % 8 == 0
  {
    PartsStacked(c);
    AllAligned(c);
  }

  lemma JoinedSeven(p: seq<seq<Field>>)
    requires |p| == 7
    ensures Joined(p) == p[0] + p[1] + p[2] + p[3] + p[4] + p[5] + p[6]
  {
    var p6, p5, p4, p3, p2, p1 := p[..6], p[..5], p[..4], p[..3], p[..2], p[..1];
    assert p6[..5] == p5 && p5[..4] == p4 && p4[..3] == p3 && p3[..2] == p2 && p2[..1] == p1 && p1[..0] == [];
    assert Joined(p1) == p[0] && Joined(p2) == p[0] + p[1] && Joined(p3) == p[0] + p[1] + p[2];
    assert Joined(p4) == p[0] + p[1] + p[2] + p[3] && Joined(p5) == p[0] + p[1] + p[2] + p[3] + p[4];
  }

  // The fields of three builds, number by number: x86-64 and AArch64 with and without most options, TriCore with
  // dynamically linked auxiliary functions.
  lemma OffsetsX86(c: Config)
    requires c == Config(X86_64, true, true, true, true, false)
    ensures Fields(c) == [
      Field(8, 8), Field(12, 4), Field(16, 4), Field(24, 8), Field(32, 8), Field(40, 8), Field(48, 4), Field(56, 8),
      Field(64, 8), Field(72, 8), Field(80, 8), Field(88, 8), Field(96, 8), Field(104, 8), Field(112, 8), Field(120, 8),
      Field(128, 8), Field(136, 8), Field(144, 8), Field(152, 8), Field(160, 8)]
    ensures LastFrameRefPtr(c) == 160
  {
    JoinedSeven(Parts(c));
  }

  lemma OffsetsAArch64(c: Config)
    requires c == Config(AArch64, false, false, false, false, true)
    ensures Fields(c) == [
      Field(4, 4), Field(8, 4), Field(16, 8), Field(24, 8), Field(32, 8), Field(40, 8), Field(56, 16), Field(64, 8),
      Field(72, 8), Field(80, 8), Field(88, 8), Field(96, 8), Field(104, 8)]
    ensures LastFrameRefPtr(c) == 104
  {
    JoinedSeven(Parts(c));
  }

  lemma OffsetsTriCore(c: Config)
    requires c == Config(TriCore(true), true, false, false, true, true)
    ensures Fields(c) == [
      Field(8, 8), Field(12, 4), Field(16, 4), Field(20, 4), Field(24, 4), Field(28, 4), Field(32, 4), Field(40, 8),
      Field(48, 8), Field(48, 0), Field(56, 8), Field(64, 8), Field(72, 8), Field(80, 8), Field(88, 8), Field(96, 8),
      Field(104, 8)]
    ensures LastFrameRefPtr(c) == 104
  {
    JoinedSeven(Parts(c));
  }

  function Gap8(v: nat): nat {
    (8 - v % 8) % 8
  }

  function Padded8(v: U32): U32 {
    if v + Gap8(v) < WORD32 then v + Gap8(v) else 0
  }

  lemma RoundsUp8(v: U32)
    ensures v < Pow2(32) && RoundUpToPow2(v, 3, 32) == Padded8(v)
  {
    assert Pow2(32) == WORD32 by {
      Pow2Words();
    }
    Eight();
    if v % 8 != 0 {
      NextEight(v);
      RoundUpToPow2Unaligned(v, 3, 32);
    } else {
      MaskLow(v, 3);
    }
  }

  lemma Eight()
    ensures Pow2(3) == 8
  {
    assert Pow2(3) == 2 * Pow2(2) == 4 * Pow2(1) == 8 * Pow2(0);
  }

  lemma NextEight(v: nat)
    requires v % 8 != 0
    ensures v + Gap8(v) == v - v % 8 + 8
  {
  }

  // The 4 * count bytes of the stacktrace array end in front of the fields exactly while their padded
  // size stays a positive int32_t.
  lemma StacktraceFits(c: Config, count: U32)
    ensures StacktraceArrayBase(c, count) - 4 * count >= LastFrameRefPtr(c)
      <==> 4 * count + Gap8(4 * count) < 0x8000_0000
    ensures 4 * count + Gap8(4 * count) < 0x8000_0000 ==>
      StacktraceArrayBase(c, count) == LastFrameRefPtr(c) + (4 * count + 7) / 8 * 8
  {
    ArrayFits(count);
  }

  lemma ArrayFits(count: U32)
    ensures ArraySize(count) >= 4 * count <==> 4 * count + Gap8(4 * count) < 0x8000_0000
    ensures 4 * count + Gap8(4 * count) < 0x8000_0000 ==> ArraySize(count) == (4 * count + 7) / 8 * 8
    ensures ArraySize(count) < 0x8000_0000
  {
    var raw: U32 := 4 * count % WORD32;
    RoundsUp8(raw);
    PaddedFits(count, raw);
  }

  // With 2^29 records the padded size is no positive int32_t any more: the array would start behind the fields.
  lemma StacktraceFitsNot(c: Config)
    ensures StacktraceArrayBase(c, 0x2000_0000) < LastFrameRefPtr(c)
  {
    ArrayBehind();
  }

  lemma ArrayBehind()
    ensures ArraySize(0x2000_0000) == -0x8000_0000
  {
    assert 4 * 0x2000_0000 % WORD32 == 0x8000_0000 && Padded8(0x8000_0000) == 0x8000_0000;
    RoundsUp8(0x8000_0000);
  }

  lemma PaddedFits(count: U32, raw: U32)
    requires raw == 4 * count % WORD32
    ensures
      var padded := Padded8(raw);
      var signed := if padded < 0x8000_0000 then padded else padded - WORD32;
      && (signed >= 4 * count <==> 4 * count + Gap8(4 * count) < 0x8000_0000)
      && (4 * count + Gap8(4 * count) < 0x8000_0000 ==> signed == (4 * count + 7) / 8 * 8)
  {
    if 4 * count < WORD32 {
      assert raw == 4 * count;
    }
  }

  ghost predicate Disjoint(a: int, aLength: nat, b: int, bLength: nat) {
    a + aLength <= b || b + bLength <= a
  }

  // The record array can be housed, and the sum of all parts fits its 32 bits.
  ghost predicate Housed(c: Config, linkDataLength: U32, count: U32) {
    && (count > 0 ==> 4 * count + Gap8(4 * count) < 0x8000_0000)
    && 8 + linkDataLength + GetLast(c, count) < WORD32
  }

  // Then the link data, the array and the fields follow each other, up to the linear memory.
  lemma LayoutFollows(c: Config, linkDataLength: U32, count: U32)
    requires Housed(c, linkDataLength, count)
    ensures
      var records := Length(c, linkDataLength, count) - GetLast(c, count);
      8 + linkDataLength == records && records + 4 * count <= Length(c, linkDataLength, count) - LastFrameRefPtr(c)
  {
    StacktraceFits(c, count);
  }

  // A length too long for 32 bits is cut down and does not even hold the link data.
  lemma LengthExact(c: Config, linkDataLength: U32, count: U32)
    requires count > 0 ==> 4 * count + Gap8(4 * count) < 0x8000_0000
    ensures Length(c, linkDataLength, count) >= 8 + linkDataLength <==> Housed(c, linkDataLength, count)
  {
    LastBounded(c, count);
    Wraps(8 + linkDataLength, GetLast(c, count));
  }

  lemma Wraps(a: nat, b: nat)
    requires b < WORD32 && a < WORD32 + 8
    ensures (a + b) % WORD32 >= a <==> a + b < WORD32
  {
  }

  lemma FieldsBounded(c: Config)
    ensures LastFrameRefPtr(c) < 1000
  {
  }

  lemma LastBounded(c: Config, count: U32)
    requires count > 0 ==> 4 * count + Gap8(4 * count) < 0x8000_0000
    ensures 0 <= GetLast(c, count) < WORD32
  {
    FieldsBounded(c);
    ArrayFits(count);
  }

  // For every link data length and every record count that can be housed: link data, stacktrace array and all
  // fields lie inside the basedata, apart from each other.
  lemma LayoutDisjoint(c: Config, linkDataLength: U32, count: U32, i: nat, j: nat)
    requires Housed(c, linkDataLength, count) && i < j < |Fields(c)|
    ensures
      var length := Length(c, linkDataLength, count);
      var records := length - GetLast(c, count);
      var f, g := Fields(c)[i], Fields(c)[j];
      && 8 + linkDataLength == records && records + 4 * count <= length - LastFrameRefPtr(c)
      && Disjoint(length - f.offset, f.width, length - g.offset, g.width)
      && records + 4 * count <= length - g.offset && length - g.offset + g.width <= length
      && records + 4 * count <= length - f.offset && length - f.offset + f.width <= length
  {
    FieldsStacked(c);
    StackedApart(Fields(c), 0, LastFrameRefPtr(c), i, j);
    Within(Fields(c), 0, LastFrameRefPtr(c), i);
    Within(Fields(c), 0, LastFrameRefPtr(c), j);
    LayoutFollows(c, linkDataLength, count);
  }
}
