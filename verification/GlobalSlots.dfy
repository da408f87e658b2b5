// The initial values of mutable globals: copied into the link data when a module is initialised, and
// read back by iterating over the same section.
module GlobalSlots {
  import opened Bytes
  import opened BinaryFormat
  import opened BinaryReaders
  import opened BinaryLookup

  function ValueBytes(c: Constant): (b: seq<Byte>)
    ensures |b| == ConstantSize(c)
  {
    match c
    case I32(v) => LE32(v)
    case F32(v) => LE32(v)
    case I64(d) => d
    case F64(d) => d
  }

  // The offset as the two loops use it, cut to sixteen bits.
  function Slot(g: MutableGlobal): nat {
    g.linkOffset % 0x1_0000
  }

  // Every slot lies in the link data: the original asserts it.
  ghost predicate SlotsFit(gs: seq<MutableGlobal>, length: nat) {
    forall i :: 0 <= i < |gs| ==> Slot(gs[i]) + ConstantSize(gs[i].initial) <= length
  }

  ghost predicate Apart(a: MutableGlobal, b: MutableGlobal) {
    Slot(a) + ConstantSize(a.initial) <= Slot(b) || Slot(b) + ConstantSize(b.initial) <= Slot(a)
  }

  ghost predicate SlotsApart(gs: seq<MutableGlobal>) {
    forall i, j :: 0 <= i < j < |gs| ==> Apart(gs[i], gs[j])
  }

  // The link data after the values of the first n globals were copied in.
  ghost function Filled(linkData: seq<Byte>, gs: seq<MutableGlobal>, n: nat): (r: seq<Byte>)
    requires n <= |gs| && SlotsFit(gs, |linkData|)
    ensures |r| == |linkData|
  {
    if n == 0 then linkData
    else Splice(Filled(linkData, gs, n - 1), Slot(gs[n - 1]), ValueBytes(gs[n - 1].initial))
  }

  lemma FilledNext(linkData: seq<Byte>, gs: seq<MutableGlobal>, i: nat)
    requires i < |gs| && SlotsFit(gs, |linkData|)
    ensures Slot(gs[i]) + ConstantSize(gs[i].initial) <= |linkData|
    ensures Filled(linkData, gs, i + 1) == Splice(Filled(linkData, gs, i), Slot(gs[i]), ValueBytes(gs[i].initial))
  {
  }

  function TypeSize(code: Byte): nat {
    if code == 1 || code == 3 then 4 else if code == 2 || code == 4 then 8 else 0
  }

  lemma SectionPlaced(m: Module, p: seq<int>)
    requires WellFormed(m) && Places(m, p)
    ensures p[8] >= 8 && |m.mutableGlobals| < WORD32
    ensures At(Image(m), p[8] - 4, From(m, 8).tail)
    ensures From(m, 8).tail == More(Num(Narrow(|m.mutableGlobals|)), MutableGlobals(m.mutableGlobals, From(m, 9)))
  {
    Placed(m, 8);
    PopNum(Image(m), p[8], From(m, 8));
    PopNum(Image(m), p[8] - 4, From(m, 8).tail);
    MutableGlobalsCovered(m.mutableGlobals, From(m, 9));
  }

  function Element(g: MutableGlobal, more: Items): Items {
    More(Blob(g.filler, []), More(U8(MachineType(g.initial)), More(Num(g.linkOffset), Value(g.initial, more))))
  }

  lemma PopValue(file: seq<Byte>, p: nat, c: Constant, more: Items)
    requires At(file, p, Value(c, more))
    ensures ConstantSize(c) <= p && At(file, p - ConstantSize(c), more)
    ensures HasAt(file, p - ConstantSize(c), ValueBytes(c))
  {
    PopItem(file, p, Value(c, more));
    assert ItemBytes(Value(c, more).head) == ValueBytes(c);
  }

  // One element: its type, its slot and where its initial value starts.
  method ReadMutableGlobal(file: seq<Byte>, start: nat, ghost g: MutableGlobal, ghost more: Items)
    returns (code: Byte, slot: nat, cursor: nat)
    requires At(file, start, Element(g, more))
    ensures code == MachineType(g.initial) && slot == Slot(g) && At(file, cursor, more)
    ensures HasAt(file, cursor, ValueBytes(g.initial)) && TypeSize(code) == ConstantSize(g.initial)
  {
    ghost var items := Element(g, more);
    PopItem(file, start, items);
    cursor := start - 3;
    items := items.tail;
    code, cursor := ReadByte(file, cursor, items);
    var offset;
    items := items.tail;
    offset, cursor := ReadNextValue(file, cursor, items);
    slot := offset % 0x1_0000;
    PopValue(file, cursor, g.initial, more);
    cursor := cursor - TypeSize(code);
  }

  lemma OneAtATime(gs: seq<MutableGlobal>, i: nat, rest: Items)
    requires i < |gs|
    ensures MutableGlobals(gs[i..], rest) == Element(gs[i], MutableGlobals(gs[i + 1..], rest))
  {
    assert gs[i..][0] == gs[i] && gs[i..][1..] == gs[i + 1..];
  }

  // What the slots hold.
  ghost function Current(linkData: seq<Byte>, gs: seq<MutableGlobal>): (c: seq<(Byte, seq<Byte>)>)
    requires SlotsFit(gs, |linkData|)
    ensures |c| == |gs|
  {
    seq(|gs|, i requires 0 <= i < |gs| =>
      (MachineType(gs[i].initial), linkData[Slot(gs[i])..Slot(gs[i]) + ConstantSize(gs[i].initial)]))
  }

  // The encoded initial values.
  ghost function Initial(gs: seq<MutableGlobal>): (c: seq<(Byte, seq<Byte>)>)
    ensures |c| == |gs|
  {
    seq(|gs|, i requires 0 <= i < |gs| => (MachineType(gs[i].initial), ValueBytes(gs[i].initial)))
  }

  // A value in the link data, little-endian.
  ghost predicate ValueLies(s: seq<Byte>, at: nat, c: Constant) {
    match c
    case I32(v) => at + 4 <= |s| && Word(s, at) == v
    case F32(v) => at + 4 <= |s| && Word(s, at) == v
    case I64(d) => at + 8 <= |s| && s[at..at + 8] == d
    case F64(d) => at + 8 <= |s| && s[at..at + 8] == d
  }

  // What the callback is given for a global: its type code and the four or eight bytes of its slot.
  ghost predicate Yields(value: (Byte, seq<Byte>), linkData: seq<Byte>, g: MutableGlobal) {
    var at := g.linkOffset % 0x1_0000;
    && at + (if g.initial.I32? || g.initial.F32? then 4 else 8) <= |linkData|
    && match g.initial
       case I32(_) => value == (1, linkData[at..at + 4])
       case I64(_) => value == (2, linkData[at..at + 8])
       case F32(_) => value == (3, linkData[at..at + 4])
       case F64(_) => value == (4, linkData[at..at + 8])
  }

  ghost predicate InSlot(g: MutableGlobal, a: nat) {
    g.linkOffset % 0x1_0000 <= a
      < g.linkOffset % 0x1_0000 + if g.initial.I32? || g.initial.F32? then 4 else 8
  }

  ghost predicate NoSlot(gs: seq<MutableGlobal>, a: nat) {
    forall i :: 0 <= i < |gs| ==> !InSlot(gs[i], a)
  }

  // Every global's value lies in its slot if no two slots overlap, and nothing else is touched.
  lemma ValuesLie(linkData: seq<Byte>, gs: seq<MutableGlobal>)
    requires SlotsFit(gs, |linkData|)
    ensures SlotsApart(gs) ==> forall i :: 0 <= i < |gs| ==>
      ValueLies(Filled(linkData, gs, |gs|), gs[i].linkOffset % 0x1_0000, gs[i].initial)
    ensures forall a :: 0 <= a < |linkData| && NoSlot(gs, a) ==> Filled(linkData, gs, |gs|)[a] == linkData[a]
  {
    if SlotsApart(gs) {
      forall i | 0 <= i < |gs|
        ensures ValueLies(Filled(linkData, gs, |gs|), gs[i].linkOffset % 0x1_0000, gs[i].initial)
      {
        SlotHolds(linkData, gs, |gs|, i);
        HeldLies(Filled(linkData, gs, |gs|), Slot(gs[i]), gs[i].initial);
      }
    }
    forall a | 0 <= a < |linkData| && NoSlot(gs, a)
      ensures Filled(linkData, gs, |gs|)[a] == linkData[a]
    {
      OutsideKept(linkData, gs, |gs|, a);
    }
  }

  lemma HeldLies(s: seq<Byte>, at: nat, c: Constant)
    requires HasAt(s, at, ValueBytes(c))
    ensures ValueLies(s, at, c)
  {
    if c.I32? || c.F32? {
      var w := s[at..at + 4];
      LE32RoundTrip(c.v);
      assert w[0] == s[at] && w[1] == s[at + 1] && w[2] == s[at + 2] && w[3] == s[at + 3];
    }
  }

  lemma {:induction false} OutsideKept(linkData: seq<Byte>, gs: seq<MutableGlobal>, n: nat, a: nat)
    requires n <= |gs| && SlotsFit(gs, |linkData|) && a < |linkData|
    requires NoSlot(gs, a)
    ensures Filled(linkData, gs, n)[a] == linkData[a]
  {
    if n > 0 {
      OutsideKept(linkData, gs, n - 1, a);
      FilledNext(linkData, gs, n - 1);
      assert !InSlot(gs[n - 1], a);
    }
  }

  lemma AllYielded(linkData: seq<Byte>, gs: seq<MutableGlobal>)
    requires SlotsFit(gs, |linkData|)
    ensures forall i :: 0 <= i < |gs| ==> Yields(Current(linkData, gs)[i], linkData, gs[i])
  {
  }

  // initializeModule copies each initial value into its slot.
  method InitializeGlobals(file: seq<Byte>, binary: BinaryModule, linkData: seq<Byte>, ghost m: Module,
                           ghost p: seq<int>)
    returns (filled: seq<Byte>)
    requires WellFormed(m) && file == Image(m) && Places(m, p) && binary.Describes(m, p, |file|)
    requires SlotsFit(m.mutableGlobals, |linkData|)
    ensures filled == Filled(linkData, m.mutableGlobals, |m.mutableGlobals|)
    ensures SlotsApart(m.mutableGlobals) ==> forall i :: 0 <= i < |m.mutableGlobals| ==>
      ValueLies(filled, m.mutableGlobals[i].linkOffset % 0x1_0000, m.mutableGlobals[i].initial)
    ensures forall a :: 0 <= a < |linkData| && NoSlot(m.mutableGlobals, a) ==> filled[a] == linkData[a]
  {
    ValuesLie(linkData, m.mutableGlobals);
    SectionPlaced(m, p);
    var count, cursor := ReadNextValue(file, binary.mutableGlobalsSectionEnd, From(m, 8).tail);
    filled := CopyValues(file, cursor, count, linkData, m.mutableGlobals, From(m, 9));
  }

  method CopyValues(file: seq<Byte>, start: nat, count: nat, linkData: seq<Byte>, ghost gs: seq<MutableGlobal>,
                    ghost rest: Items) returns (filled: seq<Byte>)
    requires At(file, start, MutableGlobals(gs, rest)) && count == |gs| && SlotsFit(gs, |linkData|)
    ensures filled == Filled(linkData, gs, |gs|)
  {
    filled := linkData;
    var i, cursor: nat := 0, start;
    while i < count
      invariant 0 <= i <= count
      invariant At(file, cursor, MutableGlobals(gs[i..], rest))
      invariant filled == Filled(linkData, gs, i)
    {
      OneAtATime(gs, i, rest);
      var code: Byte, slot: nat;
      code, slot, cursor := ReadMutableGlobal(file, cursor, gs[i], MutableGlobals(gs[i + 1..], rest));
      FilledNext(linkData, gs, i);
      filled := Splice(filled, slot, file[cursor..cursor + TypeSize(code)]);
      i := i + 1;
    }
  }

  // iterateMutableGlobals hands every type and current value to its callback.
  method IterateMutableGlobals(file: seq<Byte>, binary: BinaryModule, linkData: seq<Byte>, ghost m: Module,
                               ghost p: seq<int>)
    returns (values: seq<(Byte, seq<Byte>)>)
    requires WellFormed(m) && file == Image(m) && Places(m, p) && binary.Describes(m, p, |file|)
    requires SlotsFit(m.mutableGlobals, |linkData|)
    ensures values == Current(linkData, m.mutableGlobals)
    ensures forall i :: 0 <= i < |m.mutableGlobals| ==> Yields(values[i], linkData, m.mutableGlobals[i])
  {
    AllYielded(linkData, m.mutableGlobals);
    SectionPlaced(m, p);
    var count, cursor := ReadNextValue(file, binary.mutableGlobalsSectionEnd, From(m, 8).tail);
    values := CollectValues(file, cursor, count, linkData, m.mutableGlobals, From(m, 9));
  }

  lemma CurrentNext(linkData: seq<Byte>, gs: seq<MutableGlobal>, i: nat)
    requires i < |gs| && SlotsFit(gs, |linkData|)
    ensures Slot(gs[i]) + ConstantSize(gs[i].initial) <= |linkData|
    ensures
      var value := (MachineType(gs[i].initial), linkData[Slot(gs[i])..Slot(gs[i]) + ConstantSize(gs[i].initial)]);
      Current(linkData, gs)[..i + 1] == Current(linkData, gs)[..i] + [value]
  {
  }

  method CollectValues(file: seq<Byte>, start: nat, count: nat, linkData: seq<Byte>, ghost gs: seq<MutableGlobal>,
                       ghost rest: Items) returns (values: seq<(Byte, seq<Byte>)>)
    requires At(file, start, MutableGlobals(gs, rest)) && count == |gs| && SlotsFit(gs, |linkData|)
    ensures values == Current(linkData, gs)
  {
    values := [];
    var i, cursor: nat := 0, start;
    while i < count
      invariant 0 <= i <= count
      invariant At(file, cursor, MutableGlobals(gs[i..], rest))
      invariant values == Current(linkData, gs)[..i]
    {
      OneAtATime(gs, i, rest);
      var code: Byte, slot: nat;
      code, slot, cursor := ReadMutableGlobal(file, cursor, gs[i], MutableGlobals(gs[i + 1..], rest));
      CurrentNext(linkData, gs, i);
      values := values + [(code, linkData[slot..slot + TypeSize(code)])];
      i := i + 1;
    }
  }

  lemma {:induction false} SlotHolds(linkData: seq<Byte>, gs: seq<MutableGlobal>, n: nat, i: nat)
    requires i < n <= |gs| && SlotsFit(gs, |linkData|) && SlotsApart(gs)
    ensures HasAt(Filled(linkData, gs, n), Slot(gs[i]), ValueBytes(gs[i].initial))
  {
    var g, last, before := gs[i], gs[n - 1], Filled(linkData, gs, n - 1);
    if i < n - 1 {
      SlotHolds(linkData, gs, n - 1, i);
      assert Apart(g, last);
      SpliceApart(before, Slot(last), ValueBytes(last.initial), Slot(g), Slot(g) + ConstantSize(g.initial));
    } else {
      var r := Splice(before, Slot(g), ValueBytes(g.initial));
      assert r[Slot(g)..Slot(g) + ConstantSize(g.initial)] == ValueBytes(g.initial);
    }
  }

  // After initialisation the iteration yields exactly the encoded values, whatever the link data held
  // before, if no two slots overlap.
  lemma InitialValuesIterate(linkData: seq<Byte>, gs: seq<MutableGlobal>)
    requires SlotsFit(gs, |linkData|) && SlotsApart(gs)
    ensures Current(Filled(linkData, gs, |gs|), gs) == Initial(gs)
  {
    var filled := Filled(linkData, gs, |gs|);
    forall i | 0 <= i < |gs|
      ensures Current(filled, gs)[i] == Initial(gs)[i]
    {
      SlotHolds(linkData, gs, |gs|, i);
    }
  }

  // A global as the iteration hands it over: its type code, and its value little-endian.
  ghost predicate Given(value: (Byte, seq<Byte>), c: Constant) {
    match c
    case I32(v) => value.0 == 1 && |value.1| == 4 && Word(value.1, 0) == v
    case I64(d) => value == (2, d)
    case F32(v) => value.0 == 3 && |value.1| == 4 && Word(value.1, 0) == v
    case F64(d) => value == (4, d)
  }

  lemma InitialGiven(gs: seq<MutableGlobal>)
    ensures forall i :: 0 <= i < |gs| ==> Given(Initial(gs)[i], gs[i].initial)
  {
    forall i | 0 <= i < |gs|
      ensures Given(Initial(gs)[i], gs[i].initial)
    {
      if gs[i].initial.I32? || gs[i].initial.F32? {
        LE32RoundTrip(gs[i].initial.v);
      }
    }
  }
}
