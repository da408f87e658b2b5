// Looking exports up by name, and what the offset found leads to.
module BinaryLookup {
  import opened Bytes
  import opened Bits
  import opened BinaryFormat
  import opened BinaryReaders

  // ---- Names ----

  // strncmp over the whole length of two equally long names: it stops early at a NUL.
  predicate SameToNul(a: seq<Byte>, b: seq<Byte>)
    requires |a| == |b|
  {
    a == [] || (a[0] == b[0] && (a[0] == 0 || SameToNul(a[1..], b[1..])))
  }

  predicate Matches(stored: seq<Byte>, name: seq<Byte>) {
    |stored| == |name| && SameToNul(name, stored)
  }

  // Comparing that way is comparing the names exactly when the wanted one has no NUL before its last byte.
  lemma SameMeansEqual(a: seq<Byte>)
    ensures (forall b: seq<Byte> :: |a| == |b| ==> (SameToNul(a, b) <==> a == b)) <==> (a == [] || 0 !in a[..|a| - 1])
  {
    if a == [] || 0 !in a[..|a| - 1] {
      forall b: seq<Byte> | |a| == |b|
        ensures SameToNul(a, b) <==> a == b
      {
        SameWithoutNul(a, b);
      }
    } else {
      var k :| 0 <= k < |a| - 1 && a[k] == 0;
      var n := |a| - 1;
      var b := a[n := if a[n] == 0 then 1 else 0];
      SameBeyondNul(a, b, k);
      assert a[n] != b[n];
    }
  }

  lemma {:induction false} SameWithoutNul(a: seq<Byte>, b: seq<Byte>)
    requires |a| == |b| && (a == [] || 0 !in a[..|a| - 1])
    ensures SameToNul(a, b) <==> a == b
  {
    if a != [] {
      var t := a[1..];
      assert a == [a[0]] + t && b == [b[0]] + b[1..];
      if t == [] {
        assert b[1..] == [];
      } else {
        assert a[0] == a[..|a| - 1][0];
        assert forall i :: 0 <= i < |t| - 1 ==> t[i] == a[..|a| - 1][i + 1];
        SameWithoutNul(t, b[1..]);
      }
    }
  }

  lemma {:induction false} SameBeyondNul(a: seq<Byte>, b: seq<Byte>, k: nat)
    requires k < |a| == |b| && a[..k + 1] == b[..k + 1] && a[k] == 0
    ensures SameToNul(a, b)
  {
    assert a[0] == a[..k + 1][0] == b[..k + 1][0] == b[0];
    if k > 0 {
      assert a[1..][..k] == a[..k + 1][1..] == b[..k + 1][1..] == b[1..][..k];
      SameBeyondNul(a[1..], b[1..], k - 1);
    }
  }

  method CompareNames(name: seq<Byte>, stored: seq<Byte>) returns (same: bool)
    requires |name| == |stored|
    ensures same <==> SameToNul(name, stored)
  {
    var i := 0;
    while i < |name|
      invariant 0 <= i <= |name|
      invariant SameToNul(name, stored) <==> SameToNul(name[i..], stored[i..])
    {
      if name[i] != stored[i] {
        return false;
      }
      if name[i] == 0 {
        return true;
      }
      assert name[i..][1..] == name[i + 1..] && stored[i..][1..] == stored[i + 1..];
      i := i + 1;
    }
    same := true;
  }

  // ---- Reading one padded text ----

  method ReadText(file: seq<Byte>, cursor: nat, ghost t: Text, ghost rest: Items) returns (length: U32, start: nat)
    requires At(file, cursor, Sized(t, rest))
    ensures At(file, start, rest) && length == |t.bytes|
    ensures start + length <= |file| && file[start..start + length] == t.bytes
  {
    ghost var items := Sized(t, rest);
    TextFits(t, rest);
    var next;
    length, next := ReadNextValue(file, cursor, items);
    PopBlob(file, next, items.tail, |t.bytes|, |t.padding|);
    RoundsUp(|t.bytes|);
    start := next - RoundUpToPow2(length, 2, 32);
  }

  // A stored name against the wanted one: the lengths first, then the bytes.
  method ReadAndCompare(file: seq<Byte>, cursor: nat, name: seq<Byte>, ghost t: Text, ghost rest: Items)
    returns (matches: bool, next: nat)
    requires At(file, cursor, Sized(t, rest))
    ensures At(file, next, rest) && (matches <==> Matches(t.bytes, name))
  {
    var nameLength;
    nameLength, next := ReadText(file, cursor, t, rest);
    matches := false;
    if nameLength == |name| {
      matches := CompareNames(name, file[next..next + nameLength]);
    }
  }

  lemma TextFits(t: Text, rest: Items)
    ensures Size(Sized(t, rest)) >= |t.bytes| + 4
  {
    SizedSize(t, rest);
  }

  // ---- Exported functions ----

  // The first of the functions with that name, or none of them.
  ghost function FirstFunction(fs: seq<ExportedFunction>, name: seq<Byte>): (k: nat)
    ensures k <= |fs|
    ensures k < |fs| ==> Matches(fs[k].name.bytes, name)
    ensures forall j :: 0 <= j < k ==> !Matches(fs[j].name.bytes, name)
  {
    if fs == [] || Matches(fs[0].name.bytes, name) then 0 else 1 + FirstFunction(fs[1..], name)
  }

  // What lies in front of the name of function k.
  ghost function BehindName(m: Module, k: nat): Items
    requires k < |m.functions|
  {
    Called(m.functions[k].callable, Functions(m.functions[k + 1..], From(m, 5)))
  }

  lemma FunctionsPlaced(m: Module, p: seq<int>)
    requires WellFormed(m) && Places(m, p)
    ensures p[4] >= 8 && At(Image(m), p[4] - 8, Functions(m.functions, From(m, 5))) && |m.functions| < WORD32
    ensures At(Image(m), p[4] - 4, From(m, 4).tail) && From(m, 4).tail.More?
    ensures From(m, 4).tail == More(Num(Narrow(|m.functions|)), Functions(m.functions, From(m, 5)))
  {
    Placed(m, 4);
    PopNum(Image(m), p[4], From(m, 4));
    PopNum(Image(m), p[4] - 4, From(m, 4).tail);
    FunctionsCovered(m.functions, From(m, 5));
  }

  // findExportedFunctionByName: the distance of the signature from the end of the file, or nothing.
  method FindExportedFunctionByName(file: seq<Byte>, binary: BinaryModule, name: seq<Byte>, ghost m: Module,
                                    ghost p: seq<int>)
    returns (r: Option<nat>)
    requires WellFormed(m) && file == Image(m) && Places(m, p) && binary.Describes(m, p, |file|)
    ensures
      var k := FirstFunction(m.functions, name);
      if k == |m.functions| then r == None
      else r.Some? && r.value <= |file| && At(file, |file| - r.value, BehindName(m, k))
  {
    FunctionsPlaced(m, p);
    ghost var fs, rest := m.functions, From(m, 5);
    var numExportedFunctions, cursor := ReadNextValue(file, binary.exportedFunctionsEnd, From(m, 4).tail);
    var i := 0;
    while i < numExportedFunctions
      invariant 0 <= i <= |fs| == numExportedFunctions
      invariant At(file, cursor, Functions(fs[i..], rest))
      invariant forall j :: 0 <= j < i ==> !Matches(fs[j].name.bytes, name)
    {
      ghost var f, more := fs[i], Functions(fs[i + 1..], rest);
      assert fs[i..][0] == f && fs[i..][1..] == fs[i + 1..];
      var fncIndex, matches;
      fncIndex, cursor := ReadNextValue(file, cursor, Functions(fs[i..], rest));
      matches, cursor := ReadAndCompare(file, cursor, name, f.name, Called(f.callable, more));
      if matches {
        FirstIs(fs, name, i);
        return Some(|file| - cursor);
      }
      var length;
      length, cursor := ReadText(file, cursor, f.callable.signature, Sized(f.callable.wrapper, more));
      length, cursor := ReadText(file, cursor, f.callable.wrapper, more);
      i := i + 1;
    }
    r := None;
  }

  lemma FirstIs(fs: seq<ExportedFunction>, name: seq<Byte>, k: nat)
    requires k < |fs| && Matches(fs[k].name.bytes, name)
    requires forall j :: 0 <= j < k ==> !Matches(fs[j].name.bytes, name)
    ensures FirstFunction(fs, name) == k
  {
  }

  // FunctionInfo: signature and call wrapper at an offset from the end of the file.
  method FunctionInfo(file: seq<Byte>, binaryOffset: nat, ghost c: Callable, ghost rest: Items)
    returns (signature: seq<Byte>, fncPtr: nat)
    requires binaryOffset <= |file| && At(file, |file| - binaryOffset, Called(c, rest))
    ensures signature == c.signature.bytes && fncPtr == Size(rest)
    ensures fncPtr + |c.wrapper.bytes| <= |file| && file[fncPtr..fncPtr + |c.wrapper.bytes|] == c.wrapper.bytes
  {
    var length, stepPtr;
    length, stepPtr := ReadText(file, |file| - binaryOffset, c.signature, Sized(c.wrapper, rest));
    signature := file[stepPtr..stepPtr + length];
    length, fncPtr := ReadText(file, stepPtr, c.wrapper, rest);
  }

  // Looking a function up and reading its record: the first export with the name, or nothing if and only
  // if there is none.
  method GetFunction(file: seq<Byte>, binary: BinaryModule, name: seq<Byte>, ghost m: Module, ghost p: seq<int>)
    returns (found: bool, signature: seq<Byte>, fncPtr: nat)
    requires WellFormed(m) && file == Image(m) && Places(m, p) && binary.Describes(m, p, |file|)
    requires 0 !in name
    ensures found <==> exists f :: f in m.functions && f.name.bytes == name
    ensures found ==>
      exists k :: 0 <= k < |m.functions| && m.functions[k].name.bytes == name
        && (forall j :: 0 <= j < k ==> m.functions[j].name.bytes != name)
        && signature == m.functions[k].callable.signature.bytes
        && fncPtr == Size(FromEntry(m, 4, k + 1)) && HasAt(file, fncPtr, m.functions[k].callable.wrapper.bytes)
  {
    signature, fncPtr := [], 0;
    var offset := FindExportedFunctionByName(file, binary, name, m, p);
    ghost var k := FirstFunction(m.functions, name);
    NamesCompare(name, m.functions);
    found := offset.Some?;
    if found {
      ghost var more := Functions(m.functions[k + 1..], From(m, 5));
      signature, fncPtr := FunctionInfo(file, offset.value, m.functions[k].callable, more);
      assert m.functions[k] in m.functions;
    }
  }

  ghost predicate HasAt(file: seq<Byte>, p: nat, bytes: seq<Byte>) {
    p + |bytes| <= |file| && file[p..p + |bytes|] == bytes
  }

  lemma NamesCompare(name: seq<Byte>, fs: seq<ExportedFunction>)
    requires 0 !in name
    ensures forall i :: 0 <= i < |fs| ==> (Matches(fs[i].name.bytes, name) <==> fs[i].name.bytes == name)
  {
    SameMeansEqual(name);
    if name != [] {
      assert forall b :: b in name[..|name| - 1] ==> b in name;
    }
  }

  // The start function's record is read the same way, from the offset kept by the module.
  method ReadStartFunction(file: seq<Byte>, binary: BinaryModule, ghost m: Module, ghost p: seq<int>)
    returns (present: bool, signature: seq<Byte>, fncPtr: nat)
    requires WellFormed(m) && file == Image(m) && Places(m, p) && binary.Describes(m, p, |file|)
    ensures present <==> m.start != []
    ensures present ==> signature == m.start[0].signature.bytes && HasAt(file, fncPtr, m.start[0].wrapper.bytes)
  {
    signature, fncPtr := [], 0;
    StartPlaced(m, p);
    present := binary.startFunctionBinaryOffset != UINT32_MAX;
    if present {
      ghost var more := Start(m.start[1..], From(m, 10));
      signature, fncPtr := FunctionInfo(file, binary.startFunctionBinaryOffset, m.start[0], more);
    }
  }

  lemma StartPlaced(m: Module, p: seq<int>)
    requires WellFormed(m) && Places(m, p)
    ensures m.start != [] ==> 4 < p[9] <= |Image(m)| && At(Image(m), p[9] - 4, Start(m.start, From(m, 10)))
  {
    Placed(m, 9);
    PopNum(Image(m), p[9], From(m, 9));
    StartCovered(m.start, From(m, 10));
  }

  // ---- Exported globals ----

  ghost function FirstGlobal(gs: seq<ExportedGlobal>, name: seq<Byte>): (k: nat)
    ensures k <= |gs|
    ensures k < |gs| ==> Matches(gs[k].name.bytes, name)
    ensures forall j :: 0 <= j < k ==> !Matches(gs[j].name.bytes, name)
  {
    if gs == [] || Matches(gs[0].name.bytes, name) then 0 else 1 + FirstGlobal(gs[1..], name)
  }

  function GlobalRecord(g: ExportedGlobal, rest: Items): Items {
    More(Blob(g.filler, []), Exposed(g.exposure, rest))
  }

  lemma GlobalsPlaced(m: Module, p: seq<int>)
    requires WellFormed(m) && Places(m, p)
    ensures p[5] >= 8 && |m.globals| < WORD32
    ensures At(Image(m), p[5] - 4, From(m, 5).tail)
    ensures From(m, 5).tail == More(Num(Narrow(|m.globals|)), Globals(m.globals, From(m, 6)))
  {
    Placed(m, 5);
    PopNum(Image(m), p[5], From(m, 5));
    PopNum(Image(m), p[5] - 4, From(m, 5).tail);
    GlobalsCovered(m.globals, From(m, 6));
  }

  method ReadByte(file: seq<Byte>, cursor: nat, ghost items: Items) returns (b: Byte, next: nat)
    requires At(file, cursor, items) && items.More? && items.head.U8?
    ensures b == items.head.b && cursor == next + 1 && At(file, next, items.tail)
  {
    PopU8(file, cursor, items);
    next := cursor - 1;
    b := file[next];
  }

  // The record behind a global's name: alignment, type, mutability, then four or eight bytes.
  method SkipGlobalRecord(file: seq<Byte>, start: nat, ghost g: ExportedGlobal, ghost rest: Items) returns (cursor: nat)
    requires At(file, start, GlobalRecord(g, rest))
    ensures At(file, cursor, rest)
  {
    PopItem(file, start, GlobalRecord(g, rest));
    cursor := start - 2;
    ghost var items := Exposed(g.exposure, rest);
    var signatureType, isMutable;
    signatureType, cursor := ReadByte(file, cursor, items);
    isMutable, cursor := ReadByte(file, cursor, items.tail);
    PopItem(file, cursor, items.tail.tail);
    if isMutable != 0 {
      cursor := cursor - 4;
    } else {
      cursor := cursor - if signatureType == 0x69 || signatureType == 0x66 then 4 else 8;
    }
  }

  // findExportedGlobalByName: the distance of the record from the end of the file, or nothing.
  method FindExportedGlobalByName(file: seq<Byte>, binary: BinaryModule, name: seq<Byte>, ghost m: Module,
                                  ghost p: seq<int>)
    returns (r: Option<nat>)
    requires WellFormed(m) && file == Image(m) && Places(m, p) && binary.Describes(m, p, |file|)
    ensures
      var k := FirstGlobal(m.globals, name);
      if k == |m.globals| then r == None
      else
        r.Some? && r.value <= |file|
        && At(file, |file| - r.value, GlobalRecord(m.globals[k], Globals(m.globals[k + 1..], From(m, 6))))
  {
    GlobalsPlaced(m, p);
    ghost var gs, rest := m.globals, From(m, 6);
    var numExportedGlobals, cursor := ReadNextValue(file, binary.exportedGlobalsEnd, From(m, 5).tail);
    var i := 0;
    while i < numExportedGlobals
      invariant 0 <= i <= |gs| == numExportedGlobals
      invariant At(file, cursor, Globals(gs[i..], rest))
      invariant forall j :: 0 <= j < i ==> !Matches(gs[j].name.bytes, name)
    {
      ghost var g, more := gs[i], Globals(gs[i + 1..], rest);
      OneGlobal(gs, i, rest);
      var matches;
      matches, cursor := ReadAndCompare(file, cursor, name, g.name, GlobalRecord(g, more));
      if matches {
        FirstGlobalIs(gs, name, i);
        return Some(|file| - cursor);
      }
      cursor := SkipGlobalRecord(file, cursor, g, more);
      i := i + 1;
    }
    r := None;
  }

  lemma OneGlobal(gs: seq<ExportedGlobal>, i: nat, rest: Items)
    requires i < |gs|
    ensures Globals(gs[i..], rest) == Sized(gs[i].name, GlobalRecord(gs[i], Globals(gs[i + 1..], rest)))
  {
    assert gs[i..][0] == gs[i] && gs[i..][1..] == gs[i + 1..];
  }

  lemma FirstGlobalIs(gs: seq<ExportedGlobal>, name: seq<Byte>, k: nat)
    requires k < |gs| && Matches(gs[k].name.bytes, name)
    requires forall j :: 0 <= j < k ==> !Matches(gs[j].name.bytes, name)
    ensures FirstGlobal(gs, name) == k
  {
  }
}
