// The reference memory: every byte of every Wasm page exists from the moment the page is allowed,
// and starts as zero.  Both memory managers are proved to behave like this one.
module EagerMemory {
  import opened Bytes

  const WASM_PAGE: nat := 0x1_0000
  const MAX_WASM_PAGES: nat := 0x1_0000

  datatype ProbeResult = Ok | AllocationFailure | OutOfBounds

  // What Wasm code and the host do to a linear memory.
  datatype Op =
    | MemoryGrow(delta: U32)
    | Load(index: U32, offset: U32, width: nat)
    | Store(index: U32, offset: U32, data: seq<Byte>)
    | HostRegion(start: U32, size: U32)
    | ShrinkTo(minimumLength: U32)
    | SetMaxRam(maxRam: nat)

  // What the caller sees.  OutOfMemory stands for the trap LINMEM_COULDNOTEXTEND and for the
  // host-side error Could_not_extend_linear_memory; Refused for a host request that was declined
  // without effect.
  datatype Obs =
    | Done
    | Pages(result: U32)
    | Bytes(read: seq<Byte>)
    | Refused
    | OutOfRange
    | OutOfMemory

  datatype Eager = Eager(bytes: seq<Byte>, pages: nat, maxPages: nat)

  ghost predicate Valid(e: Eager) {
    e.pages <= e.maxPages <= MAX_WASM_PAGES && |e.bytes| == WASM_PAGE * e.pages
  }

  // Accesses are 1 to 8 bytes wide; a host region must end below 2^32 - 1 (ActiveRegionExact, PassiveRegionExact).
  predicate WellFormed(op: Op) {
    match op
    case Load(_, _, w) => 1 <= w <= 8
    case Store(_, _, d) => 1 <= |d| <= 8
    case HostRegion(start, size) => start + size <= UINT32_MAX
    case _ => true
  }

  // memory.grow answers the old page count, or -1 and leaves the memory alone.
  predicate GrowFits(pages: nat, maxPages: nat, delta: U32) {
    pages + delta <= maxPages
  }

  function Zeroed(bytes: seq<Byte>, from: nat): (z: seq<Byte>)
    ensures |z| == |bytes|
    ensures forall i :: 0 <= i < |bytes| ==> z[i] == if i < from then bytes[i] else 0
  {
    if from < |bytes| then bytes[..from] + Zeros(|bytes| - from) else bytes
  }

  // One step; `keep` is the length below which ShrinkTo is known to preserve the contents.
  function Step(e: Eager, op: Op, keep: nat): (r: (Eager, Obs))
    requires Valid(e) && WellFormed(op)
    ensures Valid(r.0)
    ensures r.1 != OutOfMemory
  {
    match op
    case MemoryGrow(delta) =>
      if GrowFits(e.pages, e.maxPages, delta)
      then (e.(bytes := e.bytes + Zeros(WASM_PAGE * delta), pages := e.pages + delta), Pages(e.pages))
      else (e, Pages(UINT32_MAX))
    case Load(index, offset, width) =>
      var a := index + offset;
      if a + width <= |e.bytes| then (e, Bytes(e.bytes[a..a + width])) else (e, OutOfRange)
    case Store(index, offset, data) =>
      var a := index + offset;
      if a + |data| <= |e.bytes| then (e.(bytes := Splice(e.bytes, a, data)), Done) else (e, OutOfRange)
    case HostRegion(start, size) =>
      if size == 0 || start + size <= |e.bytes| then (e, Done) else (e, OutOfRange)
    case ShrinkTo(_) => (e.(bytes := Zeroed(e.bytes, keep)), Done)
    case SetMaxRam(_) => (e, Done)
  }

  function ResultOf(obs: Obs): ProbeResult {
    match obs
    case OutOfRange => OutOfBounds
    case OutOfMemory => AllocationFailure
    case _ => Ok
  }

  function ObsOf(r: ProbeResult, obs: Obs): Obs {
    match r
    case Ok => obs
    case OutOfBounds => OutOfRange
    case AllocationFailure => OutOfMemory
  }

  // A data segment of the module.
  datatype Segment = Segment(start: U32, data: seq<Byte>)

  function End(g: Segment): nat {
    g.start + |g.data|
  }

  ghost predicate AllFit(segments: seq<Segment>, size: nat) {
    forall i :: 0 <= i < |segments| ==> End(segments[i]) <= size
  }

  // How far the segments reach.
  function HighestEnd(segments: seq<Segment>): (n: nat)
    ensures forall i :: 0 <= i < |segments| ==> End(segments[i]) <= n
  {
    if segments == [] then 0
    else
      var last := |segments| - 1;
      assert forall i :: 0 <= i < last ==> segments[..last][i] == segments[i];
      if HighestEnd(segments[..last]) < End(segments[last]) then End(segments[last]) else HighestEnd(segments[..last])
  }

  // The memory after the segments were copied in, in order.
  ghost function Loaded(size: nat, segments: seq<Segment>): (bytes: seq<Byte>)
    requires AllFit(segments, size)
    ensures |bytes| == size
  {
    if segments == [] then Zeros(size)
    else
      var last := |segments| - 1;
      assert End(segments[last]) <= size;
      Splice(Loaded(size, segments[..last]), segments[last].start, segments[last].data)
  }

  lemma LoadedNext(size: nat, segments: seq<Segment>, i: nat)
    requires i < |segments| && AllFit(segments[..i], size) && End(segments[i]) <= size
    ensures AllFit(segments[..i + 1], size)
    ensures Loaded(size, segments[..i + 1]) == Splice(Loaded(size, segments[..i]), segments[i].start, segments[i].data)
  {
    assert segments[..i + 1][..i] == segments[..i];
  }

  lemma {:induction false} HighestIsLeast(segments: seq<Segment>, top: nat)
    requires AllFit(segments, top)
    ensures HighestEnd(segments) <= top
  {
    if segments != [] {
      assert End(segments[|segments| - 1]) <= top;
      HighestIsLeast(segments[..|segments| - 1], top);
    }
  }

  ghost predicate Covers(start: nat, length: nat, a: nat) {
    start <= a < start + length
  }

  ghost predicate LastToCover(segments: seq<Segment>, i: int, a: nat) {
    && 0 <= i < |segments| && Covers(segments[i].start, |segments[i].data|, a)
    && forall j :: i < j < |segments| ==> !Covers(segments[j].start, |segments[j].data|, a)
  }

  // A byte of the memory is that of the last segment that covers it.
  lemma {:induction false} LoadedByte(size: nat, segments: seq<Segment>, i: nat, a: nat)
    requires AllFit(segments, size) && a < size && LastToCover(segments, i, a)
    ensures Loaded(size, segments)[a] == segments[i].data[a - segments[i].start]
  {
    var n := |segments| - 1;
    assert End(segments[n]) <= size;
    if i < n {
      assert LastToCover(segments[..n], i, a);
      LoadedByte(size, segments[..n], i, a);
    }
  }

  // Or zero if there is none.
  lemma {:induction false} LoadedZero(size: nat, segments: seq<Segment>, a: nat)
    requires AllFit(segments, size) && a < size
    requires forall i :: 0 <= i < |segments| ==> !Covers(segments[i].start, |segments[i].data|, a)
    ensures Loaded(size, segments)[a] == 0
  {
    if segments != [] {
      var n := |segments| - 1;
      assert End(segments[n]) <= size && !Covers(segments[n].start, |segments[n].data|, a);
      LoadedZero(size, segments[..n], a);
    }
  }

  // The laws a linear memory is for, stated on the reference.

  lemma LoadAfterStore(e: Eager, index: U32, offset: U32, data: seq<Byte>, keep: nat)
    requires Valid(e) && WellFormed(Store(index, offset, data))
    requires Step(e, Store(index, offset, data), keep).1 == Done
    ensures Step(Step(e, Store(index, offset, data), keep).0, Load(index, offset, |data|), keep).1 == Bytes(data)
  {
    var a := index + offset;
    var t := Splice(e.bytes, a, data);
    assert t[a..a + |data|] == data;
  }
}
