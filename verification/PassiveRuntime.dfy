// The Runtime in passive mode: emitted code accesses memory unchecked, and the fault handler either
// traps or sends execution through a landing pad that commits the page before the access is retried.
module PassiveRuntime {
  import opened Bytes
  import opened Bits
  import opened EagerMemory
  import opened LazyMemory
  import opened PassiveMemory

  // Basedata word, counted back from the start of the linear memory (x86-64, interruption requests on).
  const LINMEM_WASM_SIZE: nat := 12

  datatype Passive = Passive(
    lazy: Lazy,
    pagedBasedataSize: nat,
    limit: nat,
    pageBits: nat,
    reliable: bool)

  // Commits are whole OS pages, inside both the memory limit and the allowed pages.
  ghost predicate Inv(s: Passive) {
    && LazyInv(s.lazy)
    && s.pageBits <= 16
    && Aligned(s.pagedBasedataSize, s.pageBits)
    && Aligned(s.lazy.usable, s.pageBits)
    && s.pagedBasedataSize + s.lazy.usable <= s.limit < WORD64
  }

  ghost function ViewOf(m: Manager, maxPages: nat): Passive
    requires |m.lin| <= WASM_PAGE * m.pages && m.pages <= maxPages <= MAX_WASM_PAGES
  {
    Passive(Padded(m.lin, m.pages, maxPages), m.pagedBasedataSize, m.limit, m.pageBits, m.reliable)
  }

  // A page-wise commit up to the page of the offset, unless the limit or the OS forbids it.
  ghost predicate PageProbe(s: Passive, offset: nat, r: ProbeResult, s': Passive)
    requires s.pageBits <= 16 && offset < WORD64 - 0x1_0000
  {
    var size := PageUp(offset + 1, s.pageBits);
    if offset < s.lazy.usable then r == Ok && s' == s
    else if offset >= WASM_PAGE * s.lazy.memory.pages then r == OutOfBounds && s' == s
    else if r == Ok then s.pagedBasedataSize + size <= s.limit && s' == s.(lazy := s.lazy.(usable := size))
    else r == AllocationFailure && s' == s && (s.reliable ==> s.pagedBasedataSize + size > s.limit)
  }

  // Whether the limit leaves room for the pages of the first n bytes.
  predicate RoomFor(s: Passive, n: nat)
    requires s.pageBits <= 16 && n <= WORD64 - 0x1_0000
  {
    s.pagedBasedataSize + PageUp(n, s.pageBits) <= s.limit
  }

  // s' is s with more pages committed.
  ghost predicate Grown(s: Passive, s': Passive) {
    && Inv(s')
    && s.lazy.usable <= s'.lazy.usable
    && s' == s.(lazy := s.lazy.(usable := s'.lazy.usable))
  }

  // The fault and retry loop of one access to [a, n); pages may have been committed before a trap. A commit that
  // fails is one of a page of the access that is allowed.
  ghost predicate TouchStep(s: Passive, a: nat, n: nat, r: ProbeResult, s': Passive)
    requires s.pageBits <= 16 && n <= WORD64 - 0x1_0000
  {
    var size := WASM_PAGE * s.lazy.memory.pages;
    && Grown(s, s')
    && (r == Ok ==> s'.lazy.usable == Max(s.lazy.usable, PageUp(n, s.pageBits)))
    && (r == OutOfBounds ==> n > size)
    && (r == AllocationFailure ==> a < size && (s.reliable ==> !RoomFor(s, Min(n, size))))
  }

  ghost predicate LoadStep(s: Passive, a: nat, width: nat, obs: Obs, s': Passive)
    requires s.pageBits <= 16 && a + width <= WORD64 - 0x1_0000
  {
    TouchStep(s, a, a + width, ResultOf(obs), s') && LazyLoad(s.lazy, a, width, obs, s'.lazy)
  }

  ghost predicate StoreStep(s: Passive, a: nat, data: seq<Byte>, obs: Obs, s': Passive)
    requires s.pageBits <= 16 && a + |data| <= WORD64 - 0x1_0000
  {
    && TouchStep(s, a, a + |data|, ResultOf(obs), s'.(lazy := s.lazy.(usable := s'.lazy.usable)))
    && LazyStore(s.lazy, a, data, obs, s'.lazy)
  }

  ghost predicate GrowStep(s: Passive, delta: U32, obs: Obs, s': Passive) {
    LazyGrow(s.lazy, delta, obs, s'.lazy) && s' == s.(lazy := s'.lazy)
  }

  ghost predicate RegionStep(s: Passive, start: U32, size: U32, obs: Obs, s': Passive)
    requires s.pageBits <= 16
  {
    if size == 0 then obs == Done && s' == s
    else obs == ObsOf(ResultOf(obs), Done) && PageProbe(s, Narrow(start + size - 1), ResultOf(obs), s')
  }

  // The host is not told whether the allocator shrank.
  ghost predicate ShrinkToStep(s: Passive, n: U32, obs: Obs, s': Passive)
    requires s.pageBits <= 16
  {
    obs == Done && LazyShrink(s.lazy, n, PageDown(n, s.pageBits), obs, s'.lazy) && s' == s.(lazy := s'.lazy)
  }

  // A limit below what is committed is refused.
  ghost predicate LimitStep(s: Passive, maxRam: nat, obs: Obs, s': Passive)
    requires s.pageBits <= 16
  {
    && maxRam < WORD64
    && if s.pagedBasedataSize + s.lazy.usable <= PageDown(maxRam, s.pageBits)
       then obs == Done && s' == s.(limit := PageDown(maxRam, s.pageBits))
       else obs == Refused && s' == s
  }

  ghost predicate OpStep(s: Passive, op: Op, obs: Obs, s': Passive)
    requires s.pageBits <= 16 && WellFormed(op)
  {
    match op
    case MemoryGrow(delta) => GrowStep(s, delta, obs, s')
    case Load(index, offset, width) => LoadStep(s, index + offset, width, obs, s')
    case Store(index, offset, data) => StoreStep(s, index + offset, data, obs, s')
    case HostRegion(start, size) => RegionStep(s, start, size, obs, s')
    case ShrinkTo(n) => ShrinkToStep(s, n, obs, s')
    case SetMaxRam(maxRam) => LimitStep(s, maxRam, obs, s')
  }

  // Between two faults of an access that ends at n.
  ghost predicate Underway(start: Passive, n: nat, committed: int, s: Passive)
    requires start.pageBits <= 16 && n <= WORD64 - 0x1_0000
  {
    Grown(start, s) && committed == s.lazy.usable <= Max(start.lazy.usable, PageUp(n, start.pageBits))
  }

  datatype FaultKind = OutOfBoundsTrap | LandingPad | Unrelated

  class Runtime {
    const allocator: LinearMemoryAllocator
    const maxPages: nat          // the module's memory limit, known to the emitted code
    var basedataSize: nat
    var landingPadData: U32

    ghost function View(): Passive
      requires allocator.Valid() && allocator.linMemPages <= maxPages <= MAX_WASM_PAGES
      reads allocator, allocator.virtualMemory
    {
      ViewOf(allocator.View(), maxPages)
    }

    // The basedata holds the page count the allocator was told.
    ghost predicate Valid()
      reads this`basedataSize, allocator, allocator.virtualMemory
    {
      && allocator.Valid()
      && allocator.linMemPages <= maxPages <= MAX_WASM_PAGES
      && LINMEM_WASM_SIZE <= basedataSize <= allocator.pagedBasedataSize
      && allocator.basedataStart + basedataSize == allocator.virtualMemory.data + allocator.pagedBasedataSize
      && Word(allocator.virtualMemory.bytes, allocator.pagedBasedataSize - LINMEM_WASM_SIZE) == allocator.linMemPages
    }

    lemma ViewInv()
      requires Valid()
      ensures Inv(View())
    {
    }

    constructor (allocator: LinearMemoryAllocator, maxPages: nat)
      ensures this.allocator == allocator && this.maxPages == maxPages
    {
      this.allocator, this.maxPages := allocator, maxPages;
      basedataSize, landingPadData := 0, 0;
    }

    // Runtime construction: reserve the region, then Runtime::initializeModule up to the data section.
    method InitializeModule(basedataSize: U32, initialPages: nat, segments: seq<Segment>) returns (r: ProbeResult)
      requires LINMEM_WASM_SIZE <= basedataSize && initialPages <= maxPages <= MAX_WASM_PAGES
      requires allocator.virtualMemory.Valid() && allocator.pagedMemoryLimit < WORD64
      requires AllFit(segments, UINT32_MAX)
      modifies this`basedataSize, allocator
      modifies allocator.virtualMemory`data, allocator.virtualMemory`bytes, allocator.virtualMemory`totalSize
      ensures r == Ok ==> Valid() && AllFit(segments, WASM_PAGE * initialPages)
      ensures r == Ok ==>
        View().lazy.memory == Eager(Loaded(WASM_PAGE * initialPages, segments), initialPages, maxPages)
      ensures r == OutOfBounds ==> !AllFit(segments, WASM_PAGE * initialPages)
      ensures allocator.pagedBasedataSize == PageUp(basedataSize, allocator.virtualMemory.pageBits)
      ensures allocator.virtualMemory.reliable && old(allocator.pagedMemoryLimit) >= allocator.pagedBasedataSize
              + PageUp(Min(HighestEnd(segments), WASM_PAGE * initialPages), allocator.virtualMemory.pageBits)
              ==> r == if AllFit(segments, WASM_PAGE * initialPages) then Ok else OutOfBounds
    {
      var ok := SetUp(basedataSize, initialPages);
      if !ok {
        return AllocationFailure;
      }
      r := LoadDataSegments(segments);
    }

    // The region, and the page count in its basedata.
    method SetUp(basedataSize: U32, initialPages: nat) returns (ok: bool)
      requires LINMEM_WASM_SIZE <= basedataSize && initialPages <= maxPages <= MAX_WASM_PAGES
      requires allocator.virtualMemory.Valid() && allocator.pagedMemoryLimit < WORD64
      modifies this`basedataSize, allocator
      modifies allocator.virtualMemory`data, allocator.virtualMemory`bytes, allocator.virtualMemory`totalSize
      ensures allocator.pagedBasedataSize == PageUp(basedataSize, allocator.virtualMemory.pageBits)
      ensures ok ==> Valid() && allocator.linMemPages == initialPages && allocator.Lin() == []
      ensures ok ==> allocator.pagedMemoryLimit == old(allocator.pagedMemoryLimit)
      ensures allocator.virtualMemory.reliable && allocator.pagedBasedataSize <= old(allocator.pagedMemoryLimit) ==> ok
    {
      ok := allocator.Init(basedataSize, initialPages);
      if !ok {
        return;
      }
      this.basedataSize := basedataSize;
      PublishPages(initialPages);
    }

    // The OS and the limit would grant all that n linear bytes inside the memory need.
    ghost predicate Roomy(n: nat)
      requires Valid()
      reads this, allocator, allocator.virtualMemory
    {
      allocator.virtualMemory.reliable && RoomFor(View(), Min(n, WASM_PAGE * allocator.linMemPages))
    }

    method LoadDataSegments(segments: seq<Segment>) returns (r: ProbeResult)
      requires Valid() && allocator.Lin() == [] && AllFit(segments, UINT32_MAX)
      modifies allocator.virtualMemory`bytes
      ensures Valid() && View() == old(View()).(lazy := View().lazy)
      ensures View().lazy.memory.pages == old(View()).lazy.memory.pages
      ensures r == OutOfBounds ==> !AllFit(segments, WASM_PAGE * allocator.linMemPages)
      ensures r == AllocationFailure ==> !old(Roomy(HighestEnd(segments)))
      ensures r == Ok ==>
                && AllFit(segments, WASM_PAGE * allocator.linMemPages)
                && View().lazy.memory.bytes == Loaded(WASM_PAGE * allocator.linMemPages, segments)
    {
      ghost var size := WASM_PAGE * allocator.linMemPages;
      var maximumDataOffset: nat := 0;
      var i := 0;
      while i < |segments|
        invariant 0 <= i <= |segments|
        invariant Valid() && maximumDataOffset <= View().lazy.usable
        invariant AllFit(segments[..i], size)
        invariant View().lazy.memory.bytes == Loaded(size, segments[..i])
      {
        r, maximumDataOffset := CopySegment(segments[i], maximumDataOffset);
        if r != Ok {
          PageUpMono(Min(End(segments[i]), size), Min(HighestEnd(segments), size), allocator.virtualMemory.pageBits);
          return;
        }
        LoadedNext(size, segments, i);
        i := i + 1;
      }
      assert segments[..i] == segments;
      r := Ok;
    }

    // One round of the data section loop: make room if the segment ends beyond all earlier ones, then memcpy.
    method CopySegment(g: Segment, maximumDataOffset: nat) returns (r: ProbeResult, newMaximum: nat)
      requires Valid() && maximumDataOffset <= View().lazy.usable && End(g) <= UINT32_MAX
      modifies allocator.virtualMemory`bytes
      ensures Valid()
      ensures r == OutOfBounds ==> End(g) > WASM_PAGE * allocator.linMemPages
      ensures r == AllocationFailure ==> !Roomy(End(g))
      ensures r == Ok ==>
                && End(g) <= View().lazy.usable && newMaximum <= View().lazy.usable
                && View().lazy.memory.bytes == Splice(old(View()).lazy.memory.bytes, g.start, g.data)
    {
      newMaximum := maximumDataOffset;
      var maximumSegmentOffset := g.start + |g.data|;
      if maximumSegmentOffset > maximumDataOffset {
        r := Probe(maximumSegmentOffset - 1);
        if r != Ok {
          return;
        }
        newMaximum := maximumSegmentOffset;
      }
      WriteLinear(g.start, g.data);
      r := Ok;
    }

    method PublishPages(pages: U32)
      requires allocator.Valid() && LINMEM_WASM_SIZE <= allocator.pagedBasedataSize
      modifies allocator.virtualMemory`bytes
      ensures allocator.Valid() && allocator.View() == old(allocator.View())
      ensures Word(allocator.virtualMemory.bytes, allocator.pagedBasedataSize - LINMEM_WASM_SIZE) == pages
    {
      var p := allocator.pagedBasedataSize - LINMEM_WASM_SIZE;
      PutWordReads(allocator.virtualMemory.bytes, p, pages);
      allocator.virtualMemory.bytes := PutWord(allocator.virtualMemory.bytes, p, pages);
      assert allocator.Lin() == old(allocator.Lin());
    }

    method WriteLinear(a: nat, data: seq<Byte>)
      requires Valid() && a + |data| <= View().lazy.usable
      modifies allocator.virtualMemory`bytes
      ensures Valid() && View() == old(View()).(lazy := Written(old(View()).lazy, a, data))
    {
      var base := allocator.pagedBasedataSize;
      WrittenPadded(allocator.Lin(), allocator.linMemPages, maxPages, a, data);
      SpliceBehind(allocator.virtualMemory.bytes, base, a, data);
      KeepsPageWord(allocator.virtualMemory.bytes, Splice(allocator.virtualMemory.bytes, base + a, data), base);
      allocator.virtualMemory.bytes := Splice(allocator.virtualMemory.bytes, base + a, data);
    }

    method ReadLinear(a: nat, width: nat) returns (read: seq<Byte>)
      requires Valid() && a + width <= View().lazy.usable
      ensures read == View().lazy.memory.bytes[a..a + width]
    {
      var base := allocator.pagedBasedataSize;
      read := allocator.virtualMemory.bytes[base + a..base + a + width];
      assert allocator.Lin()[a..a + width] == read;
    }

    // unsafe__getLinearMemoryBase, as an address
    function LinearMemoryBase(): nat
      reads this`basedataSize, allocator
    {
      allocator.basedataStart + basedataSize
    }

    method GetLinearMemorySizeInPages() returns (pages: U32)
      requires Valid()
      ensures pages == allocator.linMemPages
    {
      pages := Word(allocator.virtualMemory.bytes, allocator.pagedBasedataSize - LINMEM_WASM_SIZE);
    }

    // Runtime::probeLinearMemory
    method Probe(offset: U32) returns (r: ProbeResult)
      requires Valid()
      modifies allocator.virtualMemory`bytes
      ensures Valid() && PageProbe(old(View()), offset, r, View())
    {
      ghost var m := allocator.View();
      r := ProbeAllocator(offset);
      ProbeLifts(m, maxPages, offset, r, allocator.View());
    }

    method ProbeAllocator(offset: U32) returns (r: ProbeResult)
      requires Valid()
      modifies allocator.virtualMemory`bytes
      ensures Valid() && ProbeStep(old(allocator.View()), offset, r, allocator.View())
    {
      r := allocator.Probe(offset);
      KeepsPageWord(old(allocator.virtualMemory.bytes), allocator.virtualMemory.bytes, allocator.pagedBasedataSize);
    }

    // SignalFunctionWrapper::getOffsetInLinearMemoryAllocation: the region ends 8 GiB and a page behind its start.
    method GetOffsetInLinearMemoryAllocation(faultAddr: nat) returns (offset: int)
      requires Valid()
      ensures
        var start := allocator.virtualMemory.data + allocator.pagedBasedataSize;
        offset == if start <= faultAddr <= start + 0x2_0001_0000 then faultAddr - start else -1
    {
      var linMemStart := LinearMemoryBase();
      var guardEnd := linMemStart + MAX_LINEAR_MEMORY_SIZE + OFFSET_GUARD_REGION_SIZE;
      if faultAddr >= linMemStart && faultAddr <= guardEnd {
        return faultAddr - linMemStart;
      }
      offset := -1;
    }

    // SignalFunctionWrapperUnix::memorySignalHandler for a fault raised by Wasm code
    method MemorySignalHandler(faultAddr: nat) returns (k: FaultKind)
      requires Valid()
      modifies this`landingPadData
      ensures k != LandingPad ==> landingPadData == old(landingPadData)
      ensures
        var start := allocator.virtualMemory.data + allocator.pagedBasedataSize;
        && (k == Unrelated <==> faultAddr < start || start + 0x2_0001_0000 < faultAddr)
        && (k == LandingPad <==> start <= faultAddr < start + 0x1_0000 * allocator.linMemPages)
        && (k == LandingPad ==> landingPadData == faultAddr - start)
      ensures faultAddr > allocator.virtualMemory.data + allocator.virtualMemory.totalSize ==> k == Unrelated
      ensures faultAddr < allocator.virtualMemory.data + allocator.pagedBasedataSize ==> k == Unrelated
    {
      var offset := GetOffsetInLinearMemoryAllocation(faultAddr);
      if offset >= 0 {
        var pages := GetLinearMemorySizeInPages();
        if offset >= WASM_PAGE * pages {
          return OutOfBoundsTrap;
        }
        landingPadData := offset;   // the narrowing to uint32_t loses nothing here
        return LandingPad;
      }
      k := Unrelated;
    }

    // SignalFunctionWrapper::probeLinearMemoryOffset, run from the landing pad; every answer but Ok ends
    // in the trap LINMEM_COULDNOTEXTEND
    method ProbeLinearMemoryOffset() returns (resumed: bool)
      requires Valid() && View().lazy.usable <= landingPadData < WASM_PAGE * allocator.linMemPages
      modifies allocator.virtualMemory`bytes
      ensures Valid() && PageProbe(old(View()), landingPadData, if resumed then Ok else AllocationFailure, View())
    {
      var r := Probe(landingPadData);
      resumed := r == Ok;
    }

    // One fault at an inaccessible byte: trap, or commit its page and let the access be retried.
    method Fault(offset: nat) returns (r: ProbeResult)
      requires Valid() && View().lazy.usable <= offset <= 2 * UINT32_MAX + 8
      modifies this`landingPadData, allocator.virtualMemory`bytes
      ensures Valid() && PageProbe(old(View()), offset, r, View())
    {
      var k := MemorySignalHandler(LinearMemoryBase() + offset);
      if k == OutOfBoundsTrap {
        return OutOfBounds;
      }
      var resumed := ProbeLinearMemoryOffset();
      r := if resumed then Ok else AllocationFailure;
    }

    // An unchecked access to [a, a + width): while some byte is not committed the hardware faults at such
    // a byte, whichever it is.
    method Touch(a: nat, width: nat) returns (r: ProbeResult)
      requires Valid() && 1 <= width <= 8 && a <= 2 * UINT32_MAX
      modifies this`landingPadData, allocator.virtualMemory`bytes
      ensures Valid() && TouchStep(old(View()), a, a + width, r, View())
    {
      ghost var start := View();
      var committed := |allocator.virtualMemory.bytes| - allocator.pagedBasedataSize;
      while committed < a + width
        invariant Valid() && Underway(start, a + width, committed, View())
        decreases a + width - committed
      {
        var fault: nat :| a <= fault < a + width && committed <= fault;
        r, committed := Retry(start, a, a + width, fault, committed);
        if r != Ok {
          return;
        }
      }
      AllTouched(start, a, a + width, committed, View());
      r := Ok;
    }

    // One round of the loop above.
    method Retry(ghost start: Passive, ghost a: nat, ghost n: nat, fault: nat, ghost committed: nat)
      returns (r: ProbeResult, newCommitted: int)
      requires Valid() && a <= fault && committed <= fault < n <= 2 * UINT32_MAX + 8 && start.pageBits <= 16
      requires Underway(start, n, committed, View())
      modifies this`landingPadData, allocator.virtualMemory`bytes
      ensures Valid()
      ensures r != Ok ==> TouchStep(start, a, n, r, View())
      ensures r == Ok ==> committed < newCommitted && Underway(start, n, newCommitted, View())
    {
      ghost var before := View();
      r := Fault(fault);
      FaultInAccess(start, before, a, fault, n, r, View());
      newCommitted := |allocator.virtualMemory.bytes| - allocator.pagedBasedataSize;
    }

    method Load(index: U32, offset: U32, width: nat) returns (obs: Obs)
      requires Valid() && 1 <= width <= 8
      modifies this`landingPadData, allocator.virtualMemory`bytes
      ensures Valid() && LoadStep(old(View()), index + offset, width, obs, View())
    {
      var a := index + offset;
      ghost var s := View();
      var r := Touch(a, width);
      obs := ObsOf(r, Done);
      if r == Ok {
        TouchReaches(s, a, a + width, View());
        var read := ReadLinear(a, width);
        obs := Bytes(read);
      }
      LoadTouched(s, a, width, r, View(), obs);
    }

    method Store(index: U32, offset: U32, data: seq<Byte>) returns (obs: Obs)
      requires Valid() && 1 <= |data| <= 8
      modifies this`landingPadData, allocator.virtualMemory`bytes
      ensures Valid() && StoreStep(old(View()), index + offset, data, obs, View())
    {
      var a := index + offset;
      var r := Touch(a, |data|);
      if r != Ok {
        return ObsOf(r, Done);
      }
      WriteLinear(a, data);
      obs := Done;
    }

    // memory.grow: the allocator is told before the basedata word is exchanged
    method MemoryGrow(delta: U32) returns (obs: Obs)
      requires Valid()
      modifies allocator`linMemPages, allocator.virtualMemory`bytes
      ensures Valid() && GrowStep(old(View()), delta, obs, View())
    {
      var pages := GetLinearMemorySizeInPages();
      var grown := Narrow(pages + delta);
      if grown != pages + delta || grown > maxPages {
        return Pages(UINT32_MAX);
      }
      GrowLifts(allocator.View(), delta, maxPages);
      var _ := allocator.Extend(grown);
      PublishPages(grown);
      obs := Pages(pages);
    }

    method GetLinearMemoryRegion(start: U32, size: U32) returns (obs: Obs)
      requires Valid()
      modifies allocator.virtualMemory`bytes
      ensures Valid() && RegionStep(old(View()), start, size, obs, View())
    {
      if size == 0 {
        return Done;
      }
      var maxAccessedByte := start + size - 1;
      var r := Probe(Narrow(maxAccessedByte));
      obs := ObsOf(r, Done);
    }

    method ShrinkToSize(minimumLength: U32) returns (obs: Obs)
      requires Valid()
      modifies allocator.virtualMemory`bytes
      ensures Valid() && ShrinkToStep(old(View()), minimumLength, obs, View())
    {
      ghost var m := allocator.View();
      var ok := allocator.Shrink(minimumLength);
      ShrinkLifts(m, maxPages, minimumLength, ok, allocator.View());
      KeepsPageWord(old(allocator.virtualMemory.bytes), allocator.virtualMemory.bytes, allocator.pagedBasedataSize);
      obs := Done;
    }

    method SetMaxRam(maxRam: nat) returns (obs: Obs)
      requires Valid() && maxRam < WORD64
      modifies allocator`pagedMemoryLimit
      ensures Valid() && LimitStep(old(View()), maxRam, obs, View())
    {
      var ok := allocator.SetMemoryLimit(maxRam);
      obs := if ok then Done else Refused;
    }

    // Any one of the host's calls, any one of the emitted code's operations, and then any operation at all.

    method PerformHost(op: Op) returns (obs: Obs)
      requires Valid() && WellFormed(op) && (op.SetMaxRam? ==> op.maxRam < WORD64)
      requires op.HostRegion? || op.ShrinkTo? || op.SetMaxRam?
      modifies allocator`pagedMemoryLimit, allocator.virtualMemory`bytes
      ensures Valid() && OpStep(old(View()), op, obs, View())
    {
      match op {
        case HostRegion(start, size) => obs := GetLinearMemoryRegion(start, size);
        case ShrinkTo(n) => obs := ShrinkToSize(n);
        case SetMaxRam(maxRam) => obs := SetMaxRam(maxRam);
      }
    }

    method PerformLoad(op: Op) returns (obs: Obs)
      requires Valid() && WellFormed(op) && op.Load?
      modifies this`landingPadData, allocator.virtualMemory`bytes
      ensures Valid() && OpStep(old(View()), op, obs, View())
    {
      obs := Load(op.index, op.offset, op.width);
    }

    method PerformStore(op: Op) returns (obs: Obs)
      requires Valid() && WellFormed(op) && op.Store?
      modifies this`landingPadData, allocator.virtualMemory`bytes
      ensures Valid() && OpStep(old(View()), op, obs, View())
    {
      obs := Store(op.index, op.offset, op.data);
    }

    method Perform(op: Op) returns (obs: Obs)
      requires Valid() && WellFormed(op) && (op.SetMaxRam? ==> op.maxRam < WORD64)
      modifies this`landingPadData, allocator`linMemPages, allocator`pagedMemoryLimit, allocator.virtualMemory`bytes
      ensures Valid() && OpStep(old(View()), op, obs, View())
    {
      if op.MemoryGrow? {
        obs := MemoryGrow(op.delta);
      } else if op.Load? {
        obs := PerformLoad(op);
      } else if op.Store? {
        obs := PerformStore(op);
      } else {
        obs := PerformHost(op);
      }
    }
  }

  // The allocator's probe and shrink, seen through the padded memory.

  lemma ProbeLifts(m: Manager, maxPages: nat, offset: U32, r: ProbeResult, m': Manager)
    requires InBounds(m) && InBounds(m') && m.pages <= maxPages <= MAX_WASM_PAGES
    requires ProbeStep(m, offset, r, m')
    ensures m'.pages == m.pages && PageProbe(ViewOf(m, maxPages), offset, r, ViewOf(m', maxPages))
  {
    if r == Ok {
      SamePadded(m.lin, m'.lin, m.pages, maxPages);
    }
  }

  lemma GrowLifts(m: Manager, delta: U32, maxPages: nat)
    requires InBounds(m) && m.pages + delta <= maxPages <= MAX_WASM_PAGES
    ensures GrowStep(ViewOf(m, maxPages), delta, Pages(m.pages), ViewOf(m.(pages := m.pages + delta), maxPages))
  {
    GrownPadded(m.lin, m.pages, delta, maxPages);
  }

  lemma ShrinkLifts(m: Manager, maxPages: nat, n: U32, ok: bool, m': Manager)
    requires InBounds(m) && InBounds(m') && m.pages <= maxPages <= MAX_WASM_PAGES
    requires ShrinkStep(m, n, ok, m')
    ensures m'.pages == m.pages && ShrinkToStep(ViewOf(m, maxPages), n, Done, ViewOf(m', maxPages))
  {
    var keep := PageDown(n, m.pageBits);
    if ok {
      ShrunkPadded(m.lin, m.pages, maxPages, keep);
    } else {
      PageDownIsGreatest(n, m.pageBits, |m.lin|);
      ShrunkPadded(m.lin, m.pages, maxPages, |m.lin|);
      assert m.lin[..|m.lin|] == m.lin;
    }
  }

  // Every fault of an access commits a page of that access that is allowed, or ends the access.
  lemma FaultInAccess(start: Passive, s: Passive, a: nat, fault: nat, n: nat, r: ProbeResult, s': Passive)
    requires Inv(s) && Inv(s')
    requires s.lazy.usable <= fault < n < WORD64 - 0x1_0000 && a <= fault && start.pageBits <= 16
    requires Underway(start, n, s.lazy.usable, s) && PageProbe(s, fault, r, s')
    ensures r != Ok ==> TouchStep(start, a, n, r, s')
    ensures r == Ok ==> fault < s'.lazy.usable && Underway(start, n, s'.lazy.usable, s')
  {
    if r != OutOfBounds {
      PageOfFault(s, fault, n);
    }
  }

  // The page a fault commits reaches past the faulting byte, but not past the allowed pages or the
  // last page of the access.
  lemma PageOfFault(s: Passive, fault: nat, n: nat)
    requires Inv(s) && fault < WASM_PAGE * s.lazy.memory.pages && fault < n < WORD64 - 0x1_0000
    ensures fault < PageUp(fault + 1, s.pageBits) <= WASM_PAGE * s.lazy.memory.pages
    ensures PageUp(fault + 1, s.pageBits) <= PageUp(Min(n, WASM_PAGE * s.lazy.memory.pages), s.pageBits)
    ensures PageUp(fault + 1, s.pageBits) <= PageUp(n, s.pageBits)
  {
    WasmPagesAligned(s.lazy.memory.pages, s.pageBits);
    PageUpIsLeast(fault + 1, s.pageBits, WASM_PAGE * s.lazy.memory.pages);
    PageUpIsLeast(fault + 1, s.pageBits, PageUp(Min(n, WASM_PAGE * s.lazy.memory.pages), s.pageBits));
    PageUpIsLeast(fault + 1, s.pageBits, PageUp(n, s.pageBits));
  }

  lemma AllTouched(start: Passive, a: nat, n: nat, committed: int, s: Passive)
    requires start.pageBits <= 16 && n <= WORD64 - 0x1_0000 && Underway(start, n, committed, s) && n <= committed
    ensures TouchStep(start, a, n, Ok, s)
  {
    AlignedReach(s, n);
  }

  lemma TouchReaches(s: Passive, a: nat, n: nat, s': Passive)
    requires s.pageBits <= 16 && n <= WORD64 - 0x1_0000 && TouchStep(s, a, n, Ok, s')
    ensures n <= s'.lazy.usable
  {
  }

  lemma LoadTouched(s: Passive, a: nat, width: nat, r: ProbeResult, s': Passive, obs: Obs)
    requires Inv(s) && width > 0 && a + width <= WORD64 - 0x1_0000 && TouchStep(s, a, a + width, r, s')
    requires r != Ok ==> obs == ObsOf(r, Done)
    requires r == Ok ==> a + width <= |s'.lazy.memory.bytes| && obs == Bytes(s'.lazy.memory.bytes[a..a + width])
    ensures LoadStep(s, a, width, obs, s')
  {
  }

  lemma AlignedReach(s: Passive, n: nat)
    requires Inv(s) && n <= s.lazy.usable && n <= WORD64 - 0x1_0000
    ensures PageUp(n, s.pageBits) <= s.lazy.usable
  {
    PageUpIsLeast(n, s.pageBits, s.lazy.usable);
  }

  lemma KeepsPageWord(s: seq<Byte>, t: seq<Byte>, paged: nat)
    requires LINMEM_WASM_SIZE <= paged <= |s| && paged <= |t| && s[..paged] == t[..paged]
    ensures Word(s, paged - LINMEM_WASM_SIZE) == Word(t, paged - LINMEM_WASM_SIZE)
  {
    var p := paged - LINMEM_WASM_SIZE;
    assert s[p..p + 4] == s[..paged][p..p + 4] && t[p..p + 4] == t[..paged][p..p + 4];
  }
}
