// The Runtime entry points in active mode, and the accesses of the emitted code.
module ActiveRuntime {
  import opened Bytes
  import opened EagerMemory
  import opened LazyMemory
  import opened ActiveMemory

  // Basedata words, counted back from the start of the linear memory (x86-64, interruption requests on).
  const LINMEM_WASM_SIZE: nat := 12
  const ACTUAL_LINMEM_BYTE_SIZE: nat := 16

  datatype Active = Active(
    lazy: Lazy,
    allowedPages: nat,
    basedataSize: nat,
    blockSize: nat,
    maxRam: nat,
    reliable: bool)

  // Usable bytes are allowed bytes and fit the block; the manager's page count may lag behind memory.grow.
  ghost predicate Inv(s: Active) {
    && LazyInv(s.lazy)
    && s.allowedPages <= s.lazy.memory.pages
    && s.lazy.usable <= WASM_PAGE * s.allowedPages
    && s.basedataSize + s.lazy.usable <= s.blockSize < WORD32
  }

  // The manager's state seen through the page count in the basedata.
  ghost function ViewOf(m: Manager, pages: nat, maxPages: nat): (s: Active)
    requires |m.lin| <= WASM_PAGE * pages && pages <= maxPages <= MAX_WASM_PAGES
  {
    Active(Padded(m.lin, pages, maxPages), m.allowedPages, m.basedataSize, m.blockSize, m.maxRam, m.reliable)
  }

  predicate HasRoom(s: Active, n: nat) {
    var total := Rounded(s.basedataSize + n);
    total <= UINT32_MAX && (total <= s.blockSize || total <= s.maxRam)
  }

  ghost function Refreshed(s: Active): Active {
    s.(allowedPages := s.lazy.memory.pages)
  }

  // Bounds are those of the pages in the basedata, whatever the manager knew before.
  ghost predicate RefreshedProbe(s: Active, offset: U32, r: ProbeResult, s': Active) {
    var seen := Refreshed(s);
    if offset < s.lazy.usable then r == Ok && s' == seen
    else if offset >= WASM_PAGE * s.lazy.memory.pages then r == OutOfBounds && s' == seen
    else if offset == UINT32_MAX then r == Ok && s' == seen     // offset + 1 wraps to 0: nothing is exposed
    else if r == Ok then
      && HasRoom(s, offset + 1)
      && s' == seen.(lazy := s.lazy.(usable := offset + 1), blockSize := s'.blockSize)
      && s.blockSize <= s'.blockSize && s.basedataSize + offset + 1 <= s'.blockSize < WORD32
    else r == AllocationFailure && s' == seen && (s.reliable ==> !HasRoom(s, offset + 1))
  }

  // Emitted code compares the end n of the access with the cached usable size and asks the runtime
  // for more only beyond it.
  ghost predicate AccessStep(s: Active, n: nat, r: ProbeResult, s': Active) {
    if n <= s.lazy.usable then r == Ok && s' == s
    else if n + s.basedataSize > UINT32_MAX then r == AllocationFailure && s' == s
    else RefreshedProbe(s, n - 1, r, s')
  }

  ghost predicate LoadStep(s: Active, a: nat, width: nat, obs: Obs, s': Active) {
    AccessStep(s, a + width, ResultOf(obs), s') && LazyLoad(s.lazy, a, width, obs, s'.lazy)
  }

  ghost predicate StoreStep(s: Active, a: nat, data: seq<Byte>, obs: Obs, s': Active) {
    && AccessStep(s, a + |data|, ResultOf(obs), s'.(lazy := s.lazy.(usable := s'.lazy.usable)))
    && LazyStore(s.lazy, a, data, obs, s'.lazy)
  }

  ghost predicate GrowStep(s: Active, delta: U32, obs: Obs, s': Active) {
    LazyGrow(s.lazy, delta, obs, s'.lazy) && s' == s.(lazy := s'.lazy)
  }

  ghost predicate RegionStep(s: Active, start: U32, size: U32, obs: Obs, s': Active) {
    if size == 0 then obs == Done && s' == s
    else obs == ObsOf(ResultOf(obs), Done) && RefreshedProbe(s, Narrow(start + size - 1), ResultOf(obs), s')
  }

  ghost predicate ShrinkToStep(s: Active, n: U32, obs: Obs, s': Active) {
    && LazyShrink(s.lazy, n, n, obs, s'.lazy) && (obs == Refused <==> n > s.lazy.usable)
    && s' == s.(lazy := s'.lazy, blockSize := s'.blockSize)
    && s.basedataSize + s'.lazy.usable <= s'.blockSize < WORD32
    && (obs == Done && s.reliable && Rounded(s.basedataSize + n) <= s.maxRam ==>
      s'.blockSize <= Max(512, Rounded(s.basedataSize + n)) + 4096)
  }

  // A limit below the current use is refused.
  ghost predicate LimitStep(s: Active, maxRam: nat, obs: Obs, s': Active) {
    if maxRam < s.basedataSize + s.lazy.usable then obs == Refused && s' == s
    else obs == Done && s' == s.(maxRam := maxRam)
  }

  ghost predicate OpStep(s: Active, op: Op, obs: Obs, s': Active) {
    match op
    case MemoryGrow(delta) => GrowStep(s, delta, obs, s')
    case Load(index, offset, width) => LoadStep(s, index + offset, width, obs, s')
    case Store(index, offset, data) => StoreStep(s, index + offset, data, obs, s')
    case HostRegion(start, size) => RegionStep(s, start, size, obs, s')
    case ShrinkTo(n) => ShrinkToStep(s, n, obs, s')
    case SetMaxRam(maxRam) => LimitStep(s, maxRam, obs, s')
  }

  datatype ExtensionAnswer = MemoryBase | NoMemory | AllOnes

  function ProbeAnswer(answer: ExtensionAnswer): ProbeResult {
    match answer
    case MemoryBase => Ok
    case NoMemory => AllocationFailure
    case AllOnes => OutOfBounds
  }

  class Runtime {
    const memoryManager: ActiveMemoryManager
    const maxPages: nat          // the module's memory limit, known to the emitted code
    ghost var wasmPages: nat

    ghost function View(): Active
      requires memoryManager.Valid()
      requires memoryManager.usableLinMemBytes <= WASM_PAGE * wasmPages && wasmPages <= maxPages <= MAX_WASM_PAGES
      reads this, memoryManager, memoryManager.jobMemory
    {
      ViewOf(memoryManager.View(), wasmPages, maxPages)
    }

    // The basedata caches the usable size and holds the page count memory.grow works on.
    ghost predicate Valid()
      reads this, memoryManager, memoryManager.jobMemory
    {
      && memoryManager.Valid()
      && memoryManager.allowedLinMemPages <= wasmPages <= maxPages <= MAX_WASM_PAGES
      && memoryManager.usableLinMemBytes <= WASM_PAGE * memoryManager.allowedLinMemPages
      && ACTUAL_LINMEM_BYTE_SIZE <= memoryManager.basedataSize
      && BasedataWord(ACTUAL_LINMEM_BYTE_SIZE) == memoryManager.usableLinMemBytes
      && BasedataWord(LINMEM_WASM_SIZE) == wasmPages
    }

    // The cached usable size is right, whatever the page count says.
    ghost predicate Linked()
      reads memoryManager, memoryManager.jobMemory
    {
      && memoryManager.Valid()
      && ACTUAL_LINMEM_BYTE_SIZE <= memoryManager.basedataSize
      && BasedataWord(ACTUAL_LINMEM_BYTE_SIZE) == memoryManager.usableLinMemBytes
    }

    // A module without memory: its page count is the encoding of "none", and the manager was told of no pages.
    ghost predicate WithoutMemory()
      reads memoryManager, memoryManager.jobMemory
    {
      Linked() && BasedataWord(LINMEM_WASM_SIZE) == UINT32_MAX
    }

    // The basedata word that lies this many bytes before the linear memory.
    ghost function BasedataWord(fromEnd: nat): U32
      requires memoryManager.Valid() && 4 <= fromEnd <= memoryManager.basedataSize
      reads memoryManager, memoryManager.jobMemory
    {
      Word(memoryManager.Basedata(), memoryManager.basedataSize - fromEnd)
    }

    lemma ViewInv()
      requires Valid()
      ensures Inv(View())
    {
    }

    constructor (memoryManager: ActiveMemoryManager, maxPages: nat)
      ensures this.memoryManager == memoryManager && this.maxPages == maxPages
    {
      this.memoryManager, this.maxPages := memoryManager, maxPages;
      wasmPages := 0;
    }

    // Runtime construction: set up the manager, then Runtime::initializeModule up to the data section.
    // A segment that does not fit, or cannot be housed, aborts the construction.
    method InitializeModule(basedataSize: U32, initialPages: nat, segments: seq<Segment>) returns (r: ProbeResult)
      requires ACTUAL_LINMEM_BYTE_SIZE <= basedataSize && memoryManager.jobMemory.Valid()
      requires initialPages <= maxPages <= MAX_WASM_PAGES
      requires AllFit(segments, UINT32_MAX)
      modifies this`wasmPages, memoryManager, memoryManager.jobMemory`data, memoryManager.jobMemory`calls
      modifies memoryManager.jobMemory`bytes
      ensures r == Ok ==> Valid() && AllFit(segments, WASM_PAGE * initialPages)
      ensures r == Ok ==>
        View().lazy.memory == Eager(Loaded(WASM_PAGE * initialPages, segments), initialPages, maxPages)
      ensures r == OutOfBounds ==> !AllFit(segments, WASM_PAGE * initialPages)
      ensures memoryManager.jobMemory.reliable &&
              Grantable(basedataSize + Min(HighestEnd(segments), WASM_PAGE * initialPages),
                        memoryManager.jobMemory.maxRam)
              ==> r == if AllFit(segments, WASM_PAGE * initialPages) then Ok else OutOfBounds
    {
      var ok := SetUp(basedataSize, initialPages);
      if !ok {
        return AllocationFailure;
      }
      r := LoadDataSegments(segments);
      if r != Ok {
        return;
      }
      PublishUsableSize();
    }

    // Runtime construction for a module without memory, whose initial size is encoded as 0xFFFFFFFF.
    method InitializeWithoutMemory(basedataSize: U32) returns (ok: bool)
      requires ACTUAL_LINMEM_BYTE_SIZE <= basedataSize && memoryManager.jobMemory.Valid()
      modifies this`wasmPages, memoryManager, memoryManager.jobMemory`data, memoryManager.jobMemory`calls
      modifies memoryManager.jobMemory`bytes
      ensures ok ==> WithoutMemory() && memoryManager.allowedLinMemPages == 0 && memoryManager.Lin() == []
      ensures ok ==> memoryManager.basedataSize == basedataSize
      ensures memoryManager.jobMemory.reliable && Grantable(basedataSize, memoryManager.jobMemory.maxRam) ==> ok
    {
      ok := memoryManager.Init(basedataSize, 0);
      if !ok {
        return;
      }
      PublishPages(UINT32_MAX);
      PublishUsableSize();
    }

    // The block, and the page count in its basedata.
    method SetUp(basedataSize: U32, initialPages: nat) returns (ok: bool)
      requires ACTUAL_LINMEM_BYTE_SIZE <= basedataSize && memoryManager.jobMemory.Valid()
      requires initialPages <= maxPages <= MAX_WASM_PAGES
      modifies this`wasmPages, memoryManager, memoryManager.jobMemory`data, memoryManager.jobMemory`calls
      modifies memoryManager.jobMemory`bytes
      ensures ok ==> memoryManager.Valid() && memoryManager.basedataSize == basedataSize && wasmPages == initialPages
      ensures ok ==> memoryManager.usableLinMemBytes == 0 && memoryManager.allowedLinMemPages == initialPages
      ensures ok ==> BasedataWord(LINMEM_WASM_SIZE) == initialPages
      ensures memoryManager.jobMemory.reliable && Grantable(basedataSize, memoryManager.jobMemory.maxRam) ==> ok
    {
      ok := memoryManager.Init(basedataSize, initialPages);
      if !ok {
        return;
      }
      PublishPages(initialPages);
    }

    // The host would grant all that n linear bytes inside the memory need.
    ghost predicate Roomy(n: nat)
      reads memoryManager, memoryManager.jobMemory
    {
      && memoryManager.jobMemory.reliable
      && Grantable(memoryManager.basedataSize + Min(n, WASM_PAGE * memoryManager.allowedLinMemPages),
                   memoryManager.jobMemory.maxRam)
    }

    method LoadDataSegments(segments: seq<Segment>) returns (r: ProbeResult)
      requires memoryManager.Valid() && memoryManager.usableLinMemBytes == 0 && AllFit(segments, UINT32_MAX)
      modifies memoryManager`basedataStart, memoryManager`usableLinMemBytes, memoryManager.jobMemory`data
      modifies memoryManager.jobMemory`calls
      modifies memoryManager.jobMemory`bytes
      ensures memoryManager.Valid() && memoryManager.Basedata() == old(memoryManager.Basedata())
      ensures r == OutOfBounds ==> !AllFit(segments, WASM_PAGE * memoryManager.allowedLinMemPages)
      ensures r == AllocationFailure ==> !Roomy(HighestEnd(segments))
      ensures r == Ok ==>
                var size := WASM_PAGE * memoryManager.allowedLinMemPages;
                && AllFit(segments, size)
                && memoryManager.usableLinMemBytes <= size
                && memoryManager.Lin() + Zeros(size - memoryManager.usableLinMemBytes) == Loaded(size, segments)
    {
      ghost var size := WASM_PAGE * memoryManager.allowedLinMemPages;
      var maximumDataOffset := 0;
      var i := 0;
      while i < |segments|
        invariant 0 <= i <= |segments|
        invariant memoryManager.Valid() && memoryManager.Basedata() == old(memoryManager.Basedata())
        invariant maximumDataOffset == memoryManager.usableLinMemBytes
        invariant Holds(memoryManager.Lin(), size, segments[..i])
      {
        r, maximumDataOffset := CopyNext(segments, i, maximumDataOffset);
        if r != Ok {
          return;
        }
        i := i + 1;
      }
      assert segments[..i] == segments;
      r := Ok;
    }

    // One round of the data section loop.
    method CopyNext(segments: seq<Segment>, i: nat, maximumDataOffset: nat) returns (r: ProbeResult, newMaximum: nat)
      requires i < |segments| && AllFit(segments, UINT32_MAX)
      requires memoryManager.Valid() && maximumDataOffset == memoryManager.usableLinMemBytes
      requires Holds(memoryManager.Lin(), WASM_PAGE * memoryManager.allowedLinMemPages, segments[..i])
      modifies memoryManager`basedataStart, memoryManager`usableLinMemBytes
      modifies memoryManager.jobMemory`data, memoryManager.jobMemory`calls, memoryManager.jobMemory`bytes
      ensures memoryManager.Valid() && memoryManager.Basedata() == old(memoryManager.Basedata())
      ensures r == OutOfBounds ==> !AllFit(segments, WASM_PAGE * memoryManager.allowedLinMemPages)
      ensures r == AllocationFailure ==> !Roomy(HighestEnd(segments))
      ensures r == Ok ==> newMaximum == memoryManager.usableLinMemBytes
      ensures r == Ok ==> Holds(memoryManager.Lin(), WASM_PAGE * memoryManager.allowedLinMemPages, segments[..i + 1])
    {
      ghost var lin := memoryManager.Lin();
      r, newMaximum := CopySegment(segments[i], maximumDataOffset);
      if r == Ok {
        SegmentCopied(lin, segments, i, WASM_PAGE * memoryManager.allowedLinMemPages);
      } else {
        assert End(segments[i]) <= HighestEnd(segments);
      }
    }

    // Make room if the segment ends beyond all earlier ones, then memcpy.
    method CopySegment(g: Segment, maximumDataOffset: nat) returns (r: ProbeResult, newMaximum: nat)
      requires memoryManager.Valid() && maximumDataOffset == memoryManager.usableLinMemBytes
      requires maximumDataOffset <= WASM_PAGE * memoryManager.allowedLinMemPages && End(g) <= UINT32_MAX
      modifies memoryManager`basedataStart, memoryManager`usableLinMemBytes, memoryManager.jobMemory`data
      modifies memoryManager.jobMemory`calls
      modifies memoryManager.jobMemory`bytes
      ensures memoryManager.Valid() && memoryManager.Basedata() == old(memoryManager.Basedata())
      ensures r == OutOfBounds ==> End(g) > WASM_PAGE * memoryManager.allowedLinMemPages
      ensures r == AllocationFailure ==> !Roomy(End(g))
      ensures r == Ok ==>
                && End(g) <= WASM_PAGE * memoryManager.allowedLinMemPages
                && newMaximum == memoryManager.usableLinMemBytes == Max(maximumDataOffset, End(g))
                && memoryManager.Lin() == Splice(Extended(old(memoryManager.Lin()), End(g)), g.start, g.data)
    {
      r, newMaximum := HouseSegment(g, maximumDataOffset);
      if r == Ok {
        CopyIn(g.start, g.data);
      }
    }

    method HouseSegment(g: Segment, maximumDataOffset: nat) returns (r: ProbeResult, newMaximum: nat)
      requires memoryManager.Valid() && maximumDataOffset == memoryManager.usableLinMemBytes
      requires maximumDataOffset <= WASM_PAGE * memoryManager.allowedLinMemPages && End(g) <= UINT32_MAX
      modifies memoryManager`basedataStart, memoryManager`usableLinMemBytes
      modifies memoryManager.jobMemory`data, memoryManager.jobMemory`calls, memoryManager.jobMemory`bytes
      ensures memoryManager.Valid() && memoryManager.Basedata() == old(memoryManager.Basedata())
      ensures r == OutOfBounds ==> End(g) > WASM_PAGE * memoryManager.allowedLinMemPages
      ensures r == AllocationFailure ==> !Roomy(End(g))
      ensures r == Ok ==>
                && End(g) <= WASM_PAGE * memoryManager.allowedLinMemPages
                && newMaximum == memoryManager.usableLinMemBytes == Max(maximumDataOffset, End(g))
                && memoryManager.Lin() == Extended(old(memoryManager.Lin()), End(g))
    {
      newMaximum, r := maximumDataOffset, Ok;
      var maximumSegmentOffset := g.start + |g.data|;
      if maximumSegmentOffset > maximumDataOffset {
        r := memoryManager.Probe(maximumSegmentOffset - 1);
        if r == Ok {
          newMaximum := maximumSegmentOffset;
        }
      }
    }

    // memcpy to the linear memory
    method CopyIn(a: nat, data: seq<Byte>)
      requires memoryManager.Valid() && a + |data| <= memoryManager.usableLinMemBytes
      modifies memoryManager.jobMemory`bytes
      ensures memoryManager.Valid() && memoryManager.Basedata() == old(memoryManager.Basedata())
      ensures memoryManager.View() == old(memoryManager.View()).(lin := Splice(old(memoryManager.Lin()), a, data))
    {
      var base := memoryManager.basedataSize;
      memoryManager.jobMemory.bytes := Splice(memoryManager.jobMemory.bytes, base + a, data);
      assert memoryManager.Lin() == Splice(old(memoryManager.Lin()), a, data);
    }

    method ReadWord(fromEnd: nat) returns (v: U32)
      requires memoryManager.Valid() && 4 <= fromEnd <= memoryManager.basedataSize
      ensures v == BasedataWord(fromEnd)
    {
      var p := memoryManager.basedataSize - fromEnd;
      assert memoryManager.Basedata()[p..p + 4] == memoryManager.jobMemory.bytes[p..p + 4];
      v := Word(memoryManager.jobMemory.bytes, p);
    }

    method WriteWord(fromEnd: nat, v: U32)
      requires memoryManager.Valid() && 4 <= fromEnd <= memoryManager.basedataSize
      modifies memoryManager.jobMemory`bytes
      ensures memoryManager.Valid() && memoryManager.View() == old(memoryManager.View())
      ensures memoryManager.Basedata()
        == PutWord(old(memoryManager.Basedata()), memoryManager.basedataSize - fromEnd, v)
    {
      var p := memoryManager.basedataSize - fromEnd;
      memoryManager.jobMemory.bytes := PutWord(memoryManager.jobMemory.bytes, p, v);
      assert memoryManager.Lin() == old(memoryManager.Lin());
    }

    // Write the manager's usable size to the basedata, where the emitted code looks it up.
    method PublishUsableSize()
      requires memoryManager.Valid() && ACTUAL_LINMEM_BYTE_SIZE <= memoryManager.basedataSize
      modifies memoryManager.jobMemory`bytes
      ensures memoryManager.Valid() && memoryManager.View() == old(memoryManager.View())
      ensures BasedataWord(ACTUAL_LINMEM_BYTE_SIZE) == memoryManager.usableLinMemBytes
      ensures BasedataWord(LINMEM_WASM_SIZE) == old(BasedataWord(LINMEM_WASM_SIZE))
    {
      PutWordReads(memoryManager.Basedata(), memoryManager.basedataSize - ACTUAL_LINMEM_BYTE_SIZE,
        memoryManager.usableLinMemBytes);
      WriteWord(ACTUAL_LINMEM_BYTE_SIZE, memoryManager.usableLinMemBytes);
    }

    method PublishPages(pages: U32)
      requires memoryManager.Valid() && ACTUAL_LINMEM_BYTE_SIZE <= memoryManager.basedataSize
      modifies this`wasmPages, memoryManager.jobMemory`bytes
      ensures memoryManager.Valid() && memoryManager.View() == old(memoryManager.View())
      ensures BasedataWord(LINMEM_WASM_SIZE) == pages == wasmPages
      ensures BasedataWord(ACTUAL_LINMEM_BYTE_SIZE) == old(BasedataWord(ACTUAL_LINMEM_BYTE_SIZE))
    {
      PutWordReads(memoryManager.Basedata(), memoryManager.basedataSize - LINMEM_WASM_SIZE, pages);
      WriteWord(LINMEM_WASM_SIZE, pages);
      wasmPages := pages;
    }

    // Refresh the page count from the basedata, probe, and publish the usable size.
    method ProbePublished(offset: U32) returns (r: ProbeResult)
      requires Linked()
      modifies memoryManager, memoryManager.jobMemory`data, memoryManager.jobMemory`calls, memoryManager.jobMemory`bytes
      ensures Linked() && memoryManager.basedataSize == old(memoryManager.basedataSize)
      ensures BasedataWord(LINMEM_WASM_SIZE) == old(BasedataWord(LINMEM_WASM_SIZE))
      ensures ProbeStep(old(memoryManager.View()).(allowedPages := old(BasedataWord(LINMEM_WASM_SIZE))), offset, r,
        memoryManager.View())
    {
      var pages := ReadWord(LINMEM_WASM_SIZE);
      var _ := memoryManager.Extend(pages);
      r := memoryManager.Probe(offset);
      if r == Ok {
        PublishUsableSize();
      }
    }

    // The same, of a module with memory, whose manager may lag behind, and of one without.
    method ProbeRefreshed(offset: U32) returns (r: ProbeResult)
      requires Valid() || WithoutMemory()
      modifies memoryManager, memoryManager.jobMemory`data, memoryManager.jobMemory`calls, memoryManager.jobMemory`bytes
      ensures memoryManager.Valid() && memoryManager.basedataSize == old(memoryManager.basedataSize)
      ensures old(Valid()) ==> Valid() && RefreshedProbe(old(View()), offset, r, View())
      ensures old(WithoutMemory()) ==> WithoutMemory()
      ensures old(WithoutMemory()) ==>
                ProbeStep(old(memoryManager.View()).(allowedPages := UINT32_MAX), offset, r, memoryManager.View())
    {
      ghost var m := memoryManager.View();
      r := ProbePublished(offset);
      if old(Valid()) {
        ProbeLifts(m, wasmPages, maxPages, offset, r, memoryManager.View());
      }
    }

    // Runtime::handleExtensionRequest
    method HandleExtensionRequest(minLinMemLengthNeeded: nat, basedataLength: nat) returns (answer: ExtensionAnswer)
      requires Valid() && basedataLength == memoryManager.basedataSize
      modifies memoryManager, memoryManager.jobMemory`data, memoryManager.jobMemory`calls, memoryManager.jobMemory`bytes
      ensures Valid() && memoryManager.basedataSize == old(memoryManager.basedataSize)
      ensures minLinMemLengthNeeded + basedataLength > UINT32_MAX ==> answer == NoMemory && View() == old(View())
      ensures minLinMemLengthNeeded == 0 && basedataLength <= UINT32_MAX ==>
        answer == MemoryBase && View() == old(View())
      ensures 0 < minLinMemLengthNeeded <= UINT32_MAX - basedataLength ==>
                RefreshedProbe(old(View()), minLinMemLengthNeeded - 1, ProbeAnswer(answer), View())
    {
      if minLinMemLengthNeeded + basedataLength > UINT32_MAX {
        return NoMemory;
      }
      if minLinMemLengthNeeded == 0 {
        return MemoryBase;
      }
      var probeResult := ProbeRefreshed(minLinMemLengthNeeded - 1);
      answer := match probeResult
        case OutOfBounds => AllOnes
        case AllocationFailure => NoMemory
        case Ok => MemoryBase;
    }

    // The bounds check in front of every emitted access. Eight bytes of any access fit behind an address that is
    // eight below the cached size; beyond that the stub compares the end of the access with the cached size itself,
    // and asks the runtime only if it is still too small.
    method Access(a: nat, width: nat) returns (r: ProbeResult)
      requires Valid() && 1 <= width <= 8
      modifies memoryManager, memoryManager.jobMemory`data, memoryManager.jobMemory`calls, memoryManager.jobMemory`bytes
      ensures Valid() && memoryManager.basedataSize == old(memoryManager.basedataSize)
      ensures AccessStep(old(View()), a + width, r, View())
    {
      var cached := ReadWord(ACTUAL_LINMEM_BYTE_SIZE);
      var memSize := cached as int - 8;
      if memSize >= a || memSize + 8 >= a + width {
        return Ok;
      }
      var answer := HandleExtensionRequest(a + width, memoryManager.basedataSize);
      r := ProbeAnswer(answer);
    }

    method Load(index: U32, offset: U32, width: nat) returns (obs: Obs)
      requires Valid() && 1 <= width <= 8
      modifies memoryManager, memoryManager.jobMemory`data, memoryManager.jobMemory`calls, memoryManager.jobMemory`bytes
      ensures Valid() && LoadStep(old(View()), index + offset, width, obs, View())
    {
      var a := index + offset;
      ghost var s := View();
      var r := Access(a, width);
      obs := LoadChecked(a, width, r, s);
    }

    // The access itself, if the bounds check let it through.
    method LoadChecked(a: nat, width: nat, r: ProbeResult, ghost s: Active) returns (obs: Obs)
      requires Valid() && 1 <= width <= 8 && Inv(s) && AccessStep(s, a + width, r, View())
      ensures LoadStep(s, a, width, obs, View())
    {
      AccessReaches(s, a + width, r, View());
      obs := ObsOf(r, Done);
      if r == Ok {
        var read := ReadLinear(a, width);
        obs := Bytes(read);
      }
      LoadAnswered(s, a, width, r, View(), obs);
    }

    method ReadLinear(a: nat, width: nat) returns (read: seq<Byte>)
      requires Valid() && a + width <= memoryManager.usableLinMemBytes
      ensures read == View().lazy.memory.bytes[a..a + width]
    {
      var base := memoryManager.basedataSize;
      read := memoryManager.jobMemory.bytes[base + a..base + a + width];
      assert read == memoryManager.Lin()[a..a + width];
      PaddedPrefix(memoryManager.Lin(), wasmPages, maxPages, a, width);
    }

    method Store(index: U32, offset: U32, data: seq<Byte>) returns (obs: Obs)
      requires Valid() && 1 <= |data| <= 8
      modifies memoryManager, memoryManager.jobMemory`data, memoryManager.jobMemory`calls, memoryManager.jobMemory`bytes
      ensures Valid() && StoreStep(old(View()), index + offset, data, obs, View())
    {
      ghost var s := View();
      ViewInv();
      var r := Access(index + offset, |data|);
      StoreChecked(index + offset, data, r, s);
      obs := ObsOf(r, Done);
    }

    // The access itself, if the bounds check let it through.
    method StoreChecked(a: nat, data: seq<Byte>, r: ProbeResult, ghost s: Active)
      requires Valid() && 1 <= |data| <= 8 && Inv(s) && AccessStep(s, a + |data|, r, View())
      modifies memoryManager.jobMemory`bytes
      ensures Valid() && StoreStep(s, a, data, ObsOf(r, Done), View())
    {
      ghost var reached := View();
      AccessReaches(s, a + |data|, r, reached);
      if r == Ok {
        WriteLinear(a, data);
        WriteAfterAccess(s, a, data, reached);
      } else {
        FailedAccess(s, a, data, r, reached);
      }
    }

    method WriteLinear(a: nat, data: seq<Byte>)
      requires Valid() && a + |data| <= View().lazy.usable
      modifies memoryManager.jobMemory`bytes
      ensures Valid()
      ensures View() == old(View()).(lazy := Written(old(View()).lazy, a, data))
    {
      CopyIn(a, data);
      WrittenPadded(old(memoryManager.Lin()), wasmPages, maxPages, a, data);
    }

    method MemoryGrow(delta: U32) returns (obs: Obs)
      requires Valid()
      modifies this`wasmPages, memoryManager.jobMemory`bytes
      ensures Valid() && GrowStep(old(View()), delta, obs, View())
    {
      var pages := ReadWord(LINMEM_WASM_SIZE);
      var grown := Narrow(pages + delta);
      if grown != pages + delta || grown > maxPages {
        return Pages(UINT32_MAX);
      }
      ghost var m := memoryManager.View();
      PublishPages(grown);
      GrowLifts(m, pages, delta, maxPages);
      obs := Pages(pages);
    }

    // The same code serves modules with and without memory.
    method GetLinearMemoryRegion(start: U32, size: U32) returns (obs: Obs)
      requires Valid() || WithoutMemory()
      modifies memoryManager, memoryManager.jobMemory`data, memoryManager.jobMemory`calls, memoryManager.jobMemory`bytes
      ensures old(Valid()) ==> Valid() && RegionStep(old(View()), start, size, obs, View())
      ensures old(WithoutMemory()) ==>
        WithoutMemory() && obs == ObsOf(ResultOf(obs), Done) && (size == 0 ==> obs == Done)
      ensures old(WithoutMemory()) && size > 0 ==> ProbeStep(
                old(memoryManager.View()).(allowedPages := UINT32_MAX), Narrow(start + size - 1), ResultOf(obs),
                memoryManager.View())
    {
      if size == 0 {
        return Done;
      }
      var maxAccessedByte := start + size - 1;
      var r := ProbeRefreshed(Narrow(maxAccessedByte));
      obs := ObsOf(r, Done);
    }

    method ShrinkToSize(minimumLength: U32) returns (obs: Obs)
      requires Valid()
      modifies memoryManager, memoryManager.jobMemory`data, memoryManager.jobMemory`calls, memoryManager.jobMemory`bytes
      ensures Valid() && ShrinkToStep(old(View()), minimumLength, obs, View())
      ensures obs in {Done, Refused} && (obs == Refused <==> minimumLength > old(memoryManager.usableLinMemBytes))
      ensures memoryManager.usableLinMemBytes == Min(old(memoryManager.usableLinMemBytes),
                                                     if obs == Done then minimumLength else UINT32_MAX)
    {
      ghost var lin := memoryManager.Lin();
      var ok := memoryManager.Shrink(minimumLength);
      if !ok {
        return Refused;
      }
      PublishUsableSize();
      ShrunkPadded(lin, wasmPages, maxPages, minimumLength);
      obs := Done;
    }

    method SetMaxRam(maxRam: nat) returns (obs: Obs)
      requires Valid()
      modifies memoryManager.jobMemory`maxRam
      ensures Valid() && OpStep(old(View()), Op.SetMaxRam(maxRam), obs, View())
      ensures obs in {Done, Refused}
      ensures obs == Refused <==> maxRam < memoryManager.basedataSize + memoryManager.usableLinMemBytes
      ensures memoryManager.jobMemory.maxRam == if obs == Done then maxRam else old(memoryManager.jobMemory.maxRam)
    {
      if maxRam < memoryManager.usableLinMemBytes + memoryManager.basedataSize {
        return Refused;
      }
      memoryManager.jobMemory.maxRam := maxRam;
      obs := Done;
    }

    // Any one of the host's calls, any one of the emitted code's operations, and then any operation at all.

    method PerformHost(op: Op) returns (obs: Obs)
      requires Valid() && WellFormed(op)
      requires op.HostRegion? || op.ShrinkTo? || op.SetMaxRam?
      modifies memoryManager, memoryManager.jobMemory`data, memoryManager.jobMemory`calls, memoryManager.jobMemory`bytes
      modifies memoryManager.jobMemory`maxRam
      ensures Valid() && OpStep(old(View()), op, obs, View())
    {
      match op {
        case HostRegion(start, size) => obs := GetLinearMemoryRegion(start, size);
        case ShrinkTo(n) => obs := ShrinkToSize(n);
        case SetMaxRam(maxRam) => obs := SetMaxRam(maxRam);
      }
    }

    method PerformLoad(op: Op) returns (obs: Obs)
      requires Valid() && WellFormed(op) && op.Load?
      modifies memoryManager, memoryManager.jobMemory`data, memoryManager.jobMemory`calls, memoryManager.jobMemory`bytes
      ensures Valid() && OpStep(old(View()), op, obs, View())
    {
      obs := Load(op.index, op.offset, op.width);
    }

    method PerformStore(op: Op) returns (obs: Obs)
      requires Valid() && WellFormed(op) && op.Store?
      modifies memoryManager, memoryManager.jobMemory`data, memoryManager.jobMemory`calls, memoryManager.jobMemory`bytes
      ensures Valid() && OpStep(old(View()), op, obs, View())
    {
      obs := Store(op.index, op.offset, op.data);
    }

    method Perform(op: Op) returns (obs: Obs)
      requires Valid() && WellFormed(op)
      modifies this`wasmPages, memoryManager, memoryManager.jobMemory`data, memoryManager.jobMemory`calls
      modifies memoryManager.jobMemory`bytes
      modifies memoryManager.jobMemory`maxRam
      ensures Valid() && OpStep(old(View()), op, obs, View())
    {
      if op.MemoryGrow? {
        obs := MemoryGrow(op.delta);
      } else if op.Load? {
        obs := PerformLoad(op);
      } else if op.Store? {
        obs := PerformStore(op);
      } else {
        obs := PerformHost(op);
      }
    }
  }

  // The usable prefix, with zeros behind it, is what these segments make of the memory.
  ghost predicate Holds(lin: seq<Byte>, size: nat, segments: seq<Segment>) {
    AllFit(segments, size) && |lin| <= size && lin + Zeros(size - |lin|) == Loaded(size, segments)
  }

  lemma SegmentCopied(lin: seq<Byte>, segments: seq<Segment>, i: nat, size: nat)
    requires i < |segments| && End(segments[i]) <= size && Holds(lin, size, segments[..i])
    ensures Holds(Splice(Extended(lin, End(segments[i])), segments[i].start, segments[i].data), size, segments[..i + 1])
  {
    LoadedNext(size, segments, i);
    SpliceBelowZeros(lin, Extended(lin, End(segments[i])), size, segments[i].start, segments[i].data);
  }

  // The manager's probe, seen through the padded memory, changes usability but no byte.
  lemma ProbeLifts(m: Manager, pages: nat, maxPages: nat, offset: U32, r: ProbeResult, m': Manager)
    requires |m.lin| <= WASM_PAGE * m.allowedPages && m.allowedPages <= pages <= maxPages <= MAX_WASM_PAGES
    requires ActiveMemory.ProbeStep(m.(allowedPages := pages), offset, r, m')
    ensures |m'.lin| <= WASM_PAGE * pages && m'.allowedPages == pages && (r != Ok ==> |m'.lin| == |m.lin|)
    ensures RefreshedProbe(ViewOf(m, pages, maxPages), offset, r, ViewOf(m', pages, maxPages))
  {
    SamePadded(m.lin, m'.lin, pages, maxPages);
  }

  lemma GrowLifts(m: Manager, pages: nat, delta: U32, maxPages: nat)
    requires |m.lin| <= WASM_PAGE * m.allowedPages && m.allowedPages <= pages
    requires pages + delta <= maxPages <= MAX_WASM_PAGES
    requires m.basedataSize + |m.lin| <= m.blockSize < WORD32
    ensures GrowStep(ViewOf(m, pages, maxPages), delta, Pages(pages), ViewOf(m, pages + delta, maxPages))
  {
    GrownPadded(m.lin, pages, delta, maxPages);
  }

  // A bounds check changes no byte, and a passed one leaves the access inside the usable prefix.
  lemma AccessReaches(s: Active, n: nat, r: ProbeResult, s': Active)
    requires Inv(s) && n > 0 && AccessStep(s, n, r, s')
    ensures Inv(s') && Reach(s.lazy, n, r, s'.lazy)
    ensures r == Ok ==> s'.lazy.usable == Max(s.lazy.usable, n)
  {
  }

  lemma LoadAnswered(s: Active, a: nat, width: nat, r: ProbeResult, s': Active, obs: Obs)
    requires Inv(s) && width > 0 && AccessStep(s, a + width, r, s') && Inv(s') && Reach(s.lazy, a + width, r, s'.lazy)
    requires r != Ok ==> obs == ObsOf(r, Done)
    requires r == Ok ==> a + width <= |s'.lazy.memory.bytes| && obs == Bytes(s'.lazy.memory.bytes[a..a + width])
    ensures LoadStep(s, a, width, obs, s')
  {
  }

  lemma FailedAccess(s: Active, a: nat, data: seq<Byte>, r: ProbeResult, s': Active)
    requires Inv(s) && |data| > 0 && r != Ok && AccessStep(s, a + |data|, r, s')
    ensures StoreStep(s, a, data, ObsOf(r, Done), s')
  {
    AccessReaches(s, a + |data|, r, s');
    assert s'.(lazy := s.lazy.(usable := s'.lazy.usable)) == s';
  }

  lemma WriteAfterAccess(s: Active, a: nat, data: seq<Byte>, reached: Active)
    requires Inv(s) && |data| > 0 && AccessStep(s, a + |data|, Ok, reached)
    requires Reach(s.lazy, a + |data|, Ok, reached.lazy)
    ensures StoreStep(s, a, data, Done, reached.(lazy := Written(reached.lazy, a, data)))
  {
  }
}
