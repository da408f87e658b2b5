// Passive bounds checks: a large reserved region whose pages are committed when a fault asks for them.
module PassiveMemory {
  import opened Bytes
  import opened Bits
  import opened EagerMemory

  const MAX_LINEAR_MEMORY_SIZE: nat := WASM_PAGE * MAX_WASM_PAGES
  const MAX_LINEAR_MEMORY_OFFSET: nat := WORD32
  const OFFSET_GUARD_REGION_SIZE: nat := MAX_LINEAR_MEMORY_OFFSET + WASM_PAGE
  const UINT64_MAX: nat := WORD64 - 1

  // The allocator as its callers can know it: `lin` is the committed part of the linear memory.
  // The OS page size is 2^pageBits.
  datatype Manager = Manager(
    lin: seq<Byte>,
    pages: nat,
    pagedBasedataSize: nat,
    limit: nat,
    pageBits: nat,
    reliable: bool)

  // Commits are whole OS pages, inside both the memory limit and the allowed pages.
  ghost predicate InBounds(m: Manager) {
    && m.pageBits <= 16
    && m.pages <= MAX_WASM_PAGES
    && m.pagedBasedataSize <= WORD32 && Aligned(m.pagedBasedataSize, m.pageBits)
    && Aligned(|m.lin|, m.pageBits)
    && |m.lin| <= WASM_PAGE * m.pages
    && m.pagedBasedataSize + |m.lin| <= m.limit < WORD64
  }

  function Resized(bytes: seq<Byte>, size: nat): (r: seq<Byte>)
    ensures |r| == size
  {
    if size <= |bytes| then bytes[..size] else bytes + Zeros(size - |bytes|)
  }

  ghost predicate Committed(m: Manager, size: nat, m': Manager) {
    |m.lin| <= size && m' == m.(lin := Resized(m.lin, size))
  }

  ghost predicate ProbeStep(m: Manager, offset: U32, r: ProbeResult, m': Manager)
    requires m.pageBits <= 16
  {
    var size := PageUp(offset + 1, m.pageBits);
    if offset < |m.lin| then r == Ok && m' == m
    else if offset >= WASM_PAGE * m.pages then r == OutOfBounds && m' == m
    else if r == Ok then m.pagedBasedataSize + size <= m.limit && Committed(m, size, m')
    else r == AllocationFailure && m' == m && (m.reliable ==> m.pagedBasedataSize + size > m.limit)
  }

  ghost predicate ShrinkStep(m: Manager, n: U32, ok: bool, m': Manager)
    requires m.pageBits <= 16
  {
    if n > |m.lin| then !ok && m' == m
    else ok && PageDown(n, m.pageBits) <= n && m' == m.(lin := m.lin[..PageDown(n, m.pageBits)])
  }

  // Rounding to whole OS pages, said bit by bit, so that users of it meet no division by a variable.
  function PageUp(size: nat, pageBits: nat): (r: nat)
    ensures size <= r && Aligned(r, pageBits)
  {
    if pageBits == 0 then size
    else
      DoubleAligned(PageUp((size + 1) / 2, pageBits - 1), pageBits - 1);
      2 * PageUp((size + 1) / 2, pageBits - 1)
  }

  function PageDown(size: nat, pageBits: nat): (r: nat)
    ensures r <= size && Aligned(r, pageBits)
  {
    if pageBits == 0 then size
    else
      DoubleAligned(PageDown(size / 2, pageBits - 1), pageBits - 1);
      2 * PageDown(size / 2, pageBits - 1)
  }

  lemma {:induction false} PageUpIsLeast(size: nat, pageBits: nat, m: nat)
    requires Aligned(m, pageBits) && size <= m
    ensures PageUp(size, pageBits) <= m
  {
    if pageBits > 0 {
      PageUpIsLeast((size + 1) / 2, pageBits - 1, m / 2);
    }
  }

  lemma PageUpMono(a: nat, b: nat, pageBits: nat)
    requires a <= b
    ensures PageUp(a, pageBits) <= PageUp(b, pageBits)
  {
    PageUpIsLeast(a, pageBits, PageUp(b, pageBits));
  }

  lemma {:induction false} PageDownIsGreatest(size: nat, pageBits: nat, m: nat)
    requires Aligned(m, pageBits) && m <= size
    ensures m <= PageDown(size, pageBits)
  {
    if pageBits > 0 {
      PageDownIsGreatest(size / 2, pageBits - 1, m / 2);
    }
  }

  lemma {:induction false} PageDownNear(size: nat, pageBits: nat)
    ensures size < PageDown(size, pageBits) + Pow2(pageBits)
  {
    if pageBits > 0 {
      PageDownNear(size / 2, pageBits - 1);
    }
  }

  // The masks of MemUtils::roundUp and roundDown compute it, roundUp wherever its sum does not wrap.
  lemma MaskRoundsDown(size: nat, pageBits: nat)
    requires pageBits <= 64 && size < Pow2(64)
    ensures ClearLow(size, pageBits, 64) == PageDown(size, pageBits)
  {
    ClearLowAligned(size, pageBits, 64);
    PageDownIsGreatest(size, pageBits, ClearLow(size, pageBits, 64));
    ClearLowGreatest(size, pageBits, 64, PageDown(size, pageBits));
  }

  lemma MaskRoundsUp(size: nat, pageBits: nat)
    requires pageBits <= 64 && size + Pow2(pageBits) <= Pow2(64)
    ensures RoundUpWord(size, pageBits, 64) == PageUp(size, pageBits) < size + Pow2(pageBits)
  {
    RoundUpWordAligned(size, pageBits, 64);
    PageUpIsLeast(size, pageBits, RoundUpWord(size, pageBits, 64));
    RoundUpWordLeast(size, pageBits, 64, PageUp(size, pageBits));
  }

  // roundUpToOSMemoryPageSize, away from the top of the address space
  method RoundUpToOSMemoryPageSize(size: nat, pageBits: nat) returns (r: nat)
    requires pageBits <= 16 && size <= WORD64 - 0x1_0000
    ensures r == PageUp(size, pageBits) && r < size + 0x1_0000
  {
    Pow2Words();
    Pow2Mono(pageBits, 16);
    MaskRoundsUp(size, pageBits);
    r := RoundUpWord(size, pageBits, 64);
  }

  // roundDownToOSMemoryPageSize
  method RoundDownToOSMemoryPageSize(size: nat, pageBits: nat) returns (r: nat)
    requires pageBits <= 16 && size < WORD64
    ensures r == PageDown(size, pageBits)
  {
    Pow2Words();
    MaskRoundsDown(size, pageBits);
    r := ClearLow(size, pageBits, 64);
  }

  // Wasm pages are made of whole OS pages.
  lemma WasmPagesAligned(pages: nat, pageBits: nat)
    requires pageBits <= 16
    ensures Aligned(WASM_PAGE * pages, pageBits)
  {
    var p, q := Pow2(pageBits), Pow2(16 - pageBits);
    assert p * q == WASM_PAGE by {
      Pow2Words();
      Pow2Add(pageBits, 16 - pageBits);
    }
    MulAssoc(p, q, pages);
    AlignedScaled(q * pages, pageBits);
  }

  lemma MulAssoc(a: nat, b: nat, c: nat)
    ensures a * b * c == a * (b * c)
  {
  }

  // A reserved region: its address (0 is null), and the bytes of its committed prefix.
  class VirtualMemoryAllocator {
    const pageBits: nat
    const reliable: bool       // the OS never refuses to reserve or commit
    var data: nat
    var bytes: seq<Byte>
    var totalSize: nat

    ghost predicate Valid()
      reads this
    {
      && pageBits <= 16
      && data + totalSize < WORD64
      && |bytes| <= totalSize
      && Aligned(|bytes|, pageBits)
      && (data == 0 ==> bytes == [])
    }

    constructor (pageBits: nat, reliable: bool)
      requires pageBits <= 16
      ensures Valid() && data == 0 && this.pageBits == pageBits && this.reliable == reliable
    {
      AlignedZero(pageBits);
      this.pageBits, this.reliable := pageBits, reliable;
      data, bytes, totalSize := 0, [], 0;
    }

    // Release the old region and reserve a new one, of which nothing is committed yet.
    method Reserve(size: nat) returns (ok: bool)
      requires Valid() && 0 < size <= WORD64 - 0x3_0000
      modifies this`data, this`bytes, this`totalSize
      ensures Valid()
      ensures ok ==> data != 0 && Aligned(data, pageBits) && bytes == [] && totalSize == PageUp(size, pageBits)
      ensures !ok ==> data == 0 && !reliable
    {
      AlignedZero(pageBits);
      data, bytes, totalSize := 0, [], 0;
      if !reliable {
        if * {
          return false;
        }
      }
      var rounded := RoundUpToOSMemoryPageSize(size, pageBits);
      assert Aligned(WASM_PAGE, pageBits) by {
        WasmPagesAligned(1, pageBits);
      }
      var address :| 0 < address < WORD64 - rounded && Aligned(address, pageBits);
      data, totalSize := address, rounded;
      ok := true;
    }

    // Committed bytes become accessible and read as zero; uncommitted bytes are gone.
    method Resize(size: nat) returns (ok: bool)
      requires Valid() && data != 0
      requires Aligned(size, pageBits)
      modifies this`bytes
      ensures Valid()
      ensures ok ==> bytes == Resized(old(bytes), size)
      ensures !ok ==> bytes == old(bytes)
      ensures size > totalSize ==> !ok
      ensures size <= totalSize && (reliable || size <= |old(bytes)|) ==> ok
    {
      if size > totalSize {
        return false;
      }
      if size > |bytes| {
        if !reliable {
          if * {
            return false;
          }
        }
        bytes := bytes + Zeros(size - |bytes|);
      } else if size < |bytes| {
        bytes := bytes[..size];
      }
      ok := true;
    }
  }

  class LinearMemoryAllocator {
    const virtualMemory: VirtualMemoryAllocator
    var basedataStart: nat
    var pagedBasedataSize: nat
    var linMemPages: nat
    var pagedMemoryLimit: nat

    // The region can take every address Wasm code can form, and only whole pages inside both the limit
    // and the allowed size are committed.
    ghost predicate Valid()
      reads this, virtualMemory
    {
      && virtualMemory.Valid()
      && virtualMemory.data != 0
      && pagedBasedataSize <= |virtualMemory.bytes|
      && pagedBasedataSize + MAX_LINEAR_MEMORY_SIZE + OFFSET_GUARD_REGION_SIZE <= virtualMemory.totalSize
      && basedataStart <= virtualMemory.data + pagedBasedataSize
      && InBounds(View())
    }

    ghost function Lin(): seq<Byte>
      requires pagedBasedataSize <= |virtualMemory.bytes|
      reads this, virtualMemory
    {
      virtualMemory.bytes[pagedBasedataSize..]
    }

    ghost function View(): Manager
      requires pagedBasedataSize <= |virtualMemory.bytes|
      reads this, virtualMemory
    {
      Manager(Lin(), linMemPages, pagedBasedataSize, pagedMemoryLimit, virtualMemory.pageBits, virtualMemory.reliable)
    }

    constructor (pageBits: nat, reliable: bool)
      requires pageBits <= 16
      ensures fresh(virtualMemory) && virtualMemory.Valid() && virtualMemory.data == 0
      ensures virtualMemory.pageBits == pageBits && virtualMemory.reliable == reliable
      ensures pagedMemoryLimit == UINT64_MAX
    {
      virtualMemory := new VirtualMemoryAllocator(pageBits, reliable);
      basedataStart, pagedBasedataSize, linMemPages, pagedMemoryLimit := 0, 0, 0, UINT64_MAX;
    }

    method Init(basedataSize: U32, initialLinMemPages: nat) returns (ok: bool)
      requires 0 < basedataSize && initialLinMemPages <= MAX_WASM_PAGES
      requires virtualMemory.Valid() && pagedMemoryLimit < WORD64
      modifies this, virtualMemory`data, virtualMemory`bytes, virtualMemory`totalSize
      ensures ok ==> Valid()
      ensures pagedBasedataSize == PageUp(basedataSize, virtualMemory.pageBits)
      ensures ok ==> View() == Manager([], initialLinMemPages, pagedBasedataSize, old(pagedMemoryLimit),
                                       virtualMemory.pageBits, virtualMemory.reliable)
      ensures ok ==> basedataStart + basedataSize == virtualMemory.data + pagedBasedataSize
      ensures ok ==> Aligned(basedataStart + basedataSize, virtualMemory.pageBits)
      ensures ok ==> pagedBasedataSize <= old(pagedMemoryLimit)
      ensures virtualMemory.reliable && pagedBasedataSize <= old(pagedMemoryLimit) ==> ok
      ensures pagedMemoryLimit == old(pagedMemoryLimit) && (!ok ==> basedataStart == 0)
    {
      basedataStart := 0;
      pagedBasedataSize := RoundUpToOSMemoryPageSize(basedataSize, virtualMemory.pageBits);
      linMemPages := initialLinMemPages;
      PagedBasedataFits(basedataSize, virtualMemory.pageBits);
      ok := ReserveBehind(pagedBasedataSize);
      if ok {
        AlignedZero(virtualMemory.pageBits);
        AlignedSum(virtualMemory.data, pagedBasedataSize, virtualMemory.pageBits);
        var linearMemoryStart := virtualMemory.data + pagedBasedataSize;
        basedataStart := linearMemoryStart - basedataSize;
        assert Lin() == [];
      }
    }

    // A reservation for basedata of that size and every address Wasm code can form, with the basedata committed.
    method ReserveBehind(size: nat) returns (ok: bool)
      requires virtualMemory.Valid() && size <= WORD32 && Aligned(size, virtualMemory.pageBits)
      modifies virtualMemory`data, virtualMemory`bytes, virtualMemory`totalSize
      ensures virtualMemory.Valid()
      ensures ok ==> virtualMemory.data != 0 && Aligned(virtualMemory.data, virtualMemory.pageBits)
      ensures ok ==> size == |virtualMemory.bytes| <= pagedMemoryLimit
      ensures ok ==> size + MAX_LINEAR_MEMORY_SIZE + OFFSET_GUARD_REGION_SIZE <= virtualMemory.totalSize
      ensures virtualMemory.reliable && size <= pagedMemoryLimit ==> ok
    {
      ok := virtualMemory.Reserve(size + MAX_LINEAR_MEMORY_SIZE + OFFSET_GUARD_REGION_SIZE);
      if ok {
        ok := Commit(size);
      }
    }

    method Extend(newTotalLinMemPages: nat) returns (ok: bool)
      requires Valid() && |Lin()| <= WASM_PAGE * newTotalLinMemPages && newTotalLinMemPages <= MAX_WASM_PAGES
      modifies this`linMemPages
      ensures ok && Valid()
      ensures View() == old(View()).(pages := newTotalLinMemPages)
    {
      linMemPages := newTotalLinMemPages;
      ok := true;
    }

    method Shrink(minimumLength: U32) returns (ok: bool)
      requires Valid()
      modifies virtualMemory`bytes
      ensures Valid() && virtualMemory.bytes[..pagedBasedataSize] == old(virtualMemory.bytes[..pagedBasedataSize])
      ensures ShrinkStep(old(View()), minimumLength, ok, View())
      ensures ok <==> minimumLength <= |old(Lin())|
      ensures ok ==> |Lin()| <= minimumLength < |Lin()| + Pow2(virtualMemory.pageBits)
    {
      PageDownNear(minimumLength, virtualMemory.pageBits);
      var linMemCommitedSize := |virtualMemory.bytes| - pagedBasedataSize;
      if linMemCommitedSize < minimumLength {
        return false;
      }
      var newSize := RoundDownToOSMemoryPageSize(minimumLength, virtualMemory.pageBits);
      ok := CommitLinear(newSize);
    }

    method Probe(linMemOffset: U32) returns (r: ProbeResult)
      requires Valid()
      modifies virtualMemory`bytes
      ensures Valid() && virtualMemory.bytes[..pagedBasedataSize] == old(virtualMemory.bytes[..pagedBasedataSize])
      ensures ProbeStep(old(View()), linMemOffset, r, View())
    {
      var linMemCommitedSize := |virtualMemory.bytes| - pagedBasedataSize;
      if linMemOffset < linMemCommitedSize {
        return Ok;
      } else if linMemOffset < linMemPages * WASM_PAGE {
        var size := RoundUpToOSMemoryPageSize(linMemOffset + 1, virtualMemory.pageBits);
        WasmPagesAligned(linMemPages, virtualMemory.pageBits);
        PageUpIsLeast(linMemOffset + 1, virtualMemory.pageBits, WASM_PAGE * linMemPages);
        var ok := CommitLinear(size);
        return if ok then Ok else AllocationFailure;
      } else {
        return OutOfBounds;
      }
    }

    // commit(pagedBasedataSize_ + size)
    method CommitLinear(size: nat) returns (ok: bool)
      requires Valid()
      requires Aligned(size, virtualMemory.pageBits) && size <= WASM_PAGE * linMemPages
      modifies virtualMemory`bytes
      ensures Valid() && virtualMemory.bytes[..pagedBasedataSize] == old(virtualMemory.bytes[..pagedBasedataSize])
      ensures ok ==> View() == old(View()).(lin := Resized(old(Lin()), size))
      ensures !ok ==> View() == old(View())
      ensures ok ==> pagedBasedataSize + size <= pagedMemoryLimit
      ensures pagedBasedataSize + size <= pagedMemoryLimit && (virtualMemory.reliable || size <= |old(Lin())|) ==> ok
    {
      AlignedSum(pagedBasedataSize, size, virtualMemory.pageBits);
      ok := Commit(pagedBasedataSize + size);
      if ok {
        assert Lin() == Resized(old(Lin()), size);
      }
    }

    // Rounded down so that the limit is really kept; a limit below the current use is refused.
    method SetMemoryLimit(memoryLimit: nat) returns (ok: bool)
      requires Valid() && memoryLimit < WORD64
      modifies this`pagedMemoryLimit
      ensures Valid()
      ensures ok <==> pagedBasedataSize + |old(Lin())| <= PageDown(memoryLimit, virtualMemory.pageBits)
      ensures View() == if ok then old(View()).(limit := PageDown(memoryLimit, virtualMemory.pageBits)) else old(View())
    {
      var pagedLimit := RoundDownToOSMemoryPageSize(memoryLimit, virtualMemory.pageBits);
      if |virtualMemory.bytes| > pagedLimit {
        return false;
      }
      pagedMemoryLimit := pagedLimit;
      ok := true;
    }

    method Commit(newPagedSize: nat) returns (ok: bool)
      requires virtualMemory.Valid() && virtualMemory.data != 0
      requires Aligned(newPagedSize, virtualMemory.pageBits)
      modifies virtualMemory`bytes
      ensures virtualMemory.Valid()
      ensures ok ==> newPagedSize <= Min(pagedMemoryLimit, virtualMemory.totalSize)
      ensures ok ==> virtualMemory.bytes == Resized(old(virtualMemory.bytes), newPagedSize)
      ensures !ok ==> virtualMemory.bytes == old(virtualMemory.bytes)
      ensures newPagedSize <= Min(pagedMemoryLimit, virtualMemory.totalSize) ==>
                virtualMemory.reliable || newPagedSize <= |old(virtualMemory.bytes)| ==> ok
    {
      if newPagedSize > pagedMemoryLimit {
        return false;
      }
      ok := virtualMemory.Resize(newPagedSize);
    }
  }

  lemma PagedBasedataFits(basedataSize: U32, pageBits: nat)
    requires pageBits <= 16
    ensures PageUp(basedataSize, pageBits) <= WORD32
  {
    WasmPagesAligned(0x1_0000, pageBits);
    PageUpIsLeast(basedataSize, pageBits, WORD32);
  }
}
