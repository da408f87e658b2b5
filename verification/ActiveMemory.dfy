// Active bounds checks: a relocatable block that starts with the basedata and is followed by the
// usable prefix of the linear memory, extended and zero-filled on demand.
module ActiveMemory {
  import opened Bytes
  import opened EagerMemory

  // The manager as its callers can know it: `lin` is the usable prefix of the linear memory.
  datatype Manager = Manager(
    lin: seq<Byte>,
    allowedPages: nat,
    basedataSize: nat,
    blockSize: nat,
    maxRam: nat,
    reliable: bool)

  // The size request for n linear bytes, rounded up to an even number.
  function Rounded(total: nat): nat {
    total + total % 2
  }

  // Whether basedata plus n linear bytes can be housed at all.
  predicate Housable(m: Manager, n: nat) {
    var total := Rounded(m.basedataSize + n);
    total <= UINT32_MAX && (total <= m.blockSize || total <= m.maxRam)
  }

  // Whether the growth policy has room for that many bytes, whatever the block is now.
  predicate Grantable(total: nat, maxRam: nat) {
    Rounded(total) <= Min(UINT32_MAX, maxRam)
  }

  // m' is m with the first n linear bytes usable, the new ones zero.
  ghost predicate Exposed(m: Manager, n: nat, m': Manager) {
    && |m.lin| <= n
    && m' == m.(lin := m.lin + Zeros(n - |m.lin|), blockSize := m'.blockSize)
    && m.blockSize <= m'.blockSize < WORD32
    && m.basedataSize + n <= m'.blockSize
  }

  ghost predicate EnsureStep(m: Manager, n: U32, ok: bool, m': Manager) {
    if n <= |m.lin| then ok && m' == m
    else if ok then Housable(m, n) && Exposed(m, n, m')
    else m' == m && (m.reliable ==> !Housable(m, n))
  }

  // The size passed on is a uint32_t, so probing offset 2^32 - 1 asks for 0 bytes.
  ghost predicate ProbeStep(m: Manager, offset: U32, r: ProbeResult, m': Manager) {
    if offset < |m.lin| then r == Ok && m' == m
    else if offset >= WASM_PAGE * m.allowedPages then r == OutOfBounds && m' == m
    else r != OutOfBounds && EnsureStep(m, Narrow(offset + 1), r == Ok, m')
  }

  ghost predicate ShrinkStep(m: Manager, n: U32, ok: bool, m': Manager) {
    if n > |m.lin| then !ok && m' == m
    else
      && ok
      && m' == m.(lin := m.lin[..n], blockSize := m'.blockSize)
      && m.basedataSize + n <= m'.blockSize < WORD32
      && (m.reliable && Rounded(m.basedataSize + n) <= m.maxRam ==>
        m'.blockSize <= Max(512, Rounded(m.basedataSize + n)) + 4096)
  }

  // The limits the realloc callback observes.
  function ProposedLength(minimumLength: U32, maxRam: nat): nat {
    Min(Min(maxRam, UINT32_MAX), Max(512, minimumLength) + 4096)
  }

  // A granted request keeps the common prefix and gives either the proposed or the requested length.
  ghost predicate RequestGranted(before: seq<Byte>, minimumLength: U32, maxRam: nat, after: seq<Byte>) {
    && minimumLength <= maxRam
    && |after| in {minimumLength as nat, ProposedLength(minimumLength, maxRam)}
    && after[..Min(|before|, |after|)] == before[..Min(|before|, |after|)]
  }

  // Blocks that agree on a common prefix have the same basedata and the same first n of k linear bytes.
  lemma PrefixSlices(t: seq<Byte>, s: seq<Byte>, bd: nat, k: nat, n: nat)
    requires n <= k && bd + k <= |s| && bd + n <= |t|
    requires t[..Min(|s|, |t|)] == s[..Min(|s|, |t|)]
    ensures t[..bd] == s[..bd]
    ensures t[bd..bd + n] == s[bd..bd + k][..n]
  {
    var m := Min(|s|, |t|);
    assert bd + n <= m;
    forall i | 0 <= i < bd + n
      ensures t[i] == s[i]
    {
      assert t[..m][i] == s[..m][i];
    }
  }

  // Growing a block keeps the basedata and the first k linear bytes.
  lemma GrownSlices(s: seq<Byte>, t: seq<Byte>, bd: nat, k: nat)
    requires s <= t && bd + k <= |s|
    ensures t[..bd] == s[..bd]
    ensures t[bd..bd + k] == s[bd..bd + k]
  {
  }

  // Clearing the bytes behind the first k linear bytes appends zeros to the usable prefix.
  lemma ZeroFill(s: seq<Byte>, bd: nat, k: nat, n: nat)
    requires k <= n && bd + n <= |s|
    ensures
      var t := Splice(s, bd + k, Zeros(n - k));
      t[..bd] == s[..bd] && t[bd..bd + n] == s[bd..bd + k] + Zeros(n - k)
  {
  }

  // Whether the host grants a block of that size when it is asked the call-th time.
  type Host = (nat, nat) -> bool

  // A block of memory the host can move: its address (0 is null) and its bytes.
  class ExtendableMemory {
    var data: nat
    var bytes: seq<Byte>
    var maxRam: nat            // WasmModule::maxRam_, reached through the callback's context
    var calls: nat             // how often the host was asked for a block
    const host: Host
    const reliable: bool       // the host's realloc never refuses

    ghost predicate Valid()
      reads this
    {
      && |bytes| < WORD32 && (data == 0 ==> bytes == [])
      && (reliable ==> forall call, n :: host(call, n))
    }

    constructor (maxRam: nat, host: Host, reliable: bool)
      requires reliable ==> forall call, n :: host(call, n)
      ensures Valid() && data == 0
      ensures this.maxRam == maxRam && this.host == host && this.reliable == reliable
    {
      data, bytes, calls := 0, [], 0;
      this.maxRam, this.host, this.reliable := maxRam, host, reliable;
    }

    // realloc: a refusal answers null; a granted block may lie anywhere, keeps the common prefix
    // and holds arbitrary bytes behind it.
    method Realloc(n: nat) returns (p: nat, block: seq<Byte>)
      modifies this`calls
      ensures calls == old(calls) + 1 && (p != 0 <==> host(old(calls), n))
      ensures p != 0 ==> |block| == n && block[..Min(|bytes|, n)] == bytes[..Min(|bytes|, n)]
    {
      calls := calls + 1;
      block := [];
      if !host(calls - 1, n) {
        return 0, [];
      }
      var address: nat :| true;
      p := 1 + address;
      block := bytes[..Min(|bytes|, n)];
      while |block| < n
        invariant |block| <= n
        invariant Min(|bytes|, n) <= |block| && block[..Min(|bytes|, n)] == bytes[..Min(|bytes|, n)]
      {
        var garbage: Byte :| true;
        block := block + [garbage];
      }
    }

    method Reset(data: nat, block: seq<Byte>)
      modifies this`data, this`bytes
      ensures this.data == data && bytes == block
    {
      this.data, bytes := data, block;
    }

    // WasmModule::runtimeMemoryAllocFnc for a nonzero request: nothing beyond the limit; below it the host is asked
    // for the proposed length and, if it refuses that, for the length that is needed.
    method ExtensionRequest(minimumLength: U32)
      requires Valid() && minimumLength > 0
      modifies this`data, this`bytes, this`calls
      ensures Valid()
      ensures minimumLength > maxRam ==> data == old(data) && bytes == old(bytes)
      ensures minimumLength <= maxRam ==>
        var expectedLength := ProposedLength(minimumLength, maxRam);
        if host(old(calls), expectedLength) then data != 0 && |bytes| == expectedLength
        else if host(old(calls) + 1, minimumLength) then data != 0 && |bytes| == minimumLength
        else data == old(data) && bytes == old(bytes)
      ensures (data == old(data) && bytes == old(bytes)) || RequestGranted(old(bytes), minimumLength, maxRam, bytes)
      ensures bytes != old(bytes) ==> data != 0
      ensures minimumLength <= maxRam ==> calls > old(calls)
      ensures reliable && minimumLength <= maxRam ==> data != 0 && |bytes| == ProposedLength(minimumLength, maxRam)
    {
      if minimumLength > maxRam {
        return;
      }
      var expectedLength := ProposedLength(minimumLength, maxRam);
      var newPtr, block := Realloc(expectedLength);
      if newPtr != 0 {
        Reset(newPtr, block);
        return;
      }
      newPtr, block := Realloc(minimumLength);
      if newPtr != 0 {
        Reset(newPtr, block);
      }
    }
  }

  // The growth policy: what a granted request may size the block to.
  lemma ProposedLengthBounds(minimumLength: U32, maxRam: nat)
    requires minimumLength <= maxRam
    ensures minimumLength <= ProposedLength(minimumLength, maxRam) <= Min(maxRam, UINT32_MAX)
    ensures ProposedLength(minimumLength, maxRam) >= Min(Min(maxRam, UINT32_MAX), 4608)
  {
  }

  // And exactly: half a kilobyte at least, 4096 bytes more, and no more than the limits.
  lemma ProposedLengthExact(minimumLength: U32, maxRam: nat)
    requires minimumLength <= maxRam
    ensures
      var wanted := if minimumLength < 512 then 4608 else minimumLength + 4096;
      && (wanted <= maxRam && wanted < 0x1_0000_0000 ==> ProposedLength(minimumLength, maxRam) == wanted)
      && (wanted > maxRam && maxRam < 0x1_0000_0000 ==> ProposedLength(minimumLength, maxRam) == maxRam)
      && (wanted >= 0x1_0000_0000 && maxRam >= 0x1_0000_0000 ==> ProposedLength(minimumLength, maxRam) == 0xFFFF_FFFF)
  {
  }

  class ActiveMemoryManager {
    const jobMemory: ExtendableMemory
    var basedataStart: nat
    var basedataSize: nat
    var allowedLinMemPages: nat
    var usableLinMemBytes: nat

    // The cached base address is never stale, and basedata plus usable bytes fit the block.
    ghost predicate Valid()
      reads this, jobMemory
    {
      && jobMemory.Valid()
      && jobMemory.data != 0
      && basedataStart == jobMemory.data
      && 0 < basedataSize
      && Rounded(basedataSize + usableLinMemBytes) <= |jobMemory.bytes|
    }

    ghost function Basedata(): (b: seq<Byte>)
      requires Valid()
      reads this, jobMemory
      ensures |b| == basedataSize
    {
      jobMemory.bytes[..basedataSize]
    }

    ghost function Lin(): (b: seq<Byte>)
      requires Valid()
      reads this, jobMemory
      ensures |b| == usableLinMemBytes
    {
      jobMemory.bytes[basedataSize..basedataSize + usableLinMemBytes]
    }

    ghost function View(): (m: Manager)
      requires Valid()
      reads this, jobMemory
    {
      Manager(Lin(), allowedLinMemPages, basedataSize, |jobMemory.bytes|, jobMemory.maxRam, jobMemory.reliable)
    }

    constructor (maxRam: nat, host: Host, reliable: bool)
      requires reliable ==> forall call, n :: host(call, n)
      ensures jobMemory.Valid() && jobMemory.data == 0 && fresh(jobMemory)
      ensures jobMemory.maxRam == maxRam && jobMemory.host == host && jobMemory.reliable == reliable
    {
      jobMemory := new ExtendableMemory(maxRam, host, reliable);
      basedataStart, basedataSize, allowedLinMemPages, usableLinMemBytes := 0, 0, 0, 0;
    }

    method Init(basedataSize: U32, initialLinMemPages: nat) returns (ok: bool)
      requires 0 < basedataSize && jobMemory.Valid()
      modifies this, jobMemory`data, jobMemory`calls, jobMemory`bytes
      ensures ok ==> Valid()
      ensures ok ==>
        View() == Manager([], initialLinMemPages, basedataSize, |jobMemory.bytes|, jobMemory.maxRam, jobMemory.reliable)
      ensures old(jobMemory.bytes) <= jobMemory.bytes
      ensures !ok ==> jobMemory.data == old(jobMemory.data) && jobMemory.bytes == old(jobMemory.bytes)
      ensures !ok ==> basedataStart == old(basedataStart) && usableLinMemBytes == 0
      ensures jobMemory.reliable && Rounded(basedataSize) <= Min(UINT32_MAX, jobMemory.maxRam) ==> ok
    {
      this.basedataSize := basedataSize;
      allowedLinMemPages := initialLinMemPages;
      usableLinMemBytes := 0;
      ok := EnsureCapacityForLinearSize(0);
      if !ok {
        return;
      }
      SyncBasedataStart();
    }

    method Extend(newTotalLinMemPages: nat) returns (ok: bool)
      requires Valid()
      modifies this`allowedLinMemPages
      ensures ok && Valid()
      ensures View() == old(View()).(allowedPages := newTotalLinMemPages)
    {
      allowedLinMemPages := newTotalLinMemPages;
      ok := true;
    }

    method Shrink(minimumLength: U32) returns (ok: bool)
      requires Valid()
      modifies this`basedataStart, this`usableLinMemBytes, jobMemory`data, jobMemory`calls, jobMemory`bytes
      ensures Valid() && Basedata() == old(Basedata())
      ensures ShrinkStep(old(View()), minimumLength, ok, View())
    {
      if minimumLength > usableLinMemBytes {
        return false;
      }
      var requestedTotalSize := basedataSize + minimumLength;
      if requestedTotalSize > UINT32_MAX {
        return false;
      }
      var roundedRequiredSize := requestedTotalSize;
      if roundedRequiredSize % 2 != 0 {
        if roundedRequiredSize == UINT32_MAX {
          return false;
        }
        roundedRequiredSize := roundedRequiredSize + 1;
      }
      ghost var before := jobMemory.bytes;
      ok := Release(roundedRequiredSize);
      if ok {
        PrefixSlices(jobMemory.bytes, before, basedataSize, usableLinMemBytes, minimumLength);
        usableLinMemBytes := minimumLength;
      }
    }

    // Hand back what lies beyond this size, if the host takes it; the block may move.
    method Release(roundedRequiredSize: U32) returns (ok: bool)
      requires jobMemory.Valid() && jobMemory.data != 0 && basedataStart == jobMemory.data
      requires 0 < roundedRequiredSize <= |jobMemory.bytes|
      modifies this`basedataStart, jobMemory`data, jobMemory`calls, jobMemory`bytes
      ensures ok && jobMemory.Valid() && jobMemory.data != 0 && basedataStart == jobMemory.data
      ensures roundedRequiredSize <= |jobMemory.bytes|
      ensures jobMemory.reliable && roundedRequiredSize <= jobMemory.maxRam ==>
        |jobMemory.bytes| <= Max(512, roundedRequiredSize) + 4096
      ensures roundedRequiredSize < |old(jobMemory.bytes)| && roundedRequiredSize <= jobMemory.maxRam ==>
        jobMemory.calls > old(jobMemory.calls)
      ensures var n := Min(|jobMemory.bytes|, |old(jobMemory.bytes)|); jobMemory.bytes[..n] == old(jobMemory.bytes)[..n]
    {
      if roundedRequiredSize < |jobMemory.bytes| {
        jobMemory.ExtensionRequest(roundedRequiredSize);
        if jobMemory.data == 0 || |jobMemory.bytes| < roundedRequiredSize {
          return false;
        }
        SyncBasedataStart();
      }
      ok := true;
    }

    method Probe(linMemOffset: U32) returns (r: ProbeResult)
      requires Valid()
      modifies this`basedataStart, this`usableLinMemBytes, jobMemory`data, jobMemory`calls, jobMemory`bytes
      ensures Valid() && Basedata() == old(Basedata())
      ensures ProbeStep(old(View()), linMemOffset, r, View())
    {
      if linMemOffset < usableLinMemBytes {
        return Ok;
      }
      var allowedSizeInBytes := allowedLinMemPages * WASM_PAGE;
      if linMemOffset >= allowedSizeInBytes {
        return OutOfBounds;
      }
      var ok := EnsureLinearSize(Narrow(linMemOffset + 1));
      r := if ok then Ok else AllocationFailure;
    }

    method EnsureCapacityForLinearSize(requiredLinearBytes: U32) returns (ok: bool)
      requires jobMemory.Valid() && 0 < basedataSize < WORD32
      modifies this`basedataStart, jobMemory`data, jobMemory`calls, jobMemory`bytes
      ensures jobMemory.Valid()
      ensures (jobMemory.data == old(jobMemory.data) && jobMemory.bytes == old(jobMemory.bytes)
        && basedataStart == old(basedataStart))
              || (ok && basedataStart == jobMemory.data)
      ensures old(jobMemory.bytes) <= jobMemory.bytes
      ensures ok ==> jobMemory.data != 0 && Rounded(basedataSize + requiredLinearBytes) <= |jobMemory.bytes|
      ensures
        var total := Rounded(basedataSize + requiredLinearBytes);
        var housable := total <= UINT32_MAX && (total <= |old(jobMemory.bytes)| || total <= jobMemory.maxRam);
        (ok ==> housable) && (jobMemory.reliable && housable ==> ok)
      ensures
        var total := basedataSize + requiredLinearBytes + (basedataSize + requiredLinearBytes) % 2;
        var host, call := jobMemory.host, old(jobMemory.calls);
        total <= UINT32_MAX ==>
          var granted := host(call, ProposedLength(total, jobMemory.maxRam)) || host(call + 1, total);
          ok <==> total <= |old(jobMemory.bytes)| || (total <= jobMemory.maxRam && granted)
    {
      var requiredTotalSize := basedataSize + requiredLinearBytes;
      if requiredTotalSize > UINT32_MAX {
        return false;
      }
      var roundedRequiredSize := requiredTotalSize;
      if roundedRequiredSize % 2 != 0 {
        if roundedRequiredSize == UINT32_MAX {
          return false;
        }
        roundedRequiredSize := roundedRequiredSize + 1;
      }
      if |jobMemory.bytes| >= roundedRequiredSize {
        return true;
      }
      jobMemory.ExtensionRequest(roundedRequiredSize);
      ok := jobMemory.data != 0 && |jobMemory.bytes| >= roundedRequiredSize;
      if ok {
        SyncBasedataStart();
      }
    }

    method EnsureLinearSize(requiredLinearBytes: U32) returns (ok: bool)
      requires Valid()
      modifies this`basedataStart, this`usableLinMemBytes, jobMemory`data, jobMemory`calls, jobMemory`bytes
      ensures Valid() && Basedata() == old(Basedata())
      ensures EnsureStep(old(View()), requiredLinearBytes, ok, View())
    {
      if requiredLinearBytes <= usableLinMemBytes {
        return true;
      }
      ok := MakeRoom(requiredLinearBytes);
      if ok {
        ExposeZeros(requiredLinearBytes);
      }
    }

    // The capacity for so many linear bytes, with everything kept.
    method MakeRoom(requiredLinearBytes: U32) returns (ok: bool)
      requires Valid() && usableLinMemBytes < requiredLinearBytes
      modifies this`basedataStart, jobMemory`data, jobMemory`calls, jobMemory`bytes
      ensures Valid() && Basedata() == old(Basedata()) && Lin() == old(Lin())
      ensures ok ==> Rounded(basedataSize + requiredLinearBytes) <= |jobMemory.bytes|
      ensures if ok then |old(jobMemory.bytes)| <= |jobMemory.bytes| else |jobMemory.bytes| == |old(jobMemory.bytes)|
      ensures ok ==> old(Housable(View(), requiredLinearBytes))
      ensures jobMemory.reliable && old(Housable(View(), requiredLinearBytes)) ==> ok
    {
      ok := EnsureCapacityForLinearSize(requiredLinearBytes);
      GrownSlices(old(jobMemory.bytes), jobMemory.bytes, basedataSize, usableLinMemBytes);
    }

    // memset behind the bytes in use, which are then usable
    method ExposeZeros(requiredLinearBytes: U32)
      requires Valid()
      requires usableLinMemBytes <= requiredLinearBytes
      requires Rounded(basedataSize + requiredLinearBytes) <= |jobMemory.bytes|
      modifies this`usableLinMemBytes, jobMemory`bytes
      ensures Valid() && Basedata() == old(Basedata())
      ensures |jobMemory.bytes| == |old(jobMemory.bytes)| && usableLinMemBytes == requiredLinearBytes
      ensures Lin() == old(Lin()) + Zeros(requiredLinearBytes - old(usableLinMemBytes))
    {
      ZeroFill(jobMemory.bytes, basedataSize, usableLinMemBytes, requiredLinearBytes);
      var behind := basedataSize + usableLinMemBytes;
      jobMemory.bytes := Splice(jobMemory.bytes, behind, Zeros(requiredLinearBytes - usableLinMemBytes));
      usableLinMemBytes := requiredLinearBytes;
    }

    method SyncBasedataStart()
      modifies this`basedataStart
      ensures basedataStart == jobMemory.data
    {
      basedataStart := jobMemory.data;
    }
  }
}
