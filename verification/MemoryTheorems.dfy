// What follows from the refinement: last written bytes, agreement of the two modes, and where exactly
// bounds answers are right.
module MemoryTheorems {
  import opened Bytes
  import opened EagerMemory
  import opened LazyMemory
  import opened MemoryRefinement
  import AM = ActiveMemory
  import PM = PassiveMemory
  import A = ActiveRuntime
  import P = PassiveRuntime
  import opened Bits

  // ---------- every sequence of calls on the runtime objects is a run ----------

  method DriveActive(rt: A.Runtime, ops: seq<Op>) returns (obs: seq<Obs>)
    requires rt.Valid() && forall op :: op in ops ==> WellFormed(op)
    modifies rt`wasmPages, rt.memoryManager, rt.memoryManager.jobMemory`data, rt.memoryManager.jobMemory`calls
    modifies rt.memoryManager.jobMemory`bytes
    modifies rt.memoryManager.jobMemory`maxRam
    ensures rt.Valid() && |obs| == |ops|
    ensures rt.View().lazy.memory == Replay(old(rt.View()).lazy.memory, ops, obs, Exact)
    ensures Faithful(old(rt.View()).lazy.memory, ops, obs, Exact)
  {
    obs := [];
    ghost var states := [rt.View()];
    rt.ViewInv();
    while |obs| < |ops|
      invariant |obs| <= |ops| && |states| == |obs| + 1 && rt.Valid()
      invariant states[0] == old(rt.View()) && states[|obs|] == rt.View()
      invariant ActiveRun(states, ops[..|obs|], obs)
    {
      var op := ops[|obs|];
      rt.ViewInv();
      var o := rt.Perform(op);
      ActiveRunExtends(states, ops[..|obs|], obs, op, o, rt.View());
      assert ops[..|obs|] + [op] == ops[..|obs| + 1];
      obs, states := obs + [o], states + [rt.View()];
    }
    assert ops[..|obs|] == ops;
    ActiveRefinesEager(states, ops, obs);
  }

  lemma ActiveRunExtends(states: seq<A.Active>, ops: seq<Op>, obs: seq<Obs>, op: Op, o: Obs, s: A.Active)
    requires ActiveRun(states, ops, obs) && WellFormed(op)
    requires A.Inv(states[|ops|]) && A.OpStep(states[|ops|], op, o, s)
    ensures ActiveRun(states + [s], ops + [op], obs + [o])
  {
  }

  method DrivePassive(rt: P.Runtime, ops: seq<Op>) returns (obs: seq<Obs>)
    requires rt.Valid() && forall op :: op in ops ==> WellFormed(op) && (op.SetMaxRam? ==> op.maxRam < WORD64)
    modifies rt`landingPadData, rt.allocator`linMemPages, rt.allocator`pagedMemoryLimit
    modifies rt.allocator.virtualMemory`bytes
    ensures rt.Valid() && |obs| == |ops| && rt.allocator.virtualMemory.pageBits <= 16
    ensures rt.View().lazy.memory
      == Replay(old(rt.View()).lazy.memory, ops, obs, Paged(rt.allocator.virtualMemory.pageBits))
    ensures Faithful(old(rt.View()).lazy.memory, ops, obs, Paged(rt.allocator.virtualMemory.pageBits))
  {
    obs := [];
    ghost var states := [rt.View()];
    rt.ViewInv();
    while |obs| < |ops|
      invariant |obs| <= |ops| && |states| == |obs| + 1 && rt.Valid()
      invariant states[0] == old(rt.View()) && states[|obs|] == rt.View()
      invariant PassiveRun(states, ops[..|obs|], obs)
    {
      var op := ops[|obs|];
      rt.ViewInv();
      var o := rt.Perform(op);
      PassiveRunExtends(states, ops[..|obs|], obs, op, o, rt.View());
      assert ops[..|obs|] + [op] == ops[..|obs| + 1];
      obs, states := obs + [o], states + [rt.View()];
    }
    assert ops[..|obs|] == ops;
    PassiveRefinesEager(states, ops, obs);
  }

  lemma PassiveRunExtends(states: seq<P.Passive>, ops: seq<Op>, obs: seq<Obs>, op: Op, o: Obs, s: P.Passive)
    requires PassiveRun(states, ops, obs) && WellFormed(op)
    requires P.Inv(states[|ops|]) && P.OpStep(states[|ops|], op, o, s)
    ensures PassiveRun(states + [s], ops + [op], obs + [o])
  {
  }

  // ---------- a load returns the last byte stored, or zero ----------

  // The byte at an address, read off the history alone.
  ghost function LastByte(e: Eager, ops: seq<Op>, obs: seq<Obs>, mode: Mode, addr: nat): Byte
    requires |ops| == |obs| && ValidMode(mode)
  {
    if ops == [] then (if addr < |e.bytes| then e.bytes[addr] else 0)
    else
      var last := |ops| - 1;
      var op := ops[last];
      if op.Store? && obs[last] == Done && op.index + op.offset <= addr < op.index + op.offset + |op.data| then
        op.data[addr - (op.index + op.offset)]
      else if op.ShrinkTo? && obs[last] != OutOfMemory && Keep(mode, op) <= addr then 0
      else LastByte(e, ops[..last], obs[..last], mode, addr)
  }

  lemma FaithfulPrefix(e: Eager, ops: seq<Op>, obs: seq<Obs>, mode: Mode, k: nat)
    requires Valid(e) && |ops| == |obs| && ValidMode(mode) && forall op :: op in ops ==> WellFormed(op)
    requires Faithful(e, ops, obs, mode) && k <= |ops|
    ensures Faithful(e, ops[..k], obs[..k], mode)
  {
    forall i | 0 <= i < k
      ensures AnswersRightly(e, ops[..k], obs[..k], mode, i)
    {
      assert ops[..k][..i] == ops[..i] && obs[..k][..i] == obs[..i];
      assert AnswersRightly(e, ops, obs, mode, i);
    }
  }

  function ByteOrZero(bytes: seq<Byte>, addr: nat): Byte {
    if addr < |bytes| then bytes[addr] else 0
  }

  // What one operation of the eager memory does to the byte at an address.
  lemma StepByte(e: Eager, op: Op, keep: nat, addr: nat)
    requires Valid(e) && WellFormed(op)
    ensures
      var (e', o) := Step(e, op, keep);
      ByteOrZero(e'.bytes, addr) ==
      if op.Store? && o == Done && op.index + op.offset <= addr < op.index + op.offset + |op.data| then
        op.data[addr - (op.index + op.offset)]
      else if op.ShrinkTo? && keep <= addr then 0
      else ByteOrZero(e.bytes, addr)
  {
  }

  lemma {:induction false} ReplayIsLastByte(e: Eager, ops: seq<Op>, obs: seq<Obs>, mode: Mode, addr: nat)
    requires Valid(e) && |ops| == |obs| && ValidMode(mode) && forall op :: op in ops ==> WellFormed(op)
    requires Faithful(e, ops, obs, mode)
    ensures LastByte(e, ops, obs, mode, addr) == ByteOrZero(Replay(e, ops, obs, mode).bytes, addr)
  {
    if ops != [] {
      var last := |ops| - 1;
      FaithfulPrefix(e, ops, obs, mode, last);
      ReplayIsLastByte(e, ops[..last], obs[..last], mode, addr);
      var before := Replay(e, ops[..last], obs[..last], mode);
      StepByte(before, ops[last], Keep(mode, ops[last]), addr);
      assert AnswersRightly(e, ops, obs, mode, last);
    }
  }

  // Active mode: whatever a load answers is, byte by byte, what was stored there last, or zero.
  lemma ActiveLoadsLastBytes(states: seq<A.Active>, ops: seq<Op>, obs: seq<Obs>, i: nat, k: nat)
    requires ActiveRun(states, ops, obs) && i < |ops| && ops[i].Load? && obs[i].Bytes? && k < ops[i].width
    ensures |obs[i].read| == ops[i].width
    ensures obs[i].read[k]
      == LastByte(states[0].lazy.memory, ops[..i], obs[..i], Exact, ops[i].index + ops[i].offset + k)
  {
    ActiveRefinesEager(states, ops, obs);
    LoadsLastBytes(states[0].lazy.memory, ops, obs, Exact, i, k);
  }

  // Passive mode: the same, where a shrink cleared from the OS page it reached.
  lemma PassiveLoadsLastBytes(states: seq<P.Passive>, ops: seq<Op>, obs: seq<Obs>, i: nat, k: nat)
    requires PassiveRun(states, ops, obs) && i < |ops| && ops[i].Load? && obs[i].Bytes? && k < ops[i].width
    ensures |obs[i].read| == ops[i].width
    ensures obs[i].read[k] == LastByte(states[0].lazy.memory, ops[..i], obs[..i], Paged(states[0].pageBits),
                                       ops[i].index + ops[i].offset + k)
  {
    PassiveRefinesEager(states, ops, obs);
    LoadsLastBytes(states[0].lazy.memory, ops, obs, Paged(states[0].pageBits), i, k);
  }

  lemma LoadsLastBytes(e: Eager, ops: seq<Op>, obs: seq<Obs>, mode: Mode, i: nat, k: nat)
    requires Valid(e) && |ops| == |obs| && ValidMode(mode) && forall op :: op in ops ==> WellFormed(op)
    requires Faithful(e, ops, obs, mode)
    requires i < |ops| && ops[i].Load? && obs[i].Bytes? && k < ops[i].width
    ensures |obs[i].read| == ops[i].width
    ensures obs[i].read[k] == LastByte(e, ops[..i], obs[..i], mode, ops[i].index + ops[i].offset + k)
  {
    var before := Replay(e, ops[..i], obs[..i], mode);
    assert ops[i] in ops;
    AnswerAt(e, ops, obs, mode, i);
    LoadAnswer(before, ops[i], obs[i], Keep(mode, ops[i]), k);
    assert LastByte(e, ops[..i], obs[..i], mode, ops[i].index + ops[i].offset + k)
      == ByteOrZero(before.bytes, ops[i].index + ops[i].offset + k) by {
      FaithfulPrefix(e, ops, obs, mode, i);
      ReplayIsLastByte(e, ops[..i], obs[..i], mode, ops[i].index + ops[i].offset + k);
    }
  }

  lemma AnswerAt(e: Eager, ops: seq<Op>, obs: seq<Obs>, mode: Mode, i: nat)
    requires Valid(e) && |ops| == |obs| && ValidMode(mode) && forall op :: op in ops ==> WellFormed(op)
    requires Faithful(e, ops, obs, mode) && i < |ops| && obs[i] != OutOfMemory
    ensures ops[i] in ops
    ensures Agrees(ops[i], obs[i], Step(Replay(e, ops[..i], obs[..i], mode), ops[i], Keep(mode, ops[i])).1)
  {
    assert AnswersRightly(e, ops, obs, mode, i);
  }

  lemma LoadAnswer(before: Eager, op: Op, obs: Obs, keep: nat, k: nat)
    requires Valid(before) && WellFormed(op) && op.Load? && obs.Bytes? && k < op.width
    requires Agrees(op, obs, Step(before, op, keep).1)
    ensures |obs.read| == op.width && obs.read[k] == ByteOrZero(before.bytes, op.index + op.offset + k)
  {
  }

  // ---------- what memory.grow and out of bounds answers depend on ----------

  // The pages granted so far, read off the history alone.
  ghost function Granted(ops: seq<Op>, obs: seq<Obs>): nat
    requires |ops| == |obs|
  {
    if ops == [] then 0
    else
      var last := |ops| - 1;
      Granted(ops[..last], obs[..last])
      + if ops[last].MemoryGrow? && obs[last].Pages? && obs[last].result != 0xFFFF_FFFF then ops[last].delta else 0
  }

  lemma {:induction false} ReplayGranted(e: Eager, ops: seq<Op>, obs: seq<Obs>, mode: Mode)
    requires Valid(e) && |ops| == |obs| && ValidMode(mode) && forall op :: op in ops ==> WellFormed(op)
    requires Faithful(e, ops, obs, mode)
    ensures
      var now := Replay(e, ops, obs, mode);
      now.pages == e.pages + Granted(ops, obs) && now.maxPages == e.maxPages && |now.bytes| == 0x1_0000 * now.pages
  {
    if ops != [] {
      var last := |ops| - 1;
      FaithfulPrefix(e, ops, obs, mode, last);
      ReplayGranted(e, ops[..last], obs[..last], mode);
      assert ops[last] in ops && AnswersRightly(e, ops, obs, mode, last);
    }
  }

  // memory.grow answers the pages there were, and grants what it is asked for if and only if the maximum allows it.
  ghost predicate GrowAnswered(obs: Obs, pages: nat, maxPages: nat, delta: nat) {
    obs.Pages? && obs.result == if pages + delta <= maxPages then pages else 0xFFFF_FFFF
  }

  lemma GrowAnswers(e: Eager, ops: seq<Op>, obs: seq<Obs>, mode: Mode, i: nat)
    requires Valid(e) && |ops| == |obs| && ValidMode(mode) && forall op :: op in ops ==> WellFormed(op)
    requires Faithful(e, ops, obs, mode) && i < |ops| && ops[i].MemoryGrow? && obs[i] != OutOfMemory
    ensures GrowAnswered(obs[i], e.pages + Granted(ops[..i], obs[..i]), e.maxPages, ops[i].delta)
  {
    FaithfulPrefix(e, ops, obs, mode, i);
    ReplayGranted(e, ops[..i], obs[..i], mode);
    AnswerAt(e, ops, obs, mode, i);
  }

  // An access is out of bounds if and only if it reaches beyond the pages granted so far.
  lemma RangeAnswers(e: Eager, ops: seq<Op>, obs: seq<Obs>, mode: Mode, i: nat)
    requires Valid(e) && |ops| == |obs| && ValidMode(mode) && forall op :: op in ops ==> WellFormed(op)
    requires Faithful(e, ops, obs, mode) && i < |ops| && obs[i] != OutOfMemory
    ensures
      var room := 0x1_0000 * (e.pages + Granted(ops[..i], obs[..i]));
      && (ops[i].Load? ==> (obs[i] == OutOfRange <==> ops[i].index + ops[i].offset + ops[i].width > room))
      && (ops[i].Store? ==> (obs[i] == OutOfRange <==> ops[i].index + ops[i].offset + |ops[i].data| > room))
  {
    FaithfulPrefix(e, ops, obs, mode, i);
    ReplayGranted(e, ops[..i], obs[..i], mode);
    AnswerAt(e, ops, obs, mode, i);
  }

  lemma ActiveGrows(states: seq<A.Active>, ops: seq<Op>, obs: seq<Obs>, i: nat)
    requires ActiveRun(states, ops, obs) && i < |ops| && ops[i].MemoryGrow?
    ensures
      var e := states[0].lazy.memory;
      GrowAnswered(obs[i], e.pages + Granted(ops[..i], obs[..i]), e.maxPages, ops[i].delta)
  {
    ActiveRefinesEager(states, ops, obs);
    assert A.OpStep(states[i], ops[i], obs[i], states[i + 1]);
    GrowAnswers(states[0].lazy.memory, ops, obs, Exact, i);
  }

  lemma PassiveGrows(states: seq<P.Passive>, ops: seq<Op>, obs: seq<Obs>, i: nat)
    requires PassiveRun(states, ops, obs) && i < |ops| && ops[i].MemoryGrow?
    ensures
      var e := states[0].lazy.memory;
      GrowAnswered(obs[i], e.pages + Granted(ops[..i], obs[..i]), e.maxPages, ops[i].delta)
  {
    PassiveRefinesEager(states, ops, obs);
    assert P.OpStep(states[i], ops[i], obs[i], states[i + 1]);
    GrowAnswers(states[0].lazy.memory, ops, obs, Paged(states[0].pageBits), i);
  }

  // ---------- the two modes agree ----------

  // With shrinks to whole OS pages and no failed allocation, a program cannot tell the modes apart.
  lemma ModesAgree(active: seq<A.Active>, passive: seq<P.Passive>, ops: seq<Op>, obsA: seq<Obs>, obsP: seq<Obs>)
    requires ActiveRun(active, ops, obsA) && PassiveRun(passive, ops, obsP)
    requires active[0].lazy.memory == passive[0].lazy.memory
    requires OutOfMemory !in obsA && OutOfMemory !in obsP
    requires forall op :: op in ops && op.ShrinkTo? ==> Aligned(op.minimumLength, passive[0].pageBits)
    ensures active[|ops|].lazy.memory == passive[|ops|].lazy.memory
    ensures forall i :: 0 <= i < |ops| && !ops[i].ShrinkTo? && !ops[i].SetMaxRam? ==> obsA[i] == obsP[i]
  {
    ActiveRefinesEager(active, ops, obsA);
    PassiveRefinesEager(passive, ops, obsP);
    var e, paged := active[0].lazy.memory, Paged(passive[0].pageBits);
    SameReplay(e, ops, obsA, obsP, passive[0].pageBits);
    forall i | 0 <= i < |ops| && !ops[i].ShrinkTo? && !ops[i].SetMaxRam?
      ensures obsA[i] == obsP[i]
    {
      SameReplay(e, ops[..i], obsA[..i], obsP[..i], passive[0].pageBits);
      var before := Replay(e, ops[..i], obsA[..i], Exact);
      assert obsA[i] in obsA && obsP[i] in obsP;
      assert AnswersRightly(e, ops, obsA, Exact, i) && AnswersRightly(e, ops, obsP, paged, i);
      assert Agrees(ops[i], obsA[i], Step(before, ops[i], Keep(Exact, ops[i])).1);
      assert Agrees(ops[i], obsP[i], Step(before, ops[i], Keep(paged, ops[i])).1);
    }
  }

  lemma {:induction false} SameReplay(e: Eager, ops: seq<Op>, obsA: seq<Obs>, obsP: seq<Obs>, pageBits: nat)
    requires Valid(e) && |ops| == |obsA| == |obsP| && pageBits <= 16 && forall op :: op in ops ==> WellFormed(op)
    requires OutOfMemory !in obsA && OutOfMemory !in obsP
    requires forall op :: op in ops && op.ShrinkTo? ==> Aligned(op.minimumLength, pageBits)
    ensures Replay(e, ops, obsA, Exact) == Replay(e, ops, obsP, Paged(pageBits))
  {
    if ops != [] {
      var last := |ops| - 1;
      SameReplay(e, ops[..last], obsA[..last], obsP[..last], pageBits);
      assert ops[last] in ops && obsA[last] in obsA && obsP[last] in obsP;
      if ops[last].ShrinkTo? {
        PM.PageDownIsGreatest(ops[last].minimumLength, pageBits, ops[last].minimumLength);
      }
    }
  }

  // Probes of the same memory agree, whatever happens to be usable or committed in either mode.
  lemma ProbesAgree(a: A.Active, p: P.Passive, offset: U32, rA: ProbeResult, rP: ProbeResult, a': A.Active,
                    p': P.Passive)
    requires A.Inv(a) && P.Inv(p) && a.lazy.memory == p.lazy.memory && offset < UINT32_MAX
    requires A.RefreshedProbe(a, offset, rA, a') && P.PageProbe(p, offset, rP, p')
    ensures rA == OutOfBounds <==> offset >= WASM_PAGE * a.lazy.memory.pages
    ensures rP == OutOfBounds <==> offset >= WASM_PAGE * a.lazy.memory.pages
    ensures rA != AllocationFailure && rP != AllocationFailure ==> rA == rP
  {
  }

  // ---------- which trap an access ends in ----------

  // Active mode with a host that does not refuse: an access completes if and only if its bytes are usable, or are
  // in the memory and the growth limit has room for them; it traps out of bounds only as long as basedata plus the
  // access still fit 32 bits.
  lemma ActiveTraps(s: A.Active, a: nat, width: nat, obs: Obs, s': A.Active)
    requires A.Inv(s) && width > 0 && A.LoadStep(s, a, width, obs, s') && s.reliable
    ensures ResultOf(obs) == Ok <==> ActiveReaches(s, a + width)
    ensures obs == OutOfRange <==> a + width > |s.lazy.memory.bytes| && a + width + s.basedataSize <= UINT32_MAX
    ensures obs == OutOfMemory <==>
      (a + width + s.basedataSize > UINT32_MAX
        || (s.lazy.usable < a + width <= |s.lazy.memory.bytes| && !A.HasRoom(s, a + width)))
  {
  }

  predicate ActiveReaches(s: A.Active, n: nat) {
    n <= s.lazy.usable || (n <= |s.lazy.memory.bytes| && A.HasRoom(s, n))
  }

  predicate PassiveReaches(s: P.Passive, n: nat)
    requires s.pageBits <= 16 && n <= WORD64 - 0x1_0000
  {
    n <= s.lazy.usable || (n <= |s.lazy.memory.bytes| && P.RoomFor(s, n))
  }

  // Passive mode with an OS that does not refuse: an access completes if and only if its bytes are committed, or are
  // in the memory and the limit has room for their pages. Outside the memory it traps out of bounds, unless it starts
  // inside and the limit has no room for the allowed pages in front of the end.
  lemma PassiveTraps(s: P.Passive, a: nat, width: nat, obs: Obs, s': P.Passive)
    requires P.Inv(s) && width > 0 && a + width <= WORD64 - 0x1_0000 && P.LoadStep(s, a, width, obs, s') && s.reliable
    ensures ResultOf(obs) == Ok <==> PassiveReaches(s, a + width)
    ensures obs == OutOfRange ==> a + width > |s.lazy.memory.bytes|
    ensures a + width > |s.lazy.memory.bytes| && (a >= |s.lazy.memory.bytes| || P.RoomFor(s, |s.lazy.memory.bytes|))
      ==> obs == OutOfRange
  {
    var n := a + width;
    if n <= s.lazy.usable {
      PM.PageUpIsLeast(n, s.pageBits, s.lazy.usable);
    }
  }

  // An access across the end of the memory, with no room for its last allowed page: which trap it ends in is left
  // to the order in which the hardware finds the bytes missing.
  lemma StraddlingAccessEitherTrap()
    ensures
      var s := P.Passive(Lazy(Eager(Zeros(WASM_PAGE), 1, 1), 0), WASM_PAGE, WASM_PAGE, 16, true);
      P.Inv(s) && P.LoadStep(s, WASM_PAGE - 1, 2, OutOfRange, s) && P.LoadStep(s, WASM_PAGE - 1, 2, OutOfMemory, s)
  {
    AlignedZero(16);
    PM.WasmPagesAligned(1, 16);
    PM.PageUpIsLeast(WASM_PAGE, 16, WASM_PAGE);
  }

  // So the modes end an access inside the memory alike exactly when it reaches its bytes in both or in neither, and
  // one outside exactly when basedata plus its end fit 32 bits and no page in front is missing.
  lemma TrapsAgreeExactly(a: A.Active, p: P.Passive, at: nat, width: nat, obsA: Obs, obsP: Obs, a': A.Active,
                          p': P.Passive)
    requires A.Inv(a) && P.Inv(p) && a.lazy.memory == p.lazy.memory && width > 0 && at + width <= WORD64 - 0x1_0000
    requires A.LoadStep(a, at, width, obsA, a') && P.LoadStep(p, at, width, obsP, p') && a.reliable && p.reliable
    ensures at + width <= |a.lazy.memory.bytes| ==>
      (ResultOf(obsA) == ResultOf(obsP) <==> (ActiveReaches(a, at + width) <==> PassiveReaches(p, at + width)))
    ensures
      var size := |a.lazy.memory.bytes|;
      at + width > size && (at >= size || P.RoomFor(p, size)) ==>
      (ResultOf(obsA) == ResultOf(obsP) <==> at + width + a.basedataSize <= UINT32_MAX)
  {
    ActiveTraps(a, at, width, obsA, a');
    PassiveTraps(p, at, width, obsP, p');
  }

  // A load far outside a one-page memory ends in LINMEM_COULDNOTEXTEND instead of out of bounds.
  lemma ActiveTrapWitness()
    ensures
      var s := A.Active(Lazy(Eager(Zeros(WASM_PAGE), 1, 1), 0), 1, 16, 0x2_0000, 0x2_0000, true);
      && A.Inv(s)
      && A.LoadStep(s, UINT32_MAX, 1, OutOfMemory, s)
      && forall s' :: !A.LoadStep(s, UINT32_MAX, 1, OutOfRange, s')
  {
  }

  // ---------- where host regions are answered rightly ----------

  // Active mode: an accepted region is really usable exactly when it ends below 2^32 - 1.
  lemma ActiveRegionExact(s: A.Active, start: U32, size: U32, s': A.Active)
    requires A.Inv(s) && size > 0 && A.RegionStep(s, start, size, Done, s')
    ensures start + size <= s'.lazy.usable <==> start + size <= UINT32_MAX
  {
  }

  // Passive mode: exactly when it ends inside the 32-bit address space.
  lemma PassiveRegionExact(s: P.Passive, start: U32, size: U32, s': P.Passive)
    requires P.Inv(s) && size > 0 && P.RegionStep(s, start, size, Done, s')
    ensures start + size <= s'.lazy.usable <==> start + size <= WORD32
  {
    PassiveProbe(s, Narrow(start + size - 1), Ok, s');
  }

  // The last byte of a full memory: accepted in active mode, and not made usable.
  lemma ActiveRegionWitness()
    ensures
      var s := A.Active(Lazy(Eager(Zeros(WASM_PAGE * MAX_WASM_PAGES), MAX_WASM_PAGES, MAX_WASM_PAGES), 0),
                        MAX_WASM_PAGES, 16, 16, 16, true);
      A.Inv(s) && A.RegionStep(s, UINT32_MAX, 1, Done, s)
  {
  }

  // A region that starts at the top of the address space wraps to offset 0, and is accepted in passive mode.
  lemma PassiveRegionWitness()
    ensures
      var s := P.Passive(Lazy(Eager(Zeros(WASM_PAGE), 1, 1), WASM_PAGE), WASM_PAGE, 2 * WASM_PAGE, 0, true);
      P.Inv(s) && P.RegionStep(s, UINT32_MAX, 2, Done, s)
  {
  }

  // ---------- where data segments are housed rightly ----------

  // One round of the data section's loop, whose 32-bit sum of start and size may wrap: a segment it lets through is
  // inside the usable bytes exactly when it ends below 2^32.
  lemma ActiveSegmentExact(m: AM.Manager, g: Segment, m': AM.Manager)
    requires |m.lin| <= UINT32_MAX
    requires if Narrow(End(g)) > |m.lin| then AM.ProbeStep(m, Narrow(End(g)) - 1, Ok, m') else m' == m
    requires End(g) < 2 * WORD32
    ensures End(g) <= |m'.lin| <==> End(g) <= UINT32_MAX
  {
  }

  // Passive mode: also when its bytes happen to be committed already.
  lemma PassiveSegmentExact(m: PM.Manager, maximumDataOffset: nat, g: Segment, m': PM.Manager)
    requires PM.InBounds(m) && maximumDataOffset <= |m.lin| && End(g) < 2 * WORD32
    requires if Narrow(End(g)) > maximumDataOffset then PM.ProbeStep(m, Narrow(End(g)) - 1, Ok, m') else m' == m
    ensures End(g) <= |m'.lin| <==> End(g) <= UINT32_MAX || End(g) <= |m.lin|
  {
    if Narrow(End(g)) > maximumDataOffset {
      PassiveSegmentProbed(m, Narrow(End(g)) - 1, m');
    }
  }

  lemma PassiveSegmentProbed(m: PM.Manager, offset: U32, m': PM.Manager)
    requires PM.InBounds(m) && PM.ProbeStep(m, offset, Ok, m')
    ensures m' == m || offset < |m'.lin| <= WASM_PAGE * m.pages
    ensures offset < |m'.lin|
  {
    PM.WasmPagesAligned(m.pages, m.pageBits);
    if offset < WASM_PAGE * m.pages {
      PM.PageUpIsLeast(offset + 1, m.pageBits, WASM_PAGE * m.pages);
    }
  }

  // A module without memory has page count 2^32 - 1 in its basedata, and none in its manager. Refreshing from the
  // basedata, the active mode never answers out of bounds to a host: it grants every region the growth limit has
  // room for.
  method NoMemoryModule(rt: A.Runtime, basedataSize: U32, start: U32, size: U32) returns (ok: bool, obs: Obs)
    requires A.ACTUAL_LINMEM_BYTE_SIZE <= basedataSize && rt.memoryManager.jobMemory.Valid()
    modifies rt`wasmPages, rt.memoryManager, rt.memoryManager.jobMemory`data, rt.memoryManager.jobMemory`calls
    modifies rt.memoryManager.jobMemory`bytes
    ensures ok ==> obs != OutOfRange
    ensures
      var end := start + size;
      0 < size && end <= UINT32_MAX && Granting(rt.memoryManager.jobMemory, basedataSize + end) ==>
              ok && obs == Done && rt.memoryManager.usableLinMemBytes == start + size
  {
    ok := rt.InitializeWithoutMemory(basedataSize);
    obs := Refused;
    if ok {
      ghost var m := rt.memoryManager.View().(allowedPages := UINT32_MAX);
      obs := rt.GetLinearMemoryRegion(start, size);
      if 0 < size {
        FirstRegion(m, Narrow(start + size - 1), ResultOf(obs), rt.memoryManager.View());
      }
    }
  }

  ghost predicate Granting(memory: AM.ExtendableMemory, total: nat)
    reads memory`maxRam
  {
    memory.reliable && AM.Grantable(total, memory.maxRam)
  }

  lemma FirstRegion(m: AM.Manager, offset: U32, r: ProbeResult, m': AM.Manager)
    requires m.lin == [] && m.allowedPages == UINT32_MAX && AM.ProbeStep(m, offset, r, m')
    ensures r != OutOfBounds && m'.maxRam == m.maxRam
    ensures offset < UINT32_MAX && m.reliable && AM.Grantable(m.basedataSize + offset + 1, m.maxRam) ==>
              r == Ok && |m'.lin| == offset + 1
  {
  }

  // The passive mode asks its allocator, which knows of no pages, and always answers out of bounds.
  method NoMemoryPassive(allocator: PM.LinearMemoryAllocator, basedataSize: U32, offset: U32)
    returns (ok: bool, r: ProbeResult)
    requires 0 < basedataSize && allocator.virtualMemory.Valid() && allocator.pagedMemoryLimit < WORD64
    modifies allocator, allocator.virtualMemory`data, allocator.virtualMemory`bytes, allocator.virtualMemory`totalSize
    ensures ok ==> r == OutOfBounds
  {
    ok := allocator.Init(basedataSize, 0);
    r := AllocationFailure;
    if ok {
      r := allocator.Probe(offset);
    }
  }
}
