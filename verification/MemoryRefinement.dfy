// Both lazy memories refine the eager one over every run, and therefore agree with each other.
module MemoryRefinement {
  import opened Bytes
  import opened EagerMemory
  import opened LazyMemory
  import PM = PassiveMemory
  import A = ActiveRuntime
  import P = PassiveRuntime

  // ---------- one step ----------

  lemma ActiveIsLazy(s: A.Active, op: Op, obs: Obs, s': A.Active)
    requires A.Inv(s) && WellFormed(op) && A.OpStep(s, op, obs, s')
    ensures A.Inv(s')
    ensures LazyStep(s.lazy, op, obs, s'.lazy, Exact)
  {
    match op {
      case MemoryGrow(delta) => ActiveGrow(s, delta, obs, s');
      case Load(index, offset, width) => A.AccessReaches(s, index + offset + width, ResultOf(obs), s');
      case Store(index, offset, data) => ActiveStore(s, index + offset, data, obs, s');
      case HostRegion(start, size) => ActiveRegion(s, start, size, obs, s');
      case ShrinkTo(n) => ActiveShrink(s, n, obs, s');
      case SetMaxRam(_) =>
    }
  }

  lemma ActiveGrow(s: A.Active, delta: U32, obs: Obs, s': A.Active)
    requires A.Inv(s) && A.GrowStep(s, delta, obs, s')
    ensures A.Inv(s')
  {
  }

  lemma ActiveStore(s: A.Active, a: nat, data: seq<Byte>, obs: Obs, s': A.Active)
    requires A.Inv(s) && 1 <= |data| && A.StoreStep(s, a, data, obs, s')
    ensures A.Inv(s')
  {
    A.AccessReaches(s, a + |data|, ResultOf(obs), s'.(lazy := s.lazy.(usable := s'.lazy.usable)));
  }

  // A host region that ends below 2^32 - 1 is answered by the true bounds of the memory.
  lemma ActiveRegion(s: A.Active, start: U32, size: U32, obs: Obs, s': A.Active)
    requires A.Inv(s) && start + size <= UINT32_MAX && A.RegionStep(s, start, size, obs, s')
    ensures A.Inv(s') && LazyRegion(s.lazy, start, size, obs, s'.lazy)
  {
  }

  lemma ActiveShrink(s: A.Active, n: U32, obs: Obs, s': A.Active)
    requires A.Inv(s) && A.ShrinkToStep(s, n, obs, s')
    ensures A.Inv(s')
  {
  }

  lemma PassiveIsLazy(s: P.Passive, op: Op, obs: Obs, s': P.Passive)
    requires P.Inv(s) && WellFormed(op) && P.OpStep(s, op, obs, s')
    ensures P.Inv(s') && s'.pageBits == s.pageBits
    ensures LazyStep(s.lazy, op, obs, s'.lazy, Paged(s.pageBits))
  {
    if op.Load? || op.Store? {
      PassiveAccess(s, op, obs, s');
    } else {
      PassiveRest(s, op, obs, s');
    }
  }

  lemma PassiveAccess(s: P.Passive, op: Op, obs: Obs, s': P.Passive)
    requires P.Inv(s) && WellFormed(op) && (op.Load? || op.Store?) && P.OpStep(s, op, obs, s')
    ensures P.Inv(s') && s'.pageBits == s.pageBits
    ensures LazyStep(s.lazy, op, obs, s'.lazy, Paged(s.pageBits))
  {
    if op.Load? {
      PassiveLoad(s, op.index + op.offset, op.width, obs, s');
    } else {
      PassiveStore(s, op.index + op.offset, op.data, obs, s');
    }
  }

  lemma PassiveRest(s: P.Passive, op: Op, obs: Obs, s': P.Passive)
    requires P.Inv(s) && WellFormed(op) && !op.Load? && !op.Store? && P.OpStep(s, op, obs, s')
    ensures P.Inv(s') && s'.pageBits == s.pageBits
    ensures LazyStep(s.lazy, op, obs, s'.lazy, Paged(s.pageBits))
  {
    match op {
      case MemoryGrow(delta) => PassiveGrow(s, delta, obs, s');
      case HostRegion(start, size) => PassiveRegion(s, start, size, obs, s');
      case ShrinkTo(n) => PassiveShrink(s, n, obs, s');
      case SetMaxRam(maxRam) => PassiveLimit(s, maxRam, obs, s');
    }
  }

  lemma PassiveGrow(s: P.Passive, delta: U32, obs: Obs, s': P.Passive)
    requires P.Inv(s) && P.GrowStep(s, delta, obs, s')
    ensures P.Inv(s') && s'.pageBits == s.pageBits
  {
  }

  lemma PassiveLoad(s: P.Passive, a: nat, width: nat, obs: Obs, s': P.Passive)
    requires P.Inv(s) && a + width <= WORD64 - 0x1_0000 && P.LoadStep(s, a, width, obs, s')
    ensures P.Inv(s') && s'.pageBits == s.pageBits && LazyLoad(s.lazy, a, width, obs, s'.lazy)
  {
  }

  lemma PassiveStore(s: P.Passive, a: nat, data: seq<Byte>, obs: Obs, s': P.Passive)
    requires P.Inv(s) && a + |data| <= WORD64 - 0x1_0000 && P.StoreStep(s, a, data, obs, s')
    ensures P.Inv(s') && s'.pageBits == s.pageBits && LazyStore(s.lazy, a, data, obs, s'.lazy)
  {
  }

  lemma PassiveRegion(s: P.Passive, start: U32, size: U32, obs: Obs, s': P.Passive)
    requires P.Inv(s) && start + size <= UINT32_MAX && P.RegionStep(s, start, size, obs, s')
    ensures P.Inv(s') && s'.pageBits == s.pageBits && LazyRegion(s.lazy, start, size, obs, s'.lazy)
  {
    if size != 0 {
      PassiveProbe(s, start + size - 1, ResultOf(obs), s');
    }
  }

  lemma PassiveProbe(s: P.Passive, offset: U32, r: ProbeResult, s': P.Passive)
    requires P.Inv(s) && P.PageProbe(s, offset, r, s')
    ensures P.Inv(s') && Reach(s.lazy, offset + 1, r, s'.lazy)
  {
    PM.WasmPagesAligned(s.lazy.memory.pages, s.pageBits);
    if s.lazy.usable <= offset < WASM_PAGE * s.lazy.memory.pages {
      PM.PageUpIsLeast(offset + 1, s.pageBits, WASM_PAGE * s.lazy.memory.pages);
    }
  }

  lemma PassiveShrink(s: P.Passive, n: U32, obs: Obs, s': P.Passive)
    requires P.Inv(s) && P.ShrinkToStep(s, n, obs, s')
    ensures P.Inv(s') && s'.pageBits == s.pageBits
  {
  }

  lemma PassiveLimit(s: P.Passive, maxRam: nat, obs: Obs, s': P.Passive)
    requires P.Inv(s) && P.LimitStep(s, maxRam, obs, s')
    ensures P.Inv(s') && s'.pageBits == s.pageBits && s'.lazy == s.lazy && obs in {Done, Refused}
  {
  }

  // ---------- whole runs ----------

  // The eager memory after a run; operations that ran out of memory had no effect.
  ghost function Replay(e: Eager, ops: seq<Op>, obs: seq<Obs>, mode: Mode): (r: Eager)
    requires Valid(e) && |ops| == |obs| && ValidMode(mode) && forall op :: op in ops ==> WellFormed(op)
    ensures Valid(r)
  {
    if ops == [] then e
    else
      var last := |ops| - 1;
      var before := Replay(e, ops[..last], obs[..last], mode);
      if obs[last] == OutOfMemory then before else Step(before, ops[last], Keep(mode, ops[last])).0
  }

  // Every answer is the one the eager memory gives at that point of the run, unless memory ran out.
  ghost predicate Faithful(e: Eager, ops: seq<Op>, obs: seq<Obs>, mode: Mode)
    requires Valid(e) && |ops| == |obs| && ValidMode(mode) && forall op :: op in ops ==> WellFormed(op)
  {
    forall i :: 0 <= i < |ops| ==> AnswersRightly(e, ops, obs, mode, i)
  }

  ghost predicate AnswersRightly(e: Eager, ops: seq<Op>, obs: seq<Obs>, mode: Mode, i: nat)
    requires Valid(e) && |ops| == |obs| && ValidMode(mode) && (forall op :: op in ops ==> WellFormed(op)) && i < |ops|
  {
    var before := Replay(e, ops[..i], obs[..i], mode);
    assert ops[i] in ops;
    obs[i] == OutOfMemory || Agrees(ops[i], obs[i], Step(before, ops[i], Keep(mode, ops[i])).1)
  }

  ghost predicate ActiveRun(states: seq<A.Active>, ops: seq<Op>, obs: seq<Obs>) {
    && |states| == |ops| + 1 && |obs| == |ops|
    && A.Inv(states[0])
    && (forall op :: op in ops ==> WellFormed(op))
    && forall i :: 0 <= i < |ops| ==> A.Inv(states[i]) ==> A.OpStep(states[i], ops[i], obs[i], states[i + 1])
  }

  ghost predicate PassiveRun(states: seq<P.Passive>, ops: seq<Op>, obs: seq<Obs>) {
    && |states| == |ops| + 1 && |obs| == |ops|
    && P.Inv(states[0])
    && (forall op :: op in ops ==> WellFormed(op))
    && forall i :: 0 <= i < |ops| ==> P.Inv(states[i]) ==> P.OpStep(states[i], ops[i], obs[i], states[i + 1])
  }

  // A run of lazy memories, whatever mode they come from.
  ghost predicate LazyRun(states: seq<Lazy>, ops: seq<Op>, obs: seq<Obs>, mode: Mode) {
    && |states| == |ops| + 1 && |obs| == |ops| && ValidMode(mode)
    && (forall op :: op in ops ==> WellFormed(op))
    && (forall i :: 0 <= i < |states| ==> LazyInv(states[i]))
    && forall i :: 0 <= i < |ops| ==> LazyStep(states[i], ops[i], obs[i], states[i + 1], mode)
  }

  lemma {:induction false} LazyRunReplays(states: seq<Lazy>, ops: seq<Op>, obs: seq<Obs>, mode: Mode)
    requires LazyRun(states, ops, obs, mode)
    ensures states[|ops|].memory == Replay(states[0].memory, ops, obs, mode)
  {
    if ops != [] {
      var last := |ops| - 1;
      LazyRunReplays(states[..last + 1], ops[..last], obs[..last], mode);
      assert states[..last + 1][last] == states[last];
      LazyRefines(states[last], ops[last], obs[last], states[last + 1], mode);
    }
  }

  lemma LazyRunFaithful(states: seq<Lazy>, ops: seq<Op>, obs: seq<Obs>, mode: Mode)
    requires LazyRun(states, ops, obs, mode)
    ensures Faithful(states[0].memory, ops, obs, mode)
  {
    forall i | 0 <= i < |ops|
      ensures AnswersRightly(states[0].memory, ops, obs, mode, i)
    {
      LazyRunReplays(states[..i + 1], ops[..i], obs[..i], mode);
      assert states[..i + 1][i] == states[i];
      LazyRefines(states[i], ops[i], obs[i], states[i + 1], mode);
    }
  }

  lemma {:induction false} ActiveRunKeepsInv(states: seq<A.Active>, ops: seq<Op>, obs: seq<Obs>, k: nat)
    requires ActiveRun(states, ops, obs) && k < |states|
    ensures A.Inv(states[k])
  {
    if k > 0 {
      ActiveRunKeepsInv(states, ops, obs, k - 1);
      ActiveIsLazy(states[k - 1], ops[k - 1], obs[k - 1], states[k]);
    }
  }

  lemma {:induction false} PassiveRunKeepsInv(states: seq<P.Passive>, ops: seq<Op>, obs: seq<Obs>, k: nat)
    requires PassiveRun(states, ops, obs) && k < |states|
    ensures P.Inv(states[k]) && states[k].pageBits == states[0].pageBits
  {
    if k > 0 {
      PassiveRunKeepsInv(states, ops, obs, k - 1);
      PassiveIsLazy(states[k - 1], ops[k - 1], obs[k - 1], states[k]);
    }
  }

  // Main result, active mode: over every run, whatever the host's realloc does, the memory is the eager
  // one and every answer is the eager memory's answer.
  lemma ActiveRefinesEager(states: seq<A.Active>, ops: seq<Op>, obs: seq<Obs>)
    requires ActiveRun(states, ops, obs)
    ensures forall i :: 0 <= i < |states| ==> A.Inv(states[i])
    ensures states[|ops|].lazy.memory == Replay(states[0].lazy.memory, ops, obs, Exact)
    ensures Faithful(states[0].lazy.memory, ops, obs, Exact)
  {
    var lazies := ActiveLazies(states, ops, obs);
    LazyRunReplays(lazies, ops, obs, Exact);
    LazyRunFaithful(lazies, ops, obs, Exact);
  }

  lemma ActiveLazies(states: seq<A.Active>, ops: seq<Op>, obs: seq<Obs>) returns (lazies: seq<Lazy>)
    requires ActiveRun(states, ops, obs)
    ensures forall i :: 0 <= i < |states| ==> A.Inv(states[i])
    ensures |lazies| == |states| && forall i :: 0 <= i < |states| ==> lazies[i] == states[i].lazy
    ensures LazyRun(lazies, ops, obs, Exact)
  {
    forall i | 0 <= i < |states|
      ensures A.Inv(states[i])
    {
      ActiveRunKeepsInv(states, ops, obs, i);
    }
    lazies := seq(|states|, i requires 0 <= i < |states| => states[i].lazy);
    forall i | 0 <= i < |ops|
      ensures LazyStep(lazies[i], ops[i], obs[i], lazies[i + 1], Exact)
    {
      ActiveIsLazy(states[i], ops[i], obs[i], states[i + 1]);
    }
  }

  // Main result, passive mode: the same, with shrinks rounded down to the OS page.  Every reachable state
  // keeps the committed size page-aligned, inside the allowed pages and inside the memory limit.
  lemma PassiveRefinesEager(states: seq<P.Passive>, ops: seq<Op>, obs: seq<Obs>)
    requires PassiveRun(states, ops, obs)
    ensures forall i :: 0 <= i < |states| ==> P.Inv(states[i])
    ensures states[|ops|].lazy.memory == Replay(states[0].lazy.memory, ops, obs, Paged(states[0].pageBits))
    ensures Faithful(states[0].lazy.memory, ops, obs, Paged(states[0].pageBits))
  {
    var lazies := PassiveLazies(states, ops, obs);
    LazyRunReplays(lazies, ops, obs, Paged(states[0].pageBits));
    LazyRunFaithful(lazies, ops, obs, Paged(states[0].pageBits));
  }

  lemma PassiveLazies(states: seq<P.Passive>, ops: seq<Op>, obs: seq<Obs>) returns (lazies: seq<Lazy>)
    requires PassiveRun(states, ops, obs)
    ensures forall i :: 0 <= i < |states| ==> P.Inv(states[i])
    ensures |lazies| == |states| && forall i :: 0 <= i < |states| ==> lazies[i] == states[i].lazy
    ensures LazyRun(lazies, ops, obs, Paged(states[0].pageBits))
  {
    forall i | 0 <= i < |states|
      ensures P.Inv(states[i]) && states[i].pageBits == states[0].pageBits
    {
      PassiveRunKeepsInv(states, ops, obs, i);
    }
    lazies := seq(|states|, i requires 0 <= i < |states| => states[i].lazy);
    forall i | 0 <= i < |ops|
      ensures LazyStep(lazies[i], ops[i], obs[i], lazies[i + 1], Paged(states[0].pageBits))
    {
      PassiveIsLazy(states[i], ops[i], obs[i], states[i + 1]);
    }
  }
}
