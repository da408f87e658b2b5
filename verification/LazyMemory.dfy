// What the two memory managers have in common: a memory of which only a prefix is usable without help,
// while every allowed byte behind that prefix stands for zero.
module LazyMemory {
  import opened Bytes
  import opened EagerMemory
  import PassiveMemory

  datatype Lazy = Lazy(memory: Eager, usable: nat)

  ghost predicate LazyInv(s: Lazy) {
    && Valid(s.memory)
    && s.usable <= |s.memory.bytes|
    && forall i :: s.usable <= i < |s.memory.bytes| ==> s.memory.bytes[i] == 0
  }

  // The memory that a usable prefix stands for.
  function Padded(lin: seq<Byte>, pages: nat, maxPages: nat): (s: Lazy)
    requires |lin| <= WASM_PAGE * pages && pages <= maxPages <= MAX_WASM_PAGES
    ensures |s.memory.bytes| == WASM_PAGE * pages && s.memory.pages == pages && s.memory.maxPages == maxPages
    ensures s.usable == |lin|
  {
    Lazy(Eager(lin + Zeros(WASM_PAGE * pages - |lin|), pages, maxPages), |lin|)
  }

  function Written(s: Lazy, a: nat, data: seq<Byte>): Lazy
    requires a + |data| <= |s.memory.bytes|
  {
    s.(memory := s.memory.(bytes := Splice(s.memory.bytes, a, data)))
  }

  function Extended(lin: seq<Byte>, n: nat): seq<Byte> {
    if n <= |lin| then lin else lin + Zeros(n - |lin|)
  }

  // How the padded memory follows what happens to the usable prefix.

  lemma SamePadded(lin: seq<Byte>, longer: seq<Byte>, pages: nat, maxPages: nat)
    requires |lin| <= |longer| <= WASM_PAGE * pages && pages <= maxPages <= MAX_WASM_PAGES
    requires longer == Extended(lin, |longer|)
    ensures Padded(longer, pages, maxPages) == Padded(lin, pages, maxPages).(usable := |longer|)
  {
    assert Padded(longer, pages, maxPages).memory.bytes == Padded(lin, pages, maxPages).memory.bytes;
  }

  lemma PaddedPrefix(lin: seq<Byte>, pages: nat, maxPages: nat, a: nat, width: nat)
    requires a + width <= |lin| <= WASM_PAGE * pages && pages <= maxPages <= MAX_WASM_PAGES
    ensures Padded(lin, pages, maxPages).memory.bytes[a..a + width] == lin[a..a + width]
  {
  }

  lemma WrittenPadded(lin: seq<Byte>, pages: nat, maxPages: nat, a: nat, data: seq<Byte>)
    requires a + |data| <= |lin| <= WASM_PAGE * pages && pages <= maxPages <= MAX_WASM_PAGES
    ensures Padded(Splice(lin, a, data), pages, maxPages) == Written(Padded(lin, pages, maxPages), a, data)
  {
    assert Padded(Splice(lin, a, data), pages, maxPages).memory.bytes
      == Splice(Padded(lin, pages, maxPages).memory.bytes, a, data);
  }

  lemma GrownPadded(lin: seq<Byte>, pages: nat, delta: nat, maxPages: nat)
    requires |lin| <= WASM_PAGE * pages && pages + delta <= maxPages <= MAX_WASM_PAGES
    ensures Padded(lin, pages + delta, maxPages).memory.bytes
      == Padded(lin, pages, maxPages).memory.bytes + Zeros(WASM_PAGE * delta)
  {
  }

  lemma ShrunkPadded(lin: seq<Byte>, pages: nat, maxPages: nat, keep: nat)
    requires keep <= |lin| <= WASM_PAGE * pages && pages <= maxPages <= MAX_WASM_PAGES
    ensures Padded(lin[..keep], pages, maxPages).memory.bytes == Zeroed(Padded(lin, pages, maxPages).memory.bytes, keep)
  {
  }

  lemma SpliceBelowZeros(lin: seq<Byte>, reached: seq<Byte>, size: nat, a: nat, data: seq<Byte>)
    requires |lin| <= |reached| <= size && a + |data| <= |reached|
    requires reached == Extended(lin, |reached|)
    ensures Splice(reached, a, data) + Zeros(size - |reached|) == Splice(lin + Zeros(size - |lin|), a, data)
  {
  }

  // What a shrink to n leaves alone: exactly n bytes, or the OS pages that lie wholly below n.
  datatype Mode = Exact | Paged(pageBits: nat)

  predicate ValidMode(mode: Mode) {
    mode.Paged? ==> mode.pageBits <= 16
  }

  function Keep(mode: Mode, op: Op): nat
    requires ValidMode(mode)
  {
    if !op.ShrinkTo? then 0
    else match mode
      case Exact => op.minimumLength
      case Paged(pageBits) => PassiveMemory.PageDown(op.minimumLength, pageBits)
  }

  // An access that ends at n: it may make more bytes usable, and changes none of them.
  ghost predicate Reach(s: Lazy, n: nat, r: ProbeResult, s': Lazy) {
    && s' == s.(usable := s'.usable)
    && s.usable <= s'.usable <= |s.memory.bytes|
    && (r == Ok ==> n <= s'.usable)
    && (r == OutOfBounds ==> n > |s.memory.bytes|)
  }

  // One operation on a lazy memory, for whatever policy of making bytes usable.

  ghost predicate LazyGrow(s: Lazy, delta: U32, obs: Obs, s': Lazy) {
    if GrowFits(s.memory.pages, s.memory.maxPages, delta) then
      && obs == Pages(Narrow(s.memory.pages))
      && s' == s.(memory := s.memory.(bytes := s.memory.bytes + Zeros(WASM_PAGE * delta),
                                      pages := s.memory.pages + delta))
    else obs == Pages(UINT32_MAX) && s' == s
  }

  ghost predicate LazyLoad(s: Lazy, a: nat, width: nat, obs: Obs, s': Lazy) {
    && Reach(s, a + width, ResultOf(obs), s')
    && (ResultOf(obs) == Ok ==> obs == Bytes(s.memory.bytes[a..a + width]))
  }

  ghost predicate LazyStore(s: Lazy, a: nat, data: seq<Byte>, obs: Obs, s': Lazy) {
    if ResultOf(obs) == Ok then
      var reached := s.(usable := s'.usable);
      obs == Done && Reach(s, a + |data|, Ok, reached) && s' == Written(reached, a, data)
    else Reach(s, a + |data|, ResultOf(obs), s')
  }

  ghost predicate LazyRegion(s: Lazy, start: U32, size: U32, obs: Obs, s': Lazy) {
    if size == 0 then obs == Done && s' == s
    else obs == ObsOf(ResultOf(obs), Done) && Reach(s, start + size, ResultOf(obs), s')
  }

  // A refusal needs a length beyond the usable prefix; the passive mode does not report it.
  ghost predicate LazyShrink(s: Lazy, n: U32, keep: nat, obs: Obs, s': Lazy) {
    if obs == Refused then s' == s && keep == n > s.usable
    else obs == Done && s' == Lazy(s.memory.(bytes := Zeroed(s.memory.bytes, keep)), Min(s.usable, keep))
  }

  ghost predicate LazyStep(s: Lazy, op: Op, obs: Obs, s': Lazy, mode: Mode)
    requires ValidMode(mode)
  {
    match op
    case MemoryGrow(delta) => LazyGrow(s, delta, obs, s')
    case Load(index, offset, width) => LazyLoad(s, index + offset, width, obs, s')
    case Store(index, offset, data) => LazyStore(s, index + offset, data, obs, s')
    case HostRegion(start, size) => LazyRegion(s, start, size, obs, s')
    case ShrinkTo(n) => LazyShrink(s, n, Keep(mode, op), obs, s')
    case SetMaxRam(_) => obs in {Done, Refused} && s' == s
  }

  // The answers agree, up to host requests that were declined although they have no effect to speak of.
  predicate Agrees(op: Op, obs: Obs, eager: Obs) {
    obs == eager || (obs == Refused && (op.ShrinkTo? || op.SetMaxRam?))
  }

  // One step against the eager memory: running out of memory changes nothing.
  ghost predicate Simulates(e: Eager, op: Op, obs: Obs, e': Eager, mode: Mode)
    requires Valid(e) && WellFormed(op) && ValidMode(mode)
  {
    if obs == OutOfMemory then e' == e
    else e' == Step(e, op, Keep(mode, op)).0 && Agrees(op, obs, Step(e, op, Keep(mode, op)).1)
  }

  lemma LazyRefines(s: Lazy, op: Op, obs: Obs, s': Lazy, mode: Mode)
    requires LazyInv(s) && WellFormed(op) && ValidMode(mode) && LazyStep(s, op, obs, s', mode)
    ensures LazyInv(s')
    ensures Simulates(s.memory, op, obs, s'.memory, mode)
  {
    if op.ShrinkTo? && obs == Refused {
      assert Zeroed(s.memory.bytes, Keep(mode, op)) == s.memory.bytes;
    }
  }
}
