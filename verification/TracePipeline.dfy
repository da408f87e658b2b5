// The trace pipeline as a protocol of steps taken by runtimes, the record thread, the write thread and
// the registering thread, in any order.
module TracePipeline {
  import opened Bytes
  import opened TraceBuffer

  type RuntimeId = nat

  // A trace point that compiled code is executing: it has read the pointer to its buffer. The buffer has been
  // rotated `age` times since and is still the recorder's, or it is on the shelf.
  datatype Flight = Idle | Loaded(item: Item, age: nat) | Shelved(item: Item, at: nat)

  datatype Recorder = Recorder(
    moduleId: nat,
    live: bool,
    current: seq<Item>,
    last: seq<Item>,
    buffers: seq<seq<Item>>,
    flight: Flight
  )

  // A buffer handed to the writer.
  datatype Parcel = Parcel(runtime: RuntimeId, moduleId: nat, items: seq<Item>)

  // An item on its way to the file; the file gets the module and the item.
  datatype Record = Record(runtime: RuntimeId, moduleId: nat, item: Item)

  // The shelf holds every buffer ever handed over, in order. The writer is through with the first `passed` of
  // them, has collected up to `taken`, and has processed `pos` items of the one it is at; the others wait in the
  // queue. A ledger lists all that a runtime appended.
  datatype State = State(
    recorders: map<RuntimeId, Recorder>,
    ledgers: map<RuntimeId, seq<Item>>,
    shelf: seq<Parcel>,
    passed: nat,
    taken: nat,
    pos: nat,
    processed: seq<Record>,
    file: seq<Record>,
    left: nat
  )

  datatype Step =
    | Register(runtime: RuntimeId, moduleId: nat)
    | Load(runtime: RuntimeId, item: Item)
    | Commit(runtime: RuntimeId)
    | Swap(runtime: RuntimeId)
    | MoveOut(runtime: RuntimeId)
    | Collect
    | Write
    | Pass
    | Erase(runtime: RuntimeId)

  // ---- Flattening ----

  function Flat(buffers: seq<seq<Item>>): seq<Item> {
    if buffers == [] then [] else Flat(buffers[..|buffers| - 1]) + buffers[|buffers| - 1]
  }

  function Tagged(r: RuntimeId, moduleId: nat, items: seq<Item>): (t: seq<Record>)
    ensures |t| == |items| && forall i :: 0 <= i < |items| ==> t[i] == Record(r, moduleId, items[i])
  {
    seq(|items|, i requires 0 <= i < |items| => Record(r, moduleId, items[i]))
  }

  function Boxed(r: RuntimeId, moduleId: nat, buffers: seq<seq<Item>>): (b: seq<Parcel>)
    ensures |b| == |buffers| && forall i :: 0 <= i < |buffers| ==> b[i] == Parcel(r, moduleId, buffers[i])
  {
    seq(|buffers|, i requires 0 <= i < |buffers| => Parcel(r, moduleId, buffers[i]))
  }

  function Records(parcels: seq<Parcel>): seq<Record> {
    if parcels == [] then []
    else
      var p := parcels[|parcels| - 1];
      Records(parcels[..|parcels| - 1]) + Tagged(p.runtime, p.moduleId, p.items)
  }

  // The items of one runtime, in order.
  function Of(records: seq<Record>, r: RuntimeId): seq<Item> {
    if records == [] then []
    else
      var last := records[|records| - 1];
      Of(records[..|records| - 1], r) + if last.runtime == r then [last.item] else []
  }

  // ---- The steps ----

  // The recorder's buffers from the oldest to the one in use.
  function Chain(c: Recorder): (b: seq<seq<Item>>)
    ensures |b| == |c.buffers| + 2
  {
    c.buffers + [c.last, c.current]
  }

  function Held(c: Recorder): seq<Item> {
    Flat(Chain(c))
  }

  // TraceRecorder::swapOut; a trace point under way keeps the buffer it read.
  function Swapped(c: Recorder): Recorder {
    c.(live := true, buffers := c.buffers + [c.last], last := c.current, current := [],
       flight := if c.flight.Loaded? then c.flight.(age := c.flight.age + 1) else c.flight)
  }

  // TraceRecorder::moveOutBuffers onto a shelf of n buffers; a trace point under way keeps the buffer it read.
  function MovedOut(c: Recorder, n: nat): Recorder {
    c.(buffers := [],
       flight := if c.flight.Loaded? && 2 <= c.flight.age < |c.buffers| + 2
                 then Shelved(c.flight.item, n + |c.buffers| + 1 - c.flight.age) else c.flight)
  }

  // The buffer that was in use `age` swaps ago gets the item, unless it is full.
  function Landed(c: Recorder): Recorder
    requires c.flight.Loaded? && c.flight.age < |c.buffers| + 2
  {
    var item, age := c.flight.item, c.flight.age;
    var d := c.(flight := Idle);
    if age == 0 then d.(current := Appended(c.current, item))
    else if age == 1 then d.(last := Appended(c.last, item))
    else d.(buffers := c.buffers[|c.buffers| + 1 - age := Appended(c.buffers[|c.buffers| + 1 - age], item)])
  }

  // A buffer on the shelf gets the item, whether the writer has passed it or not.
  function Dropped(shelf: seq<Parcel>, at: nat, item: Item): (s: seq<Parcel>)
    requires at < |shelf|
    ensures |s| == |shelf|
  {
    shelf[at := shelf[at].(items := Appended(shelf[at].items, item))]
  }

  // The buffer a trace point under way has read.
  ghost function Target(s: State, r: RuntimeId): seq<Item>
    requires WellKept(s) && r in s.recorders && !s.recorders[r].flight.Idle?
  {
    assert Tracked(s, r);
    var c := s.recorders[r];
    if c.flight.Loaded? then Chain(c)[|c.buffers| + 1 - c.flight.age] else s.shelf[c.flight.at].items
  }

  predicate Aimed(shelf: seq<Parcel>, c: Recorder) {
    match c.flight
    case Idle => true
    case Loaded(_, age) => age < |c.buffers| + 2
    case Shelved(_, at) => at < |shelf|
  }

  ghost predicate Enabled(s: State, step: Step) {
    match step
    case Register(r, _) => r !in s.recorders
    case Load(r, _) => r in s.recorders && s.recorders[r].live && s.recorders[r].flight.Idle?
    case Commit(r) => r in s.recorders && !s.recorders[r].flight.Idle?
    case Swap(r) => r in s.recorders
    case MoveOut(r) => r in s.recorders && s.recorders[r].buffers != []
    case Collect => s.passed == s.taken
    case Write => s.passed < s.taken <= |s.shelf| && s.pos < |s.shelf[s.passed].items|
    case Pass => s.passed < s.taken <= |s.shelf| && s.pos == |s.shelf[s.passed].items|
    case Erase(r) => r in s.recorders && s.recorders[r].flight.Idle? && Held(s.recorders[r]) == []
  }

  function Emit(ledger: seq<Item>, buffer: seq<Item>, item: Item): seq<Item> {
    if |buffer| < CAPACITY then ledger + [item] else ledger
  }

  // The item the writer is at.
  function Reading(s: State): Record
    requires s.passed < |s.shelf| && s.pos < |s.shelf[s.passed].items|
  {
    var p := s.shelf[s.passed];
    Record(p.runtime, p.moduleId, p.items[s.pos])
  }

  ghost function Next(s: State, step: Step): State
    requires Enabled(s, step) && WellKept(s)
  {
    match step
    case Register(r, moduleId) =>
      s.(recorders := s.recorders[r := Recorder(moduleId, false, [], [], [], Idle)],
         ledgers := if r in s.ledgers then s.ledgers else s.ledgers[r := []])
    case Load(r, item) => s.(recorders := s.recorders[r := s.recorders[r].(flight := Loaded(item, 0))])
    case Commit(r) =>
      assert Tracked(s, r);
      var c := s.recorders[r];
      var t := s.(ledgers := s.ledgers[r := Emit(s.ledgers[r], Target(s, r), c.flight.item)]);
      if c.flight.Loaded? then t.(recorders := s.recorders[r := Landed(c)])
      else t.(recorders := s.recorders[r := c.(flight := Idle)], shelf := Dropped(s.shelf, c.flight.at, c.flight.item))
    case Swap(r) => s.(recorders := s.recorders[r := Swapped(s.recorders[r])])
    case MoveOut(r) =>
      var c := s.recorders[r];
      s.(recorders := s.recorders[r := MovedOut(c, |s.shelf|)], shelf := s.shelf + Boxed(r, c.moduleId, c.buffers))
    case Collect => s.(taken := |s.shelf|)
    case Write =>
      s.(pos := s.pos + 1, processed := s.processed + [Reading(s)],
         file := if s.left == 0 then s.file else s.file + [Reading(s)],
         left := if s.left == 0 then 0 else s.left - 1)
    case Pass => s.(passed := s.passed + 1, pos := 0)
    case Erase(r) => s.(recorders := s.recorders - {r})
  }

  // ---- What every reachable state keeps ----

  ghost predicate EmptyFrom(buffers: seq<seq<Item>>, k: int) {
    forall i :: 0 <= i < |buffers| && k <= i ==> buffers[i] == []
  }

  ghost predicate NothingBehind(shelf: seq<Parcel>, r: RuntimeId, at: int) {
    forall i :: 0 <= i < |shelf| && at < i && shelf[i].runtime == r ==> shelf[i].items == []
  }

  // Buffers younger than the one a trace point under way has read are still empty: the same thread would
  // have to fill them.
  ghost predicate TailEmpty(shelf: seq<Parcel>, r: RuntimeId, c: Recorder) {
    && Aimed(shelf, c)
    && (c.flight.Loaded? ==> EmptyFrom(Chain(c), |c.buffers| + 2 - c.flight.age))
    && (c.flight.Shelved? ==>
      && shelf[c.flight.at].runtime == r && NothingBehind(shelf, r, c.flight.at) && EmptyFrom(Chain(c), 0))
  }

  ghost predicate Tracked(s: State, r: RuntimeId) {
    r in s.recorders ==> r in s.ledgers && TailEmpty(s.shelf, r, s.recorders[r])
  }

  ghost predicate WellKept(s: State) {
    && s.passed <= s.taken <= |s.shelf|
    && (if s.passed < s.taken then s.pos <= |s.shelf[s.passed].items| else s.pos == 0)
    && (forall r :: Tracked(s, r))
  }

  ghost function HeldBy(s: State, r: RuntimeId): seq<Item> {
    if r in s.recorders then Held(s.recorders[r]) else []
  }

  // What the writer has yet to process, of the buffers it has collected and of those in the queue.
  function Unread(shelf: seq<Parcel>, passed: nat, pos: nat): seq<Record>
    requires passed <= |shelf|
  {
    var waiting := Records(shelf[passed..]);
    if pos <= |waiting| then waiting[pos..] else []
  }

  // Everything of one runtime, from the file's end of the pipeline to the runtime's.
  ghost function Stored(s: State, r: RuntimeId): seq<Item>
    requires s.passed <= |s.shelf|
  {
    Of(s.processed, r) + Of(Unread(s.shelf, s.passed, s.pos), r) + HeldBy(s, r)
  }

  ghost function Emitted(s: State, r: RuntimeId): seq<Item> {
    if r in s.ledgers then s.ledgers[r] else []
  }

  // a is b with some items left out.
  ghost predicate Sub(a: seq<Item>, b: seq<Item>)
    decreases |b|
  {
    if b == [] then a == []
    else
      var rest := b[..|b| - 1];
      Sub(a, rest) || (a != [] && a[|a| - 1] == b[|b| - 1] && Sub(a[..|a| - 1], rest))
  }

  ghost predicate Capped(s: State, maxItems: nat) {
    s.file == s.processed[..Min(maxItems, |s.processed|)] && s.left == maxItems - |s.file|
  }

  // Of a runtime that was registered some time, nothing is duplicated or reordered; of another there is no record.
  ghost predicate Accounted(s: State, r: RuntimeId)
    requires s.passed <= |s.shelf|
  {
    Sub(Stored(s, r), Emitted(s, r))
  }

  ghost predicate Inv(s: State, maxItems: nat) {
    WellKept(s) && Capped(s, maxItems) && forall r :: Accounted(s, r)
  }

  // ---- Flattening and rotating ----

  lemma FlatMore(b: seq<seq<Item>>, x: seq<Item>)
    ensures Flat(b + [x]) == Flat(b) + x
  {
    assert (b + [x])[..|b|] == b;
  }

  lemma HeldInParts(c: Recorder)
    ensures Held(c) == Flat(c.buffers) + c.last + c.current
  {
    FlatMore(c.buffers, c.last);
    FlatMore(c.buffers + [c.last], c.current);
    assert Chain(c) == c.buffers + [c.last] + [c.current];
  }

  lemma SwapHolds(c: Recorder)
    ensures Held(Swapped(c)) == Held(c)
  {
    HeldInParts(c);
    HeldInParts(Swapped(c));
    FlatMore(c.buffers, c.last);
  }

  lemma MoveOutHolds(c: Recorder, n: nat)
    ensures Flat(c.buffers) + Held(MovedOut(c, n)) == Held(c)
  {
    HeldInParts(c);
    HeldInParts(MovedOut(c, n));
    assert Flat(c.buffers) + (c.last + c.current) == Flat(c.buffers) + c.last + c.current;
  }

  lemma {:induction false} FlatInsert(b: seq<seq<Item>>, k: nat, item: Item)
    requires k < |b| && forall j :: k < j < |b| ==> b[j] == []
    ensures Flat(b[k := b[k] + [item]]) == Flat(b) + [item]
  {
    var n := |b| - 1;
    var c := b[k := b[k] + [item]];
    if k == n {
      assert c[..n] == b[..n];
    } else {
      FlatInsert(b[..n], k, item);
      assert c[..n] == b[..n][k := b[..n][k] + [item]];
    }
  }

  lemma FullKeeps(c: Recorder)
    requires c.flight.Loaded? && c.flight.age < |c.buffers| + 2
    requires |Chain(c)[|c.buffers| + 1 - c.flight.age]| >= CAPACITY
    ensures Landed(c) == c.(flight := Idle)
  {
  }

  // An item that lands in the recorder's buffer that its trace point has read comes after everything held.
  lemma LandHolds(shelf: seq<Parcel>, r: RuntimeId, c: Recorder)
    requires c.flight.Loaded? && TailEmpty(shelf, r, c)
    ensures Held(Landed(c)) == Emit(Held(c), Chain(c)[|c.buffers| + 1 - c.flight.age], c.flight.item)
  {
    var k := |c.buffers| + 1 - c.flight.age;
    if |Chain(c)[k]| < CAPACITY {
      FlatInsert(Chain(c), k, c.flight.item);
      assert Chain(Landed(c)) == Chain(c)[k := Chain(c)[k] + [c.flight.item]];
    } else {
      FullKeeps(c);
    }
  }

  lemma {:induction false} OfSum(a: seq<Record>, b: seq<Record>, r: RuntimeId)
    ensures Of(a + b, r) == Of(a, r) + Of(b, r)
  {
    if b == [] {
      assert a + b == a;
    } else {
      var n := |b| - 1;
      OfSum(a, b[..n], r);
      assert a + b == (a + b[..n]) + [b[n]] && b == b[..n] + [b[n]];
      OfMore(a + b[..n], b[n], r);
      OfMore(b[..n], b[n], r);
      Associates(Of(a, r), Of(b[..n], r), if b[n].runtime == r then [b[n].item] else []);
    }
  }

  lemma {:induction false} OfTagged(owner: RuntimeId, moduleId: nat, items: seq<Item>, r: RuntimeId)
    ensures Of(Tagged(owner, moduleId, items), r) == if owner == r then items else []
  {
    if items != [] {
      var n := |items| - 1;
      OfTagged(owner, moduleId, items[..n], r);
      TaggedMore(owner, moduleId, items[..n], items[n]);
      assert items[..n] + [items[n]] == items;
      OfMore(Tagged(owner, moduleId, items[..n]), Record(owner, moduleId, items[n]), r);
    }
  }

  lemma TaggedMore(owner: RuntimeId, moduleId: nat, items: seq<Item>, item: Item)
    ensures Tagged(owner, moduleId, items + [item]) == Tagged(owner, moduleId, items) + [Record(owner, moduleId, item)]
  {
  }

  lemma OfMore(records: seq<Record>, record: Record, r: RuntimeId)
    ensures Of(records + [record], r) == Of(records, r) + if record.runtime == r then [record.item] else []
  {
    assert (records + [record])[..|records|] == records;
  }

  lemma {:induction false} RecordsSum(a: seq<Parcel>, b: seq<Parcel>)
    ensures Records(a + b) == Records(a) + Records(b)
  {
    if b == [] {
      assert a + b == a;
    } else {
      var n := |b| - 1;
      RecordsSum(a, b[..n]);
      assert (a + b)[..|a + b| - 1] == a + b[..n];
      Associates(Records(a), Records(b[..n]), Tagged(b[n].runtime, b[n].moduleId, b[n].items));
    }
  }

  lemma RecordsOne(p: Parcel)
    ensures Records([p]) == Tagged(p.runtime, p.moduleId, p.items)
  {
    assert [p][..0] == [];
  }

  // The first parcel comes first.
  lemma RecordsFront(parcels: seq<Parcel>)
    requires parcels != []
    ensures Records(parcels)
      == Tagged(parcels[0].runtime, parcels[0].moduleId, parcels[0].items) + Records(parcels[1..])
  {
    assert parcels == [parcels[0]] + parcels[1..];
    RecordsSum([parcels[0]], parcels[1..]);
    RecordsOne(parcels[0]);
  }

  lemma {:induction false} OfBoxed(owner: RuntimeId, moduleId: nat, buffers: seq<seq<Item>>, r: RuntimeId)
    ensures Of(Records(Boxed(owner, moduleId, buffers)), r) == if owner == r then Flat(buffers) else []
  {
    if buffers != [] {
      var n := |buffers| - 1;
      OfBoxed(owner, moduleId, buffers[..n], r);
      assert Boxed(owner, moduleId, buffers)[..n] == Boxed(owner, moduleId, buffers[..n]);
      OfSum(Records(Boxed(owner, moduleId, buffers[..n])), Tagged(owner, moduleId, buffers[n]), r);
      OfTagged(owner, moduleId, buffers[n], r);
    }
  }

  // Parcels of other runtimes, and empty ones, hold nothing of a runtime.
  lemma {:induction false} NothingOf(parcels: seq<Parcel>, r: RuntimeId)
    requires NothingBehind(parcels, r, -1)
    ensures Of(Records(parcels), r) == []
  {
    if parcels != [] {
      var n := |parcels| - 1;
      var p := parcels[n];
      NothingOf(parcels[..n], r);
      OfSum(Records(parcels[..n]), Tagged(p.runtime, p.moduleId, p.items), r);
      OfTagged(p.runtime, p.moduleId, p.items, r);
    }
  }

  // ---- What the writer has yet to process ----

  ghost predicate Within(shelf: seq<Parcel>, passed: nat, pos: nat) {
    passed <= |shelf| && if passed < |shelf| then pos <= |shelf[passed].items| else pos == 0
  }

  lemma UnreadMoved(shelf: seq<Parcel>, passed: nat, pos: nat, more: seq<Parcel>)
    requires Within(shelf, passed, pos)
    ensures Unread(shelf + more, passed, pos) == Unread(shelf, passed, pos) + Records(more)
  {
    var waiting := shelf[passed..];
    assert (shelf + more)[passed..] == waiting + more;
    RecordsSum(waiting, more);
    FrontFits(shelf, passed, pos);
    SuffixOfSum(Records(waiting), Records(more), pos);
  }

  lemma FrontFits(shelf: seq<Parcel>, passed: nat, pos: nat)
    requires Within(shelf, passed, pos)
    ensures pos <= |Records(shelf[passed..])|
  {
    if passed < |shelf| {
      RecordsFront(shelf[passed..]);
    }
  }

  lemma UnreadWritten(s: State)
    requires WellKept(s) && Enabled(s, Write)
    ensures Unread(s.shelf, s.passed, s.pos) == [Reading(s)] + Unread(s.shelf, s.passed, s.pos + 1)
  {
    var waiting := s.shelf[s.passed..];
    RecordsFront(waiting);
    CutOne(Records(waiting), s.pos);
  }

  lemma CutOne(a: seq<Record>, pos: nat)
    requires pos < |a|
    ensures a[pos..] == [a[pos]] + a[pos + 1..]
  {
  }

  lemma UnreadPassed(s: State)
    requires WellKept(s) && Enabled(s, Pass)
    ensures Unread(s.shelf, s.passed + 1, 0) == Unread(s.shelf, s.passed, s.pos)
  {
    RecordsFront(s.shelf[s.passed..]);
    assert s.shelf[s.passed..][1..] == s.shelf[s.passed + 1..];
  }

  // An item dropped into the youngest parcel of its runtime that holds anything is read last, unless the writer has
  // passed that parcel.
  lemma UnreadDropped(shelf: seq<Parcel>, passed: nat, pos: nat, at: nat, item: Item, q: RuntimeId)
    requires Within(shelf, passed, pos)
    requires at < |shelf| && NothingBehind(shelf, shelf[at].runtime, at)
    ensures Of(Unread(Dropped(shelf, at, item), passed, pos), q) ==
      if q == shelf[at].runtime && at >= passed then Emit(Of(Unread(shelf, passed, pos), q), shelf[at].items, item)
      else Of(Unread(shelf, passed, pos), q)
  {
    if |shelf[at].items| >= CAPACITY {
      assert Dropped(shelf, at, item) == shelf;
    } else if at < passed {
      assert Dropped(shelf, at, item)[passed..] == shelf[passed..];
    } else {
      DroppedAhead(shelf, passed, pos, at, item, q);
    }
  }

  lemma DroppedAhead(shelf: seq<Parcel>, passed: nat, pos: nat, at: nat, item: Item, q: RuntimeId)
    requires Within(shelf, passed, pos) && passed <= at < |shelf| && |shelf[at].items| < CAPACITY
    requires NothingBehind(shelf, shelf[at].runtime, at)
    ensures Of(Unread(Dropped(shelf, at, item), passed, pos), q) ==
      Of(Unread(shelf, passed, pos), q) + if q == shelf[at].runtime then [item] else []
  {
    var after := shelf[at + 1..];
    var front := DroppedBetween(shelf, passed, pos, at, item);
    if q == shelf[at].runtime {
      assert forall i :: 0 <= i < |after| ==> after[i] == shelf[at + 1 + i];
      NothingOf(after, q);
    }
    OfInserted(front, [Record(shelf[at].runtime, shelf[at].moduleId, item)], Records(after), q);
  }

  lemma DroppedBetween(shelf: seq<Parcel>, passed: nat, pos: nat, at: nat, item: Item) returns (front: seq<Record>)
    requires Within(shelf, passed, pos) && passed <= at < |shelf| && |shelf[at].items| < CAPACITY
    ensures Unread(shelf, passed, pos) == front + Records(shelf[at + 1..])
    ensures Unread(Dropped(shelf, at, item), passed, pos)
      == front + [Record(shelf[at].runtime, shelf[at].moduleId, item)] + Records(shelf[at + 1..])
  {
    var p := shelf[at];
    var before, after := shelf[passed..at], shelf[at + 1..];
    var whole, more := Records(before + [p]), [Record(p.runtime, p.moduleId, item)];
    DroppedRecords(before, p, after, item);
    DroppedSlices(shelf, passed, at, item);
    assert pos <= |whole| by {
      RecordsFront(before + [p]);
      assert (before + [p])[0] == shelf[passed];
    }
    CutInFront(whole, more, Records(after), pos);
    front := whole[pos..];
  }

  lemma DroppedSlices(shelf: seq<Parcel>, passed: nat, at: nat, item: Item)
    requires passed <= at < |shelf| && |shelf[at].items| < CAPACITY
    ensures var p, before, after := shelf[at], shelf[passed..at], shelf[at + 1..];
      && shelf[passed..] == before + [p] + after
      && Dropped(shelf, at, item)[passed..] == before + [p.(items := p.items + [item])] + after
  {
  }

  lemma CutInFront(a: seq<Record>, more: seq<Record>, b: seq<Record>, pos: nat)
    requires pos <= |a|
    ensures (a + b)[pos..] == a[pos..] + b && (a + more + b)[pos..] == a[pos..] + more + b
  {
  }

  lemma DroppedRecords(before: seq<Parcel>, p: Parcel, after: seq<Parcel>, item: Item)
    ensures Records(before + [p] + after) == Records(before + [p]) + Records(after)
    ensures Records(before + [p.(items := p.items + [item])] + after)
      == Records(before + [p]) + [Record(p.runtime, p.moduleId, item)] + Records(after)
  {
    var d := p.(items := p.items + [item]);
    RecordsSum(before + [p], after);
    RecordsSum(before + [d], after);
    assert (before + [p])[..|before|] == before && (before + [d])[..|before|] == before;
    assert Tagged(p.runtime, p.moduleId, d.items)
      == Tagged(p.runtime, p.moduleId, p.items) + [Record(p.runtime, p.moduleId, item)];
  }

  lemma OfInserted(a: seq<Record>, more: seq<Record>, b: seq<Record>, q: RuntimeId)
    requires |more| == 1 && (more[0].runtime == q ==> Of(b, q) == [])
    ensures Of(a + more + b, q) == Of(a + b, q) + if more[0].runtime == q then [more[0].item] else []
  {
    OfSum(a, b, q);
    OfSum(a + more, b, q);
    OfSum(a, more, q);
    assert more[..0] == [] && Of(more, q) == if more[0].runtime == q then [more[0].item] else [];
  }

  // ---- One step ----

  // The writer has passed the buffer of a trace point under way, and there is room in it.
  ghost predicate Overtaken(s: State, r: RuntimeId) {
    r in s.recorders && s.recorders[r].flight.Shelved? &&
    var at := s.recorders[r].flight.at;
    at < s.passed && at < |s.shelf| && |s.shelf[at].items| < CAPACITY
  }

  lemma Regroup(a: seq<Item>, b: seq<Item>, c: seq<Item>, d: seq<Item>)
    ensures a + (b + c) + d == a + b + (c + d)
    ensures a + (b + []) + d == a + b + d
  {
    assert b + [] == b;
  }

  lemma MoveOutQueues(s: State, owner: RuntimeId, r: RuntimeId)
    requires WellKept(s) && Enabled(s, MoveOut(owner))
    ensures |s.shelf| <= |Next(s, MoveOut(owner)).shelf|
    ensures Of(Unread(Next(s, MoveOut(owner)).shelf, s.passed, s.pos), r)
      == Of(Unread(s.shelf, s.passed, s.pos), r) + if owner == r then Flat(s.recorders[owner].buffers) else []
  {
    var c := s.recorders[owner];
    var more := Boxed(owner, c.moduleId, c.buffers);
    UnreadMoved(s.shelf, s.passed, s.pos, more);
    OfSum(Unread(s.shelf, s.passed, s.pos), Records(more), r);
    OfBoxed(owner, c.moduleId, c.buffers, r);
  }

  lemma MoveOutStores(s: State, owner: RuntimeId, r: RuntimeId)
    requires WellKept(s) && Enabled(s, MoveOut(owner))
    ensures |s.shelf| <= |Next(s, MoveOut(owner)).shelf| && Stored(Next(s, MoveOut(owner)), r) == Stored(s, r)
  {
    var c := s.recorders[owner];
    MoveOutQueues(s, owner, r);
    var p, q := Of(s.processed, r), Of(Unread(s.shelf, s.passed, s.pos), r);
    if owner == r {
      MoveOutHolds(c, |s.shelf|);
      Regroup(p, q, Flat(c.buffers), Held(MovedOut(c, |s.shelf|)));
    } else {
      Regroup(p, q, [], HeldBy(s, r));
    }
  }

  lemma WriteReads(s: State, r: RuntimeId)
    requires WellKept(s) && Enabled(s, Write)
    ensures var t := Next(s, Write);
      && t.shelf == s.shelf && t.passed == s.passed && HeldBy(t, r) == HeldBy(s, r)
      && t.processed == s.processed + [Reading(s)]
      && Unread(s.shelf, s.passed, s.pos) == [Reading(s)] + Unread(t.shelf, t.passed, t.pos)
  {
    UnreadWritten(s);
  }

  lemma WriteStores(s: State, r: RuntimeId)
    requires WellKept(s) && Enabled(s, Write)
    ensures Next(s, Write).passed <= |Next(s, Write).shelf| && Stored(Next(s, Write), r) == Stored(s, r)
  {
    WriteReads(s, r);
    OneProcessed(s.processed, Reading(s), Unread(s.shelf, s.passed, s.pos + 1), r);
  }

  lemma OneProcessed(processed: seq<Record>, record: Record, rest: seq<Record>, r: RuntimeId)
    ensures Of(processed + [record], r) + Of(rest, r) == Of(processed, r) + Of([record] + rest, r)
  {
    OfSum(processed, [record], r);
    OfSum([record], rest, r);
    assert Of(processed, r) + Of([record], r) + Of(rest, r) == Of(processed, r) + (Of([record], r) + Of(rest, r));
  }

  lemma RecorderStores(s: State, step: Step, r: RuntimeId)
    requires WellKept(s) && Enabled(s, step) && (step.Register? || step.Load? || step.Swap? || step.Erase?)
    ensures Next(s, step).shelf == s.shelf
    ensures HeldBy(Next(s, step), r) == HeldBy(s, r) && Emitted(Next(s, step), r) == Emitted(s, r)
  {
    match step {
      case Register(_, moduleId) => HeldInParts(Recorder(moduleId, false, [], [], [], Idle));
      case Load(owner, item) =>
        var c := s.recorders[owner];
        assert Chain(c.(flight := Loaded(item, 0))) == Chain(c);
      case Swap(owner) => SwapHolds(s.recorders[owner]);
      case _ =>
    }
  }

  lemma StepStores(s: State, step: Step, r: RuntimeId)
    requires WellKept(s) && Enabled(s, step) && !step.Commit?
    ensures WellKept(Next(s, step))
    ensures Stored(Next(s, step), r) == Stored(s, r) && Emitted(Next(s, step), r) == Emitted(s, r)
  {
    StepWellKept(s, step);
    match step {
      case MoveOut(owner) => MoveOutStores(s, owner, r);
      case Collect =>
      case Write => WriteStores(s, r);
      case Pass => UnreadPassed(s);
      case _ => RecorderStores(s, step, r);
    }
  }

  // A trace point stores its item behind all others of its runtime, unless the writer has passed its buffer.
  lemma CommitStores(s: State, r: RuntimeId)
    requires WellKept(s) && Enabled(s, Commit(r))
    ensures var c, t := s.recorders[r], Next(s, Commit(r));
      && |t.shelf| == |s.shelf|
      && Emitted(t, r) == Emit(Emitted(s, r), Target(s, r), c.flight.item)
      && Stored(t, r) == if Overtaken(s, r) then Stored(s, r) else Emit(Stored(s, r), Target(s, r), c.flight.item)
  {
    assert Tracked(s, r);
    if s.recorders[r].flight.Loaded? {
      CommitLands(s, r);
    } else {
      CommitDrops(s, r);
    }
  }

  lemma CommitLands(s: State, r: RuntimeId)
    requires WellKept(s) && Enabled(s, Commit(r)) && s.recorders[r].flight.Loaded?
    ensures var c, t := s.recorders[r], Next(s, Commit(r));
      && t.shelf == s.shelf && Stored(t, r) == Emit(Stored(s, r), Target(s, r), c.flight.item)
  {
    var c := s.recorders[r];
    CommitLandsHeld(s, r);
    EmitLast(Of(s.processed, r) + Of(Unread(s.shelf, s.passed, s.pos), r), HeldBy(s, r), Target(s, r), c.flight.item);
  }

  lemma CommitLandsHeld(s: State, r: RuntimeId)
    requires WellKept(s) && Enabled(s, Commit(r)) && s.recorders[r].flight.Loaded?
    ensures var c, t := s.recorders[r], Next(s, Commit(r));
      && t.shelf == s.shelf && t.passed == s.passed && t.pos == s.pos && t.processed == s.processed
      && HeldBy(t, r) == Emit(HeldBy(s, r), Target(s, r), c.flight.item)
  {
    assert Tracked(s, r);
    LandHolds(s.shelf, r, s.recorders[r]);
  }

  lemma CommitQueues(s: State, r: RuntimeId)
    requires WellKept(s) && Enabled(s, Commit(r)) && s.recorders[r].flight.Shelved?
    ensures var c, t := s.recorders[r], Next(s, Commit(r));
      var q := Of(Unread(s.shelf, s.passed, s.pos), r);
      && |t.shelf| == |s.shelf|
      && Of(Unread(t.shelf, s.passed, s.pos), r) == if Overtaken(s, r) then q else Emit(q, Target(s, r), c.flight.item)
  {
    assert Tracked(s, r);
    UnreadDropped(s.shelf, s.passed, s.pos, s.recorders[r].flight.at, s.recorders[r].flight.item, r);
  }

  lemma CommitDrops(s: State, r: RuntimeId)
    requires WellKept(s) && Enabled(s, Commit(r)) && s.recorders[r].flight.Shelved?
    ensures var c, t := s.recorders[r], Next(s, Commit(r));
      && |t.shelf| == |s.shelf|
      && Stored(t, r) == if Overtaken(s, r) then Stored(s, r) else Emit(Stored(s, r), Target(s, r), c.flight.item)
  {
    var c := s.recorders[r];
    CommitQueues(s, r);
    CommitHolds(s, r);
    EmitLast(Of(s.processed, r), Of(Unread(s.shelf, s.passed, s.pos), r), Target(s, r), c.flight.item);
    Trimmed(s, r);
    Trimmed(Next(s, Commit(r)), r);
  }

  lemma CommitHolds(s: State, r: RuntimeId)
    requires WellKept(s) && Enabled(s, Commit(r)) && s.recorders[r].flight.Shelved?
    ensures HeldBy(s, r) == [] && HeldBy(Next(s, Commit(r)), r) == []
  {
    assert Tracked(s, r);
    NothingHeld(s.recorders[r]);
  }

  lemma Trimmed(s: State, r: RuntimeId)
    requires s.passed <= |s.shelf| && HeldBy(s, r) == []
    ensures Stored(s, r) == Of(s.processed, r) + Of(Unread(s.shelf, s.passed, s.pos), r)
  {
  }

  lemma EmitLast(a: seq<Item>, b: seq<Item>, buffer: seq<Item>, item: Item)
    ensures a + Emit(b, buffer, item) == Emit(a + b, buffer, item)
  {
    assert a + (b + [item]) == a + b + [item];
  }

  // And it leaves the other runtimes' items alone.
  lemma CommitSpares(s: State, owner: RuntimeId, r: RuntimeId)
    requires WellKept(s) && Enabled(s, Commit(owner)) && r != owner
    ensures var t := Next(s, Commit(owner));
      |t.shelf| == |s.shelf| && Stored(t, r) == Stored(s, r) && Emitted(t, r) == Emitted(s, r)
  {
    var c := s.recorders[owner];
    assert Tracked(s, owner);
    if c.flight.Shelved? {
      UnreadDropped(s.shelf, s.passed, s.pos, c.flight.at, c.flight.item, r);
    }
  }

  lemma NothingHeld(c: Recorder)
    requires EmptyFrom(Chain(c), 0)
    ensures Held(c) == [] && Held(c.(flight := Idle)) == []
  {
    AllEmpty(Chain(c));
    assert Chain(c.(flight := Idle)) == Chain(c);
  }

  lemma {:induction false} AllEmpty(buffers: seq<seq<Item>>)
    requires EmptyFrom(buffers, 0)
    ensures Flat(buffers) == []
  {
    if buffers != [] {
      AllEmpty(buffers[..|buffers| - 1]);
    }
  }

  lemma SubMore(a: seq<Item>, b: seq<Item>, item: Item)
    requires Sub(a, b)
    ensures Sub(a, b + [item]) && Sub(a + [item], b + [item])
  {
    assert (b + [item])[..|b|] == b && (a + [item])[..|a|] == a;
  }

  lemma {:induction false} SubShorter(a: seq<Item>, b: seq<Item>)
    requires Sub(a, b)
    ensures |a| <= |b|
    decreases |b|
  {
    if b != [] {
      var rest := b[..|b| - 1];
      if Sub(a, rest) {
        SubShorter(a, rest);
      } else {
        SubShorter(a[..|a| - 1], rest);
      }
    }
  }

  lemma CommitAccounts(s: State, r: RuntimeId)
    requires WellKept(s) && Enabled(s, Commit(r)) && Accounted(s, r)
    ensures WellKept(Next(s, Commit(r))) && Accounted(Next(s, Commit(r)), r)
  {
    StepWellKept(s, Commit(r));
    CommitStores(s, r);
    EmitKeepsSub(Stored(s, r), Emitted(s, r), Target(s, r), s.recorders[r].flight.item);
  }

  lemma EmitKeepsSub(a: seq<Item>, b: seq<Item>, buffer: seq<Item>, item: Item)
    requires Sub(a, b)
    ensures Sub(a, Emit(b, buffer, item)) && Sub(Emit(a, buffer, item), Emit(b, buffer, item))
  {
    SubMore(a, b, item);
  }

  lemma SwapKeepsTail(shelf: seq<Parcel>, r: RuntimeId, c: Recorder)
    requires TailEmpty(shelf, r, c)
    ensures TailEmpty(shelf, r, Swapped(c))
  {
    assert Chain(Swapped(c)) == Chain(c) + [[]];
  }

  lemma MoveOutKeepsTail(shelf: seq<Parcel>, r: RuntimeId, c: Recorder)
    requires TailEmpty(shelf, r, c)
    ensures TailEmpty(shelf + Boxed(r, c.moduleId, c.buffers), r, MovedOut(c, |shelf|))
  {
    var d, more := MovedOut(c, |shelf|), shelf + Boxed(r, c.moduleId, c.buffers);
    assert forall i :: 0 <= i < |c.buffers| ==> Chain(c)[i] == c.buffers[i] == more[|shelf| + i].items;
    assert Chain(d)[0] == Chain(c)[|c.buffers|] && Chain(d)[1] == Chain(c)[|c.buffers| + 1];
    if d.flight.Shelved? {
      forall i | d.flight.at < i < |more| && more[i].runtime == r
        ensures more[i].items == []
      {
        assert i >= |shelf| ==> more[i].items == Chain(c)[i - |shelf|];
      }
    }
  }

  lemma DropKeepsTail(shelf: seq<Parcel>, at: nat, item: Item, q: RuntimeId, c: Recorder)
    requires at < |shelf| && shelf[at].runtime != q && TailEmpty(shelf, q, c)
    ensures TailEmpty(Dropped(shelf, at, item), q, c)
  {
  }

  lemma StepTracks(s: State, step: Step, r: RuntimeId)
    requires WellKept(s) && Enabled(s, step)
    ensures Tracked(Next(s, step), r)
  {
    assert Tracked(s, r);
    match step {
      case Swap(owner) =>
        if r == owner {
          SwapKeepsTail(s.shelf, r, s.recorders[r]);
        }
      case MoveOut(owner) =>
        if r == owner {
          MoveOutKeepsTail(s.shelf, r, s.recorders[r]);
        }
      case Commit(owner) =>
        assert Tracked(s, owner);
        var f := s.recorders[owner].flight;
        if r != owner && r in s.recorders && f.Shelved? {
          DropKeepsTail(s.shelf, f.at, f.item, r, s.recorders[r]);
        }
      case _ =>
    }
  }

  lemma StepWellKept(s: State, step: Step)
    requires WellKept(s) && Enabled(s, step)
    ensures WellKept(Next(s, step))
  {
    forall r
      ensures Tracked(Next(s, step), r)
    {
      StepTracks(s, step, r);
    }
    if step.Commit? {
      assert Tracked(s, step.runtime);
    }
  }

  lemma StepCapped(s: State, step: Step, maxItems: nat)
    requires WellKept(s) && Enabled(s, step) && Capped(s, maxItems)
    ensures Capped(Next(s, step), maxItems)
  {
  }

  lemma StepAccounts(s: State, step: Step, r: RuntimeId)
    requires WellKept(s) && Enabled(s, step) && Accounted(s, r)
    ensures WellKept(Next(s, step)) && Accounted(Next(s, step), r)
  {
    if step == Commit(r) {
      CommitAccounts(s, r);
    } else {
      StepSpares(s, step, r);
    }
  }

  lemma StepInv(s: State, step: Step, maxItems: nat)
    requires Inv(s, maxItems) && Enabled(s, step)
    ensures Inv(Next(s, step), maxItems)
  {
    StepWellKept(s, step);
    StepCapped(s, step, maxItems);
    forall r
      ensures Accounted(Next(s, step), r)
    {
      StepAccounts(s, step, r);
    }
  }

  // ---- Runs ----

  function Initial(maxItems: nat): State {
    State(map[], map[], [], 0, 0, 0, [], [], maxItems)
  }

  // A run is any sequence of steps, each possible in the state before it.
  ghost predicate Possible(s: State, steps: seq<Step>)
    decreases |steps|
  {
    steps == [] || (WellKept(s) && Enabled(s, steps[0]) && Possible(Next(s, steps[0]), steps[1..]))
  }

  ghost function Run(s: State, steps: seq<Step>): State
    requires Possible(s, steps)
    decreases |steps|
  {
    if steps == [] then s else Run(Next(s, steps[0]), steps[1..])
  }

  lemma InitialInv(maxItems: nat)
    ensures Inv(Initial(maxItems), maxItems)
  {
  }

  lemma {:induction false} RunInv(s: State, steps: seq<Step>, maxItems: nat)
    requires Inv(s, maxItems) && Possible(s, steps)
    ensures Inv(Run(s, steps), maxItems)
    decreases |steps|
  {
    if steps != [] {
      StepInv(s, steps[0], maxItems);
      RunInv(Next(s, steps[0]), steps[1..], maxItems);
    }
  }

  // In no interleaving is an item duplicated or moved past another.
  lemma TracesInOrder(steps: seq<Step>, maxItems: nat, r: RuntimeId)
    requires Possible(Initial(maxItems), steps) && r in Run(Initial(maxItems), steps).ledgers
    ensures var s := Run(Initial(maxItems), steps);
      s.passed <= |s.shelf| && Sub(Stored(s, r), s.ledgers[r])
  {
    InitialInv(maxItems);
    RunInv(Initial(maxItems), steps, maxItems);
    assert Accounted(Run(Initial(maxItems), steps), r);
  }

  // The file is the first items of the writer's order, up to the limit.
  lemma FileIsPrefix(steps: seq<Step>, maxItems: nat)
    requires Possible(Initial(maxItems), steps)
    ensures
      var s := Run(Initial(maxItems), steps);
      s.file == s.processed[..Min(maxItems, |s.processed|)]
  {
    InitialInv(maxItems);
    RunInv(Initial(maxItems), steps, maxItems);
  }

  // Everything carries a module its runtime was registered with.
  ghost predicate Branded(s: State, past: seq<Step>) {
    && (forall r :: r in s.recorders ==> Register(r, s.recorders[r].moduleId) in past)
    && (forall p :: p in s.shelf ==> Register(p.runtime, p.moduleId) in past)
    && (forall record :: record in s.processed ==> Register(record.runtime, record.moduleId) in past)
  }

  lemma StepBrands(s: State, step: Step, past: seq<Step>)
    requires WellKept(s) && Enabled(s, step) && Branded(s, past)
    ensures Branded(Next(s, step), past + [step])
  {
    var t := Next(s, step);
    match step {
      case MoveOut(r) =>
        assert forall p :: p in t.shelf ==> p in s.shelf || (p.runtime == r && p.moduleId == s.recorders[r].moduleId);
      case Commit(r) =>
        assert Tracked(s, r);
        if s.recorders[r].flight.Shelved? {
          forall i | 0 <= i < |t.shelf|
            ensures t.shelf[i].runtime == s.shelf[i].runtime && t.shelf[i].moduleId == s.shelf[i].moduleId
          {
          }
          assert forall i :: 0 <= i < |t.shelf| ==> s.shelf[i] in s.shelf;
        }
      case Write =>
        assert s.shelf[s.passed] in s.shelf;
      case _ =>
    }
  }

  lemma {:induction false} RunBrands(s: State, steps: seq<Step>, past: seq<Step>)
    requires WellKept(s) && Possible(s, steps) && Branded(s, past)
    ensures Branded(Run(s, steps), past + steps)
    decreases |steps|
  {
    if steps == [] {
      assert past + steps == past;
    } else {
      StepWellKept(s, steps[0]);
      StepBrands(s, steps[0], past);
      RunBrands(Next(s, steps[0]), steps[1..], past + [steps[0]]);
      assert past + [steps[0]] + steps[1..] == past + steps;
    }
  }

  // In every interleaving each record of the file names a module that its runtime was registered with.
  lemma RecordsNameTheirModule(steps: seq<Step>, maxItems: nat, record: Record)
    requires Possible(Initial(maxItems), steps) && record in Run(Initial(maxItems), steps).file
    ensures Register(record.runtime, record.moduleId) in steps
  {
    InitialInv(maxItems);
    RunBrands(Initial(maxItems), steps, []);
    assert [] + steps == steps;
    FileIsPrefix(steps, maxItems);
  }

  // ---- When nothing is lost ----

  // The writer does not pass a buffer, other than a full one, while a trace point that has read it is under way.
  ghost predicate Timely(s: State, step: Step, r: RuntimeId) {
    (step.Pass? && r in s.recorders && s.recorders[r].flight.Shelved? && s.recorders[r].flight.at == s.passed) ==>
      s.passed < |s.shelf| && |s.shelf[s.passed].items| >= CAPACITY
  }

  ghost predicate AllTimely(s: State, steps: seq<Step>, r: RuntimeId)
    requires Possible(s, steps)
    decreases |steps|
  {
    steps == [] || (Timely(s, steps[0], r) && AllTimely(Next(s, steps[0]), steps[1..], r))
  }

  // Everything the runtime emitted is stored, and so will be what it is about to emit.
  ghost predicate Whole(s: State, r: RuntimeId)
    requires s.passed <= |s.shelf|
  {
    Stored(s, r) == Emitted(s, r) && !Overtaken(s, r)
  }

  // Something is missing, or is about to be.
  ghost predicate Torn(s: State, r: RuntimeId)
    requires s.passed <= |s.shelf|
  {
    |Stored(s, r)| < |Emitted(s, r)| || Overtaken(s, r)
  }

  lemma StepKeepsOvertaken(s: State, step: Step, r: RuntimeId)
    requires WellKept(s) && Enabled(s, step) && step != Commit(r)
    ensures Overtaken(Next(s, step), r) <==> Overtaken(s, r) || !Timely(s, step, r)
  {
    StepWellKept(s, step);
    if step.Commit? {
      assert Tracked(s, r) && Tracked(s, step.runtime);
    }
  }

  // A step other than a trace point of the runtime changes neither what is stored nor what was emitted.
  lemma StepSpares(s: State, step: Step, r: RuntimeId)
    requires WellKept(s) && Enabled(s, step) && step != Commit(r)
    ensures WellKept(Next(s, step))
    ensures Stored(Next(s, step), r) == Stored(s, r) && Emitted(Next(s, step), r) == Emitted(s, r)
  {
    if step.Commit? {
      StepWellKept(s, step);
      CommitSpares(s, step.runtime, r);
    } else {
      StepStores(s, step, r);
    }
  }

  lemma CommitKeepsWhole(s: State, r: RuntimeId)
    requires WellKept(s) && Enabled(s, Commit(r)) && |Stored(s, r)| <= |Emitted(s, r)|
    ensures |Next(s, Commit(r)).shelf| == |s.shelf|
    ensures Whole(s, r) ==> Whole(Next(s, Commit(r)), r)
    ensures Torn(s, r) ==> Torn(Next(s, Commit(r)), r)
  {
    CommitStores(s, r);
    CommitEnds(s, r);
    EmitLonger(Stored(s, r), Emitted(s, r), Target(s, r), s.recorders[r].flight.item);
  }

  // Afterwards no append is under way, and one that was overtaken had found room.
  lemma CommitEnds(s: State, r: RuntimeId)
    requires WellKept(s) && Enabled(s, Commit(r))
    ensures !Overtaken(Next(s, Commit(r)), r)
    ensures Overtaken(s, r) ==> |Target(s, r)| < CAPACITY
  {
    assert Tracked(s, r);
  }

  lemma EmitLonger(a: seq<Item>, b: seq<Item>, buffer: seq<Item>, item: Item)
    ensures |Emit(a, buffer, item)| - |a| == |Emit(b, buffer, item)| - |b| == if |buffer| < CAPACITY then 1 else 0
  {
  }

  lemma StoredShorter(s: State, r: RuntimeId)
    requires s.passed <= |s.shelf| && Accounted(s, r)
    ensures |Stored(s, r)| <= |Emitted(s, r)|
  {
    SubShorter(Stored(s, r), Emitted(s, r));
  }

  lemma StepKeepsWhole(s: State, step: Step, r: RuntimeId, maxItems: nat)
    requires Inv(s, maxItems) && Enabled(s, step) && (Whole(s, r) || Torn(s, r))
    ensures WellKept(Next(s, step))
    ensures Whole(s, r) && Timely(s, step, r) ==> Whole(Next(s, step), r)
    ensures !(Whole(s, r) && Timely(s, step, r)) ==> Torn(Next(s, step), r)
  {
    StepWellKept(s, step);
    if step == Commit(r) {
      assert Accounted(s, r);
      StoredShorter(s, r);
      CommitKeepsWhole(s, r);
    } else {
      StepKeepsOvertaken(s, step, r);
      StepSpares(s, step, r);
    }
  }

  lemma {:induction false} RunKeepsWhole(s: State, steps: seq<Step>, r: RuntimeId, maxItems: nat)
    requires Inv(s, maxItems) && Possible(s, steps) && (Whole(s, r) || Torn(s, r))
    ensures WellKept(Run(s, steps))
    ensures Whole(s, r) && AllTimely(s, steps, r) ==> Whole(Run(s, steps), r)
    ensures !(Whole(s, r) && AllTimely(s, steps, r)) ==> Torn(Run(s, steps), r)
    decreases |steps|
  {
    if steps != [] {
      StepInv(s, steps[0], maxItems);
      StepKeepsWhole(s, steps[0], r, maxItems);
      RunKeepsWhole(Next(s, steps[0]), steps[1..], r, maxItems);
    }
  }

  // For every interleaving and every runtime: what was processed, collected, queued and held is, in this order,
  // exactly what the runtime emitted, with no append left to be lost, if and only if the writer passed no buffer
  // with room in it under an append that had read it.
  lemma TracesConserved(steps: seq<Step>, maxItems: nat, r: RuntimeId)
    requires Possible(Initial(maxItems), steps) && r in Run(Initial(maxItems), steps).ledgers
    ensures
      var s := Run(Initial(maxItems), steps);
      && s.passed <= |s.shelf|
      && (Stored(s, r) == s.ledgers[r] && !Overtaken(s, r) <==> AllTimely(Initial(maxItems), steps, r))
  {
    InitialInv(maxItems);
    RunKeepsWhole(Initial(maxItems), steps, r, maxItems);
  }

  // So once a runtime's trace points are over, its emitted trace is stored if and only if that never happened.
  lemma FinishedTracesConserved(steps: seq<Step>, maxItems: nat, r: RuntimeId)
    requires Possible(Initial(maxItems), steps) && r in Run(Initial(maxItems), steps).ledgers
    requires r in Run(Initial(maxItems), steps).recorders ==> Run(Initial(maxItems), steps).recorders[r].flight.Idle?
    ensures
      var s := Run(Initial(maxItems), steps);
      && s.passed <= |s.shelf|
      && (Stored(s, r) == s.ledgers[r] <==> AllTimely(Initial(maxItems), steps, r))
  {
    TracesConserved(steps, maxItems, r);
  }

  // No trace point under way sees a second swap.
  ghost predicate Brief(s: State, step: Step, r: RuntimeId) {
    step == Swap(r) && r in s.recorders ==> !(s.recorders[r].flight.Loaded? && s.recorders[r].flight.age >= 1)
  }

  ghost predicate AllBrief(s: State, steps: seq<Step>, r: RuntimeId)
    requires Possible(s, steps)
    decreases |steps|
  {
    steps == [] || (Brief(s, steps[0], r) && AllBrief(Next(s, steps[0]), steps[1..], r))
  }

  ghost predicate Young(s: State, r: RuntimeId) {
    r in s.recorders ==>
      s.recorders[r].flight.Idle? || (s.recorders[r].flight.Loaded? && s.recorders[r].flight.age <= 1)
  }

  lemma {:induction false} BriefRunsAreTimely(s: State, steps: seq<Step>, r: RuntimeId)
    requires Possible(s, steps) && AllBrief(s, steps, r) && Young(s, r)
    ensures AllTimely(s, steps, r) && Young(Run(s, steps), r)
    decreases |steps|
  {
    if steps != [] {
      BriefRunsAreTimely(Next(s, steps[0]), steps[1..], r);
    }
  }

  // If no append of a runtime spans two swaps, every interleaving keeps its trace whole and in order.
  lemma BriefRunsConserve(steps: seq<Step>, maxItems: nat, r: RuntimeId)
    requires Possible(Initial(maxItems), steps) && AllBrief(Initial(maxItems), steps, r)
    requires r in Run(Initial(maxItems), steps).ledgers
    ensures var s := Run(Initial(maxItems), steps);
      s.passed <= |s.shelf| && Stored(s, r) == s.ledgers[r]
  {
    BriefRunsAreTimely(Initial(maxItems), steps, r);
    TracesConserved(steps, maxItems, r);
  }

  // The condition is needed. A run in which the only append spans two swaps:
  function OvertakenSteps(item: Item): seq<Step> {
    [Register(0, 7), Swap(0), Load(0, item), Swap(0), Swap(0), MoveOut(0), Collect, Pass, Pass, Pass, Commit(0)]
  }

  function OvertakenRecorder(item: Item, i: nat): Recorder {
    if i <= 1 then Recorder(7, false, [], [], [], Idle)
    else if i == 2 then Recorder(7, true, [], [], [[]], Idle)
    else if i == 3 then Recorder(7, true, [], [], [[]], Loaded(item, 0))
    else if i == 4 then Recorder(7, true, [], [], [[], []], Loaded(item, 1))
    else if i == 5 then Recorder(7, true, [], [], [[], [], []], Loaded(item, 2))
    else Recorder(7, true, [], [], [], if i <= 10 then Shelved(item, 2) else Idle)
  }

  function OvertakenShelf(item: Item, i: nat): seq<Parcel> {
    if i <= 5 then [] else [Parcel(0, 7, []), Parcel(0, 7, []), Parcel(0, 7, if i <= 10 then [] else [item])]
  }

  function OvertakenState(item: Item, maxItems: nat, i: nat): State {
    if i == 0 then Initial(maxItems)
    else
      State(map[0 := OvertakenRecorder(item, i)], map[0 := if i <= 10 then [] else [item]], OvertakenShelf(item, i),
            if i <= 7 then 0 else Min(i - 7, 3), if i <= 6 then 0 else 3, 0, [], [], maxItems)
  }

  lemma OvertakenRotations(item: Item)
    ensures Swapped(OvertakenRecorder(item, 1)) == OvertakenRecorder(item, 2)
    ensures Swapped(OvertakenRecorder(item, 3)) == OvertakenRecorder(item, 4)
    ensures Swapped(OvertakenRecorder(item, 4)) == OvertakenRecorder(item, 5)
    ensures MovedOut(OvertakenRecorder(item, 5), 0) == OvertakenRecorder(item, 6)
    ensures [] + Boxed(0, 7, OvertakenRecorder(item, 5).buffers) == OvertakenShelf(item, 6)
    ensures Dropped(OvertakenShelf(item, 10), 2, item) == OvertakenShelf(item, 11)
  {
    var none: seq<Item> := [];
    assert [] + [none] == [none] && [none] + [none] == [none, none] && [none, none] + [none] == [none, none, none];
    assert [] + [item] == [item];
  }

  lemma OvertakenKept(item: Item, maxItems: nat, i: nat)
    requires i <= 10
    ensures WellKept(OvertakenState(item, maxItems, i))
  {
    forall r
      ensures Tracked(OvertakenState(item, maxItems, i), r)
    {
    }
  }

  lemma OvertakenStep(item: Item, maxItems: nat, i: nat)
    requires i <= 10
    ensures
      var s, step := OvertakenState(item, maxItems, i), OvertakenSteps(item)[i];
      WellKept(s) && Enabled(s, step) && Next(s, step) == OvertakenState(item, maxItems, i + 1)
  {
    OvertakenKept(item, maxItems, i);
    OvertakenRotations(item);
    if i <= 5 {
      OvertakenFills(item, maxItems, i);
    } else {
      OvertakenDrains(item, maxItems, i);
    }
  }

  lemma OvertakenFills(item: Item, maxItems: nat, i: nat)
    requires i <= 5 && WellKept(OvertakenState(item, maxItems, i))
    ensures
      var s, step := OvertakenState(item, maxItems, i), OvertakenSteps(item)[i];
      Enabled(s, step) && Next(s, step) == OvertakenState(item, maxItems, i + 1)
  {
    OvertakenRotations(item);
    var s, t := OvertakenState(item, maxItems, i), OvertakenState(item, maxItems, i + 1);
    assert s.recorders[0 := OvertakenRecorder(item, i + 1)] == t.recorders;
  }

  lemma OvertakenDrains(item: Item, maxItems: nat, i: nat)
    requires 5 < i <= 10 && WellKept(OvertakenState(item, maxItems, i))
    ensures
      var s, step := OvertakenState(item, maxItems, i), OvertakenSteps(item)[i];
      Enabled(s, step) && Next(s, step) == OvertakenState(item, maxItems, i + 1)
  {
    OvertakenRotations(item);
    var s, t := OvertakenState(item, maxItems, i), OvertakenState(item, maxItems, i + 1);
    assert s.recorders[0 := OvertakenRecorder(item, i + 1)] == t.recorders;
    assert [] + [item] == [item];
    assert s.ledgers[0 := if i < 10 then [] else [item]] == t.ledgers;
  }

  // Rotated twice under an append, the buffer is written out before the item reaches it.
  lemma OvertakenAppendIsLost(item: Item, maxItems: nat)
    ensures Possible(Initial(maxItems), OvertakenSteps(item))
    ensures
      var s := Run(Initial(maxItems), OvertakenSteps(item));
      0 in s.ledgers && s.ledgers[0] == [item] && s.passed <= |s.shelf| && Stored(s, 0) == []
  {
    var states := seq(12, i requires 0 <= i < 12 => OvertakenState(item, maxItems, i));
    forall i | 0 <= i < 11
      ensures WellKept(states[i]) && Enabled(states[i], OvertakenSteps(item)[i])
        && states[i + 1] == Next(states[i], OvertakenSteps(item)[i])
    {
      OvertakenStep(item, maxItems, i);
    }
    Unroll(Initial(maxItems), OvertakenSteps(item), states);
    HeldInParts(OvertakenRecorder(item, 11));
    assert states[11].shelf[3..] == [];
  }

  // A run laid out state by state.
  lemma {:induction false} Unroll(s: State, steps: seq<Step>, states: seq<State>)
    requires |states| == |steps| + 1 && states[0] == s
    requires forall i :: 0 <= i < |steps| ==>
      WellKept(states[i]) && Enabled(states[i], steps[i]) && states[i + 1] == Next(states[i], steps[i])
    ensures Possible(s, steps) && Run(s, steps) == states[|steps|]
    decreases |steps|
  {
    if steps != [] {
      Unroll(states[1], steps[1..], states[1..]);
    }
  }

  // ---- Unregistering ----

  // How far a runtime that executes nothing has been emptied.
  ghost predicate Emptied(s: State, r: RuntimeId, n: nat) {
    && r in s.recorders && s.recorders[r].flight.Idle?
    && (n >= 1 ==> s.recorders[r].current == [])
    && (n >= 2 ==> s.recorders[r].last == [])
    && (n >= 3 ==> Flat(s.recorders[r].buffers) == [])
  }

  predicate Quiet(step: Step, r: RuntimeId) {
    step != Commit(r) && !(step.Load? && step.runtime == r) && step != Erase(r)
  }

  // Two swaps empty the buffers in use, moving out the others.
  function Advanced(n: nat, step: Step, r: RuntimeId): nat {
    if step == Swap(r) && n < 2 then n + 1 else if step == MoveOut(r) && n == 2 then 3 else n
  }

  function Progress(n: nat, steps: seq<Step>, r: RuntimeId): nat
    decreases |steps|
  {
    if steps == [] then n else Progress(Advanced(n, steps[0], r), steps[1..], r)
  }

  lemma QuietStepEmpties(s: State, step: Step, r: RuntimeId, n: nat)
    requires WellKept(s) && Enabled(s, step) && Quiet(step, r) && Emptied(s, r, n) && n <= 3
    ensures Emptied(Next(s, step), r, Advanced(n, step, r))
  {
    if step == Swap(r) {
      FlatMore(s.recorders[r].buffers, s.recorders[r].last);
    } else if step != MoveOut(r) {
      QuietStepKeeps(s, step, r);
    }
  }

  lemma QuietStepKeeps(s: State, step: Step, r: RuntimeId)
    requires WellKept(s) && Enabled(s, step) && Quiet(step, r) && r in s.recorders
    requires step != Swap(r) && step != MoveOut(r)
    ensures r in Next(s, step).recorders && Next(s, step).recorders[r] == s.recorders[r]
  {
  }

  lemma {:induction false} QuietRunEmpties(s: State, steps: seq<Step>, r: RuntimeId, n: nat)
    requires Possible(s, steps) && Emptied(s, r, n) && n <= 3
    requires forall i :: 0 <= i < |steps| ==> Quiet(steps[i], r)
    ensures Emptied(Run(s, steps), r, Progress(n, steps, r))
    decreases |steps|
  {
    if steps != [] {
      QuietStepEmpties(s, steps[0], r, n);
      QuietRunEmpties(Next(s, steps[0]), steps[1..], r, Advanced(n, steps[0], r));
    }
  }

  lemma {:induction false} QuietRunStores(s: State, steps: seq<Step>, r: RuntimeId)
    requires WellKept(s) && Possible(s, steps)
    requires forall i :: 0 <= i < |steps| ==> Quiet(steps[i], r)
    ensures WellKept(Run(s, steps)) && Stored(Run(s, steps), r) == Stored(s, r)
    ensures Emitted(Run(s, steps), r) == Emitted(s, r)
    decreases |steps|
  {
    if steps != [] {
      StepWellKept(s, steps[0]);
      StepSpares(s, steps[0], r);
      QuietRunStores(Next(s, steps[0]), steps[1..], r);
    }
  }

  // Once the forced swaps and the move are through, in whatever steps of other threads they are embedded, the
  // recorder holds nothing and may be erased, and all that was stored of its runtime is the writer's: everything
  // it emitted, if and only if nothing had been lost before.
  lemma UnregisterLeavesNothing(s: State, steps: seq<Step>, r: RuntimeId)
    requires WellKept(s) && Possible(s, steps)
    requires r in s.recorders && s.recorders[r].flight.Idle?
    requires forall i :: 0 <= i < |steps| ==> Quiet(steps[i], r)
    requires Progress(0, steps, r) == 3
    ensures
      var t := Run(s, steps);
      && Enabled(t, Erase(r)) && r in s.ledgers && t.passed <= |t.shelf|
      && (Of(t.processed, r) + Of(Unread(t.shelf, t.passed, t.pos), r) == s.ledgers[r]
        <==> Stored(s, r) == s.ledgers[r])
  {
    var t := Run(s, steps);
    QuietRunEmpties(s, steps, r, 0);
    QuietRunStores(s, steps, r);
    HeldInParts(t.recorders[r]);
    assert Tracked(s, r);
    var q := Of(t.processed, r) + Of(Unread(t.shelf, t.passed, t.pos), r);
    assert q + [] == q;
  }
}
