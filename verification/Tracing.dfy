// The tracing extension: the work of its record and write threads, and registering runtimes. Every method
// performs steps of the protocol in TracePipeline.
module Tracing {
  import opened Bytes
  import opened TraceBuffer
  import opened TracePipeline

  // "___WARP_TRACE___"
  const MAGIC: seq<Byte> :=
    [0x5F, 0x5F, 0x5F, 0x57, 0x41, 0x52, 0x50, 0x5F, 0x54, 0x52, 0x41, 0x43, 0x45, 0x5F, 0x5F, 0x5F]

  function RecordBytes(record: Record): seq<Byte> {
    LE64(record.moduleId % WORD64) + LE32(record.item.timePoint) + LE32(record.item.traceId)
  }

  function FileBytes(records: seq<Record>): seq<Byte> {
    if records == [] then [] else FileBytes(records[..|records| - 1]) + RecordBytes(records[|records| - 1])
  }

  // What a reader of the file finds at a position: module, time point and trace, sixteen bytes in all.
  ghost predicate ReadsAs(s: seq<Byte>, at: nat, record: Record) {
    && at + 16 <= |s|
    && Word64(s, at) == record.moduleId % 0x1_0000_0000_0000_0000
    && Word(s, at + 8) == record.item.timePoint
    && Word(s, at + 12) == record.item.traceId
  }

  // A file with its sixteen letters in front and the records behind them.
  ghost predicate Tells(s: seq<Byte>, records: seq<Record>) {
    && |s| == 16 + 16 * |records| && Spells(s[..16], "___WARP_TRACE___")
    && forall k :: 0 <= k < |records| ==> ReadsAs(s, 16 + 16 * k, records[k])
  }

  lemma RecordReads(before: seq<Byte>, record: Record, behind: seq<Byte>)
    ensures |RecordBytes(record)| == 16 && ReadsAs(before + RecordBytes(record) + behind, |before|, record)
  {
    var a, b, c := LE64(record.moduleId % WORD64), LE32(record.item.timePoint), LE32(record.item.traceId);
    var s := before + (a + b + c) + behind;
    assert s == before + a + (b + c + behind) && s == (before + a) + b + (c + behind);
    assert s == (before + a + b) + c + behind;
    Word64At(before, record.moduleId % WORD64, b + c + behind);
    WordAt(before + a, record.item.timePoint, c + behind);
    WordAt(before + a + b, record.item.traceId, behind);
  }

  lemma ReadsBehind(s: seq<Byte>, t: seq<Byte>, at: nat, record: Record)
    requires ReadsAs(s, at, record)
    ensures ReadsAs(s + t, at, record)
  {
  }

  lemma TellsMore(s: seq<Byte>, records: seq<Record>, record: Record)
    requires Tells(s, records)
    ensures Tells(s + RecordBytes(record), records + [record])
  {
    var last, all := RecordBytes(record), records + [record];
    assert (s + last)[..16] == s[..16];
    RecordReads(s, record, []);
    assert s + last + [] == s + last;
    forall k | 0 <= k < |records|
      ensures ReadsAs(s + last, 16 + 16 * k, all[k])
    {
      ReadsBehind(s, last, 16 + 16 * k, records[k]);
    }
  }

  lemma {:induction false} FileTells(records: seq<Record>)
    ensures Tells(MAGIC + FileBytes(records), records)
  {
    if records == [] {
      assert MAGIC + FileBytes(records) == MAGIC == MAGIC[..16];
    } else {
      var init, last := records[..|records| - 1], records[|records| - 1];
      FileTells(init);
      TellsMore(MAGIC + FileBytes(init), init, last);
      Associates(MAGIC, FileBytes(init), RecordBytes(last));
      assert init + [last] == records;
    }
  }

  // TraceGroupWithIdentifier: the buffers of one runtime that were handed over together.
  datatype Group = Group(runtime: RuntimeId, moduleId: nat, buffers: seq<seq<Item>>)

  function Parcels(groups: seq<Group>): seq<Parcel> {
    if groups == [] then []
    else
      var g := groups[|groups| - 1];
      Parcels(groups[..|groups| - 1]) + Boxed(g.runtime, g.moduleId, g.buffers)
  }

  function GroupRecords(g: Group): seq<Record> {
    Records(Boxed(g.runtime, g.moduleId, g.buffers))
  }

  predicate NearlyFull(c: Recorder) {
    |c.current| >= MIN_SWAP_BUFFER_SIZE
  }

  ghost predicate AllLive(m: map<RuntimeId, Recorder>) {
    forall r :: r in m ==> m[r].live
  }

  // What a pass of the record thread does to one recorder.
  function Rotated(c: Recorder, force: bool): Recorder {
    if force || NearlyFull(c) then Swapped(c) else c
  }

  // All but the two newest buffers are on the shelf, wherever that is.
  ghost predicate HandedOver(c: Recorder, d: Recorder) {
    exists n: nat :: d == MovedOut(c, n)
  }

  // What forcing every trace out does to one recorder.
  ghost predicate Forced(c: Recorder, d: Recorder) {
    HandedOver(Swapped(Swapped(c)), d)
  }

  // What one pass of the record thread makes of a recorder: with any swap about, it is swapped if it needs it;
  // otherwise its completed buffers go to the writer if the lock is free.
  ghost predicate Passed(before: map<RuntimeId, Recorder>, r: RuntimeId, force: bool, locked: bool, d: Recorder)
    requires r in before
  {
    if force || exists q :: q in before && |before[q].current| >= 4096 then
      d == if force || |before[r].current| >= 4096 then Swapped(before[r]) else before[r]
    else if locked then HandedOver(before[r], d)
    else d == before[r]
  }

  // A run followed by one more step.
  lemma {:induction false} RunMore(s: State, steps: seq<Step>, step: Step)
    requires Possible(s, steps) && WellKept(Run(s, steps)) && Enabled(Run(s, steps), step)
    ensures Possible(s, steps + [step]) && Run(s, steps + [step]) == Next(Run(s, steps), step)
    decreases |steps|
  {
    if steps == [] {
      assert ([step])[1..] == [];
      assert [] + [step] == [step];
    } else {
      RunMore(Next(s, steps[0]), steps[1..], step);
      assert (steps + [step])[1..] == steps[1..] + [step];
    }
  }

  // The state a history leads to.
  ghost predicate Reached(maxItems: nat, history: seq<Step>, s: State) {
    Possible(Initial(maxItems), history) && Run(Initial(maxItems), history) == s
  }

  lemma ReachedInv(maxItems: nat, history: seq<Step>, s: State)
    requires Reached(maxItems, history, s)
    ensures Inv(s, maxItems)
  {
    InitialInv(maxItems);
    RunInv(Initial(maxItems), history, maxItems);
  }

  lemma ReachedNext(maxItems: nat, history: seq<Step>, s: State, step: Step)
    requires Reached(maxItems, history, s) && Enabled(s, step)
    ensures WellKept(s) && Reached(maxItems, history + [step], Next(s, step))
  {
    ReachedInv(maxItems, history, s);
    RunMore(Initial(maxItems), history, step);
  }

  lemma ParcelsMore(groups: seq<Group>, g: Group)
    ensures Parcels(groups + [g]) == Parcels(groups) + Boxed(g.runtime, g.moduleId, g.buffers)
  {
    assert (groups + [g])[..|groups|] == groups;
  }

  lemma MovedQueue(s: State, r: RuntimeId, groups: seq<Group>)
    requires WellKept(s) && Enabled(s, MoveOut(r)) && s.shelf[s.taken..] == Parcels(groups)
    ensures var c, t := s.recorders[r], Next(s, MoveOut(r));
      && t == s.(recorders := s.recorders[r := MovedOut(c, |s.shelf|)], shelf := t.shelf)
      && |t.shelf| == |s.shelf| + |c.buffers|
      && t.shelf[s.taken..] == Parcels(groups + [Group(r, c.moduleId, c.buffers)])
  {
    var c := s.recorders[r];
    ParcelsMore(groups, Group(r, c.moduleId, c.buffers));
    SuffixOfSum(s.shelf, Boxed(r, c.moduleId, c.buffers), s.taken);
  }

  lemma StoredQueued(s: State, r: RuntimeId, groups: seq<Group>, g: nat, b: nat, i: nat)
    requires WellKept(s) && s.shelf[s.taken..] == Parcels(groups) && StandsAt(groups, g, b, i)
    requires r in s.recorders && s.recorders[r].flight.Shelved? && s.recorders[r].flight.at == s.taken + i
    ensures var c, t := s.recorders[r], Next(s, Commit(r));
      && t == s.(recorders := s.recorders[r := c.(flight := Idle)], shelf := t.shelf, ledgers := t.ledgers)
      && |t.shelf| == |s.shelf|
      && t.shelf[s.taken..] == Parcels(Filled(groups, g, b, c.flight.item))
  {
    assert Tracked(s, r);
    ParcelsFilled(groups, g, b, i, s.recorders[r].flight.item);
    DropBehind(s.shelf, s.taken, i, s.recorders[r].flight.item);
  }

  // Where a buffer of a group stands in the queue.
  ghost predicate StandsAt(groups: seq<Group>, g: nat, b: nat, i: nat) {
    g < |groups| && b < |groups[g].buffers| && i == |Parcels(groups[..g])| + b
  }

  function Filled(groups: seq<Group>, g: nat, b: nat, item: Item): seq<Group>
    requires g < |groups| && b < |groups[g].buffers|
  {
    groups[g := FilledGroup(groups[g], b, item)]
  }

  lemma {:induction false} ParcelsFilled(groups: seq<Group>, g: nat, b: nat, i: nat, item: Item)
    requires StandsAt(groups, g, b, i)
    ensures i < |Parcels(groups)| && Parcels(groups)[i].items == groups[g].buffers[b]
    ensures Parcels(Filled(groups, g, b, item)) == Dropped(Parcels(groups), i, item)
  {
    var n := |groups| - 1;
    var init, last := groups[..n], groups[n];
    if g < n {
      assert init[..g] == groups[..g];
      ParcelsFilled(init, g, b, i, item);
      assert Filled(groups, g, b, item) == Filled(init, g, b, item) + [last];
      ParcelsMore(Filled(init, g, b, item), last);
    } else {
      BoxFilled(last, b, item);
      assert Filled(groups, g, b, item) == init + [FilledGroup(last, b, item)];
      ParcelsMore(init, FilledGroup(last, b, item));
    }
  }

  function FilledGroup(g: Group, b: nat, item: Item): Group
    requires b < |g.buffers|
  {
    g.(buffers := g.buffers[b := Appended(g.buffers[b], item)])
  }

  lemma BoxFilled(g: Group, b: nat, item: Item)
    requires b < |g.buffers|
    ensures Boxed(g.runtime, g.moduleId, FilledGroup(g, b, item).buffers)
      == Dropped(Boxed(g.runtime, g.moduleId, g.buffers), b, item)
  {
  }

  class TracingExtension {
    const maxItems: nat
    var leftItems: nat
    var registeredRuntimes: map<RuntimeId, Recorder>
    var recordedTraces: seq<Group>
    var traceStream: seq<Byte>
    var shelved: nat // how many buffers were handed over: where the next one will lie
    ghost var machine: State
    ghost var history: seq<Step>

    // The fields are those of a reachable state of the protocol in which the writer holds nothing.
    ghost predicate Coupled()
      reads this
    {
      && Reached(maxItems, history, machine)
      && machine.recorders == registeredRuntimes
      && machine.passed == machine.taken <= |machine.shelf| && machine.pos == 0
      && machine.shelf[machine.taken..] == Parcels(recordedTraces)
      && shelved == |machine.shelf|
      && machine.left == leftItems
      && traceStream == MAGIC + FileBytes(machine.file)
    }

    ghost predicate Valid()
      reads this
    {
      Coupled() && AllLive(registeredRuntimes)
    }

    constructor (maxItems: nat)
      ensures Valid() && this.maxItems == maxItems && history == []
    {
      this.maxItems, leftItems := maxItems, maxItems;
      registeredRuntimes, recordedTraces, traceStream, shelved := map[], [], MAGIC, 0;
      machine, history := Initial(maxItems), [];
    }

    method SwapOne(r: RuntimeId)
      requires Coupled() && r in registeredRuntimes
      modifies this`registeredRuntimes, this`machine, this`history
      ensures Coupled() && history == old(history) + [Swap(r)]
      ensures registeredRuntimes == old(registeredRuntimes)[r := Swapped(old(registeredRuntimes)[r])]
      ensures machine.ledgers == old(machine).ledgers
    {
      ReachedNext(maxItems, history, machine, Swap(r));
      machine, history := Next(machine, Swap(r)), history + [Swap(r)];
      registeredRuntimes := registeredRuntimes[r := Swapped(registeredRuntimes[r])];
    }

    method MoveOne(r: RuntimeId)
      requires Coupled() && r in registeredRuntimes && registeredRuntimes[r].buffers != []
      modifies this`registeredRuntimes, this`recordedTraces, this`shelved, this`machine, this`history
      ensures Coupled() && history == old(history) + [MoveOut(r)]
      ensures registeredRuntimes
        == old(registeredRuntimes)[r := MovedOut(old(registeredRuntimes)[r], |old(machine).shelf|)]
      ensures machine.ledgers == old(machine).ledgers
    {
      ReachedNext(maxItems, history, machine, MoveOut(r));
      var c := registeredRuntimes[r];
      MovedQueue(machine, r, recordedTraces);
      machine, history := Next(machine, MoveOut(r)), history + [MoveOut(r)];
      recordedTraces := recordedTraces + [Group(r, c.moduleId, c.buffers)];
      registeredRuntimes := registeredRuntimes[r := MovedOut(c, shelved)];
      shelved := shelved + |c.buffers|;
    }

    // Compiled code shares the buffers: a trace point reads the buffer pointer, and later stores its item.
    method CompiledCodeLoads(r: RuntimeId, item: Item)
      requires Coupled() && r in registeredRuntimes
      requires registeredRuntimes[r].live && registeredRuntimes[r].flight.Idle?
      modifies this`registeredRuntimes, this`machine, this`history
      ensures Coupled() && history == old(history) + [Load(r, item)]
      ensures registeredRuntimes == old(registeredRuntimes)[r := old(registeredRuntimes)[r].(flight := Loaded(item, 0))]
    {
      ReachedNext(maxItems, history, machine, Load(r, item));
      machine, history := Next(machine, Load(r, item)), history + [Load(r, item)];
      registeredRuntimes := registeredRuntimes[r := registeredRuntimes[r].(flight := Loaded(item, 0))];
    }

    method CompiledCodeStores(r: RuntimeId)
      requires Coupled() && r in registeredRuntimes && registeredRuntimes[r].flight.Loaded?
      modifies this`registeredRuntimes, this`machine, this`history
      ensures Coupled() && history == old(history) + [Commit(r)]
      ensures old(registeredRuntimes)[r].flight.age < |old(registeredRuntimes)[r].buffers| + 2
      ensures registeredRuntimes == old(registeredRuntimes)[r := Landed(old(registeredRuntimes)[r])]
    {
      ReachedNext(maxItems, history, machine, Commit(r));
      assert Tracked(machine, r);
      machine, history := Next(machine, Commit(r)), history + [Commit(r)];
      registeredRuntimes := registeredRuntimes[r := Landed(registeredRuntimes[r])];
    }

    // The buffer that was read waits in the queue.
    method CompiledCodeStoresQueued(r: RuntimeId, g: nat, b: nat, ghost i: nat)
      requires Coupled() && r in registeredRuntimes && registeredRuntimes[r].flight.Shelved?
      requires StandsAt(recordedTraces, g, b, i) && registeredRuntimes[r].flight.at == machine.taken + i
      modifies this`registeredRuntimes, this`recordedTraces, this`machine, this`history
      ensures Coupled() && history == old(history) + [Commit(r)]
      ensures recordedTraces == Filled(old(recordedTraces), g, b, old(registeredRuntimes)[r].flight.item)
      ensures registeredRuntimes == old(registeredRuntimes)[r := old(registeredRuntimes)[r].(flight := Idle)]
    {
      var item := registeredRuntimes[r].flight.item;
      ReachedNext(maxItems, history, machine, Commit(r));
      StoredQueued(machine, r, recordedTraces, g, b, i);
      machine, history := Next(machine, Commit(r)), history + [Commit(r)];
      recordedTraces := Filled(recordedTraces, g, b, item);
      registeredRuntimes := registeredRuntimes[r := registeredRuntimes[r].(flight := Idle)];
    }

    // The writer is through with the buffer that was read: the item reaches no one.
    method CompiledCodeStoresLate(r: RuntimeId)
      requires Coupled() && r in registeredRuntimes && registeredRuntimes[r].flight.Shelved?
      requires registeredRuntimes[r].flight.at < machine.taken
      modifies this`registeredRuntimes, this`machine, this`history
      ensures Coupled() && history == old(history) + [Commit(r)]
      ensures registeredRuntimes == old(registeredRuntimes)[r := old(registeredRuntimes)[r].(flight := Idle)]
    {
      ReachedNext(maxItems, history, machine, Commit(r));
      DropBefore(machine.shelf, machine.taken, registeredRuntimes[r].flight.at, registeredRuntimes[r].flight.item);
      machine, history := Next(machine, Commit(r)), history + [Commit(r)];
      registeredRuntimes := registeredRuntimes[r := registeredRuntimes[r].(flight := Idle)];
    }

    method SwapIfNeeded(r: RuntimeId, force: bool) returns (swapped: bool)
      requires Coupled() && r in registeredRuntimes
      modifies this`registeredRuntimes, this`machine, this`history
      ensures Coupled() && old(history) <= history && machine.ledgers == old(machine).ledgers
      ensures registeredRuntimes == old(registeredRuntimes)[r := Rotated(old(registeredRuntimes)[r], force)]
      ensures swapped <==> force || NearlyFull(old(registeredRuntimes)[r])
    {
      swapped := force || NearlyFull(registeredRuntimes[r]);
      if swapped {
        SwapOne(r);
      }
    }

    // Swap the buffers of every runtime that needs it, or of all of them.
    method SwapAll(force: bool) returns (isSwapOut: bool)
      requires Coupled() && (!force ==> AllLive(registeredRuntimes))
      modifies this`registeredRuntimes, this`machine, this`history
      ensures Coupled() && old(history) <= history
      ensures registeredRuntimes.Keys == old(registeredRuntimes).Keys
      ensures forall r :: r in registeredRuntimes ==>
        registeredRuntimes[r] == Rotated(old(registeredRuntimes)[r], force)
      ensures isSwapOut <==>
        exists r :: r in old(registeredRuntimes) && (force || NearlyFull(old(registeredRuntimes)[r]))
      ensures machine.ledgers == old(machine).ledgers
    {
      isSwapOut := false;
      ghost var before := registeredRuntimes;
      var rest := registeredRuntimes.Keys;
      while rest != {}
        invariant rest <= before.Keys == registeredRuntimes.Keys
        invariant Coupled() && old(history) <= history
        invariant forall r :: r in before ==>
          registeredRuntimes[r] == if r in rest then before[r] else Rotated(before[r], force)
        invariant isSwapOut <==> exists r :: r in before && r !in rest && (force || NearlyFull(before[r]))
        invariant machine.ledgers == old(machine).ledgers
        decreases |rest|
      {
        var r :| r in rest;
        var swapped := SwapIfNeeded(r, force);
        isSwapOut := isSwapOut || swapped;
        rest := rest - {r};
      }
    }

    // Hand the completed buffers of every runtime to the writer.
    method MoveAll()
      requires Coupled()
      modifies this`registeredRuntimes, this`recordedTraces, this`shelved, this`machine, this`history
      ensures Coupled() && old(history) <= history
      ensures registeredRuntimes.Keys == old(registeredRuntimes).Keys
      ensures forall r :: r in registeredRuntimes ==> HandedOver(old(registeredRuntimes)[r], registeredRuntimes[r])
      ensures machine.ledgers == old(machine).ledgers
    {
      ghost var before := registeredRuntimes;
      var rest := registeredRuntimes.Keys;
      while rest != {}
        invariant rest <= before.Keys == registeredRuntimes.Keys
        invariant Coupled() && old(history) <= history
        invariant forall r :: r in rest ==> registeredRuntimes[r] == before[r]
        invariant forall r :: r in before && r !in rest ==> HandedOver(before[r], registeredRuntimes[r])
        invariant machine.ledgers == old(machine).ledgers
        decreases |rest|
      {
        var r :| r in rest;
        if registeredRuntimes[r].buffers != [] {
          MoveOne(r);
        } else {
          assert registeredRuntimes[r] == MovedOut(registeredRuntimes[r], 0);
        }
        rest := rest - {r};
      }
    }

    // putRecordDataToRecordedRecords gives up when the writer holds the lock.
    method PutRecordDataToRecordedRecords(locked: bool)
      requires Coupled()
      modifies this`registeredRuntimes, this`recordedTraces, this`shelved, this`machine, this`history
      ensures Coupled() && old(history) <= history
      ensures registeredRuntimes.Keys == old(registeredRuntimes).Keys
      ensures locked ==> forall r :: r in registeredRuntimes ==>
        HandedOver(old(registeredRuntimes)[r], registeredRuntimes[r])
      ensures !locked ==> registeredRuntimes == old(registeredRuntimes) && recordedTraces == old(recordedTraces)
      ensures machine.ledgers == old(machine).ledgers
    {
      if locked {
        MoveAll();
      }
    }

    // recordOnce: one pass of the record thread. Buffers are handed on only in a pass that swaps none.
    method RecordOnce(forceSwapOut: bool, locked: bool)
      requires Coupled() && (!forceSwapOut ==> AllLive(registeredRuntimes))
      modifies this`registeredRuntimes, this`recordedTraces, this`shelved, this`machine, this`history
      ensures Coupled() && old(history) <= history
      ensures registeredRuntimes.Keys == old(registeredRuntimes).Keys
      ensures forall r :: r in registeredRuntimes ==>
        Passed(old(registeredRuntimes), r, forceSwapOut, locked, registeredRuntimes[r])
      ensures machine.ledgers == old(machine).ledgers
    {
      ghost var before := registeredRuntimes;
      var isSwapOut := SwapAll(forceSwapOut);
      if !isSwapOut {
        assert registeredRuntimes == before;
        PutRecordDataToRecordedRecords(locked);
      }
    }

    // forceRecordAllTraces: current to last, last to the completed ones, and those to the writer, whose
    // thread is stopped, so that the lock is free.
    method ForceRecordAllTraces()
      requires Coupled()
      modifies this`registeredRuntimes, this`recordedTraces, this`shelved, this`machine, this`history
      ensures Coupled() && old(history) <= history
      ensures registeredRuntimes.Keys == old(registeredRuntimes).Keys
      ensures forall r :: r in registeredRuntimes ==> Forced(old(registeredRuntimes)[r], registeredRuntimes[r])
      ensures machine.ledgers == old(machine).ledgers
    {
      RecordOnce(true, true);
      RecordOnce(true, true);
      PutRecordDataToRecordedRecords(true);
    }

    method RegisterOne(r: RuntimeId, moduleId: nat)
      requires Coupled() && r !in registeredRuntimes
      modifies this`registeredRuntimes, this`machine, this`history
      ensures Coupled() && history == old(history) + [Register(r, moduleId)]
      ensures registeredRuntimes == old(registeredRuntimes)[r := Recorder(moduleId, false, [], [], [], Idle)]
    {
      ReachedInv(maxItems, history, machine);
      ReachedNext(maxItems, history, machine, Register(r, moduleId));
      machine, history := Next(machine, Register(r, moduleId)), history + [Register(r, moduleId)];
      registeredRuntimes := registeredRuntimes[r := Recorder(moduleId, false, [], [], [], Idle)];
    }

    method EraseOne(r: RuntimeId)
      requires Coupled() && r in registeredRuntimes
      requires registeredRuntimes[r].flight.Idle? && Held(registeredRuntimes[r]) == []
      modifies this`registeredRuntimes, this`machine, this`history
      ensures Coupled() && history == old(history) + [Erase(r)]
      ensures registeredRuntimes == old(registeredRuntimes) - {r}
      ensures r in machine.ledgers && machine.ledgers == old(machine).ledgers
    {
      ReachedInv(maxItems, history, machine);
      assert Tracked(machine, r);
      ReachedNext(maxItems, history, machine, Erase(r));
      machine, history := Next(machine, Erase(r)), history + [Erase(r)];
      registeredRuntimes := registeredRuntimes - {r};
    }

    method RegisterRuntime(r: RuntimeId, moduleId: nat)
      requires Valid() && r !in registeredRuntimes
      modifies this`registeredRuntimes, this`recordedTraces, this`shelved, this`machine, this`history
      ensures Valid() && old(history) <= history
      ensures registeredRuntimes.Keys == old(registeredRuntimes).Keys + {r}
      ensures registeredRuntimes[r].moduleId == moduleId
    {
      RegisterOne(r, moduleId);
      RecordOnce(true, true);
    }

    // unregisterRuntime: the runtime executes nothing. When it is gone, what has been written and what waits in
    // the queue is, in order, everything it ever emitted, if and only if the writer never passed one of its buffers
    // with room in it under an append.
    method UnregisterRuntime(r: RuntimeId)
      requires Valid() && r in registeredRuntimes && registeredRuntimes[r].flight.Idle?
      modifies this`registeredRuntimes, this`recordedTraces, this`shelved, this`machine, this`history
      ensures Valid() && old(history) <= history && Possible(Initial(maxItems), history)
      ensures registeredRuntimes.Keys == old(registeredRuntimes).Keys - {r}
      ensures r in machine.ledgers && machine.ledgers == old(machine).ledgers
      ensures Of(machine.processed, r) + Of(Records(Parcels(recordedTraces)), r) == machine.ledgers[r]
        <==> AllTimely(Initial(maxItems), history, r)
    {
      ghost var c := registeredRuntimes[r];
      ForceRecordAllTraces();
      TwiceSwapped(c, registeredRuntimes[r]);
      EraseOne(r);
      WriterHasAll(maxItems, history, machine, r);
    }

    // stopAndWriteData: what every runtime held is moved out and written, up to the limit. Of every runtime that
    // executes nothing or is gone, the writer has then gone through everything it ever emitted, in order, if and only
    // if it never passed one of its buffers with room in it under an append.
    method StopAndWriteData()
      requires Valid()
      modifies this
      ensures Coupled() && old(history) <= history && recordedTraces == []
      ensures Possible(Initial(maxItems), history) && machine.ledgers == old(machine).ledgers
      ensures Tells(traceStream, machine.processed[..Min(maxItems, |machine.processed|)])
      ensures forall r :: r in machine.ledgers && Silent(old(registeredRuntimes), r) ==>
        (Of(machine.processed, r) == machine.ledgers[r] <==> AllTimely(Initial(maxItems), history, r))
      ensures registeredRuntimes.Keys == old(registeredRuntimes).Keys
      ensures forall r :: r in registeredRuntimes ==> Forced(old(registeredRuntimes)[r], registeredRuntimes[r])
    {
      ghost var before := registeredRuntimes;
      ForceRecordAllTraces();
      WriteOnce();
      forall r | r in machine.ledgers && Silent(before, r)
        ensures Of(machine.processed, r) == machine.ledgers[r] <==> AllTimely(Initial(maxItems), history, r)
      {
        if r in registeredRuntimes {
          TwiceSwapped(before[r], registeredRuntimes[r]);
        }
        AllProcessed(maxItems, history, machine, r);
      }
    }

    // The stream, read from its bytes alone: the first of all records the writer has gone through, up to the limit.
    lemma StreamTells()
      requires Coupled()
      ensures Tells(traceStream, machine.processed[..Min(maxItems, |machine.processed|)])
    {
      ReachedInv(maxItems, history, machine);
      FileTells(machine.file);
    }

    // writeOnce: everything queued goes to the file in order, up to the limit. With nothing queued the
    // thread waits, or leaves when it is being paused; neither changes anything.
    method WriteOnce()
      requires Coupled()
      modifies this`leftItems, this`traceStream, this`recordedTraces, this`machine, this`history
      ensures Coupled() && old(history) <= history && recordedTraces == [] && machine.ledgers == old(machine).ledgers
      ensures traceStream == old(traceStream)
        + FileBytes(Limited(Records(Parcels(old(recordedTraces))), old(leftItems)))
      ensures leftItems == Remaining(|Records(Parcels(old(recordedTraces)))|, old(leftItems))
      ensures machine.processed == old(machine).processed + Records(Parcels(old(recordedTraces)))
      ensures Tells(traceStream, machine.processed[..Min(maxItems, |machine.processed|)])
    {
      var collectedTraces := recordedTraces;
      recordedTraces := [];
      DrainedFields(machine, collectedTraces, traceStream);
      history := WritesReach(maxItems, history, machine);
      machine := Drained(machine);
      WriteGroups(collectedTraces);
      StreamTells();
    }

    method WriteGroups(collectedTraces: seq<Group>)
      modifies this`leftItems, this`traceStream
      ensures traceStream == old(traceStream) + FileBytes(Limited(Records(Parcels(collectedTraces)), old(leftItems)))
      ensures leftItems == Remaining(|Records(Parcels(collectedTraces))|, old(leftItems))
    {
      ghost var left, stream, done := leftItems, traceStream, [];
      var g := 0;
      assert Limited(done, left) == [] && stream + [] == stream;
      while g < |collectedTraces|
        invariant 0 <= g <= |collectedTraces|
        invariant done == Records(Parcels(collectedTraces[..g]))
        invariant traceStream == stream + FileBytes(Limited(done, left)) && leftItems == Remaining(|done|, left)
      {
        WriteGroup(collectedTraces[g]);
        GroupMore(collectedTraces, g, left);
        Associates(stream, FileBytes(Limited(done, left)),
          FileBytes(Limited(GroupRecords(collectedTraces[g]), Remaining(|done|, left))));
        g := g + 1;
        done := Records(Parcels(collectedTraces[..g]));
      }
      assert collectedTraces[..g] == collectedTraces;
    }

    method WriteGroup(group: Group)
      modifies this`leftItems, this`traceStream
      ensures traceStream == old(traceStream) + FileBytes(Limited(GroupRecords(group), old(leftItems)))
      ensures leftItems == Remaining(|GroupRecords(group)|, old(leftItems))
    {
      ghost var r, id, left, stream, done := group.runtime, group.moduleId, leftItems, traceStream, [];
      var b := 0;
      assert Limited(done, left) == [] && stream + [] == stream;
      while b < |group.buffers|
        invariant 0 <= b <= |group.buffers|
        invariant done == Records(Boxed(r, id, group.buffers[..b]))
        invariant traceStream == stream + FileBytes(Limited(done, left)) && leftItems == Remaining(|done|, left)
      {
        WriteBuffer(group.runtime, group.moduleId, group.buffers[b]);
        BufferMore(r, id, group.buffers, b, left);
        Associates(stream, FileBytes(Limited(done, left)),
          FileBytes(Limited(Tagged(r, id, group.buffers[b]), Remaining(|done|, left))));
        b := b + 1;
        done := Records(Boxed(r, id, group.buffers[..b]));
      }
      assert group.buffers[..b] == group.buffers;
    }

    // The three writes of one item.
    method WriteItem(id: nat, item: Item)
      modifies this`traceStream
      ensures forall r :: traceStream == old(traceStream) + RecordBytes(Record(r, id, item))
    {
      ghost var stream, a, b, c := traceStream, LE64(id % WORD64), LE32(item.timePoint), LE32(item.traceId);
      traceStream := traceStream + LE64(id % WORD64);
      traceStream := traceStream + LE32(item.timePoint);
      traceStream := traceStream + LE32(item.traceId);
      Associates(stream, a, b);
      Associates(stream, a + b, c);
    }

    // One buffer: the loop stops at the limit and the next buffers find nothing left.
    method WriteBuffer(r: RuntimeId, id: nat, records: seq<Item>)
      modifies this`leftItems, this`traceStream
      ensures traceStream == old(traceStream) + FileBytes(Limited(Tagged(r, id, records), old(leftItems)))
      ensures leftItems == Remaining(|records|, old(leftItems))
    {
      ghost var tagged, stream, left := Tagged(r, id, records), traceStream, leftItems;
      var i := 0;
      assert Limited(tagged[..0], left) == [] && stream + [] == stream;
      while i < |records|
        invariant 0 <= i <= |records|
        invariant traceStream == stream + FileBytes(Limited(tagged[..i], left)) && leftItems == Remaining(i, left)
      {
        var item := records[i];
        CapOneMore(tagged, i, left);
        if leftItems == 0 {
          CapReached(tagged, i, left);
          break;
        }
        leftItems := leftItems - 1;
        WriteItem(id, item);
        OneMoreWritten(stream, Limited(tagged[..i], left), tagged[i]);
        i := i + 1;
      }
      assert i == |records| ==> tagged[..i] == tagged;
    }
  }

  lemma OneMoreWritten(stream: seq<Byte>, done: seq<Record>, record: Record)
    ensures stream + FileBytes(done) + RecordBytes(record) == stream + FileBytes(done + [record])
  {
    FileBytesMore(done, record);
    Associates(stream, FileBytes(done), RecordBytes(record));
  }

  // The first records, up to the limit, and what is left of it.
  function Limited(records: seq<Record>, left: nat): seq<Record> {
    records[..Min(left, |records|)]
  }

  function Remaining(n: nat, left: nat): nat {
    left - Min(left, n)
  }

  lemma CapOneMore(records: seq<Record>, i: nat, left: nat)
    requires i < |records|
    ensures Remaining(i, left) > 0 ==> Limited(records[..i + 1], left) == Limited(records[..i], left) + [records[i]]
  {
  }

  lemma CapReached(records: seq<Record>, i: nat, left: nat)
    requires i <= |records| && Remaining(i, left) == 0
    ensures Limited(records[..i], left) == Limited(records, left) && Remaining(|records|, left) == 0
  {
  }

  lemma FileBytesMore(records: seq<Record>, record: Record)
    ensures FileBytes(records + [record]) == FileBytes(records) + RecordBytes(record)
  {
    assert (records + [record])[..|records|] == records;
  }

  lemma TwiceSwapped(c: Recorder, d: Recorder)
    requires c.flight.Idle? && Forced(c, d)
    ensures Held(d) == [] && d.flight.Idle?
  {
    HeldInParts(d);
  }

  lemma WriterHasAll(maxItems: nat, history: seq<Step>, s: State, r: RuntimeId)
    requires Reached(maxItems, history, s)
    requires r !in s.recorders && s.passed <= |s.shelf| && s.pos == 0 && r in s.ledgers
    ensures Of(s.processed, r) + Of(Records(s.shelf[s.passed..]), r) == s.ledgers[r]
      <==> AllTimely(Initial(maxItems), history, r)
  {
    FinishedTracesConserved(history, maxItems, r);
    assert Unread(s.shelf, s.passed, s.pos) == Records(s.shelf[s.passed..]);
    var q := Of(s.processed, r) + Of(Records(s.shelf[s.passed..]), r);
    assert q + [] == q;
  }

  // A runtime that is not in the middle of a trace point, if it is registered at all.
  ghost predicate Silent(recorders: map<RuntimeId, Recorder>, r: RuntimeId) {
    r in recorders ==> recorders[r].flight.Idle?
  }

  lemma AllProcessed(maxItems: nat, history: seq<Step>, s: State, r: RuntimeId)
    requires Reached(maxItems, history, s) && s.passed == |s.shelf| && s.pos == 0 && r in s.ledgers
    requires r in s.recorders ==> s.recorders[r].flight.Idle? && Held(s.recorders[r]) == []
    ensures Of(s.processed, r) == s.ledgers[r] <==> AllTimely(Initial(maxItems), history, r)
  {
    FinishedTracesConserved(history, maxItems, r);
    assert s.shelf[s.passed..] == [];
    var p := Of(s.processed, r);
    assert p + [] + [] == p;
  }

  lemma DropBehind(shelf: seq<Parcel>, taken: nat, i: nat, item: Item)
    requires taken + i < |shelf|
    ensures Dropped(shelf, taken + i, item)[taken..] == Dropped(shelf[taken..], i, item)
  {
  }

  lemma DropBefore(shelf: seq<Parcel>, taken: nat, at: nat, item: Item)
    requires at < taken <= |shelf|
    ensures Dropped(shelf, at, item)[taken..] == shelf[taken..]
  {
  }

  lemma {:induction false} FileBytesSum(a: seq<Record>, b: seq<Record>)
    ensures FileBytes(a + b) == FileBytes(a) + FileBytes(b)
  {
    if b == [] {
      assert a + b == a;
    } else {
      var n := |b| - 1;
      FileBytesSum(a, b[..n]);
      assert (a + b)[..|a + b| - 1] == a + b[..n];
      Associates(FileBytes(a), FileBytes(b[..n]), RecordBytes(b[n]));
    }
  }

  // Writing two stretches one after the other is writing both under the same limit.
  lemma CapSum(a: seq<Record>, b: seq<Record>, left: nat)
    ensures Limited(a + b, left) == Limited(a, left) + Limited(b, Remaining(|a|, left))
    ensures Remaining(|a + b|, left) == Remaining(|b|, Remaining(|a|, left))
  {
  }

  lemma CappedBytes(a: seq<Record>, b: seq<Record>, left: nat)
    ensures FileBytes(Limited(a, left)) + FileBytes(Limited(b, Remaining(|a|, left))) == FileBytes(Limited(a + b, left))
    ensures Remaining(|a + b|, left) == Remaining(|b|, Remaining(|a|, left))
  {
    CapSum(a, b, left);
    FileBytesSum(Limited(a, left), Limited(b, Remaining(|a|, left)));
  }

  lemma BufferMore(r: RuntimeId, id: nat, buffers: seq<seq<Item>>, b: nat, left: nat)
    requires b < |buffers|
    ensures
      var before, after := Records(Boxed(r, id, buffers[..b])), Records(Boxed(r, id, buffers[..b + 1]));
      && FileBytes(Limited(before, left)) + FileBytes(Limited(Tagged(r, id, buffers[b]), Remaining(|before|, left)))
        == FileBytes(Limited(after, left))
      && Remaining(|after|, left) == Remaining(|buffers[b]|, Remaining(|before|, left))
  {
    assert Boxed(r, id, buffers[..b + 1])[..b] == Boxed(r, id, buffers[..b]);
    CappedBytes(Records(Boxed(r, id, buffers[..b])), Tagged(r, id, buffers[b]), left);
  }

  lemma GroupMore(groups: seq<Group>, g: nat, left: nat)
    requires g < |groups|
    ensures
      var before, after := Records(Parcels(groups[..g])), Records(Parcels(groups[..g + 1]));
      var one := GroupRecords(groups[g]);
      && FileBytes(Limited(before, left)) + FileBytes(Limited(one, Remaining(|before|, left)))
        == FileBytes(Limited(after, left))
      && Remaining(|after|, left) == Remaining(|one|, Remaining(|before|, left))
  {
    var boxed := Boxed(groups[g].runtime, groups[g].moduleId, groups[g].buffers);
    assert groups[..g + 1] == groups[..g] + [groups[g]];
    ParcelsMore(groups[..g], groups[g]);
    RecordsSum(Parcels(groups[..g]), boxed);
    CappedBytes(Records(Parcels(groups[..g])), Records(boxed), left);
  }

  // ---- The write thread's pass as steps of the protocol ----

  // The writer is through with everything that was handed over.
  ghost function Drained(s: State): State
    requires s.passed <= |s.shelf|
  {
    var all := Unread(s.shelf, s.passed, s.pos);
    s.(passed := |s.shelf|, taken := |s.shelf|, pos := 0, processed := s.processed + all,
       file := s.file + Limited(all, s.left), left := Remaining(|all|, s.left))
  }

  lemma DrainedFields(s: State, groups: seq<Group>, stream: seq<Byte>)
    requires s.passed <= |s.shelf| && s.pos == 0 && s.shelf[s.passed..] == Parcels(groups)
    requires stream == MAGIC + FileBytes(s.file)
    ensures var t, all := Drained(s), Records(Parcels(groups));
      && stream + FileBytes(Limited(all, s.left)) == MAGIC + FileBytes(t.file)
      && t.left == Remaining(|all|, s.left) && t.processed == s.processed + all
      && t.recorders == s.recorders && t.passed == t.taken == |t.shelf| == |s.shelf| && t.pos == 0
      && t.shelf[t.taken..] == Parcels([])
  {
    var all := Records(Parcels(groups));
    assert Unread(s.shelf, s.passed, s.pos) == all;
    FileBytesSum(s.file, Limited(all, s.left));
    Associates(MAGIC, FileBytes(s.file), FileBytes(Limited(all, s.left)));
  }

  lemma {:induction false} CollectedWritten(maxItems: nat, history: seq<Step>, s: State) returns (h: seq<Step>)
    requires Reached(maxItems, history, s) && s.taken == |s.shelf| && s.passed <= |s.shelf|
    ensures history <= h && Reached(maxItems, h, Drained(s))
    decreases |s.shelf| - s.passed, if s.passed < |s.shelf| then |s.shelf[s.passed].items| - s.pos else 0
  {
    ReachedInv(maxItems, history, s);
    if s.passed == |s.shelf| {
      NothingLeft(s);
      return history;
    }
    var step := if s.pos < |s.shelf[s.passed].items| then Write else Pass;
    ReachedNext(maxItems, history, s, step);
    if step.Write? {
      OneWritten(s);
    } else {
      UnreadPassed(s);
    }
    h := CollectedWritten(maxItems, history + [step], Next(s, step));
  }

  lemma NothingLeft(s: State)
    requires s.passed == s.taken == |s.shelf| && s.pos == 0
    ensures Drained(s) == s
  {
    assert s.shelf[s.passed..] == [] && Unread(s.shelf, s.passed, s.pos) == [];
    assert s.processed + [] == s.processed && s.file + [] == s.file;
  }

  lemma OneWritten(s: State)
    requires WellKept(s) && Enabled(s, Write)
    ensures Next(s, Write).passed <= |Next(s, Write).shelf| && Drained(Next(s, Write)) == Drained(s)
  {
    var t := Next(s, Write);
    var first, rest := [Reading(s)], Unread(s.shelf, s.passed, s.pos + 1);
    UnreadWritten(s);
    Associates(s.processed, first, rest);
    LimitedFile(s.file, first, rest, s.left);
    assert t.left == Remaining(1, s.left);
  }

  lemma LimitedFile(file: seq<Record>, first: seq<Record>, rest: seq<Record>, left: nat)
    requires |first| == 1
    ensures
      (if left == 0 then file else file + [first[0]]) + Limited(rest, Remaining(1, left))
        == file + Limited(first + rest, left)
    ensures Remaining(|rest|, Remaining(1, left)) == Remaining(|first + rest|, left)
  {
    CapSum(first, rest, left);
    Associates(file, Limited(first, left), Limited(rest, Remaining(1, left)));
  }

  lemma WritesReach(maxItems: nat, history: seq<Step>, s: State) returns (h: seq<Step>)
    requires Reached(maxItems, history, s) && s.passed == s.taken <= |s.shelf|
    ensures history <= h && Reached(maxItems, h, Drained(s))
  {
    ReachedNext(maxItems, history, s, Collect);
    h := CollectedWritten(maxItems, history + [Collect], Next(s, Collect));
  }
}
