// The buffer compiled code appends trace points to, and the recorder that rotates three of them.
module TraceBuffer {
  import opened Bytes

  datatype Item = Item(timePoint: U32, traceId: U32)

  const DEFAULT_BUFFER_SIZE := 65536
  const MIN_SWAP_BUFFER_SIZE := 4096
  const CAPACITY := 32767

  // Word 0 is the capacity, word 1 the number of items, then two words for each item.
  type Words = seq<U32>

  ghost predicate Sound(words: Words) {
    |words| == DEFAULT_BUFFER_SIZE && words[0] == CAPACITY && words[1] <= CAPACITY
  }

  ghost function ItemsIn(words: Words): (items: seq<Item>)
    requires Sound(words)
    ensures |items| == words[1]
  {
    seq(words[1], i requires 0 <= i < words[1] => Item(words[2 + 2 * i], words[3 + 2 * i]))
  }

  // What one trace point of compiled code leaves of a trace.
  function Appended(items: seq<Item>, item: Item): (a: seq<Item>)
    ensures items <= a
  {
    if |items| < CAPACITY then items + [item] else items
  }

  // Runtime::setTraceBuffer: word 0 becomes the number of items there is room for behind the two words in front.
  // On AArch64 a buffer whose items would not lie on eight bytes is refused.
  method SetTraceBuffer(buffer: seq<U32>, aarch64: bool, address: nat) returns (words: seq<U32>, accepted: bool)
    requires 2 <= |buffer| <= UINT32_MAX
    ensures accepted <==> !aarch64 || (address + 8) % 8 == 0
    ensures if accepted then |words| == |buffer| && words[1..] == buffer[1..] else words == buffer
    ensures accepted ==> words[0] as int * 2 + 2 <= |buffer| < words[0] as int * 2 + 4
  {
    if aarch64 && (address + 8) % 8 != 0 {
      return buffer, false;
    }
    words := buffer[0 := |buffer| / 2 - 1];
    accepted := true;
  }

  // A zeroed buffer that the allocator aligned to 32 bytes is never refused, and holds nothing.
  method FreshBuffer(aarch64: bool, address: nat) returns (words: Words)
    requires address % 32 == 0
    ensures Sound(words) && ItemsIn(words) == []
  {
    var zeros: seq<U32> := seq(DEFAULT_BUFFER_SIZE, _ => 0);
    var accepted;
    words, accepted := SetTraceBuffer(zeros, aarch64, address);
    assert words[1] == words[1..][0] == zeros[1];
  }

  // The trace point handler of compiled code: nothing is stored in a full buffer, and the count is
  // stored after the item.
  method TracePoint(buffer: Words, item: Item) returns (words: Words)
    requires Sound(buffer)
    ensures Sound(words) && ItemsIn(words) == Appended(ItemsIn(buffer), item)
    ensures
      var n := buffer[1];
      if n < 32767 then words == buffer[2 + 2 * n := item.timePoint][3 + 2 * n := item.traceId][1 := n + 1]
      else words == buffer
  {
    words := buffer;
    var cursor := words[1];
    if cursor < words[0] {
      words := words[2 + 2 * cursor := item.timePoint];
      words := words[3 + 2 * cursor := item.traceId];
      words := words[1 := cursor + 1];
    }
  }

  // A TraceBuffer owns words or nothing.
  datatype Buffer = Uninitialized | Initialized(words: Words)

  ghost predicate Usable(b: Buffer) {
    b.Initialized? ==> Sound(b.words)
  }

  ghost function Contents(b: Buffer): seq<Item>
    requires Usable(b)
  {
    if b.Initialized? then ItemsIn(b.words) else []
  }

  method GetTraceItem(b: Buffer, index: nat) returns (item: Item)
    requires Usable(b) && index < |Contents(b)|
    ensures item == Contents(b)[index]
    ensures item.timePoint == b.words[2 + 2 * index] && item.traceId == b.words[3 + 2 * index]
  {
    item := ItemAt(b.words, index);
  }

  function ItemAt(words: Words, index: nat): (item: Item)
    requires Sound(words) && index < words[1]
    ensures item == ItemsIn(words)[index]
  {
    Item(words[2 + 2 * index], words[2 + 2 * index + 1])
  }

  class TraceRecorder {
    const moduleId: nat
    var currentBuffer: Buffer
    var lastBuffer: Buffer
    var buffers: seq<Buffer>

    ghost predicate Valid()
      reads this
    {
      Usable(currentBuffer) && Usable(lastBuffer) && forall b :: b in buffers ==> Usable(b)
    }

    // Everything the recorder still owns, oldest first.
    ghost function Owned(): seq<Buffer>
      reads this
    {
      buffers + [lastBuffer, currentBuffer]
    }

    constructor (moduleId: nat)
      ensures Valid() && this.moduleId == moduleId && Owned() == [Uninitialized, Uninitialized]
    {
      this.moduleId := moduleId;
      currentBuffer, lastBuffer, buffers := Uninitialized, Uninitialized, [];
    }

    // swapOut, and the runtime is given the fresh buffer, which the allocator aligns to 32 bytes and which is
    // therefore never refused; what was owned keeps its place and order.
    method SwapOut(aarch64: bool, address: nat)
      requires Valid() && address % 32 == 0
      modifies this
      ensures Valid() && currentBuffer.Initialized? && Contents(currentBuffer) == []
      ensures Owned() == old(Owned()) + [currentBuffer]
    {
      buffers := buffers + [lastBuffer];
      lastBuffer := currentBuffer;
      var words := FreshBuffer(aarch64, address);
      currentBuffer := Initialized(words);
    }

    // Nearly full is far from full: the runtime can go on while the buffer is rotated.
    method NeedSwapOut() returns (need: bool)
      requires Valid() && currentBuffer.Initialized?
      ensures need <==> |Contents(currentBuffer)| >= 4096
    {
      need := currentBuffer.words[1] >= MIN_SWAP_BUFFER_SIZE;
    }

    // moveOutBuffers: all but the two newest leave, in order.
    method MoveOutBuffers() returns (moved: seq<Buffer>)
      requires Valid()
      modifies this
      ensures Valid() && moved + Owned() == old(Owned()) && |Owned()| == 2
      ensures forall b :: b in moved ==> Usable(b)
    {
      moved := buffers;
      buffers := [];
    }
  }
}
