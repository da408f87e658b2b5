// The instruction view of a code region: the known addresses are cut out of the list, and the bytes are taken
// apart instruction by instruction, as raw data between two known instructions.
module MachineCode {
  import opened Bytes

  // What the decoder makes of the bytes at an address, with so many left: the size of an instruction, or 0 if
  // there is none.
  type Decoder = (nat, nat) -> nat

  datatype Piece = Instruction(at: nat, size: nat) | RawWord(at: nat) | RawByte(at: nat)
  {
    function Size(): nat {
      match this
      case Instruction(_, size) => size
      case RawWord(_) => 4
      case RawByte(_) => 1
    }
  }

  function Decoded(decoder: Decoder, at: nat, left: nat): (size: nat)
    ensures size <= left
  {
    if decoder(at, left) <= left then decoder(at, left) else 0
  }

  // The next piece, with k known addresses behind it, and how many are behind it then. The distance to the next known
  // address is taken in 64 bits.
  function NextPiece(known: seq<U32>, k: nat, at: nat, left: nat, decoder: Decoder): (next: Option<(Piece, nat)>)
    requires left > 0
    ensures next.Some? ==> next.value.0.at == at && 0 < next.value.0.Size() <= left
  {
    if k < |known| && at != known[k] && k > 0 then
      Some((if (known[k] - at) % WORD64 >= 4 && left >= 4 then RawWord(at) else RawByte(at), k))
    else
      var size := Decoded(decoder, at, left);
      if size == 0 then None
      else Some((Instruction(at, size), if k < |known| && at == known[k] then k + 1 else k))
  }

  // The loop over a region that ends at end.
  function Walk(known: seq<U32>, k: nat, at: nat, end: nat, decoder: Decoder): (pieces: seq<Piece>)
    decreases end - at
  {
    if at >= end then []
    else
      match NextPiece(known, k, at, end - at, decoder)
      case None => []
      case Some((piece, k')) => [piece] + Walk(known, k', at + piece.Size(), end, decoder)
  }

  lemma WalkRound(known: seq<U32>, k: nat, at: nat, end: nat, decoder: Decoder)
    requires at < end
    ensures var next := NextPiece(known, k, at, end - at, decoder);
      Walk(known, k, at, end, decoder) ==
      if next == None then []
      else [next.value.0] + Walk(known, next.value.1, at + next.value.0.Size(), end, decoder)
  {
  }

  ghost predicate Sorted(addresses: seq<U32>) {
    forall i, j :: 0 <= i < j < |addresses| ==> addresses[i] <= addresses[j]
  }

  // Pieces that follow each other from at to the end, or to a place where the decoder finds no instruction.
  ghost predicate Tiles(pieces: seq<Piece>, at: nat, end: nat, decoder: Decoder)
    decreases |pieces|
  {
    if pieces == [] then at == end || (at < end && Decoded(decoder, at, end - at) == 0)
    else pieces[0].at == at && pieces[0].Size() > 0 && Tiles(pieces[1..], at + pieces[0].Size(), end, decoder)
  }

  ghost predicate Starts(pieces: seq<Piece>, a: nat) {
    exists i :: 0 <= i < |pieces| && pieces[i].Instruction? && pieces[i].at == a
  }

  // The plain sweep from at hits the target.
  ghost predicate Reaches(at: nat, target: nat, end: nat, decoder: Decoder)
    requires target <= end
    decreases target - at
  {
    at == target ||
    (at < target && var size := Decoded(decoder, at, end - at); size > 0 && Reaches(at + size, target, end, decoder))
  }

  // There is an instruction at the known address, and, unless the address is the last, it ends in front of the next.
  ghost predicate Fits(known: seq<U32>, i: nat, end: nat, decoder: Decoder)
    requires i < |known| && known[i] < end
  {
    var size := Decoded(decoder, known[i], end - known[i]);
    size > 0 && (i + 1 < |known| && known[i] < known[|known| - 1] ==> known[i] + size <= known[i + 1])
  }

  // Where the pieces end, and that a walk that ends early was refused by the decoder there.
  lemma {:induction false} WalkTiles(known: seq<U32>, k: nat, at: nat, end: nat, decoder: Decoder)
    requires at <= end
    ensures Tiles(Walk(known, k, at, end, decoder), at, end, decoder)
    decreases end - at
  {
    var pieces := Walk(known, k, at, end, decoder);
    if pieces != [] {
      var size := pieces[0].Size();
      var k' := if k < |known| && at == known[k] then k + 1 else k;
      WalkTiles(known, k', at + size, end, decoder);
      assert pieces[1..] == Walk(known, k', at + size, end, decoder);
    }
  }

  // An instruction is printed where the walk stands or further on.
  lemma {:induction false} Ahead(known: seq<U32>, k: nat, at: nat, end: nat, decoder: Decoder, a: nat)
    requires Starts(Walk(known, k, at, end, decoder), a)
    ensures at <= a < end
    decreases end - at
  {
    var pieces := Walk(known, k, at, end, decoder);
    var i :| 0 <= i < |pieces| && pieces[i].Instruction? && pieces[i].at == a;
    if i > 0 {
      var k' := if k < |known| && at == known[k] then k + 1 else k;
      var rest := Walk(known, k', at + pieces[0].Size(), end, decoder);
      assert pieces[1..] == rest && rest[i - 1] == pieces[i];
      Ahead(known, k', at + pieces[0].Size(), end, decoder, a);
    }
  }

  // A piece in front changes nothing but its own start.
  lemma StartsStep(head: Piece, rest: seq<Piece>, a: nat)
    ensures Starts([head] + rest, a) <==> (head.Instruction? && head.at == a) || Starts(rest, a)
  {
    var pieces := [head] + rest;
    if Starts(rest, a) {
      var i :| 0 <= i < |rest| && rest[i].Instruction? && rest[i].at == a;
      assert pieces[i + 1] == rest[i];
    }
    if Starts(pieces, a) {
      var i :| 0 <= i < |pieces| && pieces[i].Instruction? && pieces[i].at == a;
      assert i > 0 ==> pieces[i] == rest[i - 1];
    }
    assert pieces[0] == head;
  }

  ghost predicate AllStart(known: seq<U32>, k: nat, pieces: seq<Piece>) {
    forall i :: k <= i < |known| ==> Starts(pieces, known[i])
  }

  ghost predicate AllFit(known: seq<U32>, k: nat, end: nat, decoder: Decoder)
    requires forall i :: k <= i < |known| ==> known[i] < end
  {
    forall i :: k <= i < |known| ==> Fits(known, i, end, decoder)
  }

  // Behind the first known address: the walk meets the others if and only if it has not passed the next one yet and
  // the instruction at each of them fits.
  lemma {:induction false} MetBehind(known: seq<U32>, k: nat, at: nat, end: nat, decoder: Decoder)
    requires 0 < k < |known| && Sorted(known) && known[|known| - 1] < end
    ensures AllStart(known, k, Walk(known, k, at, end, decoder)) <==> at <= known[k] && AllFit(known, k, end, decoder)
    decreases end - at
  {
    var pieces := Walk(known, k, at, end, decoder);
    if AllStart(known, k, pieces) {
      Ahead(known, k, at, end, decoder, known[k]);
    }
    if at > known[k] {
      return;
    }
    if at < known[k] {
      var size := if known[k] - at >= 4 then 4 else 1;
      var rest := Walk(known, k, at + size, end, decoder);
      forall a ensures Starts(pieces, a) <==> Starts(rest, a) {
        StartsStep(pieces[0], rest, a);
      }
      MetBehind(known, k, at + size, end, decoder);
    } else {
      MetAt(known, k, end, decoder);
    }
  }

  // At a known address.
  lemma {:induction false} MetAt(known: seq<U32>, k: nat, end: nat, decoder: Decoder)
    requires k < |known| && Sorted(known) && known[|known| - 1] < end
    ensures AllStart(known, k, Walk(known, k, known[k], end, decoder)) <==> AllFit(known, k, end, decoder)
    decreases end - known[k], 0
  {
    var pieces := Walk(known, k, known[k], end, decoder);
    var size := Decoded(decoder, known[k], end - known[k]);
    if size == 0 {
      assert !Starts(pieces, known[k]) && !Fits(known, k, end, decoder);
      return;
    }
    var rest := Walk(known, k + 1, known[k] + size, end, decoder);
    assert pieces == [Instruction(known[k], size)] + rest;
    forall a ensures Starts(pieces, a) <==> a == known[k] || Starts(rest, a) {
      StartsStep(Instruction(known[k], size), rest, a);
    }
    if known[k] == known[|known| - 1] {
      assert forall i :: k <= i < |known| ==> known[i] == known[k];
    } else if known[k] == known[k + 1] {
      NeverBack(known, k + 1, known[k] + size, end, decoder);
      assert !Starts(pieces, known[|known| - 1]) && !Fits(known, k, end, decoder);
    } else {
      MetBehind(known, k + 1, known[k] + size, end, decoder);
      assert AllStart(known, k, pieces) <==> AllStart(known, k + 1, rest);
      assert Fits(known, k, end, decoder) <==> known[k] + size <= known[k + 1];
    }
  }

  // The whole walk: every known address is printed as the start of an instruction if and only if the sweep from the
  // region's start hits the first of them, each has an instruction, and none but those at the last address reaches
  // across the next entry of the list, be it the same address again.
  lemma {:induction false} AllKnownMet(known: seq<U32>, at: nat, end: nat, decoder: Decoder)
    requires |known| > 0 && Sorted(known) && known[|known| - 1] < end
    ensures AllStart(known, 0, Walk(known, 0, at, end, decoder)) <==>
      Reaches(at, known[0], end, decoder) && AllFit(known, 0, end, decoder)
    decreases end - at
  {
    var pieces := Walk(known, 0, at, end, decoder);
    if AllStart(known, 0, pieces) {
      Ahead(known, 0, at, end, decoder, known[0]);
    }
    if at == known[0] {
      MetAt(known, 0, end, decoder);
    } else if at < known[0] {
      var size := Decoded(decoder, at, end - at);
      if size > 0 {
        var rest := Walk(known, 0, at + size, end, decoder);
        assert pieces == [Instruction(at, size)] + rest;
        forall a ensures Starts(pieces, a) <==> a == at || Starts(rest, a) {
          StartsStep(Instruction(at, size), rest, a);
        }
        AllKnownMet(known, at + size, end, decoder);
      }
    }
  }

  // Between the first known address and the last, nothing but known addresses is printed as an instruction.
  lemma {:induction false} OnlyKnownDecoded(known: seq<U32>, k: nat, at: nat, end: nat, decoder: Decoder, a: nat)
    requires 0 < k <= |known| && Sorted(known) && a <= known[|known| - 1]
    requires Starts(Walk(known, k, at, end, decoder), a) && (k == |known| ==> at > known[k - 1])
    ensures exists i :: k <= i < |known| && known[i] == a
    decreases end - at
  {
    var pieces := Walk(known, k, at, end, decoder);
    Ahead(known, k, at, end, decoder, a);
    var k' := if k < |known| && at == known[k] then k + 1 else k;
    var rest := Walk(known, k', at + pieces[0].Size(), end, decoder);
    assert pieces == [pieces[0]] + rest;
    StartsStep(pieces[0], rest, a);
    if Starts(rest, a) {
      OnlyKnownDecoded(known, k', at + pieces[0].Size(), end, decoder, a);
    }
  }

  // Once the walk has passed the address it looks for, as it does when an address is listed twice or an instruction
  // reaches across the next one, all bytes to the end are printed as raw data.
  lemma {:induction false} NeverBack(known: seq<U32>, k: nat, at: nat, end: nat, decoder: Decoder)
    requires 0 < k < |known| && known[k] < at
    ensures forall p :: p in Walk(known, k, at, end, decoder) ==> !p.Instruction?
    decreases end - at
  {
    if at < end {
      NeverBack(known, k, at + 4, end, decoder);
      NeverBack(known, k, at + 1, end, decoder);
    }
  }

  // So many bytes shown as raw data: as many words as there are, then bytes.
  function Raw(at: nat, n: nat): seq<Piece> {
    seq(n / 4, i requires 0 <= i < n / 4 => RawWord(at + 4 * i))
    + seq(n % 4, i requires 0 <= i < n % 4 => RawByte(at + n - n % 4 + i))
  }

  lemma RawMore(at: nat, n: nat)
    requires n > 0
    ensures Raw(at, n) == if n >= 4 then [RawWord(at)] + Raw(at + 4, n - 4) else [RawByte(at)] + Raw(at + 1, n - 1)
  {
    if n >= 4 {
      assert n / 4 == (n - 4) / 4 + 1 && n % 4 == (n - 4) % 4;
      WordsMore(at, n / 4);
    }
  }

  lemma WordsMore(at: nat, k: nat)
    requires k > 0
    ensures seq(k, i requires 0 <= i < k => RawWord(at + 4 * i))
      == [RawWord(at)] + seq(k - 1, i requires 0 <= i < k - 1 => RawWord(at + 4 + 4 * i))
  {
  }

  // What lies in front of a known address, and behind another, is shown as words and then bytes.
  lemma {:induction false} GapShown(known: seq<U32>, k: nat, at: nat, end: nat, decoder: Decoder)
    requires 0 < k < |known| && at <= known[k] <= end
    ensures Walk(known, k, at, end, decoder) == Raw(at, known[k] - at) + Walk(known, k, known[k], end, decoder)
    decreases end - at
  {
    var later := Walk(known, k, known[k], end, decoder);
    if at == known[k] {
      assert Raw(at, 0) + later == later;
    } else {
      var piece := if known[k] - at >= 4 then RawWord(at) else RawByte(at);
      var next := at + piece.Size();
      calc {
        Walk(known, k, at, end, decoder);
        { GapRound(known, k, at, end, decoder, piece); }
        [piece] + Walk(known, k, next, end, decoder);
        { GapShown(known, k, next, end, decoder); }
        [piece] + (Raw(next, known[k] - next) + later);
        { GapMore(piece, at, known[k] - at, later); }
        Raw(at, known[k] - at) + later;
      }
    }
  }

  lemma GapRound(known: seq<U32>, k: nat, at: nat, end: nat, decoder: Decoder, piece: Piece)
    requires 0 < k < |known| && at < known[k] <= end && piece == if known[k] - at >= 4 then RawWord(at) else RawByte(at)
    ensures Walk(known, k, at, end, decoder) == [piece] + Walk(known, k, at + piece.Size(), end, decoder)
  {
    assert NextPiece(known, k, at, end - at, decoder) == Some((piece, k));
  }

  lemma GapMore(piece: Piece, at: nat, n: nat, later: seq<Piece>)
    requires n > 0 && piece == if n >= 4 then RawWord(at) else RawByte(at)
    ensures [piece] + (Raw(at + piece.Size(), n - piece.Size()) + later) == Raw(at, n) + later
  {
    RawMore(at, n);
    Associates([piece], Raw(at + piece.Size(), n - piece.Size()), later);
  }

  lemma RepeatedAddressDerails(known: seq<U32>, k: nat, end: nat, decoder: Decoder)
    requires k + 1 < |known| && known[k] == known[k + 1] < end && Decoded(decoder, known[k], end - known[k]) > 0
    ensures forall p :: p in Walk(known, k, known[k], end, decoder)[1..] ==> !p.Instruction?
  {
    var size := Decoded(decoder, known[k], end - known[k]);
    NeverBack(known, k + 1, known[k] + size, end, decoder);
    assert Walk(known, k, known[k], end, decoder)[1..] == Walk(known, k + 1, known[k] + size, end, decoder);
  }

  lemma CutOut(addresses: seq<U32>, begin: nat, count: nat, base: nat, end: nat)
    requires Sorted(addresses) && begin + count <= |addresses|
    requires forall i :: 0 <= i < |addresses| ==> (base <= addresses[i] < end <==> begin <= i < begin + count)
    ensures Sorted(addresses[begin..begin + count])
    ensures forall a: U32 :: a in addresses[begin..begin + count] <==> a in addresses && base <= a < end
  {
    var span := addresses[begin..begin + count];
    forall a: U32 | a in addresses && base <= a < end
      ensures a in span
    {
      var i :| 0 <= i < |addresses| && addresses[i] == a;
      assert span[i - begin] == a;
    }
  }

  class CSDissembler {
    const instructionAddresses: seq<U32>
    const decoder: Decoder

    constructor (addresses: seq<U32>, decoder: Decoder)
      ensures instructionAddresses == addresses && this.decoder == decoder
    {
      instructionAddresses, this.decoder := addresses, decoder;
    }

    // Of a sorted list, exactly the addresses inside the region.
    method Split(baseAddress: nat, size: nat) returns (begin: nat, count: nat)
      ensures begin + count <= |instructionAddresses|
      ensures Sorted(instructionAddresses) ==> forall i :: 0 <= i < |instructionAddresses| ==>
        (baseAddress <= instructionAddresses[i] < baseAddress + size <==> begin <= i < begin + count)
      ensures forall i :: begin <= i < begin + count ==> instructionAddresses[i] < baseAddress + size
      ensures forall i :: 0 <= i < begin ==> instructionAddresses[i] < baseAddress
      ensures begin < |instructionAddresses| ==> instructionAddresses[begin] >= baseAddress
      ensures begin + count < |instructionAddresses| ==> instructionAddresses[begin + count] >= baseAddress + size
    {
      var n := |instructionAddresses|;
      var index := 0;
      while index < n && instructionAddresses[index] < baseAddress
        invariant index <= n && forall i :: 0 <= i < index ==> instructionAddresses[i] < baseAddress
      {
        index := index + 1;
      }
      begin := index;
      while index < n && instructionAddresses[index] < baseAddress + size
        invariant begin <= index <= n
        invariant forall i :: begin <= i < index ==> instructionAddresses[i] < baseAddress + size
      {
        index := index + 1;
      }
      count := index - begin;
    }

    // One round of the loop: an instruction at a known address, in front of the first and behind the last, raw data
    // elsewhere.
    method NextRound(known: seq<U32>, k: nat, address: nat, size: nat) returns (found: bool, piece: Piece, next: nat)
      requires size > 0
      ensures NextPiece(known, k, address, size, decoder) == if found then Some((piece, next)) else None
    {
      found, next := true, k;
      if k < |known| && address != known[k] && k > 0 {
        if (known[k] - address) % WORD64 >= 4 && size >= 4 {
          piece := RawWord(address);
        } else {
          piece := RawByte(address);
        }
      } else {
        var n := Decoded(decoder, address, size);
        found, piece := n > 0, Instruction(address, n);
        if k < |known| && address == known[k] {
          next := k + 1;
        }
      }
    }

    // The loop that fills the list of pieces.
    method Sweep(known: seq<U32>, baseAddress: nat, count: nat) returns (result: seq<Piece>)
      requires baseAddress + count < WORD64
      ensures result == Walk(known, 0, baseAddress, baseAddress + count, decoder)
    {
      var address, size, nextInstructionIndex := baseAddress, count, 0;
      ghost var end := baseAddress + count;
      ghost var whole := Walk(known, 0, baseAddress, end, decoder);
      ghost var todo := whole;
      result := [];
      while size > 0
        invariant address + size == end
        invariant todo == Walk(known, nextInstructionIndex, address, end, decoder) && result + todo == whole
        decreases size
      {
        var found, piece;
        WalkRound(known, nextInstructionIndex, address, end, decoder);
        found, piece, nextInstructionIndex := NextRound(known, nextInstructionIndex, address, size);
        if !found {
          break;
        }
        address, size := address + piece.Size(), size - piece.Size();
        todo := Walk(known, nextInstructionIndex, address, end, decoder);
        Associates(result, [piece], todo);
        result := result + [piece];
      }
    }

    // Every byte is shown once and in order, up to a place the decoder refuses; and of a sorted list each address
    // inside the region starts an instruction if and only if the sweep is in step with them.
    method Disasm(baseAddress: nat, count: nat) returns (result: seq<Piece>, ghost known: seq<U32>)
      requires baseAddress + count < WORD64
      ensures Tiles(result, baseAddress, baseAddress + count, decoder)
      ensures Sorted(instructionAddresses) ==> forall a: U32 ::
        a in known <==> a in instructionAddresses && baseAddress <= a < baseAddress + count
      ensures forall i :: 0 <= i < |known| ==> known[i] < baseAddress + count
      ensures Sorted(instructionAddresses) && known != [] ==>
        (AllStart(known, 0, result) <==>
          Reaches(baseAddress, known[0], baseAddress + count, decoder)
            && AllFit(known, 0, baseAddress + count, decoder))
    {
      var span := Inside(baseAddress, count);
      known := span;
      result := Sweep(span, baseAddress, count);
      WalkTiles(span, 0, baseAddress, baseAddress + count, decoder);
      if Sorted(instructionAddresses) && span != [] {
        AllKnownMet(span, baseAddress, baseAddress + count, decoder);
      }
    }

    // The span that split returns.
    method Inside(baseAddress: nat, count: nat) returns (span: seq<U32>)
      ensures forall i :: 0 <= i < |span| ==> span[i] < baseAddress + count
      ensures Sorted(instructionAddresses) ==> Sorted(span)
      ensures Sorted(instructionAddresses) ==> forall a: U32 ::
        a in span <==> a in instructionAddresses && baseAddress <= a < baseAddress + count
    {
      var begin, n := Split(baseAddress, count);
      span := instructionAddresses[begin..begin + n];
      if Sorted(instructionAddresses) {
        CutOut(instructionAddresses, begin, n, baseAddress, baseAddress + count);
      }
    }
  }
}
