// LEB128 integers, section 7.6 of DWARF 5: the encoders of the line-table writer and the decoders
// of the helper scripts.
module Leb128 {
  import opened Bytes

  type I32 = v: int | -0x8000_0000 <= v < 0x8000_0000

  // Seven value bits per byte, least significant group first; the top bit says that more follows.
  function ULeb(v: nat): (s: seq<Byte>)
    ensures |s| > 0
  {
    if v < 128 then [v] else [v % 128 + 128] + ULeb(v / 128)
  }

  function SLeb(v: int): (s: seq<Byte>)
    ensures |s| > 0
    decreases if v < 0 then -v else v
  {
    if -64 <= v < 64 then [v % 128] else [v % 128 + 128] + SLeb(v / 128)
  }

  // x << 7 * groups
  function Shifted(x: nat, groups: nat): (p: nat)
    ensures x > 0 ==> p > 0
  {
    if groups == 0 then x else 128 * Shifted(x, groups - 1)
  }

  // How many numbers fit that many groups, and half of it.
  function Span(groups: nat): (p: nat)
    ensures p > 0
  {
    Shifted(1, groups)
  }

  function HalfSpan(groups: nat): (p: nat)
    requires groups > 0
    ensures p + p == Span(groups)
  {
    64 * Span(groups - 1)
  }

  // How many bytes a decoder consumes: up to the first one without the continuation bit.
  function Length(b: seq<Byte>): (n: nat)
    requires |b| > 0
    ensures 0 < n <= |b|
  {
    if b[0] < 128 || |b| == 1 then 1 else 1 + Length(b[1..])
  }

  function UValue(b: seq<Byte>): (v: nat)
    requires |b| > 0
  {
    b[0] % 128 + if b[0] < 128 || |b| == 1 then 0 else 128 * UValue(b[1..])
  }

  // The same groups with the last one read as a 7-bit two's complement number.
  function SValue(b: seq<Byte>): (v: int)
    requires |b| > 0
  {
    if b[0] < 128 || |b| == 1 then
      if b[0] % 128 >= 64 then b[0] % 128 - 128 else b[0] % 128
    else
      b[0] % 128 + 128 * SValue(b[1..])
  }

  // One whole number and nothing behind it.
  ghost predicate Complete(b: seq<Byte>) {
    |b| > 0 && b[|b| - 1] < 128 && forall i :: 0 <= i < |b| - 1 ==> b[i] >= 128
  }

  // encodeULEB128 appends to the vector it is handed.
  method EncodeULEB128(value: U32, bytes: seq<Byte>) returns (result: seq<Byte>)
    ensures result == bytes + ULeb(value)
  {
    result := bytes;
    var rest: nat := value;
    var more := true;
    while more
      invariant more ==> result + ULeb(rest) == bytes + ULeb(value)
      invariant !more ==> result == bytes + ULeb(value)
      decreases more, rest
    {
      var byte: Byte := rest % 128;
      var shifted := rest / 128;
      more := shifted != 0;
      if more {
        byte := byte + 128;
        assert result + ULeb(rest) == (result + [byte]) + ULeb(shifted);
      }
      result := result + [byte];
      rest := shifted;
    }
  }

  // encodeSLEB128; the right shift of a negative number rounds down, as does / here.
  method EncodeSLEB128(value: I32, bytes: seq<Byte>) returns (result: seq<Byte>)
    ensures result == bytes + SLeb(value)
  {
    result := bytes;
    var rest: int := value;
    var more := true;
    while more
      invariant more ==> result + SLeb(rest) == bytes + SLeb(value)
      invariant !more ==> result == bytes + SLeb(value)
      decreases more, if rest < 0 then -rest else rest
    {
      var byte: Byte := rest % 128;
      var shifted := rest / 128;
      var signBit := byte >= 64;
      more := (shifted != 0 || signBit) && (shifted != -1 || !signBit);
      if more {
        byte := byte + 128;
        assert result + SLeb(rest) == (result + [byte]) + SLeb(shifted);
      }
      result := result + [byte];
      rest := shifted;
    }
  }

  lemma {:induction false} ShiftedSum(x: nat, y: nat, k: nat)
    ensures Shifted(x + 128 * y, k) == Shifted(x, k) + Shifted(y, k + 1)
  {
    if k > 0 {
      ShiftedSum(x, y, k - 1);
    } else {
      assert Shifted(y, 1) == 128 * Shifted(y, 0);
    }
  }

  lemma {:induction false} UValueBound(b: seq<Byte>)
    requires |b| > 0
    ensures UValue(b) < Span(Length(b))
    ensures SValue(b) == if UValue(b) < HalfSpan(Length(b)) then UValue(b) else UValue(b) - Span(Length(b))
  {
    assert Span(1) == 128 * Span(0) == 128;
    if b[0] < 128 || |b| == 1 {
    } else {
      UValueBound(b[1..]);
      assert Span(Length(b)) == 128 * Span(Length(b[1..]));
    }
  }

  // The helper scripts' unsigned decoder: shift and add until a byte without the top bit, or the end.
  method DecodeUnsigned(b: seq<Byte>) returns (r: nat, length: nat)
    requires |b| > 0
    ensures r == UValue(b) && length == Length(b)
  {
    r, length := AddGroups(b);
  }

  method AddGroups(b: seq<Byte>) returns (r: nat, length: nat)
    requires |b| > 0
    ensures r == UValue(b) && length == Length(b)
    ensures length == |b| || b[length - 1] < 128
  {
    r := 0;
    var i: nat := 0;
    var done := false;
    while !done && i < |b|
      invariant i <= |b|
      invariant !done && i < |b| ==> r + Shifted(UValue(b[i..]), i) == UValue(b) && i + Length(b[i..]) == Length(b)
      invariant done || i == |b| ==> r == UValue(b) && i == Length(b)
      invariant done ==> i > 0 && b[i - 1] < 128
      decreases |b| - i
    {
      var e := b[i];
      assert b[i..][0] == e;
      if i + 1 < |b| {
        assert b[i..][1..] == b[i + 1..];
        ShiftedSum(e % 128, UValue(b[i + 1..]), i);
      }
      r := r + Shifted(e % 128, i);
      done := e < 128;
      i := i + 1;
    }
    length := i;
  }

  // x modulo 128^n
  function LowGroups(x: nat, n: nat): (r: nat)
    ensures x < Span(n) ==> r == x
  {
    if x < Span(n) then x else x % Span(n)
  }

  // The signed decoder. In two's complement r | -(1 << k) keeps the low k bits of r and sets the rest.
  method DecodeSigned(b: seq<Byte>) returns (r: int, length: nat)
    requires |b| > 0
    ensures r == SValue(b) && length == Length(b)
  {
    var sum;
    sum, length := AddGroups(b);
    r := sum;
    UValueBound(b);
    LastGroup(b);
    if b[length - 1] % 128 >= 64 {
      r := LowGroups(r, length) - Span(length);
    }
  }

  lemma {:induction false} LastGroup(b: seq<Byte>)
    requires |b| > 0
    ensures b[Length(b) - 1] % 128 >= 64 <==> UValue(b) >= HalfSpan(Length(b))
  {
    assert Span(1) == 128 * Span(0) == 128;
    if b[0] < 128 || |b| == 1 {
    } else {
      var t := b[1..];
      LastGroup(t);
      assert b[Length(b) - 1] == t[Length(t) - 1];
      assert Span(Length(b)) == 128 * Span(Length(t));
      assert Span(Length(t)) == 128 * Span(Length(t) - 1);
    }
  }

  // Decoding an encoded number returns it and its exact length, whatever bytes follow.
  lemma {:induction false} URoundTrip(v: nat, tail: seq<Byte>)
    ensures UValue(ULeb(v) + tail) == v
    ensures Length(ULeb(v) + tail) == |ULeb(v)|
  {
    if v >= 128 {
      URoundTrip(v / 128, tail);
      assert (ULeb(v) + tail)[1..] == ULeb(v / 128) + tail;
    }
  }

  lemma {:induction false} SRoundTrip(v: int, tail: seq<Byte>)
    ensures SValue(SLeb(v) + tail) == v
    ensures Length(SLeb(v) + tail) == |SLeb(v)|
    decreases if v < 0 then -v else v
  {
    if !(-64 <= v < 64) {
      SRoundTrip(v / 128, tail);
      HeadFirst(v % 128 + 128, SLeb(v / 128), tail);
    }
  }

  lemma HeadFirst(head: Byte, operand: seq<Byte>, tail: seq<Byte>)
    ensures ([head] + operand + tail)[0] == head && ([head] + operand + tail)[1..] == operand + tail
  {
    Associates([head], operand, tail);
    PrefixDropped([head], operand + tail);
  }

  lemma {:induction false} UIsComplete(v: nat)
    ensures Complete(ULeb(v))
  {
    if v >= 128 {
      UIsComplete(v / 128);
    }
  }

  lemma {:induction false} SIsComplete(v: int)
    ensures Complete(SLeb(v))
    decreases if v < 0 then -v else v
  {
    if !(-64 <= v < 64) {
      SIsComplete(v / 128);
    }
  }

  lemma LowestGroup(g: nat, w: int)
    requires g < 128
    ensures (g + 128 * w) % 128 == g && (g + 128 * w) / 128 == w
  {
  }

  lemma ULebGroups(g: nat, w: nat, v: nat)
    requires g < 128 && v == g + 128 * w && v >= 128
    ensures ULeb(v) == [g + 128] + ULeb(w)
  {
    LowestGroup(g, w);
  }

  lemma SLebGroups(g: nat, w: int, v: int)
    requires g < 128 && v == g + 128 * w && !(-64 <= v < 64)
    ensures SLeb(v) == [g + 128] + SLeb(w)
  {
    LowestGroup(g, w);
  }

  // A complete encoding of several groups is its first group and a complete encoding of the rest.
  lemma FirstGroup(b: seq<Byte>)
    requires Complete(b) && |b| > 1
    ensures b[0] >= 128 && Complete(b[1..]) && b == [b[0]] + b[1..]
    ensures UValue(b) == b[0] - 128 + 128 * UValue(b[1..])
    ensures SValue(b) == b[0] - 128 + 128 * SValue(b[1..])
  {
  }

  // No complete encoding of the same value is shorter, and none other is as short.
  lemma {:induction false} UShortest(b: seq<Byte>, v: nat)
    requires Complete(b) && UValue(b) == v
    ensures |ULeb(v)| <= |b|
    ensures |ULeb(v)| == |b| ==> ULeb(v) == b
    decreases |b|
  {
    if |b| == 1 {
      UOneGroup(b[0]);
      assert b == [b[0]];
    } else {
      var t := b[1..];
      FirstGroup(b);
      UShortest(t, UValue(t));
      UGroupShortest(b[0] - 128, UValue(t), t);
    }
  }

  lemma UOneGroup(g: Byte)
    requires g < 128
    ensures ULeb(g) == [g] && UValue([g]) == g
  {
  }

  lemma UGroupShortest(g: nat, w: nat, t: seq<Byte>)
    requires g < 128 && 1 <= |ULeb(w)| <= |t| && (|ULeb(w)| == |t| ==> ULeb(w) == t)
    ensures var v := g + 128 * w;
      |ULeb(v)| <= 1 + |t| && (|ULeb(v)| == 1 + |t| ==> ULeb(v) == [g + 128] + t)
  {
    if g + 128 * w >= 128 {
      ULebGroups(g, w, g + 128 * w);
      GroupInFront(g + 128, ULeb(w), t);
    }
  }

  lemma {:induction false} SShortest(b: seq<Byte>, v: int)
    requires Complete(b) && SValue(b) == v
    ensures |SLeb(v)| <= |b|
    ensures |SLeb(v)| == |b| ==> SLeb(v) == b
    decreases |b|
  {
    if |b| == 1 {
      SOneGroup(b[0]);
      assert b == [b[0]];
    } else {
      var t := b[1..];
      FirstGroup(b);
      SShortest(t, SValue(t));
      SGroupShortest(b[0] - 128, SValue(t), t);
    }
  }

  lemma SOneGroup(g: Byte)
    requires g < 128
    ensures SLeb(SValue([g])) == [g]
  {
  }

  lemma SGroupShortest(g: nat, w: int, t: seq<Byte>)
    requires g < 128 && 1 <= |SLeb(w)| <= |t| && (|SLeb(w)| == |t| ==> SLeb(w) == t)
    ensures var v := g + 128 * w;
      |SLeb(v)| <= 1 + |t| && (|SLeb(v)| == 1 + |t| ==> SLeb(v) == [g + 128] + t)
  {
    if !(-64 <= g + 128 * w < 64) {
      SLebGroups(g, w, g + 128 * w);
      GroupInFront(g + 128, SLeb(w), t);
    }
  }

  lemma GroupInFront(g: Byte, a: seq<Byte>, b: seq<Byte>)
    ensures |[g] + a| - |[g] + b| == |a| - |b| && (a == b ==> [g] + a == [g] + b)
  {
  }

  // n groups hold exactly the numbers below 128^n, so 32-bit values need at most five.
  lemma {:induction false} UGroups(v: nat, n: nat)
    requires n > 0
    ensures |ULeb(v)| <= n <==> v < Span(n)
    decreases n
  {
    assert Span(1) == 128 * Span(0) == 128;
    if n > 1 {
      assert Span(n) == 128 * Span(n - 1) && Span(n - 1) == 128 * Span(n - 2);
      if v >= 128 {
        UGroups(v / 128, n - 1);
      }
    }
  }

  lemma {:induction false} SGroups(v: int, n: nat)
    requires n > 0
    ensures |SLeb(v)| <= n <==> 0 <= v + HalfSpan(n) < Span(n)
    decreases n
  {
    assert Span(1) == 128 * Span(0) == 128;
    if n > 1 {
      assert Span(n) == 128 * Span(n - 1) && Span(n - 1) == 128 * Span(n - 2);
      if !(-64 <= v < 64) {
        SGroups(v / 128, n - 1);
      }
    }
  }

  lemma {:induction false} WordsFitFiveBytes(u: U32, s: I32)
    ensures |ULeb(u)| <= 5 && |SLeb(s)| <= 5
  {
    UGroups(u, 5);
    SGroups(s, 5);
    assert Span(5) == 128 * Span(4) == 128 * 128 * Span(3) == 128 * 128 * 128 * Span(2);
    assert Span(2) == 128 * Span(1) == 128 * 128 * Span(0);
  }
}
