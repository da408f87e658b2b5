// Bytes, little-endian words and zero runs: the vocabulary every other module shares.
module Bytes {

  type Byte = b: int | 0 <= b < 256

  const WORD32: nat := 0x1_0000_0000
  const WORD64: nat := 0x1_0000_0000_0000_0000
  const UINT32_MAX: nat := 0xFFFF_FFFF

  type U32 = v: int | 0 <= v < WORD32

  datatype Option<T> = None | Some(value: T)

  function Min(a: int, b: int): int {
    if a <= b then a else b
  }

  function Max(a: int, b: int): int {
    if a <= b then b else a
  }

  // static_cast<uint32_t>
  function Narrow(v: nat): U32 {
    if v < WORD32 then v else v % WORD32
  }

  function Zeros(n: nat): (z: seq<Byte>)
    ensures |z| == n
    ensures forall i :: 0 <= i < n ==> z[i] == 0
  {
    seq(n, _ => 0)
  }

  // Byte i of a number, counted from the least significant one.
  function ByteOf(v: nat, i: nat): Byte {
    if i == 0 then v % 256 else ByteOf(v / 256, i - 1)
  }

  // A 32-bit word as it lies in memory on the little-endian targets.
  function LE32(v: U32): (s: seq<Byte>)
    ensures |s| == 4
  {
    seq(4, i requires 0 <= i < 4 => ByteOf(v, i))
  }

  // The 32-bit word stored at position p.
  function Word(s: seq<Byte>, p: nat): (v: U32)
    requires p + 4 <= |s|
  {
    s[p] as int + 0x100 * (s[p + 1] as int) + 0x1_0000 * (s[p + 2] as int) + 0x100_0000 * (s[p + 3] as int)
  }

  // Bytes that are the characters of a text.
  ghost predicate Spells(s: seq<Byte>, text: string) {
    |s| == |text| && forall i :: 0 <= i < |text| ==> s[i] == text[i] as int
  }

  lemma FourBytes(v: U32)
    ensures v == ByteOf(v, 0) as int + 0x100 * (ByteOf(v, 1) as int) + 0x1_0000 * (ByteOf(v, 2) as int)
      + 0x100_0000 * (ByteOf(v, 3) as int)
  {
    assert ByteOf(v, 3) == ByteOf(v / 256, 2) == ByteOf(v / 256 / 256, 1) == v / 256 / 256 / 256 % 256;
    assert ByteOf(v, 2) == ByteOf(v / 256, 1) == v / 256 / 256 % 256;
    assert v / 256 / 256 / 256 < 256;
  }

  lemma LE32RoundTrip(v: U32)
    ensures Word(LE32(v), 0) == v
  {
    FourBytes(v);
  }

  lemma SmallWord(v: Byte)
    ensures LE32(v) == [v, 0, 0, 0]
  {
    assert v as int / 256 == 0 && ByteOf(0, 0) == 0;
    assert ByteOf(0, 1) == ByteOf(0, 0) && ByteOf(0, 2) == ByteOf(0, 1);
    assert ByteOf(v, 1) == ByteOf(0, 0) && ByteOf(v, 2) == ByteOf(0, 1) && ByteOf(v, 3) == ByteOf(0, 2);
  }

  // Overwrite the bytes at p with the given ones.
  function Splice(s: seq<Byte>, p: nat, data: seq<Byte>): (t: seq<Byte>)
    requires p + |data| <= |s|
    ensures |t| == |s|
    ensures forall i :: 0 <= i < |s| ==> t[i] == if p <= i < p + |data| then data[i - p] else s[i]
  {
    s[..p] + data + s[p + |data|..]
  }

  // Store a 32-bit word at p.
  function PutWord(s: seq<Byte>, p: nat, v: U32): (t: seq<Byte>)
    requires p + 4 <= |s|
    ensures |t| == |s|
    ensures forall i :: 0 <= i < |s| ==> t[i] == if p <= i < p + 4 then LE32(v)[i - p] else s[i]
  {
    Splice(s, p, LE32(v))
  }

  lemma PutWordReads(s: seq<Byte>, p: nat, v: U32)
    requires p + 4 <= |s|
    ensures Word(PutWord(s, p, v), p) == v
    ensures forall q: nat :: q + 4 <= p || (p + 4 <= q && q + 4 <= |s|) ==> Word(PutWord(s, p, v), q) == Word(s, q)
  {
    var t := PutWord(s, p, v);
    assert forall i :: 0 <= i < 4 ==> t[p + i] == LE32(v)[i];
    LE32RoundTrip(v);
  }

  // A 64-bit word, low half first.
  function LE64(v: nat): (s: seq<Byte>)
    requires v < WORD64
    ensures |s| == 8
  {
    LE32(v % WORD32) + LE32(v / WORD32)
  }

  function Word64(s: seq<Byte>, p: nat): nat
    requires p + 8 <= |s|
  {
    Word(s, p) + WORD32 * Word(s, p + 4)
  }

  lemma LE64RoundTrip(v: nat)
    requires v < WORD64
    ensures Word64(LE64(v), 0) == v
  {
    LE32RoundTrip(v % WORD32);
    LE32RoundTrip(v / WORD32);
    assert LE64(v)[4..] == LE32(v / WORD32);
  }

  lemma WordAt(a: seq<Byte>, v: U32, c: seq<Byte>)
    ensures Word(a + LE32(v) + c, |a|) == v
  {
    LE32RoundTrip(v);
  }

  lemma Word64At(a: seq<Byte>, v: nat, c: seq<Byte>)
    requires v < WORD64
    ensures Word64(a + LE64(v) + c, |a|) == v
  {
    var low, high := v % WORD32, v / WORD32;
    var s := a + LE64(v) + c;
    assert s == a + LE32(low) + (LE32(high) + c) == (a + LE32(low)) + LE32(high) + c;
    WordAt(a, low, LE32(high) + c);
    WordAt(a + LE32(low), high, c);
  }

  lemma Associates<T>(a: seq<T>, b: seq<T>, c: seq<T>)
    ensures a + b + c == a + (b + c)
  {
  }

  lemma PrefixDropped<T>(a: seq<T>, b: seq<T>)
    ensures (a + b)[|a|..] == b
  {
  }

  lemma SuffixOfSum<T>(a: seq<T>, b: seq<T>, from: nat)
    requires from <= |a|
    ensures (a + b)[from..] == a[from..] + b
  {
  }

  lemma SliceOfSlice<T>(s: seq<T>, from: nat, to: nat, skip: nat)
    requires from + skip <= to <= |s|
    ensures s[from + skip..to] == s[from..to][skip..]
  {
  }

  lemma SliceInSlice<T>(s: seq<T>, from: nat, to: nat, a: nat, n: nat)
    requires from <= to <= |s| && a + n <= to - from
    ensures s[from..to][a..a + n] == s[from + a..from + a + n]
  {
    SliceOfSlice(s, from, to, a);
    assert s[from..to][a..][..n] == s[from..to][a..a + n];
    assert s[from + a..to][..n] == s[from + a..from + a + n];
  }

  lemma SpliceApart(s: seq<Byte>, p: nat, data: seq<Byte>, from: nat, to: nat)
    requires p + |data| <= |s| && from <= to <= |s| && (to <= p || p + |data| <= from)
    ensures Splice(s, p, data)[from..to] == s[from..to]
  {
  }

  lemma SpliceBehind(s: seq<Byte>, base: nat, a: nat, data: seq<Byte>)
    requires base + a + |data| <= |s|
    ensures Splice(s, base + a, data)[..base] == s[..base]
    ensures Splice(s, base + a, data)[base..] == Splice(s[base..], a, data)
  {
  }

  // Filling in a word whose place was kept free.
  lemma Patched(a: seq<Byte>, hole: seq<Byte>, c: seq<Byte>, v: U32)
    requires |hole| == 4
    ensures PutWord(a + hole + c, |a|, v) == a + LE32(v) + c
  {
  }

  // Two words around four bytes, then two pieces: where each part lies.
  lemma FramedParts(u: U32, mid: seq<Byte>, h: U32, a: seq<Byte>, b: seq<Byte>)
    requires |mid| == 4
    ensures
      var s := LE32(u) + mid + LE32(h) + a + b;
      && |s| == 12 + |a| + |b|
      && Word(s, 0) == u && s[4..8] == mid && Word(s, 8) == h
      && s[12..12 + |a|] == a && s[12 + |a|..] == b
  {
    LE32RoundTrip(u);
    LE32RoundTrip(h);
  }
}
