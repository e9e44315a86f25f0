/** Bytes, little-endian numbers and bits. */
module Bytes {
  type Byte = b: nat | b < 256
  type U16 = n: nat | n <= 0xffff
  type U32 = n: nat | n <= 0xffff_ffff
  type U64 = n: nat | n <= 0xffff_ffff_ffff_ffff

  /** One more than the largest number of `k` bytes. */
  function Span(k: nat): (s: nat)
    ensures s > 0
  {
    if k == 0 then 1 else 256 * Span(k - 1)
  }

  function FromLittleEndian(bytes: seq<Byte>): (n: nat)
    ensures n < Span(|bytes|)
  {
    if bytes == [] then 0 else bytes[0] + 256 * FromLittleEndian(bytes[1..])
  }

  ghost predicate Spells(bytes: seq<Byte>, n: nat, k: nat) {
    |bytes| == k && (n < Span(k) ==> FromLittleEndian(bytes) == n)
  }

  /** The `k` bytes that spell `n`. */
  ghost function LittleEndian(n: nat, k: nat): (bytes: seq<Byte>)
    ensures |bytes| == k && (n < Span(k) ==> FromLittleEndian(bytes) == n)
  {
    CanBeSpelt(n, k);
    var bytes :| Spells(bytes, n, k);
    bytes
  }

  lemma {:induction false} CanBeSpelt(n: nat, k: nat)
    ensures exists bytes :: Spells(bytes, n, k)
  {
    if k == 0 {
      assert Spells([], n, k);
    } else {
      CanBeSpelt(n / 256, k - 1);
      var high: seq<Byte> :| Spells(high, n / 256, k - 1);
      var bytes: seq<Byte> := [n % 256] + high;
      assert bytes[1..] == high;
      assert Spells(bytes, n, k);
    }
  }

  lemma {:induction false} SpellingIsUnique(a: seq<Byte>, b: seq<Byte>)
    requires |a| == |b| && FromLittleEndian(a) == FromLittleEndian(b)
    ensures a == b
  {
    if a != [] {
      SpellingIsUnique(a[1..], b[1..]);
      assert a == [a[0]] + a[1..] && b == [b[0]] + b[1..];
    }
  }

  lemma BytesRoundTrip(bytes: seq<Byte>)
    ensures LittleEndian(FromLittleEndian(bytes), |bytes|) == bytes
  {
    SpellingIsUnique(LittleEndian(FromLittleEndian(bytes), |bytes|), bytes);
  }

  method ToLittleEndian(n: nat, k: nat) returns (bytes: seq<Byte>)
    requires n < Span(k)
    ensures bytes == LittleEndian(n, k)
  {
    if k == 0 {
      bytes := [];
    } else {
      var high := ToLittleEndian(n / 256, k - 1);
      bytes := [n % 256] + high;
      assert bytes[1..] == high;
    }
    SpellingIsUnique(bytes, LittleEndian(n, k));
  }

  lemma Associative(a: seq<Byte>, b: seq<Byte>, c: seq<Byte>)
    ensures (a + b) + c == a + (b + c)
  {
  }

  lemma Spans()
    ensures Span(2) == 0x1_0000 && Span(4) == 0x1_0000_0000 && Span(8) == 0x1_0000_0000_0000_0000
  {
  }

  function ReadU16(bytes: seq<Byte>): U16
    requires |bytes| == 2
  {
    Spans();
    FromLittleEndian(bytes)
  }

  function ReadU32(bytes: seq<Byte>): U32
    requires |bytes| == 4
  {
    Spans();
    FromLittleEndian(bytes)
  }

  function ReadU64(bytes: seq<Byte>): U64
    requires |bytes| == 8
  {
    Spans();
    FromLittleEndian(bytes)
  }

  lemma NumbersRoundTrip(a: U16, b: U32, c: U64)
    ensures ReadU16(LittleEndian(a, 2)) == a && ReadU32(LittleEndian(b, 4)) == b && ReadU64(LittleEndian(c, 8)) == c
  {
    Spans();
  }

  // Big-endian numbers

  function FromBigEndian(bytes: seq<Byte>): (n: nat)
    ensures n < Span(|bytes|)
  {
    if bytes == [] then 0 else 256 * FromBigEndian(bytes[..|bytes| - 1]) + bytes[|bytes| - 1]
  }

  ghost predicate SpellsBig(bytes: seq<Byte>, n: nat, k: nat) {
    |bytes| == k && (n < Span(k) ==> FromBigEndian(bytes) == n)
  }

  /** The `k` bytes that spell `n`, highest first. */
  ghost function BigEndian(n: nat, k: nat): (bytes: seq<Byte>)
    ensures |bytes| == k && (n < Span(k) ==> FromBigEndian(bytes) == n)
  {
    CanBeSpeltBig(n, k);
    var bytes :| SpellsBig(bytes, n, k);
    bytes
  }

  lemma {:induction false} CanBeSpeltBig(n: nat, k: nat)
    ensures exists bytes :: SpellsBig(bytes, n, k)
  {
    if k == 0 {
      assert SpellsBig([], n, k);
    } else {
      CanBeSpeltBig(n / 256, k - 1);
      var high: seq<Byte> :| SpellsBig(high, n / 256, k - 1);
      var bytes: seq<Byte> := high + [n % 256];
      assert bytes[..k - 1] == high;
      assert SpellsBig(bytes, n, k);
    }
  }

  lemma {:induction false} BigSpellingIsUnique(a: seq<Byte>, b: seq<Byte>)
    requires |a| == |b| && FromBigEndian(a) == FromBigEndian(b)
    ensures a == b
  {
    if a != [] {
      var k := |a| - 1;
      BigSpellingIsUnique(a[..k], b[..k]);
      assert a == a[..k] + [a[k]] && b == b[..k] + [b[k]];
    }
  }

  /** Fill a buffer from its end, one byte a round. */
  method ToBigEndian(n: nat, k: nat) returns (bytes: seq<Byte>)
    requires n < Span(k)
    ensures bytes == BigEndian(n, k)
  {
    var out := new Byte[k];
    ghost var target := BigEndian(n, k);
    assert target[..k] == target;
    var value, i := n, k;
    while i > 0
      invariant i <= k && value == FromBigEndian(target[..i]) && out[i..] == target[i..]
    {
      i := i - 1;
      assert target[..i + 1][..i] == target[..i];
      out[i] := value % 256;
      value := value / 256;
    }
    bytes := out[..];
  }

  method ReadBigEndian(bytes: seq<Byte>) returns (n: nat)
    ensures n == FromBigEndian(bytes)
  {
    n := 0;
    for i := 0 to |bytes|
      invariant n == FromBigEndian(bytes[..i])
    {
      assert bytes[..i + 1][..i] == bytes[..i];
      n := 256 * n + bytes[i];
    }
    assert bytes[..|bytes|] == bytes;
  }

  /** Four bytes put together with shifts. */
  lemma FourBytes(b: seq<Byte>)
    requires |b| == 4
    ensures FromBigEndian(b) == b[0] as nat * 0x100_0000 + b[1] as nat * 0x1_0000 + b[2] as nat * 0x100 + b[3] as nat
  {
    assert b[..3][..2] == b[..2] && b[..2][..1] == b[..1] && b[..1][..0] == [];
    assert FromBigEndian(b[..1]) == b[0];
    assert FromBigEndian(b[..2]) == 256 * FromBigEndian(b[..1]) + b[1];
    assert FromBigEndian(b[..3]) == 256 * FromBigEndian(b[..2]) + b[2];
  }

  /** Four bytes taken apart with shifts. */
  lemma FourShifts(n: U32)
    ensures BigEndian(n, 4) == [n / 0x100_0000, n / 0x1_0000 % 256, n / 0x100 % 256, n % 256]
  {
    var b := BigEndian(n, 4);
    Spans();
    FourBytes(b);
    Shifted(n, b[0], b[1], b[2], b[3]);
  }

  lemma Shifted(n: nat, b0: Byte, b1: Byte, b2: Byte, b3: Byte)
    requires n == b0 as nat * 0x100_0000 + b1 as nat * 0x1_0000 + b2 as nat * 0x100 + b3 as nat
    ensures n / 0x100_0000 == b0 && n / 0x1_0000 % 256 == b1 && n / 0x100 % 256 == b2 && n % 256 == b3
  {
    assert n / 0x100 == b0 as nat * 0x1_0000 + b1 as nat * 0x100 + b2 as nat;
    assert n / 0x1_0000 == b0 as nat * 0x100 + b1 as nat;
  }

  // Bits, lowest first

  function Number(bits: seq<bool>): nat {
    if bits == [] then 0 else (if bits[0] then 1 else 0) + 2 * Number(bits[1..])
  }

  ghost predicate AreBits(bits: seq<bool>, n: nat, k: nat) {
    |bits| == k && Number(bits) == n
  }

  function Doubled(k: nat): nat {
    if k == 0 then 1 else 2 * Doubled(k - 1)
  }

  lemma {:induction false} HasBits(n: nat, k: nat)
    requires n < Doubled(k)
    ensures exists bits :: AreBits(bits, n, k)
  {
    if k == 0 {
      assert AreBits([], n, k);
    } else {
      HasBits(n / 2, k - 1);
      var high :| AreBits(high, n / 2, k - 1);
      var bits := [n % 2 == 1] + high;
      assert bits[1..] == high;
      assert AreBits(bits, n, k);
    }
  }

  /** The eight bits of a byte. */
  ghost function Bits(b: Byte): (bits: seq<bool>)
    ensures |bits| == 8 && Number(bits) == b
  {
    assert Doubled(8) == 256;
    HasBits(b, 8);
    var bits :| AreBits(bits, b, 8);
    bits
  }

  lemma {:induction false} NumberIsInjective(a: seq<bool>, b: seq<bool>)
    requires |a| == |b| && Number(a) == Number(b)
    ensures a == b
  {
    if a != [] {
      NumberIsInjective(a[1..], b[1..]);
      assert a == [a[0]] + a[1..] && b == [b[0]] + b[1..];
    }
  }

  lemma {:induction false} NumberBelow(bits: seq<bool>)
    ensures Number(bits) < Doubled(|bits|)
  {
    if bits != [] { NumberBelow(bits[1..]); }
  }

  ghost function ByteOf(bits: seq<bool>): (b: Byte)
    requires |bits| == 8
    ensures Bits(b) == bits
  {
    NumberBelow(bits);
    assert Doubled(8) == 256;
    NumberIsInjective(Bits(Number(bits)), bits);
    Number(bits)
  }

  /** `b >> j & 1`. */
  method TestBit(b: Byte, j: nat) returns (bit: bool)
    requires j < 8
    ensures bit == Bits(b)[j]
  {
    var shifted: nat := b;
    ghost var bits := Bits(b);
    for i := 0 to j
      invariant shifted == Number(bits[i..])
    {
      assert bits[i..][1..] == bits[i + 1..];
      shifted := shifted / 2;
    }
    bit := shifted % 2 == 1;
  }

  lemma {:induction false} AddedBit(bits: seq<bool>, j: nat)
    requires j < |bits| && !bits[j]
    ensures Number(bits[j := true]) == Number(bits) + Doubled(j)
  {
    if j > 0 {
      AddedBit(bits[1..], j - 1);
      assert bits[j := true][1..] == bits[1..][j - 1 := true];
    } else {
      assert bits[j := true][1..] == bits[1..];
    }
  }

  /** `b | 1 << j`. */
  method SetBit(b: Byte, j: nat) returns (b': Byte)
    requires j < 8
    ensures Bits(b') == Bits(b)[j := true]
  {
    var bit := TestBit(b, j);
    if bit {
      b' := b;
    } else {
      ghost var after := ByteOf(Bits(b)[j := true]);
      AddedBit(Bits(b), j);
      b' := b + Doubled(j);
    }
  }
}
