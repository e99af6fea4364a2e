/** Bits, little-endian words and fixed-size pages: the raw material of the column format. */
module Bytes {

  datatype Option<+T> = None | Some(value: T) {
    function Get(default: T): T { if Some? then value else default }
  }

  type byte = x: int | 0 <= x < 0x100
  type u16 = x: int | 0 <= x < 0x1_0000
  type i32 = x: int | -0x8000_0000 <= x < 0x8000_0000
  type u32 = x: int | 0 <= x < 0x1_0000_0000
  type u64 = x: int | 0 <= x < 0x1_0000_0000_0000_0000
  type str = seq<byte>

  const PAGE_SIZE: nat := 8192

  type Page = p: seq<byte> | |p| == PAGE_SIZE witness seq(PAGE_SIZE, _ => 0)

  // ---------- bits of one byte ----------

  predicate Bit(b: byte, k: nat)
    requires k < 8
  {
    if k == 0 then b % 2 == 1 else if k == 1 then b / 2 % 2 == 1
    else if k == 2 then b / 4 % 2 == 1 else if k == 3 then b / 8 % 2 == 1
    else if k == 4 then b / 16 % 2 == 1 else if k == 5 then b / 32 % 2 == 1
    else if k == 6 then b / 64 % 2 == 1 else b / 128 % 2 == 1
  }

  function Digit(on: bool): nat { if on then 1 else 0 }

  function Nibble(b0: bool, b1: bool, b2: bool, b3: bool): (r: int)
    ensures 0 <= r < 16
    ensures (r % 2 == 1) == b0 && (r / 2 % 2 == 1) == b1 && (r / 4 % 2 == 1) == b2 && (r / 8 % 2 == 1) == b3
  {
    Digit(b0) + 2 * Digit(b1) + 4 * Digit(b2) + 8 * Digit(b3)
  }

  lemma NibbleBits(lo: int, hi: int)
    requires 0 <= lo < 16 && 0 <= hi < 16
    ensures Bit(lo + 16 * hi, 0) == (lo % 2 == 1) && Bit(lo + 16 * hi, 1) == (lo / 2 % 2 == 1)
    ensures Bit(lo + 16 * hi, 2) == (lo / 4 % 2 == 1) && Bit(lo + 16 * hi, 3) == (lo / 8 % 2 == 1)
    ensures Bit(lo + 16 * hi, 4) == (hi % 2 == 1) && Bit(lo + 16 * hi, 5) == (hi / 2 % 2 == 1)
    ensures Bit(lo + 16 * hi, 6) == (hi / 4 % 2 == 1) && Bit(lo + 16 * hi, 7) == (hi / 8 % 2 == 1)
  {
    var b := lo + 16 * hi;
    assert b / 2 == lo / 2 + 8 * hi && b / 4 == lo / 4 + 4 * hi && b / 8 == lo / 8 + 2 * hi;
    assert b / 16 == hi && b / 32 == hi / 2 && b / 64 == hi / 4 && b / 128 == hi / 8;
  }

  /** The byte whose bit `k` is `bk`. */
  function FromBits(b0: bool, b1: bool, b2: bool, b3: bool, b4: bool, b5: bool, b6: bool, b7: bool): (r: byte)
    ensures Bit(r, 0) == b0 && Bit(r, 1) == b1 && Bit(r, 2) == b2 && Bit(r, 3) == b3
    ensures Bit(r, 4) == b4 && Bit(r, 5) == b5 && Bit(r, 6) == b6 && Bit(r, 7) == b7
  {
    var lo, hi := Nibble(b0, b1, b2, b3), Nibble(b4, b5, b6, b7);
    NibbleBits(lo, hi);
    lo + 16 * hi
  }

  /** The byte whose bit `k` is `f(k)`. */
  function ByteOf(f: nat -> bool): (r: byte)
    ensures forall k: nat | k < 8 :: Bit(r, k) == f(k)
  {
    hide Bit;
    FromBits(f(0), f(1), f(2), f(3), f(4), f(5), f(6), f(7))
  }

  /** `b |= 1 << k` when `on`, `b &= ~(1 << k)` otherwise. */
  function PutBit(b: byte, k: nat, on: bool): (r: byte)
    requires k < 8
    ensures forall j: nat | j < 8 :: Bit(r, j) == if j == k then on else Bit(b, j)
  {
    hide Bit;
    ByteOf((j: nat) => j < 8 && if j == k then on else Bit(b, j))
  }

  lemma SameNibble(x: int, y: int)
    requires 0 <= x < 16 && 0 <= y < 16
    requires (x % 2 == 1) == (y % 2 == 1) && (x / 2 % 2 == 1) == (y / 2 % 2 == 1)
    requires (x / 4 % 2 == 1) == (y / 4 % 2 == 1) && (x / 8 % 2 == 1) == (y / 8 % 2 == 1)
    ensures x == y
  {
    assert x == x % 2 + 2 * (x / 2 % 2) + 4 * (x / 4 % 2) + 8 * (x / 8 % 2);
    assert y == y % 2 + 2 * (y / 2 % 2) + 4 * (y / 4 % 2) + 8 * (y / 8 % 2);
  }

  /** A byte is determined by its bits. */
  lemma SameBits(a: byte, b: byte)
    requires forall k: nat | k < 8 :: Bit(a, k) == Bit(b, k)
    ensures a == b
  {
    hide Bit;
    var alo, ahi, blo, bhi := a % 16, a / 16, b % 16, b / 16;
    assert alo + 16 * ahi == a && blo + 16 * bhi == b;
    NibbleBits(alo, ahi);
    NibbleBits(blo, bhi);
    SameNibble(alo, blo);
    SameNibble(ahi, bhi);
  }

  function And(a: byte, b: byte): (r: byte)
    ensures forall k: nat | k < 8 :: Bit(r, k) == (Bit(a, k) && Bit(b, k))
  {
    hide Bit;
    ByteOf((k: nat) => k < 8 && Bit(a, k) && Bit(b, k))
  }

  function Or(a: byte, b: byte): (r: byte)
    ensures forall k: nat | k < 8 :: Bit(r, k) == (Bit(a, k) || Bit(b, k))
  {
    hide Bit;
    ByteOf((k: nat) => k < 8 && (Bit(a, k) || Bit(b, k)))
  }

  function Not(a: byte): (r: byte)
    ensures forall k: nat | k < 8 :: Bit(r, k) == !Bit(a, k)
  {
    hide Bit;
    ByteOf((k: nat) => k < 8 && !Bit(a, k))
  }

  /** `(1 << m) - 1` */
  function LowMask(m: nat): (r: byte)
    requires m <= 8
    ensures forall k: nat | k < 8 :: Bit(r, k) == (k < m)
  {
    hide Bit;
    ByteOf((k: nat) => k < m)
  }

  // ---------- little-endian words ----------

  function Word(lo: int, hi: int): int { lo + 0x100 * hi }

  /** The unsigned 16-bit word at `off`; bytes past the end of the sequence read as zero. */
  function ReadU16(p: seq<byte>, off: nat): u16 {
    if off + 2 <= |p| then Word(p[off], p[off + 1]) else 0
  }

  function Unsigned(v: i32): u32 { if v < 0 then v + 0x1_0000_0000 else v }

  function Signed(u: u32): i32 { if u < 0x8000_0000 then u else u - 0x1_0000_0000 }

  function ReadI32(p: seq<byte>, off: nat): i32 {
    if off + 4 <= |p| then
      Signed(Word(p[off], p[off + 1]) + 0x1_0000 * Word(p[off + 2], p[off + 3]))
    else 0
  }

  method WriteU16(a: array<byte>, off: nat, v: u16)
    requires off + 2 <= a.Length
    modifies a
    ensures ReadU16(a[..], off) == v
    ensures forall i | 0 <= i < a.Length && !(off <= i < off + 2) :: a[i] == old(a[i])
  {
    a[off], a[off + 1] := v % 0x100, v / 0x100;
  }

  method WriteI32(a: array<byte>, off: nat, v: i32)
    requires off + 4 <= a.Length
    modifies a
    ensures ReadI32(a[..], off) == v
    ensures forall i | 0 <= i < a.Length && !(off <= i < off + 4) :: a[i] == old(a[i])
  {
    var u: int := Unsigned(v);
    var lo, hi := u % 0x1_0000, u / 0x1_0000;
    a[off], a[off + 1] := lo % 0x100, lo / 0x100;
    a[off + 2], a[off + 3] := hi % 0x100, hi / 0x100;
    assert Word(a[off], a[off + 1]) == lo && Word(a[off + 2], a[off + 3]) == hi;
  }

  method CopyInto(a: array<byte>, off: nat, s: seq<byte>)
    requires off + |s| <= a.Length
    modifies a
    ensures a[off..off + |s|] == s
    ensures forall i | 0 <= i < a.Length && !(off <= i < off + |s|) :: a[i] == old(a[i])
  {
    for n := 0 to |s|
      invariant forall i | 0 <= i < n :: a[off + i] == s[i]
      invariant forall i | 0 <= i < a.Length && !(off <= i < off + n) :: a[i] == old(a[i])
    {
      a[off + n] := s[n];
    }
  }
}
