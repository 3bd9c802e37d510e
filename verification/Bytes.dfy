/** Bytes, 512-byte sectors and 32-byte directory slots. */
module Bytes {

  datatype Option<T> = None | Some(value: T)

  type Byte = b: int | 0 <= b < 256

  const SECTOR_SIZE: nat := 512
  const SLOT_SIZE: nat := 32

  function Zeros(n: nat): (s: seq<Byte>)
    ensures |s| == n && forall i | 0 <= i < n :: s[i] == 0
  {
    seq(n, _ => 0)
  }

  type Sector = s: seq<Byte> | |s| == SECTOR_SIZE witness Zeros(SECTOR_SIZE)

  type Slot = s: seq<Byte> | |s| == SLOT_SIZE witness Zeros(SLOT_SIZE)

  /** b >> i, and bit i of b */
  function ShiftRight(b: nat, i: nat): nat { if i == 0 then b else ShiftRight(b / 2, i - 1) }

  function Bit(b: nat, i: nat): nat { ShiftRight(b, i) % 2 }

  /** k * n as a recurrence, which keeps large factors out of the proofs about
      stored bytes; TimesIs gives the product. */
  function Times(k: nat, n: nat): nat { if n == 0 then 0 else k + Times(k, n - 1) }

  lemma {:induction false} TimesIs(k: nat, n: nat)
    ensures Times(k, n) == k * n
  {
    if n > 0 {
      TimesIs(k, n - 1);
      assert k * n == k * (n - 1) + k;
    }
  }

  /** s / k and s % k as recurrences; Directory.DivisionIs gives the formulas. */
  function Quotient(s: nat, k: nat): nat { if k == 0 || s < k then 0 else 1 + Quotient(s - k, k) }

  function Remainder(s: nat, k: nat): (r: nat)
    ensures k > 0 ==> r < k
  {
    if k == 0 || s < k then s else Remainder(s - k, k)
  }

  lemma {:induction false} DivisionTimes(s: nat, k: nat)
    ensures s == Times(k, Quotient(s, k)) + Remainder(s, k)
  {
    if 0 < k <= s {
      DivisionTimes(s - k, k);
    }
  }

  /** A 16-bit little-endian field. */
  function Word(lo: Byte, hi: Byte): nat { lo + Times(256, hi) }

  lemma WordUnique(v: nat)
    requires v < 0x1_0000
    ensures exists lo: Byte, hi: Byte :: Word(lo, hi) == v
    ensures forall a: Byte, b: Byte, c: Byte, d: Byte :: Word(a, b) == Word(c, d) ==> a == c && b == d
  {
    forall n: nat
      ensures Times(256, n) == 256 * n
    {
      TimesIs(256, n);
    }
    assert Word(v % 256, v / 256) == v;
  }

  /** The two bytes of a field. */
  function WordBytes(v: nat): (s: seq<Byte>)
    requires v < 0x1_0000
    ensures |s| == 2 && Word(s[0], s[1]) == v
  {
    WordUnique(v);
    var lo: Byte, hi: Byte :| Word(lo, hi) == v;
    [lo, hi]
  }

  /** Two 16-bit halves, the low one first. */
  function Join(low: nat, high: nat): nat { low + Times(0x1_0000, high) }

  type Half = h: nat | h < 0x1_0000

  lemma JoinIs(low: nat, high: nat)
    ensures Join(low, high) == low + 0x1_0000 * high
  {
    TimesIs(0x1_0000, high);
  }

  lemma JoinUnique(v: nat)
    requires v < 0x1_0000_0000
    ensures exists low: Half, high: Half :: Join(low, high) == v
    ensures forall a: Half, b: Half, c: Half, d: Half :: Join(a, b) == Join(c, d) ==> a == c && b == d
  {
    hide Join;
    forall a: nat, b: nat
      ensures Join(a, b) == a + 0x1_0000 * b
    {
      JoinIs(a, b);
    }
    var low: Half, high: Half := v % 0x1_0000, v / 0x1_0000;
    assert Join(low, high) == v;
  }

  /** A 32-bit little-endian field. */
  function Dword(b0: Byte, b1: Byte, b2: Byte, b3: Byte): nat { Join(Word(b0, b1), Word(b2, b3)) }

  function DwordBytes(v: nat): (s: seq<Byte>)
    requires v < 0x1_0000_0000
    ensures |s| == 4 && Dword(s[0], s[1], s[2], s[3]) == v
  {
    JoinUnique(v);
    var low: Half, high: Half :| Join(low, high) == v;
    WordBytes(low) + WordBytes(high)
  }
}
