/** The packed 12-bit allocation table (fat.c:82-102, 263-268). */
module FatTable {
  import opened Bytes

  /** Every operation keeps the table in a static buffer of 18 sectors, which
      holds exactly 6144 twelve-bit entries. */
  const BUFFER_SIZE: nat := 9216
  const ENTRIES: nat := 6144

  type Table = t: seq<Byte> | |t| == BUFFER_SIZE witness Zeros(BUFFER_SIZE)

  const END_MARK: nat := 0xFFF

  /** The byte offset of an entry, and whether it starts in the middle of it.
      Like the other recurrences of this module they keep quotients out of the
      proofs; EntryPlace, HalvesOf and EntryWord give the source's formulas. */
  function Offset(c: nat): (r: nat)
    ensures 2 * r <= 3 * c <= 2 * r + 1
  {
    if c < 2 then c else Offset(c - 2) + 3
  }

  predicate Odd(c: nat) { 2 * Offset(c) < 3 * c }

  lemma EntryPlace(c: nat)
    ensures Offset(c) == c + c / 2 && (Odd(c) <==> c % 2 == 1)
  {
  }

  /** v >> 4 and v & 0xF */
  function High(v: nat): nat { if v < 16 then 0 else 1 + High(v - 16) }

  function Low(v: nat): (r: nat)
    ensures r < 16
  {
    if v < 16 then v else Low(v - 16)
  }

  lemma {:induction false} HalvesOf(v: nat)
    ensures High(v) == v / 16 && Low(v) == v % 16
  {
    if v >= 16 {
      HalvesOf(v - 16);
    }
  }

  /** The value of two bytes: without the lower half of the first byte, or
      without the upper half of the second. */
  function Entry(lo: Byte, hi: Byte, odd: bool): nat {
    if odd then High(lo) + Times(16, hi) else lo + Times(256, Low(hi))
  }

  /** The shift and the mask of the source. */
  lemma EntryWord(lo: Byte, hi: Byte)
    ensures Entry(lo, hi, true) == Word(lo, hi) / 16 && Entry(lo, hi, false) == Word(lo, hi) % 4096
  {
    HalvesOf(lo);
    HalvesOf(hi);
    TimesIs(256, hi);
    EntryBytes(lo, hi);
    hide Entry;
  }

  lemma EntryBytes(lo: Byte, hi: Byte)
    ensures Entry(lo, hi, true) == High(lo) + 16 * hi && Entry(lo, hi, false) == lo + 256 * Low(hi)
  {
    HalvesOf(lo);
    TimesIs(16, hi);
    TimesIs(256, Low(hi));
  }

  /** Entry c of the table that begins at byte o: two entries take three bytes. */
  function GetFrom(t: Table, c: nat, o: nat): (v: nat)
    requires 2 * o + 3 * c + 2 < 2 * BUFFER_SIZE
    ensures v < 4096
  {
    if c >= 2 then GetFrom(t, c - 2, o + 3)
    else
      HalvesOf(t[o + c]);
      EntryBytes(t[o + c], t[o + c + 1]);
      Entry(t[o + c], t[o + c + 1], c == 1)
  }

  lemma {:induction false} GetFromIs(t: Table, c: nat, o: nat)
    requires 2 * o + 3 * c + 2 < 2 * BUFFER_SIZE
    ensures GetFrom(t, c, o) == Entry(t[o + Offset(c)], t[o + Offset(c) + 1], Odd(c))
  {
    if c >= 2 {
      GetFromIs(t, c - 2, o + 3);
    }
  }

  function Get(t: Table, c: nat): (v: nat)
    requires c < ENTRIES
    ensures v < 4096
  {
    GetFrom(t, c, 0)
  }

  /** The two bytes that hold an entry. */
  lemma GetIs(t: Table, c: nat)
    requires c < ENTRIES
    ensures Get(t, c) == Entry(t[Offset(c)], t[Offset(c) + 1], Odd(c))
  {
    GetFromIs(t, c, 0);
  }

  function LowByte(b: Byte, odd: bool, v: nat): Byte {
    if odd then Low(b) + 16 * Low(v) else Low(v) + 16 * Low(High(v))
  }

  function HighByte(b: Byte, odd: bool, v: nat): Byte {
    HalvesOf(b);
    if odd then Low(High(v)) + 16 * Low(High(High(v))) else Low(High(High(v))) + 16 * High(b)
  }

  function Packed(t: Table, c: nat, v: nat): (r: Table)
    requires c < ENTRIES
  {
    var o := Offset(c);
    t[o := LowByte(t[o], Odd(c), v)][o + 1 := HighByte(t[o + 1], Odd(c), v)]
  }

  lemma HalvesSum(v: nat)
    ensures v == Low(v) + 16 * High(v)
  {
    HalvesOf(v);
    hide High, Low;
  }

  lemma ThreeDigits(v: nat)
    ensures Low(v) + 16 * Low(High(v)) + 256 * Low(High(High(v))) == v % 4096
  {
    HalvesSum(v);
    HalvesSum(High(v));
    HalvesSum(High(High(v)));
    hide High, Low;
    ModuloOfSum(Low(v) + 16 * Low(High(v)) + 256 * Low(High(High(v))), High(High(High(v))));
  }

  lemma ModuloOfSum(x: nat, y: nat)
    requires x < 4096
    ensures (x + 4096 * y) % 4096 == x
  {
  }

  lemma HighOfSum(x: nat, y: nat)
    requires x < 16
    ensures High(x + 16 * y) == y && Low(x + 16 * y) == x
  {
    HalvesOf(x + 16 * y);
  }

  lemma EntryPacked(lo: Byte, hi: Byte, odd: bool, v: nat)
    ensures Entry(LowByte(lo, odd, v), HighByte(hi, odd, v), odd) == v % 4096
  {
    ThreeDigits(v);
    EntryBytes(LowByte(lo, odd, v), HighByte(hi, odd, v));
    hide Entry;
    if odd {
      HighOfSum(Low(lo), Low(v));
    } else {
      HighOfSum(Low(High(High(v))), High(hi));
    }
  }

  lemma PackedSame(t: Table, c: nat, v: nat)
    requires c < ENTRIES
    ensures Get(Packed(t, c, v), c) == v % 4096
  {
    GetIs(Packed(t, c, v), c);
    EntryPacked(t[Offset(c)], t[Offset(c) + 1], Odd(c), v);
  }

  /** Two entries share a byte only if they are neighbours and the first is even. */
  lemma OffsetGap(x: nat, y: nat)
    requires x < y
    ensures Offset(y) >= Offset(x) + if y == x + 1 && !Odd(x) then 1 else 2
    ensures y == x + 1 && !Odd(x) ==> Offset(y) == Offset(x) + 1 && Odd(y)
  {
    hide Offset;
  }

  lemma PackedOther(t: Table, c: nat, v: nat, x: nat)
    requires c < ENTRIES && x < ENTRIES && x != c
    ensures Get(Packed(t, c, v), x) == Get(t, x)
  {
    GetIs(Packed(t, c, v), x);
    GetIs(t, x);
    hide Offset, Odd, Low, High, Get;
    var o := Offset(c);
    if x > c {
      OffsetGap(c, x);
      HighOfHigh(t[o + 1], v);
    } else {
      OffsetGap(x, c);
      LowOfLow(t[o], v);
    }
  }

  lemma HighOfHigh(b: Byte, v: nat)
    ensures High(HighByte(b, false, v)) == High(b)
  {
    HighOfSum(Low(High(High(v))), High(b));
  }

  lemma LowOfLow(b: Byte, v: nat)
    ensures Low(LowByte(b, true, v)) == Low(b)
  {
    HighOfSum(Low(b), Low(v));
  }

  /** The packed table refines an array of 12-bit values. */
  function Set(t: Table, c: nat, v: nat): (r: Table)
    requires c < ENTRIES
    ensures forall x | 0 <= x < ENTRIES :: Get(r, x) == if x == c then v % 4096 else Get(t, x)
  {
    assert forall x | 0 <= x < ENTRIES :: Get(Packed(t, c, v), x) == if x == c then v % 4096 else Get(t, x) by {
      forall x | 0 <= x < ENTRIES
        ensures Get(Packed(t, c, v), x) == if x == c then v % 4096 else Get(t, x)
      {
        if x == c { PackedSame(t, c, v); } else { PackedOther(t, c, v, x); }
      }
    }
    Packed(t, c, v)
  }

  lemma EntryDigits(a0: Byte, a1: Byte, b0: Byte, b1: Byte, odd: bool)
    requires Entry(a0, a1, odd) == Entry(b0, b1, odd)
    ensures if odd then a1 == b1 && High(a0) == High(b0) else a0 == b0 && Low(a1) == Low(b1)
  {
    hide Entry, High, Low, Times;
    HalvesOf(a0);
    HalvesOf(b0);
    EntryBytes(a0, a1);
    EntryBytes(b0, b1);
    if odd {
      DigitsSame(High(a0), a1, High(b0), b1, 16);
    } else {
      DigitsSame(a0, Low(a1), b0, Low(b1), 256);
    }
  }

  lemma DigitsSame(x: nat, y: nat, z: nat, w: nat, k: nat)
    requires (k == 16 || k == 256) && x < k && z < k && x + k * y == z + k * w
    ensures x == z && y == w
  {
  }

  lemma SameByte(a: Table, b: Table, q: nat)
    requires 3 * q + 2 < BUFFER_SIZE
    requires Get(a, 2 * q) == Get(b, 2 * q) && Get(a, 2 * q + 1) == Get(b, 2 * q + 1)
    ensures a[3 * q] == b[3 * q] && a[3 * q + 1] == b[3 * q + 1] && a[3 * q + 2] == b[3 * q + 2]
  {
    hide Times, Get;
    var o := 3 * q;
    GetIs(a, 2 * q);
    GetIs(a, 2 * q + 1);
    GetIs(b, 2 * q);
    GetIs(b, 2 * q + 1);
    EntryPlace(2 * q);
    EntryPlace(2 * q + 1);
    hide Offset, Odd, Entry, High, Low;
    EntryDigits(a[o], a[o + 1], b[o], b[o + 1], false);
    EntryDigits(a[o + 1], a[o + 2], b[o + 1], b[o + 2], true);
    assert a[o + 1] == Low(a[o + 1]) + 16 * High(a[o + 1]) by { HalvesOf(a[o + 1]); }
    assert b[o + 1] == Low(b[o + 1]) + 16 * High(b[o + 1]) by { HalvesOf(b[o + 1]); }
  }

  /** The bytes of a table are determined by its entries. */
  lemma SameEntries(a: Table, b: Table)
    requires forall c | 0 <= c < ENTRIES :: Get(a, c) == Get(b, c)
    ensures a == b
  {
    forall j | 0 <= j < BUFFER_SIZE
      ensures a[j] == b[j]
    {
      var q := j / 3;
      assert Get(a, 2 * q) == Get(b, 2 * q) && Get(a, 2 * q + 1) == Get(b, 2 * q + 1);
      SameByte(a, b, q);
    }
  }

  /** A byte-wise mixture of two tables agrees with both on every entry on
      which they agree, even where the entry straddles two bytes. */
  lemma MixedEntry(a: Table, b: Table, m: Table, c: nat)
    requires c < ENTRIES && Get(a, c) == Get(b, c)
    requires forall j | 0 <= j < BUFFER_SIZE :: m[j] == a[j] || m[j] == b[j]
    ensures Get(m, c) == Get(a, c)
  {
    hide Get;
    GetIs(a, c);
    GetIs(b, c);
    GetIs(m, c);
    var o := Offset(c);
    assert m[o] == a[o] || m[o] == b[o];
    assert m[o + 1] == a[o + 1] || m[o + 1] == b[o + 1];
    MixedBytes(a[o], a[o + 1], b[o], b[o + 1], m[o], m[o + 1], Odd(c));
  }

  lemma MixedBytes(a0: Byte, a1: Byte, b0: Byte, b1: Byte, m0: Byte, m1: Byte, odd: bool)
    requires Entry(a0, a1, odd) == Entry(b0, b1, odd)
    requires (m0 == a0 || m0 == b0) && (m1 == a1 || m1 == b1)
    ensures Entry(m0, m1, odd) == Entry(a0, a1, odd)
  {
    EntryDigits(a0, a1, b0, b1, odd);
  }

  // ---- first fit

  function FindFree(t: Table, from: nat, hi: nat): (c: nat)
    requires 2 <= from <= hi <= ENTRIES
    ensures c == 0 || (from <= c < hi && Get(t, c) == 0)
    ensures forall x | from <= x < (if c == 0 then hi else c) :: Get(t, x) != 0
    decreases hi - from
  {
    if from == hi then 0
    else if Get(t, from) == 0 then from
    else FindFree(t, from + 1, hi)
  }

  // ---- chains

  predicate Distinct(s: seq<nat>) {
    forall i, j | 0 <= i < j < |s| :: s[i] != s[j]
  }

  predicate Link(t: Table, c: nat, next: nat) { c < ENTRIES && Get(t, c) == next }

  /** ch is a complete chain: every link points to the next cluster, all
      clusters lie in [2, limit), none repeats and the last is end-marked. */
  predicate IsChain(t: Table, ch: seq<nat>, limit: nat)
    requires limit <= 0xFF0
  {
    && |ch| > 0
    && (forall i | 0 <= i < |ch| :: 2 <= ch[i] < limit)
    && (forall i | 0 <= i < |ch| - 1 :: Link(t, ch[i], ch[i + 1]))
    && Get(t, ch[|ch| - 1]) >= 0xFF8
    && Distinct(ch)
  }

  /** Chains only look at entries in use. */
  lemma ChainKept(t: Table, u: Table, ch: seq<nat>, limit: nat)
    requires limit <= 0xFF0 && IsChain(t, ch, limit)
    requires forall i | 0 <= i < |ch| :: Get(u, ch[i]) == Get(t, ch[i])
    ensures IsChain(u, ch, limit)
  {
    assert forall i | 0 <= i < |ch| - 1 :: Link(t, ch[i], ch[i + 1]) ==> Link(u, ch[i], ch[i + 1]);
  }

  lemma ChainInUse(t: Table, ch: seq<nat>, limit: nat, i: nat)
    requires limit <= 0xFF0 && IsChain(t, ch, limit) && i < |ch|
    ensures Get(t, ch[i]) != 0
  {
    if i < |ch| - 1 {
      assert Link(t, ch[i], ch[i + 1]);
    }
  }

  lemma {:induction false} DistinctCard(s: seq<nat>)
    requires Distinct(s)
    ensures |Elements(s)| == |s|
  {
    if s != [] {
      DistinctCard(s[1..]);
      assert s[0] !in Elements(s[1..]);
      assert Elements(s) == {s[0]} + Elements(s[1..]);
    }
  }

  function Elements(s: seq<nat>): set<nat> { set x | x in s }

  function Below(n: nat): (r: set<nat>)
    ensures |r| == n && forall x :: x in r <==> 0 <= x < n
  {
    if n == 0 then {} else Below(n - 1) + {n - 1}
  }

  lemma {:induction false} SubsetCard(a: set<nat>, b: set<nat>)
    requires a <= b
    ensures |a| <= |b|
  {
    assert b == a + (b - a);
  }

  lemma DistinctBounded(s: seq<nat>, n: nat)
    requires Distinct(s) && forall i | 0 <= i < |s| :: s[i] < n
    ensures |s| <= n
  {
    DistinctCard(s);
    SubsetCard(Elements(s), Below(n));
  }

  /** The clusters met by following the table from c while they are at most
      last, never more than fuel of them. */
  function Walk(t: Table, c: nat, last: nat, fuel: nat): (ch: seq<nat>)
    requires last < 0xFF8
    ensures |ch| <= fuel
    ensures forall i | 0 <= i < |ch| :: 2 <= ch[i] <= last
    decreases fuel
  {
    if fuel == 0 || c < 2 || c > last then []
    else [c] + Walk(t, Get(t, c), last, fuel - 1)
  }

  lemma ChainTail(t: Table, ch: seq<nat>, limit: nat)
    requires limit <= 0xFF0 && IsChain(t, ch, limit) && |ch| > 1
    ensures IsChain(t, ch[1..], limit) && Get(t, ch[0]) == ch[1]
  {
    var tl := ch[1..];
    assert Link(t, ch[0], ch[1]);
    assert forall i | 0 <= i < |tl| - 1 :: Link(t, ch[i + 1], ch[i + 1 + 1]) ==> Link(t, tl[i], tl[i + 1]);
  }

  lemma {:induction false} WalkIsChain(t: Table, ch: seq<nat>, limit: nat, last: nat, fuel: nat)
    requires limit <= 0xFF0 && IsChain(t, ch, limit) && limit - 1 <= last < 0xFF8
    ensures Walk(t, ch[0], last, fuel) == if fuel <= |ch| then ch[..fuel] else ch
    decreases fuel
  {
    hide Get;
    if fuel > 0 && |ch| > 1 {
      ChainTail(t, ch, limit);
      WalkIsChain(t, ch[1..], limit, last, fuel - 1);
    }
  }

  /** Following k links without looking for the end, as the write-back code does. */
  function Follow(t: Table, c: nat, k: nat): (r: nat)
    requires c < ENTRIES
    ensures r < ENTRIES
    decreases k
  {
    if k == 0 then c else Follow(t, Get(t, c), k - 1)
  }

  lemma {:induction false} FollowChain(t: Table, ch: seq<nat>, limit: nat, k: nat)
    requires limit <= 0xFF0 && IsChain(t, ch, limit) && k < |ch|
    ensures Follow(t, ch[0], k) == ch[k]
  {
    if k > 0 {
      ChainTail(t, ch, limit);
      FollowChain(t, ch[1..], limit, k - 1);
    }
  }

  // ---- freeing

  function NonZero(t: Table, n: nat): (k: nat)
    requires n <= ENTRIES
  {
    if n == 0 then 0 else NonZero(t, n - 1) + if Get(t, n - 1) != 0 then 1 else 0
  }

  lemma {:induction false} NonZeroDrops(t: Table, c: nat, n: nat)
    requires c < ENTRIES && n <= ENTRIES
    ensures NonZero(Set(t, c, 0), n) == NonZero(t, n) - if c < n && Get(t, c) != 0 then 1 else 0
  {
    if n > 0 {
      NonZeroDrops(t, c, n - 1);
    }
  }

  /** The freeing loop, which ends on every table content: each round clears a
      non-zero entry or meets a zero one and stops. */
  function Freed(t: Table, c: nat): (r: Table)
    ensures forall x | 0 <= x < ENTRIES :: Get(r, x) == Get(t, x) || Get(r, x) == 0
    decreases NonZero(t, ENTRIES), if 2 <= c <= 0xFEF then 1 else 0
  {
    if 2 <= c <= 0xFEF then
      NonZeroDrops(t, c, ENTRIES);
      Freed(Set(t, c, 0), Get(t, c))
    else t
  }

  /** Freeing a chain clears exactly its own entries. */
  lemma {:induction false} FreedChain(t: Table, ch: seq<nat>, limit: nat)
    requires limit <= 0xFF0 && IsChain(t, ch, limit)
    ensures forall x | 0 <= x < ENTRIES :: Get(Freed(t, ch[0]), x) == if x in ch then 0 else Get(t, x)
    decreases |ch|
  {
    var u := Set(t, ch[0], 0);
    if |ch| == 1 {
      assert Freed(t, ch[0]) == Freed(u, Get(t, ch[0])) == u;
    } else {
      var tl := ch[1..];
      ChainTail(t, ch, limit);
      assert forall i | 0 <= i < |tl| :: tl[i] == ch[i + 1] && tl[i] != ch[0];
      ChainKept(t, u, tl, limit);
      FreedChain(u, tl, limit);
      assert Freed(t, ch[0]) == Freed(u, tl[0]);
      assert forall x :: x in ch <==> x == ch[0] || x in tl;
    }
  }

  function FreeSet(t: Table, limit: nat): set<nat>
    requires limit <= 0xFF0
  {
    set c: nat | 2 <= c < limit && Get(t, c) == 0
  }

  lemma ChainElementInUse(t: Table, ch: seq<nat>, limit: nat, x: nat)
    requires limit <= 0xFF0 && IsChain(t, ch, limit) && x in ch
    ensures 2 <= x < limit && Get(t, x) != 0
  {
    var i :| 0 <= i < |ch| && ch[i] == x;
    ChainInUse(t, ch, limit, i);
  }

  /** Deleting raises the number of free clusters by the chain's length. */
  lemma FreedCount(t: Table, ch: seq<nat>, limit: nat)
    requires limit <= 0xFF0 && IsChain(t, ch, limit)
    ensures FreeSet(Freed(t, ch[0]), limit) == FreeSet(t, limit) + Elements(ch)
    ensures |FreeSet(Freed(t, ch[0]), limit)| == |FreeSet(t, limit)| + |ch|
  {
    var r := Freed(t, ch[0]);
    FreedChain(t, ch, limit);
    forall x | x in ch
      ensures 2 <= x < limit && Get(t, x) != 0
    {
      ChainElementInUse(t, ch, limit, x);
    }
    assert FreeSet(r, limit) == FreeSet(t, limit) + Elements(ch);
    assert FreeSet(t, limit) !! Elements(ch);
    DistinctCard(ch);
  }

  // ---- the loops of fat.c on the buffer

  method NextCluster(buf: array<Byte>, cluster: nat) returns (val: nat)
    requires buf.Length == BUFFER_SIZE && cluster < ENTRIES
    ensures val == Get(buf[..], cluster)
  {
    hide Word;
    GetIs(buf[..], cluster);
    EntryPlace(cluster);
    var offset := cluster + cluster / 2;
    val := Word(buf[offset], buf[offset + 1]);
    assert val == Word(buf[..][Offset(cluster)], buf[..][Offset(cluster) + 1]);
    EntryWord(buf[offset], buf[offset + 1]);
    if cluster % 2 == 1 {
      val := val / 16;
    } else {
      val := val % 4096;
    }
  }

  /** The masks and shifts of the stores. */
  lemma StoredLow(lo: Byte, v: nat)
    ensures LowByte(lo, true, v) == lo % 16 + v % 16 * 16 && LowByte(lo, false, v) == v % 256
  {
    HalvesOf(lo);
    HalvesOf(v);
    HalvesOf(High(v));
    hide High, Low;
  }

  lemma StoredHigh(hi: Byte, v: nat)
    ensures HighByte(hi, true, v) == v / 16 % 256 && HighByte(hi, false, v) == hi / 16 * 16 + v / 256 % 16
  {
    HalvesOf(hi);
    HalvesOf(v);
    HalvesOf(High(v));
    HalvesOf(High(High(v)));
    hide High, Low;
  }

  method SetCluster(buf: array<Byte>, cluster: nat, value: nat)
    requires buf.Length == BUFFER_SIZE && cluster < ENTRIES
    modifies buf
    ensures buf[..] == Set(old(buf[..]), cluster, value)
  {
    var offset := cluster + cluster / 2;
    EntryPlace(cluster);
    StoredLow(buf[offset], value);
    StoredHigh(buf[offset + 1], value);
    hide LowByte, HighByte, Offset, Odd, Get;
    if cluster % 2 == 1 {
      buf[offset] := buf[offset] % 16 + value % 16 * 16;
      buf[offset + 1] := value / 16 % 256;
    } else {
      buf[offset] := value % 256;
      buf[offset + 1] := buf[offset + 1] / 16 * 16 + value / 256 % 16;
    }
  }

  /** fat.c:98-102, including the two entries it looks at past the table. */
  method FindFreeCluster(buf: array<Byte>, totalClusters: nat) returns (c: nat)
    requires buf.Length == BUFFER_SIZE && totalClusters + 2 <= ENTRIES
    ensures c == FindFree(buf[..], 2, totalClusters + 2)
  {
    c := 2;
    while c < totalClusters + 2
      invariant 2 <= c <= totalClusters + 2
      invariant FindFree(buf[..], 2, totalClusters + 2) == FindFree(buf[..], c, totalClusters + 2)
    {
      var v := NextCluster(buf, c);
      if v == 0 {
        return;
      }
      c := c + 1;
    }
    c := 0;
  }

  /** fat.c:263-268 and 505-510; no assumption on the table. */
  method FreeChain(buf: array<Byte>, first: nat)
    requires buf.Length == BUFFER_SIZE
    modifies buf
    ensures buf[..] == Freed(old(buf[..]), first)
  {
    var cluster := first;
    while 2 <= cluster <= 0xFEF
      invariant Freed(old(buf[..]), first) == Freed(buf[..], cluster)
      decreases NonZero(buf[..], ENTRIES), if 2 <= cluster <= 0xFEF then 1 else 0
    {
      NonZeroDrops(buf[..], cluster, ENTRIES);
      var next := NextCluster(buf, cluster);
      SetCluster(buf, cluster, 0);
      cluster := next;
    }
  }
}
