/** The physical frame allocator (memory.c:7-25, 112-136). */
module Frames {
  import opened Bytes

  /** Bytes of the bitmap: one bit for each of the frames of 512 MB. */
  const BITMAP_BYTES: nat := 16384
  const PAGE_SIZE: nat := 0x1000

  // ---- bits

  function Pow2(i: nat): (r: nat)
    ensures r >= 1
  {
    if i == 0 then 1 else 2 * Pow2(i - 1)
  }

  function Ones(b: nat): nat { if b == 0 then 0 else b % 2 + Ones(b / 2) }

  lemma {:induction false} ZeroBit(i: nat)
    ensures Bit(0, i) == 0
  {
    if i > 0 {
      ZeroBit(i - 1);
    }
  }

  lemma {:induction false} PowerBit(i: nat, j: nat)
    ensures Bit(Pow2(i), j) == if i == j then 1 else 0
    ensures Ones(Pow2(i)) == 1
  {
    if i == 0 {
      if j > 0 {
        ZeroBit(j - 1);
      }
    } else {
      PowerBit(i - 1, if j > 0 then j - 1 else 0);
      assert Pow2(i) / 2 == Pow2(i - 1);
    }
  }

  /** Setting a clear bit by addition, which is what OR does to it. */
  lemma {:induction false} BitAdded(b: nat, i: nat, j: nat)
    requires Bit(b, i) == 0
    ensures Bit(b + Pow2(i), j) == if i == j then 1 else Bit(b, j)
    ensures Ones(b + Pow2(i)) == Ones(b) + 1
  {
    if i == 0 {
      assert (b + 1) / 2 == b / 2;
    } else {
      assert (b + Pow2(i)) / 2 == b / 2 + Pow2(i - 1) && (b + Pow2(i)) % 2 == b % 2;
      BitAdded(b / 2, i - 1, if j > 0 then j - 1 else 0);
    }
  }

  lemma PowerStep(i: nat)
    requires i > 0
    ensures Pow2(i) == 2 * Pow2(i - 1)
  {
  }

  lemma {:induction false} BitFits(b: nat, i: nat, n: nat)
    requires b < Pow2(n) && i < n && Bit(b, i) == 0
    ensures b + Pow2(i) < Pow2(n)
  {
    var half := Pow2(n - 1);
    assert Pow2(n) == 2 * half && b / 2 < half;
    if i > 0 {
      BitFits(b / 2, i - 1, n - 1);
      hide Pow2, ShiftRight;
      assert Pow2(i) == 2 * Pow2(i - 1) by { PowerStep(i); }
    } else {
      assert b % 2 == 0;
    }
  }

  /** The bit loop of the allocator: the lowest clear bit from i on. */
  function LowestClear(b: nat, i: nat): (r: nat)
    requires i <= 8
    ensures i <= r <= 8 && (r < 8 ==> Bit(b, r) == 0)
    ensures forall j | i <= j < r :: Bit(b, j) == 1
    decreases 8 - i
  {
    if i == 8 || Bit(b, i) == 0 then i else LowestClear(b, i + 1)
  }

  lemma {:induction false} AllOnes(b: nat, n: nat)
    requires b < Pow2(n) && forall j | 0 <= j < n :: Bit(b, j) == 1
    ensures b == Pow2(n) - 1
  {
    if n > 0 {
      assert Bit(b, 0) == 1;
      forall j | 0 <= j < n - 1
        ensures Bit(b / 2, j) == 1
      {
        assert Bit(b, j + 1) == 1;
      }
      AllOnes(b / 2, n - 1);
    }
  }

  lemma ByteOpen(b: Byte)
    requires b != 0xFF
    ensures LowestClear(b, 0) < 8
  {
    if LowestClear(b, 0) == 8 {
      assert Pow2(8) == 256;
      AllOnes(b, 8);
    }
  }

  // ---- the allocator

  /** pageFrameMin, pageFrameMax, PMB and totalAlloc. */
  datatype Pmm = Pmm(min: nat, max: nat, bitmap: seq<Byte>, total: nat)

  /** The byte range that is scanned. The last byte is left out, and one more,
      if it is not whole. */
  function StartByte(p: Pmm): nat { p.min / 8 + if p.min % 8 != 0 then 1 else 0 }

  function EndByte(p: Pmm): nat
    requires p.max % 8 == 0 || p.max >= 8
  {
    p.max / 8 - if p.max % 8 != 0 then 1 else 0
  }

  /** The bitmap covers the range, and the end of the scan does not wrap below zero. */
  predicate PmmOk(p: Pmm) {
    |p.bitmap| == BITMAP_BYTES && (p.max % 8 == 0 || p.max >= 8) && EndByte(p) <= BITMAP_BYTES
  }

  function FirstOpen(bitmap: seq<Byte>, b: nat, end: nat): (r: nat)
    requires b <= end <= |bitmap|
    ensures b <= r <= end && (r < end ==> bitmap[r] != 0xFF)
    ensures forall j | b <= j < r :: bitmap[j] == 0xFF
    decreases end - b
  {
    if b == end || bitmap[b] != 0xFF then b else FirstOpen(bitmap, b + 1, end)
  }

  /** What is stored for bit i. The code stores the bit alone; with keep the
      other bits of the byte survive, as a bitmap needs. */
  function Stored(b: Byte, i: nat, keep: bool): (r: Byte)
    requires i < 8 && Bit(b, i) == 0
  {
    assert Pow2(8) == 256;
    BitFits(b, i, 8);
    if keep then b + Pow2(i) else Pow2(i)
  }

  lemma StoredAlone(b: Byte, i: nat)
    requires i < 8 && Bit(b, i) == 0
    ensures Stored(b, i, false) != 0xFF
  {
    if i > 0 {
      PowerStep(i);
    }
  }

  predicate Exhausted(p: Pmm)
    requires PmmOk(p)
  {
    StartByte(p) >= EndByte(p) || FirstOpen(p.bitmap, StartByte(p), EndByte(p)) == EndByte(p)
  }

  /** The byte and bit that are taken. */
  function Choice(p: Pmm): (r: (nat, nat))
    requires PmmOk(p) && !Exhausted(p)
    ensures StartByte(p) <= r.0 < EndByte(p) && r.1 < 8 && Bit(p.bitmap[r.0], r.1) == 0
  {
    var b := FirstOpen(p.bitmap, StartByte(p), EndByte(p));
    ByteOpen(p.bitmap[b]);
    (b, LowestClear(p.bitmap[b], 0))
  }

  /** The frame number that is returned, 0 for none. */
  function Frame(p: Pmm): nat
    requires PmmOk(p)
  {
    if Exhausted(p) then 0 else 8 * Choice(p).0 + Choice(p).1
  }

  function Alloc(p: Pmm, keep: bool): (q: Pmm)
    requires PmmOk(p)
    ensures PmmOk(q) && q.min == p.min && q.max == p.max
  {
    if Exhausted(p) then p
    else
      var (b, i) := Choice(p);
      p.(bitmap := p.bitmap[b := Stored(p.bitmap[b], i, keep)], total := p.total + 1)
  }

  function FrameBit(p: Pmm, f: nat): nat
    requires f / 8 < |p.bitmap|
  {
    Bit(p.bitmap[f / 8], f % 8)
  }

  predicate Scanned(p: Pmm, f: nat)
    requires PmmOk(p)
  {
    StartByte(p) <= f / 8 < EndByte(p)
  }

  /** A frame is scanned exactly if its byte of the bitmap is for frames in
      [min, max) only, and is not the last whole one before an odd end. */
  lemma ScannedIs(p: Pmm, f: nat)
    requires PmmOk(p)
    ensures var first := f / 8 * 8;
      Scanned(p, f) <==>
        p.min <= first && first + 8 <= p.max && (p.max % 8 != 0 ==> first + 16 <= p.max)
  {
  }

  /** A frame is returned exactly if a scanned one is free; it is the lowest
      free one and lies between the bounds given to pmm_init. */
  lemma FrameIsLowestFree(p: Pmm)
    requires PmmOk(p)
    ensures Exhausted(p) <==> forall f: nat | Scanned(p, f) :: FrameBit(p, f) == 1
    ensures !Exhausted(p) ==> Scanned(p, Frame(p)) && FrameBit(p, Frame(p)) == 0 && p.min <= Frame(p) < p.max
    ensures !Exhausted(p) ==> forall f: nat | Scanned(p, f) && f < Frame(p) :: FrameBit(p, f) == 1
    ensures Exhausted(p) || StartByte(p) > 0 ==> (Frame(p) == 0 <==> Exhausted(p))
  {
    hide Bit;
    forall f: nat | Scanned(p, f) && (Exhausted(p) || f < Frame(p))
      ensures FrameBit(p, f) == 1
    {
      if Exhausted(p) || f / 8 < Choice(p).0 {
        assert p.bitmap[f / 8] == 0xFF;
        FullByte(f % 8);
      }
    }
    if !Exhausted(p) {
      var (b, i) := Choice(p);
      assert (8 * b + i) / 8 == b && (8 * b + i) % 8 == i;
      assert Scanned(p, Frame(p)) && FrameBit(p, Frame(p)) == 0;
    }
  }

  lemma {:induction false} LowOnes(n: nat, i: nat)
    requires i < n
    ensures Bit(Pow2(n) - 1, i) == 1
  {
    assert (Pow2(n) - 1) / 2 == Pow2(n - 1) - 1;
    if i > 0 {
      LowOnes(n - 1, i - 1);
    }
  }

  lemma FullByte(i: nat)
    requires i < 8
    ensures Bit(0xFF, i) == 1
  {
    assert Pow2(8) == 256;
    LowOnes(8, i);
  }

  // ---- runs

  /** The part of a range that the bitmap covers. */
  function Covered(max: nat): nat { if max >= 8 * BITMAP_BYTES + 8 then 8 * BITMAP_BYTES else max }

  /** pmm_init; the sum in CEIL_DIV is a 32-bit one. */
  function Init(memLow: nat, memHigh: nat): Pmm {
    Pmm((memLow + PAGE_SIZE - 1) % 0x1_0000_0000 / PAGE_SIZE, Covered(memHigh / PAGE_SIZE), Zeros(BITMAP_BYTES), 0)
  }

  function After(p: Pmm, n: nat, keep: bool): (q: Pmm)
    requires PmmOk(p)
    ensures PmmOk(q) && q.min == p.min && q.max == p.max
  {
    if n == 0 then p else Alloc(After(p, n - 1, keep), keep)
  }

  /** Every page that is handed out after pmm_init lies in the memory it was
      given, and every such page of the bitmap is handed out but for those that
      share a byte with a page outside, and those of the byte before an odd end. */
  lemma FramesInMemory(memLow: nat, memHigh: nat, f: nat)
    requires memLow + 0xFFF < 0x1_0000_0000 && PmmOk(Init(memLow, memHigh))
    ensures var first := f / 8 * 8; var last := memHigh / 0x1000;
      Scanned(Init(memLow, memHigh), f) <==>
        && memLow <= first * 0x1000 && (first + 8) * 0x1000 <= memHigh && first + 8 <= 0x2_0000
        && (last < 0x2_0008 && last % 8 != 0 ==> first + 16 <= last)
  {
    ScannedIs(Init(memLow, memHigh), f);
  }

  /** What the call after n others returns. */
  function Call(p: Pmm, n: nat, keep: bool): nat
    requires PmmOk(p)
  {
    Frame(After(p, n, keep))
  }

  predicate NeverTwice(p: Pmm, n: nat, keep: bool)
    requires PmmOk(p)
  {
    forall i, j | 0 <= i < j < n :: Call(p, i, keep) != Call(p, j, keep)
  }

  function SetBits(bitmap: seq<Byte>): nat {
    if bitmap == [] then 0 else Ones(bitmap[0]) + SetBits(bitmap[1..])
  }

  lemma {:induction false} SetBitsUpdated(bitmap: seq<Byte>, b: nat, v: Byte)
    requires b < |bitmap|
    ensures SetBits(bitmap[b := v]) + Ones(bitmap[b]) == SetBits(bitmap) + Ones(v)
  {
    var u := bitmap[b := v];
    if b == 0 {
      assert u[1..] == bitmap[1..];
    } else {
      assert u[1..] == bitmap[1..][b - 1 := v];
      SetBitsUpdated(bitmap[1..], b - 1, v);
    }
  }

  lemma {:induction false} SetBitsZero(n: nat)
    ensures SetBits(Zeros(n)) == 0
  {
    if n > 0 {
      assert Zeros(n)[1..] == Zeros(n - 1);
      SetBitsZero(n - 1);
    }
  }

  /** With the other bits kept, one call sets the bit of its frame, no other,
      and totalAlloc grows as the number of set bits does. */
  lemma KeptBits(p: Pmm)
    requires PmmOk(p) && !Exhausted(p)
    ensures var q := Alloc(p, true);
      && (forall f: nat | f / 8 < BITMAP_BYTES :: FrameBit(q, f) == if f == Frame(p) then 1 else FrameBit(p, f))
      && q.total == p.total + 1 && SetBits(q.bitmap) == SetBits(p.bitmap) + 1
  {
    hide Bit, Ones, SetBits, FirstOpen, LowestClear;
    var (b, i) := Choice(p);
    var q := Alloc(p, true);
    forall f: nat | f / 8 < BITMAP_BYTES
      ensures FrameBit(q, f) == if f == Frame(p) then 1 else FrameBit(p, f)
    {
      BitAdded(p.bitmap[b], i, f % 8);
    }
    BitAdded(p.bitmap[b], i, 0);
    SetBitsUpdated(p.bitmap, b, p.bitmap[b] + Pow2(i));
  }

  lemma {:induction false} KeptStaysSet(p: Pmm, i: nat, j: nat)
    requires PmmOk(p) && i < j && !Exhausted(After(p, i, true))
    ensures FrameBit(After(p, j, true), Call(p, i, true)) == 1
    decreases j
  {
    hide Bit, Frame, Exhausted, Alloc;
    var f := Call(p, i, true);
    FrameIsLowestFree(After(p, i, true));
    if i < j - 1 {
      KeptStaysSet(p, i, j - 1);
    }
    if Exhausted(After(p, j - 1, true)) {
      ExhaustedStays(After(p, j - 1, true), true);
    } else {
      KeptBits(After(p, j - 1, true));
    }
  }

  lemma ExhaustedStays(p: Pmm, keep: bool)
    requires PmmOk(p) && Exhausted(p)
    ensures Alloc(p, keep) == p
  {
  }

  /** As designed: from any state on, a frame that was handed out is never
      handed out again. */
  lemma KeptNeverTwice(p: Pmm, i: nat, j: nat)
    requires PmmOk(p) && i < j && !Exhausted(After(p, i, true)) && !Exhausted(After(p, j, true))
    ensures Call(p, i, true) != Call(p, j, true)
  {
    KeptStaysSet(p, i, j);
    FrameIsLowestFree(After(p, j, true));
  }

  /** ... and totalAlloc counts the set bits. */
  lemma {:induction false} KeptTotal(p: Pmm, n: nat)
    requires PmmOk(p) && p.total == SetBits(p.bitmap)
    ensures After(p, n, true).total == SetBits(After(p, n, true).bitmap)
  {
    hide SetBits, Frame, Exhausted, Alloc, Choice;
    if n > 0 {
      KeptTotal(p, n - 1);
      var q := After(p, n - 1, true);
      if Exhausted(q) {
        ExhaustedStays(q, true);
      } else {
        KeptBits(q);
      }
    }
  }

  /** The frames that are left to hand out. */
  function Free(p: Pmm): set<nat>
    requires PmmOk(p)
  {
    set f: nat | f < 8 * BITMAP_BYTES && Scanned(p, f) && FrameBit(p, f) == 0
  }

  lemma FreeStep(p: Pmm)
    requires PmmOk(p)
    ensures Exhausted(p) <==> Free(p) == {}
    ensures !Exhausted(p) ==> |Free(Alloc(p, true))| == |Free(p)| - 1
  {
    hide FrameBit, Alloc, Exhausted, Frame;
    FrameIsLowestFree(p);
    if !Exhausted(p) {
      KeptBits(p);
      assert Frame(p) in Free(p);
      assert Free(Alloc(p, true)) == Free(p) - {Frame(p)};
    } else {
      assert Free(p) == {};
    }
  }

  /** As designed, the calls succeed exactly as often as there are free frames. */
  lemma {:induction false} KeptExhausted(p: Pmm, n: nat)
    requires PmmOk(p)
    ensures Exhausted(After(p, n, true)) <==> n >= |Free(p)|
    ensures |Free(After(p, n, true))| == if n < |Free(p)| then |Free(p)| - n else 0
  {
    hide Alloc, Exhausted, Free;
    FreeStep(After(p, n, true));
    if n > 0 {
      KeptExhausted(p, n - 1);
      var q := After(p, n - 1, true);
      FreeStep(q);
      if Exhausted(q) {
        ExhaustedStays(q, true);
      }
    }
  }

  predicate Clear(p: Pmm) { forall b | 0 <= b < |p.bitmap| :: p.bitmap[b] == 0 }

  /** The bitmap in which just the first k scanned frames are taken. */
  ghost predicate Prefix(p: Pmm, k: nat)
    requires PmmOk(p)
  {
    forall f: nat | Scanned(p, f) :: FrameBit(p, f) == if f < 8 * StartByte(p) + k then 1 else 0
  }

  lemma PrefixFrame(p: Pmm, k: nat)
    requires PmmOk(p) && Prefix(p, k) && StartByte(p) < EndByte(p)
    ensures Exhausted(p) <==> k >= 8 * (EndByte(p) - StartByte(p))
    ensures !Exhausted(p) ==> Frame(p) == 8 * StartByte(p) + k
  {
    hide Bit;
    FrameIsLowestFree(p);
    var f := 8 * StartByte(p) + k;
    assert k < 8 * (EndByte(p) - StartByte(p)) ==> Scanned(p, f) && FrameBit(p, f) == 0;
    hide Exhausted;
  }

  function Least(n: nat, m: nat): nat { if n < m then n else m }

  function Space(p: Pmm): nat
    requires PmmOk(p) && StartByte(p) < EndByte(p)
  {
    8 * (EndByte(p) - StartByte(p))
  }

  lemma KeptStep(p: Pmm, k: nat)
    requires PmmOk(p) && StartByte(p) < EndByte(p) && Prefix(p, k) && k <= Space(p)
    ensures Prefix(Alloc(p, true), Least(k + 1, Space(p)))
  {
    hide FrameBit, Alloc, Exhausted, Frame;
    PrefixFrame(p, k);
    if Exhausted(p) {
      ExhaustedStays(p, true);
    } else {
      KeptBits(p);
    }
  }

  lemma {:induction false} KeptState(p: Pmm, n: nat)
    requires PmmOk(p) && Clear(p) && StartByte(p) < EndByte(p)
    ensures Prefix(After(p, n, true), Least(n, Space(p)))
  {
    hide Bit, Alloc;
    if n == 0 {
      forall f: nat | Scanned(p, f)
        ensures FrameBit(p, f) == 0
      {
        ZeroBit(f % 8);
      }
    } else {
      KeptState(p, n - 1);
      hide Prefix;
      KeptStep(After(p, n - 1, true), Least(n - 1, Space(p)));
    }
  }

  /** As designed, the calls after pmm_init return the scanned frames one after
      the other, and then 0. */
  lemma KeptRun(p: Pmm, n: nat)
    requires PmmOk(p) && Clear(p) && StartByte(p) < EndByte(p)
    ensures Call(p, n, true) == if n < Space(p) then 8 * StartByte(p) + n else 0
  {
    hide Prefix, Exhausted;
    KeptState(p, n);
    PrefixFrame(After(p, n, true), Least(n, Space(p)));
  }

  lemma {:induction false} CodeState(p: Pmm, n: nat)
    requires PmmOk(p) && Clear(p) && StartByte(p) < EndByte(p)
    ensures After(p, n, false) == p.(bitmap := p.bitmap[StartByte(p) := OneBit(n)], total := p.total + n)
  {
    hide Alloc, Exhausted, Frame;
    if n == 0 {
      assert p.bitmap[StartByte(p) := 0] == p.bitmap;
    } else {
      CodeState(p, n - 1);
      CodeStep(After(p, n - 1, false));
      assert p.bitmap[StartByte(p) := OneBit(n - 1)][StartByte(p) := OneBit(n)] == p.bitmap[StartByte(p) := OneBit(n)];
    }
  }

  /** The code as it is: the first byte only ever holds one bit, so the calls
      after pmm_init return two frames in turn. */
  lemma CodeRun(p: Pmm, n: nat)
    requires PmmOk(p) && Clear(p) && StartByte(p) < EndByte(p)
    ensures Call(p, n, false) == 8 * StartByte(p) + n % 2
  {
    hide Alloc, Exhausted, Frame;
    CodeState(p, n);
    CodeStep(After(p, n, false));
  }

  function OneBit(n: nat): Byte { if n == 0 then 0 else if n % 2 == 1 then 1 else 2 }

  lemma SmallBits(v: nat)
    requires v <= 2
    ensures LowestClear(v, 0) == v % 2
    ensures Pow2(v % 2) == if v == 1 then 2 else 1
  {
    assert Bit(v, 0) == v % 2;
    if v == 1 {
      assert ShiftRight(1, 1) == ShiftRight(0, 0) == 0;
      assert Bit(1, 1) == 0;
    }
    hide Bit, ShiftRight;
  }

  lemma CodeStep(p: Pmm)
    requires PmmOk(p) && StartByte(p) < EndByte(p) && p.bitmap[StartByte(p)] <= 2
    ensures !Exhausted(p) && Frame(p) == 8 * StartByte(p) + p.bitmap[StartByte(p)] % 2
    ensures Alloc(p, false) == p.(bitmap := p.bitmap[StartByte(p) := if p.bitmap[StartByte(p)] == 1 then 2 else 1],
      total := p.total + 1)
  {
    var s := StartByte(p);
    assert FirstOpen(p.bitmap, s, EndByte(p)) == s;
    SmallBits(p.bitmap[s]);
    hide Bit, Pow2, LowestClear, FirstOpen;
  }

  /** The code hands no frame out twice in exactly the runs of at most two
      calls. */
  lemma CodeNeverTwice(p: Pmm, n: nat)
    requires PmmOk(p) && Clear(p) && StartByte(p) < EndByte(p)
    ensures NeverTwice(p, n, false) <==> n <= 2
  {
    hide Call;
    forall i: nat
      ensures Call(p, i, false) == 8 * StartByte(p) + i % 2
    {
      CodeRun(p, i);
    }
    if n > 2 {
      assert Call(p, 0, false) == Call(p, 2, false);
    }
  }

  /** ... and totalAlloc counts the set bits in exactly those of at most one. */
  lemma CodeTotal(p: Pmm, n: nat)
    requires PmmOk(p) && Clear(p) && StartByte(p) < EndByte(p) && p.total == 0
    ensures After(p, n, false).total == SetBits(After(p, n, false).bitmap) <==> n <= 1
  {
    CodeState(p, n);
    assert p.bitmap == Zeros(BITMAP_BYTES);
    SetBitsZero(BITMAP_BYTES);
    SetBitsUpdated(p.bitmap, StartByte(p), OneBit(n));
    assert Ones(1) == 1 && Ones(2) == 1;
    hide SetBits;
  }

  // ---- the loops of memory.c

  class FrameAllocator {
    var pageFrameMin: nat
    var pageFrameMax: nat
    var totalAlloc: nat
    const PMB: array<Byte>

    constructor ()
      ensures PMB.Length == BITMAP_BYTES && fresh(PMB)
    {
      PMB := new Byte[BITMAP_BYTES](_ => 0);
      pageFrameMin, pageFrameMax, totalAlloc := 0, 0, 0;
    }

    /** The allocator, of a range that may go on behind the bitmap. */
    function Abs(): Pmm
      reads this, PMB
    {
      Pmm(pageFrameMin, Covered(pageFrameMax), PMB[..], totalAlloc)
    }

    /** The scan stays in the bitmap: that covers the range, or the first byte has
        a clear bit, which is so from pmm_init on. */
    predicate InBitmap()
      reads this, PMB
    {
      && PmmOk(Abs()) && (pageFrameMax % 8 == 0 || pageFrameMax >= 8)
      && (pageFrameMax >= 8 * BITMAP_BYTES + 8 ==> StartByte(Abs()) < BITMAP_BYTES && PMB[StartByte(Abs())] != 0xFF)
    }

    /** pmm_init */
    method PmmInit(memLow: nat, memHigh: nat)
      requires PMB.Length == BITMAP_BYTES
      modifies this, PMB
      ensures Abs() == Init(memLow, memHigh)
      ensures totalAlloc == 0 && forall b | 0 <= b < BITMAP_BYTES :: PMB[b] == 0
      ensures pageFrameMax * 0x1000 <= memHigh < pageFrameMax * 0x1000 + 0x1000
      ensures memLow + 0xFFF < 0x1_0000_0000 ==> memLow <= pageFrameMin * 0x1000 < memLow + 0x1000
      ensures PmmOk(Abs()) && StartByte(Abs()) < BITMAP_BYTES ==> InBitmap()
    {
      pageFrameMin := (memLow + PAGE_SIZE - 1) % 0x1_0000_0000 / PAGE_SIZE;
      pageFrameMax := memHigh / PAGE_SIZE;
      totalAlloc := 0;
      var k := 0;
      while k < PMB.Length
        invariant 0 <= k <= PMB.Length && forall j | 0 <= j < k :: PMB[j] == 0
        modifies PMB
      {
        PMB[k] := 0;
        k := k + 1;
      }
      assert PMB[..] == Zeros(BITMAP_BYTES);
    }

    /** The bit loop on one byte. */
    static method FindClear(byte: Byte) returns (i: nat)
      ensures i == LowestClear(byte, 0)
    {
      i := 0;
      var rest := byte as nat;
      while i < 8
        invariant 0 <= i <= 8 && (i < 8 ==> ShiftRight(byte, i) == rest)
        invariant LowestClear(byte, 0) == LowestClear(byte, i)
      {
        if rest % 2 == 0 {
          return;
        }
        ShiftOnce(byte, i);
        rest := rest / 2;
        i := i + 1;
      }
    }

    static lemma {:induction false} ShiftOnce(b: nat, i: nat)
      ensures ShiftRight(b, i + 1) == ShiftRight(b, i) / 2
    {
      if i > 0 {
        ShiftOnce(b / 2, i - 1);
      }
    }

    lemma ScanEnds()
      requires InBitmap()
      ensures var end, last := pageFrameMax / 8 - (if pageFrameMax % 8 != 0 then 1 else 0), EndByte(Abs());
        if end > BITMAP_BYTES then StartByte(Abs()) < last && PMB[StartByte(Abs())] != 0xFF else end == last
      ensures EndByte(Abs()) <= PMB.Length == BITMAP_BYTES
    {
    }

    /** The store of the code. */
    method Take(b: nat, i: nat)
      requires InBitmap() && !Exhausted(Abs()) && Choice(Abs()) == (b, i)
      modifies this`totalAlloc, PMB
      ensures InBitmap() && Abs() == Alloc(old(Abs()), false)
    {
      hide Bit, LowestClear, FirstOpen, Choice, Exhausted;
      StoredAlone(PMB[b], i);
      hide Stored;
      PMB[b] := Stored(PMB[b], i, false);
      totalAlloc := totalAlloc + 1;
    }

    /** pmmAllocPageFrame */
    method PmmAllocPageFrame() returns (addr: nat)
      requires InBitmap()
      modifies this`totalAlloc, PMB
      ensures InBitmap() && Abs() == Alloc(old(Abs()), false)
      ensures addr == Frame(old(Abs())) * PAGE_SIZE
    {
      ghost var p := Abs();
      ghost var last := EndByte(p);
      ScanEnds();
      hide Bit, Stored, LowestClear, InBitmap, Covered, EndByte, PmmOk;
      var start := pageFrameMin / 8 + if pageFrameMin % 8 != 0 then 1 else 0;
      var end := pageFrameMax / 8 - if pageFrameMax % 8 != 0 then 1 else 0;
      var b := start;
      while b < end
        invariant start <= b && (if end > BITMAP_BYTES then b == start < last else end == last)
        invariant start < last ==> b <= last && FirstOpen(PMB[..], start, last) == FirstOpen(PMB[..], b, last)
      {
        var byte := PMB[b];
        if byte != 0xFF {
          var i := FindClear(byte);
          ByteOpen(byte);
          Take(b, i);
          return (b * 8 + i) * PAGE_SIZE;
        }
        b := b + 1;
      }
      addr := 0;
    }
  }
}
