/** Directory slots, the sectors of a directory, and the search loops
    (fat.c:116-133, 183-188, 209-221, 256-273, 363-366, 457-466). */
module Directory {
  import opened Bytes
  import opened FatTable
  import opened Layout
  import opened Names

  const SLOTS: nat := 16

  function SlotAt(sec: Sector, i: nat): Slot
    requires i < SLOTS
  {
    sec[SLOT_SIZE * i..SLOT_SIZE * i + SLOT_SIZE]
  }

  function PutSlot(sec: Sector, i: nat, sl: Slot): (r: Sector)
    requires i < SLOTS
    ensures forall j | 0 <= j < SLOTS :: SlotAt(r, j) == if j == i then sl else SlotAt(sec, j)
  {
    sec[..SLOT_SIZE * i] + sl + sec[SLOT_SIZE * i + SLOT_SIZE..]
  }

  function RawNameOf(sl: Slot): RawName { sl[..11] }

  function FirstCluster(sl: Slot): nat { Word(sl[26], sl[27]) }

  function FileSize(sl: Slot): nat { Dword(sl[28], sl[29], sl[30], sl[31]) }

  /** Attribute bit 0x08. */
  predicate IsLabel(sl: Slot) { Bit(sl[11], 3) == 1 }

  /** Attribute bit 0x10. */
  predicate HasDirBit(sl: Slot) { Bit(sl[11], 4) == 1 }

  predicate IsLive(sl: Slot) { sl[0] != 0 && sl[0] != DELETED }

  predicate IsFile(sl: Slot) { IsLive(sl) && !IsLabel(sl) && !HasDirBit(sl) }

  predicate IsSubdir(sl: Slot) { IsLive(sl) && HasDirBit(sl) && sl[0] != DOT }

  function NewSlot(raw: RawName, attributes: Byte, cluster: nat, size: nat): (sl: Slot)
    requires cluster < 0x1_0000 && size < 0x1_0000_0000
    ensures RawNameOf(sl) == raw && sl[0] == raw[0] && sl[11] == attributes
    ensures FirstCluster(sl) == cluster && FileSize(sl) == size
  {
    raw + [attributes] + Zeros(14) + WordBytes(cluster) + DwordBytes(size)
  }

  // ---- searching

  /** What a search is for: a file of that name, a subdirectory of that name,
      or a slot that can be filled. */
  datatype Want = File(name: Name) | Subdir(name: Name) | Vacant

  datatype Verdict = Hit | Skip | Stop

  predicate Named(sl: Slot, name: Name) { EqNoCase(MakeName(RawNameOf(sl)), name) }

  function Judge(sl: Slot, w: Want): Verdict {
    match w
    case File(name) => if sl[0] == 0 then Stop else if IsFile(sl) && Named(sl, name) then Hit else Skip
    case Subdir(name) => if sl[0] == 0 then Stop else if IsSubdir(sl) && Named(sl, name) then Hit else Skip
    case Vacant => if IsLive(sl) then Skip else Hit
  }

  function Find(slots: seq<Slot>, w: Want, from: nat): (r: Option<nat>)
    requires from <= |slots|
    ensures r.Some? ==> from <= r.value < |slots| && Judge(slots[r.value], w) == Hit
    ensures r.Some? ==> forall x | from <= x < r.value :: Judge(slots[x], w) == Skip
    decreases |slots| - from
  {
    if from == |slots| then None
    else match Judge(slots[from], w)
      case Hit => Some(from)
      case Stop => None
      case Skip => Find(slots, w, from + 1)
  }

  /** The end marker: nothing but free slots after a free one. */
  predicate ZeroTail(slots: seq<Slot>) {
    forall i, j | 0 <= i < j < |slots| && slots[i][0] == 0 :: slots[j][0] == 0
  }

  lemma {:induction false} FindNone(slots: seq<Slot>, w: Want, from: nat, x: nat)
    requires ZeroTail(slots) && from <= x < |slots| && Find(slots, w, from).None?
    ensures Judge(slots[x], w) != Hit
    decreases |slots| - from
  {
    if Judge(slots[from], w) == Skip && x != from {
      FindNone(slots, w, from + 1, x);
    }
  }

  lemma {:induction false} FindIs(slots: seq<Slot>, w: Want, from: nat, k: nat)
    requires from <= k < |slots| && Judge(slots[k], w) == Hit
    requires forall x | from <= x < k :: Judge(slots[x], w) == Skip
    ensures Find(slots, w, from) == Some(k)
    decreases k - from
  {
    if from < k {
      FindIs(slots, w, from + 1, k);
    }
  }

  /** Overwriting a slot that a search does not want by another one it does not
      want changes nothing for that search, even when the old slot was the end
      marker. */
  lemma {:induction false} FindUnaffected(slots: seq<Slot>, k: nat, sl: Slot, w: Want, from: nat)
    requires ZeroTail(slots) && k < |slots| && from <= |slots| && !w.Vacant?
    requires Judge(slots[k], w) != Hit && Judge(sl, w) == Skip
    ensures Find(slots[k := sl], w, from) == Find(slots, w, from)
    decreases |slots| - from
  {
    if from < |slots| {
      var upd := slots[k := sl];
      if from == k && Judge(slots[k], w) == Stop {
        assert Find(upd, w, from) == Find(upd, w, from + 1);
        if from + 1 < |slots| {
          assert slots[from + 1][0] == 0;
        }
      } else {
        FindUnaffected(slots, k, sl, w, from + 1);
      }
    }
  }

  lemma {:induction false} FindShifted(slots: seq<Slot>, k: nat, sl: Slot, w: Want, from: nat)
    requires from <= k < |slots| && Judge(sl, w) == Hit
    requires forall x | from <= x < k :: Judge(slots[x], w) == Skip
    ensures Find(slots[k := sl], w, from) == Some(k)
  {
    var upd := slots[k := sl];
    assert forall x | from <= x < k :: upd[x] == slots[x];
    FindIs(upd, w, from, k);
  }

  lemma ZeroTailFilled(slots: seq<Slot>, k: nat, sl: Slot)
    requires ZeroTail(slots) && k < |slots| && sl[0] != 0
    requires forall x | 0 <= x < k :: slots[x][0] != 0
    ensures ZeroTail(slots[k := sl])
  {
  }

  // ---- sectors of a directory or file

  function Consecutive(start: nat, n: nat): (r: seq<nat>)
    ensures |r| == n && forall i | 0 <= i < n :: r[i] == start + i
  {
    if n == 0 then [] else Consecutive(start, n - 1) + [start + n - 1]
  }

  function RootLbas(g: Geo): seq<nat> { Consecutive(RootStart(g), g.rootSectors) }

  function ClusterLbas(g: Geo, c: nat): seq<nat> { Consecutive(ClusterStart(g, c), g.spc) }

  function ChainLbas(g: Geo, ch: seq<nat>): (r: seq<nat>)
    decreases |ch|
  {
    if ch == [] then [] else ClusterLbas(g, ch[0]) + ChainLbas(g, ch[1..])
  }

  lemma {:induction false} ChainLbasAppend(g: Geo, a: seq<nat>, b: seq<nat>)
    ensures ChainLbas(g, a + b) == ChainLbas(g, a) + ChainLbas(g, b)
    decreases |a|
  {
    if a == [] {
      assert a + b == b;
    } else {
      assert (a + b)[1..] == a[1..] + b;
      ChainLbasAppend(g, a[1..], b);
    }
  }

  lemma {:induction false} ChainLbasFrom(g: Geo, ch: seq<nat>, lba: nat) returns (c: nat, o: nat)
    requires lba in ChainLbas(g, ch)
    ensures c in ch && o < g.spc && lba == ClusterStart(g, c) + o
    decreases |ch|
  {
    if lba in ClusterLbas(g, ch[0]) {
      o :| 0 <= o < g.spc && ClusterLbas(g, ch[0])[o] == lba;
      c := ch[0];
    } else {
      c, o := ChainLbasFrom(g, ch[1..], lba);
    }
  }

  lemma {:induction false} ChainLbasIn(g: Geo, ch: seq<nat>, c: nat, o: nat)
    requires c in ch && o < g.spc
    ensures ClusterStart(g, c) + o in ChainLbas(g, ch)
    decreases |ch|
  {
    if c == ch[0] {
      assert ClusterLbas(g, c)[o] == ClusterStart(g, c) + o;
    } else {
      assert c in ch[1..];
      ChainLbasIn(g, ch[1..], c, o);
    }
  }

  predicate AtLeastTwo(ch: seq<nat>) { forall i | 0 <= i < |ch| :: ch[i] >= 2 }

  predicate Apart(a: seq<nat>, b: seq<nat>) { forall x :: !(x in a && x in b) }

  lemma ClusterSectorsDiffer(g: Geo, c1: nat, o1: nat, c2: nat, o2: nat)
    requires c1 >= 2 && c2 >= 2 && o1 < g.spc && o2 < g.spc && (c1 != c2 || o1 != o2)
    ensures ClusterStart(g, c1) + o1 != ClusterStart(g, c2) + o2
  {
    if c1 < c2 {
      ClustersApart(g, c1, c2);
    } else if c2 < c1 {
      ClustersApart(g, c2, c1);
    }
  }

  /** Chains without a common cluster have no common sector. */
  lemma LbasApart(g: Geo, a: seq<nat>, b: seq<nat>)
    requires AtLeastTwo(a) && AtLeastTwo(b) && Apart(a, b)
    ensures Apart(ChainLbas(g, a), ChainLbas(g, b))
  {
    forall lba | lba in ChainLbas(g, a)
      ensures lba !in ChainLbas(g, b)
    {
      var c, o := ChainLbasFrom(g, a, lba);
      if lba in ChainLbas(g, b) {
        var e, p := ChainLbasFrom(g, b, lba);
        ClusterSectorsDiffer(g, c, o, e, p);
      }
    }
  }

  lemma ChainLbasAfterRoot(g: Geo, ch: seq<nat>, lba: nat)
    requires lba in ChainLbas(g, ch)
    ensures lba >= DataStart(g)
  {
    var c, o := ChainLbasFrom(g, ch, lba);
    ClusterAfterRoot(g, c);
  }

  lemma {:induction false} ChainLbasDistinct(g: Geo, ch: seq<nat>)
    requires AtLeastTwo(ch) && Distinct(ch)
    ensures Distinct(ChainLbas(g, ch))
    decreases |ch|
  {
    if ch != [] {
      ChainLbasDistinct(g, ch[1..]);
      assert Apart([ch[0]], ch[1..]);
      LbasApart(g, [ch[0]], ch[1..]);
      assert ChainLbas(g, [ch[0]]) == ClusterLbas(g, ch[0]);
      var a, b := ClusterLbas(g, ch[0]), ChainLbas(g, ch[1..]);
      forall i, j | 0 <= i < j < |a + b|
        ensures (a + b)[i] != (a + b)[j]
      {
        assert i < |a| <= j ==> (a + b)[i] in a && (a + b)[j] in b;
      }
    }
  }

  lemma {:induction false} ChainLbasIndex(g: Geo, ch: seq<nat>, s: nat, q: nat, r: nat)
    requires s == q * g.spc + r && r < g.spc
    ensures s < |ChainLbas(g, ch)| <==> q < |ch|
    ensures q < |ch| ==> ChainLbas(g, ch)[s] == ClusterStart(g, ch[q]) + r
    decreases |ch|
  {
    if q == 0 {
      assert s == r;
    } else {
      MultipleTooLarge(q, 0, g.spc);
      if ch != [] {
        assert (q - 1) * g.spc == q * g.spc - g.spc;
        ChainLbasIndex(g, ch[1..], s - g.spc, q - 1, r);
      }
    }
  }

  lemma DivisionSum(s: nat, k: nat)
    requires k > 0
    ensures s == Quotient(s, k) * k + Remainder(s, k)
  {
    DivisionTimes(s, k);
    TimesIs(k, Quotient(s, k));
  }

  lemma DivisionIs(s: nat, k: nat)
    requires k > 0
    ensures Quotient(s, k) == s / k && Remainder(s, k) == s % k
  {
    DivisionSum(s, k);
    QuotientOf(s, k, Quotient(s, k), Remainder(s, k));
  }

  lemma QuotientOf(s: nat, k: nat, q: nat, r: nat)
    requires 0 < k && r < k && s == q * k + r
    ensures s / k == q && s % k == r
  {
    var p := s / k;
    assert s == p * k + s % k;
    MultipleTooLarge(p, q, k);
    MultipleTooLarge(q, p, k);
  }

  /** Sector s of a chain lies in cluster s / spc at offset s % spc. */
  lemma ChainLbasAt(g: Geo, ch: seq<nat>, s: nat) returns (q: nat, r: nat)
    requires GeoOk(g)
    ensures q == Quotient(s, g.spc) && r == Remainder(s, g.spc)
    ensures s < |ChainLbas(g, ch)| <==> q < |ch|
    ensures q < |ch| ==> ChainLbas(g, ch)[s] == ClusterStart(g, ch[q]) + r
  {
    q, r := Quotient(s, g.spc), Remainder(s, g.spc);
    DivisionSum(s, g.spc);
    ChainLbasIndex(g, ch, s, q, r);
  }

  lemma {:induction false} MultipleTooLarge(p: int, q: int, k: nat)
    ensures p > q ==> p * k >= q * k + k
    decreases p - q
  {
    if p > q + 1 {
      MultipleTooLarge(p - 1, q, k);
      assert p * k == (p - 1) * k + k;
    } else if p == q + 1 {
      assert p * k == q * k + k;
    }
  }

  // ---- the slots of a list of sectors

  predicate OnDevice(d: Disk, lbas: seq<nat>) { forall i | 0 <= i < |lbas| :: lbas[i] < |d| }

  function SectorSlots(sec: Sector): (r: seq<Slot>)
    ensures |r| == SLOTS && forall i | 0 <= i < SLOTS :: r[i] == SlotAt(sec, i)
  {
    seq(SLOTS, i requires 0 <= i < SLOTS => SlotAt(sec, i))
  }

  function Slots(d: Disk, lbas: seq<nat>): (r: seq<Slot>)
    requires OnDevice(d, lbas)
    ensures |r| == SLOTS * |lbas|
    decreases |lbas|
  {
    if lbas == [] then [] else SectorSlots(d[lbas[0]]) + Slots(d, lbas[1..])
  }

  /** Slot k is slot k % 16 of sector k / 16. */
  lemma {:induction false} SlotIndex(d: Disk, lbas: seq<nat>, k: nat)
    requires OnDevice(d, lbas) && k < SLOTS * |lbas|
    ensures k / SLOTS < |lbas| && Slots(d, lbas)[k] == SlotAt(d[lbas[k / SLOTS]], k % SLOTS)
    decreases |lbas|
  {
    if k >= SLOTS {
      SlotIndex(d, lbas[1..], k - SLOTS);
      assert (k - SLOTS) / SLOTS == k / SLOTS - 1 && (k - SLOTS) % SLOTS == k % SLOTS;
    }
  }

  predicate SameAt(d: Disk, e: Disk, lbas: seq<nat>) {
    |d| == |e| && forall i | 0 <= i < |lbas| && lbas[i] < |d| :: e[lbas[i]] == d[lbas[i]]
  }

  lemma {:induction false} SlotsSame(d: Disk, e: Disk, lbas: seq<nat>)
    requires OnDevice(d, lbas) && SameAt(d, e, lbas)
    ensures OnDevice(e, lbas) && Slots(e, lbas) == Slots(d, lbas)
    decreases |lbas|
  {
    if lbas != [] {
      assert e[lbas[0]] == d[lbas[0]];
      assert SameAt(d, e, lbas[1..]);
      SlotsSame(d, e, lbas[1..]);
    }
  }

  /** The write that changes slot k of a directory. */
  function SlotWrite(d: Disk, lbas: seq<nat>, k: nat, sl: Slot): Write
    requires OnDevice(d, lbas) && k < SLOTS * |lbas|
  {
    var lba := lbas[k / SLOTS];
    Write(lba, PutSlot(d[lba], k % SLOTS, sl))
  }

  lemma SlotsUpdated(d: Disk, lbas: seq<nat>, k: nat, sl: Slot)
    requires OnDevice(d, lbas) && Distinct(lbas) && k < SLOTS * |lbas|
    ensures Slots(Put(d, SlotWrite(d, lbas, k, sl)), lbas) == Slots(d, lbas)[k := sl]
  {
    var e := Put(d, SlotWrite(d, lbas, k, sl));
    forall x | 0 <= x < SLOTS * |lbas|
      ensures Slots(e, lbas)[x] == if x == k then sl else Slots(d, lbas)[x]
    {
      SlotIndex(d, lbas, x);
      SlotIndex(e, lbas, x);
      var sx := x / SLOTS;
      assert sx != k / SLOTS ==> lbas[sx] != lbas[k / SLOTS];
    }
  }

  // ---- file contents

  function Contents(d: Disk, lbas: seq<nat>): (r: seq<Byte>)
    requires OnDevice(d, lbas)
    ensures |r| == SECTOR_SIZE * |lbas|
    decreases |lbas|
  {
    if lbas == [] then [] else d[lbas[0]] + Contents(d, lbas[1..])
  }

  lemma {:induction false} ContentsSame(d: Disk, e: Disk, lbas: seq<nat>)
    requires OnDevice(d, lbas) && SameAt(d, e, lbas)
    ensures OnDevice(e, lbas) && Contents(e, lbas) == Contents(d, lbas)
    decreases |lbas|
  {
    if lbas != [] {
      assert e[lbas[0]] == d[lbas[0]];
      assert SameAt(d, e, lbas[1..]);
      ContentsSame(d, e, lbas[1..]);
    }
  }

  lemma {:induction false} ContentsAppend(d: Disk, a: seq<nat>, b: seq<nat>)
    requires OnDevice(d, a + b)
    ensures OnDevice(d, a) && OnDevice(d, b) && Contents(d, a + b) == Contents(d, a) + Contents(d, b)
    decreases |a|
  {
    assert forall i | 0 <= i < |a| :: a[i] == (a + b)[i];
    assert forall i | 0 <= i < |b| :: b[i] == (a + b)[|a| + i];
    if a == [] {
      assert a + b == b;
    } else {
      assert (a + b)[1..] == a[1..] + b;
      ContentsAppend(d, a[1..], b);
    }
  }
}
