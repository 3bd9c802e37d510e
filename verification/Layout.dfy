/** Where things are on the disk: FAT copies, root directory, data clusters
    (fat.c:103-145), and the effect of a list of single-sector writes. */
module Layout {
  import opened Bytes
  import opened FatTable

  datatype Geo = Geo(fatStart: nat, fatCount: nat, spf: nat, rootSectors: nat, spc: nat)

  /** A FAT12 volume. With 18 sectors per FAT the search for a free cluster would
      look past the table buffer. */
  predicate GeoOk(g: Geo) {
    g.fatStart >= 1 && g.fatCount >= 1 && 1 <= g.spf <= 17 && g.spc >= 1
  }

  /** Clusters below this have an entry of their own and are not taken for an end mark. */
  function Limit(g: Geo): (n: nat)
    requires GeoOk(g)
    ensures 341 <= n <= 0xFF0
  {
    var n := 1024 * g.spf / 3;
    if n < 0xFF0 then n else 0xFF0
  }

  /** First sector of FAT copy f. The product of the source is written as a
      recurrence, which keeps every later proof linear. */
  function CopyStart(g: Geo, f: nat): nat {
    if f == 0 then g.fatStart else CopyStart(g, f - 1) + g.spf
  }

  function RootStart(g: Geo): nat { CopyStart(g, g.fatCount) }

  function DataStart(g: Geo): nat { RootStart(g) + g.rootSectors }

  /** First sector of cluster c. */
  function ClusterStart(g: Geo, c: nat): nat {
    if c <= 2 then DataStart(g) else ClusterStart(g, c - 1) + g.spc
  }

  lemma {:induction false} CopyStartFormula(g: Geo, f: nat)
    ensures CopyStart(g, f) == g.fatStart + f * g.spf
  {
    if f > 0 {
      CopyStartFormula(g, f - 1);
      assert f * g.spf == (f - 1) * g.spf + g.spf;
    }
  }

  lemma {:induction false} ClusterStartFormula(g: Geo, c: nat)
    requires c >= 2
    ensures ClusterStart(g, c) == DataStart(g) + (c - 2) * g.spc
  {
    if c > 2 {
      ClusterStartFormula(g, c - 1);
      assert (c - 2) * g.spc == (c - 3) * g.spc + g.spc;
    }
  }

  lemma {:induction false} CopiesApart(g: Geo, f1: nat, f2: nat)
    requires f1 < f2
    ensures CopyStart(g, f1) + g.spf <= CopyStart(g, f2)
    decreases f2
  {
    if f1 < f2 - 1 {
      CopiesApart(g, f1, f2 - 1);
    }
  }

  lemma {:induction false} CopyInFat(g: Geo, f: nat)
    requires f < g.fatCount
    ensures g.fatStart <= CopyStart(g, f) && CopyStart(g, f) + g.spf <= RootStart(g)
  {
    CopiesApart(g, f, g.fatCount);
    if f > 0 {
      CopiesApart(g, 0, f);
    }
  }

  /** Distinct clusters occupy disjoint runs of sectors. */
  lemma {:induction false} ClustersApart(g: Geo, c1: nat, c2: nat)
    requires 2 <= c1 < c2
    ensures DataStart(g) <= ClusterStart(g, c1)
    ensures ClusterStart(g, c1) + g.spc <= ClusterStart(g, c2)
    decreases c2
  {
    if c1 < c2 - 1 {
      ClustersApart(g, c1, c2 - 1);
    } else {
      ClusterAfterRoot(g, c1);
    }
  }

  lemma {:induction false} ClusterAfterRoot(g: Geo, c: nat)
    ensures DataStart(g) <= ClusterStart(g, c)
  {
    if c > 2 {
      ClusterAfterRoot(g, c - 1);
    }
  }

  // ---- the disk

  type Disk = seq<Sector>

  /** The device holds the FATs and the root directory and ends before the
      first cluster that has no entry. */
  predicate DiskOk(g: Geo, d: Disk)
    requires GeoOk(g)
  {
    DataStart(g) <= |d| <= ClusterStart(g, Limit(g))
  }

  /** What load_fat leaves in the buffer: the first FAT copy, then whatever the
      buffer held past it. */
  function TableBytes(g: Geo, d: Disk): (t: seq<Byte>)
    requires GeoOk(g) && RootStart(g) <= |d|
    ensures |t| == SECTOR_SIZE * g.spf
  {
    CopyInFat(g, 0);
    Joined(d, g.fatStart, g.spf)
  }

  /** The bytes of n sectors. */
  function Joined(d: Disk, start: nat, n: nat): (r: seq<Byte>)
    requires start + n <= |d|
    ensures |r| == SECTOR_SIZE * n
  {
    if n == 0 then [] else Joined(d, start, n - 1) + d[start + n - 1]
  }

  lemma {:induction false} JoinedByte(d: Disk, start: nat, n: nat, s: nat, k: nat)
    requires start + n <= |d| && s < n && k < SECTOR_SIZE
    ensures Joined(d, start, n)[SECTOR_SIZE * s + k] == d[start + s][k]
  {
    if s < n - 1 {
      JoinedByte(d, start, n - 1, s, k);
    }
  }

  lemma {:induction false} JoinedSame(d: Disk, e: Disk, start: nat, n: nat)
    requires start + n <= |d| == |e| && forall s | start <= s < start + n :: e[s] == d[s]
    ensures Joined(e, start, n) == Joined(d, start, n)
  {
    if n > 0 {
      JoinedSame(d, e, start, n - 1);
    }
  }

  lemma TableByte(g: Geo, d: Disk, s: nat, k: nat)
    requires GeoOk(g) && RootStart(g) <= |d| && s < g.spf && k < SECTOR_SIZE
    ensures g.fatStart + s < |d| && TableBytes(g, d)[SECTOR_SIZE * s + k] == d[g.fatStart + s][k]
  {
    CopyInFat(g, 0);
    JoinedByte(d, g.fatStart, g.spf, s, k);
  }

  predicate TailOk(g: Geo, tail: seq<Byte>) { |tail| == BUFFER_SIZE - SECTOR_SIZE * g.spf }

  function Buffer(g: Geo, d: Disk, tail: seq<Byte>): Table
    requires GeoOk(g) && RootStart(g) <= |d| && TailOk(g, tail)
  {
    TableBytes(g, d) + tail
  }

  function TailOf(g: Geo, t: Table): (r: seq<Byte>)
    requires GeoOk(g)
    ensures TailOk(g, r)
  {
    t[SECTOR_SIZE * g.spf..]
  }

  function TableSector(t: Table, s: nat): Sector
    requires s < 18
  {
    t[SECTOR_SIZE * s..SECTOR_SIZE * s + SECTOR_SIZE]
  }

  // ---- writes

  datatype Write = Write(lba: nat, data: Sector)

  function Put(d: Disk, w: Write): (r: Disk)
    ensures |r| == |d|
  {
    if w.lba < |d| then d[w.lba := w.data] else d
  }

  function Apply(d: Disk, ws: seq<Write>): (r: Disk)
    ensures |r| == |d|
    decreases |ws|
  {
    if ws == [] then d else Apply(Put(d, ws[0]), ws[1..])
  }

  lemma {:induction false} ApplyAppend(d: Disk, a: seq<Write>, b: seq<Write>)
    ensures Apply(d, a + b) == Apply(Apply(d, a), b)
    decreases |a|
  {
    if a == [] {
      assert a + b == b;
    } else {
      assert (a + b)[1..] == a[1..] + b;
      ApplyAppend(Put(d, a[0]), a[1..], b);
    }
  }

  lemma ApplyOne(d: Disk, w: Write)
    ensures Apply(d, [w]) == Put(d, w)
  {
    assert Apply(d, [w]) == Apply(Put(d, w), [w][1..]);
  }

  /** Every sector is old, or holds what some write for it carried. */
  lemma {:induction false} ApplyOrigin(d: Disk, ws: seq<Write>, lba: nat)
    requires lba < |d|
    ensures Apply(d, ws)[lba] == d[lba] || Write(lba, Apply(d, ws)[lba]) in ws
    ensures (exists w :: w in ws && w.lba == lba) ==> Write(lba, Apply(d, ws)[lba]) in ws
    decreases |ws|
  {
    if ws != [] {
      var w, e := ws[0], Put(d, ws[0]);
      ApplyOrigin(e, ws[1..], lba);
      assert ws == [w] + ws[1..];
      if w.lba == lba && Apply(d, ws)[lba] == e[lba] {
        assert w == Write(lba, Apply(d, ws)[lba]);
      } else if x :| x in ws && x.lba == lba {
        assert x == w || x in ws[1..];
      }
    }
  }

  predicate Missing(ws: seq<Write>, lba: nat) {
    forall w | w in ws :: w.lba != lba
  }

  lemma ApplyMissing(d: Disk, ws: seq<Write>, lba: nat)
    requires lba < |d| && Missing(ws, lba)
    ensures Apply(d, ws)[lba] == d[lba]
  {
    ApplyOrigin(d, ws, lba);
  }

  // ---- saving the table

  function CopyWrites(g: Geo, t: Table, f: nat): (ws: seq<Write>)
    requires GeoOk(g)
    ensures |ws| == g.spf
  {
    seq(g.spf, s requires 0 <= s < g.spf => Write(CopyStart(g, f) + s, TableSector(t, s)))
  }

  /** The single-sector writes of write_fat for copies f and up. */
  function FatWrites(g: Geo, t: Table, f: nat): (ws: seq<Write>)
    requires GeoOk(g) && f <= g.fatCount
    decreases g.fatCount - f
  {
    if f == g.fatCount then []
    else CopyWrites(g, t, f) + FatWrites(g, t, f + 1)
  }

  predicate IsFatWrite(g: Geo, t: Table, w: Write, f: nat, s: nat) {
    f < g.fatCount && s < g.spf && s < 18 && w == Write(CopyStart(g, f) + s, TableSector(t, s))
  }

  lemma {:induction false} FatWriteIn(g: Geo, t: Table, f: nat, x: nat, s: nat)
    requires GeoOk(g) && f <= x < g.fatCount && s < g.spf
    ensures Write(CopyStart(g, x) + s, TableSector(t, s)) in FatWrites(g, t, f)
    decreases g.fatCount - f
  {
    if x == f {
      assert CopyWrites(g, t, f)[s] == Write(CopyStart(g, x) + s, TableSector(t, s));
    } else {
      FatWriteIn(g, t, f + 1, x, s);
    }
  }

  lemma {:induction false} FatWriteFrom(g: Geo, t: Table, f: nat, w: Write) returns (x: nat, s: nat)
    requires GeoOk(g) && f <= g.fatCount && w in FatWrites(g, t, f)
    ensures IsFatWrite(g, t, w, x, s)
    ensures g.fatStart <= w.lba < RootStart(g)
    decreases g.fatCount - f
  {
    if w in CopyWrites(g, t, f) {
      s :| 0 <= s < g.spf && CopyWrites(g, t, f)[s] == w;
      x := f;
      CopyInFat(g, f);
    } else {
      x, s := FatWriteFrom(g, t, f + 1, w);
    }
  }

  /** A write to a sector of copy f carries that sector of the table. */
  lemma FatWriteContent(g: Geo, t: Table, f: nat, s: nat, w: Write)
    requires GeoOk(g) && f < g.fatCount && s < g.spf
    requires w in FatWrites(g, t, 0) && w.lba == CopyStart(g, f) + s
    ensures w.data == TableSector(t, s)
  {
    var x, y := FatWriteFrom(g, t, 0, w);
    if x < f {
      CopiesApart(g, x, f);
    } else if f < x {
      CopiesApart(g, f, x);
    }
  }

  function FatSector(g: Geo, d: Disk, f: nat, s: nat): seq<Byte> {
    if CopyStart(g, f) + s < |d| then d[CopyStart(g, f) + s] else []
  }

  predicate CopiesAgree(g: Geo, d: Disk) {
    forall f, s | 0 <= f < g.fatCount && 0 <= s < g.spf :: FatSector(g, d, f, s) == FatSector(g, d, 0, s)
  }

  predicate SameOutsideFat(g: Geo, d: Disk, e: Disk) {
    |d| == |e| && forall i | 0 <= i < |d| && !(g.fatStart <= i < RootStart(g)) :: e[i] == d[i]
  }

  lemma PrefixOutsideFat(g: Geo, d: Disk, t: Table, pre: seq<Write>)
    requires GeoOk(g) && forall w | w in pre :: w in FatWrites(g, t, 0)
    ensures SameOutsideFat(g, d, Apply(d, pre))
  {
    var e := Apply(d, pre);
    forall i | 0 <= i < |d| && !(g.fatStart <= i < RootStart(g))
      ensures e[i] == d[i]
    {
      ApplyOrigin(d, pre, i);
      if Write(i, e[i]) in pre {
        var x, s := FatWriteFrom(g, t, 0, Write(i, e[i]));
      }
    }
  }

  lemma PrefixFirstCopy(g: Geo, d: Disk, t: Table, pre: seq<Write>, s: nat)
    requires GeoOk(g) && RootStart(g) <= |d| && s < g.spf
    requires forall w | w in pre :: w in FatWrites(g, t, 0)
    ensures g.fatStart + s < |d|
    ensures var x := Apply(d, pre)[g.fatStart + s]; x == d[g.fatStart + s] || x == TableSector(t, s)
  {
    CopyInFat(g, 0);
    var lba := g.fatStart + s;
    ApplyOrigin(d, pre, lba);
    if Write(lba, Apply(d, pre)[lba]) in pre {
      FatWriteContent(g, t, 0, s, Write(lba, Apply(d, pre)[lba]));
    }
  }

  lemma FirstCopySector(g: Geo, d: Disk, t: Table, pre: seq<Write>, s: nat)
    requires GeoOk(g) && RootStart(g) <= |d| && s < g.spf
    requires CopyWrites(g, t, 0) <= pre && forall w | w in pre :: w in FatWrites(g, t, 0)
    ensures g.fatStart + s < |d| && Apply(d, pre)[g.fatStart + s] == TableSector(t, s)
  {
    CopyInFat(g, 0);
    var w := Write(g.fatStart + s, TableSector(t, s));
    assert CopyWrites(g, t, 0)[s] == w;
    hide FatWrites, Joined, TableSector, CopyWrites, RootStart;
    assert w in pre && w.lba == g.fatStart + s;
    ApplyOrigin(d, pre, w.lba);
    FatWriteContent(g, t, 0, s, Write(w.lba, Apply(d, pre)[w.lba]));
  }

  /** The table is the new one as soon as the first copy is written. */
  lemma FirstCopySaved(g: Geo, d: Disk, t: Table, pre: seq<Write>)
    requires GeoOk(g) && RootStart(g) <= |d|
    requires CopyWrites(g, t, 0) <= pre && forall w | w in pre :: w in FatWrites(g, t, 0)
    ensures Buffer(g, Apply(d, pre), TailOf(g, t)) == t
  {
    hide FatWrites, Joined, TableSector, CopyWrites, Apply;
    CopyInFat(g, 0);
    forall s | 0 <= s < g.spf
      ensures FatSector(g, Apply(d, pre), 0, s) == TableSector(t, s)
    {
      FirstCopySector(g, d, t, pre, s);
    }
    SavedTable(g, Apply(d, pre), t);
  }

  /** After any prefix of the save, the first copy is a byte-wise mixture of
      the old table and the new one. */
  lemma PartialSave(g: Geo, d: Disk, t: Table, pre: seq<Write>)
    requires GeoOk(g) && RootStart(g) <= |d| && forall w | w in pre :: w in FatWrites(g, t, 0)
    ensures forall j | 0 <= j < SECTOR_SIZE * g.spf ::
      TableBytes(g, Apply(d, pre))[j] == TableBytes(g, d)[j] || TableBytes(g, Apply(d, pre))[j] == t[j]
  {
    forall j | 0 <= j < SECTOR_SIZE * g.spf
      ensures TableBytes(g, Apply(d, pre))[j] == TableBytes(g, d)[j] || TableBytes(g, Apply(d, pre))[j] == t[j]
    {
      var s := j / SECTOR_SIZE;
      PrefixFirstCopy(g, d, t, pre, s);
      TableByte(g, d, s, j % SECTOR_SIZE);
      TableByte(g, Apply(d, pre), s, j % SECTOR_SIZE);
      assert TableSector(t, s)[j % SECTOR_SIZE] == t[j];
    }
  }

  lemma SavedSector(g: Geo, d: Disk, t: Table, f: nat, s: nat)
    requires GeoOk(g) && f < g.fatCount && s < g.spf && CopyStart(g, f) + s < |d|
    ensures Apply(d, FatWrites(g, t, 0))[CopyStart(g, f) + s] == TableSector(t, s)
  {
    var lba := CopyStart(g, f) + s;
    var ws := FatWrites(g, t, 0);
    FatWriteIn(g, t, 0, f, s);
    ApplyOrigin(d, ws, lba);
    FatWriteContent(g, t, f, s, Write(lba, Apply(d, ws)[lba]));
  }

  lemma SavedTable(g: Geo, e: Disk, t: Table)
    requires GeoOk(g) && RootStart(g) <= |e|
    requires forall s | 0 <= s < g.spf :: FatSector(g, e, 0, s) == TableSector(t, s)
    ensures Buffer(g, e, TailOf(g, t)) == t
  {
    CopyInFat(g, 0);
    forall j | 0 <= j < SECTOR_SIZE * g.spf
      ensures TableBytes(g, e)[j] == t[j]
    {
      assert FatSector(g, e, 0, j / SECTOR_SIZE) == TableSector(t, j / SECTOR_SIZE);
      TableByte(g, e, j / SECTOR_SIZE, j % SECTOR_SIZE);
    }
    assert TableBytes(g, e) == t[..SECTOR_SIZE * g.spf];
  }

  /** A complete save makes every copy equal to the table in memory, whatever
      the copies held before, and changes nothing else. */
  lemma SaveTable(g: Geo, d: Disk, t: Table)
    requires GeoOk(g) && RootStart(g) <= |d|
    ensures var e := Apply(d, FatWrites(g, t, 0));
      SameOutsideFat(g, d, e) && Buffer(g, e, TailOf(g, t)) == t && CopiesAgree(g, e)
  {
    hide FatWrites, Apply, Joined, TableSector, RootStart;
    var e := Apply(d, FatWrites(g, t, 0));
    PrefixOutsideFat(g, d, t, FatWrites(g, t, 0));
    forall f, s | 0 <= f < g.fatCount && 0 <= s < g.spf
      ensures FatSector(g, e, f, s) == TableSector(t, s)
    {
      CopyInFat(g, f);
      SavedSector(g, d, t, f, s);
    }
    SavedTable(g, e, t);
  }
}
