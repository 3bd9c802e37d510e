/** The driver: statics and buffers updated in place, loops over clusters,
    sectors and slots. Every public method is proved to do what FatSpec says. */
module FatDriver {
  import opened Bytes
  import opened Names
  import opened FatTable
  import opened Layout
  import opened Directory
  import opened FatSpec
  import opened Formats
  import opened Volume
  import opened Removal
  import opened Allocation
  import opened Operations
  import opened Subdirectories
  import opened Runs
  import opened Reading
  import opened Interruption
  import opened Copies
  import opened Device

  class Driver {
    const disk: AtaDisk
    /** The static table buffer, and the buffers for one directory or data sector. */
    const fatBuf: array<Byte>
    const dirBuf: array<Byte>
    const sectorBuf: array<Byte>

    var initialized: bool
    var geo: Geo
    var rootStart: nat
    var dataStart: nat
    var cur: nat

    /** The shape of the mounted volume. */
    ghost var shape: Shape

    constructor (d: AtaDisk)
      ensures disk == d && !initialized && cur == 0 && Wired() && fatBuf[..] == Zeros(BUFFER_SIZE)
      ensures fresh(fatBuf) && fresh(dirBuf) && fresh(sectorBuf)
    {
      disk := d;
      fatBuf := new Byte[BUFFER_SIZE](_ => 0);
      dirBuf := new Byte[SECTOR_SIZE](_ => 0);
      sectorBuf := new Byte[SECTOR_SIZE](_ => 0);
      initialized := false;
      geo := Geo(1, 1, 1, 0, 1);
      rootStart := 0;
      dataStart := 0;
      cur := 0;
      shape := Shape(map[], map[], map[]);
      new;
      assert fatBuf[..] == Zeros(BUFFER_SIZE);
    }

    predicate Wired() {
      && fatBuf.Length == BUFFER_SIZE && dirBuf.Length == SECTOR_SIZE && sectorBuf.Length == SECTOR_SIZE
      && fatBuf != dirBuf && fatBuf != sectorBuf && dirBuf != sectorBuf
    }

    function Table(): FatTable.Table
      requires Wired()
      reads fatBuf
    {
      fatBuf[..]
    }

    /** What fat_init leaves in the statics. */
    predicate Located()
      reads this
    {
      GeoOk(geo) && rootStart == RootStart(geo) && dataStart == DataStart(geo)
    }

    function Abs(): State
      requires Wired() && GeoOk(geo)
      reads this, disk, fatBuf
    {
      State(disk.blocks, cur, TailOf(geo, Table()))
    }

    ghost predicate Valid()
      reads this, disk, fatBuf
    {
      Wired() && (initialized ==> Located() && StateOk(geo, Abs()) && Live(geo, Abs(), shape))
    }

    // ---- the table in memory

    /** load_fat */
    method LoadFat() returns (rc: int)
      requires Wired() && Located() && RootStart(geo) <= |disk.blocks|
      modifies fatBuf
      ensures rc == 0
      ensures Table() == Buffer(geo, disk.blocks, old(TailOf(geo, Table())))
    {
      hide TableBytes;
      var fatSecs := Min(geo.spf, 18);
      ghost var want := TableBytes(geo, disk.blocks);
      CopyInFat(geo, 0);
      var s := 0;
      while s < fatSecs
        invariant 0 <= s <= fatSecs == geo.spf
        invariant fatBuf[..SECTOR_SIZE * s] == want[..SECTOR_SIZE * s]
        invariant fatBuf[SECTOR_SIZE * geo.spf..] == old(fatBuf[SECTOR_SIZE * geo.spf..])
      {
        ghost var before := fatBuf[..];
        var r := disk.Read(geo.fatStart + s, fatBuf, s * SECTOR_SIZE);
        LoadedSector(geo, disk.blocks, before, fatBuf[..], s);
        if r != 0 {
          return -1;
        }
        s := s + 1;
      }
      assert Table() == want + old(fatBuf[SECTOR_SIZE * geo.spf..]);
      rc := 0;
    }

    static lemma LoadedSector(g: Geo, d: Disk, before: Table, after: Table, s: nat)
      requires GeoOk(g) && RootStart(g) <= |d| && s < g.spf && g.fatStart + s < |d|
      requires before[..SECTOR_SIZE * s] == TableBytes(g, d)[..SECTOR_SIZE * s]
      requires after[..s * SECTOR_SIZE] == before[..s * SECTOR_SIZE]
      requires after[s * SECTOR_SIZE..s * SECTOR_SIZE + SECTOR_SIZE] == d[g.fatStart + s]
      requires after[s * SECTOR_SIZE + SECTOR_SIZE..] == before[s * SECTOR_SIZE + SECTOR_SIZE..]
      ensures after[..SECTOR_SIZE * (s + 1)] == TableBytes(g, d)[..SECTOR_SIZE * (s + 1)]
      ensures after[SECTOR_SIZE * g.spf..] == before[SECTOR_SIZE * g.spf..]
    {
      var want := TableBytes(g, d);
      var o := SECTOR_SIZE * s;
      forall k | 0 <= k < o + SECTOR_SIZE
        ensures after[k] == want[k]
      {
        if k < o {
          assert after[..o][k] == before[..o][k] == want[..o][k];
        } else {
          TableByte(g, d, s, k - o);
          assert after[o..o + SECTOR_SIZE][k - o] == after[k];
        }
      }
      var h := o + SECTOR_SIZE;
      assert after[SECTOR_SIZE * g.spf..] == after[h..][SECTOR_SIZE * g.spf - h..];
      assert before[SECTOR_SIZE * g.spf..] == before[h..][SECTOR_SIZE * g.spf - h..];
    }

    /** The inner loop of write_fat: one copy of the table. */
    method WriteCopy(f: nat, fatSecs: nat) returns (rc: int)
      requires Wired() && Located() && RootStart(geo) <= |disk.blocks| && f < geo.fatCount && fatSecs == geo.spf
      modifies disk
      ensures rc == 0
      ensures disk.blocks == Apply(old(disk.blocks), CopyWrites(geo, Table(), f))
      ensures disk.log == old(disk.log) + CopyWrites(geo, Table(), f)
    {
      hide Apply;
      var start := geo.fatStart + f * geo.spf;
      CopyStartFormula(geo, f);
      CopyInFat(geo, f);
      ghost var ws := CopyWrites(geo, Table(), f);
      assert Apply(old(disk.blocks), []) == old(disk.blocks) by { ApplyNone(old(disk.blocks)); }
      var s := 0;
      while s < fatSecs
        invariant 0 <= s <= fatSecs
        invariant disk.blocks == Apply(old(disk.blocks), ws[..s]) && disk.log == old(disk.log) + ws[..s]
      {
        var r := disk.Write(start + s, fatBuf, s * SECTOR_SIZE);
        if r != 0 {
          return -1;
        }
        ApplyNext(old(disk.blocks), ws, s);
        s := s + 1;
      }
      assert ws[..s] == ws;
      rc := 0;
    }

    static lemma ApplyNone(d: Disk)
      ensures Apply(d, []) == d
    {
    }

    static lemma ApplyNext(d: Disk, ws: seq<Write>, s: nat)
      requires s < |ws|
      ensures Apply(d, ws[..s + 1]) == Put(Apply(d, ws[..s]), ws[s]) && ws[..s + 1] == ws[..s] + [ws[s]]
    {
      assert ws[..s + 1] == ws[..s] + [ws[s]];
      ApplyAppend(d, ws[..s], [ws[s]]);
      ApplyOne(Apply(d, ws[..s]), ws[s]);
    }

    /** write_fat */
    method WriteFat() returns (rc: int)
      requires Wired() && Located() && RootStart(geo) <= |disk.blocks|
      modifies disk
      ensures rc == 0
      ensures disk.blocks == Apply(old(disk.blocks), FatWrites(geo, Table(), 0))
      ensures disk.log == old(disk.log) + FatWrites(geo, Table(), 0)
    {
      hide Apply, CopyWrites, CopyStart, TailOf;
      var fatSecs := Min(geo.spf, 18);
      ghost var t := Table();
      ghost var done: seq<Write> := [];
      ApplyNone(disk.blocks);
      assert [] + FatWrites(geo, t, 0) == FatWrites(geo, t, 0);
      var f := 0;
      while f < geo.fatCount
        invariant 0 <= f <= geo.fatCount
        invariant disk.blocks == Apply(old(disk.blocks), done) && disk.log == old(disk.log) + done
        invariant done + FatWrites(geo, t, f) == FatWrites(geo, t, 0)
      {
        var r := WriteCopy(f, fatSecs);
        if r != 0 {
          return -1;
        }
        ghost var ws := CopyWrites(geo, t, f);
        ApplyAppend(old(disk.blocks), done, ws);
        assert done + (ws + FatWrites(geo, t, f + 1)) == done + ws + FatWrites(geo, t, f + 1);
        assert old(disk.log) + done + ws == old(disk.log) + (done + ws);
        done := done + ws;
        f := f + 1;
      }
      assert done + [] == done;
      rc := 0;
    }

    // ---- the current directory

    /** The table in memory has the chain of the current directory. */
    ghost predicate Scannable(sh: Shape)
      reads this, disk, fatBuf
    {
      && Wired() && Located() && ShapeOk(geo, Table(), sh)
      && DirsOnDevice(geo, disk.blocks, sh) && cur in sh.depth && cur < ENTRIES
    }

    /** Following the table for s / spc links, giving up at the end of the chain. */
    method WalkTo(cidx: nat, ghost ch: seq<nat>) returns (rc: int, cluster: nat)
      requires Wired() && Located() && IsChain(Table(), ch, Limit(geo)) && ch[0] == cur
      ensures rc == if cidx < |ch| then 0 else 1
      ensures rc == 0 ==> cluster == ch[cidx]
    {
      hide Get, Distinct;
      cluster := cur;
      var i := 0;
      while i < cidx
        invariant 0 <= i <= cidx && i < |ch| && cluster == ch[i]
      {
        assert i + 1 < |ch| ==> Link(Table(), ch[i], ch[i + 1]);
        cluster := NextCluster(fatBuf, cluster);
        if cluster < 2 || cluster >= 0xFF8 {
          return 1, cluster;
        }
        i := i + 1;
      }
      rc := 0;
    }

    /** read_dir_sector */
    method ReadDirSector(s: nat, ghost sh: Shape) returns (rc: int)
      requires Scannable(sh)
      modifies dirBuf
      ensures rc == if s < |LbasOf(geo, sh, cur)| then 0 else 1
      ensures rc == 0 ==> LbasOf(geo, sh, cur)[s] < |disk.blocks| && dirBuf[..] == disk.blocks[LbasOf(geo, sh, cur)[s]]
    {
      if cur == 0 {
        if s >= geo.rootSectors {
          return 1;
        }
        rc := disk.Read(rootStart + s, dirBuf, 0);
        assert dirBuf[..] == dirBuf[0..SECTOR_SIZE];
        return;
      }
      ghost var ch := sh.chains[cur];
      ghost var q, r := ChainLbasAt(geo, ch, s);
      DivisionIs(s, geo.spc);
      var cluster;
      rc, cluster := WalkTo(s / geo.spc, ch);
      if rc != 0 {
        return 1;
      }
      assert cluster >= 2;
      ClusterStartFormula(geo, cluster);
      var lba := dataStart + (cluster - 2) * geo.spc + s % geo.spc;
      assert LbasOf(geo, sh, cur)[s] == lba;
      rc := disk.Read(lba, dirBuf, 0);
      assert dirBuf[..] == dirBuf[0..SECTOR_SIZE];
    }

    static lemma {:induction false} CStringUpTo(a: seq<Byte>, m: seq<Byte>)
      requires |m| < |a| && a[..|m|] == m && a[|m|] == 0
      ensures CString(a) == CString(m)
      decreases |m|
    {
      if m != [] {
        assert a[0] == m[0];
        assert a[1..][..|m| - 1] == m[1..];
        CStringUpTo(a[1..], m[1..]);
      }
    }

    /** The name comparison of the search loops, on a copy of the slot. */
    method Matches(sl: Slot, name: Name) returns (b: bool)
      ensures b <==> Named(sl, name)
    {
      var entryName := new Byte[13];
      MakeNameInto(RawNameOf(sl), entryName);
      CStringUpTo(entryName[..], MakeName(RawNameOf(sl)));
      var r := StrCmpNoCase(entryName[..], name);
      b := r == 0;
    }

    /** The tests at the head of the slot loops, in the order of the source. */
    method JudgeSlot(sl: Slot, w: Want) returns (v: Verdict)
      ensures v == Judge(sl, w)
    {
      hide Named;
      var first := sl[0];
      match w {
        case File(name) =>
          if first == 0 { return Stop; }
          if first == DELETED { return Skip; }
          if IsLabel(sl) { return Skip; }
          if HasDirBit(sl) { return Skip; }
          var same := Matches(sl, name);
          if same { return Hit; }
          return Skip;
        case Subdir(name) =>
          if first == 0 { return Stop; }
          if first == DELETED { return Skip; }
          if !HasDirBit(sl) { return Skip; }
          if first == DOT { return Skip; }
          var same := Matches(sl, name);
          if same { return Hit; }
          return Skip;
        case Vacant =>
          if first == 0 || first == DELETED { return Hit; }
          return Skip;
      }
    }

    /** The slot loop on the sector in dirBuf. */
    method FindInSector(w: Want, ghost slots: seq<Slot>, ghost base: nat) returns (v: Verdict, i: nat)
      requires Wired() && base + SLOTS <= |slots|
      requires forall j | 0 <= j < SLOTS :: slots[base + j] == SlotAt(dirBuf[..], j)
      ensures v == Hit ==> i < SLOTS && Find(slots, w, base) == Some(base + i)
      ensures v == Stop ==> Find(slots, w, base) == None
      ensures v == Skip ==> Find(slots, w, base) == Find(slots, w, base + SLOTS)
    {
      hide Judge, SlotAt;
      i := 0;
      while i < SLOTS
        invariant 0 <= i <= SLOTS
        invariant Find(slots, w, base) == Find(slots, w, base + i)
      {
        v := JudgeSlot(SlotAt(dirBuf[..], i), w);
        assert slots[base + i] == SlotAt(dirBuf[..], i);
        if v != Skip {
          return;
        }
        i := i + 1;
      }
      v := Skip;
    }

    static lemma SlotsOfSector(d: Disk, lbas: seq<nat>, s: nat)
      requires OnDevice(d, lbas) && s < |lbas|
      ensures forall j | 0 <= j < SLOTS :: Slots(d, lbas)[SLOTS * s + j] == SlotAt(d[lbas[s]], j)
    {
      forall j | 0 <= j < SLOTS
        ensures Slots(d, lbas)[SLOTS * s + j] == SlotAt(d[lbas[s]], j)
      {
        assert (SLOTS * s + j) / SLOTS == s && (SLOTS * s + j) % SLOTS == j;
        SlotIndex(d, lbas, SLOTS * s + j);
      }
    }

    static lemma FindAtEnd(slots: seq<Slot>, w: Want)
      ensures Find(slots, w, |slots|) == None
    {
    }

    static lemma LbaFormula(g: Geo, c: nat, off: nat)
      ensures LbaAt(g, c, off) == DataStart(g) + (c - 2) * g.spc + off
    {
      if c >= 2 {
        ClusterStartFormula(g, c);
      } else if c == 1 {
        assert (c - 2) * g.spc == -1 * g.spc;
      } else {
        assert (c - 2) * g.spc == -2 * g.spc;
      }
    }

    /** The nested search loops: on success slot i of sector s, which is in dirBuf. */
    method FindSlot(w: Want, ghost sh: Shape) returns (found: bool, s: nat, i: nat)
      requires Scannable(sh)
      modifies dirBuf
      ensures Scannable(sh)
      ensures var lbas := LbasOf(geo, sh, cur); var r := Find(DirSlots(geo, disk.blocks, sh, cur), w, 0);
        && found == r.Some?
        && (found ==> s < |lbas| && i < SLOTS && r.value == SLOTS * s + i)
        && (found ==> lbas[s] < |disk.blocks| && dirBuf[..] == disk.blocks[lbas[s]])
    {
      hide Judge, SlotAt, ShapeOk, Find, LbasOf;
      ghost var lbas := LbasOf(geo, sh, cur);
      ghost var slots := DirSlots(geo, disk.blocks, sh, cur);
      FindAtEnd(slots, w);
      s := 0;
      while true
        invariant Scannable(sh) && s <= |lbas|
        invariant Find(slots, w, 0) == Find(slots, w, SLOTS * s)
        decreases |lbas| - s
      {
        var rc := ReadDirSector(s, sh);
        if rc != 0 {
          return false, s, 0;
        }
        SlotsOfSector(disk.blocks, lbas, s);
        var v;
        v, i := FindInSector(w, slots, SLOTS * s);
        if v == Hit {
          return true, s, i;
        }
        if v == Stop {
          return false, s, 0;
        }
        s := s + 1;
      }
    }

    /** Where to write a directory sector back: the walk is repeated on the
        table in memory, without looking for an end mark. */
    method BackLba(s: nat) returns (lba: int)
      requires Wired() && Located() && cur < ENTRIES
      ensures lba == WriteBackLba(geo, Table(), cur, s)
    {
      if cur == 0 {
        return rootStart + s;
      }
      DivisionIs(s, geo.spc);
      var cluster := Followed(s / geo.spc);
      LbaFormula(geo, cluster, s % geo.spc);
      hide LbaAt, Follow;
      lba := dataStart + (cluster - 2) * geo.spc + s % geo.spc;
    }

    method Followed(cidx: nat) returns (cluster: nat)
      requires Wired() && cur < ENTRIES
      ensures cluster == Follow(Table(), cur, cidx)
    {
      hide Get;
      cluster := cur;
      var i := 0;
      while i < cidx
        invariant 0 <= i <= cidx && cluster < ENTRIES
        invariant Follow(Table(), cur, cidx) == Follow(Table(), cluster, cidx - i)
      {
        cluster := NextCluster(fatBuf, cluster);
        i := i + 1;
      }
    }

    method WriteBack(s: nat) returns (rc: int)
      requires Wired() && Located() && cur < ENTRIES
      modifies disk
      ensures var lba := WriteBackLba(geo, Table(), cur, s);
        if 0 <= lba < |old(disk.blocks)| then
          rc == 0 && disk.blocks == Put(old(disk.blocks), Write(lba, dirBuf[..]))
            && disk.log == old(disk.log) + [Write(lba, dirBuf[..])]
        else
          rc == -1 && disk.blocks == old(disk.blocks) && disk.log == old(disk.log)
    {
      assert dirBuf[0..SECTOR_SIZE] == dirBuf[..];
      hide WriteBackLba;
      var lba := BackLba(s);
      rc := disk.Write(lba, dirBuf, 0);
    }

    /** The tail of every changing operation: the directory sector is written
        back and its result returned. */
    method Conclude(s: nat, ghost st: State, ghost ws: seq<Write>, ghost log: seq<Write>) returns (rc: int)
      requires Wired() && Located() && StateOk(geo, st) && st.cur == cur
      requires disk.blocks == Apply(st.disk, ws) && disk.log == log + ws
      modifies disk
      ensures var o := Finish(geo, |st.disk|, cur, Table(), ws, s, dirBuf[..]);
        rc == o.rc && Abs() == After(st, o) && disk.log == log + o.writes
    {
      hide WriteBackLba, Apply, DiskOk, Put;
      rc := WriteBack(s);
      ghost var w := Finish(geo, |st.disk|, cur, Table(), ws, s, dirBuf[..]);
      if rc == 0 {
        ghost var x := Write(WriteBackLba(geo, Table(), cur, s), dirBuf[..]);
        ApplyAppend(st.disk, ws, [x]);
        ApplyOne(Apply(st.disk, ws), x);
        assert log + ws + [x] == log + (ws + [x]);
      }
    }

    lemma LiveScannable(sh: Shape)
      requires Wired() && Located() && Live(geo, Abs(), sh) && Buffer(geo, disk.blocks, TailOf(geo, Table())) == Table()
      ensures Scannable(sh) && RootStart(geo) <= |disk.blocks|
    {
    }

    /** The state between two steps of an operation that began in st. */
    ghost predicate Underway(st: State)
      reads this
    {
      Wired() && Located() && initialized && StateOk(geo, st) && Live(geo, st, shape) && cur == st.cur
    }

    /** Slot i of sector s was found and is in dirBuf. */
    ghost predicate AtSlot(st: State, w: Want, s: nat, i: nat)
      requires Underway(st)
      reads this, dirBuf
    {
      var lbas := LbasOf(geo, shape, cur);
      && i < SLOTS && s < |lbas| && lbas[s] < |st.disk| && dirBuf[..] == st.disk[lbas[s]]
      && Find(DirSlots(geo, st.disk, shape, cur), w, 0) == Some(SLOTS * s + i)
    }

    /** The driver and the device have done what o says, starting in st. */
    ghost predicate Did(st: State, o: Outcome, rc: int, log: seq<Write>)
      reads this, disk, fatBuf
    {
      Valid() && initialized && rc == o.rc && Abs() == After(st, o) && disk.log == log + o.writes
    }

    /** The same, except that the volume need not be well-formed afterwards. */
    ghost predicate Performed(st: State, o: Outcome, rc: int, log: seq<Write>)
      reads this, disk, fatBuf
    {
      && Wired() && Located() && initialized && rc == o.rc
      && Abs() == After(st, o) && disk.log == log + o.writes
    }

    /** FAT copies that agree go on agreeing; a call that saves the table and
        returns 0 makes them agree. */
    twostate predicate CopiesKept(saves: bool, rc: int)
      reads this, disk
    {
      old(CopiesAgree(geo, disk.blocks)) || (saves && rc == 0) ==> CopiesAgree(geo, disk.blocks)
    }

    lemma ValidLive()
      requires Valid() && initialized
      ensures StateOk(geo, Abs()) && Live(geo, Abs(), shape) && RootStart(geo) <= |disk.blocks|
    {
      hide Live;
    }

    lemma ValidWellFormed()
      requires Valid() && initialized
      ensures StateOk(geo, Abs()) && WellFormed(geo, Abs())
    {
      hide Live, StateOk;
    }

    lemma DidIs(st: State, o: Outcome, rc: int, log: seq<Write>)
      requires Did(st, o, rc, log)
      ensures Valid() && rc == o.rc && disk.blocks == After(st, o).disk
    {
      hide Live, StateOk;
    }

    /** Before fat_init every operation fails and does nothing. */
    twostate predicate Refused(rc: int)
      reads this, disk
    {
      !initialized && rc == -1 && disk.blocks == old(disk.blocks) && disk.log == old(disk.log) && cur == old(cur)
    }

    /** Every operation begins by reading the table, which changes nothing else. */
    method Begin() returns (rc: int, ghost st: State)
      requires Valid() && initialized
      modifies fatBuf
      ensures rc == 0 && st == old(Abs()) && Abs() == st && Underway(st) && Table() == TableOf(geo, st)
      ensures Scannable(shape) && RootStart(geo) <= |disk.blocks|
    {
      hide Mounted;
      st := Abs();
      rc := LoadFat();
      assert TailOf(geo, Table()) == old(TailOf(geo, Table()));
      LiveScannable(shape);
    }

    /** The search that follows, on the table and disk the operation began with. */
    method FindEntry(w: Want, ghost st: State) returns (found: bool, s: nat, i: nat)
      requires Underway(st) && Abs() == st && Scannable(shape)
      modifies dirBuf
      ensures Underway(st) && Abs() == st && Scannable(shape)
      ensures found ==> AtSlot(st, w, s, i)
      ensures !found ==> Find(DirSlots(geo, st.disk, shape, cur), w, 0) == None
    {
      hide Mounted, Find, LbasOf, DirSlots, StateOk, ShapeOk;
      found, s, i := FindSlot(w, shape);
    }

    /** An operation that stops without having written anything. */
    lemma Unchanged(st: State)
      requires Underway(st) && Abs() == st
      ensures Valid() && Abs() == After(st, Outcome(-1, [], st.cur, st.tail))
    {
      hide Mounted;
      ApplyNone(st.disk);
    }

    // ---- fat_delete and fat_rmdir

    /** The place of a slot that a search found. */
    static lemma FoundAt(g: Geo, st: State, sh: Shape, w: Want, s: nat, i: nat)
      requires Live(g, st, sh) && i < SLOTS && Find(DirSlots(g, st.disk, sh, st.cur), w, 0) == Some(SLOTS * s + i)
      ensures StateOk(g, st) && s < |LbasOf(g, sh, st.cur)| && LbasOf(g, sh, st.cur)[s] < |st.disk|
      ensures var k := SLOTS * s + i;
        && k / SLOTS == s && k % SLOTS == i && k < |DirSlots(g, st.disk, sh, st.cur)|
        && DirSlots(g, st.disk, sh, st.cur)[k] == SlotAt(st.disk[LbasOf(g, sh, st.cur)[s]], i)
    {
      hide ChainsOk, ChainsApart, DirOk, SlotAt, LbasOf, Judge, Joined, Slots;
      LiveStateOk(g, st, sh);
      SlotIndex(st.disk, LbasOf(g, sh, st.cur), SLOTS * s + i);
    }

    static lemma RemoveIs(g: Geo, st: State, sh: Shape, w: Want, s: nat, i: nat)
      requires Live(g, st, sh) && i < SLOTS && Find(DirSlots(g, st.disk, sh, st.cur), w, 0) == Some(SLOTS * s + i)
      ensures StateOk(g, st) && s < |LbasOf(g, sh, st.cur)| && LbasOf(g, sh, st.cur)[s] < |st.disk|
      ensures var sec := st.disk[LbasOf(g, sh, st.cur)[s]]; var sl := SlotAt(sec, i);
        var u := Freed(TableOf(g, st), FirstCluster(sl));
        && sl == DirSlots(g, st.disk, sh, st.cur)[SLOTS * s + i]
        && Remove(g, st, w) == Finish(g, |st.disk|, st.cur, u, FatWrites(g, u, 0), s, PutSlot(sec, i, Marked(sl)))
    {
      hide ShapeOk, DirOk, Find, Finish, PutSlot, FatWrites, Freed, DirLbas, LbasOf, Buffer, Slots, Judge, SlotAt,
        FirstCluster, Marked;
      FoundAt(g, st, sh, w, s, i);
      FindAgrees(g, st, sh, w);
    }

    static lemma RemoveAbsent(g: Geo, st: State, sh: Shape, w: Want)
      requires Live(g, st, sh) && Find(DirSlots(g, st.disk, sh, st.cur), w, 0) == None
      ensures StateOk(g, st) && Remove(g, st, w) == Outcome(-1, [], st.cur, st.tail)
    {
      FindAgrees(g, st, sh, w);
      hide Mounted, Find;
    }

    static lemma MarkedInPlace(sec: Sector, i: nat)
      requires i < SLOTS
      ensures sec[SLOT_SIZE * i := DELETED] == PutSlot(sec, i, Marked(SlotAt(sec, i)))
    {
    }

    static lemma RemoveShape(g: Geo, st: State, sh: Shape, w: Want, k: nat)
      requires Live(g, st, sh) && StateOk(g, st) && Find(DirSlots(g, st.disk, sh, st.cur), w, 0) == Some(k)
        && !w.Vacant?
      ensures var sh1 := RemovedShape(sh, FirstCluster(DirSlots(g, st.disk, sh, st.cur)[k]));
        var st1 := After(st, Remove(g, st, w)); Live(g, st1, sh1) && StateOk(g, st1)
    {
      assert Removable(g, st, sh, k);
      hide Remove, Mounted, Find, DirSlots, Removable;
      RemoveKeeps(g, st, sh, w, k);
    }

    method RemoveFound(w: Want, s: nat, i: nat, ghost st: State) returns (rc: int)
      requires Underway(st) && Abs() == st && Table() == TableOf(geo, st) && AtSlot(st, w, s, i) && !w.Vacant?
      requires RootStart(geo) <= |disk.blocks|
      modifies this`shape, disk, fatBuf, dirBuf
      ensures Did(st, Remove(geo, st, w), rc, old(disk.log))
    {
      hide Mounted, Remove, Find, Freed, FatWrites, Finish, Apply, Judge, PutSlot, LbasOf, DirSlots;
      RemoveIs(geo, st, shape, w, s, i);
      RemoveShape(geo, st, shape, w, SLOTS * s + i);
      ghost var sec := dirBuf[..];
      var sl := SlotAt(dirBuf[..], i);
      FreeChain(fatBuf, FirstCluster(sl));
      var r := WriteFat();
      MarkedInPlace(sec, i);
      dirBuf[SLOT_SIZE * i] := DELETED;
      assert dirBuf[..] == sec[SLOT_SIZE * i := DELETED];
      rc := Conclude(s, st, FatWrites(geo, Table(), 0), old(disk.log));
      shape := RemovedShape(shape, FirstCluster(sl));
    }

    method RemoveMounted(w: Want, ghost st: State) returns (rc: int)
      requires Valid() && initialized && !w.Vacant? && st == Abs()
      modifies this`shape, disk, fatBuf, dirBuf
      ensures StateOk(geo, st) && Did(st, Remove(geo, st, w), rc, old(disk.log))
    {
      hide Mounted, Remove, Find, Apply, LbasOf, DirSlots, StateOk, AtSlot, Judge;
      var r, st' := Begin();
      if r != 0 {
        return -1;
      }
      var found, s, i := FindEntry(w, st);
      if !found {
        RemoveAbsent(geo, st, shape, w);
        Unchanged(st);
        return -1;
      }
      rc := RemoveFound(w, s, i, st);
    }

    method RemoveEntry(w: Want) returns (rc: int)
      requires Valid() && !w.Vacant?
      modifies this`shape, disk, fatBuf, dirBuf
      ensures Valid() && (old(!initialized) ==> Refused(rc))
      ensures old(initialized) ==> Did(old(Abs()), Remove(geo, old(Abs()), w), rc, old(disk.log))
      ensures CopiesKept(true, rc)
    {
      hide Did, Remove, CopiesAgree, Live, Apply, StateOk, CopiesSafe;
      if !initialized {
        return -1;
      }
      ghost var st, log, sh := Abs(), disk.log, shape;
      ValidLive();
      rc := RemoveMounted(w, st);
      DidIs(st, Remove(geo, st, w), rc, log);
      RemoveSafe(geo, st, sh, w);
      SafeAgree(geo, st.disk, rc, Remove(geo, st, w).writes);
    }

    lemma DidValid(st: State, o: Outcome, rc: int, log: seq<Write>)
      requires Did(st, o, rc, log)
      ensures Valid()
    {
    }

    /** fat_delete */
    method FatDelete(name: Name) returns (rc: int)
      requires Valid()
      modifies this`shape, disk, fatBuf, dirBuf
      ensures Valid() && (old(!initialized) ==> Refused(rc))
      ensures old(initialized) ==> Did(old(Abs()), Delete(geo, old(Abs()), name), rc, old(disk.log))
      ensures CopiesKept(true, rc)
    {
      hide Remove, Did, CopiesAgree;
      rc := RemoveEntry(File(name));
    }

    /** fat_rmdir */
    method FatRmdir(name: Name) returns (rc: int)
      requires Valid()
      modifies this`shape, disk, fatBuf, dirBuf
      ensures Valid() && (old(!initialized) ==> Refused(rc))
      ensures old(initialized) ==> Did(old(Abs()), Rmdir(geo, old(Abs()), name), rc, old(disk.log))
      ensures CopiesKept(true, rc)
    {
      hide Remove, Did, CopiesAgree;
      rc := RemoveEntry(Subdir(name));
    }

    // ---- fat_rename

    static lemma RenameIs(g: Geo, st: State, sh: Shape, oldName: Name, newName: Name, s: nat, i: nat)
      requires Live(g, st, sh) && i < SLOTS
      requires Find(DirSlots(g, st.disk, sh, st.cur), File(oldName), 0) == Some(SLOTS * s + i)
      ensures StateOk(g, st) && s < |LbasOf(g, sh, st.cur)| && LbasOf(g, sh, st.cur)[s] < |st.disk|
      ensures var sec := st.disk[LbasOf(g, sh, st.cur)[s]];
        Rename(g, st, oldName, newName) ==
          Finish(g, |st.disk|, st.cur, TableOf(g, st), [], s, PutSlot(sec, i, Renamed(SlotAt(sec, i), newName)))
    {
      hide ShapeOk, DirOk, Find, Finish, PutSlot, Renamed, DirLbas, LbasOf, Buffer, Slots, Judge, SlotAt;
      FoundAt(g, st, sh, File(oldName), s, i);
      FindAgrees(g, st, sh, File(oldName));
    }

    static lemma RenameAbsent(g: Geo, st: State, sh: Shape, oldName: Name, newName: Name)
      requires Live(g, st, sh) && Find(DirSlots(g, st.disk, sh, st.cur), File(oldName), 0) == None
      ensures StateOk(g, st) && Rename(g, st, oldName, newName) == Outcome(-1, [], st.cur, st.tail)
    {
      FindAgrees(g, st, sh, File(oldName));
      hide Mounted, Find;
    }

    static lemma RenameShape(g: Geo, st: State, sh: Shape, oldName: Name, newName: Name, k: nat)
      requires Live(g, st, sh) && StateOk(g, st) && Find(DirSlots(g, st.disk, sh, st.cur), File(oldName), 0) == Some(k)
      ensures var st1 := After(st, Rename(g, st, oldName, newName)); Live(g, st1, sh) && StateOk(g, st1)
    {
      hide Rename, Mounted, Find, DirSlots;
      RenameKeeps(g, st, sh, oldName, newName, k);
      LiveStateOk(g, After(st, Rename(g, st, oldName, newName)), sh);
    }

    static lemma RenamedInPlace(sec: Sector, i: nat, raw: RawName, after: Sector)
      requires i < SLOTS
      requires forall k | 0 <= k < SECTOR_SIZE ::
        after[k] == if SLOT_SIZE * i <= k < SLOT_SIZE * i + 11 then raw[k - SLOT_SIZE * i] else sec[k]
      ensures after == PutSlot(sec, i, raw + SlotAt(sec, i)[11..])
    {
      var sl: Slot := raw + SlotAt(sec, i)[11..];
      assert forall k | 0 <= k < SECTOR_SIZE :: after[k] == PutSlot(sec, i, sl)[k];
    }

    method RenameFoundSlot(oldName: Name, newName: Name, raw: RawName, s: nat, i: nat, ghost st: State)
        returns (rc: int)
      requires Underway(st) && Abs() == st && Table() == TableOf(geo, st) && AtSlot(st, File(oldName), s, i)
      requires raw == Split83(newName)
      modifies disk, dirBuf
      ensures Did(st, Rename(geo, st, oldName, newName), rc, old(disk.log))
    {
      hide Mounted, Rename, Find, Finish, Judge, PutSlot, LbasOf, DirSlots, Split83;
      RenameIs(geo, st, shape, oldName, newName, s, i);
      RenameShape(geo, st, shape, oldName, newName, SLOTS * s + i);
      ghost var sec := dirBuf[..];
      forall k | 0 <= k < 11 {
        dirBuf[SLOT_SIZE * i + k] := raw[k];
      }
      RenamedInPlace(sec, i, raw, dirBuf[..]);
      ApplyNone(st.disk);
      hide Apply;
      assert old(disk.log) + [] == old(disk.log);
      rc := Conclude(s, st, [], old(disk.log));
    }

    method RenameMounted(oldName: Name, newName: Name, raw: RawName, ghost st: State) returns (rc: int)
      requires Valid() && initialized && st == Abs() && raw == Split83(newName)
      modifies disk, fatBuf, dirBuf
      ensures StateOk(geo, st) && Did(st, Rename(geo, st, oldName, newName), rc, old(disk.log))
    {
      hide Mounted, Rename, Find, Apply, LbasOf, DirSlots, StateOk, AtSlot, Split83;
      var r, st' := Begin();
      if r != 0 {
        return -1;
      }
      var found, s, i := FindEntry(File(oldName), st);
      if !found {
        RenameAbsent(geo, st, shape, oldName, newName);
        Unchanged(st);
        return -1;
      }
      rc := RenameFoundSlot(oldName, newName, raw, s, i, st);
    }

    /** fat_rename */
    method FatRename(oldName: Name, newName: Name) returns (rc: int)
      requires Valid()
      modifies disk, fatBuf, dirBuf
      ensures Valid() && (old(!initialized) ==> Refused(rc))
      ensures old(initialized) ==> Did(old(Abs()), Rename(geo, old(Abs()), oldName, newName), rc, old(disk.log))
      ensures CopiesKept(false, rc)
    {
      hide Did, Rename, Split83, CopiesAgree, Live, Apply, StateOk;
      if !initialized {
        return -1;
      }
      ghost var st, log := Abs(), disk.log;
      ValidWellFormed();
      var wantName, wantExt := new Byte[8], new Byte[3];
      SplitInto(newName, wantName, wantExt);
      rc := RenameMounted(oldName, newName, wantName[..] + wantExt[..], st);
      DidIs(st, Rename(geo, st, oldName, newName), rc, log);
      PerformCopies(geo, st, RenameOp(oldName, newName));
    }

    // ---- fat_cd

    static lemma CdIs(g: Geo, st: State, sh: Shape, name: Name, found: bool, s: nat, i: nat)
      requires Live(g, st, sh) && name != [DOT, DOT]
      requires var r := Find(DirSlots(g, st.disk, sh, st.cur), Subdir(name), 0);
        if found then i < SLOTS && r == Some(SLOTS * s + i) else r == None
      ensures StateOk(g, st) && (found ==> s < |LbasOf(g, sh, st.cur)| && LbasOf(g, sh, st.cur)[s] < |st.disk|)
      ensures Cd(g, st, name) ==
        if found then Outcome(0, [], FirstCluster(SlotAt(st.disk[LbasOf(g, sh, st.cur)[s]], i)), st.tail)
          else Outcome(-1, [], st.cur, st.tail)
    {
      if found {
        FoundAt(g, st, sh, Subdir(name), s, i);
      }
      hide Mounted, Find, FirstCluster, DirLbas, LbasOf, Buffer, Slots;
      FindAgrees(g, st, sh, Subdir(name));
    }

    static lemma CdShape(g: Geo, st: State, sh: Shape, name: Name)
      requires Live(g, st, sh)
      ensures StateOk(g, st) && Live(g, After(st, Cd(g, st, name)), sh) && StateOk(g, After(st, Cd(g, st, name)))
    {
      hide Cd, Mounted;
      CdKeeps(g, st, sh, name);
      LiveStateOk(g, After(st, Cd(g, st, name)), sh);
    }

    static lemma CdUp(g: Geo, st: State)
      requires StateOk(g, st)
      ensures Cd(g, st, [DOT, DOT]) == Outcome(0, [], 0, st.tail)
    {
    }

    method SetDir(c: nat, ghost st: State)
      requires Wired() && Located() && initialized && Abs() == st
      requires var o := Outcome(0, [], c, st.tail); StateOk(geo, After(st, o)) && Live(geo, After(st, o), shape)
      modifies this`cur
      ensures Valid() && initialized && Abs() == After(st, Outcome(0, [], c, st.tail))
    {
      hide Live, StateOk, Apply;
      ApplyNone(st.disk);
      cur := c;
      assert Abs() == After(st, Outcome(0, [], c, st.tail));
    }

    method CdMounted(name: Name, ghost st: State) returns (rc: int)
      requires Valid() && initialized && st == Abs() && name != [DOT, DOT]
      modifies this`cur, fatBuf, dirBuf
      ensures StateOk(geo, st) && Did(st, Cd(geo, st, name), rc, old(disk.log))
    {
      hide Mounted, Cd, Find, DirSlots, StateOk, FirstCluster, Apply, SlotAt, After, LbasOf;
      var r, st' := Begin();
      if r != 0 {
        return -1;
      }
      var found, s, i := FindEntry(Subdir(name), st);
      CdIs(geo, st, shape, name, found, s, i);
      assert disk.log + [] == disk.log;
      if !found {
        Unchanged(st);
        return -1;
      }
      CdShape(geo, st, shape, name);
      SetDir(FirstCluster(SlotAt(dirBuf[..], i)), st);
      rc := 0;
    }

    /** fat_cd, without the text of the path. */
    method FatCd(name: Name) returns (rc: int)
      requires Valid()
      modifies this`cur, fatBuf, dirBuf
      ensures Valid() && (old(!initialized) ==> Refused(rc))
      ensures old(initialized) ==> Did(old(Abs()), Cd(geo, old(Abs()), name), rc, old(disk.log))
    {
      hide Mounted, Cd, StateOk, Apply, After;
      if !initialized {
        return -1;
      }
      ghost var st := Abs();
      if |name| == 2 && name[0] == DOT && name[1] == DOT {
        assert name == [DOT, DOT];
        CdUp(geo, st);
        CdShape(geo, st, shape, name);
        SetDir(0, st);
        assert disk.log + [] == disk.log;
        return 0;
      }
      rc := CdMounted(name, st);
      DidValid(st, Cd(geo, st, name), rc, old(disk.log));
    }

    // ---- fat_read

    /** The first n bytes of those sectors, or all of them, have replaced the
        beginning of a buffer that was before. */
    static ghost predicate Copied(d: Disk, lbas: seq<nat>, n: nat, before: seq<Byte>, after: seq<Byte>, have: nat) {
      && OnDevice(d, lbas) && have == Min(SECTOR_SIZE * |lbas|, n)
      && have <= |after| == |before| && after[..have] == Contents(d, lbas)[..have] && after[have..] == before[have..]
    }

    static lemma NothingCopied(d: Disk, n: nat, buf: seq<Byte>)
      ensures Copied(d, [], n, buf, buf, 0)
    {
    }

    static lemma CopiedMore(d: Disk, lbas: seq<nat>, lba: nat, n: nat, before: seq<Byte>, mid: seq<Byte>, have: nat,
        k: nat, after: seq<Byte>)
      requires Copied(d, lbas, n, before, mid, have) && lba < |d| && k == Min(SECTOR_SIZE, n - have)
        && have + k <= |mid|
      requires have < n || lbas == []
      requires after == mid[..have] + d[lba][..k] + mid[have + k..]
      ensures Copied(d, lbas + [lba], n, before, after, have + k)
    {
      ContentsAppend(d, lbas, [lba]);
      assert Contents(d, [lba]) == d[lba] + Contents(d, []);
      assert after[..have + k] == mid[..have] + d[lba][..k];
      assert after[have + k..] == mid[have..][k..] == before[have..][k..];
    }

    /** How far a copy has come. */
    static lemma CopiedSize(d: Disk, lbas: seq<nat>, n: nat, before: seq<Byte>, after: seq<Byte>, have: nat)
      requires Copied(d, lbas, n, before, after, have)
      ensures have <= n && OnDevice(d, lbas)
      ensures |lbas| < SectorsFor(n) ==> have < n || lbas == []
      ensures lbas != [] ==> (have >= n <==> |lbas| >= SectorsFor(n))
    {
    }

    static lemma CopiedTail(d: Disk, lbas: seq<nat>, n: nat, before: seq<Byte>, after: seq<Byte>, have: nat, cap: nat)
      requires Copied(d, lbas, n, before, after, have) && n <= cap <= |before|
      ensures |after| == |before| && after[cap..] == before[cap..]
    {
      assert after[cap..] == after[have..][cap - have..] && before[cap..] == before[have..][cap - have..];
    }

    static lemma Spliced(before: seq<Byte>, have: nat, mid: seq<Byte>, after: seq<Byte>)
      requires have + |mid| <= |before| == |after|
      requires forall j | 0 <= j < |after| :: after[j] == if have <= j < have + |mid| then mid[j - have] else before[j]
      ensures after == before[..have] + mid + before[have + |mid|..]
    {
    }

    /** The copy of one sector, cut at the end of the file and of the buffer. */
    method CopySector(size: nat, cap: nat, have: nat, buf: array<Byte>) returns (toCopy: nat)
      requires Wired() && buf != sectorBuf && cap <= buf.Length && have <= Min(size, cap)
      modifies buf
      ensures toCopy == Min(SECTOR_SIZE, Min(size, cap) - have)
      ensures buf[..] == old(buf[..have]) + sectorBuf[..toCopy] + old(buf[have + toCopy..])
    {
      toCopy := SECTOR_SIZE;
      if have + toCopy > size {
        toCopy := size - have;
      }
      if have + toCopy > cap {
        toCopy := cap - have;
      }
      ghost var before := buf[..];
      var k := 0;
      while k < toCopy
        invariant 0 <= k <= toCopy
        invariant forall j | 0 <= j < buf.Length :: buf[j] == if have <= j < have + k then sectorBuf[j - have]
          else before[j]
      {
        buf[have + k] := sectorBuf[k];
        k := k + 1;
      }
      Spliced(before, have, sectorBuf[..toCopy], buf[..]);
    }

    method ReadSector(lba: nat, size: nat, cap: nat, have: nat, buf: array<Byte>, ghost lbas: seq<nat>,
        ghost before: seq<Byte>)
      returns (rc: int, got: nat)
      requires Wired() && buf != sectorBuf && cap <= buf.Length
      requires Copied(disk.blocks, lbas, Min(size, cap), before, buf[..], have) && (have < Min(size, cap) || lbas == [])
      modifies buf, sectorBuf
      ensures rc == if lba < |disk.blocks| then 0 else -1
      ensures Copied(disk.blocks, if rc == 0 then lbas + [lba] else lbas, Min(size, cap), before, buf[..], got)
    {
      ghost var mid := buf[..];
      rc := disk.Read(lba, sectorBuf, 0);
      assert buf[..] == mid;
      got := have;
      if rc == 0 {
        var toCopy := CopySector(size, cap, have, buf);
        assert sectorBuf[..] == sectorBuf[0..SECTOR_SIZE];
        CopiedMore(disk.blocks, lbas, lba, Min(size, cap), before, mid, have, toCopy, buf[..]);
        got := have + toCopy;
      }
    }

    static lemma OneMore(done: seq<nat>, cl: seq<nat>, s: nat)
      requires s < |cl|
      ensures done + cl[..s + 1] == done + cl[..s] + [cl[s]]
    {
    }

    static lemma NotOnDevice(d: Disk, lbas: seq<nat>, s: nat)
      requires s < |lbas| && lbas[s] >= |d|
      ensures !OnDevice(d, lbas)
    {
    }

    static ghost function ClusterSectors(g: Geo, c: nat): (r: seq<nat>)
      requires c >= 2
      ensures r == ClusterLbas(g, c) && |r| == g.spc
      ensures forall k | 0 <= k < |r| :: r[k] == ClusterStart(g, c) + k
    {
      ClusterLbas(g, c)
    }

    /** The address of a cluster's first sector, as every caller computes it. */
    method SectorOf(cluster: nat) returns (lba: nat)
      requires Located() && cluster >= 2
      ensures lba == ClusterStart(geo, cluster)
    {
      ClusterStartFormula(geo, cluster);
      lba := dataStart + (cluster - 2) * geo.spc;
    }

    /** The loop over the sectors of one cluster; full tells that the wanted
        bytes are complete. */
    method ReadCluster(lba: nat, size: nat, cap: nat, have: nat, buf: array<Byte>,
                       ghost done: seq<nat>, ghost cl: seq<nat>, ghost need: nat, ghost before: seq<Byte>)
      returns (rc: int, full: bool, got: nat)
      requires Wired() && Located() && buf != sectorBuf && cap <= buf.Length && need == SectorsFor(Min(size, cap))
      requires |cl| == geo.spc && forall k | 0 <= k < |cl| :: cl[k] == lba + k
      requires Copied(disk.blocks, done, Min(size, cap), before, buf[..], have) && |done| < need
      modifies buf, sectorBuf
      ensures rc == 0 || (rc == -1 && buf[..][cap..] == before[cap..])
      ensures rc != 0 ==> !OnDevice(disk.blocks, First(cl, need - |done|))
      ensures rc == 0 ==> Copied(disk.blocks, done + First(cl, need - |done|), Min(size, cap), before, buf[..], got)
      ensures rc == 0 ==> (full <==> |done| + geo.spc >= need)
    {
      hide Copied, OnDevice, SectorsFor;
      ghost var n := Min(size, cap);
      got := have;
      full := false;
      assert done + cl[..0] == done;
      CopiedSize(disk.blocks, done, n, before, buf[..], have);
      var s := 0;
      while s < geo.spc
        invariant 0 <= s <= geo.spc && |done| + s < need
        invariant Copied(disk.blocks, done + cl[..s], n, before, buf[..], got)
      {
        CopiedSize(disk.blocks, done + cl[..s], n, before, buf[..], got);
        rc, got := ReadSector(lba + s, size, cap, got, buf, done + cl[..s], before);
        if rc != 0 {
          CopiedTail(disk.blocks, done + cl[..s], n, before, buf[..], got, cap);
          NotOnDevice(disk.blocks, First(cl, need - |done|), s);
          return;
        }
        OneMore(done, cl, s);
        CopiedSize(disk.blocks, done + cl[..s + 1], n, before, buf[..], got);
        s := s + 1;
        if got >= size || got >= cap {
          full := true;
          assert First(cl, need - |done|) == cl[..s];
          return;
        }
      }
      rc := 0;
      assert First(cl, need - |done|) == cl[..s];
    }

    /** What the caller of a read whose result is r finds: the data, and nothing
        changed behind it, in particular nothing from cap on. */
    static predicate Delivered(r: ReadResult, rc: int, before: seq<Byte>, after: seq<Byte>, cap: nat) {
      && |after| == |before| && cap <= |before| && after[cap..] == before[cap..]
      && match r
         case NotRead => rc == -1
         case Read(data) => rc == |data| && rc <= |after| && after[..rc] == data && after[rc..] == before[rc..]
    }

    static lemma NothingDelivered(buf: seq<Byte>, cap: nat)
      requires cap <= |buf|
      ensures Delivered(Read([]), 0, buf, buf, cap)
    {
    }

    static lemma FailureDelivered(before: seq<Byte>, after: seq<Byte>, cap: nat)
      requires |after| == |before| && cap <= |before| && after[cap..] == before[cap..]
      ensures Delivered(NotRead, -1, before, after, cap)
    {
    }

    static lemma CopiedAll(g: Geo, d: Disk, t: Table, first: nat, size: nat, cap: nat, before: seq<Byte>,
        after: seq<Byte>, got: nat)
      requires first >= 2 && size > 0 && cap <= |before|
      requires Copied(d, FileLbas(g, t, first, SectorsFor(Min(size, cap))), Min(size, cap), before, after, got)
      ensures Delivered(ReadChain(g, d, t, first, size, cap), got, before, after, cap)
    {
      hide FileLbas;
      CopiedTail(d, FileLbas(g, t, first, SectorsFor(Min(size, cap))), Min(size, cap), before, after, got, cap);
    }

    static lemma CopyFails(g: Geo, d: Disk, t: Table, first: nat, size: nat, cap: nat)
      requires first >= 2 && size > 0 && !OnDevice(d, FileLbas(g, t, first, SectorsFor(Min(size, cap))))
      ensures ReadChain(g, d, t, first, size, cap) == NotRead
    {
      hide FileLbas;
    }

    /** The sectors of done were read, and all is what there is to read. */
    static predicate Pending(g: Geo, t: Table, c: nat, done: seq<nat>, need: nat, all: seq<nat>) {
      |done| < need && done + FileLbas(g, t, c, need - |done|) == all
    }

    static lemma PendingFirst(g: Geo, t: Table, c: nat, need: nat)
      requires need > 0
      ensures Pending(g, t, c, [], need, FileLbas(g, t, c, need))
    {
      hide FileLbas;
      assert [] + FileLbas(g, t, c, need) == FileLbas(g, t, c, need);
    }

    static lemma PendingSize(g: Geo, t: Table, c: nat, done: seq<nat>, need: nat, all: seq<nat>)
      requires Pending(g, t, c, done, need, all)
      ensures |done| < need
    {
    }

    static lemma PendingLast(g: Geo, t: Table, c: nat, done: seq<nat>, need: nat, all: seq<nat>)
      requires Pending(g, t, c, done, need, all) && (c < 2 || c > 0xFEF)
      ensures done == all
    {
      FileLbasEnd(g, t, c, need - |done|);
      hide FileLbas;
      assert done + [] == done;
    }

    /** One round of the loop over the clusters: the sectors of cluster c come
        first among those that are still wanted. */
    static lemma Round(g: Geo, d: Disk, t: Table, c: nat, done: seq<nat>, need: nat, all: seq<nat>, part: seq<nat>)
      requires GeoOk(g) && 2 <= c <= 0xFEF && Pending(g, t, c, done, need, all)
      requires part == First(ClusterLbas(g, c), need - |done|)
      ensures !OnDevice(d, part) ==> !OnDevice(d, all)
      ensures |done + part| > |done|
      ensures if |done| + g.spc >= need then done + part == all else Pending(g, t, Get(t, c), done + part, need, all)
    {
      hide FileLbas, Get;
      FileLbasStep(g, t, c, need - |done|);
      assert |ClusterLbas(g, c)| == g.spc >= 1;
      hide ClusterLbas, GeoOk;
      var rest := if need - |done| > g.spc then FileLbas(g, t, Get(t, c), need - |done| - g.spc) else [];
      assert all == done + part + rest;
      if !OnDevice(d, part) {
        var i :| 0 <= i < |part| && part[i] >= |d|;
        assert all[|done| + i] == part[i];
      }
    }

    /** The loop over the clusters of a file; no assumption on the table. */
    method ReadData(first: nat, size: nat, cap: nat, buf: array<Byte>) returns (rc: int)
      requires Wired() && Located() && buf != sectorBuf && buf != fatBuf && cap <= buf.Length
      modifies buf, sectorBuf
      ensures Delivered(ReadChain(geo, disk.blocks, Table(), first, size, cap), rc, old(buf[..]), buf[..], cap)
    {
      if first < 2 || size == 0 {
        NothingDelivered(buf[..], cap);
        return 0;
      }
      hide ReadChain, SectorsFor, Delivered;
      rc := ReadClusters(first, size, cap, buf, SectorsFor(Min(size, cap)), buf[..]);
    }

    method ReadClusters(first: nat, size: nat, cap: nat, buf: array<Byte>, ghost need: nat, ghost before: seq<Byte>)
        returns (rc: int)
      requires Wired() && Located() && buf != sectorBuf && buf != fatBuf && cap <= buf.Length
      requires first >= 2 && size > 0 && need == SectorsFor(Min(size, cap)) && before == buf[..]
      modifies buf, sectorBuf
      ensures Delivered(ReadChain(geo, disk.blocks, Table(), first, size, cap), rc, before, buf[..], cap)
    {
      ghost var n, t, done: seq<nat> := Min(size, cap), Table(), [];
      ghost var all := FileLbas(geo, t, first, need);
      var cluster: nat, got: nat, full := first, 0, false;
      NothingCopied(disk.blocks, n, buf[..]);
      PendingFirst(geo, t, first, need);
      hide Copied, ReadChain, FileLbas, OnDevice, SectorsFor, Get, First, ClusterLbas, ClusterStart, Min, Pending,
        Delivered;
      while 2 <= cluster <= 0xFEF
        invariant Table() == t && !full
        invariant Copied(disk.blocks, done, n, before, buf[..], got)
        invariant Pending(geo, t, cluster, done, need, all)
        decreases need - |done|
      {
        PendingSize(geo, t, cluster, done, need, all);
        ghost var part := First(ClusterLbas(geo, cluster), need - |done|);
        Round(geo, disk.blocks, t, cluster, done, need, all, part);
        var lba := SectorOf(cluster);
        rc, full, got := ReadCluster(lba, size, cap, got, buf, done, ClusterSectors(geo, cluster), need, before);
        if rc != 0 {
          CopyFails(geo, disk.blocks, t, first, size, cap);
          FailureDelivered(before, buf[..], cap);
          return;
        }
        done := done + part;
        if full {
          break;
        }
        cluster := NextCluster(fatBuf, cluster);
        if cluster < 2 {
          break;
        }
      }
      if !full {
        PendingLast(geo, t, cluster, done, need, all);
      }
      CopiedAll(geo, disk.blocks, t, first, size, cap, before, buf[..], got);
      rc := got;
    }

    static lemma ReadIs(g: Geo, st: State, sh: Shape, name: Name, cap: nat, found: bool, s: nat, i: nat)
      requires Live(g, st, sh)
      requires var r := Find(DirSlots(g, st.disk, sh, st.cur), File(name), 0);
        if found then i < SLOTS && r == Some(SLOTS * s + i) else r == None
      ensures StateOk(g, st) && (found ==> s < |LbasOf(g, sh, st.cur)| && LbasOf(g, sh, st.cur)[s] < |st.disk|)
      ensures ReadFile(g, st, name, cap) ==
        if found then ReadSlot(g, st.disk, TableOf(g, st), SlotAt(st.disk[LbasOf(g, sh, st.cur)[s]], i), cap)
          else NotRead
    {
      if found {
        FoundAt(g, st, sh, File(name), s, i);
      }
      hide ChainsOk, ChainsApart, DirOk, Find, ReadFile, ReadSlot, TableOf, LbasOf, Slots;
      ReadAgrees(g, st, sh, name, cap);
    }

    static lemma NothingRead(buf: seq<Byte>, cap: nat)
      requires cap <= |buf|
      ensures Delivered(NotRead, -1, buf, buf, cap)
    {
    }

    method ReadMounted(name: Name, buf: array<Byte>, cap: nat, ghost st: State) returns (rc: int)
      requires Valid() && initialized && st == Abs()
      requires buf != fatBuf && buf != dirBuf && buf != sectorBuf && cap <= buf.Length
      modifies fatBuf, dirBuf, sectorBuf, buf
      ensures Valid() && Abs() == st && StateOk(geo, st)
      ensures Delivered(ReadFile(geo, st, name, cap), rc, old(buf[..]), buf[..], cap)
    {
      hide Mounted, ReadFile, Find, DirSlots, FirstCluster, FileSize, ReadChain, SlotAt, LbasOf, Delivered, StateOk;
      var r, st' := Begin();
      if r != 0 {
        return -1;
      }
      var found, s, i := FindEntry(File(name), st);
      ReadIs(geo, st, shape, name, cap, found, s, i);
      assert buf[..] == old(buf[..]);
      if !found {
        NothingRead(buf[..], cap);
        return -1;
      }
      var sl := SlotAt(dirBuf[..], i);
      rc := ReadData(FirstCluster(sl), FileSize(sl), cap, buf);
    }

    /** fat_read */
    method FatRead(name: Name, buf: array<Byte>, cap: nat) returns (rc: int)
      requires Valid()
      requires buf != fatBuf && buf != dirBuf && buf != sectorBuf && cap <= buf.Length
      modifies fatBuf, dirBuf, sectorBuf, buf
      ensures Valid() && (!initialized ==> rc == -1 && buf[..] == old(buf[..]))
      ensures initialized ==>
        Abs() == old(Abs()) && Delivered(ReadFile(geo, old(Abs()), name, cap), rc, old(buf[..]), buf[..], cap)
    {
      if !initialized {
        return -1;
      }
      hide ReadFile, Delivered;
      rc := ReadMounted(name, buf, cap, Abs());
    }

    // ---- fat_write

    /** One sector of the data in a cleared buffer. */
    method FillSector(data: seq<Byte>, offset: nat, toCopy: nat) returns (buf: array<Byte>)
      requires toCopy <= SECTOR_SIZE && offset + toCopy <= |data|
      ensures fresh(buf) && buf.Length == SECTOR_SIZE && buf[..] == Padded(data[offset..offset + toCopy])
    {
      buf := new Byte[SECTOR_SIZE](_ => 0);
      var k := 0;
      while k < toCopy
        invariant 0 <= k <= toCopy
        invariant forall j | 0 <= j < SECTOR_SIZE :: buf[j] == if j < k then data[offset + j] else 0
      {
        buf[k] := data[offset + k];
        k := k + 1;
      }
    }

    /** What is left to write. */
    static function Left(data: seq<Byte>, left: nat): seq<Byte>
      requires left <= |data|
    {
      data[|data| - left..]
    }

    static lemma LeftLess(data: seq<Byte>, left: nat, toCopy: nat)
      requires 0 < left <= |data| && toCopy == Min(left, SECTOR_SIZE)
      ensures Left(data, left - toCopy) == Rest(Left(data, left))
      ensures data[|data| - left..|data| - left + toCopy] == Take(Left(data, left), SECTOR_SIZE)
    {
    }

    static lemma LeftNone(data: seq<Byte>, left: nat)
      requires left <= |data|
      ensures left == 0 <==> Left(data, left) == []
    {
    }

    /** done was written, and more would be written if the device had room. */
    static ghost predicate Writing(start: nat, count: nat, all: seq<Byte>, done: seq<Write>, k: nat, rest: seq<Byte>) {
      && k <= count && |done| == k
      && SectorWrites(start, count, all) == done + SectorWrites(start + k, count - k, rest)
      && AfterSectors(all, count) == AfterSectors(rest, count - k)
    }

    static lemma WritingStarts(start: nat, count: nat, all: seq<Byte>)
      ensures Writing(start, count, all, [], 0, all)
    {
    }

    static lemma WritingStep(start: nat, count: nat, all: seq<Byte>, done: seq<Write>, k: nat, rest: seq<Byte>)
      requires Writing(start, count, all, done, k, rest) && k < count && rest != []
      ensures var w := Write(start + k, Padded(Take(rest, SECTOR_SIZE)));
        && Writing(start, count, all, done + [w], k + 1, Rest(rest))
        && |SectorWrites(start, count, all)| > k && SectorWrites(start, count, all)[..k] == done
    {
      var w := Write(start + k, Padded(Take(rest, SECTOR_SIZE)));
      var more := SectorWrites(start + k + 1, count - k - 1, Rest(rest));
      assert done + ([w] + more) == done + [w] + more;
    }

    static lemma WritingEnds(start: nat, count: nat, all: seq<Byte>, done: seq<Write>, k: nat, rest: seq<Byte>)
      requires Writing(start, count, all, done, k, rest) && (k == count || rest == [])
      ensures SectorWrites(start, count, all) == done && AfterSectors(all, count) == rest
    {
      assert done + [] == done;
    }

    static lemma ApplyLast(d: Disk, ws: seq<Write>, w: Write)
      ensures Apply(d, ws + [w]) == Put(Apply(d, ws), w)
    {
      ApplyAppend(d, ws, [w]);
      ApplyOne(Apply(d, ws), w);
    }

    /** How many sectors from start on the device has. */
    static function Room(start: nat, n: nat): nat { if start < n then n - start else 0 }

    static lemma RoomEnds(start: nat, n: nat, k: nat)
      requires start + k >= n && (k > 0 ==> start + k - 1 < n)
      ensures Room(start, n) == k
    {
    }

    static lemma RoomHolds(start: nat, n: nat, k: nat)
      requires k > 0 ==> start + k - 1 < n
      ensures k <= Room(start, n)
    {
    }

    /** The loop over the sectors of one new cluster. */
    method WriteCluster(lba: nat, data: seq<Byte>, bytesLeft: nat) returns (rc: int, left: nat)
      requires Located() && 0 < bytesLeft <= |data|
      modifies disk
      ensures left <= |data| && (rc == 0 || rc == -1)
      ensures var ws := SectorWrites(lba, geo.spc, Left(data, bytesLeft)); var room := Room(lba, |old(disk.blocks)|);
        && (rc == 0 <==> |ws| <= room)
        && disk.blocks == Apply(old(disk.blocks), if rc == 0 then ws else ws[..room])
        && disk.log == old(disk.log) + (if rc == 0 then ws else ws[..room])
        && (rc == 0 ==> Left(data, left) == AfterSectors(Left(data, bytesLeft), geo.spc))
    {
      hide SectorWrites, AfterSectors, Writing, Padded, Apply, Take, Rest, Room, Left;
      ghost var all, d := Left(data, bytesLeft), disk.blocks;
      ghost var done: seq<Write> := [];
      left := bytesLeft;
      WritingStarts(lba, geo.spc, all);
      ApplyNone(d);
      var offset := |data| - bytesLeft;
      var sct := 0;
      while sct < geo.spc
        invariant 0 <= sct <= geo.spc && 0 < left <= |data| && offset == |data| - left
        invariant Writing(lba, geo.spc, all, done, sct, Left(data, left))
        invariant disk.blocks == Apply(d, done) && disk.log == old(disk.log) + done
        invariant sct > 0 ==> lba + sct - 1 < |d|
      {
        var toCopy := if left < SECTOR_SIZE then left else SECTOR_SIZE;
        LeftLess(data, left, toCopy);
        LeftNone(data, left);
        WritingStep(lba, geo.spc, all, done, sct, Left(data, left));
        var buf := FillSector(data, offset, toCopy);
        assert buf[0..SECTOR_SIZE] == buf[..];
        rc := disk.Write(lba + sct, buf, 0);
        if rc != 0 {
          RoomEnds(lba, |d|, sct);
          return;
        }
        ghost var w := Write(lba + sct, buf[..]);
        ApplyLast(d, done, w);
        done := done + [w];
        left := left - toCopy;
        offset := offset + toCopy;
        sct := sct + 1;
        if left == 0 {
          break;
        }
      }
      LeftNone(data, left);
      WritingEnds(lba, geo.spc, all, done, sct, Left(data, left));
      RoomHolds(lba, |d|, sct);
      rc := 0;
    }

    /** The loop took the clusters ch and wrote ws; with the table t and the
        data rest it goes on behind prev. */
    static ghost predicate Allocating(g: Geo, n: nat, whole: Alloc, ch: seq<nat>, ws: seq<Write>, t: Table, prev: nat,
        rest: seq<Byte>)
      requires GeoOk(g)
    {
      && prev < ENTRIES
      && (prev == 0 <==> ch == []) && (ch != [] ==> ch[0] != 0)
      && var r := AllocChain(g, n, t, prev, rest);
      whole == Alloc(r.ok, r.table, ch + r.chain, ws + r.writes)
    }

    static lemma AllocatingStarts(g: Geo, n: nat, t: Table, data: seq<Byte>)
      requires GeoOk(g)
      ensures Allocating(g, n, AllocChain(g, n, t, 0, data), [], [], t, 0, data)
    {
      hide AllocChain;
    }

    static lemma AllocatingStops(g: Geo, n: nat, whole: Alloc, ch: seq<nat>, ws: seq<Write>, t: Table, prev: nat,
        rest: seq<Byte>)
      requires GeoOk(g) && Allocating(g, n, whole, ch, ws, t, prev, rest)
      ensures rest == [] ==> whole == Alloc(true, t, ch, ws)
      ensures rest != [] && FindFree(t, 2, TotalClusters(g) + 2) == 0 ==> whole == Alloc(false, t, ch, ws)
    {
      assert ch + [] == ch && ws + [] == ws;
    }

    static lemma AllocatingCluster(g: Geo, n: nat, whole: Alloc, ch: seq<nat>, ws: seq<Write>, t: Table, prev: nat,
        rest: seq<Byte>, c: nat)
      requires GeoOk(g) && Allocating(g, n, whole, ch, ws, t, prev, rest) && rest != []
      requires c == FindFree(t, 2, TotalClusters(g) + 2) && c != 0
      ensures var u := Linked(t, prev, c); var sw := SectorWrites(ClusterStart(g, c), g.spc, rest);
        var room := Room(ClusterStart(g, c), n);
        if |sw| > room then whole == Alloc(false, u, ch + [c], ws + sw[..room])
        else Allocating(g, n, whole, ch + [c], ws + sw, u, c, AfterSectors(rest, g.spc))
    {
      hide SectorWrites, AfterSectors, Linked, ClusterStart, FindFree;
      var u, sw := Linked(t, prev, c), SectorWrites(ClusterStart(g, c), g.spc, rest);
      var room := Room(ClusterStart(g, c), n);
      if |sw| <= room {
        var more := AllocChain(g, n, u, c, AfterSectors(rest, g.spc));
        assert ch + ([c] + more.chain) == ch + [c] + more.chain;
        assert ws + (sw + more.writes) == ws + sw + more.writes;
      }
    }

    /** Taking cluster c: it is linked behind prev and marked as the end. */
    method LinkCluster(prev: nat, c: nat)
      requires Wired() && prev < ENTRIES && c < ENTRIES
      modifies fatBuf
      ensures Table() == Linked(old(Table()), prev, c)
    {
      hide Set;
      if prev != 0 {
        SetCluster(fatBuf, prev, c);
      }
      SetCluster(fatBuf, c, END_MARK);
    }

    /** The allocation loop: clusters are taken, linked and filled one by one. */
    method Allocate(data: seq<Byte>) returns (rc: int, first: nat)
      requires Wired() && Located()
      modifies disk, fatBuf
      ensures var r := AllocChain(geo, |old(disk.blocks)|, old(Table()), 0, data);
        && Table() == r.table && disk.blocks == Apply(old(disk.blocks), r.writes)
          && disk.log == old(disk.log) + r.writes
        && rc == (if r.ok then 0 else -1)
        && (r.ok ==> first == if r.chain == [] then 0 else r.chain[0])
    {
      hide AllocChain, SectorWrites, AfterSectors, Apply, Linked, Get, FindFree, ClusterStart, Allocating, Room;
      var fatSecs := Min(geo.spf, 18);
      var totalClusters := fatSecs * 512 * 2 / 3;
      ghost var d, n := disk.blocks, |disk.blocks|;
      ghost var whole := AllocChain(geo, n, Table(), 0, data);
      ghost var ch: seq<nat>, ws: seq<Write> := [], [];
      AllocatingStarts(geo, n, Table(), data);
      ApplyNone(d);
      assert Left(data, |data|) == data;
      var bytesLeft: nat, prev: nat := |data|, 0;
      first := 0;
      while bytesLeft > 0
        invariant bytesLeft <= |data| && prev < ENTRIES
        invariant Allocating(geo, n, whole, ch, ws, Table(), prev, Left(data, bytesLeft))
        invariant disk.blocks == Apply(d, ws) && disk.log == old(disk.log) + ws
        invariant if ch == [] then first == 0 else first == ch[0] && first != 0
      {
        ghost var t, rest := Table(), Left(data, bytesLeft);
        var cluster := FindFreeCluster(fatBuf, totalClusters);
        if cluster == 0 {
          AllocatingStops(geo, n, whole, ch, ws, t, prev, rest);
          return -1, first;
        }
        AllocatingCluster(geo, n, whole, ch, ws, t, prev, rest, cluster);
        if first == 0 {
          first := cluster;
        }
        LinkCluster(prev, cluster);
        var lba := SectorOf(cluster);
        ghost var sw := SectorWrites(lba, geo.spc, rest);
        rc, bytesLeft := WriteCluster(lba, data, bytesLeft);
        ApplyAppend(d, ws, if rc == 0 then sw else sw[..Room(lba, n)]);
        if rc != 0 {
          return -1, first;
        }
        ch := ch + [cluster];
        ws := ws + sw;
        prev := cluster;
      }
      AllocatingStops(geo, n, whole, ch, ws, Table(), prev, Left(data, bytesLeft));
      rc := 0;
    }

    static lemma SlotInPlace(sec: Sector, i: nat, sl: Slot, after: Sector)
      requires i < SLOTS
      requires forall k | 0 <= k < SECTOR_SIZE ::
        after[k] == if SLOT_SIZE * i <= k < SLOT_SIZE * i + SLOT_SIZE then sl[k - SLOT_SIZE * i] else sec[k]
      ensures after == PutSlot(sec, i, sl)
    {
      assert forall k | 0 <= k < SECTOR_SIZE :: after[k] == PutSlot(sec, i, sl)[k];
    }

    static lemma NewSlotBytes(raw: RawName, attributes: Byte, first: nat, size: nat)
      requires first < 0x1_0000 && size < 0x1_0000_0000
      ensures var sl := NewSlot(raw, attributes, first, size); var w, z := WordBytes(first), DwordBytes(size);
        && (forall k | 0 <= k < 11 :: sl[k] == raw[k]) && sl[11] == attributes
          && (forall k | 12 <= k < 26 :: sl[k] == 0)
        && sl[26] == w[0] && sl[27] == w[1] && sl[28] == z[0] && sl[29] == z[1] && sl[30] == z[2] && sl[31] == z[3]
    {
      hide WordBytes, DwordBytes;
    }

    /** All fields of slot i are set. */
    static method FillSlot(buf: array<Byte>, i: nat, raw: RawName, attributes: Byte, first: nat, size: nat)
      requires buf.Length == SECTOR_SIZE && i < SLOTS && first < 0x1_0000 && size < 0x1_0000_0000
      modifies buf
      ensures buf[..] == PutSlot(old(buf[..]), i, NewSlot(raw, attributes, first, size))
    {
      hide Times;
      ghost var sec := buf[..];
      var o := SLOT_SIZE * i;
      var w, z := WordBytes(first), DwordBytes(size);
      forall k | 0 <= k < 11 {
        buf[o + k] := raw[k];
      }
      buf[o + 11] := attributes;
      forall k | 12 <= k < 26 {
        buf[o + k] := 0;
      }
      buf[o + 26], buf[o + 27] := w[0], w[1];
      buf[o + 28], buf[o + 29], buf[o + 30], buf[o + 31] := z[0], z[1], z[2], z[3];
      NewSlotBytes(raw, attributes, first, size);
      hide NewSlot, PutSlot, WordBytes, DwordBytes;
      SlotInPlace(sec, i, NewSlot(raw, attributes, first, size), buf[..]);
    }

    static lemma AddSlotIs(g: Geo, st: State, t: Table, ws: seq<Write>, sl: Slot, sh: Shape, found: bool, s: nat,
        i: nat)
      requires StateOk(g, st) && Live(g, State(Apply(st.disk, ws), st.cur, TailOf(g, t)), sh)
      requires Buffer(g, Apply(st.disk, ws), TailOf(g, t)) == t
      requires var r := Find(DirSlots(g, Apply(st.disk, ws), sh, st.cur), Vacant, 0);
        if found then i < SLOTS && r == Some(SLOTS * s + i) else r == None
      ensures var d := Apply(st.disk, ws); var lbas := LbasOf(g, sh, st.cur);
        if found then
          && s < |lbas| && lbas[s] < |d|
          && AddSlot(g, st, t, ws, sl) == Finish(g, |st.disk|, st.cur, t, ws, s, PutSlot(d[lbas[s]], i, sl))
        else AddSlot(g, st, t, ws, sl) == Outcome(-1, ws, st.cur, TailOf(g, t))
    {
      hide Mounted, Find, Finish, PutSlot, Apply, Buffer, DirLbas, LbasOf;
      var d := Apply(st.disk, ws);
      FindAgrees(g, State(d, st.cur, TailOf(g, t)), sh, Vacant);
      var k := SLOTS * s + i;
      assert i < SLOTS ==> k / SLOTS == s && k % SLOTS == i;
    }

    /** The tail of fat_write and fat_mkdir: the first vacant slot is filled. */
    method AddEntry(raw: RawName, attributes: Byte, first: nat, size: nat,
                    ghost st: State, ghost ws: seq<Write>, ghost sh: Shape, ghost log: seq<Write>)
      returns (rc: int)
      requires first < 0x1_0000 && size < 0x1_0000_0000
      requires Wired() && Located() && initialized && StateOk(geo, st) && cur == st.cur
      requires disk.blocks == Apply(st.disk, ws) && disk.log == log + ws
      requires Live(geo, Abs(), sh) && Buffer(geo, disk.blocks, TailOf(geo, Table())) == Table()
      modifies disk, dirBuf
      ensures var o := AddSlot(geo, st, Table(), ws, NewSlot(raw, attributes, first, size));
        rc == o.rc && Abs() == After(st, o) && disk.log == log + o.writes
    {
      hide Mounted, ShapeOk, StateOk, AddSlot, NewSlot, PutSlot, Find, LbasOf, DirSlots, Apply, SlotAt, Finish;
      LiveScannable(sh);
      ghost var sl := NewSlot(raw, attributes, first, size);
      var found, s, i := FindSlot(Vacant, sh);
      AddSlotIs(geo, st, Table(), ws, sl, sh, found, s, i);
      if !found {
        return -1;
      }
      FillSlot(dirBuf, i, raw, attributes, first, size);
      rc := Conclude(s, st, ws, log);
    }

    /** A driver whose volume is well-formed has a shape for it. */
    ghost method Reshape()
      requires Wired() && Located() && initialized && WellFormed(geo, Abs())
      modifies this`shape
      ensures Valid()
    {
      hide Live, StateOk;
      var st := Abs();
      WellFormedOk(geo, st);
      var sh :| Live(geo, st, sh);
      shape := sh;
      assert Abs() == st;
    }

    static lemma StoreIs(g: Geo, st: State, name: Name, data: seq<Byte>, first: nat)
      requires StateOk(g, st) && |data| < 0x1_0000_0000
      requires var r := AllocOf(g, st, data); r.ok ==> first == if r.chain == [] then 0 else r.chain[0]
      ensures var r := AllocOf(g, st, data);
        if r.ok then
          first < 0x1_0000 &&
          Store(g, st, name, data) == AddSlot(g, st, r.table, r.writes + FatWrites(g, r.table, 0),
            NewSlot(Split83(name), 0, first, |data|))
        else Store(g, st, name, data) == Outcome(-1, r.writes, st.cur, TailOf(g, r.table))
    {
      AllocBounds(g, |st.disk|, TableOf(g, st), 0, data);
      hide AllocChain, AddSlot, NewSlot, Split83, FatWrites, TableOf;
    }

    /** The table and the data are on the disk, the slot is not. */
    static lemma StoreMidIs(g: Geo, st: State, sh: Shape, data: seq<Byte>)
      requires Live(g, st, sh) && StateOk(g, st) && AllocOf(g, st, data).ok
      ensures var r := AllocOf(g, st, data); var ws := r.writes + FatWrites(g, r.table, 0);
        var m := State(Apply(st.disk, ws), st.cur, TailOf(g, r.table));
        && Live(g, m, StoreShape(g, st, sh, data)) && Buffer(g, m.disk, m.tail) == r.table
        && m.disk == Apply(Apply(st.disk, r.writes), FatWrites(g, r.table, 0))
    {
      var r := AllocOf(g, st, data);
      ApplyAppend(st.disk, r.writes, FatWrites(g, r.table, 0));
      StoreMidKeeps(g, st, sh, data);
      hide AllocOf, Live, FatWrites, Apply;
    }

    method StoreMounted(name: Name, raw: RawName, data: seq<Byte>, ghost st: State) returns (rc: int)
      requires Valid() && initialized && st == Abs() && raw == Split83(name) && |data| < 0x1_0000_0000
      modifies this`shape, disk, fatBuf, dirBuf
      ensures StateOk(geo, st) && Did(st, Store(geo, st, name, data), rc, old(disk.log))
    {
      hide Mounted, Store, AllocChain, Apply, FatWrites, AddSlot, NewSlot, Split83, StoreShape, DirSlots, LbasOf,
        ShapeOk;
      var l, st' := Begin();
      if l != 0 {
        return -1;
      }
      ghost var r, sh := AllocOf(geo, st, data), shape;
      var first;
      rc, first := Allocate(data);
      StoreIs(geo, st, name, data, first);
      StoreKeeps(geo, st, sh, name, data);
      if rc != 0 {
        Reshape();
        return -1;
      }
      ghost var ws := r.writes + FatWrites(geo, r.table, 0);
      StoreMidIs(geo, st, sh, data);
      var w := WriteFat();
      if w != 0 {
        return -1;
      }
      assert old(disk.log) + r.writes + FatWrites(geo, r.table, 0) == old(disk.log) + ws;
      rc := AddEntry(raw, 0, first, |data|, st, ws, StoreShape(geo, st, sh, data), old(disk.log));
      Reshape();
    }

    /** A store that follows a delete is a write. */
    lemma StoredAfterDelete(st: State, st1: State, name: Name, data: seq<Byte>, rc: int, log: seq<Write>,
        log1: seq<Write>)
      requires GeoOk(geo) && StateOk(geo, st) && StateOk(geo, st1) && |data| < 0x1_0000_0000
      requires st1 == After(st, Delete(geo, st, name)) && log1 == log + Delete(geo, st, name).writes
      requires Did(st1, Store(geo, st1, name, data), rc, log1)
      ensures Did(st, WriteFile(geo, st, name, data), rc, log)
    {
      hide Store, Remove, After, Live, StateOk, Valid, GeoOk, Mounted;
      WriteAfter(geo, st, name, data);
      var a, b := Delete(geo, st, name).writes, Store(geo, st1, name, data).writes;
      assert log + a + b == log + (a + b);
    }

    /** fat_write; the result of its fat_delete is not looked at. */
    method FatWrite(name: Name, data: seq<Byte>) returns (rc: int)
      requires Valid() && |data| < 0x1_0000_0000
      modifies this`shape, disk, fatBuf, dirBuf
      ensures Valid() && (old(!initialized) ==> Refused(rc))
      ensures old(initialized) ==> Did(old(Abs()), WriteFile(geo, old(Abs()), name, data), rc, old(disk.log))
      ensures CopiesKept(true, rc)
    {
      hide Store, WriteFile, Remove, Live, StateOk, After, Split83, CopiesAgree;
      if !initialized {
        return -1;
      }
      ghost var st, log := Abs(), disk.log;
      ValidWellFormed();
      var ignored := FatDelete(name);
      ghost var st1, log1 := Abs(), disk.log;
      hide Did;
      var wantName, wantExt := new Byte[8], new Byte[3];
      SplitInto(name, wantName, wantExt);
      rc := StoreMounted(name, wantName[..] + wantExt[..], data, st1);
      StoredAfterDelete(st, st1, name, data, rc, log, log1);
      DidIs(st, WriteFile(geo, st, name, data), rc, log);
      PerformCopies(geo, st, WriteOp(name, data));
    }

    // ---- fat_mkdir

    /** The first sector of a new directory. */
    method FillDots(c: nat) returns (buf: array<Byte>)
      requires c < ENTRIES && cur < ENTRIES
      ensures fresh(buf) && buf.Length == SECTOR_SIZE && buf[..] == DotSector(c, cur)
    {
      hide PutSlot, NewSlot;
      buf := new Byte[SECTOR_SIZE](_ => 0);
      assert buf[..] == Zeros(SECTOR_SIZE);
      FillSlot(buf, 0, DOT_NAME, 0x10, c, 0);
      FillSlot(buf, 1, DOTDOT_NAME, 0x10, cur, 0);
    }

    static lemma TakesIs(g: Geo, st: State, sh: Shape, c: nat, u: Table)
      requires Live(g, st, sh) && StateOk(g, st) && c == FirstFree(g, TableOf(g, st)) && c != 0
      requires ClusterStart(g, c) < |st.disk| && u == Set(TableOf(g, st), c, END_MARK)
      ensures var ws := MkdirWrites(g, st, c, u); var m := State(Apply(st.disk, ws), st.cur, TailOf(g, u));
        && Live(g, m, sh) && Buffer(g, m.disk, m.tail) == u
        && m.disk == Put(Apply(st.disk, FatWrites(g, u, 0)), Write(ClusterStart(g, c), DotSector(c, st.cur)))
    {
      hide Set, FatWrites, DotSector, Mounted, TableOf, Put;
      OnDeviceBelowLimit(g, |st.disk|, c);
      MkdirMidKeeps(g, st, sh, c, u);
      ApplyLast(st.disk, FatWrites(g, u, 0), Write(ClusterStart(g, c), DotSector(c, st.cur)));
    }

    method MkdirMounted(name: Name, raw: RawName, ghost st: State) returns (rc: int)
      requires Valid() && initialized && st == Abs() && raw == Split83(name) && StateOk(geo, st)
      modifies this`shape, disk, fatBuf, dirBuf
      ensures Performed(st, Mkdir(geo, st, name), rc, old(disk.log)) && (MkdirClear(geo, st) ==> Valid())
    {
      hide Mounted, Mkdir, Apply, FatWrites, AddSlot, NewSlot, Split83, DirSlots, LbasOf, ShapeOk, StateOk, RestClear,
        MkdirClear, Times;
      hide Set, Get, FindFree, DotSector, ClusterStart, Put, TableOf, Slots, Joined, SlotAt, DirOk;
      var l, st' := Begin();
      if l != 0 {
        return -1;
      }
      var fatSecs := Min(geo.spf, 18);
      var c := FindFreeCluster(fatBuf, fatSecs * 512 * 2 / 3);
      MkdirIs(geo, st, name);
      if c == 0 {
        Unchanged(st);
        return -1;
      }
      rc := MkdirAt(c, name, raw, st);
    }

    lemma UnderwayCur(st: State)
      requires Underway(st)
      ensures cur < ENTRIES
    {
    }

    /** fat_mkdir after it found cluster c. */
    method MkdirAt(c: nat, name: Name, raw: RawName, ghost st: State) returns (rc: int)
      requires Underway(st) && Abs() == st && Table() == TableOf(geo, st) && RootStart(geo) <= |disk.blocks|
      requires c == FirstFree(geo, TableOf(geo, st)) && c != 0 && raw == Split83(name)
      modifies this`shape, disk, fatBuf, dirBuf
      ensures Performed(st, Mkdir(geo, st, name), rc, old(disk.log)) && (MkdirClear(geo, st) ==> Valid())
    {
      hide Mounted, Mkdir, Apply, FatWrites, AddSlot, NewSlot, Split83, DirSlots, LbasOf, ShapeOk, StateOk, RestClear,
        MkdirClear, Times;
      hide Set, Get, FindFree, DotSector, ClusterStart, Put, TableOf, Slots, Joined, SlotAt, DirOk;
      MkdirIs(geo, st, name);
      UnderwayCur(st);
      ghost var clear := MkdirClear(geo, st);
      if clear {
        MkdirKeeps(geo, st, shape, name);
      }
      SetCluster(fatBuf, c, END_MARK);
      ghost var u := Table();
      var w := WriteFat();
      if w != 0 {
        return -1;
      }
      var buf := FillDots(c);
      assert buf[0..SECTOR_SIZE] == buf[..];
      var lba := SectorOf(c);
      rc := disk.Write(lba, buf, 0);
      if rc == 0 {
        TakesIs(geo, st, shape, c, u);
        ghost var x := Write(lba, buf[..]);
        assert old(disk.log) + FatWrites(geo, u, 0) + [x] == old(disk.log) + (FatWrites(geo, u, 0) + [x]);
        rc := AddEntry(raw, 0x10, c, 0, st, MkdirWrites(geo, st, c, u), shape, old(disk.log));
      }
      if clear {
        Reshape();
      }
    }

    /** fat_mkdir. The volume stays well-formed if the rest of the new cluster is
        clear, which is always so with one sector per cluster. */
    method FatMkdir(name: Name) returns (rc: int)
      requires Valid()
      modifies this`shape, disk, fatBuf, dirBuf
      ensures old(!initialized) ==> Valid() && Refused(rc)
      ensures old(initialized) ==> Performed(old(Abs()), Mkdir(geo, old(Abs()), name), rc, old(disk.log))
      ensures old(initialized && StateOk(geo, Abs()) && MkdirClear(geo, Abs())) ==> Valid()
      ensures CopiesKept(true, rc)
    {
      hide Mkdir, Live, StateOk, Split83, MkdirClear, CopiesAgree;
      if !initialized {
        return -1;
      }
      ghost var st, log := Abs(), disk.log;
      ValidWellFormed();
      var wantName, wantExt := new Byte[8], new Byte[3];
      SplitInto(name, wantName, wantExt);
      rc := MkdirMounted(name, wantName[..] + wantExt[..], st);
      PerformCopies(geo, st, MkdirOp(name));
    }

    // ---- fat_init

    /** The geometry in a boot sector. */
    static function BootGeo(sec: Sector): Geo
      requires Word(sec[11], sec[12]) > 0
    {
      var bytesPerSector := Word(sec[11], sec[12]);
      Geo(Word(sec[14], sec[15]), sec[16], Word(sec[22], sec[23]),
          (Word(sec[17], sec[18]) * 32 + (bytesPerSector - 1)) / bytesPerSector, sec[13])
    }

    /** Every sector address that the driver uses, from the numbers in the boot
        sector: the copies behind the reserved sectors, then the root directory,
        32 bytes an entry, then the clusters. */
    ghost predicate Placed(size: nat, spc: nat, reserved: nat, fats: nat, entries: nat, spf: nat)
      reads this`geo, this`rootStart, this`dataStart
    {
      && size > 0 && geo.spf == spf && geo.spc == spc && geo.fatCount == fats
      && (forall f: nat :: CopyStart(geo, f) == reserved + f * spf)
      && rootStart == RootStart(geo) == reserved + fats * spf
      && dataStart == DataStart(geo) == rootStart + (entries * 32 + size - 1) / size
      && |RootLbas(geo)| == dataStart - rootStart
      && (forall i | 0 <= i < |RootLbas(geo)| :: RootLbas(geo)[i] == rootStart + i)
      && forall c: nat | c >= 2 :: ClusterStart(geo, c) == dataStart + (c - 2) * spc
    }

    static lemma BootGeoIs(sec: Sector, size: nat, spc: nat, reserved: nat, fats: nat, entries: nat, spf: nat)
      requires Word(sec[11], sec[12]) > 0 && BootFields(sec, size, spc, reserved, fats, entries, spf)
      ensures size > 0 && BootGeo(sec) == Geo(reserved, fats, spf, (entries * 32 + size - 1) / size, spc)
    {
      WordIs(sec[11], sec[12]);
      WordIs(sec[14], sec[15]);
      WordIs(sec[17], sec[18]);
      WordIs(sec[22], sec[23]);
      hide Word;
    }

    static lemma ClustersAt(g: Geo)
      ensures forall c: nat | c >= 2 :: ClusterStart(g, c) == DataStart(g) + (c - 2) * g.spc
    {
      hide ClusterStart, DataStart;
      forall c: nat | c >= 2
        ensures ClusterStart(g, c) == DataStart(g) + (c - 2) * g.spc
      {
        ClusterStartFormula(g, c);
      }
    }

    lemma PlacedBy(sec: Sector, size: nat, spc: nat, reserved: nat, fats: nat, entries: nat, spf: nat)
      requires Word(sec[11], sec[12]) > 0 && geo == BootGeo(sec)
      requires BootFields(sec, size, spc, reserved, fats, entries, spf)
      requires rootStart == geo.fatStart + geo.fatCount * geo.spf && dataStart == rootStart + geo.rootSectors
      ensures Placed(size, spc, reserved, fats, entries, spf)
    {
      BootGeoIs(sec, size, spc, reserved, fats, entries, spf);
      hide Word, CopyStart, ClusterStart, BootGeo, BootFields, RootLbas;
      Regions(geo, 2);
      ClustersAt(geo);
    }

    /** Everything is placed by the numbers in this boot sector. */
    ghost predicate PlacedAs(sec: Sector)
      reads this`geo, this`rootStart, this`dataStart
    {
      forall size: nat, spc: nat, reserved: nat, fats: nat, entries: nat, spf: nat ::
        size > 0 && BootFields(sec, size, spc, reserved, fats, entries, spf) ==>
          Placed(size, spc, reserved, fats, entries, spf)
    }

    lemma PlacedAll(sec: Sector)
      requires Word(sec[11], sec[12]) > 0 && geo == BootGeo(sec)
      requires rootStart == geo.fatStart + geo.fatCount * geo.spf && dataStart == rootStart + geo.rootSectors
      ensures PlacedAs(sec)
    {
      hide BootFields, Placed, BootGeo, Word;
      forall size: nat, spc: nat, reserved: nat, fats: nat, entries: nat, spf: nat |
        BootFields(sec, size, spc, reserved, fats, entries, spf)
        ensures Placed(size, spc, reserved, fats, entries, spf)
      {
        PlacedBy(sec, size, spc, reserved, fats, entries, spf);
      }
    }

    /** The part of fat_init behind the read. */
    method SetGeometry(sec: Sector)
      requires Word(sec[11], sec[12]) > 0
      modifies this`initialized, this`geo, this`rootStart, this`dataStart
      ensures initialized && geo == BootGeo(sec) && PlacedAs(sec)
      ensures rootStart == RootStart(geo) && dataStart == DataStart(geo)
    {
      hide Word, PlacedAs, CopyStart;
      var bytesPerSector := Word(sec[11], sec[12]);
      var fatStart, fatCount, spf := Word(sec[14], sec[15]), sec[16], Word(sec[22], sec[23]);
      var rootSectors := (Word(sec[17], sec[18]) * 32 + (bytesPerSector - 1)) / bytesPerSector;
      geo := Geo(fatStart, fatCount, spf, rootSectors, sec[13]);
      rootStart := fatStart + fatCount * spf;
      CopyStartFormula(geo, fatCount);
      dataStart := rootStart + rootSectors;
      initialized := true;
      PlacedAll(sec);
    }

    /** fat_init; the current directory stays what it was. */
    method FatInit() returns (rc: int)
      requires Wired() && (|disk.blocks| > 0 ==> Word(disk.blocks[0][11], disk.blocks[0][12]) > 0)
      modifies this`initialized, this`geo, this`rootStart, this`dataStart, this`shape, sectorBuf
      ensures rc == if |disk.blocks| > 0 then 0 else -1
      ensures rc == -1 ==> initialized == old(initialized) && (old(Valid()) ==> Valid())
      ensures rc == 0 ==> initialized && geo == BootGeo(disk.blocks[0])
      ensures rc == 0 ==> PlacedAs(disk.blocks[0])
      ensures rc == 0 && GeoOk(geo) && WellFormed(geo, Abs()) ==> Valid()
    {
      hide Live, StateOk, PlacedAs, CopyStart, BootGeo, Word;
      rc := disk.Read(0, sectorBuf, 0);
      if rc != 0 {
        return -1;
      }
      SetGeometry(sectorBuf[0..SECTOR_SIZE]);
      if GeoOk(geo) && WellFormed(geo, Abs()) {
        Reshape();
      }
    }
  }

  /** The start of the kernel: fresh statics, then fat_init. */
  method Boot(disk: AtaDisk) returns (driver: Driver, rc: int)
    requires |disk.blocks| > 0 ==> Word(disk.blocks[0][11], disk.blocks[0][12]) > 0
    ensures fresh(driver) && driver.disk == disk && rc == if |disk.blocks| > 0 then 0 else -1
    ensures rc == 0 && Bootable(disk.blocks) ==>
      driver.Valid() && driver.initialized && driver.geo == Driver.BootGeo(disk.blocks[0])
        && driver.Abs() == BootState(disk.blocks)
    ensures rc == 0 ==> driver.PlacedAs(disk.blocks[0])
  {
    hide Live, StateOk, Driver.PlacedAs;
    driver := new Driver(disk);
    rc := driver.FatInit();
    assert rc == 0 && GeoOk(driver.geo) ==>
      TailOf(driver.geo, driver.Table()) == Zeros(BUFFER_SIZE - SECTOR_SIZE * driver.geo.spf);
  }

  function BootState(d: Disk): State
    requires |d| > 0 && Word(d[0][11], d[0][12]) > 0 && GeoOk(Driver.BootGeo(d[0]))
  {
    State(d, 0, Zeros(BUFFER_SIZE - SECTOR_SIZE * Driver.BootGeo(d[0]).spf))
  }

  /** The device holds a well-formed volume. */
  ghost predicate Bootable(d: Disk) {
    && |d| > 0 && Word(d[0][11], d[0][12]) > 0 && GeoOk(Driver.BootGeo(d[0]))
    && WellFormed(Driver.BootGeo(d[0]), BootState(d))
  }

  /** After an interrupted fat_write of a new name the driver starts again, on
      the same geometry, and shows every directory and file as before. */
  lemma InterruptedBoot(g: Geo, st: State, sh: Shape, name: Name, data: seq<Byte>, k: nat)
    requires Stopped(g, st, sh, name, data, k)
    requires |st.disk| > 0 && Word(st.disk[0][11], st.disk[0][12]) > 0 && Driver.BootGeo(st.disk[0]) == g
    ensures var e := StoppedDisk(g, st, name, data, k);
      Bootable(e) && Driver.BootGeo(e[0]) == g && Indistinguishable(g, st, BootState(e), sh)
  {
    hide Live, StateOk, WriteFile, Indistinguishable, StoppedDisk, Word;
    LiveTail(g, st, sh);
    InterruptedRestart(g, st, sh, name, data, k, Zeros(BUFFER_SIZE - SECTOR_SIZE * g.spf));
  }
}
