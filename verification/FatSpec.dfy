/** The operations of fat.c as functions from a state to a return code, the
    ordered list of single-sector writes, and the new static state. */
module FatSpec {
  import opened Bytes
  import opened Names
  import opened FatTable
  import opened Layout
  import opened Directory

  /** cur is current_dir_cluster (0 for the root); tail is what the static
      table buffer holds past the table. */
  datatype State = State(disk: Disk, cur: nat, tail: seq<Byte>)

  datatype Outcome = Outcome(rc: int, writes: seq<Write>, cur: nat, tail: seq<Byte>)

  predicate StateOk(g: Geo, st: State) {
    GeoOk(g) && DiskOk(g, st.disk) && TailOk(g, st.tail) && st.cur < ENTRIES
  }

  function After(st: State, o: Outcome): State {
    State(Apply(st.disk, o.writes), o.cur, o.tail)
  }

  function TableOf(g: Geo, st: State): Table
    requires StateOk(g, st)
  {
    Buffer(g, st.disk, st.tail)
  }

  // ---- the sectors of the current directory

  /** The sectors up to the first one that is not on the device. */
  function InRange(lbas: seq<nat>, n: nat): (r: seq<nat>)
    ensures |r| <= |lbas| && r == lbas[..|r|]
    ensures forall i | 0 <= i < |r| :: r[i] < n
    ensures |r| < |lbas| ==> lbas[|r|] >= n
  {
    if lbas == [] || lbas[0] >= n then [] else [lbas[0]] + InRange(lbas[1..], n)
  }

  /** What read_dir_sector delivers for s = 0, 1, 2, ... */
  function DirLbas(g: Geo, t: Table, cur: nat, n: nat): (r: seq<nat>)
    ensures forall i | 0 <= i < |r| :: r[i] < n
  {
    InRange(if cur == 0 then RootLbas(g) else ChainLbas(g, Walk(t, cur, 0xFF7, ENTRIES)), n)
  }

  /** Sector off of cluster c; the numbers 0 and 1 of a broken chain give an
      address before the data area. */
  function LbaAt(g: Geo, c: nat, off: nat): int {
    if c >= 2 then ClusterStart(g, c) + off
    else DataStart(g) + off - (if c == 1 then g.spc else 2 * g.spc)
  }

  /** Where a changed directory sector is written. The walk is repeated on the
      table in memory, without looking for an end mark. */
  function WriteBackLba(g: Geo, t: Table, cur: nat, s: nat): int
    requires GeoOk(g) && cur < ENTRIES
  {
    if cur == 0 then RootStart(g) + s else LbaAt(g, Follow(t, cur, Quotient(s, g.spc)), Remainder(s, g.spc))
  }

  function Finish(g: Geo, n: nat, cur: nat, t: Table, ws: seq<Write>, s: nat, data: Sector): Outcome
    requires GeoOk(g) && cur < ENTRIES
  {
    var lba := WriteBackLba(g, t, cur, s);
    if 0 <= lba < n then Outcome(0, ws + [Write(lba, data)], cur, TailOf(g, t))
    else Outcome(-1, ws, cur, TailOf(g, t))
  }

  // ---- fat_read

  datatype ReadResult = NotRead | Read(data: seq<Byte>)

  function Min(a: nat, b: nat): nat { if a < b then a else b }

  function Take(s: seq<Byte>, n: nat): seq<Byte> { if n <= |s| then s[..n] else s }

  /** At least one sector is read even if no byte is wanted of it. */
  function SectorsFor(n: nat): (k: nat)
    ensures k >= 1 && SECTOR_SIZE * k >= n && (k > 1 ==> SECTOR_SIZE * (k - 1) < n)
  {
    if n <= SECTOR_SIZE then 1 else 1 + SectorsFor(n - SECTOR_SIZE)
  }

  function FileLbas(g: Geo, t: Table, first: nat, need: nat): seq<nat> {
    var all := ChainLbas(g, Walk(t, first, 0xFEF, need));
    if need <= |all| then all[..need] else all
  }

  function ReadChain(g: Geo, d: Disk, t: Table, first: nat, size: nat, cap: nat): ReadResult {
    if first < 2 || size == 0 then Read([])
    else
      var n := Min(size, cap);
      var lbas := FileLbas(g, t, first, SectorsFor(n));
      if OnDevice(d, lbas) then Read(Take(Contents(d, lbas), n)) else NotRead
  }

  function FindIn(g: Geo, d: Disk, t: Table, cur: nat, w: Want): (r: Option<nat>)
    ensures r.Some? ==> r.value < SLOTS * |DirLbas(g, t, cur, |d|)|
  {
    Find(Slots(d, DirLbas(g, t, cur, |d|)), w, 0)
  }

  function ReadFile(g: Geo, st: State, name: Name, cap: nat): ReadResult
    requires StateOk(g, st)
  {
    var t := TableOf(g, st);
    match FindIn(g, st.disk, t, st.cur, File(name))
    case None => NotRead
    case Some(k) =>
      var sl := Slots(st.disk, DirLbas(g, t, st.cur, |st.disk|))[k];
      ReadChain(g, st.disk, t, FirstCluster(sl), FileSize(sl), cap)
  }

  // ---- fat_delete and fat_rmdir

  function Marked(sl: Slot): Slot { sl[0 := DELETED] }

  function Remove(g: Geo, st: State, w: Want): Outcome
    requires StateOk(g, st)
  {
    var t := TableOf(g, st);
    var lbas := DirLbas(g, t, st.cur, |st.disk|);
    match FindIn(g, st.disk, t, st.cur, w)
    case None => Outcome(-1, [], st.cur, st.tail)
    case Some(k) =>
      var sl := Slots(st.disk, lbas)[k];
      var u := Freed(t, FirstCluster(sl));
      Finish(g, |st.disk|, st.cur, u, FatWrites(g, u, 0), k / SLOTS, SlotWrite(st.disk, lbas, k, Marked(sl)).data)
  }

  function Delete(g: Geo, st: State, name: Name): Outcome
    requires StateOk(g, st)
  {
    Remove(g, st, File(name))
  }

  function Rmdir(g: Geo, st: State, name: Name): Outcome
    requires StateOk(g, st)
  {
    Remove(g, st, Subdir(name))
  }

  // ---- fat_rename

  function Renamed(sl: Slot, name: Name): Slot { Split83(name) + sl[11..] }

  function Rename(g: Geo, st: State, oldName: Name, newName: Name): Outcome
    requires StateOk(g, st)
  {
    var t := TableOf(g, st);
    var lbas := DirLbas(g, t, st.cur, |st.disk|);
    match FindIn(g, st.disk, t, st.cur, File(oldName))
    case None => Outcome(-1, [], st.cur, st.tail)
    case Some(k) =>
      var sl := Slots(st.disk, lbas)[k];
      Finish(g, |st.disk|, st.cur, t, [], k / SLOTS, SlotWrite(st.disk, lbas, k, Renamed(sl, newName)).data)
  }

  // ---- fat_cd

  function Cd(g: Geo, st: State, name: Name): Outcome
    requires StateOk(g, st)
  {
    if name == [DOT, DOT] then Outcome(0, [], 0, st.tail)
    else
      var t := TableOf(g, st);
      match FindIn(g, st.disk, t, st.cur, Subdir(name))
      case None => Outcome(-1, [], st.cur, st.tail)
      case Some(k) =>
        Outcome(0, [], FirstCluster(Slots(st.disk, DirLbas(g, t, st.cur, |st.disk|))[k]), st.tail)
  }

  // ---- fat_write

  function TotalClusters(g: Geo): (n: nat)
    requires GeoOk(g)
    ensures n + 2 <= ENTRIES
  {
    1024 * g.spf / 3
  }

  function Padded(s: seq<Byte>): Sector
    requires |s| <= SECTOR_SIZE
  {
    s + Zeros(SECTOR_SIZE - |s|)
  }

  function Rest(data: seq<Byte>): (r: seq<Byte>)
    ensures data != [] ==> |r| < |data|
  {
    if |data| <= SECTOR_SIZE then [] else data[SECTOR_SIZE..]
  }

  /** The writes of one cluster: at most count sectors, fewer if the data ends. */
  function SectorWrites(start: nat, count: nat, data: seq<Byte>): (ws: seq<Write>)
    ensures |ws| <= count && (data != [] && count > 0 ==> |ws| > 0)
    ensures forall i | 0 <= i < |ws| :: ws[i].lba == start + i
    decreases count
  {
    if count == 0 || data == [] then []
    else [Write(start, Padded(Take(data, SECTOR_SIZE)))] + SectorWrites(start + 1, count - 1, Rest(data))
  }

  function AfterSectors(data: seq<Byte>, count: nat): (r: seq<Byte>)
    ensures |r| <= |data| && (data != [] && count > 0 ==> |r| < |data|)
    decreases count
  {
    if count == 0 || data == [] then data else AfterSectors(Rest(data), count - 1)
  }

  datatype Alloc = Alloc(ok: bool, table: Table, chain: seq<nat>, writes: seq<Write>)

  /** The table after cluster c was taken and linked behind prev. */
  function Linked(t: Table, prev: nat, c: nat): Table
    requires prev < ENTRIES && c < ENTRIES
  {
    Set(if prev != 0 then Set(t, prev, c) else t, c, END_MARK)
  }

  /** The allocation loop of fat_write on a device of n sectors. */
  function AllocChain(g: Geo, n: nat, t: Table, prev: nat, data: seq<Byte>): Alloc
    requires GeoOk(g) && prev < ENTRIES
    decreases |data|
  {
    if data == [] then Alloc(true, t, [], [])
    else
      var c := FindFree(t, 2, TotalClusters(g) + 2);
      if c == 0 then Alloc(false, t, [], [])
      else
        var u := Linked(t, prev, c);
        var ws := SectorWrites(ClusterStart(g, c), g.spc, data);
        var room := if ClusterStart(g, c) < n then n - ClusterStart(g, c) else 0;
        if |ws| > room then Alloc(false, u, [c], ws[..room])
        else
          var r := AllocChain(g, n, u, c, AfterSectors(data, g.spc));
          Alloc(r.ok, r.table, [c] + r.chain, ws + r.writes)
  }

  /** Putting a new slot into the first vacant place of the current directory,
      as it is after the writes ws and with the table t in memory. */
  function AddSlot(g: Geo, st: State, t: Table, ws: seq<Write>, sl: Slot): Outcome
    requires StateOk(g, st)
  {
    var d := Apply(st.disk, ws);
    match FindIn(g, d, t, st.cur, Vacant)
    case None => Outcome(-1, ws, st.cur, TailOf(g, t))
    case Some(k) =>
      Finish(g, |d|, st.cur, t, ws, k / SLOTS, SlotWrite(d, DirLbas(g, t, st.cur, |d|), k, sl).data)
  }

  function FileSlot(name: Name, chain: seq<nat>, size: nat): Slot
    requires size < 0x1_0000_0000 && forall i | 0 <= i < |chain| :: chain[i] < 0x1_0000
  {
    NewSlot(Split83(name), 0, if chain == [] then 0 else chain[0], size)
  }

  lemma {:induction false} AllocBounds(g: Geo, n: nat, t: Table, prev: nat, data: seq<Byte>)
    requires GeoOk(g) && prev < ENTRIES
    ensures forall i | 0 <= i < |AllocChain(g, n, t, prev, data).chain| ::
      AllocChain(g, n, t, prev, data).chain[i] < ENTRIES
    decreases |data|
  {
    hide Linked, SectorWrites, AfterSectors, Get, ClusterStart;
    if data != [] {
      var c := FindFree(t, 2, TotalClusters(g) + 2);
      if c != 0 {
        AllocBounds(g, n, Linked(t, prev, c), c, AfterSectors(data, g.spc));
      }
    }
  }

  /** fat_write without its leading fat_delete. */
  function Store(g: Geo, st: State, name: Name, data: seq<Byte>): Outcome
    requires StateOk(g, st) && |data| < 0x1_0000_0000
  {
    var r := AllocChain(g, |st.disk|, TableOf(g, st), 0, data);
    if !r.ok then Outcome(-1, r.writes, st.cur, TailOf(g, r.table))
    else
      AllocBounds(g, |st.disk|, TableOf(g, st), 0, data);
      AddSlot(g, st, r.table, r.writes + FatWrites(g, r.table, 0), FileSlot(name, r.chain, |data|))
  }

  function WriteFile(g: Geo, st: State, name: Name, data: seq<Byte>): Outcome
    requires StateOk(g, st) && |data| < 0x1_0000_0000
  {
    var del := Delete(g, st, name);
    var o := Store(g, After(st, del), name, data);
    o.(writes := del.writes + o.writes)
  }

  // ---- fat_mkdir

  const DOT_NAME: RawName := Pad([DOT], 8) + Pad([], 3)
  const DOTDOT_NAME: RawName := Pad([DOT, DOT], 8) + Pad([], 3)

  function DotSector(c: nat, parent: nat): Sector
    requires c < ENTRIES && parent < ENTRIES
  {
    PutSlot(PutSlot(Zeros(SECTOR_SIZE), 0, NewSlot(DOT_NAME, 0x10, c, 0)), 1, NewSlot(DOTDOT_NAME, 0x10, parent, 0))
  }

  function Mkdir(g: Geo, st: State, name: Name): Outcome
    requires StateOk(g, st)
  {
    var t := TableOf(g, st);
    var c := FindFree(t, 2, TotalClusters(g) + 2);
    if c == 0 then Outcome(-1, [], st.cur, st.tail)
    else
      var u := Set(t, c, END_MARK);
      var lba := ClusterStart(g, c);
      if lba >= |st.disk| then Outcome(-1, FatWrites(g, u, 0), st.cur, TailOf(g, u))
      else
        AddSlot(g, st, u, FatWrites(g, u, 0) + [Write(lba, DotSector(c, st.cur))], NewSlot(Split83(name), 0x10, c, 0))
  }
}
