/** What lies where on the disk, in plain arithmetic on bytes: the boot sector,
    the table, the slots and the names (fat.c:3-28, 38-97, 134-145, 213-220). */
module Formats {
  import opened Bytes
  import opened Names
  import opened FatTable
  import opened Layout
  import opened Directory
  import opened FatSpec

  // ---- fields

  /** The little-endian numbers at byte i. */
  function Number16(s: seq<Byte>, i: nat): nat
    requires i + 2 <= |s|
  {
    s[i] as nat + 256 * s[i + 1] as nat
  }

  function Number32(s: seq<Byte>, i: nat): nat
    requires i + 4 <= |s|
  {
    s[i] as nat + 0x100 * s[i + 1] as nat + 0x1_0000 * s[i + 2] as nat + 0x100_0000 * s[i + 3] as nat
  }

  lemma WordIs(lo: Byte, hi: Byte)
    ensures Word(lo, hi) == Number16([lo, hi], 0)
  {
    TimesIs(256, hi);
  }

  lemma DwordIs(b0: Byte, b1: Byte, b2: Byte, b3: Byte)
    ensures Dword(b0, b1, b2, b3) == Number32([b0, b1, b2, b3], 0)
  {
    WordIs(b0, b1);
    WordIs(b2, b3);
    JoinIs(Word(b0, b1), Word(b2, b3));
    hide Join, Word;
  }

  /** The place of slot i in its sector, and of the cluster and the size in a slot. */
  lemma SlotFields(sec: Sector, i: nat)
    requires i < 16
    ensures var sl, o := SlotAt(sec, i), 32 * i;
      && |sl| == 32 && (forall j | 0 <= j < 32 :: sl[j] == sec[o + j])
      && RawNameOf(sl) == sec[o..o + 11]
      && FirstCluster(sl) == Number16(sec, o + 26)
      && FileSize(sl) == Number32(sec, o + 28)
  {
    var sl, o := SlotAt(sec, i), 32 * i;
    assert forall j | 0 <= j < 32 :: sl[j] == sec[o + j];
    hide SlotAt;
    WordIs(sl[26], sl[27]);
    DwordIs(sl[28], sl[29], sl[30], sl[31]);
    hide Word, Dword;
  }

  /** Every byte of a slot that fat_write or fat_mkdir makes. */
  lemma NewSlotFields(raw: RawName, attributes: Byte, cluster: nat, size: nat)
    requires cluster < 0x1_0000 && size < 0x1_0000_0000
    ensures var sl := NewSlot(raw, attributes, cluster, size);
      && |sl| == 32 && sl[..11] == raw && sl[11] == attributes && (forall j | 12 <= j < 26 :: sl[j] == 0)
      && Number16(sl, 26) == cluster && Number32(sl, 28) == size
  {
    var sl := NewSlot(raw, attributes, cluster, size);
    WordIs(sl[26], sl[27]);
    DwordIs(sl[28], sl[29], sl[30], sl[31]);
    hide Word, Dword;
  }

  /** fat_rename writes the eleven bytes of the name and nothing else. */
  lemma RenamedBytes(sl: Slot, name: Name)
    ensures Renamed(sl, name)[..11] == Split83(name)
    ensures forall j | 11 <= j < 32 :: Renamed(sl, name)[j] == sl[j]
  {
    hide Split83;
  }

  // ---- which slots a search wants

  lemma BitThree(b: nat)
    ensures Bit(b, 3) == b / 8 % 2 && Bit(b, 4) == b / 16 % 2
  {
    assert ShiftRight(b, 3) == ShiftRight(b / 2, 2) == ShiftRight(b / 4, 1) == ShiftRight(b / 8, 0);
    assert ShiftRight(b, 4) == ShiftRight(b / 2, 3) == ShiftRight(b / 4, 2) == ShiftRight(b / 8, 1);
    assert ShiftRight(b / 8, 1) == ShiftRight(b / 16, 0);
  }

  /** A file: in use, no volume label, no directory, and of that name; all the
      other attributes do not matter. */
  lemma JudgedFile(sl: Slot, name: Name)
    ensures Judge(sl, File(name)) == Hit <==>
      && sl[0] != 0 && sl[0] != 0xE5 && sl[11] / 8 % 2 == 0 && sl[11] / 16 % 2 == 0
      && EqNoCase(MakeName(sl[..11]), name)
    ensures Judge(sl, File(name)) == Stop <==> sl[0] == 0
  {
    BitThree(sl[11]);
    hide Bit, MakeName, EqNoCase;
  }

  lemma JudgedSubdir(sl: Slot, name: Name)
    ensures Judge(sl, Subdir(name)) == Hit <==>
      && sl[0] != 0 && sl[0] != 0xE5 && sl[0] != 0x2E && sl[11] / 16 % 2 == 1
      && EqNoCase(MakeName(sl[..11]), name)
    ensures Judge(sl, Subdir(name)) == Stop <==> sl[0] == 0
  {
    BitThree(sl[11]);
    hide Bit, MakeName, EqNoCase;
  }

  lemma JudgedVacant(sl: Slot)
    ensures Judge(sl, Vacant) == Hit <==> sl[0] == 0 || sl[0] == 0xE5
    ensures Judge(sl, Vacant) != Stop
  {
  }

  // ---- names

  /** The same letter, or one the capital of the other. */
  predicate SameLetter(a: Byte, b: Byte) {
    a == b || (0x41 <= a <= 0x5A && b == a + 32) || (0x61 <= a <= 0x7A && a == b + 32)
  }

  /** Two texts without NUL are taken for the same name. */
  lemma SameNames(a: Name, b: Name)
    ensures EqNoCase(a, b) <==> |a| == |b| && forall i | 0 <= i < |a| :: SameLetter(a[i], b[i])
  {
    CStringOfName(a);
    CStringOfName(b);
    var x, y := UpperAll(a), UpperAll(b);
    if x == y {
      forall i | 0 <= i < |a|
        ensures SameLetter(a[i], b[i])
      {
        assert x[i] == y[i];
      }
    }
    if |a| == |b| && forall i | 0 <= i < |a| :: SameLetter(a[i], b[i]) {
      assert forall i | 0 <= i < |a| :: x[i] == y[i];
    }
  }

  lemma BeforeSpaceAt(s: seq<Byte>, n: nat)
    requires n <= |s| && 0x20 !in s[..n] && (n == |s| || s[n] == 0x20)
    ensures BeforeSpace(s) == s[..n]
  {
    BeforeSpaceIs(s, n);
  }

  /** The readable name: the bytes before the first space of the eight, and, if
      the three are not all spaces, a dot and the bytes before their first space. */
  lemma ReadableName(raw: RawName, i: nat, j: nat)
    requires i <= 8 && 0x20 !in raw[..i] && (i == 8 || raw[i] == 0x20)
    requires j <= 3 && 0x20 !in raw[8..8 + j] && (j == 3 || raw[8 + j] == 0x20)
    ensures MakeName(raw) ==
      raw[..i] + if raw[8] == 0x20 && raw[9] == 0x20 && raw[10] == 0x20 then [] else [0x2E] + raw[8..8 + j]
  {
    assert raw[..8][..i] == raw[..i] && raw[8..][..j] == raw[8..8 + j];
    BeforeSpaceAt(raw[..8], i);
    BeforeSpaceAt(raw[8..], j);
    assert AllSpaces(raw[8..]) <==> raw[8] == 0x20 && raw[9] == 0x20 && raw[10] == 0x20;
  }

  function Capital(c: Byte): Byte { if 0x61 <= c <= 0x7A then c - 0x20 else c }

  lemma UpperIsCapital(s: seq<Byte>, n: nat)
    requires |s| <= n
    ensures forall i | 0 <= i < n :: Pad(UpperAll(s), n)[i] == if i < |s| then Capital(s[i]) else 0x20
  {
    var r := Pad(UpperAll(s), n);
    forall i | 0 <= i < n
      ensures r[i] == if i < |s| then Capital(s[i]) else 0x20
    {
      if i < |s| {
        assert r[i] == r[..|s|][i];
      } else {
        assert r[i] == r[|s|..][i - |s|];
      }
    }
  }

  /** The stored name: with b bytes before the first dot, the first eight of
      them in capitals and then spaces; */
  lemma StoredBase(name: Name, b: nat)
    requires b <= |name| && 0x2E !in name[..b] && (b == |name| || name[b] == 0x2E)
    ensures forall i | 0 <= i < 8 :: Split83(name)[i] == if i < b then Capital(name[i]) else 0x20
  {
    BaseIs(name, b);
    UpperIsCapital(Cut(Base(name), 8), 8);
    hide Pad, UpperAll, Base, Extension;
    assert forall i | 0 <= i < 8 :: Split83(name)[i] == Pad(UpperAll(Cut(Base(name), 8)), 8)[i];
  }

  lemma ExtensionIs(name: Name, b: nat)
    requires b <= |name| && 0x2E !in name[..b] && (b == |name| || name[b] == 0x2E)
    ensures Extension(name) == if b > 8 || b == |name| then [] else name[b + 1..]
  {
    BaseIs(name, b);
  }

  /** and, if b is at most eight and there is a dot, the first three bytes behind
      it, and else spaces. */
  lemma StoredExtension(name: Name, b: nat)
    requires b <= |name| && 0x2E !in name[..b] && (b == |name| || name[b] == 0x2E)
    ensures forall i | 8 <= i < 11 ::
      Split83(name)[i] == if b <= 8 && b + i - 7 < |name| then Capital(name[b + i - 7]) else 0x20
  {
    var ext := if b > 8 || b == |name| then [] else name[b + 1..];
    ExtensionIs(name, b);
    UpperIsCapital(Cut(ext, 3), 3);
    hide Pad, UpperAll, Base, Extension, Capital;
    var raw := Pad(UpperAll(Cut(ext, 3)), 3);
    forall i | 8 <= i < 11
      ensures Split83(name)[i] == raw[i - 8]
    {
    }
    assert forall i | 0 <= i < 3 && i < |ext| :: Cut(ext, 3)[i] == name[b + 1 + i];
  }

  // ---- the table

  /** Entry c: twelve of the sixteen bits at byte c + c / 2, the upper ones if c is odd. */
  lemma EntryAt(t: Table, c: nat)
    requires c < 6144
    ensures c + c / 2 + 1 < |t|
    ensures var w := Number16(t, c + c / 2); Get(t, c) == if c % 2 == 1 then w / 16 else w % 4096
  {
    GetIs(t, c);
    EntryPlace(c);
    EntryWord(t[Offset(c)], t[Offset(c) + 1]);
    WordIs(t[Offset(c)], t[Offset(c) + 1]);
    hide Get, Entry, Word;
  }

  /** The search for a free cluster covers the entries that lie in the table,
      and two more. */
  lemma EntriesOfTable(g: Geo)
    requires GeoOk(g)
    ensures TotalClusters(g) == g.spf * 512 * 2 / 3
    ensures forall c: nat :: c < TotalClusters(g) <==> c + c / 2 + 1 < 512 * g.spf
    ensures Limit(g) == if TotalClusters(g) < 0xFF0 then TotalClusters(g) else 0xFF0
  {
  }

  /** Reading and freeing stop at a number below 2 or from 0xFF0 on, directories
      at one below 2 or from 0xFF8 on. */
  lemma WalkStops(t: Table, c: nat, fuel: nat)
    ensures c < 2 || c >= 0xFF0 ==> Walk(t, c, 0xFEF, fuel) == [] && Freed(t, c) == t
    ensures c < 2 || c >= 0xFF8 ==> Walk(t, c, 0xFF7, fuel) == []
    ensures 2 <= c < 0xFF0 && fuel > 0 ==> Walk(t, c, 0xFEF, fuel) == [c] + Walk(t, Get(t, c), 0xFEF, fuel - 1)
    ensures 2 <= c < 0xFF0 ==> Freed(t, c) == Freed(Set(t, c, 0), Get(t, c))
    ensures 2 <= c < 0xFF8 && fuel > 0 ==> Walk(t, c, 0xFF7, fuel) == [c] + Walk(t, Get(t, c), 0xFF7, fuel - 1)
  {
    hide Get, Set;
  }

  // ---- the regions

  /** The numbers in a boot sector. */
  predicate BootFields(sec: Sector, size: nat, spc: nat, reserved: nat, fats: nat, entries: nat, spf: nat) {
    && Number16(sec, 11) == size && sec[13] == spc && Number16(sec, 14) == reserved && sec[16] == fats
    && Number16(sec, 17) == entries && Number16(sec, 22) == spf
  }

  /** The root directory is the run of sectors behind the FAT copies, and cluster
      c the run of spc sectors from its start. */
  lemma Regions(g: Geo, c: nat)
    requires c >= 2
    ensures forall f: nat :: CopyStart(g, f) == g.fatStart + f * g.spf
    ensures |RootLbas(g)| == g.rootSectors
    ensures forall i | 0 <= i < g.rootSectors :: RootLbas(g)[i] == g.fatStart + g.fatCount * g.spf + i
    ensures DataStart(g) == g.fatStart + g.fatCount * g.spf + g.rootSectors
    ensures |ClusterLbas(g, c)| == g.spc
    ensures forall i | 0 <= i < g.spc :: ClusterLbas(g, c)[i] == DataStart(g) + (c - 2) * g.spc + i
  {
    forall f: nat
      ensures CopyStart(g, f) == g.fatStart + f * g.spf
    {
      CopyStartFormula(g, f);
    }
    ClusterStartFormula(g, c);
    hide CopyStart, ClusterStart;
  }

  lemma CopyWriteAt(g: Geo, t: Table, f: nat, s: nat)
    requires GeoOk(g) && s < g.spf
    ensures CopyWrites(g, t, f)[s] == Write(g.fatStart + f * g.spf + s, t[512 * s..512 * s + 512])
  {
    CopyStartFormula(g, f);
  }

  /** Write f * spf + s of a save puts the bytes from 512 * s on into sector s of
      copy f, and there are no others. */
  lemma FatWriteAt(g: Geo, t: Table, f: nat, s: nat)
    requires GeoOk(g) && f < g.fatCount && s < g.spf
    ensures |FatWrites(g, t, 0)| == g.fatCount * g.spf && f * g.spf + s < |FatWrites(g, t, 0)|
    ensures FatWrites(g, t, 0)[f * g.spf + s] == Write(g.fatStart + f * g.spf + s, t[512 * s..512 * s + 512])
  {
    FatWriteFromCopy(g, t, 0, f, s);
    FatWriteCount(g, t, 0);
    TimesIs(g.spf, f);
    TimesIs(g.spf, g.fatCount);
    CopyWriteAt(g, t, f, s);
    hide FatWrites, CopyWrites, Times;
    Commute(g.spf, f);
    Commute(g.spf, g.fatCount);
  }

  lemma Commute(a: nat, b: nat)
    ensures a * b == b * a
  {
  }

  lemma {:induction false} FatWriteFromCopy(g: Geo, t: Table, x: nat, d: nat, s: nat)
    requires GeoOk(g) && x + d < g.fatCount && s < g.spf
    ensures Times(g.spf, d) + s < |FatWrites(g, t, x)|
    ensures FatWrites(g, t, x)[Times(g.spf, d) + s] == CopyWrites(g, t, x + d)[s]
    decreases d
  {
    hide FatWrites, CopyWrites;
    FatWriteSplit(g, t, x, s);
    if d > 0 {
      FatWriteFromCopy(g, t, x + 1, d - 1, s);
      FatWriteSplit(g, t, x, Times(g.spf, d) + s);
    }
  }

  lemma FatWriteSplit(g: Geo, t: Table, x: nat, j: nat)
    requires GeoOk(g) && x < g.fatCount && j < g.spf + |FatWrites(g, t, x + 1)|
    ensures |FatWrites(g, t, x)| == g.spf + |FatWrites(g, t, x + 1)|
    ensures FatWrites(g, t, x)[j] == if j < g.spf then CopyWrites(g, t, x)[j] else FatWrites(g, t, x + 1)[j - g.spf]
  {
  }

  lemma {:induction false} FatWriteCount(g: Geo, t: Table, x: nat)
    requires GeoOk(g) && x <= g.fatCount
    ensures |FatWrites(g, t, x)| == Times(g.spf, g.fatCount - x)
    decreases g.fatCount - x
  {
    if x < g.fatCount {
      FatWriteCount(g, t, x + 1);
    }
  }
}
