/** fat_write's second half and fat_mkdir keep the volume well-formed. */
module Addition {
  import opened Bytes
  import opened FatTable
  import opened Layout
  import opened Directory
  import opened FatSpec
  import opened Volume
  import opened Removal
  import opened Allocation

  // ---- writes to free clusters are not noticed

  lemma FreeSectorElsewhere(g: Geo, t: Table, ch: seq<nat>, lba: nat)
    requires GeoOk(g) && IsChain(t, ch, Limit(g)) && InFree(g, t, lba)
    ensures lba !in ChainLbas(g, ch)
  {
    var c :| 2 <= c < Limit(g) && Get(t, c) == 0 && ClusterStart(g, c) <= lba < ClusterStart(g, c) + g.spc;
    if lba in ChainLbas(g, ch) {
      var e, o := ChainLbasFrom(g, ch, lba);
      ChainElementInUse(t, ch, Limit(g), e);
      ClusterSectorsDiffer(g, e, o, c, lba - ClusterStart(g, c));
    }
  }

  lemma FreeSectorInData(g: Geo, t: Table, lba: nat)
    requires GeoOk(g) && InFree(g, t, lba)
    ensures lba >= DataStart(g)
  {
    var c :| 2 <= c < Limit(g) && Get(t, c) == 0 && ClusterStart(g, c) <= lba < ClusterStart(g, c) + g.spc;
    ClusterAfterRoot(g, c);
  }

  ghost predicate AllFree(g: Geo, t: Table, ws: seq<Write>)
    requires GeoOk(g)
  {
    forall w | w in ws :: InFree(g, t, w.lba)
  }

  lemma AllFreeSame(g: Geo, d: Disk, t: Table, ws: seq<Write>, lbas: seq<nat>)
    requires GeoOk(g) && AllFree(g, t, ws)
    requires forall lba | lba in lbas :: !InFree(g, t, lba)
    ensures SameAt(d, Apply(d, ws), lbas)
  {
    forall i | 0 <= i < |lbas| && lbas[i] < |d|
      ensures Apply(d, ws)[lbas[i]] == d[lbas[i]]
    {
      assert lbas[i] in lbas;
      ApplyMissing(d, ws, lbas[i]);
    }
  }

  lemma AllFreeUntouched(g: Geo, d: Disk, t: Table, sh: Shape, ws: seq<Write>)
    requires GeoOk(g) && ShapeOk(g, t, sh) && AllFree(g, t, ws)
    ensures Untouched(g, d, Apply(d, ws), sh)
  {
    forall lba | lba in RootLbas(g)
      ensures !InFree(g, t, lba)
    {
      if InFree(g, t, lba) {
        FreeSectorInData(g, t, lba);
      }
    }
    AllFreeSame(g, d, t, ws, RootLbas(g));
    forall h | h in sh.chains
      ensures SameAt(d, Apply(d, ws), ChainLbas(g, sh.chains[h]))
    {
      forall lba | lba in ChainLbas(g, sh.chains[h])
        ensures !InFree(g, t, lba)
      {
        if InFree(g, t, lba) {
          FreeSectorElsewhere(g, t, sh.chains[h], lba);
        }
      }
      AllFreeSame(g, d, t, ws, ChainLbas(g, sh.chains[h]));
    }
  }

  lemma {:induction false} HighWritesTable(g: Geo, d: Disk, ws: seq<Write>)
    requires GeoOk(g) && RootStart(g) <= |d| && forall w | w in ws :: w.lba >= RootStart(g)
    ensures TableBytes(g, Apply(d, ws)) == TableBytes(g, d)
    ensures CopiesAgree(g, d) ==> CopiesAgree(g, Apply(d, ws))
    decreases |ws|
  {
    if ws != [] {
      assert ws[0] in ws;
      TableUnaffected(g, d, ws[0]);
      if CopiesAgree(g, d) {
        CopiesUnaffected(g, d, ws[0]);
      }
      HighWritesTable(g, Put(d, ws[0]), ws[1..]);
    }
  }

  lemma AllFreeTable(g: Geo, d: Disk, t: Table, ws: seq<Write>)
    requires GeoOk(g) && RootStart(g) <= |d| && AllFree(g, t, ws)
    ensures TableBytes(g, Apply(d, ws)) == TableBytes(g, d)
    ensures CopiesAgree(g, d) ==> CopiesAgree(g, Apply(d, ws))
  {
    forall w | w in ws
      ensures w.lba >= RootStart(g)
    {
      FreeSectorInData(g, t, w.lba);
    }
    HighWritesTable(g, d, ws);
  }

  /** Entries below the limit lie inside the table proper. */
  lemma TailIrrelevant(g: Geo, d: Disk, e: Disk, tail: seq<Byte>, tail': seq<Byte>)
    requires GeoOk(g) && RootStart(g) <= |d| == |e| && TailOk(g, tail) && TailOk(g, tail')
    requires TableBytes(g, d) == TableBytes(g, e)
    ensures KeepsUsed(g, Buffer(g, d, tail), Buffer(g, e, tail'))
  {
    forall c | 0 <= c < Limit(g)
      ensures Get(Buffer(g, e, tail'), c) == Get(Buffer(g, d, tail), c)
    {
      assert Offset(c) + 1 < SECTOR_SIZE * g.spf && Offset(c) + 1 < BUFFER_SIZE;
      GetIs(Buffer(g, d, tail), c);
      GetIs(Buffer(g, e, tail'), c);
    }
  }

  lemma UntouchedTwice(g: Geo, d: Disk, e: Disk, f: Disk, sh: Shape)
    requires Untouched(g, d, e, sh) && Untouched(g, e, f, sh)
    ensures Untouched(g, d, f, sh)
  {
  }

  /** The state with the data written and the changed table saved. */
  lemma DataAndTable(g: Geo, d: Disk, tail: seq<Byte>, sh: Shape, ws: seq<Write>, u: Table)
    requires Mounted(g, d, tail, sh) && AllFree(g, Buffer(g, d, tail), ws)
    requires KeepsUsed(g, Buffer(g, d, tail), u)
    ensures var e := Apply(Apply(d, ws), FatWrites(g, u, 0));
      && Mounted(g, e, TailOf(g, u), sh) && Buffer(g, e, TailOf(g, u)) == u && CopiesAgree(g, e)
      && Untouched(g, d, e, sh) && SameSlots(g, d, sh, e, sh)
  {
    var t := Buffer(g, d, tail);
    var d1 := Apply(d, ws);
    var e := Apply(d1, FatWrites(g, u, 0));
    AllFreeUntouched(g, d, t, sh, ws);
    SaveTable(g, d1, u);
    OutsideFatUntouched(g, d1, t, e, sh);
    UntouchedTwice(g, d, d1, e, sh);
    Unnoticed(g, d, tail, e, TailOf(g, u), sh);
  }

  // ---- a new chain

  function WithChain(sh: Shape, ch: seq<nat>): Shape
    requires ch != []
  {
    sh.(chains := sh.chains[ch[0] := ch])
  }

  predicate AllUnused(t: Table, ch: seq<nat>) {
    forall i | 0 <= i < |ch| :: ch[i] < ENTRIES && Get(t, ch[i]) == 0
  }

  lemma UnusedApart(t: Table, ch: seq<nat>, other: seq<nat>, limit: nat)
    requires limit <= 0xFF0 && IsChain(t, other, limit) && AllUnused(t, ch)
    ensures Apart(ch, other)
  {
    forall x | x in other
      ensures x !in ch
    {
      ChainElementInUse(t, other, limit, x);
    }
  }

  lemma NewChainShape(g: Geo, t: Table, u: Table, sh: Shape, ch: seq<nat>)
    requires GeoOk(g) && ShapeOk(g, t, sh) && KeepsUsed(g, t, u)
    requires IsChain(u, ch, Limit(g)) && AllUnused(t, ch)
    ensures ShapeOk(g, u, WithChain(sh, ch)) && ch[0] !in sh.chains && ch[0] != 0
  {
    ShapeKept(g, t, u, sh);
    assert ch[0] >= 2;
    forall h | h in sh.chains
      ensures Apart(ch, sh.chains[h]) && Apart(sh.chains[h], ch) && h != ch[0]
    {
      UnusedApart(t, ch, sh.chains[h], Limit(g));
      assert sh.chains[h][0] in sh.chains[h] && ch[0] in ch;
    }
  }

  lemma SlotOkMore(g: Geo, sh: Shape, ch: seq<nat>, x: nat, k: nat, sl: Slot)
    requires x in sh.depth && SlotOk(g, sh, x, k, sl) && ch != [] && ch[0] !in sh.chains
    ensures SlotOk(g, WithChain(sh, ch), x, k, sl)
  {
  }

  lemma NewChainMounted(g: Geo, d: Disk, tail: seq<Byte>, sh: Shape, t: Table, ch: seq<nat>)
    requires Mounted(g, d, tail, sh) && ShapeOk(g, t, sh) && KeepsUsed(g, t, Buffer(g, d, tail))
    requires IsChain(Buffer(g, d, tail), ch, Limit(g)) && AllUnused(t, ch)
    ensures Mounted(g, d, tail, WithChain(sh, ch)) && ch[0] !in sh.chains
    ensures SameSlots(g, d, sh, d, WithChain(sh, ch))
  {
    var sh' := WithChain(sh, ch);
    NewChainShape(g, t, Buffer(g, d, tail), sh, ch);
    assert forall x | x in sh.depth :: LbasOf(g, sh', x) == LbasOf(g, sh, x);
    forall x | x in sh.depth
      ensures DirOk(g, sh', x, DirSlots(g, d, sh, x))
    {
      assert DirOk(g, sh, x, DirSlots(g, d, sh, x));
      forall k | 0 <= k < |DirSlots(g, d, sh, x)|
        ensures SlotOk(g, sh', x, k, DirSlots(g, d, sh, x)[k])
      {
        SlotOkMore(g, sh, ch, x, k, DirSlots(g, d, sh, x)[k]);
      }
    }
  }

  /** Every chain that a slot refers to is one of the shape's. */
  lemma UnknownNobodyRefers(g: Geo, d: Disk, tail: seq<Byte>, sh: Shape, c: nat)
    requires Mounted(g, d, tail, sh) && c != 0 && c !in sh.chains
    ensures NobodyRefers(g, d, sh, c)
  {
    forall x, j | x in sh.depth && 0 <= j < |DirSlots(g, d, sh, x)|
      ensures !Refers(DirSlots(g, d, sh, x)[j], c)
    {
      SlotIsOk(g, d, tail, sh, x, j);
    }
  }

  // ---- the new slot

  function WithOwner(sh: Shape, c: nat, x: nat, k: nat): Shape {
    sh.(owner := sh.owner[c := (x, k)])
  }

  lemma AddSlotOutcome(g: Geo, st: State, t: Table, ws: seq<Write>, sl: Slot, sh: Shape)
    requires StateOk(g, st) && Live(g, State(Apply(st.disk, ws), st.cur, TailOf(g, t)), sh)
    requires Buffer(g, Apply(st.disk, ws), TailOf(g, t)) == t
    ensures var d := Apply(st.disk, ws);
      AddSlot(g, st, t, ws, sl) ==
        match Find(DirSlots(g, d, sh, st.cur), Vacant, 0)
        case None => Outcome(-1, ws, st.cur, TailOf(g, t))
        case Some(k) => Outcome(0, ws + [SlotWrite(d, LbasOf(g, sh, st.cur), k, sl)], st.cur, TailOf(g, t))
  {
    var d := Apply(st.disk, ws);
    FindAgrees(g, State(d, st.cur, TailOf(g, t)), sh, Vacant);
    match Find(DirSlots(g, d, sh, st.cur), Vacant, 0)
    case None =>
    case Some(k) =>
      WriteBackAgrees(g, t, sh, st.cur, k / SLOTS);
  }

  lemma VacantZeroTail(slots: seq<Slot>, k: nat, sl: Slot)
    requires ZeroTail(slots) && Find(slots, Vacant, 0) == Some(k) && sl[0] != 0
    ensures ZeroTail(slots[k := sl])
  {
    assert forall x | 0 <= x < k :: Judge(slots[x], Vacant) == Skip;
    ZeroTailFilled(slots, k, sl);
  }

  lemma SlotOkOwner(g: Geo, sh: Shape, c: nat, x: nat, k: nat, y: nat, j: nat, sl: Slot)
    requires y in sh.depth && SlotOk(g, sh, y, j, sl) && (c != 0 ==> !Refers(sl, c))
    ensures SlotOk(g, WithOwner(sh, c, x, k), y, j, sl)
  {
  }

  lemma OtherSlotsFit(g: Geo, d: Disk, tail: seq<Byte>, sh: Shape, c: nat, x: nat, k: nat)
    requires Mounted(g, d, tail, sh) && (c != 0 ==> NobodyRefers(g, d, sh, c))
    ensures forall y, j | y in sh.depth && 0 <= j < |DirSlots(g, d, sh, y)| ::
      SlotOk(g, WithOwner(sh, c, x, k), y, j, DirSlots(g, d, sh, y)[j])
  {
    forall y, j | y in sh.depth && 0 <= j < |DirSlots(g, d, sh, y)|
      ensures SlotOk(g, WithOwner(sh, c, x, k), y, j, DirSlots(g, d, sh, y)[j])
    {
      SlotIsOk(g, d, tail, sh, y, j);
      SlotOkOwner(g, sh, c, x, k, y, j, DirSlots(g, d, sh, y)[j]);
    }
  }

  lemma AddSlotKeeps(g: Geo, st: State, sh: Shape, k: nat, sl: Slot)
    requires Live(g, st, sh) && Find(DirSlots(g, st.disk, sh, st.cur), Vacant, 0) == Some(k)
    requires sl[0] != 0 && SlotOk(g, WithOwner(sh, FirstCluster(sl), st.cur, k), st.cur, k, sl)
    requires FirstCluster(sl) != 0 ==> NobodyRefers(g, st.disk, sh, FirstCluster(sl))
    ensures var e := WithSlot(g, st.disk, sh, st.cur, k, sl);
      Live(g, State(e, st.cur, st.tail), WithOwner(sh, FirstCluster(sl), st.cur, k))
  {
    var c := FirstCluster(sl);
    assert DirOk(g, sh, st.cur, DirSlots(g, st.disk, sh, st.cur));
    VacantZeroTail(DirSlots(g, st.disk, sh, st.cur), k, sl);
    OtherSlotsFit(g, st.disk, st.tail, sh, c, st.cur, k);
    SlotWriteKeeps(g, st.disk, st.tail, sh, st.cur, k, sl, sh.owner[c := (st.cur, k)]);
  }
}
