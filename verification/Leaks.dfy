/** Lost clusters: in use, but on the chain of nothing that can be reached from
    the root. When each operation loses some, and that they stay lost. */
module Leaks {
  import opened Bytes
  import opened Names
  import opened FatTable
  import opened Layout
  import opened Directory
  import opened FatSpec
  import opened Volume
  import opened Removal
  import opened Allocation
  import opened Addition
  import opened Subdirectories
  import opened Operations
  import opened Runs
  import opened Reading
  import opened Frame
  import opened RoundTrip
  import opened Renaming
  import opened NewDirectories
  import opened Tree
  import opened Copies

  /** A slot of a directory that can be reached refers to cluster h. */
  ghost predicate RefersAt(g: Geo, st: State, x: nat, j: nat, h: nat)
    requires StateOk(g, st)
  {
    Reachable(g, st, x) && j < |SlotsOf(g, st, x)| && Refers(SlotsOf(g, st, x)[j], h)
  }

  ghost predicate Referred(g: Geo, st: State, h: nat)
    requires StateOk(g, st)
  {
    h != 0 && exists x: nat, j: nat :: RefersAt(g, st, x, j, h)
  }

  predicate OnChain(g: Geo, st: State, h: nat, c: nat)
    requires StateOk(g, st)
  {
    c in Walk(TableOf(g, st), h, 0xFEF, ENTRIES)
  }

  ghost predicate Held(g: Geo, st: State, c: nat)
    requires StateOk(g, st)
  {
    exists h: nat :: Referred(g, st, h) && OnChain(g, st, h, c)
  }

  predicate InUse(g: Geo, st: State, c: nat)
    requires StateOk(g, st)
  {
    2 <= c < Limit(g) && Get(TableOf(g, st), c) != 0
  }

  ghost predicate Lost(g: Geo, st: State, c: nat)
    requires StateOk(g, st)
  {
    InUse(g, st, c) && !Held(g, st, c)
  }

  /** Every cluster in use belongs to something that can be reached. */
  ghost predicate NoLoss(g: Geo, st: State)
    requires StateOk(g, st)
  {
    forall c: nat :: !Lost(g, st, c)
  }

  // ---- a well-formed volume

  lemma ReferredKnown(g: Geo, st: State, sh: Shape, x: nat, j: nat, h: nat)
    requires Live(g, st, sh) && StateOk(g, st) && RefersAt(g, st, x, j, h) && h != 0
    ensures h in sh.chains && h in sh.owner && sh.owner[h] == (x, j)
    ensures x in sh.depth && j < |DirSlots(g, st.disk, sh, x)| && DirSlots(g, st.disk, sh, x)[j] == SlotsOf(g, st, x)[j]
  {
    ReachableLive(g, st, sh, x);
    SlotsOfAre(g, st, sh, x);
    SlotIsOk(g, st.disk, st.tail, sh, x, j);
    hide Reachable, SlotsOf, DirSlots, IsFile, IsSubdir, FirstCluster, ChainsOk, ChainsApart, DirOk;
  }

  lemma ReferredInShape(g: Geo, st: State, sh: Shape, h: nat)
    requires Live(g, st, sh) && StateOk(g, st) && Referred(g, st, h)
    ensures h in sh.chains
  {
    hide Live, Refers, SlotsOf, DirSlots, StateOk;
    var x: nat, j: nat :| RefersAt(g, st, x, j, h);
    ReferredKnown(g, st, sh, x, j, h);
  }

  lemma OnChainIs(g: Geo, st: State, sh: Shape, h: nat, c: nat)
    requires Live(g, st, sh) && StateOk(g, st) && h in sh.chains
    ensures OnChain(g, st, h, c) <==> c in sh.chains[h]
    ensures c in sh.chains[h] ==> InUse(g, st, c)
  {
    hide DirOk, ChainsApart, DirsOnDevice, Joined, Get;
    var t, ch := TableOf(g, st), sh.chains[h];
    DistinctBounded(ch, Limit(g));
    WalkIsChain(t, ch, Limit(g), 0xFEF, ENTRIES);
    if c in ch {
      ChainElementInUse(t, ch, Limit(g), c);
    }
  }

  /** What is held, by shape. */
  lemma HeldIs(g: Geo, st: State, sh: Shape, c: nat)
    requires Live(g, st, sh) && StateOk(g, st)
    ensures Held(g, st, c) <==> exists h: nat :: Referred(g, st, h) && h in sh.chains && c in sh.chains[h]
  {
    hide Live, StateOk, Referred, OnChain;
    if Held(g, st, c) {
      var h: nat :| Referred(g, st, h) && OnChain(g, st, h, c);
      ReferredInShape(g, st, sh, h);
      OnChainIs(g, st, sh, h, c);
    }
    if h: nat :| Referred(g, st, h) && h in sh.chains && c in sh.chains[h] {
      OnChainIs(g, st, sh, h, c);
    }
  }

  // ---- what a step does to the lost clusters

  /** Every chain of sh is one of sh1. */
  predicate KeepsChains(sh: Shape, sh1: Shape) {
    forall h | h in sh.chains :: h in sh1.chains && sh1.chains[h] == sh.chains[h]
  }

  /** The clusters ch, free before, are in use. */
  ghost predicate TakesChain(g: Geo, st: State, st1: State, ch: seq<nat>)
    requires StateOk(g, st) && StateOk(g, st1)
  {
    && (forall c: nat | c in ch :: !InUse(g, st, c))
    && forall c: nat :: InUse(g, st1, c) <==> InUse(g, st, c) || c in ch
  }

  /** A step that takes the chain ch and changes what is referred to by at most
      the new chain loses exactly ch, and that only if nothing refers to it. */
  lemma LostAfterTaking(g: Geo, st: State, sh: Shape, st1: State, sh1: Shape, ch: seq<nat>, seen: bool, c: nat)
    requires Live(g, st, sh) && Live(g, st1, sh1) && StateOk(g, st) && StateOk(g, st1)
    requires KeepsChains(sh, sh1) && TakesChain(g, st, st1, ch)
    requires seen && ch != [] ==> ch[0] in sh1.chains && sh1.chains[ch[0]] == ch
    requires forall h: nat :: Referred(g, st1, h) <==> Referred(g, st, h) || (seen && ch != [] && h == ch[0])
    ensures Lost(g, st1, c) <==> Lost(g, st, c) || (!seen && c in ch)
  {
    hide Live, StateOk, Referred, InUse, OnChain;
    HeldIs(g, st, sh, c);
    HeldIs(g, st1, sh1, c);
    forall h: nat | Referred(g, st, h)
      ensures h in sh.chains && (c in sh.chains[h] ==> InUse(g, st, c))
    {
      ReferredInShape(g, st, sh, h);
      OnChainIs(g, st, sh, h, c);
    }
  }

  /** The clusters freed are no longer in use. */
  ghost predicate Frees(g: Geo, st: State, st1: State, freed: seq<nat>)
    requires StateOk(g, st) && StateOk(g, st1)
  {
    forall c: nat :: InUse(g, st1, c) <==> InUse(g, st, c) && c !in freed
  }

  /** Chain h was referred to and is not any more. */
  ghost predicate Dropped(g: Geo, st: State, st1: State, h: nat)
    requires StateOk(g, st) && StateOk(g, st1)
  {
    Referred(g, st, h) && !Referred(g, st1, h)
  }

  /** A step after which fewer chains are referred to loses exactly those of
      their clusters that it does not free. */
  lemma LostAfterDropping(g: Geo, st: State, sh: Shape, st1: State, sh1: Shape, freed: seq<nat>, c: nat)
    requires Live(g, st, sh) && Live(g, st1, sh1) && StateOk(g, st) && StateOk(g, st1)
    requires KeepsChains(sh1, sh) && Frees(g, st, st1, freed)
    requires forall h: nat :: Referred(g, st1, h) ==> Referred(g, st, h)
    requires forall x: nat | x in freed :: Held(g, st, x)
    ensures Lost(g, st1, c) <==>
      Lost(g, st, c) || (c !in freed && exists h: nat :: Dropped(g, st, st1, h) && OnChain(g, st, h, c))
  {
    hide Live, StateOk, Referred, InUse, OnChain;
    if Held(g, st1, c) {
      StillHeld(g, st, sh, st1, sh1, c);
    }
    if h: nat :| Dropped(g, st, st1, h) && OnChain(g, st, h, c) {
      ReferredInShape(g, st, sh, h);
      OnChainIs(g, st, sh, h, c);
      DroppedNotHeld(g, st, sh, st1, sh1, h, c);
    }
    if Held(g, st, c) {
      var h: nat :| Referred(g, st, h) && OnChain(g, st, h, c);
      ReferredInShape(g, st, sh, h);
      OnChainIs(g, st, sh, h, c);
      if Referred(g, st1, h) {
        ReferredInShape(g, st1, sh1, h);
        OnChainIs(g, st1, sh1, h, c);
        assert Held(g, st1, c);
      } else {
        assert Dropped(g, st, st1, h);
      }
    }
  }

  lemma StillHeld(g: Geo, st: State, sh: Shape, st1: State, sh1: Shape, c: nat)
    requires Live(g, st, sh) && Live(g, st1, sh1) && StateOk(g, st) && StateOk(g, st1) && KeepsChains(sh1, sh)
    requires forall h: nat :: Referred(g, st1, h) ==> Referred(g, st, h)
    requires Held(g, st1, c)
    ensures Held(g, st, c)
  {
    hide Live, StateOk, Referred, InUse, OnChain;
    HeldIs(g, st, sh, c);
    HeldIs(g, st1, sh1, c);
  }

  lemma DroppedNotHeld(g: Geo, st: State, sh: Shape, st1: State, sh1: Shape, h: nat, c: nat)
    requires Live(g, st, sh) && Live(g, st1, sh1) && StateOk(g, st) && StateOk(g, st1) && KeepsChains(sh1, sh)
    requires !Referred(g, st1, h) && h in sh.chains && c in sh.chains[h]
    ensures !Held(g, st1, c)
  {
    hide StateOk, Referred, InUse, OnChain;
    HeldIs(g, st1, sh1, c);
    LiveApart(g, st, sh);
    hide Live;
    forall i: nat | Referred(g, st1, i) && i in sh1.chains
      ensures c !in sh1.chains[i]
    {
      assert Apart(sh.chains[h], sh.chains[i]);
    }
  }

  lemma LiveApart(g: Geo, st: State, sh: Shape)
    requires Live(g, st, sh)
    ensures ChainsApart(sh.chains)
  {
  }

  // ---- which directories can be reached

  lemma Prefix(g: Geo, st: State, p: seq<nat>)
    requires StateOk(g, st) && Path(g, st, p) && |p| > 1
    ensures Path(g, st, p[..|p| - 1]) && Reachable(g, st, p[|p| - 2]) && ChildOf(g, st, p[|p| - 2], p[|p| - 1])
  {
    hide ChildOf, StateOk;
    var q := p[..|p| - 1];
    assert forall i, j | 0 <= i < |q| - 1 && j == i + 1 :: q[i] == p[i] && q[j] == p[j];
    ReachableBy(g, st, q, p[|p| - 2]);
  }

  lemma ChildReachable(g: Geo, st: State, x: nat, y: nat)
    requires StateOk(g, st) && Reachable(g, st, x) && ChildOf(g, st, x, y)
    ensures Reachable(g, st, y)
  {
    hide ChildOf, StateOk;
    var p: seq<nat> :| Path(g, st, p) && p[|p| - 1] == x;
    PathExtended(g, st, p, y);
  }

  /** The directories that can be reached in both states have the same slots,
      but for those at the given places. */
  ghost predicate SameBut(g: Geo, st: State, st1: State, at: set<(nat, nat)>)
    requires StateOk(g, st) && StateOk(g, st1)
  {
    forall x: nat | Reachable(g, st, x) && Reachable(g, st1, x) ::
      |SlotsOf(g, st1, x)| == |SlotsOf(g, st, x)| && SlotsSameBut(SlotsOf(g, st, x), SlotsOf(g, st1, x), x, at)
  }

  predicate SlotsSameBut(a: seq<Slot>, b: seq<Slot>, x: nat, at: set<(nat, nat)>)
    requires |a| == |b|
  {
    forall j | 0 <= j < |a| && (x, j) !in at :: a[j] == b[j]
  }

  /** The subdirectories at the given places are among those in gone. */
  ghost predicate OnlyGone(g: Geo, st: State, at: set<(nat, nat)>, gone: set<nat>)
    requires StateOk(g, st)
  {
    forall x: nat, j: nat | (x, j) in at && j < |SlotsOf(g, st, x)| && IsSubdir(SlotsOf(g, st, x)[j]) ::
      FirstCluster(SlotsOf(g, st, x)[j]) in gone
  }

  ghost predicate Childless(g: Geo, st: State, gone: set<nat>)
    requires StateOk(g, st)
  {
    forall x: nat, y: nat | x in gone :: !ChildOf(g, st, x, y)
  }

  lemma ChildStays(g: Geo, st: State, st1: State, at: set<(nat, nat)>, gone: set<nat>, x: nat, y: nat)
    requires StateOk(g, st) && StateOk(g, st1) && SameBut(g, st, st1, at) && OnlyGone(g, st, at, gone)
    requires Reachable(g, st, x) && Reachable(g, st1, x) && ChildOf(g, st, x, y) && y !in gone
    ensures ChildOf(g, st1, x, y)
  {
    hide StateOk, Reachable, SlotsOf, IsSubdir, FirstCluster;
    var a, b := SlotsOf(g, st, x), SlotsOf(g, st1, x);
    var j :| 0 <= j < |a| && IsSubdir(a[j]) && FirstCluster(a[j]) == y;
    assert (x, j) !in at;
    assert b[j] == a[j];
  }

  /** If only subdirectories without children disappear, everything else can
      still be reached. */
  lemma {:induction false} ReachStays(g: Geo, st: State, st1: State, at: set<(nat, nat)>, gone: set<nat>, p: seq<nat>)
    requires StateOk(g, st) && StateOk(g, st1) && SameBut(g, st, st1, at) && OnlyGone(g, st, at, gone)
    requires Childless(g, st, gone) && Path(g, st, p) && p[|p| - 1] !in gone
    ensures Reachable(g, st1, p[|p| - 1])
    decreases |p|
  {
    hide ChildOf, StateOk, Reachable, SameBut, OnlyGone;
    if |p| == 1 {
      RootReachable(g, st1);
    } else {
      Prefix(g, st, p);
      var x, y := p[|p| - 2], p[|p| - 1];
      ReachStays(g, st, st1, at, gone, p[..|p| - 1]);
      ChildStays(g, st, st1, at, gone, x, y);
      ChildReachable(g, st1, x, y);
    }
  }

  lemma AllReachStay(g: Geo, st: State, st1: State, at: set<(nat, nat)>, gone: set<nat>)
    requires StateOk(g, st) && StateOk(g, st1) && SameBut(g, st, st1, at) && OnlyGone(g, st, at, gone)
    requires Childless(g, st, gone)
    ensures forall x: nat | Reachable(g, st, x) && x !in gone :: Reachable(g, st1, x)
  {
    hide StateOk, SameBut, OnlyGone, Childless, ChildOf;
    forall x: nat | Reachable(g, st, x) && x !in gone
      ensures Reachable(g, st1, x)
    {
      var p: seq<nat> :| Path(g, st, p) && p[|p| - 1] == x;
      ReachStays(g, st, st1, at, gone, p);
    }
  }

  // ---- what is referred to

  /** Directory x refers to no cluster. */
  ghost predicate Quiet(g: Geo, st: State, x: nat)
    requires StateOk(g, st)
  {
    forall j: nat, h: nat | h != 0 :: !RefersAt(g, st, x, j, h)
  }

  lemma RefsStay(g: Geo, st: State, st1: State, at: set<(nat, nat)>, gone: set<nat>, h: nat)
    requires StateOk(g, st) && StateOk(g, st1) && SameBut(g, st, st1, at)
    requires forall x: nat | Reachable(g, st, x) && x !in gone :: Reachable(g, st1, x)
    requires forall x: nat | x in gone :: Quiet(g, st, x)
    requires Referred(g, st, h) && forall x: nat, j: nat | (x, j) in at :: !RefersAt(g, st, x, j, h)
    ensures Referred(g, st1, h)
  {
    hide StateOk, Reachable, SlotsOf, Refers;
    var x: nat, j: nat :| RefersAt(g, st, x, j, h);
    assert x !in gone && (x, j) !in at;
    assert SlotsOf(g, st1, x)[j] == SlotsOf(g, st, x)[j];
    assert RefersAt(g, st1, x, j, h);
  }

  lemma QuietChildless(g: Geo, st: State, sh: Shape, x: nat)
    requires Live(g, st, sh) && StateOk(g, st) && Reachable(g, st, x) && Quiet(g, st, x)
    ensures forall y: nat :: !ChildOf(g, st, x, y)
  {
    ReachableLive(g, st, sh, x);
    SlotsOfAre(g, st, sh, x);
    hide Reachable, SlotsOf, ShapeOk;
    forall k | 0 <= k < |SlotsOf(g, st, x)|
      ensures !IsSubdir(SlotsOf(g, st, x)[k])
    {
      SlotIsOk(g, st.disk, st.tail, sh, x, k);
      var h := FirstCluster(SlotsOf(g, st, x)[k]);
      assert h != 0 ==> !RefersAt(g, st, x, k, h);
    }
  }

  // ---- steps that change no slot

  lemma SameSlotsBut(g: Geo, st: State, sh: Shape, st1: State, sh1: Shape)
    requires Live(g, st, sh) && Live(g, st1, sh1) && StateOk(g, st) && StateOk(g, st1)
    requires SameSlots(g, st.disk, sh, st1.disk, sh1)
    ensures SameBut(g, st, st1, {}) && SameBut(g, st1, st, {})
  {
    hide Reachable, SlotsOf, DirSlots, ShapeOk, DirOk, StateOk;
    forall x: nat | Reachable(g, st, x) && Reachable(g, st1, x)
      ensures SlotsOf(g, st1, x) == SlotsOf(g, st, x)
    {
      ReachableLive(g, st, sh, x);
      ReachableLive(g, st1, sh1, x);
      SlotsOfAre(g, st, sh, x);
      SlotsOfAre(g, st1, sh1, x);
    }
  }

  lemma SameRefs(g: Geo, st: State, st1: State)
    requires StateOk(g, st) && StateOk(g, st1) && SameBut(g, st, st1, {}) && SameBut(g, st1, st, {})
    ensures forall h: nat :: Referred(g, st1, h) <==> Referred(g, st, h)
  {
    hide StateOk, SameBut, Referred, Reachable;
    AllReachStay(g, st, st1, {}, {});
    AllReachStay(g, st1, st, {}, {});
    forall h: nat
      ensures Referred(g, st1, h) <==> Referred(g, st, h)
    {
      if Referred(g, st, h) {
        RefsStay(g, st, st1, {}, {}, h);
      }
      if Referred(g, st1, h) {
        RefsStay(g, st1, st, {}, {}, h);
      }
    }
  }

  // ---- steps that change one slot

  lemma OneSlotBut(g: Geo, st: State, sh: Shape, st1: State, sh1: Shape, k: nat, sl: Slot)
    requires Live(g, st, sh) && Live(g, st1, sh1) && StateOk(g, st) && StateOk(g, st1)
    requires OneSlotChanged(g, st, sh, st1, sh1, k, sl)
    ensures SameBut(g, st, st1, {(st.cur, k)}) && SameBut(g, st1, st, {(st.cur, k)})
    ensures k < |SlotsOf(g, st, st.cur)| && SlotsOf(g, st, st.cur)[k] == DirSlots(g, st.disk, sh, st.cur)[k]
    ensures k < |SlotsOf(g, st1, st.cur)| && SlotsOf(g, st1, st.cur)[k] == sl
  {
    hide Reachable, SlotsOf, DirSlots, ShapeOk, DirOk, StateOk, SameFiles;
    forall x: nat | Reachable(g, st, x) && Reachable(g, st1, x)
      ensures |SlotsOf(g, st1, x)| == |SlotsOf(g, st, x)|
      ensures SlotsSameBut(SlotsOf(g, st, x), SlotsOf(g, st1, x), x, {(st.cur, k)})
      ensures SlotsSameBut(SlotsOf(g, st1, x), SlotsOf(g, st, x), x, {(st.cur, k)})
    {
      ReachableLive(g, st, sh, x);
      ReachableLive(g, st1, sh1, x);
      SlotsOfAre(g, st, sh, x);
      SlotsOfAre(g, st1, sh1, x);
    }
    SlotsOfAre(g, st, sh, st.cur);
    SlotsOfAre(g, st1, sh1, st.cur);
  }

  /** The slot at k of the current directory was old and is sl. */
  ghost predicate Step(g: Geo, st: State, sh: Shape, st1: State, sh1: Shape, k: nat, before: Slot, sl: Slot) {
    && Live(g, st, sh) && Live(g, st1, sh1) && StateOk(g, st) && StateOk(g, st1) && Reachable(g, st, st.cur)
    && SameBut(g, st, st1, {(st.cur, k)}) && SameBut(g, st1, st, {(st.cur, k)})
    && k < |SlotsOf(g, st, st.cur)| && SlotsOf(g, st, st.cur)[k] == before
    && k < |SlotsOf(g, st1, st.cur)| && SlotsOf(g, st1, st.cur)[k] == sl
  }

  /** A chain has one owner. */
  lemma OneReference(g: Geo, st: State, sh: Shape, x: nat, j: nat, y: nat, i: nat, h: nat)
    requires Live(g, st, sh) && StateOk(g, st) && h != 0 && RefersAt(g, st, x, j, h) && RefersAt(g, st, y, i, h)
    ensures x == y && j == i
  {
    hide Live, StateOk, RefersAt;
    ReferredKnown(g, st, sh, x, j, h);
    ReferredKnown(g, st, sh, y, i, h);
  }

  /** If the directories that can be reached are the same but for some that
      refer to nothing, what is referred to changes by the slot alone. */
  lemma StepRefs(g: Geo, st: State, sh: Shape, st1: State, sh1: Shape, k: nat, before: Slot, sl: Slot, quiet: set<nat>)
    requires Step(g, st, sh, st1, sh1, k, before, sl) && st.cur !in quiet
    requires forall x: nat | x !in quiet :: Reachable(g, st, x) <==> Reachable(g, st1, x)
    requires forall x: nat | x in quiet :: Quiet(g, st, x) && Quiet(g, st1, x)
    ensures forall h: nat | h != 0 ::
      Referred(g, st1, h) <==> Refers(sl, h) || (Referred(g, st, h) && !Refers(before, h))
  {
    hide Live, StateOk, Reachable, SlotsOf, Refers, SameBut, Quiet;
    forall h: nat | h != 0
      ensures Referred(g, st1, h) <==> Refers(sl, h) || (Referred(g, st, h) && !Refers(before, h))
    {
      assert Refers(sl, h) <==> RefersAt(g, st1, st.cur, k, h);
      assert Refers(before, h) <==> RefersAt(g, st, st.cur, k, h);
      if Referred(g, st, h) && !Refers(before, h) {
        RefsStay(g, st, st1, {(st.cur, k)}, quiet, h);
      }
      if Referred(g, st1, h) && !Refers(sl, h) {
        RefsStay(g, st1, st, {(st.cur, k)}, quiet, h);
        if Refers(before, h) {
          NotElsewhere(g, st, sh, st1, sh1, k, before, sl, quiet, h);
        }
      }
    }
  }

  lemma NotElsewhere(g: Geo, st: State, sh: Shape, st1: State, sh1: Shape, k: nat, before: Slot, sl: Slot,
      quiet: set<nat>, h: nat)
    requires Step(g, st, sh, st1, sh1, k, before, sl) && h != 0 && Refers(before, h) && !Refers(sl, h)
    requires forall x: nat | x !in quiet :: Reachable(g, st, x) <==> Reachable(g, st1, x)
    requires forall x: nat | x in quiet :: Quiet(g, st1, x)
    ensures !Referred(g, st1, h)
  {
    hide Live, StateOk, Reachable, SlotsOf, Refers;
    forall x: nat, j: nat
      ensures !RefersAt(g, st1, x, j, h)
    {
      if RefersAt(g, st1, x, j, h) {
        assert x !in quiet && (x, j) != (st.cur, k);
        assert SlotsOf(g, st1, x)[j] == SlotsOf(g, st, x)[j];
        OneReference(g, st, sh, x, j, st.cur, k, h);
      }
    }
  }

  /** A file's slot, or a vacant one, does not change what can be reached. */
  lemma FileStepRefs(g: Geo, st: State, sh: Shape, st1: State, sh1: Shape, k: nat, before: Slot, sl: Slot)
    requires Step(g, st, sh, st1, sh1, k, before, sl) && !IsSubdir(before) && !IsSubdir(sl)
    ensures forall h: nat | h != 0 ::
      Referred(g, st1, h) <==> Refers(sl, h) || (Referred(g, st, h) && !Refers(before, h))
  {
    hide Live, StateOk, Reachable, SlotsOf, Refers, SameBut, IsSubdir;
    AllReachStay(g, st, st1, {(st.cur, k)}, {});
    AllReachStay(g, st1, st, {(st.cur, k)}, {});
    StepRefs(g, st, sh, st1, sh1, k, before, sl, {});
  }

  // ---- fat_write

  /** The slot of a file, or one that reads as deleted. */
  ghost predicate FileRef(sl: Slot, shown: bool, h: nat) {
    !IsSubdir(sl) && forall i: nat | i != 0 :: Refers(sl, i) <==> shown && i == h
  }

  lemma VacantRef(sl: Slot)
    requires Judge(sl, Vacant) == Hit || !IsLive(sl)
    ensures FileRef(sl, false, 0)
  {
  }

  lemma MarkedRef(sl: Slot)
    ensures FileRef(Marked(sl), false, 0)
  {
    VacantRef(Marked(sl));
  }

  lemma FileSlotRef(name: Name, ch: seq<nat>, size: nat)
    requires size < 0x1_0000_0000 && forall i | 0 <= i < |ch| :: ch[i] < 0x1_0000
    ensures FileRef(FileSlot(name, ch, size), Split83(name)[0] != DELETED, if ch == [] then 0 else ch[0])
  {
    FileSlotCluster(name, ch, size);
    SplitFirst(name);
    hide FileSlot, Split83, FirstCluster;
  }

  lemma TakenByAlloc(g: Geo, st: State, data: seq<Byte>, st1: State)
    requires StateOk(g, st) && StateOk(g, st1) && AllocOf(g, st, data).ok
    requires TableOf(g, st1) == AllocOf(g, st, data).table
    ensures TakesChain(g, st, st1, AllocOf(g, st, data).chain)
  {
    hide AllocChain, TableOf, Get, Joined, Link, Limit;
    var r := AllocOf(g, st, data);
    AllocTable(g, |st.disk|, TableOf(g, st), 0, data);
    forall c: nat | c in r.chain
      ensures InUse(g, st1, c) && !InUse(g, st, c)
    {
      ChainElementInUse(r.table, r.chain, Limit(g), c);
    }
  }

  lemma NothingTaken(g: Geo, st: State, st1: State)
    requires StateOk(g, st) && StateOk(g, st1) && KeepsUsed(g, TableOf(g, st), TableOf(g, st1))
    requires KeepsUsed(g, TableOf(g, st1), TableOf(g, st))
    ensures TakesChain(g, st, st1, [])
  {
    hide Get, TableOf, StateOk;
  }

  lemma FailedAllocLost(g: Geo, st: State, sh: Shape, data: seq<Byte>, c: nat)
    requires Live(g, st, sh) && StateOk(g, st)
    ensures var r := AllocOf(g, st, data); var st1 := State(Apply(st.disk, r.writes), st.cur, TailOf(g, r.table));
      StateOk(g, st1) && (Lost(g, st1, c) <==> Lost(g, st, c))
  {
    var r := AllocOf(g, st, data);
    var st1 := State(Apply(st.disk, r.writes), st.cur, TailOf(g, r.table));
    FailedAllocKeeps(g, st, sh, data);
    AllocWritesFree(g, |st.disk|, TableOf(g, st), 0, data);
    AllFreeTable(g, st.disk, TableOf(g, st), r.writes);
    LiveStateOk(g, st1, sh);
    hide AllocOf, AllFree, ShapeOk, DirOk, KeepsUsed, Joined, Get, Lost, InFree;
    TailIrrelevant(g, st.disk, st1.disk, st.tail, st1.tail);
    TailIrrelevant(g, st1.disk, st.disk, st1.tail, st.tail);
    DirsKept(g, st.disk, st1.disk, sh);
    NothingTaken(g, st, st1);
    SameSlotsBut(g, st, sh, st1, sh);
    SameRefs(g, st, st1);
    LostAfterTaking(g, st, sh, st1, sh, [], false, c);
  }

  lemma FullDirectoryLost(g: Geo, st: State, sh: Shape, data: seq<Byte>, c: nat)
    requires Live(g, st, sh) && StateOk(g, st) && AllocOf(g, st, data).ok
    ensures var m := StoreMid(g, st, data);
      StateOk(g, m) && (Lost(g, m, c) <==> Lost(g, st, c) || c in AllocOf(g, st, data).chain)
  {
    var m := StoreMid(g, st, data);
    StoreMidKeeps(g, st, sh, data);
    DataAndTable0(g, st, sh, data);
    StoreMidCur(g, st, data);
    LiveStateOk(g, m, StoreShape(g, st, sh, data));
    assert Live(g, m, sh);
    hide AllocOf, StoreMid, StoreShape, Mounted, SameSlots, Untouched, Lost;
    TakenByAlloc(g, st, data, m);
    SameSlotsBut(g, st, sh, m, sh);
    SameRefs(g, st, m);
    LostAfterTaking(g, st, sh, m, sh, AllocOf(g, st, data).chain, false, c);
  }

  lemma NewHead(g: Geo, st: State, sh: Shape, data: seq<Byte>, ch: seq<nat>)
    requires Live(g, st, sh) && StateOk(g, st) && AllocOf(g, st, data).ok && ch == AllocOf(g, st, data).chain
    ensures ch != [] ==> ch[0] != 0 && ch[0] !in sh.chains
  {
    hide ChainsApart, DirOk, DirsOnDevice, KeepsUsed, AllFree;
    AllocFacts(g, st, data);
    if ch != [] {
      NewChainShape(g, TableOf(g, st), AllocOf(g, st, data).table, sh, ch);
    }
  }

  lemma StoredChains(g: Geo, st: State, sh: Shape, data: seq<Byte>, k: nat)
    requires Live(g, st, sh) && StateOk(g, st) && AllocOf(g, st, data).ok
    ensures var ch := AllocOf(g, st, data).chain; var sh1 := StoredShape(g, st, sh, data, k);
      KeepsChains(sh, sh1) && (ch != [] ==> ch[0] != 0 && ch[0] in sh1.chains && sh1.chains[ch[0]] == ch)
  {
    hide AllocOf, Live, StateOk, StoredShape, StoreShape;
    var ch := AllocOf(g, st, data).chain;
    NewHead(g, st, sh, data, ch);
    StoredShapeIs(g, st, sh, data, k, ch);
  }

  lemma StoredLost(g: Geo, st: State, sh: Shape, name: Name, data: seq<Byte>, k: nat, c: nat)
    requires Live(g, st, sh) && StateOk(g, st) && AllocOf(g, st, data).ok && |data| < 0x1_0000_0000
    requires Reachable(g, st, st.cur) && Find(DirSlots(g, st.disk, sh, st.cur), Vacant, 0) == Some(k)
    ensures var st1 := After(st, Store(g, st, name, data));
      && StateOk(g, st1)
      && (Lost(g, st1, c) <==> Lost(g, st, c) || (Split83(name)[0] == DELETED && c in AllocOf(g, st, data).chain))
  {
    hide AllocOf, Store, StoredShape, FileSlot, Mounted, StateOk, Lost, Reachable, DirSlots, Find, OneSlotChanged,
      Split83, IsSubdir, Refers, SlotsOf, SameBut;
    StoredState(g, st, sh, name, data, k);
    StoredChains(g, st, sh, data, k);
    var ch, sh1 := AllocOf(g, st, data).chain, StoredShape(g, st, sh, data, k);
    var st1 := After(st, Store(g, st, name, data));
    FileSlotRef(name, ch, |data|);
    var sl := FileSlot(name, ch, |data|);
    OneSlotBut(g, st, sh, st1, sh1, k, sl);
    var before := SlotsOf(g, st, st.cur)[k];
    VacantRef(before);
    TakenByAlloc(g, st, data, st1);
    FileStepRefs(g, st, sh, st1, sh1, k, before, sl);
    LostAfterTaking(g, st, sh, st1, sh1, ch, Split83(name)[0] != DELETED, c);
  }

  /** The second half of fat_write loses the clusters that it took, exactly if
      it does not return 0 or the name reads as deleted. */
  lemma StoreLost(g: Geo, st: State, sh: Shape, name: Name, data: seq<Byte>, c: nat)
    requires Live(g, st, sh) && StateOk(g, st) && Reachable(g, st, st.cur) && |data| < 0x1_0000_0000
    ensures var o, r := Store(g, st, name, data), AllocOf(g, st, data);
      && StateOk(g, After(st, o))
      && (Lost(g, After(st, o), c) <==>
        Lost(g, st, c) || (r.ok && c in r.chain && (o.rc != 0 || Split83(name)[0] == DELETED)))
  {
    hide Live, Lost, Store, AllocOf, Find, DirSlots, StateOk, Reachable, Split83;
    StoreSucceeds(g, st, sh, name, data);
    if !AllocOf(g, st, data).ok {
      StoreUnfinished(g, st, sh, name, data);
      FailedAllocLost(g, st, sh, data, c);
    } else {
      match Find(CurrentSlots(g, st, sh), Vacant, 0) {
        case None =>
          StoreUnfinished(g, st, sh, name, data);
          FullDirectoryLost(g, st, sh, data, c);
        case Some(k) =>
          StoredLost(g, st, sh, name, data, k, c);
      }
    }
  }

  // ---- fat_delete and fat_rmdir

  ghost predicate RemoveStep(g: Geo, st: State, sh: Shape, w: Want, k: nat, st1: State, sh1: Shape, c: nat) {
    && Live(g, st, sh) && StateOk(g, st) && Reachable(g, st, st.cur)
    && Find(DirSlots(g, st.disk, sh, st.cur), w, 0) == Some(k) && k < |SlotsOf(g, st, st.cur)|
    && var before := SlotsOf(g, st, st.cur)[k];
      && Refers(before, c) && Step(g, st, sh, st1, sh1, k, before, Marked(before))
      && sh1 == RemovedShape(sh, c) && (c != 0 ==> c in sh.chains && c !in sh1.depth)
      && TableOf(g, st1) == Freed(TableOf(g, st), c)
  }

  lemma RemoveSteps(g: Geo, st: State, sh: Shape, w: Want, k: nat) returns (st1: State, sh1: Shape, c: nat)
    requires Removable(g, st, sh, k) && Find(DirSlots(g, st.disk, sh, st.cur), w, 0) == Some(k)
    requires StateOk(g, st) && Reachable(g, st, st.cur)
    ensures RemoveStep(g, st, sh, w, k, st1, sh1, c) && st1 == After(st, Remove(g, st, w))
  {
    hide Remove, Find, Reachable, SlotsOf, Mounted, StateOk, SameFiles, OneSlotChanged, SameBut, IsFile, IsSubdir,
      DirSlots;
    RemoveTable(g, st, sh, w, k);
    RemoveKeeps(g, st, sh, w, k);
    RemoveChanges(g, st, sh, w, k);
    FreedKeepsDir(g, st.disk, st.tail, sh, st.cur, k);
    var before := CurrentSlots(g, st, sh)[k];
    c := FirstCluster(before);
    sh1 := RemovedShape(sh, c);
    st1 := After(st, Remove(g, st, w));
    OneSlotBut(g, st, sh, st1, sh1, k, Marked(before));
  }

  lemma FreedInUse(g: Geo, st: State, sh: Shape, st1: State, c: nat)
    requires Live(g, st, sh) && StateOk(g, st) && StateOk(g, st1) && TableOf(g, st1) == Freed(TableOf(g, st), c)
    requires c != 0 ==> c in sh.chains
    ensures Frees(g, st, st1, if c == 0 then [] else sh.chains[c])
  {
    hide DirOk, ChainsApart, DirsOnDevice, Joined, Get;
    if c != 0 {
      FreedChain(TableOf(g, st), sh.chains[c], Limit(g));
    }
  }

  /** Nothing is referred to that was not, and not the chain that was freed. */
  lemma RemoveRefs(g: Geo, st: State, sh: Shape, w: Want, k: nat, st1: State, sh1: Shape, c: nat)
    requires RemoveStep(g, st, sh, w, k, st1, sh1, c)
    ensures forall x: nat | Reachable(g, st1, x) :: Reachable(g, st, x)
    ensures forall h: nat | Referred(g, st1, h) :: Referred(g, st, h)
    ensures c != 0 ==> Referred(g, st, c)
  {
    hide Live, StateOk, Reachable, SlotsOf, SameBut, Find, DirSlots, Freed, IsFile, IsSubdir, FirstCluster;
    var at := {(st.cur, k)};
    MarkedRef(SlotsOf(g, st, st.cur)[k]);
    AllReachStay(g, st1, st, at, {});
    forall h: nat | Referred(g, st1, h)
      ensures Referred(g, st, h)
    {
      RefsStay(g, st1, st, at, {}, h);
    }
    assert RefersAt(g, st, st.cur, k, c);
  }

  /** Everything but what the slot referred to still is. */
  ghost predicate OnlyOneDropped(g: Geo, st: State, st1: State, c: nat)
    requires StateOk(g, st) && StateOk(g, st1)
  {
    forall h: nat | Referred(g, st, h) && h != c :: Referred(g, st1, h)
  }

  /** If no more than the freed chain is dropped, nothing is lost. */
  lemma OnlyFreedDropped(g: Geo, st: State, sh: Shape, w: Want, k: nat, st1: State, sh1: Shape, c: nat, x: nat)
    requires RemoveStep(g, st, sh, w, k, st1, sh1, c) && OnlyOneDropped(g, st, st1, c)
    ensures Lost(g, st1, x) <==> Lost(g, st, x)
  {
    RemoveLostIs(g, st, sh, w, k, st1, sh1, c, x);
    hide Live, StateOk, Reachable, SlotsOf, SameBut, Find, DirSlots, Freed, Refers, Lost, OnChain, Referred, Marked;
    if c != 0 {
      OnChainIs(g, st, sh, c, x);
    }
  }

  lemma RemoveLostIs(g: Geo, st: State, sh: Shape, w: Want, k: nat, st1: State, sh1: Shape, c: nat, x: nat)
    requires RemoveStep(g, st, sh, w, k, st1, sh1, c)
    ensures var freed := if c == 0 then [] else sh.chains[c];
      Lost(g, st1, x) <==>
        Lost(g, st, x) || (x !in freed && exists h: nat :: Dropped(g, st, st1, h) && OnChain(g, st, h, x))
  {
    hide Live, StateOk, Reachable, SlotsOf, SameBut, Find, DirSlots, Freed, Refers, Lost, OnChain, Referred, Marked;
    RemoveRefs(g, st, sh, w, k, st1, sh1, c);
    FreedInUse(g, st, sh, st1, c);
    var freed := if c == 0 then [] else sh.chains[c];
    forall y: nat | y in freed
      ensures Held(g, st, y)
    {
      OnChainIs(g, st, sh, c, y);
    }
    LostAfterDropping(g, st, sh, st1, sh1, freed, x);
  }

  lemma DeleteDropsOne(g: Geo, st: State, sh: Shape, w: Want, k: nat, st1: State, sh1: Shape, c: nat)
    requires RemoveStep(g, st, sh, w, k, st1, sh1, c) && w.File?
    ensures OnlyOneDropped(g, st, st1, c)
  {
    var before := SlotsOf(g, st, st.cur)[k];
    SlotsOfAre(g, st, sh, st.cur);
    MarkedRef(before);
    assert !IsSubdir(before);
    hide Live, StateOk, Reachable, SlotsOf, SameBut, Find, DirSlots, Freed, Referred, Marked, IsFile, IsSubdir;
    FileStepRefs(g, st, sh, st1, sh1, k, before, Marked(before));
    assert forall h: nat | Referred(g, st, h) :: h != 0 by { RefNotZero(g, st); }
  }

  lemma RefNotZero(g: Geo, st: State)
    requires StateOk(g, st)
    ensures !Referred(g, st, 0)
  {
  }

  /** fat_delete loses nothing. */
  lemma DeleteLost(g: Geo, st: State, sh: Shape, name: Name, x: nat)
    requires Live(g, st, sh) && StateOk(g, st) && Reachable(g, st, st.cur)
    ensures var st1 := After(st, Delete(g, st, name)); StateOk(g, st1) && (Lost(g, st1, x) <==> Lost(g, st, x))
  {
    hide Remove, Reachable, Lost, Mounted, StateOk, Find, DirSlots;
    RemovedOrNot(g, st, sh, File(name));
    match Find(CurrentSlots(g, st, sh), File(name), 0) {
      case None =>
      case Some(k) =>
        var st1, sh1, c := RemoveSteps(g, st, sh, File(name), k);
        DeleteDropsOne(g, st, sh, File(name), k, st1, sh1, c);
        OnlyFreedDropped(g, st, sh, File(name), k, st1, sh1, c, x);
    }
  }

  lemma RemovedOrNot(g: Geo, st: State, sh: Shape, w: Want)
    requires Live(g, st, sh) && StateOk(g, st) && !w.Vacant?
    ensures match Find(DirSlots(g, st.disk, sh, st.cur), w, 0)
      case None => After(st, Remove(g, st, w)) == st
      case Some(k) => Removable(g, st, sh, k)
  {
    hide Slots, LbasOf, DirLbas, Find, Freed, FatWrites, FirstCluster, Named, WriteBackLba, PutSlot, DirOk, ShapeOk;
    FindAgrees(g, st, sh, w);
  }

  // ---- fat_rmdir

  lemma RemovedIsDir(g: Geo, st: State, sh: Shape, w: Want, k: nat, st1: State, sh1: Shape, c: nat)
    requires RemoveStep(g, st, sh, w, k, st1, sh1, c) && w.Subdir?
    ensures IsSubdir(SlotsOf(g, st, st.cur)[k]) && FirstCluster(SlotsOf(g, st, st.cur)[k]) == c
    ensures ChildOf(g, st, st.cur, c)
  {
    hide Reachable, SameBut, Freed, Marked, ShapeOk, DirOk, SlotsOf;
    SlotsOfAre(g, st, sh, st.cur);
    ChildIs(g, st, st.cur, k, c);
  }

  lemma QuietReach(g: Geo, st: State, sh: Shape, w: Want, k: nat, st1: State, sh1: Shape, c: nat)
    requires RemoveStep(g, st, sh, w, k, st1, sh1, c) && w.Subdir? && Quiet(g, st, c)
    ensures forall x: nat | Reachable(g, st, x) && x != c :: Reachable(g, st1, x)
  {
    hide Live, StateOk, Reachable, SlotsOf, SameBut, Find, DirSlots, Freed, Quiet, Marked, IsFile, IsSubdir, ChildOf;
    RemovedIsDir(g, st, sh, w, k, st1, sh1, c);
    ChildReachable(g, st, st.cur, c);
    QuietChildless(g, st, sh, c);
    AllReachStay(g, st, st1, {(st.cur, k)}, {c});
  }

  lemma QuietDropsOne(g: Geo, st: State, sh: Shape, w: Want, k: nat, st1: State, sh1: Shape, c: nat)
    requires RemoveStep(g, st, sh, w, k, st1, sh1, c) && w.Subdir? && Quiet(g, st, c)
    ensures OnlyOneDropped(g, st, st1, c)
  {
    hide Live, StateOk, Reachable, SlotsOf, SameBut, Find, DirSlots, Freed, Quiet, Marked, IsFile, IsSubdir, Referred;
    QuietReach(g, st, sh, w, k, st1, sh1, c);
    forall h: nat | Referred(g, st, h) && h != c
      ensures Referred(g, st1, h)
    {
      RefsStay(g, st, st1, {(st.cur, k)}, {c}, h);
    }
  }

  lemma ChildIs(g: Geo, st: State, x: nat, k: nat, c: nat)
    requires StateOk(g, st) && k < |SlotsOf(g, st, x)|
    requires IsSubdir(SlotsOf(g, st, x)[k]) && FirstCluster(SlotsOf(g, st, x)[k]) == c
    ensures ChildOf(g, st, x, c)
  {
  }

  lemma ContentNowhere(g: Geo, st: State, sh: Shape, w: Want, k: nat, st1: State, sh1: Shape, c: nat, j: nat, h: nat,
      x: nat, i: nat)
    requires RemoveStep(g, st, sh, w, k, st1, sh1, c) && c != 0 && RefersAt(g, st, c, j, h) && h != 0
    requires Reachable(g, st1, x) ==> Reachable(g, st, x)
    ensures !RefersAt(g, st1, x, i, h)
  {
    hide Live, StateOk, Reachable, SlotsOf, Find, DirSlots, Freed, IsFile, IsSubdir, FirstCluster, Marked, RemovedShape,
      Refers;
    MarkedRef(SlotsOf(g, st, st.cur)[k]);
    if RefersAt(g, st1, x, i, h) {
      assert (x, i) != (st.cur, k);
      assert SlotsOf(g, st1, x)[i] == SlotsOf(g, st, x)[i];
      OneReference(g, st, sh, x, i, c, j, h);
      ReferredKnown(g, st1, sh1, x, i, h);
    }
  }

  /** What a directory with content referred to is dropped, but not freed. */
  lemma ContentDropped(g: Geo, st: State, sh: Shape, w: Want, k: nat, st1: State, sh1: Shape, c: nat, j: nat, h: nat)
    requires RemoveStep(g, st, sh, w, k, st1, sh1, c) && c != 0 && RefersAt(g, st, c, j, h) && h != 0
    ensures Dropped(g, st, st1, h)
  {
    hide Live, StateOk, Reachable, SlotsOf, Find, DirSlots, Freed, Marked, RemovedShape, Refers, SameBut;
    forall x: nat, i: nat
      ensures !RefersAt(g, st1, x, i, h)
    {
      RemoveReach(g, st, sh, w, k, st1, sh1, c, x);
      ContentNowhere(g, st, sh, w, k, st1, sh1, c, j, h, x, i);
    }
  }

  lemma RemoveReach(g: Geo, st: State, sh: Shape, w: Want, k: nat, st1: State, sh1: Shape, c: nat, x: nat)
    requires RemoveStep(g, st, sh, w, k, st1, sh1, c)
    ensures Reachable(g, st1, x) ==> Reachable(g, st, x)
  {
    RemoveRefs(g, st, sh, w, k, st1, sh1, c);
    hide *;
  }

  lemma ContentLost(g: Geo, st: State, sh: Shape, w: Want, k: nat, st1: State, sh1: Shape, c: nat, j: nat, h: nat)
    requires RemoveStep(g, st, sh, w, k, st1, sh1, c) && c != 0 && RefersAt(g, st, c, j, h) && h != 0
    ensures Lost(g, st1, h) && !Lost(g, st, h)
  {
    ContentDropped(g, st, sh, w, k, st1, sh1, c, j, h);
    RemoveLostIs(g, st, sh, w, k, st1, sh1, c, h);
    ReferredKnown(g, st, sh, c, j, h);
    CurrentNotBelow(g, st, sh, w, k, st1, sh1, c);
    HeadOnChain(g, st, sh, h, c);
    hide Live, StateOk, Reachable, SlotsOf, SameBut, Find, DirSlots, Freed, Refers, Marked, OnChain, RemovedShape;
    OnChainIs(g, st, sh, h, h);
    if h == c {
      OneReference(g, st, sh, c, j, st.cur, k, h);
    }
  }

  lemma CurrentNotBelow(g: Geo, st: State, sh: Shape, w: Want, k: nat, st1: State, sh1: Shape, c: nat)
    requires RemoveStep(g, st, sh, w, k, st1, sh1, c) && c != 0
    ensures st.cur != c
  {
    hide ShapeOk, DirOk, Reachable, SlotsOf, SameBut, Find, DirSlots, Freed, Refers, Marked;
    RemoveStepCur(g, st, sh, w, k, st1, sh1, c);
  }

  lemma RemoveStepCur(g: Geo, st: State, sh: Shape, w: Want, k: nat, st1: State, sh1: Shape, c: nat)
    requires RemoveStep(g, st, sh, w, k, st1, sh1, c)
    ensures st.cur in sh1.depth
  {
    hide Reachable, SameBut, Find, Freed, Marked, IsFile, IsSubdir, ShapeOk;
    SlotsOfAre(g, st, sh, st.cur);
    FreedKeepsDir(g, st.disk, st.tail, sh, st.cur, k);
  }

  lemma HeadOnChain(g: Geo, st: State, sh: Shape, h: nat, c: nat)
    requires Live(g, st, sh) && h in sh.chains
    ensures h in sh.chains[h] && (c in sh.chains && c != h ==> h !in sh.chains[c])
  {
    hide DirOk, DirsOnDevice, Joined, Get;
    assert sh.chains[h][0] == h;
    if c in sh.chains && c != h {
      assert Apart(sh.chains[h], sh.chains[c]);
    }
  }

  /** fat_rmdir of a directory loses nothing exactly if the directory refers to
      no cluster. */
  lemma RmdirLost(g: Geo, st: State, sh: Shape, name: Name, k: nat)
    requires Live(g, st, sh) && StateOk(g, st) && Reachable(g, st, st.cur)
    requires Find(DirSlots(g, st.disk, sh, st.cur), Subdir(name), 0) == Some(k)
    ensures var st1 := After(st, Rmdir(g, st, name));
      && StateOk(g, st1) && (forall x: nat | Lost(g, st, x) :: Lost(g, st1, x))
      && ((forall x: nat | Lost(g, st1, x) :: Lost(g, st, x)) <==>
        Quiet(g, st, FirstCluster(DirSlots(g, st.disk, sh, st.cur)[k])))
  {
    hide Remove, Reachable, Lost, Mounted, StateOk, Find, DirSlots, IsFile, IsSubdir, SlotsOf, Refers;
    RemovedOrNot(g, st, sh, Subdir(name));
    var st1, sh1, c := RemoveSteps(g, st, sh, Subdir(name), k);
    RmdirCluster(g, st, sh, Subdir(name), k, st1, sh1, c);
    forall x: nat | Lost(g, st, x)
      ensures Lost(g, st1, x)
    {
      RemoveLostIs(g, st, sh, Subdir(name), k, st1, sh1, c, x);
    }
    if Quiet(g, st, c) {
      QuietDropsOne(g, st, sh, Subdir(name), k, st1, sh1, c);
      forall x: nat
        ensures Lost(g, st1, x) <==> Lost(g, st, x)
      {
        OnlyFreedDropped(g, st, sh, Subdir(name), k, st1, sh1, c, x);
      }
    } else {
      var j: nat, h: nat :| h != 0 && RefersAt(g, st, c, j, h);
      ContentLost(g, st, sh, Subdir(name), k, st1, sh1, c, j, h);
    }
  }

  lemma RmdirCluster(g: Geo, st: State, sh: Shape, w: Want, k: nat, st1: State, sh1: Shape, c: nat)
    requires RemoveStep(g, st, sh, w, k, st1, sh1, c) && w.Subdir?
    ensures c != 0 && c == FirstCluster(DirSlots(g, st.disk, sh, st.cur)[k])
  {
    hide Reachable, SameBut, Freed, Marked, ShapeOk;
    SlotsOfAre(g, st, sh, st.cur);
    SlotIsOk(g, st.disk, st.tail, sh, st.cur, k);
  }

  // ---- fat_rename

  ghost predicate RenameStep(g: Geo, st: State, sh: Shape, newName: Name, k: nat, st1: State) {
    && Live(g, st, sh) && StateOk(g, st) && Reachable(g, st, st.cur) && k < |SlotsOf(g, st, st.cur)|
    && var before := SlotsOf(g, st, st.cur)[k];
      && IsFile(before) && Step(g, st, sh, st1, sh, k, before, Renamed(before, newName))
      && TableOf(g, st1) == TableOf(g, st)
  }

  lemma RenameSteps(g: Geo, st: State, sh: Shape, oldName: Name, newName: Name, k: nat) returns (st1: State)
    requires Live(g, st, sh) && Find(DirSlots(g, st.disk, sh, st.cur), File(oldName), 0) == Some(k)
    requires StateOk(g, st) && Reachable(g, st, st.cur)
    ensures st1 == After(st, Rename(g, st, oldName, newName)) && RenameStep(g, st, sh, newName, k, st1)
    ensures SlotsOf(g, st, st.cur)[k] == DirSlots(g, st.disk, sh, st.cur)[k]
  {
    hide Rename, Renamed, Find, Reachable, SlotsOf, Mounted, StateOk, SameFiles, OneSlotChanged, SameBut, IsLabel,
      HasDirBit, DirSlots, Named;
    RenameChanges(g, st, sh, oldName, newName, k);
    st1 := After(st, Rename(g, st, oldName, newName));
    OneSlotBut(g, st, sh, st1, sh, k, Renamed(CurrentSlots(g, st, sh)[k], newName));
  }

  lemma RenamedRef(sl: Slot, newName: Name)
    requires IsFile(sl)
    ensures FileRef(Renamed(sl, newName), Split83(newName)[0] != DELETED, FirstCluster(sl))
    ensures FileRef(sl, true, FirstCluster(sl))
  {
    hide Renamed, Split83, FirstCluster, Bit;
    SplitFirst(newName);
    RenamedFields(sl, newName);
  }

  lemma RenameRefs(g: Geo, st: State, sh: Shape, newName: Name, k: nat, st1: State)
    requires RenameStep(g, st, sh, newName, k, st1)
    ensures var c := FirstCluster(SlotsOf(g, st, st.cur)[k]); var shown := Split83(newName)[0] != DELETED;
      forall h: nat | h != 0 :: Referred(g, st1, h) <==> Referred(g, st, h) && (shown || h != c)
  {
    hide Live, StateOk, Reachable, SlotsOf, SameBut, Renamed, IsFile, IsSubdir, Refers, Split83, Referred, FirstCluster;
    var before := SlotsOf(g, st, st.cur)[k];
    var c := FirstCluster(before);
    RenamedRef(before, newName);
    FileStepRefs(g, st, sh, st1, sh, k, before, Renamed(before, newName));
    if c != 0 {
      FileReferred(g, st, k, c);
    }
  }

  lemma FileReferred(g: Geo, st: State, k: nat, c: nat)
    requires StateOk(g, st) && Reachable(g, st, st.cur) && k < |SlotsOf(g, st, st.cur)| && c != 0
    requires Refers(SlotsOf(g, st, st.cur)[k], c)
    ensures Referred(g, st, c)
  {
    hide StateOk, Reachable, SlotsOf, Refers;
    assert RefersAt(g, st, st.cur, k, c);
  }

  /** fat_rename loses the clusters of the file exactly if the new name reads as
      deleted. */
  lemma RenameLost(g: Geo, st: State, sh: Shape, oldName: Name, newName: Name, k: nat, x: nat)
    requires Live(g, st, sh) && StateOk(g, st) && Reachable(g, st, st.cur)
    requires Find(DirSlots(g, st.disk, sh, st.cur), File(oldName), 0) == Some(k)
    ensures var st1 := After(st, Rename(g, st, oldName, newName));
      var c := FirstCluster(DirSlots(g, st.disk, sh, st.cur)[k]);
      && StateOk(g, st1)
      && (Lost(g, st1, x) <==> Lost(g, st, x) || (Split83(newName)[0] == DELETED && c != 0 && OnChain(g, st, c, x)))
  {
    hide Rename, Live, StateOk, Reachable, SlotsOf, SameBut, Renamed, IsFile, Split83, Lost, Referred, OnChain, Find,
      DirSlots, FirstCluster, Get, TableOf;
    var st1 := RenameSteps(g, st, sh, oldName, newName, k);
    RenameRefs(g, st, sh, newName, k, st1);
    RefNotZero(g, st);
    RefNotZero(g, st1);
    LostAfterDropping(g, st, sh, st1, sh, [], x);
    var c := FirstCluster(SlotsOf(g, st, st.cur)[k]);
    if c != 0 {
      RenameReferred(g, st, sh, newName, k, st1);
    }
  }

  lemma RenameReferred(g: Geo, st: State, sh: Shape, newName: Name, k: nat, st1: State)
    requires RenameStep(g, st, sh, newName, k, st1) && FirstCluster(SlotsOf(g, st, st.cur)[k]) != 0
    ensures Referred(g, st, FirstCluster(SlotsOf(g, st, st.cur)[k]))
  {
    hide Live, StateOk, Reachable, SlotsOf, SameBut, Renamed, IsLabel, HasDirBit, Referred, FirstCluster;
    FileReferred(g, st, k, FirstCluster(SlotsOf(g, st, st.cur)[k]));
  }

  // ---- fat_mkdir

  /** The cluster that fat_mkdir takes from the table, if it is one of the volume's. */
  function TakenBy(g: Geo, st: State): seq<nat>
    requires StateOk(g, st)
  {
    var c := FirstFree(g, TableOf(g, st));
    if 2 <= c < Limit(g) then [c] else []
  }

  lemma TakenByMkdir(g: Geo, st: State, st1: State)
    requires StateOk(g, st) && StateOk(g, st1) && FirstFree(g, TableOf(g, st)) != 0
    requires TableOf(g, st1) == Set(TableOf(g, st), FirstFree(g, TableOf(g, st)), END_MARK)
    ensures TakesChain(g, st, st1, TakenBy(g, st))
  {
    hide Get, Set, StateOk, Joined;
  }

  lemma MkdirSameLost(g: Geo, st: State, sh: Shape, st1: State, x: nat)
    requires Live(g, st, sh) && Live(g, st1, sh) && StateOk(g, st) && StateOk(g, st1)
    requires SameSlots(g, st.disk, sh, st1.disk, sh) && FirstFree(g, TableOf(g, st)) != 0
    requires TableOf(g, st1) == Set(TableOf(g, st), FirstFree(g, TableOf(g, st)), END_MARK)
    ensures Lost(g, st1, x) <==> Lost(g, st, x) || x in TakenBy(g, st)
  {
    hide Live, StateOk, SameSlots, Lost, FirstFree, Set, TableOf, Get;
    TakenByMkdir(g, st, st1);
    SameSlotsBut(g, st, sh, st1, sh);
    SameRefs(g, st, st1);
    LostAfterTaking(g, st, sh, st1, sh, TakenBy(g, st), false, x);
  }

  lemma FailedMkdirState(g: Geo, st: State, sh: Shape, name: Name)
    requires Live(g, st, sh) && StateOk(g, st) && Mkdir(g, st, name).rc != 0 && FirstFree(g, TableOf(g, st)) != 0
    ensures var st1 := After(st, Mkdir(g, st, name));
      && Live(g, st1, sh) && StateOk(g, st1) && SameSlots(g, st.disk, sh, st1.disk, sh)
      && TableOf(g, st1) == Set(TableOf(g, st), FirstFree(g, TableOf(g, st)), END_MARK)
  {
    hide Mkdir, Mounted, KeepsUsed, Get, Set, FatWrites, ClusterStart, SameSlots, Untouched, Find, DirSlots, NewSlot,
      MkdirWrites, DotSector, LbasOf;
    var c := FirstFree(g, TableOf(g, st));
    var u := Set(TableOf(g, st), c, END_MARK);
    MkdirIs(g, st, name);
    if ClusterStart(g, c) >= |st.disk| {
      TakenTable(g, TableOf(g, st), c);
      DataAndTable(g, st.disk, st.tail, sh, [], u);
      LiveStateOk(g, After(st, Mkdir(g, st, name)), sh);
    } else {
      OnDeviceBelowLimit(g, |st.disk|, c);
      MkdirMidKeeps(g, st, sh, c, u);
      MkdirOutcome(g, st, sh, c, u, name);
      LiveStateOk(g, MkdirMid(g, st, c, u), sh);
    }
  }

  lemma FailedMkdirLost(g: Geo, st: State, sh: Shape, name: Name, x: nat)
    requires Live(g, st, sh) && StateOk(g, st) && Mkdir(g, st, name).rc != 0
    ensures var st1 := After(st, Mkdir(g, st, name));
      StateOk(g, st1) && (Lost(g, st1, x) <==> Lost(g, st, x) || x in TakenBy(g, st))
  {
    hide Mkdir, Live, FirstFree, Set, SameSlots, Lost;
    if FirstFree(g, TableOf(g, st)) == 0 {
      MkdirIs(g, st, name);
      assert After(st, Mkdir(g, st, name)) == st;
    } else {
      FailedMkdirState(g, st, sh, name);
      MkdirSameLost(g, st, sh, After(st, Mkdir(g, st, name)), x);
    }
  }

  ghost predicate MkdirStep(g: Geo, st: State, sh: Shape, name: Name, c: nat, k: nat, e: State, sh1: Shape) {
    && c < 0x1_0000 && c != st.cur && Live(g, st, sh) && StateOk(g, st) && k < |SlotsOf(g, st, st.cur)|
    && Judge(SlotsOf(g, st, st.cur)[k], Vacant) == Hit
    && Step(g, st, sh, e, sh1, k, SlotsOf(g, st, st.cur)[k], DirSlot(name, c))
    && KeepsChains(sh, sh1) && c in sh1.chains && sh1.chains[c] == [c] && c in sh1.depth && c !in sh.depth && c != 0
    && TakenBy(g, st) == [c] && TakesChain(g, st, e, [c])
    && DirReady(g, e.disk, c)
  }

  lemma MkdirSteps(g: Geo, st: State, sh: Shape, name: Name) returns (c: nat, k: nat, e: State, sh1: Shape)
    requires Live(g, st, sh) && StateOk(g, st) && Mkdir(g, st, name).rc == 0 && MkdirClear(g, st)
    requires Reachable(g, st, st.cur)
    ensures MkdirStep(g, st, sh, name, c, k, e, sh1) && e == After(st, Mkdir(g, st, name))
  {
    hide Mkdir, Mounted, RestClear, MadeState, Find, DirSlot, DirSlots, MkdirClear, OneSlotChanged, OthersKept, SameBut,
      SlotsOf, Reachable, MkdirMid, DirReady, Get, Set, StateOk;
    var u: Table;
    c, u, k, e, sh1 := MkdirMadeKept(g, st, sh, name);
    MadeChanges(g, st, sh, name, c, u, k, e, sh1);
    MadeReady(g, st, sh, name, c, u, k);
    MadeCur(g, st, sh, name, c, u, k);
    MadeShapeIs(sh, st.cur, c, k);
    MadeTable(g, st, sh, name, c, u, k);
    CurrentKnown(g, st, sh, c);
    NotADirectory(g, st, sh, c);
    hide MadeShape, WithOwner;
    OneSlotBut(g, st, sh, e, sh1, k, DirSlot(name, c));
    TakenByMkdir(g, st, e);
    TakesFirst(g, st, sh, name, c, u, k);
  }

  lemma NotADirectory(g: Geo, st: State, sh: Shape, c: nat)
    requires Live(g, st, sh) && c !in sh.chains && c != 0
    ensures c !in sh.depth
  {
  }

  lemma MadeTable(g: Geo, st: State, sh: Shape, name: Name, c: nat, u: Table, k: nat)
    requires Made(g, st, sh, name, c, u, k)
    ensures StateOk(g, st) && 2 <= c < Limit(g) && u == Set(TableOf(g, st), c, END_MARK)
    ensures Buffer(g, MadeState(g, st, sh, name, c, u, k).disk, MadeState(g, st, sh, name, c, u, k).tail) == u
  {
    MadeDirSlots(g, st, sh, name, c, u, k);
    hide MadeState, Find, MkdirMid, DirSlots, Set;
  }

  /** The slots of a directory of one cluster that is ready. */
  lemma NewDirSlots(g: Geo, e: State, sh1: Shape, c: nat)
    requires Live(g, e, sh1) && StateOk(g, e) && c in sh1.chains && sh1.chains[c] == [c] && c in sh1.depth && c != 0
    requires DirReady(g, e.disk, c)
    ensures forall j: nat | j < |SlotsOf(g, e, c)| :: !IsFile(SlotsOf(g, e, c)[j]) && !IsSubdir(SlotsOf(g, e, c)[j])
  {
    hide ShapeOk, DirOk, Slots, DirReady, ClusterLbas, IsFile, IsSubdir, SlotsOf;
    SlotsOfAre(g, e, sh1, c);
    SingleChainLbas(g, c);
    EmptyDirSlots(g, e.disk, c);
    ReadyLength(g, e.disk, c);
  }

  lemma NewDirQuiet(g: Geo, st: State, sh: Shape, name: Name, c: nat, k: nat, e: State, sh1: Shape)
    requires MkdirStep(g, st, sh, name, c, k, e, sh1)
    ensures Quiet(g, st, c) && Quiet(g, e, c) && forall y: nat :: !ChildOf(g, e, c, y)
  {
    hide Reachable, Mounted, StateOk, SlotsOf, SameBut, DirReady, FirstCluster, IsFile, IsSubdir, TakesChain, TakenBy;
    NotReachable(g, st, sh, c);
    NewDirSlots(g, e, sh1, c);
  }

  lemma MkdirReach(g: Geo, st: State, sh: Shape, name: Name, c: nat, k: nat, e: State, sh1: Shape)
    requires MkdirStep(g, st, sh, name, c, k, e, sh1) && Split83(name)[0] != DELETED
    ensures forall x: nat | x != c :: Reachable(g, st, x) <==> Reachable(g, e, x)
  {
    hide Live, StateOk, Reachable, SlotsOf, SameBut, DirReady, DirSlot, Quiet, IsFile, IsSubdir, Split83, FirstCluster,
      ChildOf, TakesChain, TakenBy, KeepsChains;
    var at := {(st.cur, k)};
    NewDirQuiet(g, st, sh, name, c, k, e, sh1);
    NotReachable(g, st, sh, c);
    VacantRef(SlotsOf(g, st, st.cur)[k]);
    DirSlotIs(name, c);
    AllReachStay(g, st, e, at, {});
    AllReachStay(g, e, st, at, {c});
  }

  lemma NotReachable(g: Geo, st: State, sh: Shape, c: nat)
    requires Live(g, st, sh) && StateOk(g, st) && c !in sh.depth
    ensures !Reachable(g, st, c)
  {
    hide Live, StateOk, Reachable;
    if Reachable(g, st, c) {
      ReachableMounted(g, st, sh, c);
    }
  }

  lemma ReachableMounted(g: Geo, st: State, sh: Shape, x: nat)
    requires Live(g, st, sh) && StateOk(g, st) && Reachable(g, st, x)
    ensures x in sh.depth
  {
    hide Mounted, StateOk, Reachable;
    ReachableLive(g, st, sh, x);
  }

  lemma NewDirRefs(g: Geo, st: State, sh: Shape, name: Name, c: nat, k: nat, e: State, sh1: Shape)
    requires MkdirStep(g, st, sh, name, c, k, e, sh1)
    ensures var shown := Split83(name)[0] != DELETED;
      forall h: nat :: Referred(g, e, h) <==> Referred(g, st, h) || (shown && h == c)
  {
    hide Live, StateOk, Reachable, SlotsOf, SameBut, DirReady, DirSlot, Quiet, Split83, Referred, IsFile, IsSubdir,
      FirstCluster, Refers;
    VacantRef(SlotsOf(g, st, st.cur)[k]);
    RefNotZero(g, st);
    RefNotZero(g, e);
    if Split83(name)[0] != DELETED {
      DirSlotRef(name, c);
      MkdirReach(g, st, sh, name, c, k, e, sh1);
      NewDirQuiet(g, st, sh, name, c, k, e, sh1);
      StepRefs(g, st, sh, e, sh1, k, SlotsOf(g, st, st.cur)[k], DirSlot(name, c), {c});
    } else {
      DeadDirSlotRef(name, c);
      FileStepRefs(g, st, sh, e, sh1, k, SlotsOf(g, st, st.cur)[k], DirSlot(name, c));
    }
  }

  lemma DirSlotRef(name: Name, c: nat)
    requires c < 0x1_0000 && Split83(name)[0] != DELETED
    ensures forall h: nat :: Refers(DirSlot(name, c), h) <==> h == c
  {
    DirSlotIs(name, c);
    hide DirSlot, Split83;
  }

  lemma DeadDirSlotRef(name: Name, c: nat)
    requires c < 0x1_0000 && Split83(name)[0] == DELETED
    ensures FileRef(DirSlot(name, c), false, 0)
  {
    hide NewSlot, Split83;
    VacantRef(DirSlot(name, c));
  }

  /** fat_mkdir loses the cluster that it took, exactly if it does not return 0
      or the name reads as deleted. */
  lemma MkdirLost(g: Geo, st: State, sh: Shape, name: Name, x: nat)
    requires Live(g, st, sh) && StateOk(g, st) && Reachable(g, st, st.cur) && MkdirClear(g, st)
    ensures var o := Mkdir(g, st, name);
      && StateOk(g, After(st, o))
      && (Lost(g, After(st, o), x) <==>
        Lost(g, st, x) || (x in TakenBy(g, st) && (o.rc != 0 || Split83(name)[0] == DELETED)))
  {
    hide Mkdir, Live, Lost, Reachable, MkdirClear, Split83, TakenBy;
    if Mkdir(g, st, name).rc != 0 {
      FailedMkdirLost(g, st, sh, name, x);
    } else {
      var c, k, e, sh1 := MkdirSteps(g, st, sh, name);
      NewDirRefs(g, st, sh, name, c, k, e, sh1);
      hide SlotsOf, SameBut, DirReady, DirSlot, Referred, Refers, TakesChain;
      LostAfterTaking(g, st, sh, e, sh1, [c], Split83(name)[0] != DELETED, x);
    }
  }

  // ---- all operations

  lemma CdLost(g: Geo, st: State, sh: Shape, name: Name, x: nat)
    requires Live(g, st, sh) && StateOk(g, st)
    ensures var st1 := After(st, Cd(g, st, name)); StateOk(g, st1) && (Lost(g, st1, x) <==> Lost(g, st, x))
  {
    hide Cd, Mounted, Lost, Get;
    CdState(g, st, sh, name);
    CdKeeps(g, st, sh, name);
    var st1 := After(st, Cd(g, st, name));
    assert SameSlots(g, st.disk, sh, st1.disk, sh) by { MountedDirs(g, st.disk, st.tail, sh); }
    hide SameSlots;
    SameSlotsBut(g, st, sh, st1, sh);
    SameRefs(g, st, st1);
    LostAfterTaking(g, st, sh, st1, sh, [], false, x);
  }

  /** The first cluster of what a search finds in the current directory. */
  function FoundCluster(g: Geo, st: State, w: Want): Option<nat>
    requires StateOk(g, st)
  {
    match FindIn(g, st.disk, TableOf(g, st), st.cur, w)
    case None => None
    case Some(k) => Some(FirstCluster(SlotsOf(g, st, st.cur)[k]))
  }

  /** When an operation loses no cluster: fat_delete and fat_cd never do. */
  ghost predicate Lossless(g: Geo, st: State, op: Op)
    requires StateOk(g, st) && Callable(op)
  {
    match op
    case WriteOp(name, data) =>
      var del := After(st, Delete(g, st, name));
      || data == [] || !AllocOf(g, del, data).ok
      || (WriteFile(g, st, name, data).rc == 0 && Split83(name)[0] != DELETED)
    case RenameOp(name, newName) =>
      var c := FoundCluster(g, st, File(name));
      c.None? || c.value == 0 || Split83(newName)[0] != DELETED
    case MkdirOp(name) =>
      TakenBy(g, st) == [] || (Mkdir(g, st, name).rc == 0 && Split83(name)[0] != DELETED)
    case RmdirOp(name) =>
      var c := FoundCluster(g, st, Subdir(name));
      c.None? || Quiet(g, st, c.value)
    case DeleteOp(_) => true
    case CdOp(_) => true
  }

  /** st1 has lost what st has, and if same nothing else. */
  ghost predicate LostAs(g: Geo, st: State, st1: State, same: bool)
    requires StateOk(g, st) && StateOk(g, st1)
  {
    && (forall x: nat | Lost(g, st, x) :: Lost(g, st1, x))
    && ((forall x: nat | Lost(g, st1, x) :: Lost(g, st, x)) <==> same)
  }

  lemma FoundClusterIs(g: Geo, st: State, sh: Shape, w: Want)
    requires Live(g, st, sh) && StateOk(g, st)
    ensures var r := Find(DirSlots(g, st.disk, sh, st.cur), w, 0);
      FoundCluster(g, st, w) == if r.Some? then Some(FirstCluster(DirSlots(g, st.disk, sh, st.cur)[r.value])) else None
  {
    hide ShapeOk, DirOk, Find, Slots, DirLbas, LbasOf, FirstCluster;
    FindAgrees(g, st, sh, w);
  }

  lemma RmdirLostAs(g: Geo, st: State, sh: Shape, name: Name)
    requires Live(g, st, sh) && StateOk(g, st) && Reachable(g, st, st.cur)
    ensures var st1 := After(st, Rmdir(g, st, name)); var c := FoundCluster(g, st, Subdir(name));
      StateOk(g, st1) && LostAs(g, st, st1, c.None? || Quiet(g, st, c.value))
  {
    hide Remove, Mounted, Find, DirSlots, Lost, Quiet, Reachable, StateOk;
    FoundClusterIs(g, st, sh, Subdir(name));
    RemovedOrNot(g, st, sh, Subdir(name));
    match Find(CurrentSlots(g, st, sh), Subdir(name), 0) {
      case None =>
      case Some(k) => RmdirLost(g, st, sh, name, k);
    }
  }

  lemma RenameLostAs(g: Geo, st: State, sh: Shape, name: Name, newName: Name)
    requires Live(g, st, sh) && StateOk(g, st) && Reachable(g, st, st.cur)
    ensures var st1 := After(st, Rename(g, st, name, newName)); var c := FoundCluster(g, st, File(name));
      StateOk(g, st1) && LostAs(g, st, st1, c.None? || c.value == 0 || Split83(newName)[0] != DELETED)
  {
    hide Rename, Mounted, Find, DirSlots, Lost, Reachable, StateOk, Split83, OnChain, IsFile;
    FoundClusterIs(g, st, sh, File(name));
    match Find(CurrentSlots(g, st, sh), File(name), 0) {
      case None => RenameNothing(g, st, sh, name, newName);
      case Some(k) =>
        var st1 := After(st, Rename(g, st, name, newName));
        RenameLost(g, st, sh, name, newName, k, 0);
        forall x: nat
          ensures var c := FirstCluster(CurrentSlots(g, st, sh)[k]);
            Lost(g, st1, x) <==> Lost(g, st, x) || (Split83(newName)[0] == DELETED && c != 0 && OnChain(g, st, c, x))
        {
          RenameLost(g, st, sh, name, newName, k, x);
        }
        FoundHeld(g, st, sh, name, k);
    }
  }

  lemma RenameNothing(g: Geo, st: State, sh: Shape, name: Name, newName: Name)
    requires Live(g, st, sh) && StateOk(g, st) && Find(DirSlots(g, st.disk, sh, st.cur), File(name), 0).None?
    ensures After(st, Rename(g, st, name, newName)) == st
  {
    hide ShapeOk, DirOk, Find, Slots, DirLbas, LbasOf, FirstCluster;
    FindAgrees(g, st, sh, File(name));
  }

  /** The first cluster of a file is on its own chain, and not lost. */
  lemma FoundHeld(g: Geo, st: State, sh: Shape, name: Name, k: nat)
    requires Live(g, st, sh) && StateOk(g, st) && Reachable(g, st, st.cur)
    requires Find(DirSlots(g, st.disk, sh, st.cur), File(name), 0) == Some(k)
    ensures var c := FirstCluster(DirSlots(g, st.disk, sh, st.cur)[k]);
      c != 0 ==> OnChain(g, st, c, c) && !Lost(g, st, c)
  {
    hide Find, Reachable, ShapeOk, DirOk, Slots, LbasOf, Named, IsLabel, HasDirBit, InUse;
    SlotsOfAre(g, st, sh, st.cur);
    var c := FirstCluster(DirSlots(g, st.disk, sh, st.cur)[k]);
    if c != 0 {
      FileReferred(g, st, k, c);
      ReferredInShape(g, st, sh, c);
      HeadOnChain(g, st, sh, c, c);
      OnChainIs(g, st, sh, c, c);
    }
  }

  lemma FreeNotLost(g: Geo, st: State, data: seq<Byte>)
    requires StateOk(g, st) && AllocOf(g, st, data).ok
    ensures forall x: nat | x in AllocOf(g, st, data).chain :: !Lost(g, st, x)
    ensures AllocOf(g, st, data).chain == [] <==> data == []
  {
    AllocFacts(g, st, data);
    hide AllocOf, Held, AllFree, KeepsUsed, Get;
  }

  lemma StoreLostAs(g: Geo, st: State, sh: Shape, name: Name, data: seq<Byte>)
    requires Live(g, st, sh) && StateOk(g, st) && Reachable(g, st, st.cur) && |data| < 0x1_0000_0000
    ensures var o, r := Store(g, st, name, data), AllocOf(g, st, data);
      && StateOk(g, After(st, o))
      && LostAs(g, st, After(st, o), data == [] || !r.ok || (o.rc == 0 && Split83(name)[0] != DELETED))
  {
    hide Live, Lost, Store, AllocOf, StateOk, Reachable, Split83;
    var o, r := Store(g, st, name, data), AllocOf(g, st, data);
    StoreLost(g, st, sh, name, data, 0);
    forall x: nat
      ensures Lost(g, After(st, o), x) <==>
        Lost(g, st, x) || (r.ok && x in r.chain && (o.rc != 0 || Split83(name)[0] == DELETED))
    {
      StoreLost(g, st, sh, name, data, x);
    }
    if r.ok {
      FreeNotLost(g, st, data);
      assert r.chain != [] ==> r.chain[0] in r.chain;
    }
  }

  lemma WriteLostAs(g: Geo, st: State, sh: Shape, name: Name, data: seq<Byte>)
    requires Live(g, st, sh) && StateOk(g, st) && Reachable(g, st, st.cur) && |data| < 0x1_0000_0000
    ensures var st1 := After(st, WriteFile(g, st, name, data));
      StateOk(g, st1) && LostAs(g, st, st1, Lossless(g, st, WriteOp(name, data)))
  {
    hide Mounted, Lost, Store, Remove, WriteFile, AllocOf, Reachable, Split83, StateOk;
    var del := After(st, Delete(g, st, name));
    WellFormedDelete(g, st, sh, name);
    RemoveReachable(g, st, sh, File(name));
    var shd :| Live(g, del, shd);
    forall x: nat
      ensures Lost(g, del, x) <==> Lost(g, st, x)
    {
      DeleteLost(g, st, sh, name, x);
    }
    StoreLostAs(g, del, shd, name, data);
    WriteAfter(g, st, name, data);
    WriteResult(g, st, name, data);
  }

  lemma MkdirLostAs(g: Geo, st: State, sh: Shape, name: Name)
    requires Live(g, st, sh) && StateOk(g, st) && Reachable(g, st, st.cur) && MkdirClear(g, st)
    ensures var st1 := After(st, Mkdir(g, st, name));
      StateOk(g, st1) && LostAs(g, st, st1, Lossless(g, st, MkdirOp(name)))
  {
    hide Mkdir, Live, Lost, Reachable, MkdirClear, Split83, FirstFree;
    var st1 := After(st, Mkdir(g, st, name));
    MkdirLost(g, st, sh, name, 0);
    forall x: nat
      ensures Lost(g, st1, x) <==>
        Lost(g, st, x) || (x in TakenBy(g, st) && (Mkdir(g, st, name).rc != 0 || Split83(name)[0] == DELETED))
      ensures x in TakenBy(g, st) ==> !Lost(g, st, x)
    {
      MkdirLost(g, st, sh, name, x);
      TakenFree(g, st, x);
    }
    assert TakenBy(g, st) != [] ==> TakenBy(g, st)[0] in TakenBy(g, st);
  }

  lemma TakenFree(g: Geo, st: State, x: nat)
    requires StateOk(g, st)
    ensures x in TakenBy(g, st) ==> !Lost(g, st, x)
  {
    hide Held, StateOk, Get;
  }

  lemma SameLostAs(g: Geo, st: State, st1: State)
    requires StateOk(g, st) && StateOk(g, st1) && forall x: nat :: Lost(g, st1, x) <==> Lost(g, st, x)
    ensures LostAs(g, st, st1, true)
  {
    hide Lost;
  }

  /** No operation gets back a cluster that is lost, and it loses another one
      exactly if its condition, which is one on the state before and on the
      return code, does not hold. */
  lemma PerformLost(g: Geo, st: State, op: Op)
    requires WellFormed(g, st) && StateOk(g, st) && Callable(op) && (op.MkdirOp? ==> MkdirClear(g, st))
    requires Reachable(g, st, st.cur)
    ensures var st1 := After(st, Perform(g, st, op)); StateOk(g, st1) && LostAs(g, st, st1, Lossless(g, st, op))
  {
    hide WriteFile, Remove, Rename, Mkdir, Cd, Mounted, Reachable, Lost, LostAs, StateOk, MkdirClear, Split83, Quiet;
    var sh :| Live(g, st, sh);
    match op {
      case WriteOp(name, data) => WriteLostAs(g, st, sh, name, data);
      case DeleteOp(name) =>
        var st1 := After(st, Delete(g, st, name));
        DeleteLost(g, st, sh, name, 0);
        forall x: nat
          ensures Lost(g, st1, x) <==> Lost(g, st, x)
        {
          DeleteLost(g, st, sh, name, x);
        }
        SameLostAs(g, st, st1);
      case RenameOp(name, newName) => RenameLostAs(g, st, sh, name, newName);
      case MkdirOp(name) => MkdirLostAs(g, st, sh, name);
      case RmdirOp(name) => RmdirLostAs(g, st, sh, name);
      case CdOp(name) =>
        var st1 := After(st, Cd(g, st, name));
        CdLost(g, st, sh, name, 0);
        forall x: nat
          ensures Lost(g, st1, x) <==> Lost(g, st, x)
        {
          CdLost(g, st, sh, name, x);
        }
        SameLostAs(g, st, st1);
    }
  }

  // ---- runs

  /** Every step of the run meets its condition. */
  ghost predicate LosslessRun(g: Geo, st: State, ops: seq<Op>)
    decreases |ops|
  {
    ops == [] ||
    (StateOk(g, st) && Callable(ops[0]) && Lossless(g, st, ops[0])
     && LosslessRun(g, After(st, Perform(g, st, ops[0])), ops[1..]))
  }

  lemma LostAsTwice(g: Geo, st: State, st1: State, st2: State, a: bool, b: bool)
    requires StateOk(g, st) && StateOk(g, st1) && StateOk(g, st2)
    requires LostAs(g, st, st1, a) && LostAs(g, st1, st2, b)
    ensures LostAs(g, st, st2, a && b)
  {
    hide Lost, StateOk;
  }

  /** A run never gets back a lost cluster, and loses none exactly if every
      step of it meets its condition. */
  lemma {:induction false} RunLost(g: Geo, st: State, ops: seq<Op>, end: State)
    requires WellFormed(g, st) && StateOk(g, st) && Reachable(g, st, st.cur) && Run(g, st, ops, end)
    ensures StateOk(g, end) && LostAs(g, st, end, LosslessRun(g, st, ops))
    decreases |ops|
  {
    hide Lossless, WellFormed, Reachable, Lost, StateOk, Perform;
    if ops == [] {
      SameLostAs(g, st, end);
    } else {
      var st1 := After(st, Perform(g, st, ops[0]));
      PerformKeeps(g, st, ops[0]);
      PerformReachable(g, st, ops[0]);
      PerformLost(g, st, ops[0]);
      hide LostAs;
      RunLost(g, st1, ops[1..], end);
      LostAsTwice(g, st, st1, end, Lossless(g, st, ops[0]), LosslessRun(g, st1, ops[1..]));
    }
  }

  /** No cluster is lost at the end of a run if and only if none was at its
      beginning and every step meets its condition. */
  lemma RunNoLoss(g: Geo, st: State, ops: seq<Op>, end: State)
    requires WellFormed(g, st) && StateOk(g, st) && Reachable(g, st, st.cur) && Run(g, st, ops, end)
    ensures StateOk(g, end) && (NoLoss(g, end) <==> NoLoss(g, st) && LosslessRun(g, st, ops))
  {
    RunLost(g, st, ops, end);
    hide Lost, WellFormed, Reachable, Run, LosslessRun, StateOk;
  }

  /** On a volume without clusters in use none is lost. */
  lemma FreshNoLoss(g: Geo, st: State)
    requires StateOk(g, st) && forall c | 2 <= c < Limit(g) :: Get(TableOf(g, st), c) == 0
    ensures NoLoss(g, st)
  {
    hide Held, Get, StateOk;
  }
}
