/**
 * Three analyses whose sampling works on the group layout of a `Space`:
 * `Density` counts atoms and molecules per id, `SanityCheck` checks that
 * the groups lay out the particle vector exactly, and `QRtraj` writes one
 * charge-and-radius frame over every slot.
 */
module Analyses {
  import opened Base
  import opened Space

  // ---------------------------------------------------------------------
  // Density

  /** The atom ids of the first k slots, active or not, of group g. */
  function SlotIds(p: seq<Particle>, g: Group, k: nat): set<nat>
    requires k <= g.capacity && g.begin + g.capacity <= |p|
  {
    if k == 0 then {} else SlotIds(p, g, k - 1) + {p[g.begin + k - 1].id}
  }

  /** The atom ids `Natom` is zeroed for: those of every slot of every atomic group. */
  function AtomKeys(p: seq<Particle>, gs: seq<Group>): set<nat>
    requires GroupsOk(gs, |p|)
  {
    if gs == [] then {}
    else
      var g := gs[|gs| - 1];
      AtomKeys(p, gs[..|gs| - 1]) + (if g.atomic then SlotIds(p, g, g.capacity) else {})
  }

  /** The molecule ids `Nmol` is zeroed for: those of the molecular groups. */
  function MolKeys(gs: seq<Group>): set<nat>
  {
    if gs == [] then {}
    else MolKeys(gs[..|gs| - 1]) + (if gs[|gs| - 1].atomic then {} else {gs[|gs| - 1].molid})
  }

  /** The active particles with atom id aid in the atomic groups. */
  function AtomCount(p: seq<Particle>, gs: seq<Group>, aid: nat): nat
    requires GroupsOk(gs, |p|)
  {
    if gs == [] then 0
    else
      var g := gs[|gs| - 1];
      AtomCount(p, gs[..|gs| - 1], aid) + (if g.atomic then |ActiveWithId(p, g, aid, g.size)| else 0)
  }

  /** The molecular groups with molecule id molid that are not empty. */
  function MolCount(gs: seq<Group>, molid: nat): nat
  {
    if gs == [] then 0
    else
      var g := gs[|gs| - 1];
      MolCount(gs[..|gs| - 1], molid) + (if !g.atomic && g.size > 0 && g.molid == molid then 1 else 0)
  }

  /** One more group adds its own keys. */
  lemma KeysNext(p: seq<Particle>, gs: seq<Group>, gi: nat)
    requires GroupsOk(gs, |p|) && gi < |gs|
    ensures AtomKeys(p, gs[..gi + 1]) ==
      AtomKeys(p, gs[..gi]) + (if gs[gi].atomic then SlotIds(p, gs[gi], gs[gi].capacity) else {})
    ensures MolKeys(gs[..gi + 1]) == MolKeys(gs[..gi]) + (if gs[gi].atomic then {} else {gs[gi].molid})
  {
    assert gs[..gi + 1][..gi] == gs[..gi];
  }

  /** One more group adds its own counts. */
  lemma CountNext(p: seq<Particle>, gs: seq<Group>, gi: nat)
    requires GroupsOk(gs, |p|) && gi < |gs|
    ensures forall a ::
      AtomCount(p, gs[..gi + 1], a) == AtomCount(p, gs[..gi], a) + (if gs[gi].atomic then |ActiveWithId(p, gs[gi], a, gs[gi].size)| else 0)
    ensures forall m ::
      MolCount(gs[..gi + 1], m) == MolCount(gs[..gi], m) + (if !gs[gi].atomic && gs[gi].size > 0 && gs[gi].molid == m then 1 else 0)
  {
    assert gs[..gi + 1][..gi] == gs[..gi];
  }

  /** An active slot of an atomic group has its atom id among the zeroed keys. */
  lemma {:induction false} SlotHasKey(p: seq<Particle>, gs: seq<Group>, gi: nat, j: nat)
    requires GroupsOk(gs, |p|) && gi < |gs| && gs[gi].atomic && j < gs[gi].capacity
    ensures p[gs[gi].begin + j].id in AtomKeys(p, gs)
    decreases |gs|
  {
    var m := |gs| - 1;
    if gi == m {
      SlotIdsHas(p, gs[gi], gs[gi].capacity, j);
    } else {
      assert gs[..m][gi] == gs[gi];
      SlotHasKey(p, gs[..m], gi, j);
    }
  }

  lemma {:induction false} SlotIdsHas(p: seq<Particle>, g: Group, k: nat, j: nat)
    requires k <= g.capacity && g.begin + g.capacity <= |p| && j < k
    ensures p[g.begin + j].id in SlotIds(p, g, k)
  {
    if j < k - 1 {
      SlotIdsHas(p, g, k - 1, j);
    }
  }

  /** A molecular group has its molecule id among the zeroed keys. */
  lemma {:induction false} MolHasKey(gs: seq<Group>, gi: nat)
    requires gi < |gs| && !gs[gi].atomic
    ensures gs[gi].molid in MolKeys(gs)
    decreases |gs|
  {
    var m := |gs| - 1;
    if gi < m {
      assert gs[..m][gi] == gs[gi];
      MolHasKey(gs[..m], gi);
    }
  }

  /**
   * Counting never creates a key: an atom id with active particles, or a
   * molecule id with a non-empty group, was zeroed first.
   */
  lemma {:induction false} CountedAreKeys(p: seq<Particle>, gs: seq<Group>, aid: nat, molid: nat)
    requires GroupsOk(gs, |p|)
    ensures AtomCount(p, gs, aid) > 0 ==> aid in AtomKeys(p, gs)
    ensures MolCount(gs, molid) > 0 ==> molid in MolKeys(gs)
    decreases |gs|
  {
    if gs != [] {
      var m := |gs| - 1;
      var g := gs[m];
      CountedAreKeys(p, gs[..m], aid, molid);
      if g.atomic && |ActiveWithId(p, g, aid, g.size)| > 0 {
        var s := ActiveWithId(p, g, aid, g.size)[0];
        SlotIdsHas(p, g, g.capacity, s - g.begin);
      }
    }
  }

  /**
   * When every group is atomic, `Natom` counts what `findAtoms` finds;
   * otherwise it counts no more.
   */
  lemma {:induction false} AtomCountFindAtoms(p: seq<Particle>, gs: seq<Group>, aid: nat)
    requires GroupsOk(gs, |p|)
    ensures AtomCount(p, gs, aid) <= |FindAtoms(p, gs, aid)|
    ensures (forall i :: 0 <= i < |gs| ==> gs[i].atomic) ==> AtomCount(p, gs, aid) == |FindAtoms(p, gs, aid)|
    decreases |gs|
  {
    if gs != [] {
      AtomCountFindAtoms(p, gs[..|gs| - 1], aid);
    }
  }

  /**
   * When each molecular group of an id is either full or empty and no
   * atomic group carries that id, `Nmol` counts the active molecules
   * `findMolecules` lists.
   */
  lemma {:induction false} NmolIsActive(gs: seq<Group>, molid: nat)
    requires forall i :: 0 <= i < |gs| && gs[i].molid == molid ==>
      !gs[i].atomic && gs[i].capacity > 0 && (gs[i].size == 0 || gs[i].size == gs[i].capacity)
    ensures MolCount(gs, molid) == |FindMolecules(gs, molid, Active)|
    decreases |gs|
  {
    if gs != [] {
      NmolIsActive(gs[..|gs| - 1], molid);
    }
  }

  /** `Density`: the atom and molecule counts of the last sample. */
  class Density {
    const spc: Space
    var Natom: map<nat, nat>
    var Nmol: map<nat, nat>

    constructor (s: Space)
      ensures spc == s && Natom == map[] && Nmol == map[]
    {
      spc := s;
      Natom, Nmol := map[], map[];
    }

    /**
     * `_sample`, its counting part: every atom id of an atomic group's
     * slots and every molecular group's id gets a count, that of the
     * active atoms and of the non-empty molecules.
     */
    method Sample()
      requires spc.Valid()
      modifies this`Natom, this`Nmol
      ensures Natom.Keys == AtomKeys(spc.p[..], spc.groups)
      ensures forall a :: a in Natom ==> Natom[a] == AtomCount(spc.p[..], spc.groups, a)
      ensures Nmol.Keys == MolKeys(spc.groups)
      ensures forall m :: m in Nmol ==> Nmol[m] == MolCount(spc.groups, m)
    {
      var natom, nmol := Zeroed();
      Natom, Nmol := Counted(natom, nmol);
    }

    /** The first loop: a zero count for every key. */
    method Zeroed() returns (natom: map<nat, nat>, nmol: map<nat, nat>)
      requires spc.Valid()
      ensures natom.Keys == AtomKeys(spc.p[..], spc.groups) && forall a :: a in natom ==> natom[a] == 0
      ensures nmol.Keys == MolKeys(spc.groups) && forall m :: m in nmol ==> nmol[m] == 0
    {
      var gs := spc.groups;
      ghost var p := spc.p[..];
      natom, nmol := map[], map[];
      var gi := 0;
      while gi < |gs|
        invariant gi <= |gs|
        invariant natom.Keys == AtomKeys(p, gs[..gi]) && forall a :: a in natom ==> natom[a] == 0
        invariant nmol.Keys == MolKeys(gs[..gi]) && forall m :: m in nmol ==> nmol[m] == 0
      {
        KeysNext(p, gs, gi);
        natom, nmol := ZeroGroup(natom, nmol, gi);
        gi := gi + 1;
      }
      assert gs[..gi] == gs;
    }

    /** The body of the first loop: the ids of group gi's slots if it is atomic, its own id if not. */
    method ZeroGroup(natom0: map<nat, nat>, nmol0: map<nat, nat>, gi: nat)
      returns (natom: map<nat, nat>, nmol: map<nat, nat>)
      requires spc.Valid() && gi < |spc.groups|
      requires forall a :: a in natom0 ==> natom0[a] == 0
      requires forall m :: m in nmol0 ==> nmol0[m] == 0
      ensures var g := spc.groups[gi];
        natom.Keys == natom0.Keys + (if g.atomic then SlotIds(spc.p[..], g, g.capacity) else {})
      ensures var g := spc.groups[gi]; nmol.Keys == nmol0.Keys + (if g.atomic then {} else {g.molid})
      ensures forall a :: a in natom ==> natom[a] == 0
      ensures forall m :: m in nmol ==> nmol[m] == 0
    {
      ghost var p := spc.p[..];
      var g := spc.groups[gi];
      natom, nmol := natom0, nmol0;
      if g.atomic {
        var k := 0;
        while k < g.capacity
          invariant k <= g.capacity
          invariant natom.Keys == natom0.Keys + SlotIds(p, g, k)
          invariant forall a :: a in natom ==> natom[a] == 0
        {
          natom := natom[spc.p[g.begin + k].id := 0];
          k := k + 1;
        }
      } else {
        nmol := nmol[g.molid := 0];
      }
    }

    /** The second loop: one more for every active atom of an atomic group and every non-empty molecule. */
    method Counted(natom0: map<nat, nat>, nmol0: map<nat, nat>) returns (natom: map<nat, nat>, nmol: map<nat, nat>)
      requires spc.Valid()
      requires natom0.Keys == AtomKeys(spc.p[..], spc.groups) && forall a :: a in natom0 ==> natom0[a] == 0
      requires nmol0.Keys == MolKeys(spc.groups) && forall m :: m in nmol0 ==> nmol0[m] == 0
      ensures natom.Keys == AtomKeys(spc.p[..], spc.groups)
      ensures forall a :: a in natom ==> natom[a] == AtomCount(spc.p[..], spc.groups, a)
      ensures nmol.Keys == MolKeys(spc.groups)
      ensures forall m :: m in nmol ==> nmol[m] == MolCount(spc.groups, m)
    {
      var gs := spc.groups;
      ghost var p := spc.p[..];
      natom, nmol := natom0, nmol0;
      var gi := 0;
      while gi < |gs|
        invariant gi <= |gs| && natom.Keys == AtomKeys(p, gs) && nmol.Keys == MolKeys(gs)
        invariant forall a :: a in natom ==> natom[a] == AtomCount(p, gs[..gi], a)
        invariant forall m :: m in nmol ==> nmol[m] == MolCount(gs[..gi], m)
      {
        CountNext(p, gs, gi);
        natom, nmol := CountGroup(natom, nmol, gi);
        gi := gi + 1;
      }
      assert gs[..gi] == gs;
    }

    /** The body of the second loop: group gi's active atoms, or the group itself if it is a non-empty molecule. */
    method CountGroup(natom0: map<nat, nat>, nmol0: map<nat, nat>, gi: nat)
      returns (natom: map<nat, nat>, nmol: map<nat, nat>)
      requires spc.Valid() && gi < |spc.groups|
      requires natom0.Keys == AtomKeys(spc.p[..], spc.groups) && nmol0.Keys == MolKeys(spc.groups)
      ensures natom.Keys == natom0.Keys && nmol.Keys == nmol0.Keys
      ensures var g := spc.groups[gi]; forall a :: a in natom ==>
        natom[a] == natom0[a] + (if g.atomic then |ActiveWithId(spc.p[..], g, a, g.size)| else 0)
      ensures var g := spc.groups[gi]; forall m :: m in nmol ==>
        nmol[m] == nmol0[m] + (if !g.atomic && g.size > 0 && g.molid == m then 1 else 0)
    {
      var g := spc.groups[gi];
      natom, nmol := natom0, nmol0;
      if g.atomic {
        forall s | g.begin <= s < g.End()
          ensures spc.p[s].id in natom
        {
          SlotHasKey(spc.p[..], spc.groups, gi, s - g.begin);
        }
        natom := CountAtoms(natom, g);
      } else if g.size > 0 {
        MolHasKey(spc.groups, gi);
        nmol := nmol[g.molid := nmol[g.molid] + 1];
      }
    }

    /** The inner loop of the second: the active atoms of one atomic group. */
    method CountAtoms(natom0: map<nat, nat>, g: Group) returns (natom: map<nat, nat>)
      requires g.size <= g.capacity && g.begin + g.capacity <= spc.p.Length
      requires forall s :: g.begin <= s < g.End() ==> spc.p[s].id in natom0
      ensures natom.Keys == natom0.Keys
      ensures forall a :: a in natom ==> natom[a] == natom0[a] + |ActiveWithId(spc.p[..], g, a, g.size)|
    {
      ghost var p := spc.p[..];
      natom := natom0;
      var k := 0;
      while k < g.size
        invariant k <= g.size && natom.Keys == natom0.Keys
        invariant forall a :: a in natom ==> natom[a] == natom0[a] + |ActiveWithId(p, g, a, k)|
      {
        var id := spc.p[g.begin + k].id;
        natom := natom[id := natom[id] + 1];
        k := k + 1;
      }
    }
  }

  // ---------------------------------------------------------------------
  // SanityCheck

  /** Why the layout check throws. */
  datatype SanityError =
    | OutOfRange   // `p.at(i)` past the end of the particle vector
    | OutOfSync    // a group slot is not the next particle of the vector
    | Unfinished   // the groups end before the vector does (the debug assertion)

  /** The check's walk over the slots s, comparing each with the running index i of a vector of n. */
  function Walk(s: seq<nat>, i: nat, n: nat): Outcome<SanityError>
    decreases |s|
  {
    if s == [] then (if i == n then Pass else Fail(Unfinished))
    else if i >= n then Fail(OutOfRange)
    else if s[0] != i then Fail(OutOfSync)
    else Walk(s[1..], i + 1, n)
  }

  /** The layout check on groups gs over a particle vector of n. */
  function Layout(gs: seq<Group>, n: nat): Outcome<SanityError>
  {
    Walk(Slots(gs), 0, n)
  }

  /**
   * The walk from i passes exactly when the slots are i..n-1; it stops
   * short exactly when they are a proper prefix of that; it runs off the
   * vector exactly when they extend it; any other mismatch is out of sync.
   */
  lemma {:induction false} WalkCases(s: seq<nat>, i: nat, n: nat)
    requires i <= n
    ensures Walk(s, i, n) == Pass <==> s == Range(i, n)
    ensures Walk(s, i, n) == Fail(Unfinished) <==> |s| < n - i && s == Range(i, i + |s|)
    ensures Walk(s, i, n) == Fail(OutOfRange) <==> |s| > n - i && s[..n - i] == Range(i, n)
    decreases |s|
  {
    if s != [] && i < n && s[0] == i {
      WalkCases(s[1..], i + 1, n);
      RangeCons(i, n);
      RangeCons(i, i + |s|);
      assert s == [s[0]] + s[1..];
      if |s| >= n - i {
        assert s[..n - i] == [s[0]] + s[1..][..n - i - 1];
      }
    } else if s != [] && i < n {
      assert Range(i, n)[0] == i;
      assert Range(i, i + |s|)[0] == i;
      if |s| > n - i {
        assert s[..n - i][0] == s[0];
      }
    }
  }

  lemma RangeCons(lo: nat, hi: nat)
    requires lo < hi
    ensures Range(lo, hi) == [lo] + Range(lo + 1, hi)
  {
    assert Range(lo, hi)[1..] == Range(lo + 1, hi);
  }

  /** The check passes exactly when the groups' slots, in order, are 0, 1, ..., n-1. */
  lemma LayoutPasses(gs: seq<Group>, n: nat)
    ensures Layout(gs, n) == Pass <==> Slots(gs) == Range(0, n)
  {
    WalkCases(Slots(gs), 0, n);
  }

  /** Groups laid back to back over the whole vector pass the check. */
  lemma TiledPasses(gs: seq<Group>, n: nat)
    requires Tiles(gs, n)
    ensures Layout(gs, n) == Pass
  {
    TilesSlots(gs, n);
    LayoutPasses(gs, n);
  }

  /** The slots of the first m groups come first, in order, among the slots of all. */
  lemma {:induction false} SlotsPrefix(gs: seq<Group>, m: nat)
    requires m <= |gs|
    ensures |Slots(gs[..m])| <= |Slots(gs)| && Slots(gs)[..|Slots(gs[..m])|] == Slots(gs[..m])
    decreases |gs|
  {
    if m < |gs| {
      var l := |gs| - 1;
      assert gs[..l][..m] == gs[..m];
      SlotsPrefix(gs[..l], m);
      assert Slots(gs) == Slots(gs[..l]) + GroupSlots(gs[l]);
    } else {
      assert gs[..m] == gs;
    }
  }

  /** After slot k of group gi the walk has seen the first i slots, all in place; the next is begin + k. */
  lemma NextSlot(gs: seq<Group>, gi: nat, k: nat, i: nat)
    requires gi < |gs| && k < gs[gi].capacity
    requires Slots(gs[..gi]) + GroupSlots(gs[gi])[..k] == Range(0, i)
    ensures i < |Slots(gs)| && Slots(gs)[..i] == Range(0, i) && Slots(gs)[i] == gs[gi].begin + k
  {
    var g := gs[gi];
    var done := Slots(gs[..gi]) + GroupSlots(g)[..k];
    GroupDone(gs, gi);
    SlotsPrefix(gs, gi + 1);
    var front := Slots(gs[..gi + 1]);
    assert |done| == i;
    assert front[..i] == done && front[i] == g.begin + k;
    assert Slots(gs)[..i] == front[..i];
  }

  lemma GroupDone(gs: seq<Group>, gi: nat)
    requires gi < |gs|
    ensures Slots(gs[..gi + 1]) == Slots(gs[..gi]) + GroupSlots(gs[gi])
    ensures GroupSlots(gs[gi])[..gs[gi].capacity] == GroupSlots(gs[gi])
  {
    assert gs[..gi + 1][..gi] == gs[..gi];
  }

  /** One more slot in place. */
  lemma InPlace(done: seq<nat>, g: Group, k: nat, i: nat)
    requires k < g.capacity && done + GroupSlots(g)[..k] == Range(0, i) && g.begin + k == i
    ensures done + GroupSlots(g)[..k + 1] == Range(0, i + 1)
  {
    assert GroupSlots(g)[..k + 1] == GroupSlots(g)[..k] + [i];
    assert Range(0, i + 1) == Range(0, i) + [i];
  }

  /** Every slot in place: the walk passes when the vector ends there too, and stops short otherwise. */
  lemma WalkEnd(s: seq<nat>, n: nat)
    requires |s| <= n && s == Range(0, |s|)
    ensures Walk(s, 0, n) == if |s| == n then Pass else Fail(Unfinished)
  {
    WalkCases(s, 0, n);
  }

  lemma WalkOutOfRange(s: seq<nat>, n: nat)
    requires n < |s| && s[..n] == Range(0, n)
    ensures Walk(s, 0, n) == Fail(OutOfRange)
  {
    WalkCases(s, 0, n);
  }

  lemma WalkOutOfSync(s: seq<nat>, i: nat, n: nat)
    requires i < n && i < |s| && s[..i] == Range(0, i) && s[i] != i
    ensures Walk(s, 0, n) == Fail(OutOfSync)
  {
    WalkSkip(s, 0, i, n);
    assert s[0..] == s;
  }

  /** Slots already in place are walked past. */
  lemma {:induction false} WalkSkip(s: seq<nat>, j: nat, i: nat, n: nat)
    requires j <= i < n && i < |s| && s[..i] == Range(0, i)
    ensures Walk(s[j..], j, n) == Walk(s[i..], i, n)
    decreases i - j
  {
    if j < i {
      assert s[j..][0] == s[..i][j] == j;
      assert s[j..][1..] == s[j + 1..];
      WalkSkip(s, j + 1, i, n);
    }
  }

  /** `SanityCheck`: the layout check over its space. */
  class SanityCheck {
    const spc: Space

    constructor (s: Space)
      ensures spc == s
    {
      spc := s;
    }

    /** The check's loops: every slot of every group against the running index into the vector. */
    method CheckLayout() returns (r: Outcome<SanityError>)
      requires spc.Valid()
      ensures r == Layout(spc.groups, spc.p.Length)
    {
      var gs := spc.groups;
      var n := spc.p.Length;
      var i := 0;
      var gi := 0;
      while gi < |gs|
        invariant gi <= |gs| && i <= n && Slots(gs[..gi]) == Range(0, i)
      {
        var g := gs[gi];
        var k := 0;
        while k < g.capacity
          invariant k <= g.capacity && i <= n && Slots(gs[..gi]) + GroupSlots(g)[..k] == Range(0, i)
        {
          NextSlot(gs, gi, k, i);
          if i >= n {
            WalkOutOfRange(Slots(gs), n);
            return Fail(OutOfRange);
          }
          if g.begin + k != i {
            WalkOutOfSync(Slots(gs), i, n);
            return Fail(OutOfSync);
          }
          InPlace(Slots(gs[..gi]), g, k, i);
          i := i + 1;
          k := k + 1;
        }
        GroupDone(gs, gi);
        gi := gi + 1;
      }
      assert gs[..gi] == gs;
      WalkEnd(Slots(gs), n);
      if i != n {
        return Fail(Unfinished);
      }
      return Pass;
    }

    /**
     * `_sample`, its layout part: the check runs once per group (it sits
     * inside the loop over the groups), so with no group it never runs.
     */
    method Sample() returns (r: Outcome<SanityError>)
      requires spc.Valid()
      ensures r == (if spc.groups == [] then Pass else Layout(spc.groups, spc.p.Length))
    {
      var gi := 0;
      while gi < |spc.groups|
        invariant gi <= |spc.groups|
        invariant gi > 0 ==> Layout(spc.groups, spc.p.Length) == Pass
      {
        r := CheckLayout();
        if r.Fail? {
          return;
        }
        gi := gi + 1;
      }
      return Pass;
    }
  }

  // ---------------------------------------------------------------------
  // QRtraj

  /** One slot of a frame: the charge and the radius, half the atom's sigma. */
  datatype Entry = Entry(charge: real, radius: real)

  /** What an inactive slot writes: zero charge and zero radius. */
  const Blank: Entry := Entry(0.0, 0.0)

  function EntryOf(x: Particle, sigma: nat -> real): Entry
  {
    Entry(x.charge, sigma(x.id) * 0.5)
  }

  /** The entries of one group's slots, up to `trueend()`. */
  function GroupFrame(p: seq<Particle>, g: Group, sigma: nat -> real): (f: seq<Entry>)
    requires g.begin + g.capacity <= |p|
    ensures |f| == g.capacity
    ensures forall j :: 0 <= j < g.size && j < g.capacity ==> f[j] == EntryOf(p[g.begin + j], sigma)
    ensures forall j :: g.size <= j < g.capacity ==> f[j] == Blank
  {
    seq(g.capacity, j requires 0 <= j < g.capacity => if j < g.size then EntryOf(p[g.begin + j], sigma) else Blank)
  }

  /** A frame: every group's entries in group order. */
  function Frame(p: seq<Particle>, gs: seq<Group>, sigma: nat -> real): (f: seq<Entry>)
    requires GroupsOk(gs, |p|)
    ensures |f| == TotalCapacity(gs)
  {
    if gs == [] then []
    else Frame(p, gs[..|gs| - 1], sigma) + GroupFrame(p, gs[|gs| - 1], sigma)
  }

  /** Slot j of group gi is the entry after the capacities of the groups before it. */
  lemma {:induction false} FrameAt(p: seq<Particle>, gs: seq<Group>, sigma: nat -> real, gi: nat, j: nat)
    requires GroupsOk(gs, |p|) && gi < |gs| && j < gs[gi].capacity
    ensures TotalCapacity(gs[..gi]) + j < |Frame(p, gs, sigma)|
    ensures Frame(p, gs, sigma)[TotalCapacity(gs[..gi]) + j] ==
      (if j < gs[gi].size then EntryOf(p[gs[gi].begin + j], sigma) else Blank)
    decreases |gs|
  {
    var m := |gs| - 1;
    if gi == m {
      assert gs[..m] == gs[..gi];
    } else {
      assert gs[..m][gi] == gs[gi] && gs[..m][..gi] == gs[..gi];
      FrameAt(p, gs[..m], sigma, gi, j);
    }
  }

  /** Over tiling groups, a group's first slot sits after the slots of the groups before it. */
  lemma {:induction false} TiledOffsets(gs: seq<Group>, n: nat, gi: nat)
    requires Tiles(gs, n) && gi < |gs|
    ensures TotalCapacity(gs[..gi]) == gs[gi].begin
    decreases gi
  {
    if gi > 0 {
      TiledOffsets(gs, n, gi - 1);
      assert gs[..gi][..gi - 1] == gs[..gi - 1];
    }
  }

  /** Tiling groups own as many slots as the vector has. */
  lemma TiledTotal(gs: seq<Group>, n: nat)
    requires Tiles(gs, n)
    ensures TotalCapacity(gs) == n
  {
    if gs != [] {
      var m := |gs| - 1;
      TiledOffsets(gs, n, m);
    }
  }

  /**
   * Over groups that tile the vector, the frame lines up with it: one
   * entry per particle, particle i's own when it is active in its group
   * and zeros when it is not.
   */
  lemma TiledFrame(p: seq<Particle>, gs: seq<Group>, sigma: nat -> real, gi: nat, j: nat)
    requires GroupsOk(gs, |p|) && Tiles(gs, |p|) && gi < |gs| && j < gs[gi].capacity
    ensures |Frame(p, gs, sigma)| == |p|
    ensures Frame(p, gs, sigma)[gs[gi].begin + j] ==
      (if gs[gi].HasActive(gs[gi].begin + j) then EntryOf(p[gs[gi].begin + j], sigma) else Blank)
  {
    TiledOffsets(gs, |p|, gi);
    TiledTotal(gs, |p|);
    FrameAt(p, gs, sigma, gi, j);
  }

  /** `QRtraj`: the frame writer, with `atoms[id].sigma` as `sigma`. */
  class QRtraj {
    const spc: Space
    const sigma: nat -> real

    constructor (s: Space, sg: nat -> real)
      ensures spc == s && sigma == sg
    {
      spc, sigma := s, sg;
    }

    /** `write_to_file`: the frame, as the sequence of entries the line holds. */
    method WriteFrame() returns (f: seq<Entry>)
      requires spc.Valid()
      ensures f == Frame(spc.p[..], spc.groups, sigma)
    {
      var gs := spc.groups;
      ghost var p := spc.p[..];
      f := [];
      var gi := 0;
      while gi < |gs|
        invariant gi <= |gs| && f == Frame(p, gs[..gi], sigma)
      {
        var g := gs[gi];
        var k := 0;
        while k < g.capacity
          invariant k <= g.capacity && f == Frame(p, gs[..gi], sigma) + GroupFrame(p, g, sigma)[..k]
        {
          var e := if g.begin + k < g.End() then EntryOf(spc.p[g.begin + k], sigma) else Blank;
          assert GroupFrame(p, g, sigma)[..k + 1] == GroupFrame(p, g, sigma)[..k] + [e];
          f := f + [e];
          k := k + 1;
        }
        assert GroupFrame(p, g, sigma)[..k] == GroupFrame(p, g, sigma);
        assert gs[..gi + 1][..gi] == gs[..gi];
        gi := gi + 1;
      }
      assert gs[..gi] == gs;
    }
  }
}
