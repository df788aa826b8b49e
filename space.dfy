/**
 * The configuration state: a particle vector partitioned into groups.
 * A group owns the slots [begin, begin + capacity); its first `size`
 * slots [begin, begin + size) are the active particles and the rest are
 * inert placeholders, so the active particles always form a prefix.
 * Positions and charges are opaque values: nothing here computes with them.
 */
module Space {
  import opened Base

  datatype Point = Point(x: real, y: real, z: real)

  /** A particle: its atom id, its charge and its position. */
  datatype Particle = Particle(id: nat, charge: real, pos: Point)

  /** A group (molecule or atomic collection) over the particle vector. */
  datatype Group = Group(begin: nat, size: nat, capacity: nat, molid: nat, atomic: bool) {
    /** `end()`: one past the last active slot. */
    function End(): nat { begin + size }
    /** `trueend()`: one past the last slot the group owns. */
    function TrueEnd(): nat { begin + capacity }
    predicate HasActive(i: int) { begin <= i < begin + size }
  }

  /**
   * Every group lies inside the particle vector and holds no more active
   * particles than its capacity; a molecular group has at least one slot.
   */
  predicate GroupsOk(gs: seq<Group>, n: nat)
  {
    forall i :: 0 <= i < |gs| ==>
      gs[i].begin + gs[i].capacity <= n && gs[i].size <= gs[i].capacity &&
      (!gs[i].atomic ==> gs[i].capacity > 0)
  }

  /** Two group vectors that differ at most in the sizes of their groups. */
  predicate SameShape(gs: seq<Group>, hs: seq<Group>)
  {
    |gs| == |hs| &&
    forall i :: 0 <= i < |gs| ==>
      gs[i].begin == hs[i].begin && gs[i].capacity == hs[i].capacity &&
      gs[i].molid == hs[i].molid && gs[i].atomic == hs[i].atomic
  }

  /** The selections `Tspace::ALL`, `ACTIVE` and `INACTIVE` of `findMolecules`. */
  datatype Selection = All | Active | Inactive

  predicate Selected(g: Group, molid: nat, sel: Selection)
  {
    g.molid == molid &&
    match sel
    case All => true
    case Active => g.size == g.capacity
    case Inactive => g.size != g.capacity
  }

  /**
   * `findMolecules(molid, sel)`: the indices, in group order, of the groups
   * with that molecule id that the selection admits.
   */
  function FindMolecules(gs: seq<Group>, molid: nat, sel: Selection): (r: seq<nat>)
    ensures forall k :: 0 <= k < |r| ==> r[k] < |gs| && Selected(gs[r[k]], molid, sel)
  {
    if gs == [] then []
    else
      var r := FindMolecules(gs[..|gs| - 1], molid, sel);
      if Selected(gs[|gs| - 1], molid, sel) then r + [|gs| - 1] else r
  }

  /** The groups are listed in increasing index order. */
  lemma {:induction false} FindMoleculesIncreasing(gs: seq<Group>, molid: nat, sel: Selection)
    ensures forall k, l :: 0 <= k < l < |FindMolecules(gs, molid, sel)| ==>
      FindMolecules(gs, molid, sel)[k] < FindMolecules(gs, molid, sel)[l]
    decreases |gs|
  {
    if gs != [] {
      FindMoleculesIncreasing(gs[..|gs| - 1], molid, sel);
    }
  }

  /** Every admitted group is listed. */
  lemma {:induction false} FindMoleculesComplete(gs: seq<Group>, molid: nat, sel: Selection, i: nat)
    requires i < |gs| && Selected(gs[i], molid, sel)
    ensures i in FindMolecules(gs, molid, sel)
    decreases |gs|
  {
    var n := |gs| - 1;
    if i < n {
      assert gs[..n][i] == gs[i];
      FindMoleculesComplete(gs[..n], molid, sel, i);
    }
  }

  /** Indicator used in counting statements. */
  function Ind(b: bool): nat { if b then 1 else 0 }

  /** Replacing one group changes the size of a selection by the change in that group's membership. */
  lemma {:induction false} FindMoleculesUpdate(gs: seq<Group>, i: nat, g: Group, molid: nat, sel: Selection)
    requires i < |gs|
    ensures |FindMolecules(gs[i := g], molid, sel)| + Ind(Selected(gs[i], molid, sel))
         == |FindMolecules(gs, molid, sel)| + Ind(Selected(g, molid, sel))
    decreases |gs|
  {
    var hs := gs[i := g];
    var n := |gs| - 1;
    if i < n {
      assert hs[..n] == gs[..n][i := g];
      FindMoleculesUpdate(gs[..n], i, g, molid, sel);
    } else {
      assert hs[..n] == gs[..n];
    }
  }

  /** A selection depends only on which groups it admits. */
  lemma {:induction false} FindMoleculesAgree(gs: seq<Group>, hs: seq<Group>, molid: nat, sel: Selection)
    requires |gs| == |hs|
    requires forall i :: 0 <= i < |gs| ==> Selected(gs[i], molid, sel) == Selected(hs[i], molid, sel)
    ensures FindMolecules(gs, molid, sel) == FindMolecules(hs, molid, sel)
    decreases |gs|
  {
    if gs != [] {
      var n := |gs| - 1;
      FindMoleculesAgree(gs[..n], hs[..n], molid, sel);
    }
  }

  /** The ALL selection sees only the shape of the groups. */
  lemma FindAllShape(gs: seq<Group>, hs: seq<Group>, molid: nat)
    requires SameShape(gs, hs)
    ensures FindMolecules(gs, molid, All) == FindMolecules(hs, molid, All)
  {
    FindMoleculesAgree(gs, hs, molid, All);
  }

  /** Shrinking groups never makes fewer of them partially inactive. */
  lemma {:induction false} InactiveMonotone(gs: seq<Group>, hs: seq<Group>, molid: nat)
    requires SameShape(gs, hs)
    requires forall i :: 0 <= i < |gs| ==> hs[i].size <= gs[i].size <= gs[i].capacity
    ensures |FindMolecules(gs, molid, Inactive)| <= |FindMolecules(hs, molid, Inactive)|
    decreases |gs|
  {
    if gs != [] {
      var n := |gs| - 1;
      InactiveMonotone(gs[..n], hs[..n], molid);
    }
  }

  /** `activeParticles()`: a slot is active when some group's active range holds it. */
  ghost predicate ActiveSlot(gs: seq<Group>, i: int)
  {
    exists gi :: 0 <= gi < |gs| && gs[gi].HasActive(i)
  }

  /**
   * `findAtoms(id)`: the active slots whose particle has atom id `aid`.
   * The source of `findAtoms` is not part of this model; it is taken to
   * filter the particle vector and so to list the slots in slot order,
   * while this lists them group by group. The two orders agree when the
   * groups lie in increasing `begin`, and otherwise list the same slots
   * (`FindAtomsComplete`). The swap draws an element with `Draws.pick`,
   * which is free for every index, and `Density` uses only the count, so
   * the order changes nothing that the model proves.
   */
  function FindAtoms(p: seq<Particle>, gs: seq<Group>, aid: nat): (r: seq<nat>)
    requires GroupsOk(gs, |p|)
    ensures forall k :: 0 <= k < |r| ==> r[k] < |p| && p[r[k]].id == aid && ActiveSlot(gs, r[k])
  {
    if gs == [] then []
    else
      var g := gs[|gs| - 1];
      FindAtoms(p, gs[..|gs| - 1], aid) + ActiveWithId(p, g, aid, g.size)
  }

  /** The first `k` active slots of g whose particle has id aid. */
  function ActiveWithId(p: seq<Particle>, g: Group, aid: nat, k: nat): (r: seq<nat>)
    requires k <= g.size && g.begin + g.size <= |p|
    ensures forall j :: 0 <= j < |r| ==> g.begin <= r[j] < g.begin + k && p[r[j]].id == aid
  {
    if k == 0 then []
    else
      var r := ActiveWithId(p, g, aid, k - 1);
      if p[g.begin + k - 1].id == aid then r + [g.begin + k - 1] else r
  }

  /** Every active slot of g among its first k whose particle has id aid is listed. */
  lemma {:induction false} ActiveWithIdComplete(p: seq<Particle>, g: Group, aid: nat, k: nat, i: nat)
    requires k <= g.size && g.begin + g.size <= |p|
    requires g.begin <= i < g.begin + k && p[i].id == aid
    ensures i in ActiveWithId(p, g, aid, k)
    decreases k
  {
    if i < g.begin + k - 1 {
      ActiveWithIdComplete(p, g, aid, k - 1, i);
    }
  }

  /** Every active slot whose particle has atom id aid is listed. */
  lemma {:induction false} FindAtomsComplete(p: seq<Particle>, gs: seq<Group>, aid: nat, i: nat)
    requires GroupsOk(gs, |p|)
    requires i < |p| && ActiveSlot(gs, i) && p[i].id == aid
    ensures i in FindAtoms(p, gs, aid)
    decreases |gs|
  {
    var n := |gs| - 1;
    var g := gs[n];
    if g.HasActive(i) {
      ActiveWithIdComplete(p, g, aid, g.size, i);
    } else {
      var gi :| 0 <= gi < |gs| && gs[gi].HasActive(i);
      assert gi < n && gs[..n][gi] == gs[gi];
      FindAtomsComplete(p, gs[..n], aid, i);
    }
  }

  /** `findAtoms` finds nothing exactly when no active slot holds a particle with atom id aid. */
  lemma FindAtomsEmpty(p: seq<Particle>, gs: seq<Group>, aid: nat)
    requires GroupsOk(gs, |p|)
    ensures |FindAtoms(p, gs, aid)| == 0 <==> forall i :: 0 <= i < |p| && ActiveSlot(gs, i) ==> p[i].id != aid
  {
    if |FindAtoms(p, gs, aid)| == 0 {
      forall i | 0 <= i < |p| && ActiveSlot(gs, i)
        ensures p[i].id != aid
      {
        if p[i].id == aid {
          FindAtomsComplete(p, gs, aid, i);
        }
      }
    } else {
      var i := FindAtoms(p, gs, aid)[0];
      assert i < |p| && ActiveSlot(gs, i) && p[i].id == aid;
    }
  }

  /** `findGroupContaining(particle)`: the first group whose active range holds slot i. */
  function FindGroupContaining(gs: seq<Group>, i: nat): (r: nat)
    requires ActiveSlot(gs, i)
    ensures r < |gs| && gs[r].HasActive(i)
    ensures forall j :: 0 <= j < r ==> !gs[j].HasActive(i)
  {
    if gs[0].HasActive(i) then 0
    else
      assert ActiveSlot(gs[1..], i) by {
        var gi :| 0 <= gi < |gs| && gs[gi].HasActive(i);
        assert gs[1..][gi - 1] == gs[gi];
      }
      1 + FindGroupContaining(gs[1..], i)
  }

  /** The slots a group owns, [begin, trueend), in order. */
  function GroupSlots(g: Group): seq<nat>
  {
    Range(g.begin, g.begin + g.capacity)
  }

  /** The concatenation, in group order, of the slots every group owns. */
  function Slots(gs: seq<Group>): seq<nat>
  {
    if gs == [] then [] else Slots(gs[..|gs| - 1]) + GroupSlots(gs[|gs| - 1])
  }

  /** The total number of slots the groups own. */
  function TotalCapacity(gs: seq<Group>): nat
  {
    if gs == [] then 0 else TotalCapacity(gs[..|gs| - 1]) + gs[|gs| - 1].capacity
  }

  /**
   * The groups tile the particle vector: group 0 starts at slot 0, each
   * next group starts where the previous one's slots end, and the last one
   * ends at the end of the vector.
   */
  predicate Tiles(gs: seq<Group>, n: nat)
  {
    (gs == [] ==> n == 0) &&
    (gs != [] ==> gs[0].begin == 0 && gs[|gs| - 1].begin + gs[|gs| - 1].capacity == n) &&
    forall i :: 0 <= i < |gs| - 1 ==> gs[i + 1].begin == gs[i].begin + gs[i].capacity
  }

  /** Groups laid out back to back over the vector own its slots in order. */
  lemma {:induction false} TilesSlots(gs: seq<Group>, n: nat)
    requires Tiles(gs, n)
    ensures Slots(gs) == Range(0, n)
    decreases |gs|
  {
    if gs != [] {
      var m := |gs| - 1;
      var g := gs[m];
      var init := gs[..m];
      assert Slots(gs) == Slots(init) + GroupSlots(g);
      assert GroupSlots(g) == Range(g.begin, n);
      if init == [] {
        assert g.begin == 0;
      } else {
        assert init[m - 1] == gs[m - 1];
        assert init[m - 1].begin + init[m - 1].capacity == g.begin;
        assert Tiles(init, g.begin) by {
          forall i | 0 <= i < |init| - 1 ensures init[i + 1].begin == init[i].begin + init[i].capacity {
            assert init[i] == gs[i] && init[i + 1] == gs[i + 1];
          }
        }
        TilesSlots(init, g.begin);
      }
      RangeSplit(0, g.begin, n);
    }
  }

  lemma RangeSplit(lo: nat, mid: nat, hi: nat)
    requires lo <= mid <= hi
    ensures Range(lo, hi) == Range(lo, mid) + Range(mid, hi)
  {
    var a, b, c := Range(lo, hi), Range(lo, mid), Range(mid, hi);
    assert |a| == |b + c|;
    forall k | 0 <= k < |a| ensures a[k] == (b + c)[k] {
      if k < |b| {
      } else {
        assert (b + c)[k] == c[k - |b|];
      }
    }
  }


  /**
   * A configuration state whose particle vector is updated in place and
   * whose groups' active sizes change through Activate and Deactivate.
   */
  class Space {
    const p: array<Particle>
    var groups: seq<Group>

    ghost predicate Valid()
      reads this
    {
      GroupsOk(groups, p.Length)
    }

    constructor (particles: seq<Particle>, gs: seq<Group>)
      requires GroupsOk(gs, |particles|)
      ensures Valid() && fresh(p)
      ensures p[..] == particles && groups == gs
    {
      p := new Particle[|particles|](i requires 0 <= i < |particles| => particles[i]);
      groups := gs;
    }

    /**
     * `deactivate(first, end())` on group gi: the active tail from slot
     * `first` on becomes inactive; no particle moves.
     */
    method Deactivate(gi: nat, first: nat)
      requires Valid() && gi < |groups|
      requires groups[gi].begin <= first <= groups[gi].End()
      modifies this
      ensures Valid()
      ensures groups == old(groups)[gi := old(groups)[gi].(size := first - old(groups)[gi].begin)]
    {
      groups := groups[gi := groups[gi].(size := first - groups[gi].begin)];
    }

    /**
     * `activate(end(), last)` on group gi: the inactive slots up to `last`
     * join the active prefix; no particle moves.
     */
    method Activate(gi: nat, last: nat)
      requires Valid() && gi < |groups|
      requires groups[gi].End() <= last <= groups[gi].TrueEnd()
      modifies this
      ensures Valid()
      ensures groups == old(groups)[gi := old(groups)[gi].(size := last - old(groups)[gi].begin)]
    {
      groups := groups[gi := groups[gi].(size := last - groups[gi].begin)];
    }
  }
}
