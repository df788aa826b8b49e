/**
 * Reactions and the species tables they refer to. A reaction pairs a set
 * of reactant species with a set of product species, each with its
 * stoichiometric count; molecules (groups) and atoms are listed apart.
 * Species that appear only through their activity (implicit species) are
 * in no list: they never occupy particle slots.
 */
module Reactions {
  import opened Space

  /** One species of a reaction side and how many of it take part. */
  datatype Stoich = Stoich(id: nat, count: nat)

  /**
   * `ReactionData`: name, ln K, whether it is a same-slot swap, whether the
   * reservoir is canonic, the reservoir counter, and the four species lists.
   */
  datatype ReactionData = ReactionData(name: string, lnK: real, swap: bool, canonic: bool,
                                       reservoir: int,
                                       reactantMols: seq<Stoich>, productMols: seq<Stoich>,
                                       reactantAtoms: seq<Stoich>, productAtoms: seq<Stoich>) {

    /** The molecules the reaction creates when run in the given direction. */
    function Molecules2Add(forward: bool): seq<Stoich>
    {
      if forward then productMols else reactantMols
    }

    /** The atoms the reaction creates when run in the given direction. */
    function Atoms2Add(forward: bool): seq<Stoich>
    {
      if forward then productAtoms else reactantAtoms
    }

    /** `empty(forward)`: a canonic reservoir that is used up blocks the forward direction. */
    predicate Empty(forward: bool)
    {
      forward && canonic && reservoir <= 0
    }
  }

  /** Per-atom-type data: the template charge and the diameter. */
  datatype AtomData = AtomData(charge: real, sigma: real)

  /** Per-molecule-type data: whether the molecule is a loose collection of atoms. */
  datatype MoleculeData = MoleculeData(atomic: bool)

  /** The species tables `atoms` and `molecules`. */
  datatype Topology = Topology(atoms: seq<AtomData>, molecules: seq<MoleculeData>)

  predicate DistinctIds(s: seq<Stoich>)
  {
    forall i, j :: 0 <= i < j < |s| ==> s[i].id != s[j].id
  }

  predicate MolIdsIn(s: seq<Stoich>, topo: Topology)
  {
    forall i :: 0 <= i < |s| ==> s[i].id < |topo.molecules|
  }

  /**
   * What loading a reaction guarantees: every species named exists, a side
   * names each molecule once (the lists are maps), and a swap reaction has
   * exactly one explicit atom on each side.
   */
  predicate WellFormed(r: ReactionData, topo: Topology)
  {
    MolIdsIn(r.reactantMols, topo) && MolIdsIn(r.productMols, topo) &&
    DistinctIds(r.reactantMols) && DistinctIds(r.productMols) &&
    (forall i :: 0 <= i < |r.reactantAtoms| ==> r.reactantAtoms[i].id < |topo.atoms|) &&
    (forall i :: 0 <= i < |r.productAtoms| ==> r.productAtoms[i].id < |topo.atoms|) &&
    (r.swap ==> |r.reactantAtoms| == 1 && |r.productAtoms| == 1)
  }

  /** Every group's molecule exists and the group's atomic flag is that molecule's. */
  predicate Consistent(gs: seq<Group>, topo: Topology)
  {
    forall i :: 0 <= i < |gs| ==>
      gs[i].molid < |topo.molecules| && gs[i].atomic == topo.molecules[gs[i].molid].atomic
  }

  lemma ConsistentShape(gs: seq<Group>, hs: seq<Group>, topo: Topology)
    requires Consistent(gs, topo) && SameShape(gs, hs)
    ensures Consistent(hs, topo)
  {
  }

  /** `Particle p = atoms.at(id)`: a particle of that atom type at the origin. */
  function Template(topo: Topology, id: nat): Particle
    requires id < |topo.atoms|
  {
    Particle(id, topo.atoms[id].charge, Point(0.0, 0.0, 0.0))
  }

  /** The count with which molecule `id` appears in a side, 0 when it does not. */
  function Count(s: seq<Stoich>, id: nat): nat
  {
    if s == [] then 0 else if s[0].id == id then s[0].count else Count(s[1..], id)
  }

  predicate Mentions(s: seq<Stoich>, id: nat)
  {
    exists k :: 0 <= k < |s| && s[k].id == id
  }

  lemma {:induction false} CountAbsent(s: seq<Stoich>, id: nat)
    requires !Mentions(s, id)
    ensures Count(s, id) == 0
    decreases |s|
  {
    if s != [] {
      assert !Mentions(s[1..], id) by {
        forall k | 0 <= k < |s[1..]| ensures s[1..][k].id != id {
          assert s[1..][k] == s[k + 1];
        }
      }
      CountAbsent(s[1..], id);
    }
  }

  /** In a side that names each species once, the head's count is its count and the tail does not name it. */
  lemma CountHead(s: seq<Stoich>)
    requires s != [] && DistinctIds(s)
    ensures Count(s, s[0].id) == s[0].count
    ensures !Mentions(s[1..], s[0].id)
    ensures DistinctIds(s[1..])
  {
    forall k | 0 <= k < |s[1..]| ensures s[1..][k].id != s[0].id {
      assert s[1..][k] == s[k + 1];
    }
  }

  lemma MentionsTail(s: seq<Stoich>, id: nat)
    requires s != [] && s[0].id != id
    ensures Mentions(s, id) == Mentions(s[1..], id)
  {
    if Mentions(s, id) {
      var k :| 0 <= k < |s| && s[k].id == id;
      assert s[1..][k - 1] == s[k];
    }
    if Mentions(s[1..], id) {
      var k :| 0 <= k < |s[1..]| && s[1..][k].id == id;
      assert s[k + 1] == s[1..][k];
    }
  }
}
