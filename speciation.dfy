/**
 * `SpeciationMove`: the reaction-ensemble Monte Carlo move. `Move` changes
 * the trial space in place, and the other space's particles in the slots an
 * atomic deletion exchanges, and is proved to compute exactly
 * `Proposal.Propose`; `Bias`, `Accept` and `Reject` are the energy term and
 * the bookkeeping of the acceptance step.
 */
module Speciation {
  import opened Base
  import opened Stats
  import opened Space
  import opened Changes
  import opened Reactions
  import opened Proposal
  import opened JSON

  /** A proposal that went on to the acceptance step: its reaction's name, and whether it was accepted. */
  datatype Decision = Decision(name: string, accepted: bool)

  /** What `_accept` throws. */
  datatype AcceptError = NegativeReservoir

  /** `accmap[name] += x`: one more sample for that name, its entry created empty on first use. */
  function AddSample(accmap: map<string, Average>, name: string, x: real): (m: map<string, Average>)
    ensures m.Keys == accmap.Keys + {name}
    ensures forall k :: k in accmap && k != name ==> m[k] == accmap[k]
  {
    accmap[name := (if name in accmap then accmap[name] else Empty).Add(x)]
  }

  /** The acceptance statistics after the given decisions, in order: 1 for an accepted, 0 for a rejected proposal. */
  function Tallies(ds: seq<Decision>): (m: map<string, Average>)
  {
    if ds == [] then map[]
    else
      var last := ds[|ds| - 1];
      AddSample(Tallies(ds[..|ds| - 1]), last.name, if last.accepted then 1.0 else 0.0)
  }

  /** Tallying one more decision adds its sample and keeps every count positive. */
  lemma TallyStep(ds: seq<Decision>, d: Decision, m: map<string, Average>)
    requires m == Tallies(ds) && forall k :: k in m ==> m[k].cnt > 0
    ensures Tallies(ds + [d]) == AddSample(m, d.name, if d.accepted then 1.0 else 0.0)
    ensures forall k :: k in Tallies(ds + [d]) ==> Tallies(ds + [d])[k].cnt > 0
  {
    assert (ds + [d])[..|ds|] == ds;
  }

  /** How many of the decisions concern reaction `name`, and how many of those were accepted. */
  function Attempts(ds: seq<Decision>, name: string): nat
  {
    if ds == [] then 0 else Attempts(ds[..|ds| - 1], name) + (if ds[|ds| - 1].name == name then 1 else 0)
  }

  function Acceptances(ds: seq<Decision>, name: string): nat
  {
    if ds == [] then 0
    else Acceptances(ds[..|ds| - 1], name) + (if ds[|ds| - 1].name == name && ds[|ds| - 1].accepted then 1 else 0)
  }

  /**
   * The statistics hold an entry exactly for the reactions that were
   * decided on; its count is their number of attempts and its sum the
   * number accepted, so its mean is the acceptance ratio.
   */
  lemma {:induction false} TalliesCount(ds: seq<Decision>)
    ensures forall n :: n in Tallies(ds) <==> Attempts(ds, n) > 0
    ensures forall n :: n in Tallies(ds) ==>
      Tallies(ds)[n].cnt == Attempts(ds, n) && Tallies(ds)[n].sum == Acceptances(ds, n) as real
  {
    if ds != [] {
      var init, last := ds[..|ds| - 1], ds[|ds| - 1];
      TalliesCount(init);
      var m := Tallies(init);
      assert Tallies(ds) == AddSample(m, last.name, if last.accepted then 1.0 else 0.0);
      forall n ensures n in Tallies(ds) <==> Attempts(ds, n) > 0 {
        assert Attempts(ds, n) == Attempts(init, n) + (if last.name == n then 1 else 0);
      }
      forall n | n in Tallies(ds)
        ensures Tallies(ds)[n].cnt == Attempts(ds, n) && Tallies(ds)[n].sum == Acceptances(ds, n) as real
      {
        assert Attempts(ds, n) == Attempts(init, n) + (if last.name == n then 1 else 0);
        assert Acceptances(ds, n) == Acceptances(init, n) + (if last.name == n && last.accepted then 1 else 0);
        if n == last.name && n !in m {
          assert Attempts(init, n) == 0;
          AcceptancesBound(init, n);
        }
      }
    }
  }

  lemma {:induction false} AcceptancesBound(ds: seq<Decision>, name: string)
    ensures Acceptances(ds, name) <= Attempts(ds, name)
  {
    if ds != [] {
      AcceptancesBound(ds[..|ds| - 1], name);
    }
  }

  /**
   * `bias`: the energy term of the acceptance test beyond the Hamiltonian,
   * minus ln K forward and plus ln K backward, each plus the bond energy
   * of the proposal.
   */
  function BiasTerm(lnK: real, bond: real, forward: bool): (b: real)
    ensures forward ==> b == bond - lnK
    ensures !forward ==> b == bond + lnK
  {
    if forward then -lnK + bond else lnK + bond
  }

  /** The reservoir after an accepted proposal: one less forward, one more backward. */
  function Consume(r: ReactionData, forward: bool): (s: ReactionData)
    ensures s.reservoir == r.reservoir + (if forward then -1 else 1)
    ensures s.(reservoir := r.reservoir) == r
  {
    r.(reservoir := r.reservoir + (if forward then -1 else 1))
  }

  /**
   * A canonic reservoir that starts non-negative cannot be driven negative
   * by accepting a proposal that passed the `empty` check: accept then
   * never throws.
   */
  lemma ConsumeKeepsReservoir(r: ReactionData, forward: bool)
    requires r.canonic && r.reservoir >= 0 && !r.Empty(forward)
    ensures Consume(r, forward).reservoir >= 0
  {
  }

  /**
   * `_to_json`: an object whose only key is "reactions", holding for each
   * reaction name its attempts and its acceptance ratio; real-valued
   * entries go through `round` (the three-digit rounding of the report).
   */
  function ReactionReport(accmap: map<string, Average>, round: real -> real): (j: Json)
    requires forall k :: k in accmap ==> accmap[k].cnt > 0
    ensures j.Obj? && j.fields.Keys == {"reactions"} && j.fields["reactions"].Obj?
    ensures j.fields["reactions"].fields.Keys == accmap.Keys
    ensures forall n :: n in accmap ==>
      j.fields["reactions"].fields[n] ==
        Obj(map["attempts" := Int(accmap[n].cnt), "acceptance" := Num(round(accmap[n].Avg()))])
  {
    Obj(map["reactions" := Obj(map n | n in accmap ::
      Obj(map["attempts" := Int(accmap[n].cnt), "acceptance" := Num(round(accmap[n].Avg()))]))])
  }

  /** Reported from statistics that tally the decisions: the attempts and the accepted share of each reaction. */
  lemma ReportCounts(ds: seq<Decision>, round: real -> real, n: string)
    requires n in Tallies(ds)
    ensures forall k :: k in Tallies(ds) ==> Tallies(ds)[k].cnt > 0
    ensures Attempts(ds, n) > 0
    ensures ReactionReport(Tallies(ds), round).fields["reactions"].fields[n] ==
      Obj(map["attempts" := Int(Attempts(ds, n)),
              "acceptance" := Num(round(Acceptances(ds, n) as real / Attempts(ds, n) as real))])
  {
    TalliesCount(ds);
  }

  class SpeciationMove {
    /** The trial space the move works on, and the other (accepted) space. */
    const spc: Space
    var otherspc: Space?
    /** The reaction library (a global vector in the program), and the species tables. */
    var reactions: seq<ReactionData>
    const topo: Topology
    /** The reaction of the last proposal, as its index in `reactions`. */
    var trialprocess: Option<nat>
    /** Per reaction name: the acceptance samples, 1 for an accepted and 0 for a rejected proposal. */
    var accmap: map<string, Average>
    var lnK: real
    var bondenergy: real
    var forward: bool
    /** The decisions of the acceptance step so far, the history `accmap` summarises. */
    ghost var decisions: seq<Decision>

    /** The move's name and its literature reference, as reported. */
    const name: string
    const cite: string

    /** Binds the move to its trial space; the other space is set later by SetOther. */
    constructor (space: Space, library: seq<ReactionData>, topology: Topology)
      requires space.Valid() && Consistent(space.groups, topology) && AllWellFormed(library, topology)
      ensures Valid() && spc == space && otherspc == null && reactions == library && topo == topology
      ensures trialprocess.None? && accmap == map[] && Counted() && name == "rcmc" && cite == "doi:10/fqcpg3"
    {
      spc := space;
      otherspc := null;
      reactions := library;
      topo := topology;
      trialprocess := None;
      accmap := map[];
      decisions := [];
      lnK, bondenergy, forward := 0.0, 0.0, false;
      name := "rcmc";
      cite := "doi:10/fqcpg3";
    }

    ghost predicate Valid()
      reads this`reactions, this`trialprocess, this`accmap, spc
    {
      spc.Valid() && Consistent(spc.groups, topo) && AllWellFormed(reactions, topo) &&
      (trialprocess.Some? ==> trialprocess.value < |reactions|) &&
      (forall k :: k in accmap ==> accmap[k].cnt > 0)
    }

    /** `std::iter_swap` of two slots of a particle vector. */
    static method IterSwap(a: array<Particle>, i: nat, j: nat)
      requires i < a.Length && j < a.Length
      modifies a
      ensures a[..] == Exchange(old(a[..]), i, j)
    {
      a[i], a[j] := a[j], a[i];
    }

    /**
     * One turn of the atomic deletion loop on group gi, the N-th: a random
     * active atom is exchanged with the last active one, in both spaces, when
     * at least one atom lies between them, and the last active slot is
     * deactivated. The other space's slots are addressed from the end oEnd of
     * its group, which the N earlier turns have not moved, as the program does.
     */
    method ShrinkOnce(gi: nat, oEnd: nat, N: nat, d: Draws, t: nat, ghost gs0: seq<Group>, ghost g0: Group)
      returns (atom: nat)
      requires spc.Valid() && otherspc != null && otherspc.p != spc.p && otherspc.p.Length == spc.p.Length
      requires Fair(d) && gi < |gs0| && N < g0.size && oEnd == g0.End() && g0.End() <= spc.p.Length
      requires spc.groups == gs0[gi := g0.(size := g0.size - N)]
      modifies spc, spc.p, otherspc.p
      ensures spc.Valid()
      ensures spc.groups == gs0[gi := g0.(size := g0.size - (N + 1))] && atom == g0.size - 1 - N
      ensures spc.p[..] == Turn(old(spc.p[..]), TurnSlots(g0, d, t, N).0, TurnSlots(g0, d, t, N).1)
      ensures otherspc.p[..] == Turn(old(otherspc.p[..]), TurnSlots(g0, d, t, N).0, TurnSlots(g0, d, t, N).1)
    {
      var g := spc.groups[gi];
      var ait := g.begin + d.pick(t + N, g.size);
      var nait := g.End() - 1;
      var dist := g.End() - ait;
      if nait - ait > 1 {
        IterSwap(spc.p, ait, nait);
        var oa, ob := oEnd - dist - N, oEnd - (1 + N);
        assert oa == ait && ob == nait;
        IterSwap(otherspc.p, oa, ob);
      }
      atom := nait - g.begin;
      spc.Deactivate(gi, nait);
      UpdateTwice(gs0, gi, g0.(size := g0.size - N), g0.(size := g0.size - (N + 1)));
    }

    /**
     * The atomic deletion loop on group gi of this space and the matching
     * group ogi of the other space, n turns; returns the offsets in the
     * order recorded.
     */
    method ShrinkGroup(gi: nat, ogi: nat, n: nat, d: Draws, t: nat, ghost p0: seq<Particle>, ghost op0: seq<Particle>,
                       ghost gs0: seq<Group>)
      returns (atoms: seq<nat>)
      requires spc.Valid() && otherspc != null && otherspc.p != spc.p && otherspc.p.Length == spc.p.Length
      requires spc.p[..] == p0 && otherspc.p[..] == op0 && spc.groups == gs0
      requires Fair(d) && gi < |gs0| && n <= gs0[gi].size
      requires ogi < |otherspc.groups| && otherspc.groups[ogi].End() == gs0[gi].End()
      modifies spc, spc.p, otherspc.p
      ensures spc.Valid()
      ensures spc.groups == gs0[gi := gs0[gi].(size := gs0[gi].size - n)]
      ensures (spc.p[..], otherspc.p[..], atoms) == ShrinkAtoms(p0, op0, gs0[gi], n, d, t)
    {
      ghost var g0 := gs0[gi];
      ghost var gp, gop := p0, op0;
      var oEnd := otherspc.groups[ogi].End();
      atoms := [];
      var N := 0;
      while N < n
        invariant 0 <= N <= n && spc.Valid()
        invariant spc.groups == gs0[gi := g0.(size := g0.size - N)] && oEnd == g0.End()
        invariant spc.p[..] == gp && otherspc.p[..] == gop
        invariant gp == Turned(p0, Turns(g0, N, d, t)) && gop == Turned(op0, Turns(g0, N, d, t))
        invariant atoms == Countdown(g0.size, N)
      {
        var atom := ShrinkOnce(gi, oEnd, N, d, t, gs0, g0);
        ghost var slot := TurnSlots(g0, d, t, N);
        TurnsSnoc(g0, N, d, t);
        gp, gop := Turn(gp, slot.0, slot.1), Turn(gop, slot.0, slot.1);
        atoms := atoms + [atom];
        N := N + 1;
      }
      assert ShrinkAtoms(p0, op0, g0, n, d, t) == (gp, gop, atoms);
    }

    /** The two spaces and the bond energy hold exactly the state w describes. */
    ghost predicate Mirrors(w: Work)
      reads this`otherspc, this`bondenergy, spc, spc.p, if otherspc != null then {otherspc.p} else {}
    {
      Holds(w) && bondenergy == w.bond
    }

    /** The two spaces hold the particles and this space the groups w describes. */
    ghost predicate Holds(w: Work)
      reads this`otherspc, spc, spc.p, if otherspc != null then {otherspc.p} else {}
    {
      otherspc != null && spc.p[..] == w.p && otherspc.p[..] == w.op && spc.groups == w.gs
    }

    /** The state a proposal starts from: both particle vectors, this space's groups, no records yet. */
    ghost function Snapshot(): Work
      requires otherspc != null
      reads this`otherspc, spc, spc.p, otherspc.p
    {
      Work(spc.p[..], otherspc.p[..], spc.groups, [], 0.0, 2)
    }

    /**
     * How the result r and the state after `_move` follow the attempt a made
     * from state w, the bond energy having been bond0: the error when a
     * throws; when a gives up, the change unchanged and the state as it was;
     * otherwise the proposed change, with both spaces and the bond energy as
     * a leaves them.
     */
    ghost function Realizes(a: Attempt, w: Work, change: Change, r: Result<Change, MoveError>, bond0: real): bool
      reads this`otherspc, this`bondenergy, spc, spc.p, if otherspc != null then {otherspc.p} else {}
    {
      (a.Thrown? ==> r == Err(a.error)) &&
      (a.Aborted? ==> r == Ok(change)) &&
      (a.Proposed? ==> r == Ok(a.change) && Mirrors(a.w)) &&
      (!a.Proposed? ==> Holds(w) && bondenergy == bond0)
    }

    /** The other space is set, is a different object from this space, and has its own particle vector. */
    ghost predicate Apart()
      reads this`otherspc
    {
      otherspc != null && otherspc != spc && otherspc.p != spc.p
    }

    /** The delete checks, in list order, returning at the first one that fails. */
    method CheckRemovable(s: seq<Stoich>) returns (v: Verdict)
      requires MolIdsIn(s, topo)
      ensures v == CheckRemovals(spc.groups, topo, s)
    {
      var k := 0;
      while k < |s|
        invariant 0 <= k <= |s| && MolIdsIn(s[k..], topo)
        invariant CheckRemovals(spc.groups, topo, s[k..]) == CheckRemovals(spc.groups, topo, s)
      {
        var e := s[k];
        assert s[k..][0] == e && s[k..][1..] == s[k + 1..];
        var all := FindMolecules(spc.groups, e.id, All);
        if topo.molecules[e.id].atomic {
          if |all| != 1 {
            return Misdefined;
          }
          if spc.groups[all[0]].size < e.count {
            return Infeasible;
          }
        } else {
          var active := FindMolecules(spc.groups, e.id, Active);
          if |active| < e.count {
            return Infeasible;
          }
        }
        k := k + 1;
      }
      return Feasible;
    }

    /** The addition checks, in list order, returning at the first one that fails. */
    method CheckInsertable(s: seq<Stoich>) returns (v: Verdict)
      requires MolIdsIn(s, topo)
      ensures v == CheckInsertions(spc.groups, topo, s)
    {
      var k := 0;
      while k < |s|
        invariant 0 <= k <= |s| && MolIdsIn(s[k..], topo)
        invariant CheckInsertions(spc.groups, topo, s[k..]) == CheckInsertions(spc.groups, topo, s)
      {
        var e := s[k];
        assert s[k..][0] == e && s[k..][1..] == s[k + 1..];
        var all := FindMolecules(spc.groups, e.id, All);
        if topo.molecules[e.id].atomic {
          if |all| != 1 {
            return Misdefined;
          }
          if spc.groups[all[0]].size + e.count > spc.groups[all[0]].capacity {
            return Infeasible;
          }
        } else {
          var inactive := FindMolecules(spc.groups, e.id, Inactive);
          if |inactive| < e.count {
            return Infeasible;
          }
        }
        k := k + 1;
      }
      return Feasible;
    }

    /**
     * The swap phase: a random active atom of the consumed species is
     * overwritten, in this space only, by the produced species' template
     * particle at the same position; returns its record, or nothing when no
     * such atom is active.
     */
    method SwapStep(r: ReactionData, fw: bool, d: Draws, t: nat, ghost w: Work, ghost o: Option<Work>)
      returns (rec: Option<GroupChange>)
      requires Holds(w) && WorkOk(w, topo) && w.t == t && otherspc.p != spc.p
      requires Fair(d) && WellFormed(r, topo) && r.swap && o == SwapAtom(w, topo, r, fw, d)
      modifies spc.p
      ensures rec.Some? == o.Some? && Holds(if o.Some? then o.value else w)
      ensures o.Some? ==> |o.value.pushed| == |w.pushed| + 1 && rec.value == o.value.pushed[|w.pushed|]
    {
      var list := FindAtoms(spc.p[..], spc.groups, SwapFrom(r, fw));
      if |list| == 0 {
        return None;
      }
      var slot := list[d.pick(t, |list|)];
      var gi := FindGroupContaining(spc.groups, slot);
      var q := Template(topo, SwapTo(r, fw)).(pos := spc.p[slot].pos);
      rec := Some(Record(gi, [slot - spc.groups[gi].begin]).(internal := true, dNswap := true));
      ghost var v := w.(p := w.p[slot := q], pushed := w.pushed + [rec.value], t := w.t + 1);
      assert o == Some(v);
      WriteSlot(slot, q, w.p, w.op);
    }

    /** particle q stored at slot of this space only. */
    method WriteSlot(slot: nat, q: Particle, ghost ps: seq<Particle>, ghost ops: seq<Particle>)
      requires otherspc != null && otherspc.p != spc.p && spc.p[..] == ps && otherspc.p[..] == ops && slot < |ps|
      modifies spc.p
      ensures spc.p[..] == ps[slot := q] && otherspc.p[..] == ops
    {
      spc.p[slot] := q;
    }

    /** `std::sort` of a record's offsets: a run lo, ..., hi-1 in any order comes out ascending. */
    static method SortOffsets(atoms: seq<nat>, ghost lo: nat, ghost hi: nat) returns (sorted: seq<nat>)
      requires lo <= hi && multiset(atoms) == multiset(Range(lo, hi))
      ensures sorted == Range(lo, hi)
    {
      sorted := SortAtoms(atoms);
      SortAtomsRange(atoms, lo, hi);
    }

    /** The offsets 0, 1, ..., cap-1 a whole-group record lists. */
    static method Offsets(cap: nat) returns (atoms: seq<nat>)
      ensures atoms == Range(0, cap)
    {
      atoms := [];
      var i := 0;
      while i < cap
        invariant 0 <= i <= cap && atoms == Range(0, i)
      {
        atoms := atoms + [i];
        i := i + 1;
      }
    }

    /** The deletion of an atomic entry: e.count atoms from the end of its one group, in both spaces. */
    method DeleteAtoms(e: Stoich, d: Draws, t: nat, pushed: seq<GroupChange>, ghost w: Work)
      returns (out: seq<GroupChange>)
      requires Mirrors(w) && WorkOk(w, topo) && spc.Valid() && otherspc.p != spc.p && w.t == t && w.pushed == pushed
      requires Fair(d) && e.id < |topo.molecules| && IsAtomic(topo, e.id) && Removable(w.gs, topo, e)
      requires AgreeOn(otherspc.groups, spc.groups, e.id)
      modifies spc, spc.p, otherspc.p
      ensures spc.Valid() && Mirrors(RemoveAtoms(w, topo, e, d)) && out == RemoveAtoms(w, topo, e, d).pushed
    {
      var all := FindMolecules(spc.groups, e.id, All);
      var gi := all[0];
      SelectionAgrees(otherspc.groups, spc.groups, e.id, All);
      var oall := FindMolecules(otherspc.groups, e.id, All);
      var ogi := oall[0];
      assert RemoveAtoms(w, topo, e, d) == ShrinkInto(w, gi, e.count, d);
      out := DeactivateAtoms(gi, ogi, e.count, d, t, pushed, w, ShrinkInto(w, gi, e.count, d));
    }

    /** ShrinkGroup on group gi and its twin ogi, with the record of the atoms it deactivated: the state v. */
    method DeactivateAtoms(gi: nat, ogi: nat, n: nat, d: Draws, t: nat, pushed: seq<GroupChange>,
                           ghost w: Work, ghost v: Work)
      returns (out: seq<GroupChange>)
      requires Mirrors(w) && spc.Valid() && otherspc.p != spc.p && |w.op| == |w.p| && w.t == t && w.pushed == pushed
      requires Fair(d) && gi < |w.gs| && n <= w.gs[gi].size && v == ShrinkInto(w, gi, n, d)
      requires ogi < |otherspc.groups| && otherspc.groups[ogi].End() == w.gs[gi].End()
      modifies spc, spc.p, otherspc.p
      ensures spc.Valid() && Mirrors(v) && out == v.pushed
    {
      ghost var g := w.gs[gi];
      ghost var s := ShrinkAtoms(w.p, w.op, g, n, d, t);
      assert v.gs == w.gs[gi := g.(size := g.size - n)] && v.p == s.0 && v.op == s.1 && v.bond == w.bond;
      assert v.pushed == pushed + [AtomicRecord(gi, Range(g.size - n, g.size))];
      CountdownRange(g.size, n);
      assert s.2 == Countdown(g.size, n);
      var atoms := ShrinkGroup(gi, ogi, n, d, t, w.p, w.op, w.gs);
      var sorted := SortOffsets(atoms, g.size - n, g.size);
      out := pushed + [AtomicRecord(gi, sorted)];
    }

    /**
     * One molecular deletion: a random fully active group of species id,
     * its bond energy added before it is deactivated, and its record.
     */
    method DropOne(id: nat, d: Draws, t: nat, N: nat, ghost p: seq<Particle>, ghost gs0: seq<Group>, ghost s: DropState)
      returns (rec: GroupChange, ghost s': DropState)
      requires spc.Valid() && spc.groups == s.gs && spc.p[..] == p && Fair(d) && GroupsOk(gs0, |p|)
      requires s == DropRun(p, gs0, id, N, d, t) && Molecular(gs0, id) && N < |FindMolecules(gs0, id, Active)|
      modifies spc, this`bondenergy
      ensures s' == DropRun(p, gs0, id, N + 1, d, t)
      ensures spc.Valid() && spc.groups == s'.gs && s'.recs == s.recs + [rec] && bondenergy == old(bondenergy) + (s'.bond - s.bond)
    {
      DropRunCount(p, gs0, id, N, d, t);
      var list := FindMolecules(spc.groups, id, Active);
      var gi := list[d.pick(t + N, |list|)];
      var g := spc.groups[gi];
      bondenergy := bondenergy + d.bondEnergy(id, spc.p[g.begin..g.TrueEnd()]);
      spc.Deactivate(gi, g.begin);
      var atoms := Offsets(g.capacity);
      rec := Record(gi, atoms).(all := true, internal := true);
      s' := DropNext(p, s, id, d, t + N);
      assert s' == DropRun(p, gs0, id, N + 1, d, t) by {
        DropRunSnoc(p, gs0, id, N, d, t, s);
      }
    }

    /** The deletion of n whole molecules of species id, the selection taken afresh at every step. */
    method DropGroups(id: nat, n: nat, d: Draws, t: nat) returns (recs: seq<GroupChange>)
      requires spc.Valid() && Fair(d) && Molecular(spc.groups, id) && n <= |FindMolecules(spc.groups, id, Active)|
      modifies spc, this`bondenergy
      ensures spc.Valid() && spc.groups == Drop(old(spc.groups), id, n, d, t)
      ensures recs == DropRecords(old(spc.groups), id, n, d, t)
      ensures bondenergy == old(bondenergy) + DropBond(spc.p[..], old(spc.groups), id, n, d, t)
    {
      ghost var gs0, p := spc.groups, spc.p[..];
      ghost var st;
      recs, st := DropLoop(id, n, d, t, p, gs0);
      DropRunIsDrop(p, gs0, id, n, d, t);
    }

    /** The loop of DropGroups: its n turns, as DropRun n. */
    method DropLoop(id: nat, n: nat, d: Draws, t: nat, ghost p: seq<Particle>, ghost gs0: seq<Group>)
      returns (recs: seq<GroupChange>, ghost st: DropState)
      requires spc.Valid() && Fair(d) && spc.groups == gs0 && spc.p[..] == p
      requires Molecular(gs0, id) && n <= |FindMolecules(gs0, id, Active)|
      modifies spc, this`bondenergy
      ensures spc.Valid() && GroupsOk(gs0, |p|) && st == DropRun(p, gs0, id, n, d, t)
      ensures spc.groups == st.gs && recs == st.recs && bondenergy == old(bondenergy) + st.bond
    {
      st := DropState(gs0, [], 0.0);
      recs := [];
      var N := 0;
      while N < n
        invariant 0 <= N <= n && spc.Valid() && spc.p[..] == p && GroupsOk(gs0, |p|)
        invariant spc.groups == st.gs && recs == st.recs && bondenergy == old(bondenergy) + st.bond
        invariant st == DropRun(p, gs0, id, N, d, t)
      {
        var rec;
        ghost var next;
        rec, next := DropOne(id, d, t, N, p, gs0, st);
        st := next;
        recs := recs + [rec];
        N := N + 1;
      }
    }

    /** The deletion of a molecular entry: e.count whole molecules, this space only. */
    method DeleteMols(e: Stoich, d: Draws, t: nat, pushed: seq<GroupChange>, ghost w: Work)
      returns (out: seq<GroupChange>)
      requires Mirrors(w) && WorkOk(w, topo) && spc.Valid() && w.t == t && w.pushed == pushed
      requires Fair(d) && e.id < |topo.molecules| && !IsAtomic(topo, e.id) && Removable(w.gs, topo, e)
      modifies spc, this`bondenergy
      ensures spc.Valid() && Mirrors(RemoveMols(w, topo, e, d)) && out == RemoveMols(w, topo, e, d).pushed
    {
      MolecularOf(spc.groups, spc.p.Length, topo, e.id);
      var recs := DropGroups(e.id, e.count, d, t);
      out := pushed + recs;
    }

    /** The deletion of one entry of the consumed side. */
    method DeleteEntry(e: Stoich, d: Draws, t: nat, pushed: seq<GroupChange>, ghost w: Work)
      returns (out: seq<GroupChange>)
      requires Mirrors(w) && WorkOk(w, topo) && spc.Valid() && Apart() && w.t == t && w.pushed == pushed
      requires Fair(d) && e.id < |topo.molecules| && Removable(w.gs, topo, e)
      requires AgreeOn(otherspc.groups, spc.groups, e.id)
      modifies spc, spc.p, otherspc.p, this`bondenergy
      ensures spc.Valid() && Mirrors(RemoveEntry(w, topo, e, d)) && out == RemoveEntry(w, topo, e, d).pushed
    {
      if topo.molecules[e.id].atomic {
        out := DeleteAtoms(e, d, t, pushed, w);
      } else {
        out := DeleteMols(e, d, t, pushed, w);
      }
    }

    /**
     * One turn of the deletion loop over a side: the head entry of the rest
     * deleted, and what the remaining entries need kept.
     */
    method DeleteStep(rest: seq<Stoich>, d: Draws, t: nat, pushed: seq<GroupChange>, ghost w: Work)
      returns (out: seq<GroupChange>, t': nat, ghost v: Work)
      requires Mirrors(w) && WorkOk(w, topo) && spc.Valid() && Apart() && w.t == t && w.pushed == pushed && Fair(d)
      requires rest != [] && MolIdsIn(rest, topo) && DistinctIds(rest)
      requires forall k :: 0 <= k < |rest| ==> Removable(w.gs, topo, rest[k])
      requires forall k :: 0 <= k < |rest| ==> AgreeOn(otherspc.groups, w.gs, rest[k].id)
      modifies spc, spc.p, otherspc.p, this`bondenergy
      ensures Mirrors(v) && WorkOk(v, topo) && spc.Valid() && Apart() && v.t == t' && v.pushed == out
      ensures MolIdsIn(rest[1..], topo) && DistinctIds(rest[1..])
      ensures forall k :: 0 <= k < |rest[1..]| ==> Removable(v.gs, topo, rest[1..][k])
      ensures forall k :: 0 <= k < |rest[1..]| ==> AgreeOn(otherspc.groups, v.gs, rest[1..][k].id)
      ensures Removals(v, topo, rest[1..], d) == Removals(w, topo, rest, d)
    {
      var e := rest[0];
      v := RemoveEntry(w, topo, e, d);
      RemovableTail(w.gs, v.gs, topo, rest);
      AgreeOnTail(otherspc.groups, w.gs, v.gs, rest);
      out := DeleteEntry(e, d, t, pushed, w);
      t' := t + e.count;
    }

    /** The deletion loop over the consumed side s, in list order. */
    method DeleteSide(s: seq<Stoich>, d: Draws, t: nat, pushed: seq<GroupChange>, ghost w: Work)
      returns (out: seq<GroupChange>, t': nat)
      requires Mirrors(w) && WorkOk(w, topo) && spc.Valid() && Apart() && w.t == t && w.pushed == pushed && Fair(d)
      requires MolIdsIn(s, topo) && DistinctIds(s) && forall k :: 0 <= k < |s| ==> Removable(w.gs, topo, s[k])
      requires forall k :: 0 <= k < |s| ==> AgreeOn(otherspc.groups, w.gs, s[k].id)
      modifies spc, spc.p, otherspc.p, this`bondenergy
      ensures spc.Valid() && Apart() && Mirrors(Removals(w, topo, s, d))
      ensures out == Removals(w, topo, s, d).pushed && t' == Removals(w, topo, s, d).t
    {
      ghost var cur := w;
      var rest := s;
      out, t' := pushed, t;
      while rest != []
        invariant Mirrors(cur) && WorkOk(cur, topo) && spc.Valid() && Apart() && cur.t == t' && cur.pushed == out
        invariant MolIdsIn(rest, topo) && DistinctIds(rest)
        invariant forall k :: 0 <= k < |rest| ==> Removable(cur.gs, topo, rest[k])
        invariant forall k :: 0 <= k < |rest| ==> AgreeOn(otherspc.groups, cur.gs, rest[k].id)
        invariant Removals(cur, topo, rest, d) == Removals(w, topo, s, d)
        decreases |rest|
      {
        ghost var next;
        out, t', next := DeleteStep(rest, d, t', out, cur);
        cur := next;
        rest := rest[1..];
      }
    }

    /**
     * The atomic insertion loop on group gi: each step activates the first
     * inactive slot and gives it a random position; returns the offsets in
     * the order recorded.
     */
    method GrowGroup(gi: nat, n: nat, d: Draws, t: nat, ghost p0: seq<Particle>, ghost gs0: seq<Group>)
      returns (atoms: seq<nat>)
      requires spc.Valid() && spc.p[..] == p0 && spc.groups == gs0
      requires gi < |gs0| && gs0[gi].size + n <= gs0[gi].capacity
      modifies spc, spc.p
      ensures spc.Valid()
      ensures spc.groups == gs0[gi := gs0[gi].(size := gs0[gi].size + n)]
      ensures spc.p[..] == GrowAtoms(p0, gs0[gi], n, d, t)
      ensures atoms == Range(gs0[gi].size, gs0[gi].size + n)
    {
      ghost var g0 := gs0[gi];
      atoms := [];
      var N := 0;
      while N < n
        invariant 0 <= N <= n && spc.Valid() && spc.groups == gs0[gi := g0.(size := g0.size + N)]
        invariant forall i :: 0 <= i < spc.p.Length ==>
          spc.p[i] == if g0.End() <= i < g0.End() + N then p0[i].(pos := d.randPos(t + (i - g0.End()))) else p0[i]
        invariant atoms == Range(g0.size, g0.size + N)
      {
        var g := spc.groups[gi];
        spc.Activate(gi, g.End() + 1);
        UpdateTwice(gs0, gi, g0.(size := g0.size + N), g0.(size := g0.size + (N + 1)));
        var slot := spc.groups[gi].End() - 1;
        spc.p[slot] := spc.p[slot].(pos := d.randPos(t + N));
        atoms := atoms + [slot - g.begin];
        N := N + 1;
      }
      assert spc.p[..] == GrowAtoms(p0, g0, n, d, t);
    }

    /** `translate`, `randompos`, `translate` and `rotate` of every slot of g, in place. */
    method RelocateGroup(g: Group, d: Draws, t: nat, ghost ps: seq<Particle>)
      requires spc.p[..] == ps && g.TrueEnd() <= |ps|
      modifies spc.p
      ensures spc.p[..] == Relocate(ps, g, d, t)
    {
      forall i | g.begin <= i < g.TrueEnd() {
        spc.p[i] := spc.p[i].(pos := d.place(t, i - g.begin, spc.p[i].pos));
      }
    }

    /**
     * One molecular insertion: a random not fully active group of species
     * id, its inactive part activated, every slot given a new position, its
     * bond energy subtracted, and its record.
     */
    method FillStep(id: nat, d: Draws, t: nat, ghost s: FillState, ghost s': FillState) returns (rec: GroupChange)
      requires spc.Valid() && spc.groups == s.gs && spc.p[..] == s.p && Fair(d) && 0 < |FindMolecules(s.gs, id, Inactive)|
      requires s' == FillNext(s, id, d, t)
      modifies spc, spc.p, this`bondenergy
      ensures spc.Valid() && spc.groups == s'.gs && spc.p[..] == s'.p && s'.recs == s.recs + [rec]
      ensures bondenergy == old(bondenergy) - (s'.bond - s.bond)
    {
      var list := FindMolecules(spc.groups, id, Inactive);
      var gi := list[d.pick(t, |list|)];
      var g := spc.groups[gi];
      spc.Activate(gi, g.TrueEnd());
      RelocateGroup(g, d, t, s.p);
      bondenergy := bondenergy - d.bondEnergy(id, spc.p[g.begin..g.TrueEnd()]);
      var atoms := Offsets(g.capacity);
      rec := Record(gi, atoms).(all := true, internal := true);
    }

    /** The insertion loop's step N: FillStep on the state after N steps. */
    method FillOne(id: nat, d: Draws, t: nat, N: nat, ghost p0: seq<Particle>, ghost gs0: seq<Group>, ghost s: FillState)
      returns (rec: GroupChange, ghost s': FillState)
      requires spc.Valid() && spc.groups == s.gs && spc.p[..] == s.p && Fair(d) && GroupsOk(gs0, |p0|)
      requires s == FillRun(p0, gs0, id, N, d, t) && 0 < |FindMolecules(s.gs, id, Inactive)|
      modifies spc, spc.p, this`bondenergy
      ensures s' == FillRun(p0, gs0, id, N + 1, d, t)
      ensures spc.Valid() && spc.groups == s'.gs && spc.p[..] == s'.p && s'.recs == s.recs + [rec]
      ensures bondenergy == old(bondenergy) - (s'.bond - s.bond)
    {
      assert GroupsOk(s.gs, |s.p|);
      s' := FillNext(s, id, d, t + N);
      FillRunNext(p0, gs0, id, N, d, t, s, s');
      rec := FillStep(id, d, t + N, s, s');
    }

    /** The insertion of n whole molecules of species id, the selection taken afresh at every step. */
    method FillGroups(id: nat, n: nat, d: Draws, t: nat) returns (recs: seq<GroupChange>)
      requires spc.Valid() && Fair(d) && n <= |FindMolecules(spc.groups, id, Inactive)|
      modifies spc, spc.p, this`bondenergy
      ensures spc.Valid() && spc.groups == Fill(old(spc.groups), id, n, d, t)
      ensures spc.p[..] == FillParticles(old(spc.p[..]), old(spc.groups), id, n, d, t)
      ensures recs == FillRecords(old(spc.groups), id, n, d, t)
      ensures bondenergy == old(bondenergy) - FillBond(old(spc.p[..]), old(spc.groups), id, n, d, t)
    {
      ghost var gs0, b0, p0 := spc.groups, bondenergy, spc.p[..];
      ghost var st := FillState(gs0, p0, [], 0.0);
      recs := [];
      var N := 0;
      while N < n
        invariant 0 <= N <= n && spc.Valid() && GroupsOk(gs0, |p0|)
        invariant spc.groups == st.gs && spc.p[..] == st.p && recs == st.recs && bondenergy == b0 - st.bond
        invariant st == FillRun(p0, gs0, id, N, d, t)
      {
        assert 0 < |FindMolecules(st.gs, id, Inactive)| by {
          FillRunCount(p0, gs0, id, N, d, t);
        }
        var rec;
        ghost var next;
        rec, next := FillOne(id, d, t, N, p0, gs0, st);
        st := next;
        recs := recs + [rec];
        N := N + 1;
      }
      FillRunIsFill(p0, gs0, id, n, d, t);
    }

    /** The insertion of an atomic entry: e.count atoms after the active ones of its one group. */
    method AddAtoms(e: Stoich, d: Draws, t: nat, pushed: seq<GroupChange>, ghost w: Work)
      returns (out: seq<GroupChange>)
      requires Mirrors(w) && WorkOk(w, topo) && spc.Valid() && Apart() && w.t == t && w.pushed == pushed
      requires Fair(d) && e.id < |topo.molecules| && IsAtomic(topo, e.id) && Insertable(w.gs, topo, e)
      modifies spc, spc.p
      ensures spc.Valid() && Mirrors(InsertAtoms(w, topo, e, d)) && out == InsertAtoms(w, topo, e, d).pushed
    {
      var all := FindMolecules(spc.groups, e.id, All);
      var gi := all[0];
      assert InsertAtoms(w, topo, e, d) == GrowInto(w, gi, e.count, d);
      out := ActivateAtoms(gi, e.count, d, t, pushed, w, GrowInto(w, gi, e.count, d));
    }

    /** GrowGroup on group gi, with the record of the atoms it activated: the state v. */
    method ActivateAtoms(gi: nat, n: nat, d: Draws, t: nat, pushed: seq<GroupChange>, ghost w: Work, ghost v: Work)
      returns (out: seq<GroupChange>)
      requires Mirrors(w) && spc.Valid() && Apart() && GroupsOk(w.gs, |w.p|) && w.t == t && w.pushed == pushed
      requires gi < |w.gs| && w.gs[gi].size + n <= w.gs[gi].capacity && v == GrowInto(w, gi, n, d)
      modifies spc, spc.p
      ensures spc.Valid() && Mirrors(v) && out == v.pushed
    {
      ghost var g := w.gs[gi];
      GrowIntoParts(w, gi, n, d);
      var atoms := GrowGroup(gi, n, d, t, w.p, w.gs);
      var sorted := SortOffsets(atoms, g.size, g.size + n);
      out := pushed + [AtomicRecord(gi, sorted)];
    }

    /** The insertion of a molecular entry: e.count whole molecules. */
    method AddMols(e: Stoich, d: Draws, t: nat, pushed: seq<GroupChange>, ghost w: Work)
      returns (out: seq<GroupChange>)
      requires Mirrors(w) && WorkOk(w, topo) && spc.Valid() && Apart() && w.t == t && w.pushed == pushed
      requires Fair(d) && e.id < |topo.molecules| && !IsAtomic(topo, e.id) && Insertable(w.gs, topo, e)
      modifies spc, spc.p, this`bondenergy
      ensures spc.Valid() && Mirrors(InsertMols(w, topo, e, d)) && out == InsertMols(w, topo, e, d).pushed
    {
      var recs := FillGroups(e.id, e.count, d, t);
      out := pushed + recs;
    }

    /** The insertion of one entry of the produced side. */
    method AddEntry(e: Stoich, d: Draws, t: nat, pushed: seq<GroupChange>, ghost w: Work)
      returns (out: seq<GroupChange>)
      requires Mirrors(w) && WorkOk(w, topo) && spc.Valid() && Apart() && w.t == t && w.pushed == pushed
      requires Fair(d) && e.id < |topo.molecules| && Insertable(w.gs, topo, e)
      modifies spc, spc.p, this`bondenergy
      ensures spc.Valid() && Mirrors(InsertEntry(w, topo, e, d)) && out == InsertEntry(w, topo, e, d).pushed
    {
      if topo.molecules[e.id].atomic {
        out := AddAtoms(e, d, t, pushed, w);
      } else {
        out := AddMols(e, d, t, pushed, w);
      }
    }

    /** One turn of the insertion loop over a side: the head entry of the rest inserted. */
    method AddStep(rest: seq<Stoich>, d: Draws, t: nat, pushed: seq<GroupChange>, ghost w: Work)
      returns (out: seq<GroupChange>, t': nat, ghost v: Work)
      requires Mirrors(w) && WorkOk(w, topo) && spc.Valid() && Apart() && w.t == t && w.pushed == pushed && Fair(d)
      requires rest != [] && MolIdsIn(rest, topo) && DistinctIds(rest)
      requires forall k :: 0 <= k < |rest| ==> Insertable(w.gs, topo, rest[k])
      modifies spc, spc.p, this`bondenergy
      ensures Mirrors(v) && WorkOk(v, topo) && spc.Valid() && Apart() && v.t == t' && v.pushed == out
      ensures MolIdsIn(rest[1..], topo) && DistinctIds(rest[1..])
      ensures forall k :: 0 <= k < |rest[1..]| ==> Insertable(v.gs, topo, rest[1..][k])
      ensures Insertions(v, topo, rest[1..], d) == Insertions(w, topo, rest, d)
    {
      var e := rest[0];
      v := InsertEntry(w, topo, e, d);
      InsertableTail(w.gs, v.gs, topo, rest);
      out := AddEntry(e, d, t, pushed, w);
      t' := t + e.count;
    }

    /** The insertion loop over the produced side s, in list order. */
    method AddSide(s: seq<Stoich>, d: Draws, t: nat, pushed: seq<GroupChange>, ghost w: Work)
      returns (out: seq<GroupChange>, t': nat)
      requires Mirrors(w) && WorkOk(w, topo) && spc.Valid() && Apart() && w.t == t && w.pushed == pushed && Fair(d)
      requires MolIdsIn(s, topo) && DistinctIds(s) && forall k :: 0 <= k < |s| ==> Insertable(w.gs, topo, s[k])
      modifies spc, spc.p, this`bondenergy
      ensures spc.Valid() && Apart() && Mirrors(Insertions(w, topo, s, d))
      ensures out == Insertions(w, topo, s, d).pushed && t' == Insertions(w, topo, s, d).t
    {
      ghost var cur := w;
      var rest := s;
      out, t' := pushed, t;
      while rest != []
        invariant Mirrors(cur) && WorkOk(cur, topo) && spc.Valid() && Apart() && cur.t == t' && cur.pushed == out
        invariant MolIdsIn(rest, topo) && DistinctIds(rest)
        invariant forall k :: 0 <= k < |rest| ==> Insertable(cur.gs, topo, rest[k])
        invariant Insertions(cur, topo, rest, d) == Insertions(w, topo, s, d)
        decreases |rest|
      {
        ghost var next;
        out, t', next := AddStep(rest, d, t', out, cur);
        cur := next;
        rest := rest[1..];
      }
    }

    /** The deletions of the consumed side of r, then the insertions of its produced side. */
    method Mutation(r: ReactionData, fw: bool, d: Draws, t: nat, pushed: seq<GroupChange>, ghost w: Work)
      returns (out: seq<GroupChange>)
      requires Mirrors(w) && WorkOk(w, topo) && spc.Valid() && Apart() && w.t == t && w.pushed == pushed
      requires Fair(d) && WellFormed(r, topo) && otherspc.groups == w.gs
      requires AllRemovable(w.gs, topo, r.Molecules2Add(!fw)) && AllInsertable(w.gs, topo, r.Molecules2Add(fw))
      modifies spc, spc.p, otherspc.p, this`bondenergy
      ensures spc.Valid() && Apart() && Mirrors(Mutate(w, topo, r, fw, d)) && out == Mutate(w, topo, r, fw, d).pushed
    {
      var dels, adds := r.Molecules2Add(!fw), r.Molecules2Add(fw);
      MutateSplit(w, topo, r, fw, d);
      ghost var w1 := Removals(w, topo, dels, d);
      var mid, t1 := DeleteSide(dels, d, t, pushed, w);
      var t2;
      out, t2 := AddSide(adds, d, t1, mid, w1);
    }

    /**
     * The part of `_move` after the checks: the swap relabel when r is a
     * swap, the bond energy reset, the deletions and insertions, and the
     * change with `dN` set and every record sorted in; nothing when the swap
     * finds no atom to relabel.
     */
    method Perform(change: Change, r: ReactionData, fw: bool, d: Draws, ghost w: Work) returns (c: Option<Change>)
      requires Holds(w) && WorkOk(w, topo) && spc.Valid() && Apart() && w.pushed == [] && w.t == 2 && w.bond == 0.0
      requires Fair(d) && WellFormed(r, topo) && otherspc.groups == w.gs
      requires AllRemovable(w.gs, topo, r.Molecules2Add(!fw)) && AllInsertable(w.gs, topo, r.Molecules2Add(fw))
      modifies spc, spc.p, otherspc.p, this`bondenergy
      ensures spc.Valid() && Apart() && Consistent(spc.groups, topo)
      ensures c.None? <==> Apply(w, change, r, fw, topo, d).Aborted?
      ensures c.None? ==> Holds(w) && bondenergy == old(bondenergy)
      ensures c.Some? ==> Mirrors(Apply(w, change, r, fw, topo, d).w) && c.value == Apply(w, change, r, fw, topo, d).change
    {
      var pushed: seq<GroupChange> := [];
      var t := 2;
      ghost var w1 := w;
      if r.swap {
        ghost var o := SwapAtom(w, topo, r, fw, d);
        var rec := SwapStep(r, fw, d, 2, w, o);
        if rec.None? {
          return None;
        }
        assert o.value.pushed == [rec.value];
        pushed, t, w1 := [rec.value], 3, o.value;
      }
      bondenergy := 0.0;
      assert Relabel(w, topo, r, fw, d) == Some(w1);
      var out := Mutation(r, fw, d, t, pushed, w1);
      c := Some(change.(dN := true, groups := SortGroups(change.groups + out)));
    }

    /** The checks of `_move` for the drawn reaction rx, in program order. */
    method ScreenReaction(rx: ReactionData, fw: bool) returns (v: Verdict)
      requires WellFormed(rx, topo)
      ensures v == Screen(spc.groups, topo, rx, fw)
    {
      if rx.Empty(fw) {
        return Infeasible;
      }
      v := CheckRemovable(rx.Molecules2Add(!fw));
      if v == Feasible {
        v := CheckInsertable(rx.Molecules2Add(fw));
      }
    }

    /**
     * The checks of `_move` for the drawn reaction rx and direction fw, in
     * program order, and, when they pass, `Perform`. Exactly what
     * `Proposal.ProposeWith` computes from the state w before the call.
     */
    method Trial(change: Change, rx: ReactionData, fw: bool, d: Draws, ghost w: Work, ghost a: Attempt)
      returns (r: Result<Change, MoveError>)
      requires spc.Valid() && Consistent(spc.groups, topo) && Apart() && Fair(d)
      requires otherspc.groups == spc.groups && otherspc.p.Length == spc.p.Length
      requires WellFormed(rx, topo) && w == Snapshot()
      requires a == ProposeWith(w.p, w.op, w.gs, change, rx, fw, topo, d, 2)
      modifies this`bondenergy, spc, spc.p, otherspc.p
      ensures spc.Valid() && Consistent(spc.groups, topo) && Apart()
      ensures Realizes(a, w, change, r, old(bondenergy))
    {
      var v := ScreenReaction(rx, fw);
      if v == Misdefined {
        r := Err(OneGroupPerAtomic);
      } else if v == Infeasible {
        r := Ok(change);
      } else {
        var c := Perform(change, rx, fw, d, w);
        r := if c.None? then Ok(change) else Ok(c.value);
      }
    }

    /** What `_move` records once reaction k and direction fw are drawn, before its checks. */
    method RecordDraw(k: nat, fw: bool)
      requires k < |reactions|
      modifies this`trialprocess, this`lnK, this`forward
      ensures trialprocess == Some(k) && lnK == reactions[k].lnK && forward == fw
    {
      trialprocess := Some(k);
      lnK := reactions[k].lnK;
      forward := fw;
    }

    /**
     * `_move` once the reaction index k is drawn: the reaction, its
     * equilibrium constant and the direction (draw 1) recorded, as the
     * program does before its checks, then `Trial`.
     */
    method MoveWith(change: Change, k: nat, d: Draws, ghost w: Work, ghost a: Attempt)
      returns (r: Result<Change, MoveError>)
      requires spc.Valid() && Consistent(spc.groups, topo) && Apart() && Fair(d)
      requires otherspc.groups == spc.groups && otherspc.p.Length == spc.p.Length
      requires k < |reactions| && WellFormed(reactions[k], topo) && w == Snapshot()
      requires a == ProposeWith(w.p, w.op, w.gs, change, reactions[k], d.pick(1, 2) == 1, topo, d, 2)
      modifies this`trialprocess, this`lnK, this`forward, this`bondenergy, spc, spc.p, otherspc.p
      ensures spc.Valid() && Consistent(spc.groups, topo) && Apart()
      ensures trialprocess == Some(k) && lnK == reactions[k].lnK && forward == (d.pick(1, 2) == 1)
      ensures Realizes(a, w, change, r, old(bondenergy))
    {
      var rx := reactions[k];
      var fw := d.pick(1, 2) == 1;
      RecordDraw(k, fw);
      r := Trial(change, rx, fw, d, w, a);
    }

    /**
     * `_move`: draws the reaction (draw 0), then `MoveWith`. Exactly what
     * `Proposal.Propose` computes from the state before the call: an error
     * when that throws, the unchanged change and state when it gives up, and
     * the proposed change and state otherwise.
     */
    method Move(change: Change, d: Draws) returns (r: Result<Change, MoveError>)
      requires Valid() && Apart() && otherspc.groups == spc.groups && otherspc.p.Length == spc.p.Length && Fair(d)
      modifies this`trialprocess, this`lnK, this`forward, this`bondenergy, spc, spc.p, otherspc.p
      ensures Valid() && Apart() && accmap == old(accmap)
      ensures var w := old(Snapshot());
        Realizes(Propose(w.p, w.op, w.gs, change, reactions, topo, d), w, change, r, old(bondenergy))
      ensures |reactions| == 0 ==> trialprocess == old(trialprocess) && lnK == old(lnK) && forward == old(forward)
      ensures |reactions| > 0 ==>
        trialprocess == Some(d.pick(0, |reactions|)) && lnK == reactions[d.pick(0, |reactions|)].lnK &&
        forward == (d.pick(1, 2) == 1)
    {
      if |reactions| == 0 {
        return Err(NoReactions);
      }
      ghost var w := Snapshot();
      r := MoveWith(change, d.pick(0, |reactions|), d, w, Propose(w.p, w.op, w.gs, change, reactions, topo, d));
    }

    /** `accmap` summarises exactly the decisions taken. */
    ghost predicate Counted()
      reads this
    {
      accmap == Tallies(decisions)
    }

    /** `setOther`: the other space is the one given. */
    method SetOther(ospc: Space)
      modifies this`otherspc
      ensures otherspc == ospc
    {
      otherspc := ospc;
    }

    /** `bias` of the last proposal. */
    function Bias(): (b: real)
      reads this
      ensures forward ==> b == bondenergy - lnK
      ensures !forward ==> b == bondenergy + lnK
    {
      BiasTerm(lnK, bondenergy, forward)
    }

    /**
     * `_accept`: one accepted sample for the reaction of the last proposal,
     * then its reservoir moves by one against the direction, and a canonic
     * reservoir that went negative throws (after both updates).
     */
    method Accept() returns (r: Outcome<AcceptError>)
      requires Valid() && Counted() && trialprocess.Some?
      modifies this`accmap, this`decisions, this`reactions
      ensures Valid() && Counted()
      ensures var k := old(trialprocess.value); var rx := old(reactions[k]);
        decisions == old(decisions) + [Decision(rx.name, true)] &&
        reactions == old(reactions)[k := Consume(rx, forward)] &&
        (r == Fail(NegativeReservoir) <==> rx.canonic && Consume(rx, forward).reservoir < 0) &&
        (r.Pass? <==> !(rx.canonic && Consume(rx, forward).reservoir < 0))
      ensures var rx := old(reactions[trialprocess.value]);
        rx.reservoir >= 0 && !rx.Empty(forward) ==> r.Pass?
    {
      var k := trialprocess.value;
      var rx := reactions[k];
      if rx.canonic && rx.reservoir >= 0 && !rx.Empty(forward) {
        ConsumeKeepsReservoir(rx, forward);
      }
      TallyStep(decisions, Decision(rx.name, true), accmap);
      accmap := AddSample(accmap, rx.name, 1.0);
      decisions := decisions + [Decision(rx.name, true)];
      var next := Consume(rx, forward);
      reactions := reactions[k := next];
      assert AllWellFormed(reactions, topo) by {
        forall i | 0 <= i < |reactions| ensures WellFormed(reactions[i], topo) {
          assert WellFormed(old(reactions)[i], topo);
        }
      }
      if next.reservoir < 0 && next.canonic {
        return Fail(NegativeReservoir);
      }
      return Pass;
    }

    /** `_reject`: one rejected (0) sample for the reaction of the last proposal. */
    method Reject()
      requires Valid() && Counted() && trialprocess.Some?
      modifies this`accmap, this`decisions
      ensures Valid() && Counted() && reactions == old(reactions)
      ensures decisions == old(decisions) + [Decision(reactions[trialprocess.value].name, false)]
    {
      var rx := reactions[trialprocess.value];
      TallyStep(decisions, Decision(rx.name, false), accmap);
      accmap := AddSample(accmap, rx.name, 0.0);
      decisions := decisions + [Decision(rx.name, false)];
    }

    /** `_to_json` of the move. */
    function ToJson(round: real -> real): (j: Json)
      requires Valid()
      reads this, spc
      ensures j == ReactionReport(accmap, round)
    {
      ReactionReport(accmap, round)
    }
  }
}
