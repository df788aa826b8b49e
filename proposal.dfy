/**
 * The specification of one reaction-ensemble proposal as pure functions
 * on values: the feasibility checks, the in-place relabel of a swap
 * reaction, the deletions and the insertions. The method in module
 * Speciation is proved to compute exactly these functions.
 *
 * Every random choice and every floating-point quantity comes from a
 * `Draws` value. The index t numbers the model's random operations in
 * program order, not the generator's draws: one operation may stand for
 * several draws of the program (`randPos` for the three of `randompos`,
 * `place` for `randompos`, `ranunit` and a `slump()`). Each result is an
 * arbitrary function of t and its other arguments, so what is proved holds
 * for every generator. `pick(t, n)` is an index below n, `randPos(t)`
 * a random position inside the box, `place(t, j, x)` where slot j of a
 * relocated molecule lands when its old position was x (translation to a
 * random centre and a random rotation), and `bondEnergy(molid, ps)` the
 * bonded energy of a molecule whose slots hold ps.
 */
module Proposal {
  import opened Base
  import opened Space
  import opened Changes
  import opened Reactions

  datatype Draws = Draws(pick: (nat, nat) -> nat, randPos: nat -> Point,
                         place: (nat, nat, Point) -> Point,
                         bondEnergy: (nat, seq<Particle>) -> real)

  /** Every draw of an index below n is below n. */
  ghost predicate Fair(d: Draws)
  {
    forall t: nat, n: nat :: 0 < n ==> d.pick(t, n) < n
  }

  /**
   * The state a proposal threads through its phases: this space's particles,
   * the other space's particles, this space's groups, the records pushed so
   * far, the bond energy, and the index of the next random draw.
   */
  datatype Work = Work(p: seq<Particle>, op: seq<Particle>, gs: seq<Group>,
                       pushed: seq<GroupChange>, bond: real, t: nat)

  predicate WorkOk(w: Work, topo: Topology)
  {
    GroupsOk(w.gs, |w.p|) && |w.op| == |w.p| && Consistent(w.gs, topo)
  }

  function IsAtomic(topo: Topology, id: nat): bool
    requires id < |topo.molecules|
  {
    topo.molecules[id].atomic
  }

  /** The outcome of a feasibility scan over one reaction side. */
  datatype Verdict = Feasible | Infeasible | Misdefined

  /** An atomic species must have exactly one group. */
  predicate OneGroupIfAtomic(gs: seq<Group>, topo: Topology, e: Stoich)
    requires e.id < |topo.molecules|
  {
    IsAtomic(topo, e.id) ==> |FindMolecules(gs, e.id, All)| == 1
  }

  /** The delete check of one entry. */
  predicate Removable(gs: seq<Group>, topo: Topology, e: Stoich)
    requires e.id < |topo.molecules|
  {
    if IsAtomic(topo, e.id) then
      var all := FindMolecules(gs, e.id, All);
      |all| == 1 && e.count <= gs[all[0]].size
    else
      e.count <= |FindMolecules(gs, e.id, Active)|
  }

  /** The addition check of one entry. */
  predicate Insertable(gs: seq<Group>, topo: Topology, e: Stoich)
    requires e.id < |topo.molecules|
  {
    if IsAtomic(topo, e.id) then
      var all := FindMolecules(gs, e.id, All);
      |all| == 1 && gs[all[0]].size + e.count <= gs[all[0]].capacity
    else
      e.count <= |FindMolecules(gs, e.id, Inactive)|
  }

  /**
   * The delete checks in list order: the first entry that fails decides,
   * with an atomic species without exactly one group a definition error.
   */
  function CheckRemovals(gs: seq<Group>, topo: Topology, s: seq<Stoich>): (v: Verdict)
    requires MolIdsIn(s, topo)
    ensures v == Feasible <==> forall k :: 0 <= k < |s| ==> Removable(gs, topo, s[k])
  {
    if s == [] then Feasible
    else
      var v := if !OneGroupIfAtomic(gs, topo, s[0]) then Misdefined
               else if !Removable(gs, topo, s[0]) then Infeasible
               else CheckRemovals(gs, topo, s[1..]);
      assert forall k :: 1 <= k < |s| ==> s[k] == s[1..][k - 1];
      v
  }

  /** The addition checks in list order, decided like the delete checks. */
  function CheckInsertions(gs: seq<Group>, topo: Topology, s: seq<Stoich>): (v: Verdict)
    requires MolIdsIn(s, topo)
    ensures v == Feasible <==> forall k :: 0 <= k < |s| ==> Insertable(gs, topo, s[k])
  {
    if s == [] then Feasible
    else
      var v := if !OneGroupIfAtomic(gs, topo, s[0]) then Misdefined
               else if !Insertable(gs, topo, s[0]) then Infeasible
               else CheckInsertions(gs, topo, s[1..]);
      assert forall k :: 1 <= k < |s| ==> s[k] == s[1..][k - 1];
      v
  }

  /**
   * The checks `_move` runs before it changes anything, in program order: an
   * empty side gives up, then the delete checks, then the addition checks.
   */
  function Screen(gs: seq<Group>, topo: Topology, r: ReactionData, forward: bool): (v: Verdict)
    requires WellFormed(r, topo)
    ensures v == Feasible ==>
      !r.Empty(forward) && AllRemovable(gs, topo, r.Molecules2Add(!forward)) && AllInsertable(gs, topo, r.Molecules2Add(forward))
  {
    if r.Empty(forward) then Infeasible
    else
      var dv := CheckRemovals(gs, topo, r.Molecules2Add(!forward));
      if dv != Feasible then dv else CheckInsertions(gs, topo, r.Molecules2Add(forward))
  }

  /** The species a swap reaction consumes and the one it produces. */
  function SwapFrom(r: ReactionData, forward: bool): nat
    requires r.swap && |r.reactantAtoms| == 1 && |r.productAtoms| == 1
  {
    r.Atoms2Add(!forward)[0].id
  }

  function SwapTo(r: ReactionData, forward: bool): nat
    requires r.swap && |r.reactantAtoms| == 1 && |r.productAtoms| == 1
  {
    r.Atoms2Add(forward)[0].id
  }

  /**
   * The swap phase: a random active atom of the consumed species becomes the
   * produced species' template particle at the same position, and its group
   * is recorded with that one group-relative index; no active atom of the
   * consumed species means no proposal.
   */
  function SwapAtom(w: Work, topo: Topology, r: ReactionData, forward: bool, d: Draws): (o: Option<Work>)
    requires WorkOk(w, topo) && Fair(d) && WellFormed(r, topo) && r.swap
    ensures o.None? <==> |FindAtoms(w.p, w.gs, SwapFrom(r, forward))| == 0
    ensures o.Some? ==> Swapped(w, o.value, topo, SwapFrom(r, forward), SwapTo(r, forward))
  {
    var list := FindAtoms(w.p, w.gs, SwapFrom(r, forward));
    if |list| == 0 then None
    else Some(SwapAt(w, topo, list[d.pick(w.t, |list|)], SwapTo(r, forward)))
  }

  /** The swap phase gives up exactly when no active slot holds an atom of the consumed species. */
  lemma SwapAtomNoAtom(w: Work, topo: Topology, r: ReactionData, forward: bool, d: Draws)
    requires WorkOk(w, topo) && Fair(d) && WellFormed(r, topo) && r.swap
    ensures SwapAtom(w, topo, r, forward, d).None? <==>
      forall i :: 0 <= i < |w.p| && ActiveSlot(w.gs, i) ==> w.p[i].id != SwapFrom(r, forward)
  {
    FindAtomsEmpty(w.p, w.gs, SwapFrom(r, forward));
  }

  /**
   * v is w with one active atom of species `from` relabelled to `to` at
   * the same position, in this space only, recorded as a swap of that one
   * group-relative index; the draw counter advances by one.
   */
  predicate Swapped(w: Work, v: Work, topo: Topology, from: nat, to: nat)
  {
    WorkOk(v, topo) && v.gs == w.gs && v.op == w.op && v.bond == w.bond && v.t == w.t + 1 &&
    |v.p| == |w.p| && |v.pushed| == |w.pushed| + 1 && v.pushed[..|w.pushed|] == w.pushed &&
    var rec := v.pushed[|w.pushed|];
    rec.index < |w.gs| && rec.dNswap && rec.internal && !rec.all && !rec.dNatomic &&
    |rec.atoms| == 1 &&
    var slot := w.gs[rec.index].begin + rec.atoms[0];
    slot < |w.p| && w.gs[rec.index].HasActive(slot) && w.p[slot].id == from && to < |topo.atoms| &&
    v.p[slot] == Template(topo, to).(pos := w.p[slot].pos) &&
    forall i {:trigger v.p[i]} :: 0 <= i < |w.p| && i != slot ==> v.p[i] == w.p[i]
  }

  /** The relabelling of active slot `slot` to species `to`, recorded in the group holding the slot. */
  function SwapAt(w: Work, topo: Topology, slot: nat, to: nat): (v: Work)
    requires WorkOk(w, topo) && slot < |w.p| && ActiveSlot(w.gs, slot) && to < |topo.atoms|
    ensures Swapped(w, v, topo, w.p[slot].id, to)
  {
    var gi := FindGroupContaining(w.gs, slot);
    var rec := Record(gi, [slot - w.gs[gi].begin]).(internal := true, dNswap := true);
    var v := w.(p := w.p[slot := Template(topo, to).(pos := w.p[slot].pos)], pushed := w.pushed + [rec], t := w.t + 1);
    assert v.pushed[..|w.pushed|] == w.pushed;
    v
  }

  /** `std::iter_swap` of two slots. */
  function Exchange<T>(s: seq<T>, i: nat, j: nat): (r: seq<T>)
    requires i < |s| && j < |s|
    ensures |r| == |s|
  {
    s[i := s[j]][j := s[i]]
  }

  lemma ExchangePermutes<T>(s: seq<T>, i: nat, j: nat)
    requires i < |s| && j < |s|
    ensures multiset(Exchange(s, i, j)) == multiset(s)
  {
    if i != j {
      assert s == s[..i] + [s[i]] + s[i + 1..];
    }
  }

  /**
   * The two slots the k-th turn of the atomic deletion loop on g works on,
   * once k atoms are gone: the drawn active atom and the last active one.
   */
  function TurnSlots(g: Group, d: Draws, t: nat, k: nat): (r: (nat, nat))
    requires Fair(d) && k < g.size
    ensures g.begin <= r.0 <= r.1 && r.1 + k + 1 == g.begin + g.size
  {
    (g.begin + d.pick(t + k, g.size - k), g.begin + g.size - 1 - k)
  }

  /** The slots of the first n turns, in order. */
  function Turns(g: Group, n: nat, d: Draws, t: nat): (r: seq<(nat, nat)>)
    requires Fair(d) && n <= g.size
    ensures |r| == n && forall k :: 0 <= k < n ==> r[k] == TurnSlots(g, d, t, k)
  {
    seq(n, k requires 0 <= k < n => TurnSlots(g, d, t, k))
  }

  /**
   * One turn on one particle vector: the atom at a is exchanged with the
   * last active one at b, but only when at least one atom lies between them.
   */
  function Turn(p: seq<Particle>, a: nat, b: nat): (r: seq<Particle>)
    requires a <= b < |p|
    ensures |r| == |p|
  {
    if b - a > 1 then Exchange(p, a, b) else p
  }

  /** Slot pairs that all lie, in order, inside [lo, hi). */
  predicate SlotsIn(slots: seq<(nat, nat)>, lo: nat, hi: nat)
  {
    forall k :: 0 <= k < |slots| ==> lo <= slots[k].0 <= slots[k].1 < hi
  }

  /** The turns at the given slots, the first one first, on one particle vector. */
  function Turned(p: seq<Particle>, slots: seq<(nat, nat)>): (r: seq<Particle>)
    requires SlotsIn(slots, 0, |p|)
    ensures |r| == |p|
    decreases |slots|
  {
    if slots == [] then p
    else
      var last := slots[|slots| - 1];
      Turn(Turned(p, slots[..|slots| - 1]), last.0, last.1)
  }

  /**
   * The slot that a turn leaves in the last active place b, which is then
   * deactivated, holds the atom drawn, except when the drawn one is second to
   * last: then the turn changes nothing, the last one is deactivated and the
   * drawn one stays active. No other slot changes.
   */
  lemma TurnDeactivates(p: seq<Particle>, a: nat, b: nat)
    requires a <= b < |p|
    ensures a + 1 != b ==> Turn(p, a, b)[b] == p[a]
    ensures a + 1 == b ==> Turn(p, a, b) == p
    ensures forall i :: 0 <= i < |p| && i != a && i != b ==> Turn(p, a, b)[i] == p[i]
  {
  }

  /**
   * The atomic deletion loop on group g, n turns on both spaces at the same
   * slots, each followed by the deactivation of the last active slot and the
   * record of its group-relative index: both particle vectors, and the
   * records in the order pushed.
   */
  function ShrinkAtoms(p: seq<Particle>, op: seq<Particle>, g: Group, n: nat, d: Draws, t: nat)
    : (r: (seq<Particle>, seq<Particle>, seq<nat>))
    requires Fair(d) && n <= g.size && g.begin + g.size <= |p| && |op| == |p|
    ensures |r.0| == |p| && |r.1| == |p| && r.2 == Countdown(g.size, n)
  {
    var slots := Turns(g, n, d, t);
    (Turned(p, slots), Turned(op, slots), Countdown(g.size, n))
  }

  /** The indices hi-1, hi-2, ..., hi-n, in that order. */
  function Countdown(hi: nat, n: nat): (r: seq<nat>)
    requires n <= hi
    ensures |r| == n
  {
    seq(n, k requires 0 <= k < n => hi - 1 - k)
  }

  /** A countdown and the ascending run of the same length ending at hi-1 hold the same indices. */
  lemma {:induction false} CountdownRange(hi: nat, n: nat)
    requires n <= hi
    ensures multiset(Countdown(hi, n)) == multiset(Range(hi - n, hi))
    decreases n
  {
    if n > 0 {
      CountdownRange(hi - 1, n - 1);
      CountdownSplit(hi, n);
    }
  }

  /** A countdown is its top index and then the countdown below it; the ascending run ends with that index. */
  lemma CountdownSplit(hi: nat, n: nat)
    requires 0 < n <= hi
    ensures Countdown(hi, n) == [hi - 1] + Countdown(hi - 1, n - 1)
    ensures Range(hi - n, hi) == Range(hi - n, hi - 1) + [hi - 1]
  {
  }

  /** Once sorted, the records of an atomic deletion are exactly the deactivated offsets [size-n, size). */
  lemma ShrinkRecordsRange(p: seq<Particle>, op: seq<Particle>, g: Group, n: nat, d: Draws, t: nat)
    requires Fair(d) && n <= g.size && g.begin + g.size <= |p| && |op| == |p|
    ensures SortAtoms(ShrinkAtoms(p, op, g, n, d, t).2) == Range(g.size - n, g.size)
  {
    CountdownSorted(g.size, n);
  }

  lemma CountdownSorted(hi: nat, n: nat)
    requires n <= hi
    ensures SortAtoms(Countdown(hi, n)) == Range(hi - n, hi)
  {
    CountdownRange(hi, n);
    SortAtomsRange(Countdown(hi, n), hi - n, hi);
  }

  /** Turns at slots inside [lo, hi) leave every slot outside it alone. */
  lemma {:induction false} TurnedFrame(p: seq<Particle>, slots: seq<(nat, nat)>, lo: nat, hi: nat)
    requires hi <= |p| && SlotsIn(slots, lo, hi)
    ensures forall i :: 0 <= i < |p| && !(lo <= i < hi) ==> Turned(p, slots)[i] == p[i]
    decreases |slots|
  {
    if slots != [] {
      var last := slots[|slots| - 1];
      TurnedFrame(p, slots[..|slots| - 1], lo, hi);
      TurnDeactivates(Turned(p, slots[..|slots| - 1]), last.0, last.1);
    }
  }

  /** Turns only permute the vector. */
  lemma {:induction false} TurnedPermutes(p: seq<Particle>, slots: seq<(nat, nat)>)
    requires SlotsIn(slots, 0, |p|)
    ensures multiset(Turned(p, slots)) == multiset(p)
    decreases |slots|
  {
    if slots != [] {
      var last := slots[|slots| - 1];
      var q := Turned(p, slots[..|slots| - 1]);
      TurnedPermutes(p, slots[..|slots| - 1]);
      if last.1 - last.0 > 1 {
        ExchangePermutes(q, last.0, last.1);
      }
    }
  }

  /** Only the active slots of g move, in either space, and each space is only permuted. */
  lemma ShrinkFrame(p: seq<Particle>, op: seq<Particle>, g: Group, n: nat, d: Draws, t: nat)
    requires Fair(d) && n <= g.size && g.begin + g.size <= |p| && |op| == |p|
    ensures forall i :: 0 <= i < |p| && !g.HasActive(i) ==>
      ShrinkAtoms(p, op, g, n, d, t).0[i] == p[i] && ShrinkAtoms(p, op, g, n, d, t).1[i] == op[i]
    ensures multiset(ShrinkAtoms(p, op, g, n, d, t).0) == multiset(p)
    ensures multiset(ShrinkAtoms(p, op, g, n, d, t).1) == multiset(op)
  {
    var slots := Turns(g, n, d, t);
    TurnedFrame(p, slots, g.begin, g.begin + g.size);
    TurnedFrame(op, slots, g.begin, g.begin + g.size);
    TurnedPermutes(p, slots);
    TurnedPermutes(op, slots);
  }

  /** The first turns of a longer run are the turns of the shorter run. */
  lemma TurnsSnoc(g: Group, n: nat, d: Draws, t: nat)
    requires Fair(d) && n < g.size
    ensures Turns(g, n + 1, d, t) == Turns(g, n, d, t) + [TurnSlots(g, d, t, n)]
    ensures Countdown(g.size, n + 1) == Countdown(g.size, n) + [g.size - 1 - n]
  {
  }

  /** hs differs from gs only in smaller sizes, and only in groups of species id. */
  predicate ShrunkOnly(gs: seq<Group>, hs: seq<Group>, id: nat)
  {
    SameShape(gs, hs) &&
    forall i :: 0 <= i < |gs| ==> hs[i].size <= gs[i].size && (gs[i].molid != id ==> hs[i] == gs[i])
  }

  /** hs differs from gs only in larger sizes, and only in groups of species id. */
  predicate GrownOnly(gs: seq<Group>, hs: seq<Group>, id: nat)
  {
    SameShape(gs, hs) &&
    forall i :: 0 <= i < |gs| ==> gs[i].size <= hs[i].size && (gs[i].molid != id ==> hs[i] == gs[i])
  }

  /** Setting the size of one group of species id. */
  lemma Resize(gs: seq<Group>, gi: nat, size: nat, id: nat)
    requires gi < |gs| && gs[gi].molid == id
    ensures SameShape(gs, gs[gi := gs[gi].(size := size)])
    ensures size <= gs[gi].size ==> ShrunkOnly(gs, gs[gi := gs[gi].(size := size)], id)
    ensures gs[gi].size <= size ==> GrownOnly(gs, gs[gi := gs[gi].(size := size)], id)
  {
  }

  lemma ShrunkTrans(gs: seq<Group>, hs: seq<Group>, ks: seq<Group>, id: nat)
    requires ShrunkOnly(gs, hs, id) && ShrunkOnly(hs, ks, id)
    ensures ShrunkOnly(gs, ks, id)
  {
  }

  lemma GrownTrans(gs: seq<Group>, hs: seq<Group>, ks: seq<Group>, id: nat)
    requires GrownOnly(gs, hs, id) && GrownOnly(hs, ks, id)
    ensures GrownOnly(gs, ks, id)
  {
  }

  /** A record of a whole molecular group of species id, every slot of which was touched. */
  predicate WholeRecord(gs: seq<Group>, rec: GroupChange, id: nat)
  {
    rec.index < |gs| && gs[rec.index].molid == id &&
    rec.all && rec.internal && !rec.dNatomic && !rec.dNswap &&
    rec.atoms == Range(0, gs[rec.index].capacity)
  }

  /** Every group of species id is a molecule, so it owns at least one slot. */
  predicate Molecular(gs: seq<Group>, id: nat)
  {
    forall i :: 0 <= i < |gs| && gs[i].molid == id ==> 0 < gs[i].capacity
  }

  lemma MolecularOf(gs: seq<Group>, n: nat, topo: Topology, id: nat)
    requires GroupsOk(gs, n) && Consistent(gs, topo) && id < |topo.molecules| && !IsAtomic(topo, id)
    ensures Molecular(gs, id)
  {
  }

  /** The group a molecular deletion picks: a random fully active one of species id. */
  function PickActive(gs: seq<Group>, id: nat, d: Draws, t: nat): (gi: nat)
    requires Fair(d) && 0 < |FindMolecules(gs, id, Active)|
    ensures gi < |gs| && Selected(gs[gi], id, Active)
  {
    var list := FindMolecules(gs, id, Active);
    list[d.pick(t, |list|)]
  }

  /**
   * The groups after n molecular deletions of species id, one after the
   * other; the selection of fully active groups is taken afresh at every
   * step, which takes the list `findMolecules` returns to be a view that
   * sees each deactivation. Exactly n fully active groups of that species
   * are emptied and no other group changes.
   */
  function Drop(gs: seq<Group>, id: nat, n: nat, d: Draws, t: nat): (r: seq<Group>)
    requires Fair(d) && Molecular(gs, id) && n <= |FindMolecules(gs, id, Active)|
    ensures |r| == |gs|
    decreases n
  {
    if n == 0 then gs
    else
      var gi := PickActive(gs, id, d, t);
      var hs := gs[gi := gs[gi].(size := 0)];
      FindMoleculesUpdate(gs, gi, gs[gi].(size := 0), id, Active);
      Drop(hs, id, n - 1, d, t + 1)
  }

  /** Drop only empties groups of species id, and no other group changes. */
  lemma {:induction false} DropShape(gs: seq<Group>, id: nat, n: nat, d: Draws, t: nat)
    requires Fair(d) && Molecular(gs, id) && n <= |FindMolecules(gs, id, Active)|
    ensures var r := Drop(gs, id, n, d, t);
      ShrunkOnly(gs, r, id) && Molecular(r, id) &&
      (forall i :: 0 <= i < |gs| ==> r[i].size == gs[i].size || r[i].size == 0)
    decreases n
  {
    if n > 0 {
      var gi := PickActive(gs, id, d, t);
      var hs := gs[gi := gs[gi].(size := 0)];
      FindMoleculesUpdate(gs, gi, gs[gi].(size := 0), id, Active);
      Resize(gs, gi, 0, id);
      DropShape(hs, id, n - 1, d, t + 1);
      ShrunkTrans(gs, hs, Drop(hs, id, n - 1, d, t + 1), id);
    }
  }

  /** Drop empties exactly n fully active groups of species id. */
  lemma {:induction false} DropCount(gs: seq<Group>, id: nat, n: nat, d: Draws, t: nat)
    requires Fair(d) && Molecular(gs, id) && n <= |FindMolecules(gs, id, Active)|
    ensures |FindMolecules(Drop(gs, id, n, d, t), id, Active)| == |FindMolecules(gs, id, Active)| - n
    decreases n
  {
    if n > 0 {
      var gi := PickActive(gs, id, d, t);
      var hs := gs[gi := gs[gi].(size := 0)];
      FindMoleculesUpdate(gs, gi, gs[gi].(size := 0), id, Active);
      assert Molecular(hs, id) by {
        forall i | 0 <= i < |hs| && hs[i].molid == id ensures 0 < hs[i].capacity {
          assert hs[i].capacity == gs[i].capacity;
        }
      }
      DropCount(hs, id, n - 1, d, t + 1);
      assert Drop(gs, id, n, d, t) == Drop(hs, id, n - 1, d, t + 1);
    }
  }

  /** The record of a whole molecular group. */
  function WholeGroup(gs: seq<Group>, gi: nat): GroupChange
    requires gi < |gs|
  {
    Record(gi, Range(0, gs[gi].capacity)).(all := true, internal := true)
  }

  /** The records molecular deletion pushes: one whole fully active group of species id per step. */
  function DropRecords(gs: seq<Group>, id: nat, n: nat, d: Draws, t: nat): (r: seq<GroupChange>)
    requires Fair(d) && Molecular(gs, id) && n <= |FindMolecules(gs, id, Active)|
    ensures |r| == n
    decreases n
  {
    if n == 0 then []
    else
      var gi := PickActive(gs, id, d, t);
      var hs := gs[gi := gs[gi].(size := 0)];
      FindMoleculesUpdate(gs, gi, gs[gi].(size := 0), id, Active);
      [WholeGroup(gs, gi)] + DropRecords(hs, id, n - 1, d, t + 1)
  }

  /** Every record of a molecular deletion names a whole, fully active group of species id. */
  lemma {:induction false} DropRecordsWhole(gs: seq<Group>, id: nat, n: nat, d: Draws, t: nat)
    requires Fair(d) && Molecular(gs, id) && n <= |FindMolecules(gs, id, Active)|
    ensures forall k :: 0 <= k < n ==>
      WholeRecord(gs, DropRecords(gs, id, n, d, t)[k], id) &&
      gs[DropRecords(gs, id, n, d, t)[k].index].size == gs[DropRecords(gs, id, n, d, t)[k].index].capacity
    decreases n
  {
    if n > 0 {
      var gi := PickActive(gs, id, d, t);
      var hs := gs[gi := gs[gi].(size := 0)];
      FindMoleculesUpdate(gs, gi, gs[gi].(size := 0), id, Active);
      Resize(gs, gi, 0, id);
      DropRecordsWhole(hs, id, n - 1, d, t + 1);
      var r := DropRecords(gs, id, n, d, t);
      var rest := DropRecords(hs, id, n - 1, d, t + 1);
      assert r == [WholeGroup(gs, gi)] + rest;
      assert WholeRecord(gs, r[0], id) && gs[r[0].index].size == gs[r[0].index].capacity;
      forall k | 1 <= k < n ensures WholeRecord(gs, r[k], id) && gs[r[k].index].size == gs[r[k].index].capacity {
        assert r[k] == rest[k - 1];
        assert WholeRecord(hs, rest[k - 1], id) && hs[rest[k - 1].index].size == hs[rest[k - 1].index].capacity;
      }
    }
  }

  /** The bond energy of the deleted molecules, each taken before its deactivation. */
  function DropBond(p: seq<Particle>, gs: seq<Group>, id: nat, n: nat, d: Draws, t: nat): real
    requires Fair(d) && GroupsOk(gs, |p|) && Molecular(gs, id) && n <= |FindMolecules(gs, id, Active)|
    decreases n
  {
    if n == 0 then 0.0
    else
      var gi := PickActive(gs, id, d, t);
      var g := gs[gi];
      FindMoleculesUpdate(gs, gi, g.(size := 0), id, Active);
      d.bondEnergy(id, p[g.begin..g.TrueEnd()]) + DropBond(p, gs[gi := g.(size := 0)], id, n - 1, d, t + 1)
  }

  /** The state of the molecular deletion loop: the groups, the records pushed, the bond energy summed. */
  datatype DropState = DropState(gs: seq<Group>, recs: seq<GroupChange>, bond: real)

  /**
   * One step of the molecular deletion loop, drawing at t: a random fully
   * active group of species id is emptied, its record pushed and its bond
   * energy added. A step whose selection is empty leaves the state alone;
   * under the check that precedes deletion no step is ever of that kind
   * (DropRunIsDrop).
   */
  function DropNext(p: seq<Particle>, s: DropState, id: nat, d: Draws, t: nat): (r: DropState)
    requires Fair(d) && GroupsOk(s.gs, |p|)
    ensures GroupsOk(r.gs, |p|)
  {
    if |FindMolecules(s.gs, id, Active)| == 0 then s
    else
      var gi := PickActive(s.gs, id, d, t);
      var g := s.gs[gi];
      DropState(s.gs[gi := g.(size := 0)], s.recs + [WholeGroup(s.gs, gi)],
                s.bond + d.bondEnergy(id, p[g.begin..g.TrueEnd()]))
  }

  /** The molecular deletion loop after n of its steps, step k drawing at t + k. */
  function DropRun(p: seq<Particle>, gs: seq<Group>, id: nat, n: nat, d: Draws, t: nat): (r: DropState)
    requires Fair(d) && GroupsOk(gs, |p|)
    ensures GroupsOk(r.gs, |p|)
    decreases n
  {
    if n == 0 then DropState(gs, [], 0.0)
    else DropNext(p, DropRun(p, gs, id, n - 1, d, t), id, d, t + (n - 1))
  }

  /** n+1 steps of the deletion loop are n steps and then one more. */
  lemma DropRunSnoc(p: seq<Particle>, gs: seq<Group>, id: nat, n: nat, d: Draws, t: nat, s: DropState)
    requires Fair(d) && GroupsOk(gs, |p|) && s == DropRun(p, gs, id, n, d, t)
    ensures GroupsOk(s.gs, |p|) && DropRun(p, gs, id, n + 1, d, t) == DropNext(p, s, id, d, t + n)
  {
  }

  /** While the check that precedes deletion holds, each step of the loop empties one more fully active group. */
  lemma {:induction false} DropRunCount(p: seq<Particle>, gs: seq<Group>, id: nat, n: nat, d: Draws, t: nat)
    requires Fair(d) && GroupsOk(gs, |p|) && Molecular(gs, id) && n <= |FindMolecules(gs, id, Active)|
    ensures Molecular(DropRun(p, gs, id, n, d, t).gs, id)
    ensures |FindMolecules(DropRun(p, gs, id, n, d, t).gs, id, Active)| == |FindMolecules(gs, id, Active)| - n
    decreases n
  {
    if n > 0 {
      DropRunCount(p, gs, id, n - 1, d, t);
      var s := DropRun(p, gs, id, n - 1, d, t);
      var gi := PickActive(s.gs, id, d, t + (n - 1));
      FindMoleculesUpdate(s.gs, gi, s.gs[gi].(size := 0), id, Active);
    }
  }

  /** A state with one more record and bond term in front. */
  function DropAfter(rec: GroupChange, e: real, s: DropState): DropState
  {
    DropState(s.gs, [rec] + s.recs, e + s.bond)
  }

  /** A step does not look at what was pushed or summed before. */
  lemma DropNextAfter(p: seq<Particle>, s: DropState, rec: GroupChange, e: real, id: nat, d: Draws, t: nat)
    requires Fair(d) && GroupsOk(s.gs, |p|)
    ensures DropNext(p, DropAfter(rec, e, s), id, d, t) == DropAfter(rec, e, DropNext(p, s, id, d, t))
  {
    if |FindMolecules(s.gs, id, Active)| != 0 {
      var gi := PickActive(s.gs, id, d, t);
      assert [rec] + s.recs + [WholeGroup(s.gs, gi)] == [rec] + (s.recs + [WholeGroup(s.gs, gi)]);
    }
  }

  /** n steps of the deletion loop are its first step followed by n-1 steps on the emptied layout. */
  lemma {:induction false} DropRunCons(p: seq<Particle>, gs: seq<Group>, id: nat, n: nat, d: Draws, t: nat)
    requires Fair(d) && GroupsOk(gs, |p|) && 0 < n && 0 < |FindMolecules(gs, id, Active)|
    ensures var gi := PickActive(gs, id, d, t);
      var g := gs[gi];
      DropRun(p, gs, id, n, d, t) ==
        DropAfter(WholeGroup(gs, gi), d.bondEnergy(id, p[g.begin..g.TrueEnd()]), DropRun(p, gs[gi := g.(size := 0)], id, n - 1, d, t + 1))
    decreases n
  {
    var gi := PickActive(gs, id, d, t);
    var g := gs[gi];
    var hs := gs[gi := g.(size := 0)];
    var e := d.bondEnergy(id, p[g.begin..g.TrueEnd()]);
    if n == 1 {
      assert [WholeGroup(gs, gi)] + [] == [] + [WholeGroup(gs, gi)];
    } else {
      var s := DropRun(p, hs, id, n - 2, d, t + 1);
      assert DropRun(p, gs, id, n - 1, d, t) == DropAfter(WholeGroup(gs, gi), e, s) by {
        DropRunCons(p, gs, id, n - 1, d, t);
      }
      assert DropRun(p, gs, id, n, d, t) == DropNext(p, DropRun(p, gs, id, n - 1, d, t), id, d, t + (n - 1));
      assert DropRun(p, hs, id, n - 1, d, t + 1) == DropNext(p, s, id, d, t + (n - 1)) by {
        assert (t + 1) + (n - 1 - 1) == t + (n - 1);
      }
      DropNextAfter(p, s, WholeGroup(gs, gi), e, id, d, t + (n - 1));
    }
  }

  /** Emptying the group the first step picks leaves a molecular layout with one fully active group fewer. */
  lemma DropFirst(gs: seq<Group>, id: nat, n: nat, d: Draws, t: nat)
    requires Fair(d) && Molecular(gs, id) && 0 < n <= |FindMolecules(gs, id, Active)|
    ensures var gi := PickActive(gs, id, d, t); var hs := gs[gi := gs[gi].(size := 0)];
      Molecular(hs, id) && n - 1 <= |FindMolecules(hs, id, Active)|
  {
    var gi := PickActive(gs, id, d, t);
    var hs := gs[gi := gs[gi].(size := 0)];
    FindMoleculesUpdate(gs, gi, hs[gi], id, Active);
  }

  /** Drop, DropRecords and DropBond of n steps are the first step's and those of the n-1 after it. */
  lemma DropUnfold(p: seq<Particle>, gs: seq<Group>, id: nat, n: nat, d: Draws, t: nat)
    requires Fair(d) && GroupsOk(gs, |p|) && Molecular(gs, id) && 0 < n <= |FindMolecules(gs, id, Active)|
    ensures var gi := PickActive(gs, id, d, t); var g := gs[gi]; var hs := gs[gi := g.(size := 0)];
      Molecular(hs, id) && n - 1 <= |FindMolecules(hs, id, Active)| &&
      Drop(gs, id, n, d, t) == Drop(hs, id, n - 1, d, t + 1) &&
      DropRecords(gs, id, n, d, t) == [WholeGroup(gs, gi)] + DropRecords(hs, id, n - 1, d, t + 1) &&
      DropBond(p, gs, id, n, d, t) == d.bondEnergy(id, p[g.begin..g.TrueEnd()]) + DropBond(p, hs, id, n - 1, d, t + 1)
  {
    DropFirst(gs, id, n, d, t);
  }

  /** When n groups can be deleted, the loop's n steps are exactly Drop, DropRecords and DropBond. */
  lemma {:induction false} DropRunIsDrop(p: seq<Particle>, gs: seq<Group>, id: nat, n: nat, d: Draws, t: nat)
    requires Fair(d) && GroupsOk(gs, |p|) && Molecular(gs, id) && n <= |FindMolecules(gs, id, Active)|
    ensures DropRun(p, gs, id, n, d, t) ==
      DropState(Drop(gs, id, n, d, t), DropRecords(gs, id, n, d, t), DropBond(p, gs, id, n, d, t))
    decreases n
  {
    if n > 0 {
      var gi := PickActive(gs, id, d, t);
      var hs := gs[gi := gs[gi].(size := 0)];
      DropFirst(gs, id, n, d, t);
      DropRunIsDrop(p, hs, id, n - 1, d, t + 1);
      DropRunStep(p, gs, id, n, d, t);
    }
  }

  /** The inductive step of DropRunIsDrop: if the n-1 steps after the first agree, so do all n. */
  lemma DropRunStep(p: seq<Particle>, gs: seq<Group>, id: nat, n: nat, d: Draws, t: nat)
    requires Fair(d) && GroupsOk(gs, |p|) && Molecular(gs, id) && 0 < n <= |FindMolecules(gs, id, Active)|
    requires var gi := PickActive(gs, id, d, t); var hs := gs[gi := gs[gi].(size := 0)];
      Molecular(hs, id) && n - 1 <= |FindMolecules(hs, id, Active)| &&
      DropRun(p, hs, id, n - 1, d, t + 1) ==
        DropState(Drop(hs, id, n - 1, d, t + 1), DropRecords(hs, id, n - 1, d, t + 1), DropBond(p, hs, id, n - 1, d, t + 1))
    ensures DropRun(p, gs, id, n, d, t) ==
      DropState(Drop(gs, id, n, d, t), DropRecords(gs, id, n, d, t), DropBond(p, gs, id, n, d, t))
  {
    DropUnfold(p, gs, id, n, d, t);
    DropRunCons(p, gs, id, n, d, t);
  }

  /** No group holds more active particles than its capacity. */
  predicate WithinCapacity(gs: seq<Group>)
  {
    forall i :: 0 <= i < |gs| ==> gs[i].size <= gs[i].capacity
  }

  /** The group a molecular insertion picks: a random not fully active one of species id. */
  function PickInactive(gs: seq<Group>, id: nat, d: Draws, t: nat): (gi: nat)
    requires Fair(d) && 0 < |FindMolecules(gs, id, Inactive)|
    ensures gi < |gs| && Selected(gs[gi], id, Inactive)
  {
    var list := FindMolecules(gs, id, Inactive);
    list[d.pick(t, |list|)]
  }

  /**
   * The groups after n molecular insertions of species id: each step
   * activates the whole inactive part of a random not fully active group of
   * that species, the selection taken afresh (the list `findMolecules`
   * returns taken to be a view that sees each activation). Exactly n such
   * groups become fully active and no other group changes.
   */
  function Fill(gs: seq<Group>, id: nat, n: nat, d: Draws, t: nat): (r: seq<Group>)
    requires Fair(d) && WithinCapacity(gs) && n <= |FindMolecules(gs, id, Inactive)|
    ensures |r| == |gs|
    decreases n
  {
    if n == 0 then gs
    else
      var gi := PickInactive(gs, id, d, t);
      var hs := gs[gi := gs[gi].(size := gs[gi].capacity)];
      FindMoleculesUpdate(gs, gi, hs[gi], id, Inactive);
      Fill(hs, id, n - 1, d, t + 1)
  }

  /**
   * Fill only makes groups of species id fully active, and no other group
   * changes.
   */
  lemma {:induction false} FillShape(gs: seq<Group>, id: nat, n: nat, d: Draws, t: nat)
    requires Fair(d) && WithinCapacity(gs) && n <= |FindMolecules(gs, id, Inactive)|
    ensures var r := Fill(gs, id, n, d, t);
      GrownOnly(gs, r, id) && WithinCapacity(r) &&
      (forall i :: 0 <= i < |gs| ==> r[i].size == gs[i].size || r[i].size == gs[i].capacity)
    decreases n
  {
    if n > 0 {
      var gi := PickInactive(gs, id, d, t);
      var g := gs[gi];
      var hs := gs[gi := g.(size := g.capacity)];
      FindMoleculesUpdate(gs, gi, hs[gi], id, Inactive);
      assert g.size <= g.capacity;
      Resize(gs, gi, g.capacity, id);
      assert WithinCapacity(hs) by {
        forall i | 0 <= i < |hs| ensures hs[i].size <= hs[i].capacity {
          if i != gi { assert hs[i] == gs[i]; }
        }
      }
      var r := Fill(hs, id, n - 1, d, t + 1);
      assert Fill(gs, id, n, d, t) == r;
      FillShape(hs, id, n - 1, d, t + 1);
      GrownTrans(gs, hs, r, id);
      forall i | 0 <= i < |gs| ensures r[i].size == gs[i].size || r[i].size == gs[i].capacity {
        assert r[i].size == hs[i].size || r[i].size == hs[i].capacity;
        assert hs[i].capacity == gs[i].capacity;
      }
    }
  }

  /** Fill makes exactly n more groups of species id fully active. */
  lemma {:induction false} FillCounts(gs: seq<Group>, id: nat, n: nat, d: Draws, t: nat)
    requires Fair(d) && WithinCapacity(gs) && n <= |FindMolecules(gs, id, Inactive)|
    ensures var r := Fill(gs, id, n, d, t);
      |FindMolecules(r, id, Active)| == |FindMolecules(gs, id, Active)| + n &&
      |FindMolecules(r, id, Inactive)| == |FindMolecules(gs, id, Inactive)| - n
    decreases n
  {
    if n > 0 {
      var gi := PickInactive(gs, id, d, t);
      var hs := gs[gi := gs[gi].(size := gs[gi].capacity)];
      FillCountsStep(gs, gi, id);
      FillCounts(hs, id, n - 1, d, t + 1);
      assert Fill(gs, id, n, d, t) == Fill(hs, id, n - 1, d, t + 1);
    }
  }

  /** Activating the whole of a not fully active group gi of species id moves it from one selection to the other. */
  lemma FillCountsStep(gs: seq<Group>, gi: nat, id: nat)
    requires WithinCapacity(gs) && gi < |gs| && Selected(gs[gi], id, Inactive)
    ensures var hs := gs[gi := gs[gi].(size := gs[gi].capacity)];
      WithinCapacity(hs) &&
      |FindMolecules(hs, id, Active)| == |FindMolecules(gs, id, Active)| + 1 &&
      |FindMolecules(hs, id, Inactive)| == |FindMolecules(gs, id, Inactive)| - 1
  {
    var g := gs[gi];
    var hs := gs[gi := g.(size := g.capacity)];
    FindMoleculesUpdate(gs, gi, hs[gi], id, Active);
    FindMoleculesUpdate(gs, gi, hs[gi], id, Inactive);
    assert Selected(hs[gi], id, Active) && !Selected(g, id, Active);
    assert Selected(g, id, Inactive) && !Selected(hs[gi], id, Inactive);
    forall i | 0 <= i < |hs| ensures hs[i].size <= hs[i].capacity {
      if i != gi { assert hs[i] == gs[i]; }
    }
  }

  /** The records molecular insertion pushes: one whole, not fully active, group of species id per step. */
  function FillRecords(gs: seq<Group>, id: nat, n: nat, d: Draws, t: nat): (r: seq<GroupChange>)
    requires Fair(d) && n <= |FindMolecules(gs, id, Inactive)|
    ensures |r| == n
    decreases n
  {
    if n == 0 then []
    else
      var gi := PickInactive(gs, id, d, t);
      var hs := gs[gi := gs[gi].(size := gs[gi].capacity)];
      FindMoleculesUpdate(gs, gi, hs[gi], id, Inactive);
      [WholeGroup(gs, gi)] + FillRecords(hs, id, n - 1, d, t + 1)
  }

  /** Every record of a molecular insertion names a whole, not fully active group of species id. */
  lemma {:induction false} FillRecordsWhole(gs: seq<Group>, id: nat, n: nat, d: Draws, t: nat)
    requires Fair(d) && n <= |FindMolecules(gs, id, Inactive)|
    ensures forall k :: 0 <= k < n ==>
      WholeRecord(gs, FillRecords(gs, id, n, d, t)[k], id) &&
      gs[FillRecords(gs, id, n, d, t)[k].index].size != gs[FillRecords(gs, id, n, d, t)[k].index].capacity
    decreases n
  {
    if n > 0 {
      var gi := PickInactive(gs, id, d, t);
      var hs := gs[gi := gs[gi].(size := gs[gi].capacity)];
      FindMoleculesUpdate(gs, gi, hs[gi], id, Inactive);
      Resize(gs, gi, gs[gi].capacity, id);
      FillRecordsWhole(hs, id, n - 1, d, t + 1);
      var r := FillRecords(gs, id, n, d, t);
      var rest := FillRecords(hs, id, n - 1, d, t + 1);
      assert r == [WholeGroup(gs, gi)] + rest;
      assert WholeRecord(gs, r[0], id) && gs[r[0].index].size != gs[r[0].index].capacity;
      forall k | 1 <= k < n ensures WholeRecord(gs, r[k], id) && gs[r[k].index].size != gs[r[k].index].capacity {
        assert r[k] == rest[k - 1];
        assert WholeRecord(hs, rest[k - 1], id) && hs[rest[k - 1].index].size != hs[rest[k - 1].index].capacity;
      }
    }
  }

  /**
   * `translate`, `randompos`, `translate`, `rotate` on a whole group: every
   * slot of g gets a new position, drawn from the t-th placement; the atom
   * ids and charges stay.
   */
  function Relocate(p: seq<Particle>, g: Group, d: Draws, t: nat): (r: seq<Particle>)
    requires g.TrueEnd() <= |p|
    ensures |r| == |p|
    ensures forall i {:trigger r[i]} :: 0 <= i < |p| ==>
      r[i] == if g.begin <= i < g.TrueEnd() then p[i].(pos := d.place(t, i - g.begin, p[i].pos)) else p[i]
  {
    seq(|p|, i requires 0 <= i < |p| =>
      if g.begin <= i < g.TrueEnd() then p[i].(pos := d.place(t, i - g.begin, p[i].pos)) else p[i])
  }

  /**
   * The particles after n molecular insertions: only positions change, and
   * only in the slots of the inserted groups.
   */
  function FillParticles(p: seq<Particle>, gs: seq<Group>, id: nat, n: nat, d: Draws, t: nat): (r: seq<Particle>)
    requires Fair(d) && GroupsOk(gs, |p|) && n <= |FindMolecules(gs, id, Inactive)|
    ensures |r| == |p|
    decreases n
  {
    if n == 0 then p
    else
      var gi := PickInactive(gs, id, d, t);
      var g := gs[gi];
      var hs := gs[gi := g.(size := g.capacity)];
      FindMoleculesUpdate(gs, gi, hs[gi], id, Inactive);
      FillParticles(Relocate(p, g, d, t), hs, id, n - 1, d, t + 1)
  }

  /**
   * Molecular insertion changes positions only, and only in the slots of
   * the groups it records.
   */
  lemma {:induction false} FillParticlesAligned(p: seq<Particle>, gs: seq<Group>, id: nat, n: nat, d: Draws, t: nat)
    requires Fair(d) && GroupsOk(gs, |p|) && n <= |FindMolecules(gs, id, Inactive)|
    ensures var r := FillParticles(p, gs, id, n, d, t);
      (forall i :: 0 <= i < |p| ==> r[i].id == p[i].id && r[i].charge == p[i].charge) &&
      Aligned(p, r, gs, FillRecords(gs, id, n, d, t))
    decreases n
  {
    if n == 0 {
      assert FillParticles(p, gs, id, n, d, t) == p;
    } else {
      var gi := PickInactive(gs, id, d, t);
      var g := gs[gi];
      var hs := gs[gi := g.(size := g.capacity)];
      FillUnfold(p, gs, id, n, d, t);
      var q := Relocate(p, g, d, t);
      FillParticlesAligned(q, hs, id, n - 1, d, t + 1);
      var r := FillParticles(q, hs, id, n - 1, d, t + 1);
      FillStepAligned(p, r, gs, hs, gi, FillRecords(hs, id, n - 1, d, t + 1), d, t);
    }
  }

  /** The bond energy of the inserted molecules, each taken after its relocation. */
  function FillBond(p: seq<Particle>, gs: seq<Group>, id: nat, n: nat, d: Draws, t: nat): real
    requires Fair(d) && GroupsOk(gs, |p|) && n <= |FindMolecules(gs, id, Inactive)|
    decreases n
  {
    if n == 0 then 0.0
    else
      var gi := PickInactive(gs, id, d, t);
      var g := gs[gi];
      var q := Relocate(p, g, d, t);
      FindMoleculesUpdate(gs, gi, g.(size := g.capacity), id, Inactive);
      d.bondEnergy(id, q[g.begin..g.TrueEnd()]) + FillBond(q, gs[gi := g.(size := g.capacity)], id, n - 1, d, t + 1)
  }

  /** The state of the molecular insertion loop: the groups, the particles, the records pushed, the bond energy summed. */
  datatype FillState = FillState(gs: seq<Group>, p: seq<Particle>, recs: seq<GroupChange>, bond: real)

  /**
   * One step of the molecular insertion loop, drawing at t: a random not
   * fully active group of species id is activated whole and relocated, its
   * record pushed and its bond energy added. A step whose selection is
   * empty leaves the state alone; under the check that precedes insertion
   * no step is ever of that kind (FillRunIsFill).
   */
  function FillNext(s: FillState, id: nat, d: Draws, t: nat): (r: FillState)
    requires Fair(d) && GroupsOk(s.gs, |s.p|)
    ensures GroupsOk(r.gs, |r.p|) && |r.p| == |s.p|
  {
    if |FindMolecules(s.gs, id, Inactive)| == 0 then s
    else
      var gi := PickInactive(s.gs, id, d, t);
      var g := s.gs[gi];
      var q := Relocate(s.p, g, d, t);
      FillState(s.gs[gi := g.(size := g.capacity)], q, s.recs + [WholeGroup(s.gs, gi)],
                s.bond + d.bondEnergy(id, q[g.begin..g.TrueEnd()]))
  }

  /** The molecular insertion loop after n of its steps, step k drawing at t + k. */
  function FillRun(p: seq<Particle>, gs: seq<Group>, id: nat, n: nat, d: Draws, t: nat): (r: FillState)
    requires Fair(d) && GroupsOk(gs, |p|)
    ensures GroupsOk(r.gs, |r.p|) && |r.p| == |p|
    decreases n
  {
    if n == 0 then FillState(gs, p, [], 0.0)
    else FillNext(FillRun(p, gs, id, n - 1, d, t), id, d, t + (n - 1))
  }

  /** n+1 steps of the insertion loop are n steps and then one more. */
  lemma FillRunSnoc(p: seq<Particle>, gs: seq<Group>, id: nat, n: nat, d: Draws, t: nat, s: FillState)
    requires Fair(d) && GroupsOk(gs, |p|) && s == FillRun(p, gs, id, n, d, t)
    ensures GroupsOk(s.gs, |s.p|) && FillRun(p, gs, id, n + 1, d, t) == FillNext(s, id, d, t + n)
  {
  }

  /** A state one step past the n-th is the (n+1)-th. */
  lemma FillRunNext(p: seq<Particle>, gs: seq<Group>, id: nat, n: nat, d: Draws, t: nat, s: FillState, s': FillState)
    requires Fair(d) && GroupsOk(gs, |p|) && s == FillRun(p, gs, id, n, d, t)
    requires GroupsOk(s.gs, |s.p|) && s' == FillNext(s, id, d, t + n)
    ensures s' == FillRun(p, gs, id, n + 1, d, t)
  {
  }

  /** While the check that precedes insertion holds, each step of the loop fills one more group. */
  lemma {:induction false} FillRunCount(p: seq<Particle>, gs: seq<Group>, id: nat, n: nat, d: Draws, t: nat)
    requires Fair(d) && GroupsOk(gs, |p|) && n <= |FindMolecules(gs, id, Inactive)|
    ensures |FindMolecules(FillRun(p, gs, id, n, d, t).gs, id, Inactive)| == |FindMolecules(gs, id, Inactive)| - n
    decreases n
  {
    if n > 0 {
      FillRunCount(p, gs, id, n - 1, d, t);
      var s := FillRun(p, gs, id, n - 1, d, t);
      var gi := PickInactive(s.gs, id, d, t + (n - 1));
      FindMoleculesUpdate(s.gs, gi, s.gs[gi].(size := s.gs[gi].capacity), id, Inactive);
    }
  }

  /** A state with one more record and bond term in front. */
  function FillAfter(rec: GroupChange, e: real, s: FillState): FillState
  {
    FillState(s.gs, s.p, [rec] + s.recs, e + s.bond)
  }

  /** A step does not look at what was pushed or summed before. */
  lemma FillNextAfter(s: FillState, rec: GroupChange, e: real, id: nat, d: Draws, t: nat)
    requires Fair(d) && GroupsOk(s.gs, |s.p|)
    ensures FillNext(FillAfter(rec, e, s), id, d, t) == FillAfter(rec, e, FillNext(s, id, d, t))
  {
    if |FindMolecules(s.gs, id, Inactive)| != 0 {
      var gi := PickInactive(s.gs, id, d, t);
      assert [rec] + s.recs + [WholeGroup(s.gs, gi)] == [rec] + (s.recs + [WholeGroup(s.gs, gi)]);
    }
  }

  /** n steps of the insertion loop are its first step followed by n-1 steps on the filled layout. */
  lemma {:induction false} FillRunCons(p: seq<Particle>, gs: seq<Group>, id: nat, n: nat, d: Draws, t: nat)
    requires Fair(d) && GroupsOk(gs, |p|) && 0 < n && 0 < |FindMolecules(gs, id, Inactive)|
    ensures var gi := PickInactive(gs, id, d, t);
      var g := gs[gi];
      var q := Relocate(p, g, d, t);
      FillRun(p, gs, id, n, d, t) ==
        FillAfter(WholeGroup(gs, gi), d.bondEnergy(id, q[g.begin..g.TrueEnd()]), FillRun(q, gs[gi := g.(size := g.capacity)], id, n - 1, d, t + 1))
    decreases n
  {
    var gi := PickInactive(gs, id, d, t);
    var g := gs[gi];
    var hs := gs[gi := g.(size := g.capacity)];
    var q := Relocate(p, g, d, t);
    var e := d.bondEnergy(id, q[g.begin..g.TrueEnd()]);
    if n == 1 {
      assert [WholeGroup(gs, gi)] + [] == [] + [WholeGroup(gs, gi)];
    } else {
      var s := FillRun(q, hs, id, n - 2, d, t + 1);
      assert FillRun(p, gs, id, n - 1, d, t) == FillAfter(WholeGroup(gs, gi), e, s) by {
        FillRunCons(p, gs, id, n - 1, d, t);
      }
      assert FillRun(p, gs, id, n, d, t) == FillNext(FillRun(p, gs, id, n - 1, d, t), id, d, t + (n - 1));
      assert FillRun(q, hs, id, n - 1, d, t + 1) == FillNext(s, id, d, t + (n - 1)) by {
        assert (t + 1) + (n - 1 - 1) == t + (n - 1);
      }
      FillNextAfter(s, WholeGroup(gs, gi), e, id, d, t + (n - 1));
    }
  }

  /** When n groups can be inserted, the loop's n steps are exactly Fill, FillParticles, FillRecords and FillBond. */
  lemma {:induction false} FillRunIsFill(p: seq<Particle>, gs: seq<Group>, id: nat, n: nat, d: Draws, t: nat)
    requires Fair(d) && GroupsOk(gs, |p|) && n <= |FindMolecules(gs, id, Inactive)|
    ensures FillRun(p, gs, id, n, d, t) ==
      FillState(Fill(gs, id, n, d, t), FillParticles(p, gs, id, n, d, t), FillRecords(gs, id, n, d, t), FillBond(p, gs, id, n, d, t))
    decreases n
  {
    if n > 0 {
      var gi := PickInactive(gs, id, d, t);
      var g := gs[gi];
      var hs := gs[gi := g.(size := g.capacity)];
      var q := Relocate(p, g, d, t);
      FindMoleculesUpdate(gs, gi, hs[gi], id, Inactive);
      FillRunIsFill(q, hs, id, n - 1, d, t + 1);
      FillRunStep(p, gs, id, n, d, t);
    }
  }

  /** The inductive step of FillRunIsFill: if the n-1 steps after the first agree, so do all n. */
  lemma FillRunStep(p: seq<Particle>, gs: seq<Group>, id: nat, n: nat, d: Draws, t: nat)
    requires Fair(d) && GroupsOk(gs, |p|) && 0 < n <= |FindMolecules(gs, id, Inactive)|
    requires var gi := PickInactive(gs, id, d, t); var g := gs[gi]; var hs := gs[gi := g.(size := g.capacity)];
      var q := Relocate(p, g, d, t);
      GroupsOk(hs, |q|) && n - 1 <= |FindMolecules(hs, id, Inactive)| &&
      FillRun(q, hs, id, n - 1, d, t + 1) ==
        FillState(Fill(hs, id, n - 1, d, t + 1), FillParticles(q, hs, id, n - 1, d, t + 1),
                  FillRecords(hs, id, n - 1, d, t + 1), FillBond(q, hs, id, n - 1, d, t + 1))
    ensures FillRun(p, gs, id, n, d, t) ==
      FillState(Fill(gs, id, n, d, t), FillParticles(p, gs, id, n, d, t), FillRecords(gs, id, n, d, t), FillBond(p, gs, id, n, d, t))
  {
    var gi := PickInactive(gs, id, d, t);
    var g := gs[gi];
    var hs := gs[gi := g.(size := g.capacity)];
    var q := Relocate(p, g, d, t);
    var e := d.bondEnergy(id, q[g.begin..g.TrueEnd()]);
    var s := FillRun(q, hs, id, n - 1, d, t + 1);
    assert FillRun(p, gs, id, n, d, t) == FillAfter(WholeGroup(gs, gi), e, s) by {
      FillRunCons(p, gs, id, n, d, t);
    }
    FillUnfold(p, gs, id, n, d, t);
  }

  /** Fill, FillParticles, FillRecords and FillBond of n steps are the first step's and those of the n-1 after it. */
  lemma FillUnfold(p: seq<Particle>, gs: seq<Group>, id: nat, n: nat, d: Draws, t: nat)
    requires Fair(d) && GroupsOk(gs, |p|) && 0 < n <= |FindMolecules(gs, id, Inactive)|
    ensures var gi := PickInactive(gs, id, d, t); var g := gs[gi]; var hs := gs[gi := g.(size := g.capacity)];
      var q := Relocate(p, g, d, t);
      GroupsOk(hs, |q|) && n - 1 <= |FindMolecules(hs, id, Inactive)| &&
      Fill(gs, id, n, d, t) == Fill(hs, id, n - 1, d, t + 1) &&
      FillParticles(p, gs, id, n, d, t) == FillParticles(q, hs, id, n - 1, d, t + 1) &&
      FillRecords(gs, id, n, d, t) == [WholeGroup(gs, gi)] + FillRecords(hs, id, n - 1, d, t + 1) &&
      FillBond(p, gs, id, n, d, t) == d.bondEnergy(id, q[g.begin..g.TrueEnd()]) + FillBond(q, hs, id, n - 1, d, t + 1)
  {
    var gi := PickInactive(gs, id, d, t);
    var g := gs[gi];
    var hs := gs[gi := g.(size := g.capacity)];
    FindMoleculesUpdate(gs, gi, hs[gi], id, Inactive);
  }

  /**
   * The atomic insertion loop on group g: each step activates the first
   * inactive slot and gives it a random position. In closed form: the n
   * slots after the active ones get the positions of draws t, t+1, ...,
   * and no other slot changes.
   */
  function GrowAtoms(p: seq<Particle>, g: Group, n: nat, d: Draws, t: nat): (r: seq<Particle>)
    requires g.size + n <= g.capacity && g.TrueEnd() <= |p|
    ensures |r| == |p|
    ensures forall i {:trigger r[i]} :: 0 <= i < |p| ==>
      r[i] == if g.End() <= i < g.End() + n then p[i].(pos := d.randPos(t + (i - g.End()))) else p[i]
  {
    seq(|p|, i requires 0 <= i < |p| =>
      if g.End() <= i < g.End() + n then p[i].(pos := d.randPos(t + (i - g.End()))) else p[i])
  }

  /** Groups of species id agree in gs and hs, and the shapes agree. */
  predicate AgreeOn(gs: seq<Group>, hs: seq<Group>, id: nat)
  {
    SameShape(gs, hs) && forall i :: 0 <= i < |gs| && gs[i].molid == id ==> hs[i] == gs[i]
  }

  lemma AgreeOnTrans(gs: seq<Group>, hs: seq<Group>, ks: seq<Group>, id: nat)
    requires AgreeOn(gs, hs, id) && AgreeOn(hs, ks, id)
    ensures AgreeOn(gs, ks, id)
  {
  }

  /**
   * Once the head entry of a side is consumed, the groups of every other
   * species of the side still agree with a reference layout os.
   */
  lemma AgreeOnTail(os: seq<Group>, gs: seq<Group>, hs: seq<Group>, s: seq<Stoich>)
    requires s != [] && DistinctIds(s) && ShrunkOnly(gs, hs, s[0].id)
    requires forall k :: 0 <= k < |s| ==> AgreeOn(os, gs, s[k].id)
    ensures forall k :: 0 <= k < |s[1..]| ==> AgreeOn(os, hs, s[1..][k].id)
  {
    forall k | 0 <= k < |s[1..]| ensures AgreeOn(os, hs, s[1..][k].id) {
      assert s[1..][k] == s[k + 1];
      ShrunkAgrees(gs, hs, s[0].id, s[k + 1].id);
      AgreeOnTrans(os, gs, hs, s[k + 1].id);
    }
  }

  /** A selection of species id sees only the groups of that species. */
  lemma SelectionAgrees(gs: seq<Group>, hs: seq<Group>, id: nat, sel: Selection)
    requires AgreeOn(gs, hs, id)
    ensures FindMolecules(gs, id, sel) == FindMolecules(hs, id, sel)
  {
    FindMoleculesAgree(gs, hs, id, sel);
  }

  /** The checks of an entry see only the groups of its species. */
  lemma ChecksAgree(gs: seq<Group>, hs: seq<Group>, topo: Topology, e: Stoich)
    requires e.id < |topo.molecules| && AgreeOn(gs, hs, e.id)
    ensures Removable(gs, topo, e) == Removable(hs, topo, e)
    ensures Insertable(gs, topo, e) == Insertable(hs, topo, e)
    ensures OneGroupIfAtomic(gs, topo, e) == OneGroupIfAtomic(hs, topo, e)
  {
    SelectionAgrees(gs, hs, e.id, All);
    SelectionAgrees(gs, hs, e.id, Active);
    SelectionAgrees(gs, hs, e.id, Inactive);
  }

  /** Shrinking groups keeps every addition check that held. */
  lemma InsertableShrunk(gs: seq<Group>, hs: seq<Group>, topo: Topology, e: Stoich)
    requires e.id < |topo.molecules| && SameShape(gs, hs) && WithinCapacity(gs)
    requires forall i :: 0 <= i < |gs| ==> hs[i].size <= gs[i].size
    requires Insertable(gs, topo, e)
    ensures Insertable(hs, topo, e)
  {
    FindAllShape(gs, hs, e.id);
    InactiveMonotone(gs, hs, e.id);
  }

  /** The one group of an atomic species. */
  function AtomicGroup(gs: seq<Group>, id: nat): (gi: nat)
    requires |FindMolecules(gs, id, All)| == 1
    ensures gi < |gs| && gs[gi].molid == id
    ensures forall i :: 0 <= i < |gs| && gs[i].molid == id ==> i == gi
    ensures gi == FindMolecules(gs, id, All)[0]
  {
    var all := FindMolecules(gs, id, All);
    assert forall i :: 0 <= i < |gs| && gs[i].molid == id ==> i == all[0] by {
      forall i | 0 <= i < |gs| && gs[i].molid == id ensures i == all[0] {
        FindMoleculesComplete(gs, id, All, i);
      }
    }
    all[0]
  }

  /**
   * The `dNatomic` record of atomic group gi with the given offsets, once
   * sorted: the atomic loops record a run of offsets, and `std::sort` turns
   * it into the ascending run passed here (ShrinkRecordsRange, RangeSorted).
   */
  function AtomicRecord(gi: nat, atoms: seq<nat>): GroupChange
  {
    Record(gi, atoms).(internal := true, dNatomic := true)
  }

  /** Record rec names slot i: an offset it lists, from the first slot of its group, is i. */
  predicate Covers(gs: seq<Group>, rec: GroupChange, i: nat)
  {
    rec.index < |gs| && gs[rec.index].begin <= i && i - gs[rec.index].begin in rec.atoms
  }

  predicate Covered(gs: seq<Group>, recs: seq<GroupChange>, i: nat)
  {
    exists k :: 0 <= k < |recs| && Covers(gs, recs[k], i)
  }

  /** The two particle vectors differ only in slots some record names. */
  predicate Aligned(a: seq<Particle>, b: seq<Particle>, gs: seq<Group>, recs: seq<GroupChange>)
  {
    |a| == |b| && forall i {:trigger Covered(gs, recs, i)} :: 0 <= i < |a| && a[i] != b[i] ==> Covered(gs, recs, i)
  }

  /** Which slot a record names depends only on where the groups begin. */
  lemma CoveredShape(gs: seq<Group>, hs: seq<Group>, recs: seq<GroupChange>, i: nat)
    requires SameShape(gs, hs)
    ensures Covered(gs, recs, i) == Covered(hs, recs, i)
  {
    if Covered(gs, recs, i) {
      var k :| 0 <= k < |recs| && Covers(gs, recs[k], i);
      assert Covers(hs, recs[k], i);
    }
    if Covered(hs, recs, i) {
      var k :| 0 <= k < |recs| && Covers(hs, recs[k], i);
      assert Covers(gs, recs[k], i);
    }
  }

  lemma CoveredPrefix(gs: seq<Group>, pre: seq<GroupChange>, recs: seq<GroupChange>, i: nat)
    requires |pre| <= |recs| && recs[..|pre|] == pre && Covered(gs, pre, i)
    ensures Covered(gs, recs, i)
  {
    var k :| 0 <= k < |pre| && Covers(gs, pre[k], i);
    assert recs[k] == recs[..|pre|][k];
  }

  lemma CoveredSuffix(gs: seq<Group>, pre: seq<GroupChange>, recs: seq<GroupChange>, i: nat)
    requires Covered(gs, recs, i)
    ensures Covered(gs, pre + recs, i)
  {
    var k :| 0 <= k < |recs| && Covers(gs, recs[k], i);
    assert (pre + recs)[|pre| + k] == recs[k];
  }

  /** Reordering the records names the same slots. */
  lemma CoveredPermuted(gs: seq<Group>, recs: seq<GroupChange>, other: seq<GroupChange>, i: nat)
    requires multiset(recs) == multiset(other) && Covered(gs, recs, i)
    ensures Covered(gs, other, i)
  {
    var k :| 0 <= k < |recs| && Covers(gs, recs[k], i);
    assert recs[k] in multiset(other);
    var l :| 0 <= l < |other| && other[l] == recs[k];
  }

  /** Differences named by a prefix and by the whole record list add up. */
  lemma AlignedTrans(a: seq<Particle>, b: seq<Particle>, c: seq<Particle>, gs: seq<Group>, hs: seq<Group>,
                     pre: seq<GroupChange>, recs: seq<GroupChange>)
    requires SameShape(gs, hs) && |pre| <= |recs| && recs[..|pre|] == pre
    requires Aligned(a, b, gs, pre) && Aligned(b, c, hs, recs)
    ensures Aligned(a, c, gs, recs)
  {
    forall i | 0 <= i < |a| && a[i] != c[i] ensures Covered(gs, recs, i) {
      if a[i] != b[i] {
        CoveredPrefix(gs, pre, recs, i);
      } else {
        CoveredShape(gs, hs, recs, i);
      }
    }
  }

  lemma RangeSorted(lo: nat, hi: nat)
    requires lo <= hi
    ensures SortAtoms(Range(lo, hi)) == Range(lo, hi)
  {
    SortAtomsRange(Range(lo, hi), lo, hi);
  }

  /** A range lists every index in it. */
  lemma InRange(lo: nat, hi: nat, x: nat)
    requires lo <= x < hi
    ensures x in Range(lo, hi)
  {
    assert Range(lo, hi)[x - lo] == x;
  }

  lemma CoveredHead(gs: seq<Group>, rec: GroupChange, recs: seq<GroupChange>, i: nat)
    requires Covers(gs, rec, i)
    ensures Covered(gs, [rec] + recs, i)
  {
    assert ([rec] + recs)[0] == rec;
  }

  /** A slot a relocation moves is named by the whole-group record. */
  lemma RelocateCovered(p: seq<Particle>, gs: seq<Group>, gi: nat, d: Draws, t: nat, i: nat)
    requires gi < |gs| && gs[gi].TrueEnd() <= |p| && i < |p| && Relocate(p, gs[gi], d, t)[i] != p[i]
    ensures Covers(gs, WholeGroup(gs, gi), i)
  {
    InRange(0, gs[gi].capacity, i - gs[gi].begin);
  }

  /** One relocation followed by changes that later records name. */
  lemma FillStepAligned(p: seq<Particle>, r: seq<Particle>, gs: seq<Group>, hs: seq<Group>, gi: nat,
                        rest: seq<GroupChange>, d: Draws, t: nat)
    requires gi < |gs| && gs[gi].TrueEnd() <= |p| && SameShape(gs, hs)
    requires Aligned(Relocate(p, gs[gi], d, t), r, hs, rest)
    ensures Aligned(p, r, gs, [WholeGroup(gs, gi)] + rest)
  {
    var q := Relocate(p, gs[gi], d, t);
    forall i | 0 <= i < |p| && p[i] != r[i] ensures Covered(gs, [WholeGroup(gs, gi)] + rest, i) {
      if q[i] != r[i] {
        CoveredShape(gs, hs, rest, i);
        CoveredSuffix(gs, [WholeGroup(gs, gi)], rest, i);
      } else {
        RelocateCovered(p, gs, gi, d, t, i);
        CoveredHead(gs, WholeGroup(gs, gi), rest, i);
      }
    }
  }

  lemma AlignedPrefix(a: seq<Particle>, b: seq<Particle>, gs: seq<Group>, pre: seq<GroupChange>, recs: seq<GroupChange>)
    requires |pre| <= |recs| && recs[..|pre|] == pre && Aligned(a, b, gs, pre)
    ensures Aligned(a, b, gs, recs)
  {
    forall i | 0 <= i < |a| && a[i] != b[i] ensures Covered(gs, recs, i) {
      CoveredPrefix(gs, pre, recs, i);
    }
  }

  lemma AlignedSuffix(a: seq<Particle>, b: seq<Particle>, gs: seq<Group>, pre: seq<GroupChange>, recs: seq<GroupChange>)
    requires Aligned(a, b, gs, recs)
    ensures Aligned(a, b, gs, pre + recs)
  {
    forall i | 0 <= i < |a| && a[i] != b[i] ensures Covered(gs, pre + recs, i) {
      CoveredSuffix(gs, pre, recs, i);
    }
  }

  /** The slots an atomic insertion activates are the ones its record names. */
  lemma GrowCovered(p: seq<Particle>, gs: seq<Group>, gi: nat, n: nat, d: Draws, t: nat)
    requires gi < |gs| && gs[gi].size + n <= gs[gi].capacity && gs[gi].TrueEnd() <= |p|
    ensures Aligned(p, GrowAtoms(p, gs[gi], n, d, t), gs, [AtomicRecord(gi, Range(gs[gi].size, gs[gi].size + n))])
  {
    var g := gs[gi];
    var atoms := Range(g.size, g.size + n);
    var rec := AtomicRecord(gi, atoms);
    var q := GrowAtoms(p, g, n, d, t);
    forall i | 0 <= i < |p| && p[i] != q[i] ensures Covered(gs, [rec], i) {
      assert g.End() <= i < g.End() + n;
      assert Covers(gs, rec, i) by {
        InRange(g.size, g.size + n, i - g.begin);
      }
      CoveredHead(gs, rec, [], i);
      assert [rec] + [] == [rec];
    }
  }

  /**
   * One entry consumed: an atomic species' one group lost e.count active
   * atoms, a molecular species lost e.count fully active groups.
   */
  predicate EntryConsumed(gs: seq<Group>, hs: seq<Group>, topo: Topology, e: Stoich)
    requires e.id < |topo.molecules|
  {
    |hs| == |gs| &&
    (IsAtomic(topo, e.id) ==> forall i :: 0 <= i < |gs| && gs[i].molid == e.id ==> hs[i].size + e.count == gs[i].size) &&
    (!IsAtomic(topo, e.id) ==> |FindMolecules(hs, e.id, Active)| + e.count == |FindMolecules(gs, e.id, Active)|)
  }

  /** One entry produced: the mirror image of `EntryConsumed`. */
  predicate EntryProduced(gs: seq<Group>, hs: seq<Group>, topo: Topology, e: Stoich)
    requires e.id < |topo.molecules|
  {
    |hs| == |gs| &&
    (IsAtomic(topo, e.id) ==> forall i :: 0 <= i < |gs| && gs[i].molid == e.id ==> hs[i].size == gs[i].size + e.count) &&
    (!IsAtomic(topo, e.id) ==> |FindMolecules(hs, e.id, Active)| == |FindMolecules(gs, e.id, Active)| + e.count)
  }

  /**
   * The atomic deletion loop on group gi, n turns, in both particle vectors,
   * with its record: the sorted offsets of the n deactivated slots.
   */
  function ShrinkInto(w: Work, gi: nat, n: nat, d: Draws): (r: Work)
    requires Fair(d) && GroupsOk(w.gs, |w.p|) && |w.op| == |w.p| && gi < |w.gs| && n <= w.gs[gi].size
    ensures |r.p| == |w.p| && |r.pushed| == |w.pushed| + 1 && r.pushed[..|w.pushed|] == w.pushed
  {
    var g := w.gs[gi];
    var s := ShrinkAtoms(w.p, w.op, g, n, d, w.t);
    var r := w.(p := s.0, op := s.1, gs := w.gs[gi := g.(size := g.size - n)],
                pushed := w.pushed + [AtomicRecord(gi, Range(g.size - n, g.size))], t := w.t + n);
    assert r.pushed[..|w.pushed|] == w.pushed;
    r
  }

  /** The deletion of an atomic entry: e.count atoms from the end of its one group. */
  function RemoveAtoms(w: Work, topo: Topology, e: Stoich, d: Draws): (r: Work)
    requires WorkOk(w, topo) && Fair(d) && e.id < |topo.molecules| && IsAtomic(topo, e.id)
    requires Removable(w.gs, topo, e)
    ensures WorkOk(r, topo) && |r.p| == |w.p| && ShrunkOnly(w.gs, r.gs, e.id) && r.t == w.t + e.count
    ensures EntryConsumed(w.gs, r.gs, topo, e)
    ensures |r.pushed| == |w.pushed| + 1 && r.pushed[..|w.pushed|] == w.pushed
    ensures w.p == w.op ==> r.p == r.op
  {
    var gi := AtomicGroup(w.gs, e.id);
    var r := ShrinkInto(w, gi, e.count, d);
    Resize(w.gs, gi, w.gs[gi].size - e.count, e.id);
    ConsistentShape(w.gs, r.gs, topo);
    r
  }

  /** The deletion of a molecular entry: e.count whole molecules. */
  function RemoveMols(w: Work, topo: Topology, e: Stoich, d: Draws): (r: Work)
    requires WorkOk(w, topo) && Fair(d) && e.id < |topo.molecules| && !IsAtomic(topo, e.id)
    requires Removable(w.gs, topo, e)
    ensures WorkOk(r, topo) && |r.p| == |w.p| && ShrunkOnly(w.gs, r.gs, e.id) && r.t == w.t + e.count
    ensures EntryConsumed(w.gs, r.gs, topo, e)
    ensures r.p == w.p && r.op == w.op && |r.pushed| == |w.pushed| + e.count && r.pushed[..|w.pushed|] == w.pushed
  {
    MolecularOf(w.gs, |w.p|, topo, e.id);
    var n := e.count;
    DropShape(w.gs, e.id, n, d, w.t);
    DropCount(w.gs, e.id, n, d, w.t);
    var r := w.(gs := Drop(w.gs, e.id, n, d, w.t), pushed := w.pushed + DropRecords(w.gs, e.id, n, d, w.t),
                bond := w.bond + DropBond(w.p, w.gs, e.id, n, d, w.t), t := w.t + n);
    assert r.pushed[..|w.pushed|] == w.pushed;
    ConsistentShape(w.gs, r.gs, topo);
    r
  }

  /** The deletion of one entry of the side being consumed. */
  function RemoveEntry(w: Work, topo: Topology, e: Stoich, d: Draws): (r: Work)
    requires WorkOk(w, topo) && Fair(d) && e.id < |topo.molecules| && Removable(w.gs, topo, e)
    ensures WorkOk(r, topo) && |r.p| == |w.p| && ShrunkOnly(w.gs, r.gs, e.id) && r.t == w.t + e.count
    ensures EntryConsumed(w.gs, r.gs, topo, e)
    ensures w.p == w.op ==> r.p == r.op
    ensures !IsAtomic(topo, e.id) ==> r.p == w.p && r.op == w.op
    ensures |w.pushed| <= |r.pushed| && r.pushed[..|w.pushed|] == w.pushed
  {
    if IsAtomic(topo, e.id) then RemoveAtoms(w, topo, e, d) else RemoveMols(w, topo, e, d)
  }

  lemma GrowAligned(p: seq<Particle>, gs: seq<Group>, gi: nat, n: nat, d: Draws, t: nat, pre: seq<GroupChange>)
    requires gi < |gs| && gs[gi].size + n <= gs[gi].capacity && gs[gi].TrueEnd() <= |p|
    ensures Aligned(p, GrowAtoms(p, gs[gi], n, d, t), gs, pre + [AtomicRecord(gi, Range(gs[gi].size, gs[gi].size + n))])
  {
    GrowCovered(p, gs, gi, n, d, t);
    AlignedSuffix(p, GrowAtoms(p, gs[gi], n, d, t), gs, pre, [AtomicRecord(gi, Range(gs[gi].size, gs[gi].size + n))]);
  }

  /** e.count atoms activated after the active ones of group gi, with their record. */
  function GrowInto(w: Work, gi: nat, n: nat, d: Draws): (r: Work)
    requires GroupsOk(w.gs, |w.p|) && gi < |w.gs| && w.gs[gi].size + n <= w.gs[gi].capacity
    ensures |r.p| == |w.p| && |r.pushed| == |w.pushed| + 1 && r.pushed[..|w.pushed|] == w.pushed
  {
    var g := w.gs[gi];
    var rec := AtomicRecord(gi, Range(g.size, g.size + n));
    var r := w.(p := GrowAtoms(w.p, g, n, d, w.t), gs := w.gs[gi := g.(size := g.size + n)],
                pushed := w.pushed + [rec], t := w.t + n);
    assert r.pushed[..|w.pushed|] == w.pushed;
    r
  }

  /** What GrowInto changes, component by component. */
  lemma GrowIntoParts(w: Work, gi: nat, n: nat, d: Draws)
    requires GroupsOk(w.gs, |w.p|) && gi < |w.gs| && w.gs[gi].size + n <= w.gs[gi].capacity
    ensures var g := w.gs[gi]; var v := GrowInto(w, gi, n, d);
      v.gs == w.gs[gi := g.(size := g.size + n)] && v.p == GrowAtoms(w.p, g, n, d, w.t) &&
      v.pushed == w.pushed + [AtomicRecord(gi, Range(g.size, g.size + n))] &&
      v.op == w.op && v.bond == w.bond
  {
  }

  /** The insertion of an atomic entry: e.count atoms after the active ones of its one group. */
  function InsertAtoms(w: Work, topo: Topology, e: Stoich, d: Draws): (r: Work)
    requires WorkOk(w, topo) && Fair(d) && e.id < |topo.molecules| && IsAtomic(topo, e.id)
    requires Insertable(w.gs, topo, e)
    ensures WorkOk(r, topo) && |r.p| == |w.p| && GrownOnly(w.gs, r.gs, e.id) && r.t == w.t + e.count && r.op == w.op
    ensures EntryProduced(w.gs, r.gs, topo, e)
    ensures |r.pushed| == |w.pushed| + 1 && r.pushed[..|w.pushed|] == w.pushed
    ensures Aligned(w.p, r.p, w.gs, r.pushed)
  {
    var gi := AtomicGroup(w.gs, e.id);
    var r := GrowInto(w, gi, e.count, d);
    GrowAligned(w.p, w.gs, gi, e.count, d, w.t, w.pushed);
    Resize(w.gs, gi, w.gs[gi].size + e.count, e.id);
    ConsistentShape(w.gs, r.gs, topo);
    r
  }

  /** The insertion of a molecular entry: e.count whole molecules. */
  function InsertMols(w: Work, topo: Topology, e: Stoich, d: Draws): (r: Work)
    requires WorkOk(w, topo) && Fair(d) && e.id < |topo.molecules| && !IsAtomic(topo, e.id)
    requires Insertable(w.gs, topo, e)
    ensures WorkOk(r, topo) && |r.p| == |w.p| && GrownOnly(w.gs, r.gs, e.id) && r.t == w.t + e.count && r.op == w.op
    ensures EntryProduced(w.gs, r.gs, topo, e)
    ensures |r.pushed| == |w.pushed| + e.count && r.pushed[..|w.pushed|] == w.pushed
    ensures Aligned(w.p, r.p, w.gs, r.pushed)
  {
    var n := e.count;
    FillShape(w.gs, e.id, n, d, w.t);
    FillCounts(w.gs, e.id, n, d, w.t);
    FillParticlesAligned(w.p, w.gs, e.id, n, d, w.t);
    AlignedSuffix(w.p, FillParticles(w.p, w.gs, e.id, n, d, w.t), w.gs, w.pushed, FillRecords(w.gs, e.id, n, d, w.t));
    var r := w.(p := FillParticles(w.p, w.gs, e.id, n, d, w.t), gs := Fill(w.gs, e.id, n, d, w.t),
                pushed := w.pushed + FillRecords(w.gs, e.id, n, d, w.t),
                bond := w.bond - FillBond(w.p, w.gs, e.id, n, d, w.t), t := w.t + n);
    assert r.pushed[..|w.pushed|] == w.pushed;
    ConsistentShape(w.gs, r.gs, topo);
    r
  }

  /** The insertion of one entry of the side being produced. */
  function InsertEntry(w: Work, topo: Topology, e: Stoich, d: Draws): (r: Work)
    requires WorkOk(w, topo) && Fair(d) && e.id < |topo.molecules| && Insertable(w.gs, topo, e)
    ensures WorkOk(r, topo) && |r.p| == |w.p| && GrownOnly(w.gs, r.gs, e.id) && r.t == w.t + e.count && r.op == w.op
    ensures EntryProduced(w.gs, r.gs, topo, e)
    ensures Aligned(w.p, r.p, w.gs, r.pushed)
    ensures |w.pushed| <= |r.pushed| && r.pushed[..|w.pushed|] == w.pushed
  {
    if IsAtomic(topo, e.id) then InsertAtoms(w, topo, e, d) else InsertMols(w, topo, e, d)
  }

  /** hs differs from gs only in smaller sizes of groups of species the side names. */
  predicate ShrunkFor(gs: seq<Group>, hs: seq<Group>, s: seq<Stoich>)
  {
    SameShape(gs, hs) &&
    forall i :: 0 <= i < |gs| ==> hs[i].size <= gs[i].size && (!Mentions(s, gs[i].molid) ==> hs[i] == gs[i])
  }

  /** hs differs from gs only in larger sizes of groups of species the side names. */
  predicate GrownFor(gs: seq<Group>, hs: seq<Group>, s: seq<Stoich>)
  {
    SameShape(gs, hs) &&
    forall i :: 0 <= i < |gs| ==> gs[i].size <= hs[i].size && (!Mentions(s, gs[i].molid) ==> hs[i] == gs[i])
  }

  lemma ShrunkAgrees(gs: seq<Group>, hs: seq<Group>, id: nat, other: nat)
    requires ShrunkOnly(gs, hs, id) && other != id
    ensures AgreeOn(gs, hs, other)
  {
  }

  lemma GrownAgrees(gs: seq<Group>, hs: seq<Group>, id: nat, other: nat)
    requires GrownOnly(gs, hs, id) && other != id
    ensures AgreeOn(gs, hs, other)
  {
  }

  lemma ShrunkForCons(gs: seq<Group>, hs: seq<Group>, ks: seq<Group>, s: seq<Stoich>)
    requires s != [] && ShrunkOnly(gs, hs, s[0].id) && ShrunkFor(hs, ks, s[1..])
    ensures ShrunkFor(gs, ks, s)
  {
    forall i | 0 <= i < |gs| && !Mentions(s, gs[i].molid) ensures ks[i] == gs[i] {
      MentionsTail(s, gs[i].molid);
    }
  }

  lemma GrownForCons(gs: seq<Group>, hs: seq<Group>, ks: seq<Group>, s: seq<Stoich>)
    requires s != [] && GrownOnly(gs, hs, s[0].id) && GrownFor(hs, ks, s[1..])
    ensures GrownFor(gs, ks, s)
  {
    forall i | 0 <= i < |gs| && !Mentions(s, gs[i].molid) ensures ks[i] == gs[i] {
      MentionsTail(s, gs[i].molid);
    }
  }

  /** After the head entry of a side, the checks of the other entries still hold. */
  lemma RemovableTail(gs: seq<Group>, hs: seq<Group>, topo: Topology, s: seq<Stoich>)
    requires s != [] && MolIdsIn(s, topo) && DistinctIds(s) && ShrunkOnly(gs, hs, s[0].id)
    requires forall k :: 0 <= k < |s| ==> Removable(gs, topo, s[k])
    ensures MolIdsIn(s[1..], topo) && DistinctIds(s[1..])
    ensures forall k :: 0 <= k < |s[1..]| ==> Removable(hs, topo, s[1..][k])
  {
    CountHead(s);
    forall k | 0 <= k < |s[1..]| ensures s[1..][k].id < |topo.molecules| && Removable(hs, topo, s[1..][k]) {
      assert s[1..][k] == s[k + 1];
      ShrunkAgrees(gs, hs, s[0].id, s[k + 1].id);
      ChecksAgree(gs, hs, topo, s[k + 1]);
    }
  }

  lemma InsertableTail(gs: seq<Group>, hs: seq<Group>, topo: Topology, s: seq<Stoich>)
    requires s != [] && MolIdsIn(s, topo) && DistinctIds(s) && GrownOnly(gs, hs, s[0].id)
    requires forall k :: 0 <= k < |s| ==> Insertable(gs, topo, s[k])
    ensures MolIdsIn(s[1..], topo) && DistinctIds(s[1..])
    ensures forall k :: 0 <= k < |s[1..]| ==> Insertable(hs, topo, s[1..][k])
  {
    CountHead(s);
    forall k | 0 <= k < |s[1..]| ensures s[1..][k].id < |topo.molecules| && Insertable(hs, topo, s[1..][k]) {
      assert s[1..][k] == s[k + 1];
      GrownAgrees(gs, hs, s[0].id, s[k + 1].id);
      ChecksAgree(gs, hs, topo, s[k + 1]);
    }
  }

  /**
   * A whole side consumed: every atomic group lost as many active atoms as
   * the side names of its species, and every molecular species lost as many
   * fully active groups.
   */
  predicate Consumed(gs: seq<Group>, hs: seq<Group>, topo: Topology, s: seq<Stoich>)
  {
    |hs| == |gs| &&
    (forall i :: 0 <= i < |gs| && gs[i].atomic ==> hs[i].size + Count(s, gs[i].molid) == gs[i].size) &&
    (forall id: nat :: id < |topo.molecules| && !IsAtomic(topo, id) ==>
       |FindMolecules(hs, id, Active)| + Count(s, id) == |FindMolecules(gs, id, Active)|)
  }

  /** A whole side produced: the mirror image of `Consumed`. */
  predicate Produced(gs: seq<Group>, hs: seq<Group>, topo: Topology, s: seq<Stoich>)
  {
    |hs| == |gs| &&
    (forall i :: 0 <= i < |gs| && gs[i].atomic ==> hs[i].size == gs[i].size + Count(s, gs[i].molid)) &&
    (forall id: nat :: id < |topo.molecules| && !IsAtomic(topo, id) ==>
       |FindMolecules(hs, id, Active)| == |FindMolecules(gs, id, Active)| + Count(s, id))
  }

  lemma ConsumedCons(gs: seq<Group>, hs: seq<Group>, ks: seq<Group>, topo: Topology, s: seq<Stoich>)
    requires s != [] && s[0].id < |topo.molecules| && DistinctIds(s) && Consistent(gs, topo)
    requires ShrunkOnly(gs, hs, s[0].id) && EntryConsumed(gs, hs, topo, s[0])
    requires ShrunkFor(hs, ks, s[1..]) && Consumed(hs, ks, topo, s[1..])
    ensures Consumed(gs, ks, topo, s)
  {
    CountHead(s);
    CountAbsent(s[1..], s[0].id);
    forall id: nat | id < |topo.molecules| && !IsAtomic(topo, id)
      ensures |FindMolecules(ks, id, Active)| + Count(s, id) == |FindMolecules(gs, id, Active)|
    {
      if id != s[0].id {
        ShrunkAgrees(gs, hs, s[0].id, id);
        SelectionAgrees(gs, hs, id, Active);
      }
    }
  }

  lemma ProducedCons(gs: seq<Group>, hs: seq<Group>, ks: seq<Group>, topo: Topology, s: seq<Stoich>)
    requires s != [] && s[0].id < |topo.molecules| && DistinctIds(s) && Consistent(gs, topo)
    requires GrownOnly(gs, hs, s[0].id) && EntryProduced(gs, hs, topo, s[0])
    requires GrownFor(hs, ks, s[1..]) && Produced(hs, ks, topo, s[1..])
    ensures Produced(gs, ks, topo, s)
  {
    CountHead(s);
    CountAbsent(s[1..], s[0].id);
    forall id: nat | id < |topo.molecules| && !IsAtomic(topo, id)
      ensures |FindMolecules(ks, id, Active)| == |FindMolecules(gs, id, Active)| + Count(s, id)
    {
      if id != s[0].id {
        GrownAgrees(gs, hs, s[0].id, id);
        SelectionAgrees(gs, hs, id, Active);
      }
    }
  }

  lemma PrefixTrans<T>(a: seq<T>, b: seq<T>, c: seq<T>)
    requires |a| <= |b| <= |c| && b[..|a|] == a && c[..|b|] == b
    ensures c[..|a|] == a
  {
    assert c[..|b|][..|a|] == b[..|a|];
  }

  /** No species of the side is atomic. */
  predicate NoAtomic(s: seq<Stoich>, topo: Topology)
  {
    forall k :: 0 <= k < |s| ==> s[k].id < |topo.molecules| && !IsAtomic(topo, s[k].id)
  }

  lemma NoAtomicTail(s: seq<Stoich>, topo: Topology)
    requires s != []
    ensures NoAtomic(s, topo) ==> NoAtomic(s[1..], topo) && s[0].id < |topo.molecules| && !IsAtomic(topo, s[0].id)
  {
    assert forall k :: 0 <= k < |s[1..]| ==> s[1..][k] == s[k + 1];
  }

  /** The deletions of a whole side, entry after entry. */
  function Removals(w: Work, topo: Topology, s: seq<Stoich>, d: Draws): (r: Work)
    requires WorkOk(w, topo) && Fair(d) && MolIdsIn(s, topo) && DistinctIds(s)
    requires forall k :: 0 <= k < |s| ==> Removable(w.gs, topo, s[k])
    ensures WorkOk(r, topo) && |r.p| == |w.p| && ShrunkFor(w.gs, r.gs, s)
    ensures |w.pushed| <= |r.pushed| && r.pushed[..|w.pushed|] == w.pushed
    decreases |s|
  {
    if s == [] then w
    else
      var w1 := RemoveEntry(w, topo, s[0], d);
      RemovableTail(w.gs, w1.gs, topo, s);
      var r := Removals(w1, topo, s[1..], d);
      ShrunkForCons(w.gs, w1.gs, r.gs, s);
      PrefixTrans(w.pushed, w1.pushed, r.pushed);
      r
  }

  /**
   * A side's deletions consume exactly what the side names; they keep two
   * equal particle vectors equal, and a side without atomic species moves
   * no particle.
   */
  lemma {:induction false} RemovalsConsume(w: Work, topo: Topology, s: seq<Stoich>, d: Draws)
    requires WorkOk(w, topo) && Fair(d) && MolIdsIn(s, topo) && DistinctIds(s)
    requires forall k :: 0 <= k < |s| ==> Removable(w.gs, topo, s[k])
    ensures var r := Removals(w, topo, s, d);
      Consumed(w.gs, r.gs, topo, s) &&
      (w.p == w.op ==> r.p == r.op) &&
      (NoAtomic(s, topo) ==> r.p == w.p && r.op == w.op)
    decreases |s|
  {
    if s != [] {
      var w1 := RemoveEntry(w, topo, s[0], d);
      RemovableTail(w.gs, w1.gs, topo, s);
      NoAtomicTail(s, topo);
      RemovalsConsume(w1, topo, s[1..], d);
      ConsumedCons(w.gs, w1.gs, Removals(w1, topo, s[1..], d).gs, topo, s);
    }
  }

  /** The two vectors hold the same particle in every slot but `slot`. */
  predicate DiffersAt(a: seq<Particle>, b: seq<Particle>, slot: nat)
  {
    |a| == |b| && forall i :: 0 <= i < |a| && i != slot ==> a[i] == b[i]
  }

  /** No atomic group whose species the side names holds `slot` among its active ones. */
  predicate ClearOf(gs: seq<Group>, s: seq<Stoich>, slot: nat)
  {
    forall gi :: 0 <= gi < |gs| && gs[gi].atomic && Mentions(s, gs[gi].molid) ==> !gs[gi].HasActive(slot)
  }

  /** Turns away from `slot` on both vectors keep them differing at most there. */
  lemma {:induction false} TurnedAgree(a: seq<Particle>, b: seq<Particle>, slots: seq<(nat, nat)>, lo: nat, hi: nat, slot: nat)
    requires hi <= |a| && SlotsIn(slots, lo, hi) && !(lo <= slot < hi) && DiffersAt(a, b, slot)
    ensures DiffersAt(Turned(a, slots), Turned(b, slots), slot)
    decreases |slots|
  {
    if slots != [] {
      var last := slots[|slots| - 1];
      var pre := slots[..|slots| - 1];
      assert SlotsIn(pre, lo, hi) by {
        forall k | 0 <= k < |pre| ensures lo <= pre[k].0 <= pre[k].1 < hi {
          assert pre[k] == slots[k];
        }
      }
      TurnedAgree(a, b, pre, lo, hi, slot);
    }
  }

  /** The deletion of one entry, when its atomic group does not hold `slot` active, moves nothing at `slot` and keeps the two vectors differing at most there. */
  lemma RemoveEntryKeepsSlot(w: Work, topo: Topology, e: Stoich, d: Draws, slot: nat)
    requires WorkOk(w, topo) && Fair(d) && e.id < |topo.molecules| && Removable(w.gs, topo, e)
    requires slot < |w.p| && DiffersAt(w.p, w.op, slot)
    requires forall gi :: 0 <= gi < |w.gs| && w.gs[gi].molid == e.id && IsAtomic(topo, e.id) ==> !w.gs[gi].HasActive(slot)
    ensures var r := RemoveEntry(w, topo, e, d);
      r.p[slot] == w.p[slot] && r.op[slot] == w.op[slot] && DiffersAt(r.p, r.op, slot)
  {
    if IsAtomic(topo, e.id) {
      var gi := AtomicGroup(w.gs, e.id);
      var g := w.gs[gi];
      ShrinkFrame(w.p, w.op, g, e.count, d, w.t);
      TurnedAgree(w.p, w.op, Turns(g, e.count, d, w.t), g.begin, g.begin + g.size, slot);
    }
  }

  /**
   * A side's deletions, when none of its atomic groups holds `slot` active,
   * leave `slot` alone in both spaces and keep two vectors that differed at
   * most there differing at most there.
   */
  lemma {:induction false} RemovalsKeepSlot(w: Work, topo: Topology, s: seq<Stoich>, d: Draws, slot: nat)
    requires WorkOk(w, topo) && Fair(d) && MolIdsIn(s, topo) && DistinctIds(s)
    requires forall k :: 0 <= k < |s| ==> Removable(w.gs, topo, s[k])
    requires slot < |w.p| && DiffersAt(w.p, w.op, slot) && ClearOf(w.gs, s, slot)
    ensures var r := Removals(w, topo, s, d);
      r.p[slot] == w.p[slot] && r.op[slot] == w.op[slot] && DiffersAt(r.p, r.op, slot)
    decreases |s|
  {
    if s != [] {
      var w1 := RemoveEntry(w, topo, s[0], d);
      assert Mentions(s, s[0].id);
      RemoveEntryKeepsSlot(w, topo, s[0], d, slot);
      RemovableTail(w.gs, w1.gs, topo, s);
      assert ClearOf(w1.gs, s[1..], slot) by {
        forall gi | 0 <= gi < |w1.gs| && w1.gs[gi].atomic && Mentions(s[1..], w1.gs[gi].molid)
          ensures !w1.gs[gi].HasActive(slot)
        {
          var k :| 0 <= k < |s[1..]| && s[1..][k].id == w1.gs[gi].molid;
          assert s[k + 1] == s[1..][k];
        }
      }
      RemovalsKeepSlot(w1, topo, s[1..], d, slot);
    }
  }

  /** The insertions of a whole side, entry after entry. */
  function Insertions(w: Work, topo: Topology, s: seq<Stoich>, d: Draws): (r: Work)
    requires WorkOk(w, topo) && Fair(d) && MolIdsIn(s, topo) && DistinctIds(s)
    requires forall k :: 0 <= k < |s| ==> Insertable(w.gs, topo, s[k])
    ensures WorkOk(r, topo) && |r.p| == |w.p| && r.op == w.op
    ensures |w.pushed| <= |r.pushed| && r.pushed[..|w.pushed|] == w.pushed
    decreases |s|
  {
    if s == [] then w
    else
      var w1 := InsertEntry(w, topo, s[0], d);
      InsertableTail(w.gs, w1.gs, topo, s);
      var r := Insertions(w1, topo, s[1..], d);
      PrefixTrans(w.pushed, w1.pushed, r.pushed);
      r
  }

  /**
   * A side's insertions produce exactly what the side names, touch no group
   * of another species, and change only slots the pushed records name.
   */
  lemma {:induction false} InsertionsProduce(w: Work, topo: Topology, s: seq<Stoich>, d: Draws)
    requires WorkOk(w, topo) && Fair(d) && MolIdsIn(s, topo) && DistinctIds(s)
    requires forall k :: 0 <= k < |s| ==> Insertable(w.gs, topo, s[k])
    ensures var r := Insertions(w, topo, s, d);
      GrownFor(w.gs, r.gs, s) && Produced(w.gs, r.gs, topo, s) && Aligned(w.p, r.p, w.gs, r.pushed)
    decreases |s|
  {
    if s != [] {
      var w1 := InsertEntry(w, topo, s[0], d);
      InsertableTail(w.gs, w1.gs, topo, s);
      InsertionsProduce(w1, topo, s[1..], d);
      var r := Insertions(w1, topo, s[1..], d);
      GrownForCons(w.gs, w1.gs, r.gs, s);
      ProducedCons(w.gs, w1.gs, r.gs, topo, s);
      AlignedTrans(w.p, w1.p, r.p, w.gs, w1.gs, w1.pushed, r.pushed);
    }
  }

  /** Deleting keeps every addition check of a side that held before. */
  lemma InsertablesShrunk(gs: seq<Group>, hs: seq<Group>, topo: Topology, s: seq<Stoich>)
    requires MolIdsIn(s, topo) && SameShape(gs, hs) && WithinCapacity(gs)
    requires forall i :: 0 <= i < |gs| ==> hs[i].size <= gs[i].size
    requires forall k :: 0 <= k < |s| ==> Insertable(gs, topo, s[k])
    ensures forall k :: 0 <= k < |s| ==> Insertable(hs, topo, s[k])
  {
    forall k | 0 <= k < |s| ensures Insertable(hs, topo, s[k]) {
      InsertableShrunk(gs, hs, topo, s[k]);
    }
  }

  /**
   * The net effect of a reaction on the groups: every atomic group and every
   * molecular species changed by what the producing side names minus what
   * the consumed side names, and a group whose species neither side names is
   * untouched.
   */
  predicate Balanced(gs: seq<Group>, hs: seq<Group>, topo: Topology, dels: seq<Stoich>, adds: seq<Stoich>)
  {
    SameShape(gs, hs) &&
    (forall i :: 0 <= i < |gs| && gs[i].atomic ==>
       hs[i].size + Count(dels, gs[i].molid) == gs[i].size + Count(adds, gs[i].molid)) &&
    (forall id: nat :: id < |topo.molecules| && !IsAtomic(topo, id) ==>
       |FindMolecules(hs, id, Active)| + Count(dels, id) == |FindMolecules(gs, id, Active)| + Count(adds, id)) &&
    (forall i :: 0 <= i < |gs| && !Mentions(dels, gs[i].molid) && !Mentions(adds, gs[i].molid) ==> hs[i] == gs[i])
  }

  lemma BalancedOf(gs: seq<Group>, hs: seq<Group>, ks: seq<Group>, topo: Topology, dels: seq<Stoich>, adds: seq<Stoich>)
    requires ShrunkFor(gs, hs, dels) && Consumed(gs, hs, topo, dels)
    requires GrownFor(hs, ks, adds) && Produced(hs, ks, topo, adds)
    ensures Balanced(gs, ks, topo, dels, adds)
  {
  }

  /** The mutation phases after the checks: the deletions, then the insertions. */
  function Mutate(w: Work, topo: Topology, r: ReactionData, forward: bool, d: Draws): (v: Work)
    requires WorkOk(w, topo) && Fair(d) && WellFormed(r, topo)
    requires AllRemovable(w.gs, topo, r.Molecules2Add(!forward)) && AllInsertable(w.gs, topo, r.Molecules2Add(forward))
    ensures WorkOk(v, topo) && |v.p| == |w.p|
    ensures |w.pushed| <= |v.pushed| && v.pushed[..|w.pushed|] == w.pushed
  {
    var w1 := Removals(w, topo, r.Molecules2Add(!forward), d);
    InsertablesShrunk(w.gs, w1.gs, topo, r.Molecules2Add(forward));
    var v := Insertions(w1, topo, r.Molecules2Add(forward), d);
    PrefixTrans(w.pushed, w1.pushed, v.pushed);
    v
  }

  /** Mutate as its two phases, with what each phase needs of its side. */
  lemma MutateSplit(w: Work, topo: Topology, r: ReactionData, forward: bool, d: Draws)
    requires WorkOk(w, topo) && Fair(d) && WellFormed(r, topo)
    requires AllRemovable(w.gs, topo, r.Molecules2Add(!forward)) && AllInsertable(w.gs, topo, r.Molecules2Add(forward))
    ensures MolIdsIn(r.Molecules2Add(!forward), topo) && DistinctIds(r.Molecules2Add(!forward))
    ensures MolIdsIn(r.Molecules2Add(forward), topo) && DistinctIds(r.Molecules2Add(forward))
    ensures var w1 := Removals(w, topo, r.Molecules2Add(!forward), d);
      (forall k :: 0 <= k < |r.Molecules2Add(forward)| ==> Insertable(w1.gs, topo, r.Molecules2Add(forward)[k])) &&
      Mutate(w, topo, r, forward, d) == Insertions(w1, topo, r.Molecules2Add(forward), d)
  {
    var w1 := Removals(w, topo, r.Molecules2Add(!forward), d);
    InsertablesShrunk(w.gs, w1.gs, topo, r.Molecules2Add(forward));
  }

  /**
   * The mutation phases change the groups by the reaction's stoichiometry
   * and nothing else; when the two spaces agreed, or no atomic species is
   * deleted, the spaces differ afterwards only in slots the records name.
   */
  lemma MutateBalanced(w: Work, topo: Topology, r: ReactionData, forward: bool, d: Draws)
    requires WorkOk(w, topo) && Fair(d) && WellFormed(r, topo)
    requires AllRemovable(w.gs, topo, r.Molecules2Add(!forward)) && AllInsertable(w.gs, topo, r.Molecules2Add(forward))
    ensures var v := Mutate(w, topo, r, forward, d);
      Balanced(w.gs, v.gs, topo, r.Molecules2Add(!forward), r.Molecules2Add(forward)) &&
      ((w.p == w.op || NoAtomic(r.Molecules2Add(!forward), topo)) && Aligned(w.op, w.p, w.gs, w.pushed) ==>
         Aligned(v.op, v.p, w.gs, v.pushed))
  {
    var dels, adds := r.Molecules2Add(!forward), r.Molecules2Add(forward);
    var w1 := Removals(w, topo, dels, d);
    RemovalsConsume(w, topo, dels, d);
    InsertablesShrunk(w.gs, w1.gs, topo, adds);
    var v := Insertions(w1, topo, adds, d);
    InsertionsProduce(w1, topo, adds, d);
    BalancedOf(w.gs, w1.gs, v.gs, topo, dels, adds);
    if (w.p == w.op || NoAtomic(dels, topo)) && Aligned(w.op, w.p, w.gs, w.pushed) {
      if w.p != w.op {
        AlignedPrefix(w.op, w.p, w.gs, w.pushed, w1.pushed);
      }
      AlignedTrans(w1.op, w1.p, v.p, w.gs, w1.gs, w1.pushed, v.pushed);
    }
  }

  /**
   * When the two spaces differ at most in one recorded slot that no atomic
   * group of the consumed side holds active, the mutation phases leave them
   * different only in slots the records name.
   */
  lemma MutateSlotAligned(w: Work, topo: Topology, r: ReactionData, forward: bool, d: Draws, slot: nat)
    requires WorkOk(w, topo) && Fair(d) && WellFormed(r, topo)
    requires AllRemovable(w.gs, topo, r.Molecules2Add(!forward)) && AllInsertable(w.gs, topo, r.Molecules2Add(forward))
    requires slot < |w.p| && DiffersAt(w.p, w.op, slot) && ClearOf(w.gs, r.Molecules2Add(!forward), slot)
    requires Aligned(w.op, w.p, w.gs, w.pushed)
    ensures var v := Mutate(w, topo, r, forward, d); Aligned(v.op, v.p, w.gs, v.pushed)
  {
    var dels, adds := r.Molecules2Add(!forward), r.Molecules2Add(forward);
    MutateSplit(w, topo, r, forward, d);
    var w1 := Removals(w, topo, dels, d);
    RemovalsKeepSlot(w, topo, dels, d, slot);
    InsertablesShrunk(w.gs, w1.gs, topo, adds);
    var v := Insertions(w1, topo, adds, d);
    InsertionsProduce(w1, topo, adds, d);
    assert Aligned(w1.op, w1.p, w.gs, w1.pushed) by {
      forall i | 0 <= i < |w1.op| && w1.op[i] != w1.p[i] ensures Covered(w.gs, w1.pushed, i) {
        assert i == slot && w.op[i] != w.p[i];
        CoveredPrefix(w.gs, w.pushed, w1.pushed, i);
      }
    }
    AlignedTrans(w1.op, w1.p, v.p, w.gs, w1.gs, w1.pushed, v.pushed);
  }

  /**
   * No active atom of species `from` lies in an atomic group whose species
   * the side names: wherever the swap relabels, the side's atomic deletions
   * do not move it.
   */
  predicate SwapClear(p: seq<Particle>, gs: seq<Group>, from: nat, s: seq<Stoich>)
  {
    forall gi, i :: 0 <= gi < |gs| && 0 <= i < |p| && gs[gi].atomic && Mentions(s, gs[gi].molid) && gs[gi].HasActive(i) ==>
      p[i].id != from
  }

  /** A side without atomic species leaves every swap clear. */
  lemma NoAtomicClear(p: seq<Particle>, gs: seq<Group>, topo: Topology, from: nat, s: seq<Stoich>)
    requires Consistent(gs, topo) && NoAtomic(s, topo)
    ensures SwapClear(p, gs, from, s)
  {
    forall gi, k | 0 <= gi < |gs| && 0 <= k < |s| && s[k].id == gs[gi].molid
      ensures !gs[gi].atomic
    {
      assert !IsAtomic(topo, s[k].id);
    }
  }

  /** What `_move` throws. */
  datatype MoveError = NoReactions | OneGroupPerAtomic

  /** A proposal throws, returns before any mutation, or yields the new state and change. */
  datatype Attempt = Thrown(error: MoveError) | Aborted | Proposed(w: Work, change: Change)

  /** The libraries `WellFormed` reactions over a topology. */
  predicate AllWellFormed(reactions: seq<ReactionData>, topo: Topology)
  {
    forall k :: 0 <= k < |reactions| ==> WellFormed(reactions[k], topo)
  }

  /**
   * Why `Apply` promises alignment only when the swap cannot relabel an atom
   * of an atomic group the reaction deletes from (`SwapClear`): the swap
   * relabels slot 2 of a three-atom group in this space only, and a deletion
   * from that same group drawing slot 0 then exchanges slots 0 and 2 in both
   * spaces. The difference moves to slot 0, while the swap record and the
   * deletion record both name only slot 2.
   */
  lemma SwapThenDeleteGap()
    ensures var s := ShrinkAtoms([GapAtom(0), GapAtom(1), GapAtom(2)], [GapAtom(0), GapAtom(1), GapAtom(3)], GapGroup, 1, GapDraws, 0);
      var swap := Record(0, [2]).(internal := true, dNswap := true);
      Fair(GapDraws) && s.0[0] != s.1[0] && s.2 == [2] &&
      !Covered([GapGroup.(size := 2)], [swap, AtomicRecord(0, SortAtoms(s.2))], 0)
  {
    GapShrink();
    assert SortAtoms([2]) == [2];
    var recs := [Record(0, [2]).(internal := true, dNswap := true), AtomicRecord(0, [2])];
    assert forall k :: 0 <= k < |recs| ==> recs[k].atoms == [2];
  }

  /** The group, the atoms (ids 2 and 3 being the relabelled and the kept one) and the draws of SwapThenDeleteGap. */
  const GapGroup: Group := Group(0, 3, 3, 0, true)

  function GapAtom(id: nat): Particle
  {
    Particle(id, 0.0, Point(0.0, 0.0, 0.0))
  }

  const GapDraws: Draws := Draws((t: nat, n: nat) => 0, (t: nat) => Point(0.0, 0.0, 0.0),
                                 (t: nat, j: nat, x: Point) => x, (m: nat, ps: seq<Particle>) => 0.0)

  /** The deletion's one turn draws slot 0 and exchanges it with slot 2 in both spaces. */
  lemma GapShrink()
    ensures Fair(GapDraws)
    ensures ShrinkAtoms([GapAtom(0), GapAtom(1), GapAtom(2)], [GapAtom(0), GapAtom(1), GapAtom(3)], GapGroup, 1, GapDraws, 0) ==
      ([GapAtom(2), GapAtom(1), GapAtom(0)], [GapAtom(3), GapAtom(1), GapAtom(0)], [2])
  {
    var p, op := [GapAtom(0), GapAtom(1), GapAtom(2)], [GapAtom(0), GapAtom(1), GapAtom(3)];
    var slots := Turns(GapGroup, 1, GapDraws, 0);
    assert slots == [(0, 2)] && slots[..0] == [];
    assert Turned(p, slots) == Exchange(p, 0, 2) == [GapAtom(2), GapAtom(1), GapAtom(0)];
    assert Turned(op, slots) == Exchange(op, 0, 2) == [GapAtom(3), GapAtom(1), GapAtom(0)];
    assert Countdown(3, 1) == [2];
    assert ShrinkAtoms(p, op, GapGroup, 1, GapDraws, 0) == (Turned(p, slots), Turned(op, slots), Countdown(3, 1));
  }

  predicate AllRemovable(gs: seq<Group>, topo: Topology, s: seq<Stoich>)
    requires MolIdsIn(s, topo)
  {
    forall k :: 0 <= k < |s| ==> Removable(gs, topo, s[k])
  }

  predicate AllInsertable(gs: seq<Group>, topo: Topology, s: seq<Stoich>)
    requires MolIdsIn(s, topo)
  {
    forall k :: 0 <= k < |s| ==> Insertable(gs, topo, s[k])
  }

  /** The first delete check that fails is that of an atomic species without exactly one group. */
  predicate DeleteMisdefined(gs: seq<Group>, topo: Topology, s: seq<Stoich>)
    requires MolIdsIn(s, topo)
  {
    exists k :: 0 <= k < |s| && !OneGroupIfAtomic(gs, topo, s[k]) &&
      forall j :: 0 <= j < k ==> Removable(gs, topo, s[j])
  }

  /** The first addition check that fails is that of an atomic species without exactly one group. */
  predicate AddMisdefined(gs: seq<Group>, topo: Topology, s: seq<Stoich>)
    requires MolIdsIn(s, topo)
  {
    exists k :: 0 <= k < |s| && !OneGroupIfAtomic(gs, topo, s[k]) &&
      forall j :: 0 <= j < k ==> Insertable(gs, topo, s[j])
  }

  /** The delete checks report a definition error exactly when the first failing one is that of a misdefined atomic species. */
  lemma {:induction false} CheckRemovalsMisdefined(gs: seq<Group>, topo: Topology, s: seq<Stoich>)
    requires MolIdsIn(s, topo)
    ensures CheckRemovals(gs, topo, s) == Misdefined <==> DeleteMisdefined(gs, topo, s)
    decreases |s|
  {
    if s != [] {
      CheckRemovalsMisdefined(gs, topo, s[1..]);
      if OneGroupIfAtomic(gs, topo, s[0]) && Removable(gs, topo, s[0]) {
        if DeleteMisdefined(gs, topo, s[1..]) {
          var k :| 0 <= k < |s[1..]| && !OneGroupIfAtomic(gs, topo, s[1..][k]) &&
            forall j :: 0 <= j < k ==> Removable(gs, topo, s[1..][j]);
          assert forall j :: 0 <= j < k + 1 ==> Removable(gs, topo, s[j]) by {
            forall j | 0 <= j < k + 1 ensures Removable(gs, topo, s[j]) {
              if j > 0 { assert s[j] == s[1..][j - 1]; }
            }
          }
          assert s[k + 1] == s[1..][k];
        }
        if DeleteMisdefined(gs, topo, s) {
          var k :| 0 <= k < |s| && !OneGroupIfAtomic(gs, topo, s[k]) &&
            forall j :: 0 <= j < k ==> Removable(gs, topo, s[j]);
          assert k > 0;
          assert s[1..][k - 1] == s[k];
          assert forall j :: 0 <= j < k - 1 ==> Removable(gs, topo, s[1..][j]) by {
            forall j | 0 <= j < k - 1 ensures Removable(gs, topo, s[1..][j]) {
              assert s[1..][j] == s[j + 1];
            }
          }
        }
      }
    }
  }

  /** Likewise for the addition checks. */
  lemma {:induction false} CheckInsertionsMisdefined(gs: seq<Group>, topo: Topology, s: seq<Stoich>)
    requires MolIdsIn(s, topo)
    ensures CheckInsertions(gs, topo, s) == Misdefined <==> AddMisdefined(gs, topo, s)
    decreases |s|
  {
    if s != [] {
      CheckInsertionsMisdefined(gs, topo, s[1..]);
      if OneGroupIfAtomic(gs, topo, s[0]) && Insertable(gs, topo, s[0]) {
        if AddMisdefined(gs, topo, s[1..]) {
          var k :| 0 <= k < |s[1..]| && !OneGroupIfAtomic(gs, topo, s[1..][k]) &&
            forall j :: 0 <= j < k ==> Insertable(gs, topo, s[1..][j]);
          assert forall j :: 0 <= j < k + 1 ==> Insertable(gs, topo, s[j]) by {
            forall j | 0 <= j < k + 1 ensures Insertable(gs, topo, s[j]) {
              if j > 0 { assert s[j] == s[1..][j - 1]; }
            }
          }
          assert s[k + 1] == s[1..][k];
        }
        if AddMisdefined(gs, topo, s) {
          var k :| 0 <= k < |s| && !OneGroupIfAtomic(gs, topo, s[k]) &&
            forall j :: 0 <= j < k ==> Insertable(gs, topo, s[j]);
          assert k > 0;
          assert s[1..][k - 1] == s[k];
          assert forall j :: 0 <= j < k - 1 ==> Insertable(gs, topo, s[1..][j]) by {
            forall j | 0 <= j < k - 1 ensures Insertable(gs, topo, s[1..][j]) {
              assert s[1..][j] == s[j + 1];
            }
          }
        }
      }
    }
  }

  /**
   * The reaction can go ahead in this direction: its reservoir is not empty,
   * every species it consumes can be deleted, every species it produces can
   * be inserted, and a swap finds an active atom to relabel.
   */
  predicate Realizable(p: seq<Particle>, gs: seq<Group>, topo: Topology, r: ReactionData, forward: bool)
    requires GroupsOk(gs, |p|) && WellFormed(r, topo)
  {
    !r.Empty(forward) &&
    AllRemovable(gs, topo, r.Molecules2Add(!forward)) &&
    AllInsertable(gs, topo, r.Molecules2Add(forward)) &&
    (r.swap ==> |FindAtoms(p, gs, SwapFrom(r, forward))| > 0)
  }

  /** Vectors that differ in at most the one slot a single record names are aligned. */
  lemma OneSlotAligned(a: seq<Particle>, b: seq<Particle>, gs: seq<Group>, recs: seq<GroupChange>)
    requires |a| == |b| && |recs| == 1 && recs[0].index < |gs| && |recs[0].atoms| == 1
    requires forall i :: 0 <= i < |a| && i != gs[recs[0].index].begin + recs[0].atoms[0] ==> a[i] == b[i]
    ensures Aligned(a, b, gs, recs)
  {
    assert Covers(gs, recs[0], gs[recs[0].index].begin + recs[0].atoms[0]);
  }

  /** The records of the change name every slot the pushed records name, in the new layout too. */
  lemma AlignedChange(a: seq<Particle>, b: seq<Particle>, gs: seq<Group>, hs: seq<Group>,
                      old_groups: seq<GroupChange>, pushed: seq<GroupChange>)
    requires SameShape(gs, hs) && Aligned(a, b, gs, pushed)
    ensures Aligned(a, b, hs, SortGroups(old_groups + pushed))
  {
    forall i | 0 <= i < |a| && a[i] != b[i] ensures Covered(hs, SortGroups(old_groups + pushed), i) {
      CoveredSuffix(gs, old_groups, pushed, i);
      CoveredPermuted(gs, old_groups + pushed, SortGroups(old_groups + pushed), i);
      CoveredShape(gs, hs, SortGroups(old_groups + pushed), i);
    }
  }

  /** The swap relabel, if the reaction is a swap, as the first phase of a proposal. */
  function Relabel(w: Work, topo: Topology, r: ReactionData, forward: bool, d: Draws): (o: Option<Work>)
    requires WorkOk(w, topo) && Fair(d) && WellFormed(r, topo) && w.pushed == []
    ensures o.None? <==> r.swap && |FindAtoms(w.p, w.gs, SwapFrom(r, forward))| == 0
    ensures o.Some? ==> WorkOk(o.value, topo) && o.value.gs == w.gs && |o.value.p| == |w.p|
    ensures o.Some? && w.p == w.op ==> Aligned(o.value.op, o.value.p, w.gs, o.value.pushed)
  {
    if r.swap then
      var o := SwapAtom(w, topo, r, forward, d);
      if o.Some? && w.p == w.op then
        OneSlotAligned(o.value.op, o.value.p, w.gs, o.value.pushed);
        o
      else o
    else Some(w)
  }

  /**
   * The part of `_move` after the checks: the swap relabel, then the
   * deletions and insertions, then the change with `dN` set and every
   * record sorted in.
   */
  function Apply(w: Work, change: Change, r: ReactionData, forward: bool, topo: Topology, d: Draws): (o: Attempt)
    requires WorkOk(w, topo) && Fair(d) && WellFormed(r, topo) && w.pushed == []
    requires AllRemovable(w.gs, topo, r.Molecules2Add(!forward)) && AllInsertable(w.gs, topo, r.Molecules2Add(forward))
    ensures !o.Thrown?
    ensures o.Aborted? <==> r.swap && |FindAtoms(w.p, w.gs, SwapFrom(r, forward))| == 0
    ensures o.Proposed? ==> |o.w.p| == |w.p| && WorkOk(o.w, topo)
  {
    var ws := Relabel(w, topo, r, forward, d);
    if ws.None? then Aborted
    else
      var v := Mutate(ws.value, topo, r, forward, d);
      Proposed(v, change.(dN := true, groups := SortGroups(change.groups + v.pushed)))
  }

  /**
   * A proposed state changes the groups by the reaction's stoichiometry and
   * nothing else, keeps the change's other fields, sorts in exactly the new
   * records, and, when the two spaces agreed and a swap cannot relabel an
   * atom that an atomic deletion moves, leaves them different only in slots
   * the change names.
   */
  lemma ApplyProposed(w: Work, change: Change, r: ReactionData, forward: bool, topo: Topology, d: Draws)
    requires WorkOk(w, topo) && Fair(d) && WellFormed(r, topo) && w.pushed == []
    requires AllRemovable(w.gs, topo, r.Molecules2Add(!forward)) && AllInsertable(w.gs, topo, r.Molecules2Add(forward))
    ensures var o := Apply(w, change, r, forward, topo, d);
      o.Proposed? ==>
        Balanced(w.gs, o.w.gs, topo, r.Molecules2Add(!forward), r.Molecules2Add(forward)) &&
        o.change.dV == change.dV && o.change.all == change.all && o.change.dN &&
        SortedBy(o.change.groups, IndexOf) &&
        multiset(o.change.groups) == multiset(change.groups) + multiset(o.w.pushed) &&
        (w.p == w.op && (r.swap ==> SwapClear(w.p, w.gs, SwapFrom(r, forward), r.Molecules2Add(!forward))) ==>
           Aligned(o.w.op, o.w.p, o.w.gs, o.change.groups))
  {
    var ws := Relabel(w, topo, r, forward, d);
    if ws.Some? {
      var v := Mutate(ws.value, topo, r, forward, d);
      assert Apply(w, change, r, forward, topo, d) == Proposed(v, change.(dN := true, groups := SortGroups(change.groups + v.pushed)));
      MutateBalanced(ws.value, topo, r, forward, d);
      if w.p == w.op && (r.swap ==> SwapClear(w.p, w.gs, SwapFrom(r, forward), r.Molecules2Add(!forward))) {
        ApplyAligned(w, change, r, forward, topo, d);
      }
    }
  }

  /** The alignment clause of `ApplyProposed`. */
  lemma ApplyAligned(w: Work, change: Change, r: ReactionData, forward: bool, topo: Topology, d: Draws)
    requires WorkOk(w, topo) && Fair(d) && WellFormed(r, topo) && w.pushed == []
    requires AllRemovable(w.gs, topo, r.Molecules2Add(!forward)) && AllInsertable(w.gs, topo, r.Molecules2Add(forward))
    requires w.p == w.op && (r.swap ==> SwapClear(w.p, w.gs, SwapFrom(r, forward), r.Molecules2Add(!forward)))
    ensures var o := Apply(w, change, r, forward, topo, d);
      o.Proposed? ==> Aligned(o.w.op, o.w.p, o.w.gs, o.change.groups)
  {
    var ws := Relabel(w, topo, r, forward, d);
    if ws.Some? {
      var v := Mutate(ws.value, topo, r, forward, d);
      assert Apply(w, change, r, forward, topo, d) == Proposed(v, change.(dN := true, groups := SortGroups(change.groups + v.pushed)));
      MutateBalanced(ws.value, topo, r, forward, d);
      if r.swap {
        SwappedSlotClear(w, ws.value, topo, r, forward, d);
        var rec := ws.value.pushed[0];
        MutateSlotAligned(ws.value, topo, r, forward, d, w.gs[rec.index].begin + rec.atoms[0]);
      }
      AlignedChange(v.op, v.p, w.gs, v.gs, change.groups, v.pushed);
    }
  }

  /** The slot a swap relabels, in two spaces that agreed, is the one difference, and a clear side's atomic groups do not hold it active. */
  lemma SwappedSlotClear(w: Work, v: Work, topo: Topology, r: ReactionData, forward: bool, d: Draws)
    requires WorkOk(w, topo) && Fair(d) && WellFormed(r, topo) && w.pushed == [] && r.swap && w.p == w.op
    requires SwapAtom(w, topo, r, forward, d) == Some(v)
    requires SwapClear(w.p, w.gs, SwapFrom(r, forward), r.Molecules2Add(!forward))
    ensures |v.pushed| == 1 && v.pushed[0].index < |w.gs| && |v.pushed[0].atoms| == 1
    ensures var slot := w.gs[v.pushed[0].index].begin + v.pushed[0].atoms[0];
      slot < |v.p| && DiffersAt(v.p, v.op, slot) && ClearOf(v.gs, r.Molecules2Add(!forward), slot)
  {
    var from := SwapFrom(r, forward);
    assert Swapped(w, v, topo, from, SwapTo(r, forward));
    var rec := v.pushed[|w.pushed|];
    var slot := w.gs[rec.index].begin + rec.atoms[0];
    assert w.p[slot].id == from;
  }

  /**
   * `_move` once the reaction r and the direction are drawn: the checks in
   * source order, then `Apply`. It yields a new state exactly when the
   * reaction is feasible, and throws exactly when the first failing check is
   * that of an atomic species without exactly one group; a proposed state
   * keeps the layout, changes the groups by the reaction's stoichiometry and
   * nothing else, and, when the two spaces agreed, leaves them different
   * only in slots the change names, unless the swap relabels an atom of an
   * atomic group the reaction deletes from.
   */
  function ProposeWith(p: seq<Particle>, op: seq<Particle>, gs: seq<Group>, change: Change,
                       r: ReactionData, forward: bool, topo: Topology, d: Draws, t: nat): (o: Attempt)
    requires GroupsOk(gs, |p|) && |op| == |p| && Consistent(gs, topo) && WellFormed(r, topo) && Fair(d)
    ensures o.Thrown? ==> o.error == OneGroupPerAtomic
    ensures o.Proposed? ==>
      |o.w.p| == |p| && |o.w.op| == |p| && GroupsOk(o.w.gs, |p|) && Consistent(o.w.gs, topo)
  {
    var v := Screen(gs, topo, r, forward);
    if v == Misdefined then Thrown(OneGroupPerAtomic)
    else if v == Infeasible then Aborted
    else Apply(Work(p, op, gs, [], 0.0, t), change, r, forward, topo, d)
  }

  /**
   * The outcome of `_move` for a drawn reaction: a new state exactly when the
   * reaction is feasible, and the error exactly when the first failing check
   * is that of an atomic species without exactly one group.
   */
  lemma ProposeWithOutcome(p: seq<Particle>, op: seq<Particle>, gs: seq<Group>, change: Change,
                           r: ReactionData, forward: bool, topo: Topology, d: Draws, t: nat)
    requires GroupsOk(gs, |p|) && |op| == |p| && Consistent(gs, topo) && WellFormed(r, topo) && Fair(d)
    ensures var o := ProposeWith(p, op, gs, change, r, forward, topo, d, t);
      (o.Proposed? <==> Realizable(p, gs, topo, r, forward)) &&
      (o.Thrown? <==>
         !r.Empty(forward) &&
         (DeleteMisdefined(gs, topo, r.Molecules2Add(!forward)) ||
          (AllRemovable(gs, topo, r.Molecules2Add(!forward)) && AddMisdefined(gs, topo, r.Molecules2Add(forward)))))
  {
    CheckRemovalsMisdefined(gs, topo, r.Molecules2Add(!forward));
    CheckInsertionsMisdefined(gs, topo, r.Molecules2Add(forward));
  }

  /**
   * A state `_move` proposes keeps the layout, changes the groups by the
   * reaction's stoichiometry and nothing else, and, when the two spaces
   * agreed, leaves them different only in slots the change names, unless the
   * swap relabels an atom of an atomic group the reaction deletes from.
   */
  lemma ProposeWithProposed(p: seq<Particle>, op: seq<Particle>, gs: seq<Group>, change: Change,
                            r: ReactionData, forward: bool, topo: Topology, d: Draws, t: nat)
    requires GroupsOk(gs, |p|) && |op| == |p| && Consistent(gs, topo) && WellFormed(r, topo) && Fair(d)
    ensures var o := ProposeWith(p, op, gs, change, r, forward, topo, d, t);
      o.Proposed? ==>
        Balanced(gs, o.w.gs, topo, r.Molecules2Add(!forward), r.Molecules2Add(forward)) &&
        o.change.dV == change.dV && o.change.all == change.all && o.change.dN &&
        SortedBy(o.change.groups, IndexOf) &&
        multiset(o.change.groups) == multiset(change.groups) + multiset(o.w.pushed) &&
        (p == op && (r.swap ==> SwapClear(p, gs, SwapFrom(r, forward), r.Molecules2Add(!forward))) ==>
           Aligned(o.w.op, o.w.p, o.w.gs, o.change.groups))
  {
    if Screen(gs, topo, r, forward) == Feasible {
      var w := Work(p, op, gs, [], 0.0, t);
      assert ProposeWith(p, op, gs, change, r, forward, topo, d, t) == Apply(w, change, r, forward, topo, d);
      ApplyProposed(w, change, r, forward, topo, d);
    }
  }

  /**
   * `_move`: draw 0 picks the reaction, draw 1 the direction, and the phases
   * go on from draw 2; an empty reaction list, and only that, throws the
   * "no reactions" error.
   */
  function Propose(p: seq<Particle>, op: seq<Particle>, gs: seq<Group>, change: Change,
                   reactions: seq<ReactionData>, topo: Topology, d: Draws): (o: Attempt)
    requires GroupsOk(gs, |p|) && |op| == |p| && Consistent(gs, topo) && AllWellFormed(reactions, topo) && Fair(d)
    ensures o == Thrown(NoReactions) <==> |reactions| == 0
  {
    if |reactions| == 0 then Thrown(NoReactions)
    else ProposeWith(p, op, gs, change, reactions[d.pick(0, |reactions|)], d.pick(1, 2) == 1, topo, d, 2)
  }
}
