/**
 * Move scheduling and the bookkeeping of the displacement moves.
 *
 * Every move has the private hooks `_move`, `_accept`, `_reject` and an
 * overridable `bias`; `SpeciationMove` (module Speciation) and
 * `DisplacementMove` here give them as their `Move`, `Accept`, `Reject` and
 * `Bias` members. A `Propagator` draws which move runs next, and an
 * `MCSimulation` keeps an accepted and a trial state.
 */
module Moves {
  import opened Stats
  import opened Space

  /** The moves that translate or rotate and keep the mean squared displacement. */
  datatype DisplacementKind = TranslateRotate | BiasedTranslateRotate | QuadrantJump

  /** How a proposal of a displacement move ended: accepted with its squared displacement, or rejected. */
  datatype Verdict = Accepted(sqd: real) | Rejected

  /** The sample each verdict adds to `msqd`: the displacement on accept, 0 on reject. */
  function SampleOf(v: Verdict): real
  {
    if v.Accepted? then v.sqd else 0.0
  }

  /** `msqd` after the given verdicts, in order. */
  function Msqd(vs: seq<Verdict>): (a: Average)
  {
    if vs == [] then Empty else Msqd(vs[..|vs| - 1]).Add(SampleOf(vs[|vs| - 1]))
  }

  /** The accepted displacements, in order. */
  function AcceptedSqd(vs: seq<Verdict>): (xs: seq<real>)
  {
    if vs == [] then []
    else AcceptedSqd(vs[..|vs| - 1]) + (if vs[|vs| - 1].Accepted? then [vs[|vs| - 1].sqd] else [])
  }

  function CountAccepted(vs: seq<Verdict>): nat
  {
    if vs == [] then 0 else CountAccepted(vs[..|vs| - 1]) + (if vs[|vs| - 1].Accepted? then 1 else 0)
  }

  function CountRejected(vs: seq<Verdict>): nat
  {
    if vs == [] then 0 else CountRejected(vs[..|vs| - 1]) + (if vs[|vs| - 1].Rejected? then 1 else 0)
  }

  /**
   * `msqd` counts every accepted and every rejected proposal, and sums
   * exactly the accepted displacements.
   */
  lemma {:induction false} MsqdCounts(vs: seq<Verdict>)
    ensures Msqd(vs).cnt == CountAccepted(vs) + CountRejected(vs)
    ensures Msqd(vs).sum == Sum(AcceptedSqd(vs))
    ensures |AcceptedSqd(vs)| == CountAccepted(vs)
  {
    if vs != [] {
      var init, last := vs[..|vs| - 1], vs[|vs| - 1];
      MsqdCounts(init);
      if last.Accepted? {
        SumAppend(AcceptedSqd(init), last.sqd);
      } else {
        assert AcceptedSqd(vs) == AcceptedSqd(init) + [];
        assert AcceptedSqd(init) + [] == AcceptedSqd(init);
      }
    }
  }

  /**
   * `TranslateRotate`, `BiasedTranslateRotate` and `QuadrantJump`: `_move`
   * leaves the squared displacement of its proposal in `sqd`; `_accept`
   * adds it to `msqd` and `_reject` adds 0.
   */
  class DisplacementMove {
    const kind: DisplacementKind
    var sqd: real
    var msqd: Average
    /** The verdicts so far, the history `msqd` summarises. */
    ghost var verdicts: seq<Verdict>

    ghost predicate Valid()
      reads this
    {
      msqd == Msqd(verdicts)
    }

    constructor (k: DisplacementKind)
      ensures Valid() && kind == k && msqd == Empty && verdicts == []
    {
      kind := k;
      sqd := 0.0;
      msqd := Empty;
      verdicts := [];
    }

    /** `_move`, as far as the bookkeeping sees it: the proposal displaced by a squared distance d. */
    method Move(d: real)
      modifies this`sqd
      ensures sqd == d
    {
      sqd := d;
    }

    /** `_accept`: `msqd += _sqd`. */
    method Accept()
      requires Valid()
      modifies this`msqd, this`verdicts
      ensures Valid() && verdicts == old(verdicts) + [Accepted(sqd)]
    {
      msqd := msqd.Add(sqd);
      verdicts := verdicts + [Accepted(sqd)];
      assert verdicts[..|verdicts| - 1] == old(verdicts);
    }

    /** `_reject`: `msqd += 0`. */
    method Reject()
      requires Valid()
      modifies this`msqd, this`verdicts
      ensures Valid() && verdicts == old(verdicts) + [Rejected]
    {
      msqd := msqd.Add(0.0);
      verdicts := verdicts + [Rejected];
      assert verdicts[..|verdicts| - 1] == old(verdicts);
    }
  }

  /**
   * The list of moves with one weight per move, and the repeat count. The
   * weighted draw is supplied by the caller as an index (`std::discrete_distribution`
   * over the weights).
   */
  datatype Propagator<M> = Propagator(vec: seq<M>, w: seq<real>, repeat: int) {

    /**
     * `sample()`: the position of the drawn move, `|vec|` standing for
     * `vec.end()` when there is no move. A non-empty list must carry one
     * weight per move, and the draw then falls on one of them.
     */
    function Sample(draw: nat): (r: nat)
      requires vec != [] ==> |w| == |vec| && draw < |w|
      ensures r == |vec| <==> vec == []
      ensures vec != [] ==> r < |vec| && r == draw
    {
      if vec != [] then draw else |vec|
    }
  }

  /** An energy function: opaque, nothing here evaluates it. */
  datatype Hamiltonian = Hamiltonian(terms: seq<string>)

  /** `State`: a space and the Hamiltonian acting on it. */
  class State {
    const spc: Space
    const pot: Hamiltonian

    constructor (particles: seq<Particle>, gs: seq<Group>, h: Hamiltonian)
      requires GroupsOk(gs, |particles|)
      ensures spc.Valid() && fresh(spc) && fresh(spc.p)
      ensures spc.p[..] == particles && spc.groups == gs && pot == h
    {
      spc := new Space(particles, gs);
      pot := h;
    }
  }

  /**
   * `MCSimulation`: `state1` is the accepted state and `state2` the trial
   * state, built alike but as separate objects; every accessor shows the
   * accepted state.
   */
  class MCSimulation {
    const state1: State
    const state2: State
    var moves: Propagator<string>

    ghost predicate Valid()
      reads this, state1, state2
    {
      state1 != state2 && state1.spc != state2.spc && state1.spc.p != state2.spc.p
    }

    constructor (particles: seq<Particle>, gs: seq<Group>, h: Hamiltonian, schedule: Propagator<string>)
      requires GroupsOk(gs, |particles|)
      ensures Valid() && moves == schedule
      ensures state1.spc.p[..] == particles && state2.spc.p[..] == particles
      ensures state1.spc.groups == gs && state2.spc.groups == gs && state1.pot == h && state2.pot == h
    {
      state1 := new State(particles, gs, h);
      state2 := new State(particles, gs, h);
      moves := schedule;
    }

    /** `pot()`. */
    function Pot(): (h: Hamiltonian)
      reads this, state1
      ensures h == state1.pot
    {
      state1.pot
    }

    /** `space()`. */
    function CurrentSpace(): (s: Space)
      reads this
      ensures s == state1.spc
    {
      state1.spc
    }

    /** `particles()`. */
    function Particles(): (ps: seq<Particle>)
      reads this, state1, state1.spc, state1.spc.p
      ensures ps == state1.spc.p[..]
    {
      state1.spc.p[..]
    }
  }

  /**
   * Whatever the trial state holds, the accessors read the same: two
   * simulations sharing their accepted state agree on all of them.
   */
  lemma AccessorsIgnoreTrial(a: MCSimulation, b: MCSimulation)
    requires a.state1 == b.state1
    ensures a.Pot() == b.Pot() && a.CurrentSpace() == b.CurrentSpace() && a.Particles() == b.Particles()
  {
  }
}
