/**
 * The running average used by the moves and analyses for their statistics:
 * a sum and a sample count. `a += x` adds a sample, `a.cnt` is the number
 * of samples and `a.avg()` the mean.
 */
module Stats {

  datatype Average = Average(sum: real, cnt: nat) {

    /** `+= x`: one more sample of value x. */
    function Add(x: real): (a: Average)
      ensures a.cnt == cnt + 1 && a.sum - sum == x
    {
      Average(sum + x, cnt + 1)
    }

    /** `avg()`: the mean of the samples, defined once at least one was taken. */
    function Avg(): real
      requires cnt > 0
    {
      sum / (cnt as real)
    }
  }

  /** A freshly constructed accumulator, as `std::map::operator[]` creates it. */
  const Empty := Average(0.0, 0)

  /** The sum of a sequence of samples, left to right. */
  function Sum(xs: seq<real>): real
  {
    if xs == [] then 0.0 else xs[0] + Sum(xs[1..])
  }

  lemma {:induction false} SumAppend(xs: seq<real>, x: real)
    ensures Sum(xs + [x]) == Sum(xs) + x
  {
    if xs == [] {
      assert [x][1..] == [];
    } else {
      assert (xs + [x])[1..] == xs[1..] + [x];
      SumAppend(xs[1..], x);
    }
  }

  /** The accumulator after `+=` of every sample of xs, in order, starting from Empty. */
  function Tally(xs: seq<real>): (a: Average)
    ensures a.cnt == |xs|
  {
    if xs == [] then Empty else Tally(xs[..|xs| - 1]).Add(xs[|xs| - 1])
  }

  /** The accumulated sum is the sum of all samples. */
  lemma {:induction false} TallySum(xs: seq<real>)
    ensures Tally(xs).sum == Sum(xs)
  {
    if xs != [] {
      var init := xs[..|xs| - 1];
      TallySum(init);
      SumAppend(init, xs[|xs| - 1]);
      assert init + [xs[|xs| - 1]] == xs;
    }
  }

  /** Tally unfolds one sample at the end: what an extra `+=` does. */
  lemma TallySnoc(xs: seq<real>, x: real)
    ensures Tally(xs + [x]) == Tally(xs).Add(x)
  {
    assert (xs + [x])[..|xs + [x]| - 1] == xs;
  }
}
