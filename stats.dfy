/** The score accumulators of src/game.rs: `Stat` keeps the last value and the running mean. */
module Stats {

  function Sum(xs: seq<real>): real {
    if xs == [] then 0.0 else Sum(xs[..|xs| - 1]) + xs[|xs| - 1]
  }

  /** The arithmetic mean: the value `average` is meant to hold. */
  function Mean(xs: seq<real>): real
    requires xs != []
  {
    Sum(xs) / |xs| as real
  }

  /** One step of the incremental mean, with `attempts` already counting the new value. */
  function Advance(average: real, attempts: nat, value: real): real
    requires attempts > 0
  {
    average + (value - average) / attempts as real
  }

  /** The value `average` holds after `add_value` was given each element of `xs` in turn,
      starting from zero. */
  function Averaged(xs: seq<real>): real {
    if xs == [] then 0.0 else Advance(Averaged(xs[..|xs| - 1]), |xs|, xs[|xs| - 1])
  }

  /** Over the reals the incremental update computes exactly the arithmetic mean. */
  lemma {:induction false} AveragedIsMean(xs: seq<real>)
    requires xs != []
    ensures Averaged(xs) == Mean(xs)
  {
    var n := |xs|;
    var init, x := xs[..n - 1], xs[n - 1];
    if n == 1 {
      assert init == [];
      assert Sum(xs) == x;
      assert Averaged(xs) == Advance(0.0, 1, x) == x;
    } else {
      AveragedIsMean(init);
      var s := Sum(init);
      var k := (n - 1) as real;
      var m := n as real;
      var a := s / k;
      assert a * k == s;
      calc {
        Averaged(xs);
        a + (x - a) / m;
        (a * m + (x - a)) / m;
        { assert a * m - a == a * k; }
        (a * k + x) / m;
        (s + x) / m;
        Mean(xs);
      }
    }
  }

  class Stat {
    var last: real
    var average: real
    var attempts: nat
    /** The values given to `AddValue` so far, oldest first. */
    ghost var values: seq<real>

    ghost predicate Valid()
      reads this
    {
      attempts == |values| &&
      average == Averaged(values) &&
      last == (if values == [] then 0.0 else values[|values| - 1])
    }

    /** The zero-initialised statistic a freshly loaded game starts with. */
    constructor ()
      ensures Valid() && values == []
      ensures last == 0.0 && average == 0.0 && attempts == 0
    {
      last, average, attempts := 0.0, 0.0, 0;
      values := [];
    }

    /** `add_value`: counts one more attempt, records the value as the last one and moves
        the average towards it by a 1/attempts share. */
    method AddValue(value: real)
      requires Valid()
      modifies this
      ensures Valid() && values == old(values) + [value]
      ensures attempts == old(attempts) + 1 && last == value
      ensures average == Advance(old(average), attempts, value)
    {
      attempts := attempts + 1;
      last := value;
      average := average + (value - average) / attempts as real;
      values := values + [value];
      assert values[..|values| - 1] == old(values);
    }
  }

  /** Whatever was added, a valid statistic holds the mean of all values added so far. */
  lemma AverageIsMean(s: Stat)
    requires s.Valid() && s.attempts > 0
    ensures s.average == Mean(s.values)
  {
    AveragedIsMean(s.values);
  }
}
