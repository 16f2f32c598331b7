/**
 java.util.Random as a sequence of draws, of which nothing is known; nextInt takes them in turn. It answers below its
 bound, so a draw that is not below it counts as zero.
 */
module JavaRandom {

  type Draws = nat -> nat

  /** What the k-th draw gives below a bound: any value below it, for a suitable draw. */
  function Pick(draw: Draws, k: nat, bound: int): (r: nat)
    ensures bound > 0 ==> r < bound
  {
    if draw(k) < bound then draw(k) else 0
  }

  class Random {
    const draw: Draws
    var next: nat

    constructor (draw: Draws)
      ensures this.draw == draw && next == 0
    {
      this.draw, this.next := draw, 0;
    }

    method NextInt(bound: int) returns (r: nat)
      requires bound > 0
      modifies this
      ensures r == Pick(draw, old(next), bound) && next == old(next) + 1
    {
      r := if draw(next) < bound then draw(next) else 0;
      next := next + 1;
    }
  }

  // ----- draws for given numbers

  /** Draws that are these numbers from k on. */
  ghost function AsDraws(k: nat, ds: seq<nat>): Draws
  {
    (i: nat) => if k <= i < k + |ds| then ds[i - k] else 0
  }

  /** These draws stand in the sequence from k on. */
  ghost predicate DrawnAt(draw: Draws, k: nat, ds: seq<nat>)
  {
    forall i :: 0 <= i < |ds| ==> draw(k + i) == ds[i]
  }

  lemma {:induction false} DrawnAs(draw: Draws, k: nat, ds: seq<nat>, i: nat)
    requires DrawnAt(draw, k, ds) && i < |ds|
    ensures draw(k + i) == ds[i]
  {
  }

  lemma {:induction false} DrawnParts(draw: Draws, k: nat, a: seq<nat>, b: seq<nat>)
    requires DrawnAt(draw, k, a + b)
    ensures DrawnAt(draw, k, a) && DrawnAt(draw, k + |a|, b)
  {
    forall i | 0 <= i < |a|
      ensures draw(k + i) == a[i]
    {
      assert (a + b)[i] == a[i];
    }
    forall i | 0 <= i < |b|
      ensures draw(k + |a| + i) == b[i]
    {
      assert draw(k + (|a| + i)) == (a + b)[|a| + i];
    }
  }

  lemma {:induction false} AsDrawsLater(a: seq<nat>, b: seq<nat>, k: nat, ds: seq<nat>)
    requires k + |ds| <= |a| && DrawnAt(AsDraws(0, a), k, ds)
    ensures DrawnAt(AsDraws(0, a + b), k, ds)
  {
    forall i | 0 <= i < |ds|
      ensures AsDraws(0, a + b)(k + i) == ds[i]
    {
      assert AsDraws(0, a)(k + i) == ds[i];
    }
  }
}
