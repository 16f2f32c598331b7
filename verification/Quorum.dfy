/**
 Sampling of quorums from a network with malicious nodes: the first q nodes of a reshuffled array, over and over.
 Samples are a function of the draws behind the shuffles; the samples some draws give are exactly those in range.
 */
module Quorum {
  import opened JavaRandom

  // ----- counting good nodes

  ghost function Good(s: seq<bool>): (k: nat)
    ensures k <= |s|
  {
    if s == [] then 0 else (if s[0] then 1 else 0) + Good(s[1..])
  }

  lemma {:induction false} GoodConcat(a: seq<bool>, b: seq<bool>)
    ensures Good(a + b) == Good(a) + Good(b)
    decreases |a|
  {
    if a == [] {
      assert a + b == b;
    } else {
      assert (a + b)[1..] == a[1..] + b;
      GoodConcat(a[1..], b);
    }
  }

  lemma {:induction false} GoodIsMultiplicity(s: seq<bool>)
    ensures Good(s) == multiset(s)[true] && |s| - Good(s) == multiset(s)[false]
    decreases |s|
  {
    if s != [] {
      GoodIsMultiplicity(s[1..]);
      assert s == [s[0]] + s[1..];
    }
  }

  function Max(a: int, b: int): int { if a > b then a else b }

  function Min(a: int, b: int): int { if a < b then a else b }

  /** The range of good nodes among the first q of n nodes, m of them malicious. */
  ghost predicate InRange(n: nat, m: nat, q: nat, good: int)
  {
    Max(0, q - m) <= good <= Min(q, n - m)
  }

  /** Whatever the arrangement, a sample lies in the range. */
  lemma {:induction false} SampleInRange(s: seq<bool>, q: nat)
    requires q <= |s|
    ensures InRange(|s|, |s| - Good(s), q, Good(s[..q]))
  {
    assert s == s[..q] + s[q..];
    GoodConcat(s[..q], s[q..]);
  }

  ghost function Repeat(b: bool, k: nat): (s: seq<bool>)
    ensures |s| == k
  {
    seq(k, _ => b)
  }

  lemma {:induction false} GoodRepeat(b: bool, k: nat)
    ensures Good(Repeat(b, k)) == if b then k else 0
    decreases k
  {
    if k > 0 {
      assert Repeat(b, k)[1..] == Repeat(b, k - 1);
      GoodRepeat(b, k - 1);
    }
  }

  lemma {:induction false} SameGoodSameNodes(s: seq<bool>, t: seq<bool>)
    requires |s| == |t| && Good(s) == Good(t)
    ensures multiset(s) == multiset(t)
  {
    GoodIsMultiplicity(s);
    GoodIsMultiplicity(t);
    assert forall b :: multiset(s)[b] == multiset(t)[b];
  }

  /** The range is exact: every value in it is the sample of some rearrangement. */
  lemma {:induction false} RangeAttained(s: seq<bool>, q: nat, good: nat) returns (t: seq<bool>)
    requires q <= |s| && InRange(|s|, |s| - Good(s), q, good)
    ensures |t| == |s| && multiset(t) == multiset(s) && Good(t[..q]) == good
  {
    var m := |s| - Good(s);
    var a, b := Repeat(true, good), Repeat(false, q - good);
    var c, d := Repeat(true, Good(s) - good), Repeat(false, m - (q - good));
    t := (a + b) + (c + d);
    GoodRepeat(true, good);
    GoodRepeat(false, q - good);
    GoodRepeat(true, Good(s) - good);
    GoodRepeat(false, m - (q - good));
    GoodConcat(a, b);
    GoodConcat(c, d);
    GoodConcat(a + b, c + d);
    assert t[..q] == a + b;
    assert |t| == |s|;
    SameGoodSameNodes(s, t);
  }

  // ----- shuffling

  /** A rearrangement of the nodes. */
  ghost predicate Rearranged(t: seq<bool>, s: seq<bool>)
  {
    |t| == |s| && multiset(t) == multiset(s)
  }

  lemma {:induction false} RearrangedExactly(t: seq<bool>, s: seq<bool>)
    ensures Rearranged(t, s) <==> |t| == |s| && Good(t) == Good(s)
  {
    GoodIsMultiplicity(s);
    GoodIsMultiplicity(t);
    if |t| == |s| && Good(t) == Good(s) { SameGoodSameNodes(s, t); }
  }

  function Swap(s: seq<bool>, a: nat, b: nat): (t: seq<bool>)
    requires a < |s| && b < |s|
    ensures |t| == |s|
  {
    s[a := s[b]][b := s[a]]
  }

  lemma {:induction false} SwapRearranges(s: seq<bool>, a: nat, b: nat)
    requires a < |s| && b < |s|
    ensures Good(Swap(s, a, b)) == Good(s)
  {
    assert multiset(Swap(s, a, b)) == multiset(s);
    RearrangedExactly(Swap(s, a, b), s);
  }

  /** Collections.shuffle from place i down: each place takes the node of a place at or below it. */
  ghost function Shuffled(s: seq<bool>, i: nat, draw: Draws, k: nat): (t: seq<bool>)
    requires i <= |s|
    ensures |t| == |s|
    decreases i
  {
    if i <= 1 then s else Shuffled(Swap(s, i - 1, Pick(draw, k, i)), i - 1, draw, k + 1)
  }

  /** The draws a shuffle takes. */
  ghost function Swaps(n: nat): nat
  {
    if n <= 1 then 0 else n - 1
  }

  lemma {:induction false} ShuffledGood(s: seq<bool>, i: nat, draw: Draws, k: nat)
    requires i <= |s|
    ensures Good(Shuffled(s, i, draw, k)) == Good(s)
    decreases i
  {
    if i > 1 {
      SwapRearranges(s, i - 1, Pick(draw, k, i));
      ShuffledGood(Swap(s, i - 1, Pick(draw, k, i)), i - 1, draw, k + 1);
    }
  }

  lemma {:induction false} SameHeadGood(s: seq<bool>, t: seq<bool>, i: nat)
    requires i <= |s| == |t| && Good(s) == Good(t) && s[i..] == t[i..]
    ensures Good(s[..i]) == Good(t[..i])
  {
    assert s == s[..i] + s[i..] && t == t[..i] + t[i..];
    GoodConcat(s[..i], s[i..]);
    GoodConcat(t[..i], t[i..]);
  }

  /** Rows of equal numbers of good nodes: what ends the one is found in the other. */
  lemma {:induction false} FindNode(s: seq<bool>, t: seq<bool>) returns (r: nat)
    requires |s| == |t| > 0 && Good(s) == Good(t)
    ensures r < |s| && s[r] == t[|t| - 1]
  {
    RearrangedExactly(t, s);
    assert t[|t| - 1] in multiset(t);
    assert t[|t| - 1] in s;
    r :| r < |s| && s[r] == t[|t| - 1];
  }

  /** Draws that shuffle s to t, where they already agree from place i on. */
  lemma {:induction false} ShuffleDraws(s: seq<bool>, t: seq<bool>, i: nat, k: nat) returns (ds: seq<nat>)
    requires i <= |s| == |t| && Good(s) == Good(t) && s[i..] == t[i..]
    ensures |ds| == Swaps(i)
    ensures forall draw :: DrawnAt(draw, k, ds) ==> Shuffled(s, i, draw, k) == t
    decreases i
  {
    SameHeadGood(s, t, i);
    if i == 0 {
      ds := [];
      assert s == s[0..] == t[0..] == t;
    } else {
      var r := FindNode(s[..i], t[..i]);
      assert s[r] == s[..i][r] == t[..i][i - 1] == t[i - 1];
      if i == 1 {
        ds := [];
        assert s == [s[0]] + s[1..] == [t[0]] + t[1..] == t;
      } else {
        var s' := Swap(s, i - 1, r);
        SwapRearranges(s, i - 1, r);
        assert s'[i - 1..] == [s'[i - 1]] + s[i..] == t[i - 1..];
        var rest := ShuffleDraws(s', t, i - 1, k + 1);
        ds := [r] + rest;
        forall draw | DrawnAt(draw, k, ds)
          ensures Shuffled(s, i, draw, k) == t
        {
          DrawnParts(draw, k, [r], rest);
          DrawnAs(draw, k, [r], 0);
        }
      }
    }
  }

  /** Shuffling can produce exactly the rearrangements. */
  lemma {:induction false} ShufflesExactly(s: seq<bool>, t: seq<bool>, k: nat)
    ensures (exists draw :: Shuffled(s, |s|, draw, k) == t) <==> Rearranged(t, s)
  {
    RearrangedExactly(t, s);
    if draw :| Shuffled(s, |s|, draw, k) == t {
      ShuffledGood(s, |s|, draw, k);
    }
    if Rearranged(t, s) {
      var ds := ShuffleDraws(s, t, |s|, k);
      assert DrawnAt(AsDraws(k, ds), k, ds);
      assert Shuffled(s, |s|, AsDraws(k, ds), k) == t;
    }
  }

  // ----- samples from draws

  /** The nodes after c shuffles, and the next draw. */
  ghost function After(s: seq<bool>, draw: Draws, k: nat, c: nat): (r: (seq<bool>, nat))
    ensures |r.0| == |s|
    decreases c
  {
    if c == 0 then (s, k) else After(Shuffled(s, |s|, draw, k), draw, k + Swaps(|s|), c - 1)
  }

  /** The good nodes of c samples of q nodes, with a shuffle after each. */
  ghost function Samples(s: seq<bool>, draw: Draws, k: nat, q: nat, c: nat): (xs: seq<nat>)
    requires q <= |s|
    ensures |xs| == c
    decreases c
  {
    if c == 0 then []
    else [Good(s[..q])] + Samples(Shuffled(s, |s|, draw, k), draw, k + Swaps(|s|), q, c - 1)
  }

  lemma {:induction false} AfterConcat(s: seq<bool>, draw: Draws, k: nat, a: nat, b: nat)
    ensures var (t, l) := After(s, draw, k, a); After(s, draw, k, a + b) == After(t, draw, l, b)
    decreases a
  {
    if a > 0 {
      AfterConcat(Shuffled(s, |s|, draw, k), draw, k + Swaps(|s|), a - 1, b);
    }
  }

  lemma {:induction false} SamplesConcat(s: seq<bool>, draw: Draws, k: nat, q: nat, a: nat, b: nat)
    requires q <= |s|
    ensures var (t, l) := After(s, draw, k, a);
      Samples(s, draw, k, q, a + b) == Samples(s, draw, k, q, a) + Samples(t, draw, l, q, b)
    decreases a
  {
    if a > 0 {
      SamplesConcat(Shuffled(s, |s|, draw, k), draw, k + Swaps(|s|), q, a - 1, b);
    }
  }

  /** One more sample, and the shuffle after it. */
  lemma {:induction false} SamplesMore(s: seq<bool>, draw: Draws, k: nat, q: nat, c: nat, t: seq<bool>, l: nat)
    requires q <= |s| && After(s, draw, k, c) == (t, l)
    ensures Samples(s, draw, k, q, c + 1) == Samples(s, draw, k, q, c) + [Good(t[..q])]
    ensures After(s, draw, k, c + 1) == (Shuffled(t, |t|, draw, l), l + Swaps(|t|))
  {
    SamplesConcat(s, draw, k, q, c, 1);
    AfterConcat(s, draw, k, c, 1);
    var u, m := Shuffled(t, |t|, draw, l), l + Swaps(|t|);
    assert Samples(u, draw, m, q, 0) == [] && After(u, draw, m, 0) == (u, m);
  }

  lemma {:induction false} AfterGood(s: seq<bool>, draw: Draws, k: nat, c: nat)
    ensures Good(After(s, draw, k, c).0) == Good(s)
    decreases c
  {
    if c > 0 {
      ShuffledGood(s, |s|, draw, k);
      AfterGood(Shuffled(s, |s|, draw, k), draw, k + Swaps(|s|), c - 1);
    }
  }

  /** All these samples are in the range of a network, and the first is that of its nodes as they stand. */
  ghost predicate Possible(s: seq<bool>, q: nat, xs: seq<nat>)
    requires q <= |s|
  {
    && (forall i :: 0 <= i < |xs| ==> InRange(|s|, |s| - Good(s), q, xs[i]))
    && (xs != [] ==> xs[0] == Good(s[..q]))
  }

  lemma {:induction false} SamplesPossible(s: seq<bool>, draw: Draws, k: nat, q: nat, c: nat)
    requires q <= |s|
    ensures Possible(s, q, Samples(s, draw, k, q, c))
    decreases c
  {
    if c > 0 {
      var t := Shuffled(s, |s|, draw, k);
      ShuffledGood(s, |s|, draw, k);
      SamplesPossible(t, draw, k + Swaps(|s|), q, c - 1);
      SampleInRange(s, q);
    }
  }

  /** Draws that give these samples. */
  lemma {:induction false} SampleDraws(s: seq<bool>, k: nat, q: nat, xs: seq<nat>) returns (ds: seq<nat>)
    requires q <= |s| && Possible(s, q, xs)
    ensures forall draw :: DrawnAt(draw, k, ds) ==> Samples(s, draw, k, q, |xs|) == xs
    decreases |xs|
  {
    if |xs| <= 1 {
      ds := [];
      assert forall draw :: |xs| == 1 ==> Samples(s, draw, k, q, 1) == [Good(s[..q])];
    } else {
      var t := RangeAttained(s, q, xs[1]);
      RearrangedExactly(t, s);
      var now := ShuffleDraws(s, t, |s|, k);
      var later := SampleDraws(t, k + Swaps(|s|), q, xs[1..]);
      ds := now + later;
      forall draw | DrawnAt(draw, k, ds)
        ensures Samples(s, draw, k, q, |xs|) == xs
      {
        DrawnParts(draw, k, now, later);
      }
    }
  }

  /** The samples some draws give are exactly those in range that begin with the nodes as they stand. */
  lemma {:induction false} SamplesExactly(s: seq<bool>, k: nat, q: nat, xs: seq<nat>)
    requires q <= |s|
    ensures (exists draw :: Samples(s, draw, k, q, |xs|) == xs) <==> Possible(s, q, xs)
  {
    if draw :| Samples(s, draw, k, q, |xs|) == xs {
      SamplesPossible(s, draw, k, q, |xs|);
    }
    if Possible(s, q, xs) {
      var ds := SampleDraws(s, k, q, xs);
      assert DrawnAt(AsDraws(k, ds), k, ds);
      assert Samples(s, AsDraws(k, ds), k, q, |xs|) == xs;
    }
  }

  // ----- the network

  /** The nodes before they are shuffled for the first time: the good ones, then a tenth of malicious ones. */
  ghost function Laid(netSize: nat): (s: seq<bool>)
  {
    Repeat(true, netSize - netSize / 10) + Repeat(false, netSize / 10)
  }

  /** At most a tenth of the nodes is malicious, and one more would be above a tenth. */
  lemma {:induction false} LaidGood(netSize: nat)
    ensures var s := Laid(netSize); var m := |s| - Good(s);
      |s| == netSize && m == netSize / 10 && 10 * m <= netSize < 10 * (m + 1)
  {
    GoodConcat(Repeat(true, netSize - netSize / 10), Repeat(false, netSize / 10));
    GoodRepeat(true, netSize - netSize / 10);
    GoodRepeat(false, netSize / 10);
  }

  /** The first nodes are good, the others malicious. */
  method Lay(net: array<bool>)
    modifies net
    ensures net[..] == Laid(net.Length)
  {
    var malCount := net.Length / 10;
    var i := 0;
    while i < net.Length - malCount
      invariant 0 <= i <= net.Length - malCount
      invariant forall k :: 0 <= k < i ==> net[k]
    {
      net[i] := true;
      i := i + 1;
    }
    var j := net.Length - malCount;
    while j < net.Length
      invariant net.Length - malCount <= j <= net.Length
      invariant forall k :: 0 <= k < net.Length - malCount ==> net[k]
      invariant forall k :: net.Length - malCount <= k < j ==> !net[k]
    {
      net[j] := false;
      j := j + 1;
    }
    assert net[..] == Laid(net.Length);
  }

  class Network {
    /** The nodes; true is a good one. */
    const net: array<bool>

    ghost predicate Valid(netSize: nat)
      reads net
    {
      net.Length == netSize && Good(net[..]) == netSize - netSize / 10
    }

    constructor (netSize: nat, rand: Random)
      modifies rand
      ensures Valid(netSize) && fresh(net)
      ensures var m := netSize - Good(net[..]); 10 * m <= netSize < 10 * (m + 1)
      ensures net[..] == Shuffled(Laid(netSize), netSize, rand.draw, old(rand.next))
      ensures rand.next == old(rand.next) + Swaps(netSize)
    {
      net := new bool[netSize];
      new;
      Lay(net);
      LaidGood(netSize);
      Reshuffle(rand);
    }

    /** Collections.shuffle on the array. */
    method Reshuffle(rand: Random)
      modifies net, rand
      ensures net[..] == Shuffled(old(net[..]), net.Length, rand.draw, old(rand.next))
      ensures rand.next == old(rand.next) + Swaps(net.Length)
      ensures Rearranged(net[..], old(net[..])) && Good(net[..]) == old(Good(net[..]))
    {
      ghost var s, k := net[..], rand.next;
      var i := net.Length;
      while i > 1
        invariant 0 <= i <= net.Length
        invariant Shuffled(net[..], i, rand.draw, rand.next) == Shuffled(s, net.Length, rand.draw, k)
        invariant rand.next + Swaps(i) == k + Swaps(net.Length)
      {
        ghost var before, l := net[..], rand.next;
        var r := rand.NextInt(i);
        net[i - 1], net[r] := net[r], net[i - 1];
        assert net[..] == Swap(before, i - 1, Pick(rand.draw, l, i));
        i := i - 1;
      }
      ShuffledGood(s, net.Length, rand.draw, k);
      RearrangedExactly(net[..], s);
    }
  }

  // ----- the experiment

  /** Java doubles as far as they matter here: a number, or the NaN that 0/0 yields. */
  datatype Double = NaN | Num(x: real)

  function Divide(a: real, b: real): Double
  {
    if b != 0.0 then Num(a / b) else NaN
  }

  function Add(a: Double, b: Double): Double
  {
    if a.NaN? || b.NaN? then NaN else Num(a.x + b.x)
  }

  /** (int) x */
  function Truncate(x: real): int
  {
    if x >= 0.0 then x.Floor else -((-x).Floor)
  }

  /** A comparison with NaN is false. */
  predicate Meets(good: nat, quorSize: int, threshold: real)
  {
    var ratio := Divide(good as real, quorSize as real);
    ratio.Num? && ratio.x >= threshold
  }

  /** How many samples reach the threshold. */
  ghost function Meeting(samples: seq<nat>, quorSize: int, threshold: real): (k: nat)
    ensures k <= |samples|
  {
    if samples == [] then 0
    else
      var last := |samples| - 1;
      Meeting(samples[..last], quorSize, threshold) + if Meets(samples[last], quorSize, threshold) then 1 else 0
  }

  lemma {:induction false} MeetingMore(samples: seq<nat>, good: nat, quorSize: int, threshold: real)
    ensures Meeting(samples + [good], quorSize, threshold)
         == Meeting(samples, quorSize, threshold) + if Meets(good, quorSize, threshold) then 1 else 0
  {
    assert (samples + [good])[..|samples|] == samples;
  }

  const AVGPERC := 10

  /** Number of samples drawn in one of the ten rounds. */
  function Rounds(quorCount: int): nat
  {
    if quorCount < 0 then 0 else quorCount
  }

  /** (int) x drops the part behind the point. */
  lemma {:induction false} TruncateExactly(x: real, q: int)
    ensures q == Truncate(x) <==>
      if x >= 0.0 then q as real <= x < q as real + 1.0 else q as real - 1.0 < x <= q as real
  {
    if x < 0.0 {
      assert (-x).Floor as real <= -x < (-x).Floor as real + 1.0;
    }
  }

  /** (int) (n * quorPerNet) */
  function QuorumSize(n: nat, quorPerNet: real): int
  {
    Truncate(n as real * quorPerNet)
  }

  function OverTen(d: Double): Double
  {
    if d.NaN? then NaN else Num(d.x / 10.0)
  }

  /** Sum of the ten rounds' shares. */
  ghost function Total(samples: seq<nat>, quorSize: int, threshold: real, quorCount: int): Double
  {
    if quorCount == 0 then NaN else Num(Meeting(samples, quorSize, threshold) as real / quorCount as real)
  }

  /** The share of samples that reach the threshold; without samples NaN, as 0/0 is, or zero for a negative count. */
  ghost function Average(samples: seq<nat>, quorSize: int, threshold: real, quorCount: int): Double
  {
    OverTen(Total(samples, quorSize, threshold, quorCount))
  }

  /** As many samples as drawn in the ten rounds, each in the exact range. */
  ghost predicate Drawn(samples: seq<nat>, netSize: nat, quorSize: int, quorCount: int)
  {
    && |samples| == 10 * Rounds(quorCount)
    && forall i :: 0 <= i < |samples| ==> InRange(netSize, netSize / 10, Max(0, quorSize), samples[i])
  }

  lemma {:induction false} DivideSum(a: real, b: real, c: real)
    requires c != 0.0
    ensures a / c + b / c == (a + b) / c
  {
  }

  lemma {:induction false} MeetingConcat(a: seq<nat>, b: seq<nat>, quorSize: int, threshold: real)
    ensures Meeting(a + b, quorSize, threshold) == Meeting(a, quorSize, threshold) + Meeting(b, quorSize, threshold)
    decreases |b|
  {
    if b == [] {
      assert a + b == a;
    } else {
      var last := |b| - 1;
      assert (a + b)[..|a| + last] == a + b[..last];
      MeetingConcat(a, b[..last], quorSize, threshold);
    }
  }

  lemma {:induction false} AddRound(all: seq<nat>, drawn: seq<nat>, quorSize: int, threshold: real, quorCount: int)
    ensures Total(all + drawn, quorSize, threshold, quorCount)
         == Add(Total(all, quorSize, threshold, quorCount),
                Divide(Meeting(drawn, quorSize, threshold) as real, quorCount as real))
  {
    MeetingConcat(all, drawn, quorSize, threshold);
    if quorCount != 0 {
      var before, more := Meeting(all, quorSize, threshold), Meeting(drawn, quorSize, threshold);
      DivideSum(before as real, more as real, quorCount as real);
    }
  }

  /** The innermost loop: the good nodes among the first q. */
  method CountGood(net: array<bool>, q: int) returns (goodNode: nat)
    requires q <= net.Length
    ensures goodNode == Good(net[..][..Max(0, q)])
  {
    goodNode := 0;
    var i := 0;
    while i < q
      invariant 0 <= i <= Max(0, q)
      invariant goodNode == Good(net[..i])
    {
      GoodConcat(net[..i], [net[i]]);
      assert net[..i + 1] == net[..i] + [net[i]];
      if net[i] {
        goodNode := goodNode + 1;
      }
      i := i + 1;
    }
    assert net[..][..i] == net[..i];
  }

  /** What c samples of a network are, and what they leave: the shuffled nodes and the draws taken. */
  twostate predicate Sampled(network: Network, rand: Random, q: nat, c: nat, samples: seq<nat>)
    reads network.net, rand
    requires q <= network.net.Length
  {
    && samples == Samples(old(network.net[..]), rand.draw, old(rand.next), q, c)
    && (network.net[..], rand.next) == After(old(network.net[..]), rand.draw, old(rand.next), c)
  }

  /** One sample: count its good nodes, test their share, reshuffle. */
  method Sample(network: Network, rand: Random, quorSize: int, threshold: real) returns (met: bool)
    requires quorSize <= network.net.Length
    modifies network.net, rand
    ensures met == Meets(Good(old(network.net[..])[..Max(0, quorSize)]), quorSize, threshold)
    ensures network.net[..] == Shuffled(old(network.net[..]), network.net.Length, rand.draw, old(rand.next))
    ensures rand.next == old(rand.next) + Swaps(network.net.Length)
  {
    var goodNode := CountGood(network.net, quorSize);
    met := Meets(goodNode, quorSize, threshold);
    network.Reshuffle(rand);
  }

  /** The loop over the samples: count those that reach the threshold. */
  method Round(network: Network, rand: Random, netSize: nat, quorSize: int, quorCount: int, threshold: real)
    returns (goodQuorum: nat, ghost drawn: seq<nat>)
    requires network.Valid(netSize) && quorSize <= netSize
    modifies network.net, rand
    ensures network.Valid(netSize)
    ensures Sampled(network, rand, Max(0, quorSize), Rounds(quorCount), drawn)
    ensures goodQuorum == Meeting(drawn, quorSize, threshold)
  {
    goodQuorum, drawn := 0, [];
    ghost var s, k, q := network.net[..], rand.next, Max(0, quorSize);
    var j := 0;
    while j < quorCount
      invariant 0 <= j <= Rounds(quorCount)
      invariant drawn == Samples(s, rand.draw, k, q, j)
      invariant (network.net[..], rand.next) == After(s, rand.draw, k, j)
      invariant goodQuorum == Meeting(drawn, quorSize, threshold)
    {
      ghost var t, l := network.net[..], rand.next;
      var met := Sample(network, rand, quorSize, threshold);
      if met {
        goodQuorum := goodQuorum + 1;
      }
      MeetingMore(drawn, Good(t[..q]), quorSize, threshold);
      SamplesMore(s, rand.draw, k, q, j, t, l);
      drawn := drawn + [Good(t[..q])];
      j := j + 1;
    }
    AfterGood(s, rand.draw, k, j);
  }

  method TenRounds(network: Network, rand: Random, netSize: nat, quorSize: int, quorCount: int, threshold: real)
    returns (avg: Double, ghost all: seq<nat>)
    requires network.Valid(netSize) && quorSize <= netSize
    modifies network.net, rand
    ensures network.Valid(netSize)
    ensures Sampled(network, rand, Max(0, quorSize), 10 * Rounds(quorCount), all)
    ensures avg == Total(all, quorSize, threshold, quorCount)
  {
    avg, all := Num(0.0), [];
    ghost var s, first, q, c := network.net[..], rand.next, Max(0, quorSize), Rounds(quorCount);
    var k := 0;
    while k < AVGPERC
      invariant 0 <= k <= AVGPERC
      invariant network.Valid(netSize)
      invariant all == Samples(s, rand.draw, first, q, k * c)
      invariant (network.net[..], rand.next) == After(s, rand.draw, first, k * c)
      invariant avg == if k == 0 then Num(0.0) else Total(all, quorSize, threshold, quorCount)
    {
      var goodQuorum;
      ghost var drawn;
      SamplesConcat(s, rand.draw, first, q, k * c, c);
      AfterConcat(s, rand.draw, first, k * c, c);
      goodQuorum, drawn := Round(network, rand, netSize, quorSize, quorCount, threshold);
      AddRound(all, drawn, quorSize, threshold, quorCount);
      assert (k + 1) * c == k * c + c;
      assert k == 0 ==> all == [] && all + drawn == drawn;
      avg := Add(avg, Divide(goodQuorum as real, quorCount as real));
      all := all + drawn;
      k := k + 1;
    }
  }

  class QuorumCalc {
    var avgGoodQuor: Double
    ghost var quorSize: int
    ghost var samples: seq<nat>

    /** Ten rounds of quorCount samples of the given share of the nodes; the result is the average over them. */
    constructor (network: Network, rand: Random, netSize: nat, quorCount: int, quorPerNet: real, threshold: real)
      requires network.Valid(netSize) && netSize as real * quorPerNet < netSize as real + 1.0
      modifies network.net, rand
      ensures network.Valid(netSize)
      ensures var exact := netSize as real * quorPerNet;
        if exact >= 0.0 then quorSize as real <= exact < quorSize as real + 1.0
        else quorSize as real - 1.0 < exact <= quorSize as real
      ensures quorSize <= netSize && Sampled(network, rand, Max(0, quorSize), 10 * Rounds(quorCount), samples)
      ensures Drawn(samples, netSize, quorSize, quorCount)
      ensures |samples| == if quorCount <= 0 then 0 else 10 * quorCount
      ensures avgGoodQuor == Average(samples, quorSize, threshold, quorCount)
      ensures quorCount <= 0 ==> avgGoodQuor == if quorCount == 0 then NaN else Num(0.0)
    {
      var size := QuorumSize(network.net.Length, quorPerNet);
      TruncateExactly(netSize as real * quorPerNet, size);
      ghost var s, k := network.net[..], rand.next;
      var avg;
      ghost var all;
      avg, all := TenRounds(network, rand, netSize, size, quorCount, threshold);
      SamplesPossible(s, rand.draw, k, Max(0, size), 10 * Rounds(quorCount));
      avgGoodQuor := OverTen(avg);
      quorSize, samples := size, all;
    }
  }

  // ----- what the average can be

  lemma {:induction false} MeetingAllOrNone(samples: seq<nat>, quorSize: int, threshold: real)
    ensures (forall k :: 0 <= k < |samples| ==> Meets(samples[k], quorSize, threshold)) ==>
              Meeting(samples, quorSize, threshold) == |samples|
    ensures (forall k :: 0 <= k < |samples| ==> !Meets(samples[k], quorSize, threshold)) ==>
              Meeting(samples, quorSize, threshold) == 0
    decreases |samples|
  {
    if samples != [] {
      MeetingAllOrNone(samples[..|samples| - 1], quorSize, threshold);
    }
  }

  /** A sample reaches the threshold by its share of good nodes; of no nodes, never. */
  lemma {:induction false} MeetsExactly(good: nat, q: int, threshold: real)
    ensures q > 0 ==> (Meets(good, q, threshold) <==> good as real >= threshold * q as real)
    ensures q == 0 ==> !Meets(good, q, threshold)
    ensures q < 0 && good == 0 ==> (Meets(good, q, threshold) <==> threshold <= 0.0)
  {
    if q != 0 {
      assert (good as real / q as real) * q as real == good as real;
    }
  }

  lemma {:induction false} Share(k: nat, c: int)
    requires c > 0 && k <= 10 * c
    ensures 0.0 <= k as real / c as real / 10.0 <= 1.0
    ensures (k as real / c as real / 10.0) * (10.0 * c as real) == k as real
    ensures k == 10 * c ==> k as real / c as real / 10.0 == 1.0
    ensures k == 0 ==> k as real / c as real / 10.0 == 0.0
  {
    var x, y := k as real, c as real;
    assert x == (x / y) * y;
    assert x <= 10.0 * y;
  }

  /**
   The average is the share of samples that reach the threshold: 1 when even the worst possible sample does, 0 when
   even the best does not.
   */
  lemma {:induction false} AverageBounds(samples: seq<nat>, n: nat, q: nat, threshold: real, quorCount: int)
    requires q <= n && quorCount > 0 && Drawn(samples, n, q, quorCount)
    ensures var a := Average(samples, q, threshold, quorCount); var m := n / 10;
      && a.Num? && 0.0 <= a.x <= 1.0
      && a.x * (10.0 * quorCount as real) == Meeting(samples, q, threshold) as real
      && (q > 0 && Max(0, q - m) as real >= threshold * q as real ==> a.x == 1.0)
      && (q == 0 || (Min(q, n - m) as real) < threshold * q as real ==> a.x == 0.0)
  {
    var k := Meeting(samples, q, threshold);
    MeetingAllOrNone(samples, q, threshold);
    Share(k, quorCount);
    forall i | 0 <= i < |samples| && q > 0
      ensures Meets(samples[i], q, threshold) <==> samples[i] as real >= threshold * q as real
    {
      MeetsExactly(samples[i], q, threshold);
    }
  }

  lemma {:induction false} SampleOfRearranged(s: seq<bool>, t: seq<bool>, q: nat)
    requires q <= |s| && Rearranged(t, s)
    ensures InRange(|s|, |s| - Good(s), q, Good(t[..q]))
  {
    GoodIsMultiplicity(s);
    GoodIsMultiplicity(t);
    SampleInRange(t, q);
  }

  /** Every rearrangement reaches the threshold exactly when the low end of the range does. */
  lemma {:induction false} AlwaysMeetsExactly(s: seq<bool>, q: nat, threshold: real)
    requires 0 < q <= |s|
    ensures (forall t :: Rearranged(t, s) ==> Meets(Good(t[..q]), q, threshold))
       <==> Max(0, q - (|s| - Good(s))) as real >= threshold * q as real
  {
    var low := Max(0, q - (|s| - Good(s)));
    SampleInRange(s, q);
    var worst := RangeAttained(s, q, low);
    MeetsExactly(low, q, threshold);
    assert Rearranged(worst, s);
    forall t | Rearranged(t, s) && low as real >= threshold * q as real
      ensures Meets(Good(t[..q]), q, threshold)
    {
      SampleOfRearranged(s, t, q);
      MeetsExactly(Good(t[..q]), q, threshold);
    }
  }

  /** No rearrangement reaches the threshold exactly when the high end of the range does not. */
  lemma {:induction false} NeverMeetsExactly(s: seq<bool>, q: nat, threshold: real)
    requires 0 < q <= |s|
    ensures (forall t :: Rearranged(t, s) ==> !Meets(Good(t[..q]), q, threshold))
       <==> (Min(q, Good(s)) as real) < threshold * q as real
  {
    var high := Min(q, Good(s));
    SampleInRange(s, q);
    var best := RangeAttained(s, q, high);
    MeetsExactly(high, q, threshold);
    assert Rearranged(best, s);
    forall t | Rearranged(t, s) && (high as real) < threshold * q as real
      ensures !Meets(Good(t[..q]), q, threshold)
    {
      SampleOfRearranged(s, t, q);
      MeetsExactly(Good(t[..q]), q, threshold);
    }
  }
}
