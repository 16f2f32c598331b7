/**
 The shape of one generated workflow.

 A graph lists, for each task index, the indices of its parents.  `Build` replays what the generator
 does for a given list of random choices: lay the main line, then, branch by branch, append the branch's
 tasks and make its last task a parent of a main-line task further on.  That merge gives a task a parent
 with a LARGER index, so index order says nothing about cycles; everything is proved through `Place`,
 the abstract position of a task.
 */
module Workflow {
  import opened Dag

  type Graph = seq<seq<nat>>

  /** One round of random choices: leave the line at `start`, add 1 + `extra` tasks, merge into `merge`. */
  datatype Branch = Branch(start: nat, extra: nat, merge: nat)

  ghost predicate ValidBranch(linear: nat, b: Branch)
  {
    1 <= b.start && b.extra <= 3 && b.start + 2 <= b.merge <= linear
  }

  ghost predicate ValidBranches(linear: nat, bs: seq<Branch>)
  {
    forall j :: 0 <= j < |bs| ==> ValidBranch(linear, bs[j])
  }

  function EdgeOf(g: Graph): (nat, nat) -> bool
  {
    (p: nat, k: nat) => k < |g| && p in g[k]
  }

  // ----- what the generator builds

  /** Task 0 has no parent; task i + 1 follows task i. */
  function MainLine(linear: nat): (g: Graph)
    ensures |g| == linear + 1
  {
    [[]] + seq(linear, i => [i])
  }

  /** The branch's first task hangs off `start`, each further one off the task before it. */
  function Hang(g: Graph, start: nat, extra: nat): (h: Graph)
    ensures |h| == |g| + 1 + extra
  {
    g + [[start]] + seq(extra, j => [|g| + j])
  }

  function Merge(g: Graph, m: nat, parent: nat): (h: Graph)
    requires m < |g|
    ensures |h| == |g|
  {
    g[m := g[m] + [parent]]
  }

  ghost function AddBranch(g: Graph, b: Branch): (h: Graph)
    requires b.merge < |g|
    ensures |h| == |g| + 1 + b.extra
  {
    Merge(Hang(g, b.start, b.extra), b.merge, |g| + b.extra)
  }

  ghost function Build(linear: nat, bs: seq<Branch>): (g: Graph)
    requires ValidBranches(linear, bs)
    ensures |g| >= linear + 1 + |bs|
  {
    if bs == [] then MainLine(linear)
    else AddBranch(Build(linear, bs[..|bs| - 1]), bs[|bs| - 1])
  }

  // ----- positions

  /** The i-th task of the main line, or the q-th task of branch b. */
  datatype Place = Main(i: nat) | Off(b: nat, q: nat)

  ghost function Places(linear: nat, bs: seq<Branch>): (ps: seq<Place>)
    ensures |ps| >= linear + 1
  {
    if bs == [] then seq(linear + 1, (i: nat) => Main(i))
    else Places(linear, bs[..|bs| - 1]) + seq(bs[|bs| - 1].extra + 1, (q: nat) => Off(|bs| - 1, q))
  }

  /** The intended graph, stated on positions and without reference to indices or to the order of construction. */
  ghost predicate Follows(bs: seq<Branch>, x: Place, y: Place)
  {
    match (x, y)
    case (Main(i), Main(j)) => j == i + 1
    case (Main(i), Off(b, q)) => b < |bs| && q == 0 && i == bs[b].start
    case (Off(b, q), Off(c, r)) => b == c && r == q + 1
    case (Off(b, q), Main(j)) => b < |bs| && q == bs[b].extra && j == bs[b].merge
  }

  ghost predicate InBranch(bs: seq<Branch>, x: Place)
  {
    x.Off? ==> x.b < |bs| && x.q <= bs[x.b].extra
  }

  /** What a position list looks like: the line first, then each branch's tasks side by side. */
  ghost predicate WellPlaced(linear: nat, bs: seq<Branch>, ps: seq<Place>)
  {
    && |ps| > linear
    && (forall k :: 0 <= k <= linear ==> ps[k] == Main(k))
    && (forall k :: linear < k < |ps| ==> ps[k].Off? && InBranch(bs, ps[k]))
    && (forall k :: linear < k < |ps| && ps[k].q > 0 ==> ps[k - 1] == Off(ps[k].b, ps[k].q - 1))
    && (forall k :: linear < k < |ps| && ps[k].q < bs[ps[k].b].extra ==>
          k + 1 < |ps| && ps[k + 1] == Off(ps[k].b, ps[k].q + 1))
  }

  lemma {:induction false} PlacesShape(linear: nat, bs: seq<Branch>)
    ensures WellPlaced(linear, bs, Places(linear, bs))
    decreases |bs|
  {
    if bs != [] {
      var front := bs[..|bs| - 1];
      PlacesShape(linear, front);
      var before, ps := Places(linear, front), Places(linear, bs);
      forall k | linear < k < |ps|
        ensures ps[k].Off? && InBranch(bs, ps[k])
        ensures ps[k].q > 0 ==> ps[k - 1] == Off(ps[k].b, ps[k].q - 1)
        ensures ps[k].q < bs[ps[k].b].extra ==> k + 1 < |ps| && ps[k + 1] == Off(ps[k].b, ps[k].q + 1)
      {
        if k < |before| {
          assert ps[k] == before[k] && InBranch(front, before[k]);
        } else {
          assert ps[k] == Off(|bs| - 1, k - |before|);
        }
      }
    }
  }

  lemma {:induction false} InBranchAt(linear: nat, bs: seq<Branch>, k: nat)
    requires k < |Places(linear, bs)|
    ensures InBranch(bs, Places(linear, bs)[k])
  {
    PlacesShape(linear, bs);
  }

  /** Distinct tasks have distinct positions. */
  lemma {:induction false} PlacesInjective(linear: nat, bs: seq<Branch>, k: nat, l: nat)
    requires k < l < |Places(linear, bs)|
    ensures Places(linear, bs)[k] != Places(linear, bs)[l]
    decreases |bs|
  {
    if bs != [] {
      var front := bs[..|bs| - 1];
      var before, ps := Places(linear, front), Places(linear, bs);
      if l < |before| {
        PlacesInjective(linear, front, k, l);
        assert ps[k] == before[k] && ps[l] == before[l];
      } else {
        assert ps[l] == Off(|bs| - 1, l - |before|);
        if k < |before| {
          InBranchAt(linear, front, k);
          assert ps[k] == before[k];
        } else {
          assert ps[k] == Off(|bs| - 1, k - |before|);
        }
      }
    }
  }

  // ----- the graph built is the graph intended

  /** Built and intended graph agree on every pair of indices, and every parent index exists. */
  ghost predicate Matches(g: Graph, bs: seq<Branch>, ps: seq<Place>)
  {
    && |g| == |ps|
    && (forall k, p :: 0 <= k < |g| && p in g[k] ==> p < |g|)
    && (forall k, p :: 0 <= k < |g| && 0 <= p < |g| ==> (p in g[k] <==> Follows(bs, ps[p], ps[k])))
  }

  lemma {:induction false} MainLineMatches(linear: nat)
    ensures Matches(MainLine(linear), [], Places(linear, []))
  {
    var g, ps := MainLine(linear), Places(linear, []);
    forall k, p | 0 <= k < |g| && 0 <= p < |g|
      ensures p in g[k] <==> Follows([], ps[p], ps[k])
    {
      assert g[k] == if k == 0 then [] else [k - 1];
    }
  }

  lemma {:induction false} AddBranchMatches(linear: nat, front: seq<Branch>, b: Branch, g: Graph, ps: seq<Place>)
    requires Matches(g, front, ps)
    requires ValidBranch(linear, b) && WellPlaced(linear, front, ps)
    ensures Matches(AddBranch(g, b), front + [b], ps + seq(b.extra + 1, (q: nat) => Off(|front|, q)))
  {
    var n, bs, ps' := |g|, front + [b], ps + seq(b.extra + 1, (q: nat) => Off(|front|, q));
    var h := Hang(g, b.start, b.extra);
    var g' := AddBranch(g, b);
    assert forall q :: 0 <= q <= b.extra ==> ps'[n + q] == Off(|front|, q);
    forall k, p: nat | 0 <= k < |g'|
      ensures p in g'[k] ==> p < |g'|
      ensures p < |g'| ==> (p in g'[k] <==> Follows(bs, ps'[p], ps'[k]))
    {
      if k >= n {
        assert g'[k] == h[k] == if k == n then [b.start] else [k - 1];
      } else if k == b.merge {
        assert g'[k] == g[k] + [n + b.extra];
        assert ps'[k] == Main(k);
        if linear < p < n { assert InBranch(front, ps[p]); }
      } else {
        assert g'[k] == g[k];
        if linear < k { assert InBranch(front, ps[k]); }
        if linear < p < n { assert InBranch(front, ps[p]); }
      }
    }
  }

  lemma {:induction false} BuildMatches(linear: nat, bs: seq<Branch>)
    requires ValidBranches(linear, bs)
    ensures Matches(Build(linear, bs), bs, Places(linear, bs))
    decreases |bs|
  {
    if bs == [] {
      MainLineMatches(linear);
    } else {
      var front, b := bs[..|bs| - 1], bs[|bs| - 1];
      BuildMatches(linear, front);
      PlacesShape(linear, front);
      AddBranchMatches(linear, front, b, Build(linear, front), Places(linear, front));
      assert front + [b] == bs;
    }
  }

  // ----- heights

  /** How many branches a path can use one after the other: the first leaves task 1, each spans at least 2 steps. */
  function Slots(linear: nat): (k: nat)
    ensures linear > 0 ==> 2 * k + 1 <= linear < 2 * k + 3
  {
    if linear == 0 then 0 else (linear - 1) / 2
  }

  /** The height task i would have if a path could take 3 extra edges per slot. */
  ghost function SlotHeight(bs: seq<Branch>, x: Place): int
  {
    match x
    case Main(i) => i + 3 * Slots(i)
    case Off(b, q) => if b < |bs| then bs[b].start + 3 * Slots(bs[b].start) + q + 1 else 0
  }

  /** How many branches have merged back at or before main task i. */
  ghost function Merged(bs: seq<Branch>, i: nat): nat
  {
    if bs == [] then 0
    else Merged(bs[..|bs| - 1], i) + if bs[|bs| - 1].merge <= i then 1 else 0
  }

  /** The height if a path could take 3 extra edges per branch. */
  ghost function BranchHeight(bs: seq<Branch>, x: Place): int
  {
    match x
    case Main(i) => i + 3 * Merged(bs, i)
    case Off(b, q) => if b < |bs| then bs[b].start + 3 * Merged(bs, bs[b].start) + q + 1 else 0
  }

  /** Whichever height has the lower top. */
  ghost function Height(linear: nat, bs: seq<Branch>, x: Place): int
  {
    if |bs| <= Slots(linear) then BranchHeight(bs, x) else SlotHeight(bs, x)
  }

  /** The greatest height: the length of the longest path some choices of this many branches allow. */
  ghost function Top(linear: nat, branches: nat): nat
  {
    linear + 3 * if branches <= Slots(linear) then branches else Slots(linear)
  }

  lemma {:induction false} MergedGrows(bs: seq<Branch>, i: nat, j: nat)
    requires i <= j
    ensures Merged(bs, i) <= Merged(bs, j) <= |bs|
    ensures forall b :: 0 <= b < |bs| && i < bs[b].merge <= j ==> Merged(bs, i) < Merged(bs, j)
    decreases |bs|
  {
    if bs != [] {
      MergedGrows(bs[..|bs| - 1], i, j);
    }
  }

  lemma {:induction false} MergedEnds(linear: nat, bs: seq<Branch>)
    requires ValidBranches(linear, bs)
    ensures Merged(bs, 0) == 0 && Merged(bs, linear) == |bs|
    decreases |bs|
  {
    if bs != [] {
      MergedEnds(linear, bs[..|bs| - 1]);
      assert ValidBranch(linear, bs[|bs| - 1]);
    }
  }

  lemma {:induction false} FollowsClimbs(linear: nat, bs: seq<Branch>, x: Place, y: Place)
    requires ValidBranches(linear, bs)
    requires InBranch(bs, x) && InBranch(bs, y)
    requires Follows(bs, x, y)
    ensures Height(linear, bs, x) + 1 <= Height(linear, bs, y)
  {
    match (x, y)
    case (Main(i), Main(j)) => MergedGrows(bs, i, j);
    case (Main(i), Off(b, q)) =>
    case (Off(b, q), Off(c, r)) =>
    case (Off(b, q), Main(j)) =>
      assert ValidBranch(linear, bs[b]);
      MergedGrows(bs, bs[b].start, j);
      assert Slots(j) >= Slots(bs[b].start) + 1;
  }

  ghost function HeightAt(linear: nat, bs: seq<Branch>): nat -> int
  {
    (k: nat) => if k < |Places(linear, bs)| then Height(linear, bs, Places(linear, bs)[k]) else 0
  }

  lemma {:induction false} WorkflowClimbs(linear: nat, bs: seq<Branch>)
    requires ValidBranches(linear, bs)
    ensures Climbs(EdgeOf(Build(linear, bs)), HeightAt(linear, bs), 1)
  {
    var g, ps := Build(linear, bs), Places(linear, bs);
    BuildMatches(linear, bs);
    forall p: nat, k: nat | EdgeOf(g)(p, k)
      ensures HeightAt(linear, bs)(p) + 1 <= HeightAt(linear, bs)(k)
    {
      assert p in g[k];
      InBranchAt(linear, bs, p);
      InBranchAt(linear, bs, k);
      FollowsClimbs(linear, bs, ps[p], ps[k]);
    }
  }

  lemma {:induction false} PlaceHeight(linear: nat, bs: seq<Branch>, x: Place)
    requires ValidBranches(linear, bs) && InBranch(bs, x) && (x.Main? ==> x.i <= linear)
    ensures 0 <= Height(linear, bs, x) <= Top(linear, |bs|)
  {
    match x
    case Main(i) => MergedGrows(bs, i, linear);
    case Off(b, q) =>
      assert ValidBranch(linear, bs[b]);
      MergedGrows(bs, bs[b].start, bs[b].merge);
      MergedGrows(bs, bs[b].merge, linear);
      assert Slots(bs[b].start) + 1 <= Slots(linear);
  }

  lemma {:induction false} HeightRange(linear: nat, bs: seq<Branch>, k: nat)
    requires ValidBranches(linear, bs)
    requires k < |Places(linear, bs)|
    ensures 0 <= HeightAt(linear, bs)(k) <= Top(linear, |bs|)
    ensures HeightAt(linear, bs)(0) == 0
    ensures HeightAt(linear, bs)(linear) == Top(linear, |bs|)
  {
    PlacesShape(linear, bs);
    InBranchAt(linear, bs, k);
    PlaceHeight(linear, bs, Places(linear, bs)[k]);
    MergedEnds(linear, bs);
  }

  // ----- main results on one workflow

  /** For every sequence of random choices the workflow has no cycle. */
  lemma {:induction false} WorkflowAcyclic(linear: nat, bs: seq<Branch>)
    requires ValidBranches(linear, bs)
    ensures Acyclic(EdgeOf(Build(linear, bs)))
  {
    WorkflowClimbs(linear, bs);
    ClimbingIsAcyclic(EdgeOf(Build(linear, bs)), HeightAt(linear, bs), 1);
  }

  lemma {:induction false} PathStaysInside(g: Graph, path: seq<nat>)
    requires forall k, p :: 0 <= k < |g| && p in g[k] ==> p < |g|
    requires IsPath(EdgeOf(g), path) && |path| > 1
    ensures path[0] < |g| && path[|path| - 1] < |g|
    decreases |path|
  {
    assert EdgeOf(g)(path[0], path[1]);
    if |path| > 2 { PathStaysInside(g, path[1..]); }
  }

  /** A path takes at most 3 extra edges per branch, and at most 3 per slot of the line; so at most 5/2 per step. */
  lemma {:induction false} DepthBound(linear: nat, bs: seq<Branch>, path: seq<nat>)
    requires ValidBranches(linear, bs)
    requires IsPath(EdgeOf(Build(linear, bs)), path)
    ensures |path| - 1 <= Top(linear, |bs|)
    ensures linear > 0 ==> 2 * (|path| - 1) <= 5 * linear - 3
  {
    if |path| > 1 {
      BuildMatches(linear, bs);
      WorkflowClimbs(linear, bs);
      PathStaysInside(Build(linear, bs), path);
      HeightRange(linear, bs, path[0]);
      HeightRange(linear, bs, path[|path| - 1]);
      PathClimbs(EdgeOf(Build(linear, bs)), HeightAt(linear, bs), 1, path);
    }
  }

  // ----- the depth bound is attained

  /** Full branches one after the other, over and over: from task 1 to 3, from 3 to 5, and so on. */
  ghost function Chain(linear: nat, n: nat): (bs: seq<Branch>)
    requires linear >= 3
    ensures |bs| == n && ValidBranches(linear, bs)
  {
    seq(n, (b: nat) => var r := 2 * (b % Slots(linear)) + 1; Branch(r, 3, r + 2))
  }

  lemma {:induction false} ChainPlaces(linear: nat, n: nat, b: nat, q: nat)
    requires linear >= 3 && b < n && q <= 3
    ensures |Places(linear, Chain(linear, n))| == linear + 1 + 4 * n
    ensures Places(linear, Chain(linear, n))[linear + 1 + 4 * b + q] == Off(b, q)
    decreases n
  {
    var front := Chain(linear, n - 1);
    assert Chain(linear, n)[..n - 1] == front;
    if n == 1 {
      assert front == [];
    } else {
      ChainPlaces(linear, n - 1, if b == n - 1 then 0 else b, q);
    }
  }

  lemma {:induction false} Extend(edge: (nat, nat) -> bool, path: seq<nat>, x: nat)
    requires IsPath(edge, path) && edge(path[|path| - 1], x)
    ensures IsPath(edge, path + [x])
  {
    var last := path[|path| - 1];
    assert [last, x][1..] == [x];
    assert IsPath(edge, [x]);
    JoinPaths(edge, path, [last, x]);
  }

  lemma {:induction false} EdgeByPlace(linear: nat, bs: seq<Branch>, p: nat, k: nat, x: Place, y: Place)
    requires ValidBranches(linear, bs)
    requires p < |Places(linear, bs)| && Places(linear, bs)[p] == x
    requires k < |Places(linear, bs)| && Places(linear, bs)[k] == y
    requires Follows(bs, x, y)
    ensures EdgeOf(Build(linear, bs))(p, k)
  {
    BuildMatches(linear, bs);
  }

  /** Where the tasks of the chain's k-th branch, and the two ends of its slot, are. */
  ghost function ChainIndex(linear: nat, k: nat, q: nat): nat
  {
    if q == 0 then 2 * k + 1 else if q == 5 then 2 * k + 3 else linear + 4 * k + q
  }

  lemma {:induction false} ChainPlaceAt(linear: nat, n: nat, k: nat, q: nat) returns (x: Place)
    requires linear >= 3 && k < n && k < Slots(linear) && q <= 5
    ensures ChainIndex(linear, k, q) < |Places(linear, Chain(linear, n))|
    ensures x == Places(linear, Chain(linear, n))[ChainIndex(linear, k, q)]
    ensures x == if q == 0 then Main(2 * k + 1) else if q == 5 then Main(2 * k + 3) else Off(k, q - 1)
  {
    if 1 <= q <= 4 {
      ChainPlaces(linear, n, k, q - 1);
    } else {
      PlacesShape(linear, Chain(linear, n));
    }
    x := Places(linear, Chain(linear, n))[ChainIndex(linear, k, q)];
  }

  /** The chain's k-th branch: its first task hangs off the line, the others off one another, the last one merges. */
  lemma {:induction false} ChainEdge(linear: nat, n: nat, k: nat, q: nat)
    requires linear >= 3 && k < n && k < Slots(linear) && q <= 4
    ensures EdgeOf(Build(linear, Chain(linear, n)))(ChainIndex(linear, k, q), ChainIndex(linear, k, q + 1))
  {
    var bs := Chain(linear, n);
    assert bs[k] == Branch(2 * k + 1, 3, 2 * k + 3);
    var x := ChainPlaceAt(linear, n, k, q);
    var y := ChainPlaceAt(linear, n, k, q + 1);
    EdgeByPlace(linear, bs, ChainIndex(linear, k, q), ChainIndex(linear, k, q + 1), x, y);
  }

  /** The k-th slot's branch, walked from its start to its merge. */
  lemma {:induction false} ThroughBranch(linear: nat, n: nat, k: nat, path: seq<nat>) returns (longer: seq<nat>)
    requires linear >= 3 && k < n && k < Slots(linear)
    requires IsPath(EdgeOf(Build(linear, Chain(linear, n))), path) && path[|path| - 1] == 2 * k + 1
    ensures IsPath(EdgeOf(Build(linear, Chain(linear, n))), longer) && longer[|longer| - 1] == 2 * k + 3
    ensures |longer| == |path| + 5 && longer[0] == path[0]
  {
    var edge := EdgeOf(Build(linear, Chain(linear, n)));
    longer := path;
    var q := 0;
    while q < 5
      invariant 0 <= q <= 5 && |longer| == |path| + q && longer[0] == path[0] && IsPath(edge, longer)
      invariant longer[|longer| - 1] == ChainIndex(linear, k, q)
    {
      ChainEdge(linear, n, k, q);
      Extend(edge, longer, ChainIndex(linear, k, q + 1));
      longer, q := longer + [ChainIndex(linear, k, q + 1)], q + 1;
    }
  }

  /** One step along the main line. */
  lemma {:induction false} AlongLine(linear: nat, bs: seq<Branch>, path: seq<nat>)
    requires ValidBranches(linear, bs) && IsPath(EdgeOf(Build(linear, bs)), path) && path[|path| - 1] < linear
    ensures IsPath(EdgeOf(Build(linear, bs)), path + [path[|path| - 1] + 1])
  {
    var i := path[|path| - 1];
    BuildMatches(linear, bs);
    PlacesShape(linear, bs);
    assert Follows(bs, Places(linear, bs)[i], Places(linear, bs)[i + 1]);
    Extend(EdgeOf(Build(linear, bs)), path, i + 1);
  }

  /** For every line and every number of branches, some choices have a path, source to sink, as long as the bound. */
  lemma {:induction false} DepthBoundAttained(linear: nat, n: nat) returns (bs: seq<Branch>, path: seq<nat>)
    requires linear >= 3
    ensures |bs| == n && ValidBranches(linear, bs)
    ensures IsPath(EdgeOf(Build(linear, bs)), path) && path[0] == 0 && path[|path| - 1] == linear
    ensures |path| - 1 == Top(linear, n)
  {
    bs, path := Chain(linear, n), [0];
    var edge := EdgeOf(Build(linear, bs));
    AlongLine(linear, bs, path);
    path := [0] + [1];
    var k := 0;
    while k < n && k < Slots(linear)
      invariant 0 <= k <= n && k <= Slots(linear)
      invariant IsPath(edge, path) && path[0] == 0 && path[|path| - 1] == 2 * k + 1 && |path| == 5 * k + 2
    {
      path := ThroughBranch(linear, n, k, path);
      k := k + 1;
    }
    var i := 2 * k + 1;
    while i < linear
      invariant 2 * k + 1 <= i <= linear
      invariant IsPath(edge, path) && path[0] == 0 && path[|path| - 1] == i && |path| == 3 * k + i + 1
    {
      AlongLine(linear, bs, path);
      path, i := path + [i + 1], i + 1;
    }
  }

  /** A parent of a task other than the source. */
  lemma {:induction false} HasParent(linear: nat, bs: seq<Branch>, k: nat) returns (p: nat)
    requires ValidBranches(linear, bs)
    requires 0 < k < |Build(linear, bs)|
    ensures p < |Build(linear, bs)| && p in Build(linear, bs)[k]
  {
    BuildMatches(linear, bs);
    PlacesShape(linear, bs);
    var ps := Places(linear, bs);
    InBranchAt(linear, bs, k);
    match ps[k]
    case Main(i) =>
      p := k - 1;
      assert ps[p] == Main(p);
    case Off(b, q) =>
      assert ValidBranch(linear, bs[b]);
      p := if q == 0 then bs[b].start else k - 1;
      assert Follows(bs, ps[p], ps[k]);
  }

  /** A child of a task other than the sink. */
  lemma {:induction false} HasChild(linear: nat, bs: seq<Branch>, k: nat) returns (c: nat)
    requires ValidBranches(linear, bs)
    requires k < |Build(linear, bs)| && k != linear
    ensures c < |Build(linear, bs)| && k in Build(linear, bs)[c]
  {
    BuildMatches(linear, bs);
    PlacesShape(linear, bs);
    var ps := Places(linear, bs);
    InBranchAt(linear, bs, k);
    match ps[k]
    case Main(i) => c := k + 1;
    case Off(b, q) =>
      assert ValidBranch(linear, bs[b]);
      c := if q == bs[b].extra then bs[b].merge else k + 1;
  }

  /** Exactly one source, task 0, and exactly one sink, task `linear`. */
  lemma {:induction false} OneSourceOneSink(linear: nat, bs: seq<Branch>, k: nat)
    requires ValidBranches(linear, bs)
    requires k < |Build(linear, bs)|
    ensures Build(linear, bs)[k] == [] <==> k == 0
    ensures (forall c :: 0 <= c < |Build(linear, bs)| ==> k !in Build(linear, bs)[c]) <==> k == linear
  {
    var g, ps := Build(linear, bs), Places(linear, bs);
    BuildMatches(linear, bs);
    WorkflowClimbs(linear, bs);
    HeightRange(linear, bs, linear);
    if k == 0 {
      if g[0] != [] {
        var p := g[0][0];
        assert EdgeOf(g)(p, 0);
        HeightRange(linear, bs, p);
        assert false;
      }
    } else {
      var p := HasParent(linear, bs, k);
    }
    if k == linear {
      forall c | 0 <= c < |g|
        ensures k !in g[c]
      {
        if k in g[c] {
          assert EdgeOf(g)(k, c);
          HeightRange(linear, bs, c);
          assert false;
        }
      }
    } else {
      var c := HasChild(linear, bs, k);
    }
  }

  lemma {:induction false} FromSource(linear: nat, bs: seq<Branch>, k: nat)
    requires ValidBranches(linear, bs)
    requires k < |Build(linear, bs)|
    ensures Reaches(EdgeOf(Build(linear, bs)), 0, k)
    decreases HeightAt(linear, bs)(k)
  {
    var edge := EdgeOf(Build(linear, bs));
    if k == 0 {
      ReachSelf(edge, 0);
    } else {
      var p := HasParent(linear, bs, k);
      assert edge(p, k);
      WorkflowClimbs(linear, bs);
      BuildMatches(linear, bs);
      HeightRange(linear, bs, p);
      FromSource(linear, bs, p);
      ReachEdge(edge, p, k);
      ReachTrans(edge, 0, p, k);
    }
  }

  lemma {:induction false} ToSink(linear: nat, bs: seq<Branch>, k: nat)
    requires ValidBranches(linear, bs)
    requires k < |Build(linear, bs)|
    ensures Reaches(EdgeOf(Build(linear, bs)), k, linear)
    decreases Top(linear, |bs|) - HeightAt(linear, bs)(k)
  {
    var edge := EdgeOf(Build(linear, bs));
    if k == linear {
      ReachSelf(edge, k);
    } else {
      var c := HasChild(linear, bs, k);
      assert edge(k, c);
      WorkflowClimbs(linear, bs);
      BuildMatches(linear, bs);
      HeightRange(linear, bs, c);
      HeightRange(linear, bs, k);
      ToSink(linear, bs, c);
      ReachEdge(edge, k, c);
      ReachTrans(edge, k, c, linear);
    }
  }

  /** Every task lies on a path from the source to the sink. */
  lemma {:induction false} BetweenSourceAndSink(linear: nat, bs: seq<Branch>, k: nat)
    requires ValidBranches(linear, bs)
    requires k < |Build(linear, bs)|
    ensures Reaches(EdgeOf(Build(linear, bs)), 0, k)
    ensures Reaches(EdgeOf(Build(linear, bs)), k, linear)
  {
    FromSource(linear, bs, k);
    ToSink(linear, bs, k);
  }

  // ----- conservation

  ghost function EdgeCount(g: Graph): nat
  {
    if g == [] then 0 else EdgeCount(g[..|g| - 1]) + |g[|g| - 1]|
  }

  lemma {:induction false} EdgeCountAppendSingles(g: Graph, tail: Graph)
    requires forall i :: 0 <= i < |tail| ==> |tail[i]| == 1
    ensures EdgeCount(g + tail) == EdgeCount(g) + |tail|
    decreases |tail|
  {
    if tail == [] {
      assert g + tail == g;
    } else {
      var n := |tail| - 1;
      assert (g + tail)[..|g| + n] == g + tail[..n];
      EdgeCountAppendSingles(g, tail[..n]);
    }
  }

  lemma {:induction false} EdgeCountMerge(g: Graph, m: nat, parent: nat)
    requires m < |g|
    ensures EdgeCount(Merge(g, m, parent)) == EdgeCount(g) + 1
    decreases |g|
  {
    var h, n := Merge(g, m, parent), |g| - 1;
    if m == n {
      assert h[..n] == g[..n];
    } else {
      assert h[..n] == Merge(g[..n], m, parent);
      EdgeCountMerge(g[..n], m, parent);
    }
  }

  lemma {:induction false} EdgeCountAddBranch(g: Graph, b: Branch)
    requires b.merge < |g|
    ensures EdgeCount(AddBranch(g, b)) == EdgeCount(g) + b.extra + 2
  {
    var tail: Graph := [[b.start]] + seq(b.extra, j => [|g| + j]);
    EdgeCountAppendSingles(g, tail);
    assert g + tail == Hang(g, b.start, b.extra);
    EdgeCountMerge(Hang(g, b.start, b.extra), b.merge, |g| + b.extra);
  }

  /** The number of tasks and of edges, from the choices alone. */
  ghost function TaskCount(linear: nat, bs: seq<Branch>): nat
  {
    if bs == [] then linear + 1
    else TaskCount(linear, bs[..|bs| - 1]) + bs[|bs| - 1].extra + 1
  }

  lemma {:induction false} Conservation(linear: nat, bs: seq<Branch>)
    requires ValidBranches(linear, bs)
    ensures |Build(linear, bs)| == TaskCount(linear, bs)
    ensures EdgeCount(Build(linear, bs)) == |Build(linear, bs)| - 1 + |bs|
    decreases |bs|
  {
    if bs == [] {
      var line: Graph := seq(linear, i => [i]);
      var gen: Graph := [[]];
      EdgeCountAppendSingles(gen, line);
      assert gen[..0] == [];
    } else {
      var front, b := bs[..|bs| - 1], bs[|bs| - 1];
      Conservation(linear, front);
      EdgeCountAddBranch(Build(linear, front), b);
    }
  }

  ghost predicate NoRepeats(s: seq<nat>)
  {
    forall i, j :: 0 <= i < j < |s| ==> s[i] != s[j]
  }

  /** No task lists the same parent twice: a merge always adds an index never used before. */
  lemma {:induction false} NoRepeatedParent(linear: nat, bs: seq<Branch>)
    requires ValidBranches(linear, bs)
    ensures forall k :: 0 <= k < |Build(linear, bs)| ==> NoRepeats(Build(linear, bs)[k])
    decreases |bs|
  {
    if bs != [] {
      var front, b := bs[..|bs| - 1], bs[|bs| - 1];
      NoRepeatedParent(linear, front);
      BuildMatches(linear, front);
      var g, g' := Build(linear, front), Build(linear, bs);
      forall k | 0 <= k < |g'|
        ensures NoRepeats(g'[k])
      {
        if k == b.merge {
          assert g'[k] == g[k] + [|g| + b.extra];
          assert NoRepeats(g[k]);
          forall i | 0 <= i < |g[k]|
            ensures g[k][i] < |g|
          {
            assert g[k][i] in g[k];
          }
        } else if k < |g| {
          assert g'[k] == g[k];
        } else {
          assert |g'[k]| == 1;
        }
      }
    }
  }
}
