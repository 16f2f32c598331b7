/**
 All workflows of one run together.  Each workflow after the first starts from a task of an earlier one,
 so the tasks of the whole run form one graph on pairs (workflow, task index).
 */
module WorkflowLinks {
  import opened Wrappers
  import opened Dag
  import opened Workflow

  datatype Node = Node(w: nat, k: nat)

  /** The random choices behind one workflow; `from` is the task its gen task names as start point. */
  datatype Plan = Plan(linear: nat, branches: seq<Branch>, from: Option<Node>)

  ghost predicate ValidShapes(plans: seq<Plan>)
  {
    forall w :: 0 <= w < |plans| ==> plans[w].linear >= 3 && ValidBranches(plans[w].linear, plans[w].branches)
  }

  ghost function Tasks(plan: Plan): (n: nat)
  {
    TaskCount(plan.linear, plan.branches)
  }

  ghost predicate LinkOk(plans: seq<Plan>, w: nat)
    requires w < |plans|
  {
    if w == 0 then plans[w].from == None
    else plans[w].from.Some? && plans[w].from.value.w < w
         && 1 <= plans[w].from.value.k < Tasks(plans[plans[w].from.value.w])
  }

  /** Every start point is an existing non-gen task of an earlier workflow; the first workflow has none. */
  ghost predicate Linked(plans: seq<Plan>)
  {
    forall w :: 0 <= w < |plans| ==> LinkOk(plans, w)
  }

  // ----- what the generator's static list allows

  /** The list the generator consults: whatever was left in it, then the last index of each new workflow. */
  ghost function StartPoints(leftover: seq<int>, plans: seq<Plan>): (s: seq<int>)
    ensures |s| == |leftover| + |plans|
  {
    leftover + seq(|plans|, w requires 0 <= w < |plans| => Tasks(plans[w]) - 1)
  }

  ghost predicate ChoosableAt(leftover: seq<int>, plans: seq<Plan>, w: nat)
    requires w < |plans|
  {
    if w == 0 then plans[w].from == None
    else plans[w].from.Some? && plans[w].from.value.w < w
         && 1 <= plans[w].from.value.k <= StartPoints(leftover, plans)[plans[w].from.value.w]
  }

  /** The links a run can choose when the list already holds `leftover`. */
  ghost predicate Choosable(leftover: seq<int>, plans: seq<Plan>)
  {
    forall w :: 0 <= w < |plans| ==> ChoosableAt(leftover, plans, w)
  }

  lemma {:induction false} TasksAtLeast(linear: nat, bs: seq<Branch>)
    ensures TaskCount(linear, bs) >= linear + 1 + |bs|
    decreases |bs|
  {
    if bs != [] { TasksAtLeast(linear, bs[..|bs| - 1]); }
  }

  /** The smallest workflow a run can contain, and one with three tasks more. */
  const SMALL: seq<Branch> := [Branch(1, 0, 3)]
  const LARGE: seq<Branch> := [Branch(1, 3, 3)]

  lemma {:induction false} SmallAndLarge()
    ensures ValidBranches(3, SMALL) && TaskCount(3, SMALL) == 5
    ensures ValidBranches(3, LARGE) && TaskCount(3, LARGE) == 8
  {
    assert SMALL[..0] == [] && LARGE[..0] == [];
    assert TaskCount(3, []) == 4;
  }

  /** Every generated workflow has at least one branch. */
  ghost predicate HasBranch(plans: seq<Plan>)
  {
    forall w :: 0 <= w < |plans| ==> |plans[w].branches| >= 1
  }

  /** Some run of n workflows, under this leftover, ends up with a start point that names no task. */
  ghost predicate CanMisLink(leftover: seq<int>, n: nat)
  {
    exists plans ::
      |plans| == n && HasBranch(plans) && ValidShapes(plans) && Choosable(leftover, plans) && !Linked(plans)
  }

  /** The list is empty, or it covers every workflow the run looks up and never exceeds the smallest last index. */
  predicate Harmless(leftover: seq<int>, n: nat)
  {
    leftover == [] || (|leftover| >= n - 1 && forall v :: 0 <= v < n - 1 ==> leftover[v] <= 4)
  }

  lemma {:induction false} HarmlessLinks(leftover: seq<int>, plans: seq<Plan>)
    requires HasBranch(plans) && ValidShapes(plans) && Choosable(leftover, plans)
    requires Harmless(leftover, |plans|)
    ensures Linked(plans)
  {
    forall w | 0 <= w < |plans|
      ensures LinkOk(plans, w)
    {
      assert ChoosableAt(leftover, plans, w);
      if w > 0 {
        var v := plans[w].from.value.w;
        TasksAtLeast(plans[v].linear, plans[v].branches);
        if leftover == [] {
          assert StartPoints(leftover, plans)[v] == Tasks(plans[v]) - 1;
        } else {
          assert StartPoints(leftover, plans)[v] == leftover[v] <= 4;
        }
      }
    }
  }

  /** The plan of workflow w in the misleading run below: only workflow 0 is large, only v + 1 links to v. */
  ghost function StalePlan(v: nat, index: nat, w: nat): Plan
  {
    Plan(3, if w == 0 && v > 0 then LARGE else SMALL,
         if w == 0 then None else if w == v + 1 then Some(Node(v, index)) else Some(Node(0, 1)))
  }

  /**
   A run that starts workflow v + 1 from a task workflow v does not have: either the leftover entry for v is too
   large, or the list has slipped and the entry read for v is that of workflow 0.
   */
  lemma {:induction false} StaleRun(leftover: seq<int>, n: nat, v: nat) returns (plans: seq<Plan>)
    requires leftover != [] && v < n - 1
    requires v == |leftover| || (v < |leftover| && leftover[v] > 4)
    requires forall u :: 0 <= u < |leftover| ==> leftover[u] >= 1
    ensures |plans| == n && HasBranch(plans) && ValidShapes(plans) && Choosable(leftover, plans) && !Linked(plans)
    ensures forall w :: 0 <= w < n ==> plans[w].linear == 3 && |plans[w].branches| == 1
  {
    SmallAndLarge();
    var index := if v == |leftover| then 7 else leftover[v];
    plans := seq(n, (w: nat) => StalePlan(v, index, w));
    assert plans[0] == StalePlan(v, index, 0);
    assert StartPoints(leftover, plans)[0] == leftover[0];
    assert StartPoints(leftover, plans)[v] == if v == |leftover| then Tasks(plans[0]) - 1 else leftover[v];
    forall w | 0 <= w < n
      ensures plans[w].linear >= 3 && ValidBranches(plans[w].linear, plans[w].branches) && |plans[w].branches| >= 1
      ensures ChoosableAt(leftover, plans, w)
    {
      assert plans[w] == StalePlan(v, index, w);
    }
    assert plans[v] == StalePlan(v, index, v);
    assert plans[v + 1] == StalePlan(v, index, v + 1);
    assert !LinkOk(plans, v + 1);
  }

  /**
   The list of start points is static and never cleared.  Runs of n workflows that find `leftover` in it always
   link to existing tasks exactly when the leftover is harmless; the first run, finding it empty, always does.
   */
  lemma {:induction false} LinkedIffHarmless(leftover: seq<int>, n: nat)
    requires forall v :: 0 <= v < |leftover| ==> leftover[v] >= 1
    ensures !CanMisLink(leftover, n) <==> Harmless(leftover, n)
  {
    if Harmless(leftover, n) {
      forall plans | |plans| == n && HasBranch(plans) && ValidShapes(plans) && Choosable(leftover, plans)
        ensures Linked(plans)
      {
        HarmlessLinks(leftover, plans);
      }
    } else {
      var v := if |leftover| < n - 1 then |leftover| else var u :| 0 <= u < n - 1 && leftover[u] > 4; u;
      var plans := StaleRun(leftover, n, v);
    }
  }

  // ----- the graph of a whole run

  ghost predicate ValidRun(plans: seq<Plan>)
  {
    |plans| > 0 && ValidShapes(plans) && Linked(plans)
  }

  ghost function GraphAt(plans: seq<Plan>, w: nat): Graph
    requires ValidShapes(plans) && w < |plans|
  {
    assert ValidBranches(plans[w].linear, plans[w].branches);
    Build(plans[w].linear, plans[w].branches)
  }

  ghost predicate IsTask(plans: seq<Plan>, x: Node)
    requires ValidShapes(plans)
  {
    x.w < |plans| && x.k < |GraphAt(plans, x.w)|
  }

  /** Parent edges inside a workflow, and the edge from a start point to the gen task that names it. */
  ghost predicate RunEdge(plans: seq<Plan>, x: Node, y: Node)
    requires ValidShapes(plans)
  {
    && y.w < |plans|
    && ((x.w == y.w && y.k < |GraphAt(plans, y.w)| && x.k in GraphAt(plans, y.w)[y.k])
        || (y.k == 0 && plans[y.w].from == Some(x)))
  }

  ghost function EdgeIn(plans: seq<Plan>): (Node, Node) -> bool
    requires ValidShapes(plans)
  {
    (x: Node, y: Node) => ValidShapes(plans) && RunEdge(plans, x, y)
  }

  /** The length of the longest path that choices of this size allow. */
  ghost function TopOf(plan: Plan): nat
  {
    Top(plan.linear, |plan.branches|)
  }

  /** Room for the heights of all workflows before w, and for the edges that leave them. */
  ghost function Offset(plans: seq<Plan>, w: nat): nat
    requires w <= |plans|
  {
    if w == 0 then 0 else Offset(plans, w - 1) + TopOf(plans[w - 1]) + 1
  }

  ghost function RunHeight(plans: seq<Plan>): Node -> int
  {
    (x: Node) => if x.w >= |plans| then 0
      else Offset(plans, x.w) + HeightAt(plans[x.w].linear, plans[x.w].branches)(x.k)
  }

  lemma {:induction false} OffsetGrows(plans: seq<Plan>, v: nat, w: nat)
    requires v < w <= |plans|
    ensures Offset(plans, v) + TopOf(plans[v]) + 1 <= Offset(plans, w)
    decreases w
  {
    if v + 1 < w { OffsetGrows(plans, v, w - 1); }
  }

  lemma {:induction false} RunHeightRange(plans: seq<Plan>, x: Node)
    requires ValidShapes(plans) && IsTask(plans, x)
    ensures Offset(plans, x.w) <= RunHeight(plans)(x) <= Offset(plans, x.w) + TopOf(plans[x.w])
  {
    BuildMatches(plans[x.w].linear, plans[x.w].branches);
    HeightRange(plans[x.w].linear, plans[x.w].branches, x.k);
  }

  lemma {:induction false} RunClimbs(plans: seq<Plan>)
    requires ValidRun(plans)
    ensures Climbs(EdgeIn(plans), RunHeight(plans), 1)
    ensures forall x, y :: EdgeIn(plans)(x, y) ==> IsTask(plans, x) && IsTask(plans, y)
  {
    forall x, y | EdgeIn(plans)(x, y)
      ensures RunHeight(plans)(x) + 1 <= RunHeight(plans)(y) && IsTask(plans, x) && IsTask(plans, y)
    {
      var w := y.w;
      var linear, bs := plans[w].linear, plans[w].branches;
      BuildMatches(linear, bs);
      if x.w == w && y.k < |GraphAt(plans, w)| && x.k in GraphAt(plans, w)[y.k] {
        WorkflowClimbs(linear, bs);
        assert EdgeOf(Build(linear, bs))(x.k, y.k);
      } else {
        assert LinkOk(plans, w);
        Conservation(plans[x.w].linear, plans[x.w].branches);
        RunHeightRange(plans, x);
        OffsetGrows(plans, x.w, w);
        RunHeightRange(plans, y);
      }
    }
  }

  /** The combined graph of all workflows has no cycle, and its paths are bounded by the sizes of the lines. */
  lemma {:induction false} RunAcyclic(plans: seq<Plan>)
    requires ValidRun(plans)
    ensures Acyclic(EdgeIn(plans))
  {
    RunClimbs(plans);
    ClimbingIsAcyclic(EdgeIn(plans), RunHeight(plans), 1);
  }

  lemma {:induction false} RunPathEnds(plans: seq<Plan>, path: seq<Node>)
    requires ValidRun(plans)
    requires IsPath(EdgeIn(plans), path) && |path| > 1
    ensures IsTask(plans, path[0]) && IsTask(plans, path[|path| - 1])
    decreases |path|
  {
    RunClimbs(plans);
    assert EdgeIn(plans)(path[0], path[1]);
    if |path| > 2 { RunPathEnds(plans, path[1..]); }
  }

  lemma {:induction false} RunDepthBound(plans: seq<Plan>, path: seq<Node>)
    requires ValidRun(plans)
    requires IsPath(EdgeIn(plans), path)
    ensures |path| - 1 <= Offset(plans, |plans|) - 1
  {
    OffsetGrows(plans, 0, |plans|);
    if |path| > 1 {
      RunClimbs(plans);
      RunPathEnds(plans, path);
      var a, z := path[0], path[|path| - 1];
      PathClimbs(EdgeIn(plans), RunHeight(plans), 1, path);
      RunHeightRange(plans, a);
      RunHeightRange(plans, z);
      OffsetGrows(plans, z.w, |plans|);
    }
  }

  // ----- the bound on whole runs is attained

  lemma {:induction false} SamePath(edge: (Node, Node) -> bool, more: (Node, Node) -> bool, path: seq<Node>)
    requires IsPath(edge, path) && forall x, y :: edge(x, y) ==> more(x, y)
    ensures IsPath(more, path)
    decreases |path|
  {
    if |path| > 1 { SamePath(edge, more, path[1..]); }
  }

  ghost function NodesOf(w: nat, path: seq<nat>): (nodes: seq<Node>)
    ensures |nodes| == |path|
  {
    seq(|path|, i requires 0 <= i < |path| => Node(w, path[i]))
  }

  lemma {:induction false} LiftPath(plans: seq<Plan>, w: nat, path: seq<nat>)
    requires ValidShapes(plans) && w < |plans| && IsPath(EdgeOf(GraphAt(plans, w)), path)
    ensures IsPath(EdgeIn(plans), NodesOf(w, path))
    decreases |path|
  {
    var nodes := NodesOf(w, path);
    if |path| > 1 {
      assert EdgeOf(GraphAt(plans, w))(path[0], path[1]);
      LiftPath(plans, w, path[1..]);
      assert nodes[1..] == NodesOf(w, path[1..]);
      assert EdgeIn(plans)(nodes[0], nodes[1]);
    }
  }

  lemma {:induction false} SameOffset(plans: seq<Plan>, plan: Plan, w: nat)
    requires w <= |plans|
    ensures Offset(plans + [plan], w) == Offset(plans, w)
    decreases w
  {
    if w > 0 { SameOffset(plans, plan, w - 1); }
  }

  /** One more workflow, started from a task of an earlier one: everything before it stays as it was. */
  lemma {:induction false} OneMoreWorkflow(plans: seq<Plan>, plan: Plan)
    requires ValidShapes(plans) && Linked(plans) && plan.linear >= 3 && ValidBranches(plan.linear, plan.branches)
    requires LinkOk(plans + [plan], |plans|)
    ensures ValidRun(plans + [plan])
    ensures Offset(plans + [plan], |plans|) == Offset(plans, |plans|)
    ensures forall x, y :: EdgeIn(plans)(x, y) ==> EdgeIn(plans + [plan])(x, y)
  {
    var longer := plans + [plan];
    forall w | 0 <= w < |longer|
      ensures LinkOk(longer, w)
    {
      if w < |plans| { assert LinkOk(plans, w); }
    }
    SameOffset(plans, plan, |plans|);
    forall x, y | EdgeIn(plans)(x, y)
      ensures EdgeIn(longer)(x, y)
    {
      assert RunEdge(plans, x, y) && longer[y.w] == plans[y.w];
      assert GraphAt(longer, y.w) == GraphAt(plans, y.w);
      assert RunEdge(longer, x, y);
    }
  }

  /** Lines and numbers of branches, as a list of plans has them. */
  ghost predicate OfSizes(plans: seq<Plan>, sizes: seq<(nat, nat)>)
  {
    |plans| == |sizes| && forall w :: 0 <= w < |plans| ==> (plans[w].linear, |plans[w].branches|) == sizes[w]
  }

  /** Two paths joined by the edge from a start point to the gen task that names it. */
  lemma {:induction false} Linking(plans: seq<Plan>, p: seq<Node>, q: seq<Node>)
    requires ValidShapes(plans) && IsPath(EdgeIn(plans), p) && IsPath(EdgeIn(plans), q)
    requires q[0].w < |plans| && q[0].k == 0 && plans[q[0].w].from == Some(p[|p| - 1])
    ensures IsPath(EdgeIn(plans), p + q)
  {
    var link := [p[|p| - 1], q[0]];
    assert link[1..] == [q[0]] && IsPath(EdgeIn(plans), [q[0]]);
    assert EdgeIn(plans)(link[0], link[1]);
    JoinPaths(EdgeIn(plans), p, link);
    JoinPaths(EdgeIn(plans), p + link[1..], q);
    assert p + link[1..] + q[1..] == p + q;
  }

  lemma {:induction false} PathOfFirst(plan: Plan, inner: seq<nat>)
    requires plan.linear >= 3 && ValidBranches(plan.linear, plan.branches) && plan.from == None
    requires IsPath(EdgeOf(Build(plan.linear, plan.branches)), inner)
    ensures ValidRun([plan]) && IsPath(EdgeIn([plan]), NodesOf(0, inner)) && Offset([plan], 1) == TopOf(plan) + 1
  {
    OneMoreWorkflow([], plan);
    assert [] + [plan] == [plan];
    LiftPath([plan], 0, inner);
    assert Offset([plan], 1) == Offset([plan], 0) + TopOf(plan) + 1;
  }

  /** A path to some task of a run goes on through the workflow started there. */
  lemma {:induction false} PathGoesOn(front: seq<Plan>, plan: Plan, before: seq<Node>, inner: seq<nat>)
    requires ValidRun(front) && IsPath(EdgeIn(front), before)
    requires plan.linear >= 3 && ValidBranches(plan.linear, plan.branches) && LinkOk(front + [plan], |front|)
    requires plan.from == Some(before[|before| - 1])
    requires IsPath(EdgeOf(Build(plan.linear, plan.branches)), inner) && inner[0] == 0
    ensures ValidRun(front + [plan])
    ensures IsPath(EdgeIn(front + [plan]), before + NodesOf(|front|, inner))
    ensures Offset(front + [plan], |front| + 1) == Offset(front, |front|) + TopOf(plan) + 1
  {
    var plans, w := front + [plan], |front|;
    OneMoreWorkflow(front, plan);
    SamePath(EdgeIn(front), EdgeIn(plans), before);
    LiftPath(plans, w, inner);
    Linking(plans, before, NodesOf(w, inner));
  }

  /** A run of these sizes with a path as long as the bound, up to the last workflow's sink. */
  ghost predicate Attains(plans: seq<Plan>, path: seq<Node>, sizes: seq<(nat, nat)>)
  {
    && ValidRun(plans) && OfSizes(plans, sizes)
    && IsPath(EdgeIn(plans), path) && |path| == Offset(plans, |plans|)
    && path[|path| - 1] == Node(|plans| - 1, plans[|plans| - 1].linear)
  }

  lemma {:induction false} AttainFirst(sizes: seq<(nat, nat)>) returns (plans: seq<Plan>, path: seq<Node>)
    requires |sizes| == 1 && sizes[0].0 >= 3
    ensures Attains(plans, path, sizes)
  {
    var bs, inner := DepthBoundAttained(sizes[0].0, sizes[0].1);
    plans, path := [Plan(sizes[0].0, bs, None)], NodesOf(0, inner);
    PathOfFirst(plans[0], inner);
  }

  lemma {:induction false} AttainNext(sizes: seq<(nat, nat)>, front: seq<Plan>, before: seq<Node>)
    returns (plans: seq<Plan>, path: seq<Node>)
    requires |sizes| > 1 && sizes[|sizes| - 1].0 >= 3 && Attains(front, before, sizes[..|sizes| - 1])
    ensures Attains(plans, path, sizes)
  {
    var w := |sizes| - 1;
    var bs, inner := DepthBoundAttained(sizes[w].0, sizes[w].1);
    TasksAtLeast(front[w - 1].linear, front[w - 1].branches);
    var plan := Plan(sizes[w].0, bs, Some(before[|before| - 1]));
    plans, path := front + [plan], before + NodesOf(w, inner);
    assert LinkOk(plans, w);
    PathGoesOn(front, plan, before, inner);
  }

  /** For all sizes some choices, each workflow starting from the sink before it, have a path as long as the bound. */
  lemma {:induction false} RunDepthBoundAttained(sizes: seq<(nat, nat)>) returns (plans: seq<Plan>, path: seq<Node>)
    requires |sizes| > 0 && forall w :: 0 <= w < |sizes| ==> sizes[w].0 >= 3
    ensures Attains(plans, path, sizes)
    decreases |sizes|
  {
    var w := |sizes| - 1;
    if w == 0 {
      plans, path := AttainFirst(sizes);
    } else {
      var front, before := RunDepthBoundAttained(sizes[..w]);
      plans, path := AttainNext(sizes, front, before);
    }
  }

  // ----- every task is reachable

  /** Every task of every workflow is reachable from the gen task of the first workflow. */
  lemma {:induction false} RunReachable(plans: seq<Plan>, x: Node)
    requires ValidRun(plans) && IsTask(plans, x)
    ensures Reaches(EdgeIn(plans), Node(0, 0), x)
    decreases RunHeight(plans)(x)
  {
    var edge := EdgeIn(plans);
    if x == Node(0, 0) {
      ReachSelf(edge, x);
    } else {
      RunClimbs(plans);
      var p: Node;
      if x.k == 0 {
        assert LinkOk(plans, x.w);
        p := plans[x.w].from.value;
      } else {
        var k := HasParent(plans[x.w].linear, plans[x.w].branches, x.k);
        p := Node(x.w, k);
      }
      assert edge(p, x);
      RunHeightRange(plans, p);
      RunReachable(plans, p);
      ReachEdge(edge, p, x);
      ReachTrans(edge, Node(0, 0), p, x);
    }
  }
}
