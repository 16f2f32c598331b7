/**
 The generator's random choices as functions of the draws, in the order in which it makes them, and the converse: its
 runs are exactly those whose choices are in range, so every choice in range is made for some draws.
 */
module WorkflowChoices {
  import opened JavaRandom
  import opened Wrappers
  import opened Workflow
  import opened WorkflowLinks

  /** (int)(wSize * 0.3) + 1 */
  function BranchCount(wSize: nat): (n: nat)
    ensures 10 * (n - 1) <= 3 * wSize < 10 * n
  {
    wSize * 3 / 10 + 1
  }

  // ----- choices from draws

  /** One round of the branch loop: three draws. */
  function BranchAt(draw: Draws, k: nat, linear: nat): (b: Branch)
    requires linear >= 3
    ensures ValidBranch(linear, b)
  {
    var start := Pick(draw, k, linear - 2) + 1;
    Branch(start, Pick(draw, k + 1, 4), Pick(draw, k + 2, linear - 1 - start) + start + 2)
  }

  ghost function BranchesAt(draw: Draws, k: nat, linear: nat, n: nat): (bs: seq<Branch>)
    requires linear >= 3
    ensures |bs| == n && ValidBranches(linear, bs)
  {
    seq(n, (j: nat) => BranchAt(draw, k + 3 * j, linear))
  }

  lemma {:induction false} BranchesMore(draw: Draws, k: nat, l: nat, linear: nat, bs: seq<Branch>, b: Branch)
    requires linear >= 3 && l == k + 3 * |bs|
    requires bs == BranchesAt(draw, k, linear, |bs|) && b == BranchAt(draw, l, linear)
    ensures bs + [b] == BranchesAt(draw, k, linear, |bs| + 1)
  {
  }

  ghost function LinearAt(draw: Draws, k: nat, maxWSize: nat): (linear: nat)
    ensures linear >= 3
  {
    Pick(draw, k, maxWSize / 2) + 3
  }

  /** One workflow: the draw of its size, then those of its branches. */
  ghost function ShapeAt(draw: Draws, k: nat, maxWSize: nat, from: Option<Node>): (plan: Plan)
    ensures plan.linear >= 3 && ValidBranches(plan.linear, plan.branches) && |plan.branches| >= 1
  {
    var linear := LinearAt(draw, k, maxWSize);
    Plan(linear, BranchesAt(draw, k + 1, linear, BranchCount(linear)), from)
  }

  /** The start point of the next workflow: the draw of an earlier workflow, then of one of its tasks. */
  ghost function LinkAt(draw: Draws, k: nat, leftover: seq<int>, plans: seq<Plan>): Node
  {
    var w := Pick(draw, k, |plans|);
    Node(w, Pick(draw, k + 1, if w < |plans| then StartPoints(leftover, plans)[w] else 0) + 1)
  }

  /** The plan made from draw k on, after these plans. */
  type Maker = (seq<Plan>, nat) -> Plan

  ghost function MakerOf(draw: Draws, leftover: seq<int>, maxWSize: nat): Maker
  {
    (plans: seq<Plan>, k: nat) =>
      if plans == [] then ShapeAt(draw, k, maxWSize, None)
      else ShapeAt(draw, k + 2, maxWSize, Some(LinkAt(draw, k, leftover, plans)))
  }

  /** How many draws a plan takes. */
  ghost function Uses(plan: Plan): nat
  {
    (if plan.from.Some? then 2 else 0) + 1 + 3 * |plan.branches|
  }

  /** n plans, one after the other, and how many draws they take. */
  ghost function Made(make: Maker, n: nat): (r: (seq<Plan>, nat))
    ensures |r.0| == n
  {
    if n == 0 then ([], 0)
    else
      var (plans, k) := Made(make, n - 1);
      var plan := make(plans, k);
      (plans + [plan], k + Uses(plan))
  }

  /** A run of n workflows. */
  ghost function RunOf(draw: Draws, leftover: seq<int>, maxWSize: nat, n: nat): (plans: seq<Plan>)
    ensures |plans| == n
  {
    Made(MakerOf(draw, leftover, maxWSize), n).0
  }

  /** A size drawn, a number of branches for it, and branches drawn. */
  lemma {:induction false} DrawnShape(draw: Draws, k: nat, maxWSize: nat, plan: Plan)
    requires plan.linear == LinearAt(draw, k, maxWSize)
    requires 10 * (|plan.branches| - 1) <= 3 * plan.linear < 10 * |plan.branches|
    requires plan.branches == BranchesAt(draw, k + 1, plan.linear, |plan.branches|)
    ensures ShapeAt(draw, k, maxWSize, plan.from) == plan
  {
    assert |plan.branches| == BranchCount(plan.linear);
  }

  // ----- the runs are exactly those in range

  /** The sizes the generator can give a workflow. */
  ghost predicate Fits(maxWSize: nat, plan: Plan)
  {
    && 3 <= plan.linear < 3 + maxWSize / 2
    && 10 * (|plan.branches| - 1) <= 3 * plan.linear < 10 * |plan.branches|
    && ValidBranches(plan.linear, plan.branches)
  }

  ghost predicate AllFit(maxWSize: nat, plans: seq<Plan>)
  {
    forall w :: 0 <= w < |plans| ==> Fits(maxWSize, plans[w])
  }

  ghost predicate InRange(leftover: seq<int>, maxWSize: nat, plans: seq<Plan>)
  {
    AllFit(maxWSize, plans) && Choosable(leftover, plans)
  }

  ghost predicate Positive(leftover: seq<int>)
  {
    forall v :: 0 <= v < |leftover| ==> leftover[v] >= 1
  }

  lemma {:induction false} OneMorePlan(leftover: seq<int>, plans: seq<Plan>, plan: Plan)
    ensures StartPoints(leftover, plans + [plan]) == StartPoints(leftover, plans) + [Tasks(plan) - 1]
    ensures Choosable(leftover, plans + [plan]) <==>
      Choosable(leftover, plans) && ChoosableAt(leftover, plans + [plan], |plans|)
  {
    var longer := plans + [plan];
    var s, s' := StartPoints(leftover, plans), StartPoints(leftover, longer);
    assert s' == s + [Tasks(plan) - 1];
    forall w | 0 <= w < |plans|
      ensures ChoosableAt(leftover, longer, w) <==> ChoosableAt(leftover, plans, w)
    {
    }
    assert Choosable(leftover, longer) ==> ChoosableAt(leftover, longer, |plans|);
    if Choosable(leftover, longer) {
      forall w | 0 <= w < |plans|
        ensures ChoosableAt(leftover, plans, w)
      {
        assert ChoosableAt(leftover, longer, w);
      }
    }
  }

  /** These are the plans made by the draws up to k. */
  ghost predicate DrawnUpTo(draw: Draws, leftover: seq<int>, maxWSize: nat, plans: seq<Plan>, k: nat)
  {
    Made(MakerOf(draw, leftover, maxWSize), |plans|) == (plans, k)
  }

  /** The first plan, from the numbers drawn. */
  lemma {:induction false} FirstMade(draw: Draws, leftover: seq<int>, maxWSize: nat, plan: Plan)
    requires plan == ShapeAt(draw, 0, maxWSize, None)
    ensures DrawnUpTo(draw, leftover, maxWSize, [plan], Uses(plan))
    ensures StartPoints(leftover, [plan]) == leftover + [Tasks(plan) - 1]
  {
    assert Made(MakerOf(draw, leftover, maxWSize), 0) == ([], 0);
    OneMorePlan(leftover, [], plan);
    assert [] + [plan] == [plan] && StartPoints(leftover, []) == leftover;
  }

  /** The next plan, from the numbers drawn. */
  lemma {:induction false} NextMade(draw: Draws, k: nat, leftover: seq<int>, maxWSize: nat,
                                    plans: seq<Plan>, plan: Plan)
    requires plans != [] && plan == ShapeAt(draw, k + 2, maxWSize, Some(LinkAt(draw, k, leftover, plans)))
    requires DrawnUpTo(draw, leftover, maxWSize, plans, k)
    ensures DrawnUpTo(draw, leftover, maxWSize, plans + [plan], k + Uses(plan))
    ensures StartPoints(leftover, plans + [plan]) == StartPoints(leftover, plans) + [Tasks(plan) - 1]
  {
    OneMorePlan(leftover, plans, plan);
  }

  /** The state of a run: its plans are those made by the draws up to k, and the static list is that of the plans. */
  ghost predicate RunState(draw: Draws, leftover: seq<int>, maxWSize: nat, plans: seq<Plan>, k: nat, points: seq<int>)
  {
    && DrawnUpTo(draw, leftover, maxWSize, plans, k)
    && points == StartPoints(leftover, plans) && Positive(points)
  }

  lemma {:induction false} StateMore(draw: Draws, k: nat, l: nat, k': nat, leftover: seq<int>, maxWSize: nat,
                                     plans: seq<Plan>, from: Node, plan: Plan, points: seq<int>, points': seq<int>)
    requires plans != [] && from == LinkAt(draw, k, leftover, plans)
    requires l == k + 2 && plan == ShapeAt(draw, l, maxWSize, Some(from)) && k' == k + Uses(plan)
    requires RunState(draw, leftover, maxWSize, plans, k, points)
    requires points' == points + [Tasks(plan) - 1] && Tasks(plan) >= 2
    ensures RunState(draw, leftover, maxWSize, plans + [plan], k', points')
  {
    NextMade(draw, k, leftover, maxWSize, plans, plan);
  }

  lemma {:induction false} PointsPositive(leftover: seq<int>, plans: seq<Plan>, w: nat)
    requires Positive(leftover) && w < |plans|
    requires forall v :: 0 <= v < |plans| ==> plans[v].linear >= 1
    ensures StartPoints(leftover, plans)[w] >= 1
  {
    if w >= |leftover| {
      var plan := plans[w - |leftover|];
      TasksAtLeast(plan.linear, plan.branches);
    }
  }

  lemma {:induction false} ShapeFits(draw: Draws, k: nat, maxWSize: nat, from: Option<Node>)
    requires maxWSize >= 2
    ensures Fits(maxWSize, ShapeAt(draw, k, maxWSize, from))
  {
    assert |ShapeAt(draw, k, maxWSize, from).branches| == BranchCount(LinearAt(draw, k, maxWSize));
  }

  lemma {:induction false} MadeInRange(draw: Draws, leftover: seq<int>, maxWSize: nat, plans: seq<Plan>, k: nat)
    requires maxWSize >= 2 && Positive(leftover) && AllFit(maxWSize, plans)
    ensures var plan := MakerOf(draw, leftover, maxWSize)(plans, k);
      Fits(maxWSize, plan) && ChoosableAt(leftover, plans + [plan], |plans|)
  {
    var plan := MakerOf(draw, leftover, maxWSize)(plans, k);
    OneMorePlan(leftover, plans, plan);
    if plans == [] {
      ShapeFits(draw, k, maxWSize, None);
      assert plan == ShapeAt(draw, k, maxWSize, None);
    } else {
      var from := LinkAt(draw, k, leftover, plans);
      ShapeFits(draw, k + 2, maxWSize, Some(from));
      assert plan == ShapeAt(draw, k + 2, maxWSize, Some(from));
      PointsPositive(leftover, plans, from.w);
    }
  }

  lemma {:induction false} InRangeMore(leftover: seq<int>, maxWSize: nat, plans: seq<Plan>, plan: Plan)
    requires InRange(leftover, maxWSize, plans)
    requires Fits(maxWSize, plan) && ChoosableAt(leftover, plans + [plan], |plans|)
    ensures InRange(leftover, maxWSize, plans + [plan])
  {
    OneMorePlan(leftover, plans, plan);
  }

  /** Whatever the draws, the choices are in range. */
  lemma {:induction false} DrawnIsChoosable(draw: Draws, leftover: seq<int>, maxWSize: nat, n: nat)
    requires maxWSize >= 2 && Positive(leftover)
    ensures InRange(leftover, maxWSize, RunOf(draw, leftover, maxWSize, n))
    decreases n
  {
    if n > 0 {
      var (plans, k) := Made(MakerOf(draw, leftover, maxWSize), n - 1);
      DrawnIsChoosable(draw, leftover, maxWSize, n - 1);
      MadeInRange(draw, leftover, maxWSize, plans, k);
      InRangeMore(leftover, maxWSize, plans, MakerOf(draw, leftover, maxWSize)(plans, k));
    }
  }

  // ----- draws for given choices

  ghost function BranchDraws(bs: seq<Branch>): (ds: seq<nat>)
    requires forall j :: 0 <= j < |bs| ==> 1 <= bs[j].start && bs[j].start + 2 <= bs[j].merge
    ensures |ds| == 3 * |bs|
  {
    if bs == [] then []
    else
      var last := |bs| - 1;
      BranchDraws(bs[..last]) + [bs[last].start - 1, bs[last].extra, bs[last].merge - bs[last].start - 2]
  }

  lemma {:induction false} BranchDrawsAt(bs: seq<Branch>, j: nat)
    requires forall i :: 0 <= i < |bs| ==> 1 <= bs[i].start && bs[i].start + 2 <= bs[i].merge
    requires j < |bs|
    ensures BranchDraws(bs)[3 * j] == bs[j].start - 1 && BranchDraws(bs)[3 * j + 1] == bs[j].extra
    ensures BranchDraws(bs)[3 * j + 2] == bs[j].merge - bs[j].start - 2
    decreases |bs|
  {
    if j < |bs| - 1 { BranchDrawsAt(bs[..|bs| - 1], j); }
  }

  /** The draws of a branch give that branch. */
  lemma {:induction false} BranchDrawn(draw: Draws, k: nat, linear: nat, b: Branch)
    requires linear >= 3 && ValidBranch(linear, b)
    requires draw(k) == b.start - 1 && draw(k + 1) == b.extra && draw(k + 2) == b.merge - b.start - 2
    ensures BranchAt(draw, k, linear) == b
  {
  }

  ghost function ShapeDraws(plan: Plan): (ds: seq<nat>)
    requires plan.linear >= 3 && ValidBranches(plan.linear, plan.branches)
    ensures |ds| == 1 + 3 * |plan.branches|
  {
    assert forall j :: 0 <= j < |plan.branches| ==> ValidBranch(plan.linear, plan.branches[j]);
    [plan.linear - 3] + BranchDraws(plan.branches)
  }

  lemma {:induction false} BranchesDrawn(draw: Draws, k: nat, linear: nat, bs: seq<Branch>)
    requires linear >= 3 && ValidBranches(linear, bs)
    requires forall j :: 0 <= j < |bs| ==> 1 <= bs[j].start && bs[j].start + 2 <= bs[j].merge
    requires DrawnAt(draw, k, BranchDraws(bs))
    ensures BranchesAt(draw, k, linear, |bs|) == bs
  {
    forall j | 0 <= j < |bs|
      ensures BranchAt(draw, k + 3 * j, linear) == bs[j]
    {
      BranchDrawsAt(bs, j);
      assert draw(k + 3 * j) == BranchDraws(bs)[3 * j];
      assert draw(k + (3 * j + 1)) == BranchDraws(bs)[3 * j + 1] && draw(k + (3 * j + 2)) == BranchDraws(bs)[3 * j + 2];
      assert ValidBranch(linear, bs[j]);
      BranchDrawn(draw, k + 3 * j, linear, bs[j]);
    }
  }

  lemma {:induction false} ShapeDrawn(draw: Draws, k: nat, maxWSize: nat, plan: Plan)
    requires Fits(maxWSize, plan) && DrawnAt(draw, k, ShapeDraws(plan))
    ensures ShapeAt(draw, k, maxWSize, plan.from) == plan
  {
    var bs := plan.branches;
    assert forall j :: 0 <= j < |bs| ==> ValidBranch(plan.linear, bs[j]);
    DrawnParts(draw, k, [plan.linear - 3], BranchDraws(bs));
    DrawnAs(draw, k, [plan.linear - 3], 0);
    BranchesDrawn(draw, k + 1, plan.linear, bs);
  }

  ghost predicate HasDraws(plan: Plan)
  {
    plan.linear >= 3 && ValidBranches(plan.linear, plan.branches) && (plan.from.Some? ==> plan.from.value.k >= 1)
  }

  /** The draws behind a plan: its start point if it has one, then its shape. */
  ghost function DrawsOf(plan: Plan): (ds: seq<nat>)
    requires HasDraws(plan)
    ensures |ds| == Uses(plan)
  {
    (if plan.from.Some? then [plan.from.value.w, plan.from.value.k - 1] else []) + ShapeDraws(plan)
  }

  lemma {:induction false} LinkInRange(leftover: seq<int>, front: seq<Plan>, plan: Plan)
    requires ChoosableAt(leftover, front + [plan], |front|)
    ensures plan.from.None? <==> front == []
    ensures front != [] ==> plan.from.value.w < |front|
    ensures front != [] ==> 1 <= plan.from.value.k <= StartPoints(leftover, front)[plan.from.value.w]
  {
    OneMorePlan(leftover, front, plan);
    assert (front + [plan])[|front|] == plan;
  }

  lemma {:induction false} LinkDrawn(draw: Draws, k: nat, leftover: seq<int>, front: seq<Plan>, from: Node)
    requires from.w < |front| && 1 <= from.k <= StartPoints(leftover, front)[from.w]
    requires draw(k) == from.w && draw(k + 1) == from.k - 1
    ensures LinkAt(draw, k, leftover, front) == from
  {
  }

  /** Where its draws stand, the plan is made. */
  lemma {:induction false} PlanDrawn(draw: Draws, k: nat, leftover: seq<int>, maxWSize: nat,
                                     front: seq<Plan>, plan: Plan)
    requires Fits(maxWSize, plan) && ChoosableAt(leftover, front + [plan], |front|)
    requires HasDraws(plan) && DrawnAt(draw, k, DrawsOf(plan))
    ensures MakerOf(draw, leftover, maxWSize)(front, k) == plan
  {
    LinkInRange(leftover, front, plan);
    if front == [] {
      assert DrawsOf(plan) == ShapeDraws(plan);
      ShapeDrawn(draw, k, maxWSize, plan);
    } else {
      var from := plan.from.value;
      DrawnParts(draw, k, [from.w, from.k - 1], ShapeDraws(plan));
      DrawnAs(draw, k, [from.w, from.k - 1], 0);
      DrawnAs(draw, k, [from.w, from.k - 1], 1);
      LinkDrawn(draw, k, leftover, front, from);
      ShapeDrawn(draw, k + 2, maxWSize, plan);
    }
  }

  // ----- all draws of a run

  ghost function UsesOf(plans: seq<Plan>): nat
  {
    if plans == [] then 0 else UsesOf(plans[..|plans| - 1]) + Uses(plans[|plans| - 1])
  }

  ghost function RunDraws(plans: seq<Plan>): (ds: seq<nat>)
    requires forall w :: 0 <= w < |plans| ==> HasDraws(plans[w])
    ensures |ds| == UsesOf(plans)
  {
    if plans == [] then [] else RunDraws(plans[..|plans| - 1]) + DrawsOf(plans[|plans| - 1])
  }

  lemma {:induction false} UsesOfFront(plans: seq<Plan>, w: nat)
    requires w < |plans|
    ensures UsesOf(plans[..w]) + Uses(plans[w]) <= UsesOf(plans)
    decreases |plans|
  {
    var last := |plans| - 1;
    if w < last {
      UsesOfFront(plans[..last], w);
      assert plans[..last][..w] == plans[..w];
    }
  }

  /** Each plan's draws stand where the plans before it end. */
  lemma {:induction false} DrawsStand(plans: seq<Plan>, w: nat)
    requires w < |plans| && forall v :: 0 <= v < |plans| ==> HasDraws(plans[v])
    ensures DrawnAt(AsDraws(0, RunDraws(plans)), UsesOf(plans[..w]), DrawsOf(plans[w]))
    decreases |plans|
  {
    var last := |plans| - 1;
    var front := plans[..last];
    if w < last {
      DrawsStand(front, w);
      assert front[..w] == plans[..w] && front[w] == plans[w];
      UsesOfFront(front, w);
      AsDrawsLater(RunDraws(front), DrawsOf(plans[last]), UsesOf(front[..w]), DrawsOf(front[w]));
    }
  }

  /** The maker makes plan w after those before it. */
  ghost predicate MakesAt(make: Maker, plans: seq<Plan>, w: nat)
    requires w < |plans|
  {
    make(plans[..w], UsesOf(plans[..w])) == plans[w]
  }

  lemma {:induction false} MadeOneMore(make: Maker, front: seq<Plan>, plan: Plan)
    requires Made(make, |front|) == (front, UsesOf(front)) && make(front, UsesOf(front)) == plan
    ensures Made(make, |front| + 1) == (front + [plan], UsesOf(front + [plan]))
  {
    assert (front + [plan])[..|front|] == front;
  }

  /** A maker that makes each plan after those before it makes them all. */
  lemma {:induction false} MadeInTurn(make: Maker, plans: seq<Plan>, n: nat)
    requires n <= |plans| && forall w :: 0 <= w < |plans| ==> MakesAt(make, plans, w)
    ensures Made(make, n) == (plans[..n], UsesOf(plans[..n]))
    decreases n
  {
    if n > 0 {
      MadeInTurn(make, plans, n - 1);
      assert MakesAt(make, plans, n - 1);
      MadeOneMore(make, plans[..n - 1], plans[n - 1]);
      assert plans[..n] == plans[..n - 1] + [plans[n - 1]];
    }
  }

  lemma {:induction false} InRangeAt(leftover: seq<int>, maxWSize: nat, plans: seq<Plan>, w: nat)
    requires InRange(leftover, maxWSize, plans) && w < |plans|
    ensures Fits(maxWSize, plans[w]) && HasDraws(plans[w]) && ChoosableAt(leftover, plans[..w] + [plans[w]], w)
    ensures |plans[w].branches| >= 1
    decreases |plans|
  {
    var last := |plans| - 1;
    var front := plans[..last];
    assert plans == front + [plans[last]];
    assert ChoosableAt(leftover, plans, w);
    OneMorePlan(leftover, front, plans[last]);
    if w < last {
      InRangeAt(leftover, maxWSize, front, w);
      assert front[..w] == plans[..w];
    }
  }

  lemma {:induction false} DrawsFor(leftover: seq<int>, maxWSize: nat, plans: seq<Plan>) returns (draw: Draws)
    requires InRange(leftover, maxWSize, plans)
    ensures RunOf(draw, leftover, maxWSize, |plans|) == plans
  {
    forall w | 0 <= w < |plans|
      ensures HasDraws(plans[w])
    {
      InRangeAt(leftover, maxWSize, plans, w);
    }
    draw := AsDraws(0, RunDraws(plans));
    forall w | 0 <= w < |plans|
      ensures MakesAt(MakerOf(draw, leftover, maxWSize), plans, w)
    {
      InRangeAt(leftover, maxWSize, plans, w);
      DrawsStand(plans, w);
      PlanDrawn(draw, UsesOf(plans[..w]), leftover, maxWSize, plans[..w], plans[w]);
    }
    MadeInTurn(MakerOf(draw, leftover, maxWSize), plans, |plans|);
    assert plans[..|plans|] == plans;
  }

  /** The generator's runs are exactly those whose choices are in range. */
  lemma {:induction false} RunsExactly(leftover: seq<int>, maxWSize: nat, plans: seq<Plan>)
    requires maxWSize >= 2 && Positive(leftover)
    ensures InRange(leftover, maxWSize, plans) <==> exists draw :: RunOf(draw, leftover, maxWSize, |plans|) == plans
  {
    if InRange(leftover, maxWSize, plans) {
      var draw := DrawsFor(leftover, maxWSize, plans);
    }
    if draw :| RunOf(draw, leftover, maxWSize, |plans|) == plans {
      DrawnIsChoosable(draw, leftover, maxWSize, |plans|);
    }
  }

  /** Whatever the draws, a run links to existing tasks: exactly when what it found in the static list is harmless. */
  lemma {:induction false} AlwaysLinksExactly(leftover: seq<int>, maxWSize: nat, n: nat)
    requires maxWSize >= 2 && Positive(leftover)
    ensures Harmless(leftover, n) <==> forall draw :: Linked(RunOf(draw, leftover, maxWSize, n))
  {
    if Harmless(leftover, n) {
      forall draw
        ensures Linked(RunOf(draw, leftover, maxWSize, n))
      {
        var plans := RunOf(draw, leftover, maxWSize, n);
        DrawnIsChoosable(draw, leftover, maxWSize, n);
        forall w | 0 <= w < n
          ensures HasDraws(plans[w]) && |plans[w].branches| >= 1
        {
          InRangeAt(leftover, maxWSize, plans, w);
        }
        HarmlessLinks(leftover, plans);
      }
    } else {
      var v := if |leftover| < n - 1 then |leftover| else var u :| 0 <= u < n - 1 && leftover[u] > 4; u;
      var plans := StaleRun(leftover, n, v);
      assert InRange(leftover, maxWSize, plans);
      var draw := DrawsFor(leftover, maxWSize, plans);
      assert !Linked(RunOf(draw, leftover, maxWSize, n));
    }
  }

  lemma {:induction false} DrawnShapes(draw: Draws, leftover: seq<int>, maxWSize: nat, n: nat)
    requires maxWSize >= 2 && Positive(leftover)
    ensures ValidShapes(RunOf(draw, leftover, maxWSize, n))
  {
    var plans := RunOf(draw, leftover, maxWSize, n);
    DrawnIsChoosable(draw, leftover, maxWSize, n);
    forall w | 0 <= w < n
      ensures HasDraws(plans[w])
    {
      InRangeAt(leftover, maxWSize, plans, w);
    }
  }

  lemma {:induction false} MadeIsRun(draw: Draws, leftover: seq<int>, maxWSize: nat, plans: seq<Plan>, k: nat)
    requires maxWSize >= 2 && Positive(leftover) && DrawnUpTo(draw, leftover, maxWSize, plans, k) && plans != []
    ensures plans == RunOf(draw, leftover, maxWSize, |plans|)
    ensures Harmless(leftover, |plans|) ==> ValidRun(plans)
  {
    AlwaysLinksExactly(leftover, maxWSize, |plans|);
    DrawnShapes(draw, leftover, maxWSize, |plans|);
  }
}
