/**
 The generator itself: tasks are objects whose parent lists grow, workflows are lists of such objects, and the
 random choices are those of the draws, in the order in which `nextInt` is called over the whole run.
 */
module WorkflowGen {
  import opened JavaRandom
  import opened Wrappers
  import opened Text
  import opened Workflow
  import opened WorkflowLinks
  import opened WorkflowChoices

  /** Everything a task shows, as a value. */
  datatype Entry = Entry(workflowID: string, taskID: string, invalidated: bool,
                         idxParent: Option<seq<nat>>, startPoint: Option<(string, string)>)

  class Task {
    const workflowID: string
    const taskID: string
    var invalidated: bool
    var idxParent: Option<seq<nat>>             // None is the gen task's null list
    const startPoint: Option<(string, string)>  // the gen task's parent workflow and parent task

    constructor (workflowID: string, taskID: string, invalidated: bool, idxParent: seq<nat>)
      ensures View() == Entry(workflowID, taskID, invalidated, Some(idxParent), None)
    {
      this.workflowID, this.taskID, this.invalidated := workflowID, taskID, invalidated;
      this.idxParent, this.startPoint := Some(idxParent), None;
    }

    constructor Gen(workflowID: string, taskID: string, pWID: string, pTID: string)
      ensures View() == Entry(workflowID, taskID, false, None, Some((pWID, pTID)))
    {
      this.workflowID, this.taskID, this.invalidated := workflowID, taskID, false;
      this.idxParent, this.startPoint := None, Some((pWID, pTID));
    }

    method AddIdxParent(parent: nat)
      requires idxParent.Some?
      modifies this
      ensures View() == old(View()).(idxParent := Some(old(idxParent.value) + [parent]))
    {
      idxParent := Some(idxParent.value + [parent]);
    }

    ghost function View(): Entry
      reads this
    {
      Entry(workflowID, taskID, invalidated, idxParent, startPoint)
    }
  }

  ghost function Views(workflow: seq<Task>): (es: seq<Entry>)
    reads workflow
    ensures |es| == |workflow|
  {
    seq(|workflow|, i requires 0 <= i < |workflow| reads workflow => workflow[i].View())
  }

  /** The entries of a workflow with graph g: the gen task, then tasks t1, t2, ... with their parent lists. */
  ghost function Describe(id: string, from: (string, string), g: Graph): (es: seq<Entry>)
    ensures |es| == |g|
  {
    seq(|g|, i requires 0 <= i < |g| => if i == 0 then Entry(id, "gen", false, None, Some(from))
                                        else Entry(id, "t" + Decimal(i), false, Some(g[i]), None))
  }

  /** The list holds distinct tasks that together describe the graph g. */
  ghost predicate Shows(workflow: seq<Task>, id: string, from: (string, string), g: Graph)
    reads workflow
  {
    && (forall i, j :: 0 <= i < j < |workflow| ==> workflow[i] != workflow[j])
    && |g| > 0 && Views(workflow) == Describe(id, from, g)
  }

  /** The gen task is called gen and task i t with its index, so no two tasks of a workflow carry the same id. */
  lemma {:induction false} TaskIdsDistinct(id: string, from: (string, string), g: Graph, i: nat, j: nat)
    requires i < j < |g|
    ensures var e := Describe(id, from, g);
      e[0].taskID == "gen" && e[j].taskID == "t" + Decimal(j) && e[i].taskID != e[j].taskID
  {
    var a, b := Describe(id, from, g)[i].taskID, Describe(id, from, g)[j].taskID;
    assert b[0] == 't' && "gen"[0] == 'g';
    if i > 0 && a == b {
      assert a[1..] == Decimal(i) && b[1..] == Decimal(j);
      DecimalInjective(i, j);
    }
  }

  lemma {:induction false} DescribeMerge(id: string, from: (string, string), g: Graph, m: nat, c: nat)
    requires 0 < m < |g|
    ensures Describe(id, from, Merge(g, m, c))
         == Describe(id, from, g)[m := Describe(id, from, g)[m].(idxParent := Some(g[m] + [c]))]
  {
  }

  lemma {:induction false} HangOneMore(g: Graph, start: nat, extra: nat)
    ensures Hang(g, start, extra) + [[|g| + extra]] == Hang(g, start, extra + 1)
  {
  }

  function NumberText(n: Option<nat>): string
  {
    if n.None? then "null" else Decimal(n.value)
  }

  /** `workflow.add(new task(...))` for the next free index. */
  method Append(workflow: seq<Task>, id: string, parent: nat, ghost from: (string, string), ghost g: Graph)
    returns (t: Task)
    requires Shows(workflow, id, from, g)
    ensures fresh(t) && Shows(workflow + [t], id, from, g + [[parent]])
  {
    t := new Task(id, "t" + Decimal(|workflow|), false, [parent]);
    assert Views(workflow + [t]) == Views(workflow) + [t.View()];
    assert Describe(id, from, g + [[parent]]) == Describe(id, from, g) + [t.View()];
  }

  /** The main line: the gen task and tasks t1 to t`wSize`, each the child of the one before. */
  method LayMainLine(gen: Task, id: string, wSize: nat, ghost from: (string, string)) returns (workflow: seq<Task>)
    requires wSize >= 1 && Shows([gen], id, from, [[]])
    ensures |workflow| == wSize + 1 && workflow[0] == gen
    ensures forall i :: 1 <= i < |workflow| ==> fresh(workflow[i])
    ensures Shows(workflow, id, from, MainLine(wSize))
  {
    var t := Append([gen], id, 0, from, [[]]);
    workflow := [gen] + [t];
    var c := 1;
    assert [[]] + [[0]] == MainLine(1);
    while c < wSize
      invariant 1 <= c <= wSize && |workflow| == c + 1 && workflow[0] == gen
      invariant forall i :: 1 <= i < |workflow| ==> fresh(workflow[i])
      invariant Shows(workflow, id, from, MainLine(c))
    {
      t := Append(workflow, id, c, from, MainLine(c));
      workflow := workflow + [t];
      assert MainLine(c) + [[c]] == MainLine(c + 1);
      c := c + 1;
    }
  }

  /** The tasks of one branch. */
  method HangBranch(workflow: seq<Task>, id: string, randIdx: nat, branchLen: nat,
                    ghost from: (string, string), ghost g: Graph)
    returns (added: seq<Task>)
    requires Shows(workflow, id, from, g)
    ensures |added| == 1 + branchLen
    ensures forall i :: 0 <= i < |added| ==> fresh(added[i])
    ensures Shows(workflow + added, id, from, Hang(g, randIdx, branchLen))
  {
    var t := Append(workflow, id, randIdx, from, g);
    added := [t];
    var c := |workflow|;
    var j := 0;
    assert g + [[randIdx]] == Hang(g, randIdx, 0);
    while j < branchLen
      invariant 0 <= j <= branchLen
      invariant |added| == 1 + j && c == |workflow| + j
      invariant forall i :: 0 <= i < |added| ==> fresh(added[i])
      invariant Shows(workflow + added, id, from, Hang(g, randIdx, j))
    {
      assert |Views(workflow)| == |g|;
      HangOneMore(g, randIdx, j);
      t := Append(workflow + added, id, c, from, Hang(g, randIdx, j));
      assert workflow + added + [t] == workflow + (added + [t]);
      added := added + [t];
      c := c + 1;
      j := j + 1;
    }
  }

  /** The merge task, a main-line task, gets the branch's last task as one more parent. */
  method MergeBranch(workflow: seq<Task>, id: string, m: nat, c: nat, ghost from: (string, string), ghost g: Graph)
    requires Shows(workflow, id, from, g) && 0 < m < |workflow|
    modifies workflow[m]
    ensures Shows(workflow, id, from, Merge(g, m, c))
  {
    var merge := workflow[m];
    ghost var before := Views(workflow);
    assert merge.View() == before[m] == Describe(id, from, g)[m];
    merge.AddIdxParent(c);
    assert Views(workflow) == before[m := merge.View()];
    DescribeMerge(id, from, g, m, c);
  }

  /** The branch's tasks, and the merge of the last of them. */
  method HangAndMerge(workflow: seq<Task>, id: string, randIdx: nat, branchLen: nat, m: nat,
                      ghost from: (string, string), ghost g: Graph)
    returns (added: seq<Task>)
    requires 0 < m < |workflow| == |g| && Shows(workflow, id, from, g)
    modifies workflow
    ensures |added| > 0 && forall i :: 0 <= i < |added| ==> fresh(added[i])
    ensures Shows(workflow + added, id, from, AddBranch(g, Branch(randIdx, branchLen, m)))
  {
    added := HangBranch(workflow, id, randIdx, branchLen, from, g);
    assert (workflow + added)[m] == workflow[m];
    MergeBranch(workflow + added, id, m, |workflow + added| - 1, from, Hang(g, randIdx, branchLen));
  }

  /** One round of the branch loop: leave the line, append the branch, merge it back. */
  method AddRandomBranch(rand: Random, workflow: seq<Task>, id: string, linear: nat,
                         ghost from: (string, string), ghost g: Graph)
    returns (added: seq<Task>, ghost b: Branch)
    requires 3 <= linear < |workflow| && Shows(workflow, id, from, g)
    modifies rand, workflow
    ensures b == BranchAt(rand.draw, old(rand.next), linear) && rand.next == old(rand.next) + 3
    ensures b.merge < |g|
    ensures |added| > 0 && forall i :: 0 <= i < |added| ==> fresh(added[i])
    ensures Shows(workflow + added, id, from, AddBranch(g, b))
  {
    assert |Views(workflow)| == |g|;
    b := BranchAt(rand.draw, rand.next, linear);
    var n := rand.NextInt(linear - 2);
    var randIdx := n + 1;
    var branchLen := rand.NextInt(4);
    n := rand.NextInt(linear - 1 - randIdx);
    var m := n + randIdx + 2;
    assert b == Branch(randIdx, branchLen, m);
    added := HangAndMerge(workflow, id, randIdx, branchLen, m, from, g);
  }

  /** The branch loop. */
  method AddRandomBranches(rand: Random, line: seq<Task>, id: string, branchCount: nat, ghost from: (string, string))
    returns (workflow: seq<Task>, ghost bs: seq<Branch>)
    requires |line| > 3 && Shows(line, id, from, MainLine(|line| - 1))
    modifies rand, line
    ensures bs == BranchesAt(rand.draw, old(rand.next), |line| - 1, branchCount)
    ensures rand.next == old(rand.next) + 3 * branchCount
    ensures Shows(workflow, id, from, Build(|line| - 1, bs))
  {
    var linear := |line| - 1;
    workflow, bs := line, [];
    var i := 0;
    ghost var k := rand.next;
    while i < branchCount
      invariant 0 <= i <= branchCount && rand.next == k + 3 * i
      invariant bs == BranchesAt(rand.draw, k, linear, i)
      invariant |workflow| > linear
      invariant Shows(workflow, id, from, Build(linear, bs))
      invariant forall j :: 0 <= j < |workflow| ==> workflow[j] in line || fresh(workflow[j])
    {
      ghost var b;
      var added;
      ghost var l := rand.next;
      added, b := AddRandomBranch(rand, workflow, id, linear, from, Build(linear, bs));
      workflow := workflow + added;
      BranchesMore(rand.draw, k, l, linear, bs, b);
      assert (bs + [b])[..|bs|] == bs;
      bs := bs + [b];
      i := i + 1;
    }
  }

  /** A workflow shows its plan: an id, the start point, and the graph of its branches. */
  ghost predicate ShowsPlan(workflow: seq<Task>, id: string, from: (string, string), maxWSize: nat, plan: Plan)
    reads workflow
  {
    Fits(maxWSize, plan) && Shows(workflow, id, from, Build(plan.linear, plan.branches))
  }

  /** The main line and the branches of a workflow of this size. */
  method LayAndBranch(rand: Random, wSize: nat, id: string, stpt: string, stwf: string)
    returns (workflow: seq<Task>, ghost bs: seq<Branch>)
    requires wSize >= 3
    modifies rand
    ensures 10 * (|bs| - 1) <= 3 * wSize < 10 * |bs|
    ensures bs == BranchesAt(rand.draw, old(rand.next), wSize, |bs|) && rand.next == old(rand.next) + 3 * |bs|
    ensures Shows(workflow, id, (stwf, stpt), Build(wSize, bs)) && |workflow| == TaskCount(wSize, bs)
  {
    var gen := new Task.Gen(id, "gen", stwf, stpt);
    assert Views([gen]) == Describe(id, (stwf, stpt), [[]]);
    workflow := LayMainLine(gen, id, wSize, (stwf, stpt));
    workflow, bs := AddRandomBranches(rand, workflow, id, BranchCount(wSize), (stwf, stpt));
    assert |workflow| == TaskCount(wSize, bs) by {
      assert |Views(workflow)| == |Build(wSize, bs)|;
      Conservation(wSize, bs);
    }
  }

  method RandomWorkflow(rand: Random, maxWSize: nat, wf: nat, stpt: Option<nat>, stwf: Option<nat>,
                        ghost from: Option<Node>)
    returns (workflow: seq<Task>, ghost plan: Plan)
    requires maxWSize >= 2
    modifies rand
    ensures plan == ShapeAt(rand.draw, old(rand.next), maxWSize, from)
    ensures rand.next == old(rand.next) + 1 + 3 * |plan.branches|
    ensures 10 * (|plan.branches| - 1) <= 3 * plan.linear < 10 * |plan.branches|
    ensures ShowsPlan(workflow, "w" + Decimal(wf), (NumberText(stwf), NumberText(stpt)), maxWSize, plan)
    ensures |workflow| == Tasks(plan)
  {
    ghost var k := rand.next;
    var r := rand.NextInt(maxWSize / 2);
    ghost var bs;
    workflow, bs := LayAndBranch(rand, r + 3, "w" + Decimal(wf), NumberText(stpt), NumberText(stwf));
    plan := Plan(r + 3, bs, from);
    DrawnShape(rand.draw, k, maxWSize, plan);
  }

  ghost function FromText(from: Option<Node>): (string, string)
  {
    if from.None? then ("null", "null") else (Decimal(from.value.w), Decimal(from.value.k))
  }

  /** What one generated workflow shows of its plan. */
  ghost predicate Realises(workflow: seq<Task>, maxWSize: nat, w: nat, plan: Plan)
    reads workflow
  {
    ShowsPlan(workflow, "w" + Decimal(w), FromText(plan.from), maxWSize, plan)
  }

  ghost function TasksOf(printed: seq<seq<Task>>): set<Task>
  {
    set w, k | 0 <= w < |printed| && 0 <= k < |printed[w]| :: printed[w][k]
  }

  /** Every workflow printed shows its plan. */
  ghost predicate AllRealise(printed: seq<seq<Task>>, maxWSize: nat, plans: seq<Plan>)
    reads TasksOf(printed)
  {
    && |printed| == |plans|
    && (|plans| > 0 ==>
          var last := |plans| - 1;
          assert forall t :: t in printed[last] ==> t in TasksOf(printed);
          assert forall t :: t in TasksOf(printed[..last]) ==> t in TasksOf(printed);
          AllRealise(printed[..last], maxWSize, plans[..last]) && Realises(printed[last], maxWSize, last, plans[last]))
  }

  lemma {:induction false} AllRealiseExtends(printed: seq<seq<Task>>, maxWSize: nat, plans: seq<Plan>,
                                             workflow: seq<Task>, plan: Plan)
    requires AllRealise(printed, maxWSize, plans) && Realises(workflow, maxWSize, |plans|, plan)
    ensures AllRealise(printed + [workflow], maxWSize, plans + [plan])
  {
    assert (printed + [workflow])[..|printed|] == printed && (plans + [plan])[..|plans|] == plans;
  }

  lemma {:induction false} OneRealises(workflow: seq<Task>, maxWSize: nat, plan: Plan)
    requires Realises(workflow, maxWSize, 0, plan)
    ensures AllRealise([workflow], maxWSize, [plan])
  {
    assert AllRealise([], maxWSize, []);
    AllRealiseExtends([], maxWSize, [], workflow, plan);
    assert [] + [workflow] == [workflow] && [] + [plan] == [plan];
  }

  class RandomizeGen {
    const maxWorkflows: nat
    const maxWSize: nat
    var startPoint: seq<int>

    /** The default settings. */
    constructor ()
      ensures maxWorkflows == 10 && maxWSize == 10 && startPoint == []
    {
      maxWorkflows, maxWSize, startPoint := 10, 10, [];
    }

    /** One random workflow; its last index is remembered for later start points. */
    method GenerateRandomGraphs(rand: Random, wf: nat, stpt: Option<nat>, stwf: Option<nat>, ghost from: Option<Node>)
      returns (workflow: seq<Task>, ghost plan: Plan)
      requires maxWSize >= 2
      modifies this`startPoint, rand
      ensures plan == ShapeAt(rand.draw, old(rand.next), maxWSize, from)
      ensures rand.next == old(rand.next) + 1 + 3 * |plan.branches|
      ensures 10 * (|plan.branches| - 1) <= 3 * plan.linear < 10 * |plan.branches|
      ensures ShowsPlan(workflow, "w" + Decimal(wf), (NumberText(stwf), NumberText(stpt)), maxWSize, plan)
      ensures startPoint == old(startPoint) + [Tasks(plan) - 1] && Tasks(plan) >= 5
    {
      workflow, plan := RandomWorkflow(rand, maxWSize, wf, stpt, stwf, from);
      TasksAtLeast(plan.linear, plan.branches);
      startPoint := startPoint + [|workflow| - 1];
    }

    method FirstWorkflow(rand: Random) returns (printed: seq<seq<Task>>, ghost plan: Plan)
      requires maxWSize >= 2
      modifies this`startPoint, rand
      ensures plan == ShapeAt(rand.draw, old(rand.next), maxWSize, None) && rand.next == old(rand.next) + Uses(plan)
      ensures AllRealise(printed, maxWSize, [plan])
      ensures startPoint == old(startPoint) + [Tasks(plan) - 1] && Tasks(plan) >= 5
    {
      var workflow;
      workflow, plan := GenerateRandomGraphs(rand, 0, None, None, None);
      printed := [workflow];
      OneRealises(workflow, maxWSize, plan);
    }

    /** The start point of the next workflow: an earlier one, and one of the tasks the list allows there. */
    method PickStart(rand: Random, i: nat, ghost leftover: seq<int>, ghost plans: seq<Plan>)
      returns (randWf: nat, stpt: nat)
      requires 0 < i == |plans| && startPoint == StartPoints(leftover, plans)
      requires Positive(startPoint)
      modifies rand
      ensures Node(randWf, stpt) == LinkAt(rand.draw, old(rand.next), leftover, plans)
      ensures rand.next == old(rand.next) + 2
    {
      randWf := rand.NextInt(i);
      stpt := rand.NextInt(startPoint[randWf]);
      stpt := stpt + 1;
    }

    /** The next workflow, and the plan it shows: with it, the plans are again those made by the draws. */
    method StartedWorkflow(rand: Random, i: nat, ghost leftover: seq<int>, ghost plans: seq<Plan>)
      returns (workflow: seq<Task>, ghost plan: Plan)
      requires maxWSize >= 2
      requires 0 < i == |plans| && RunState(rand.draw, leftover, maxWSize, plans, rand.next, startPoint)
      modifies this`startPoint, rand
      ensures RunState(rand.draw, leftover, maxWSize, plans + [plan], rand.next, startPoint)
      ensures Realises(workflow, maxWSize, i, plan)
    {
      ghost var k, points := rand.next, startPoint;
      var randWf, stpt := PickStart(rand, i, leftover, plans);
      ghost var l, from := rand.next, Node(randWf, stpt);
      workflow, plan := GenerateRandomGraphs(rand, i, Some(stpt), Some(randWf), Some(from));
      StateMore(rand.draw, k, l, rand.next, leftover, maxWSize, plans, from, plan, points, startPoint);
    }

    /** The body of the main loop: pick an earlier workflow and one of its tasks, and generate from there. */
    method NextWorkflow(rand: Random, i: nat, ghost leftover: seq<int>, printed: seq<seq<Task>>, ghost plans: seq<Plan>)
      returns (printed': seq<seq<Task>>, ghost plan: Plan)
      requires maxWSize >= 2
      requires 0 < i == |plans| && RunState(rand.draw, leftover, maxWSize, plans, rand.next, startPoint)
      modifies this`startPoint, rand
      ensures |printed'| == |printed| + 1 && printed <= printed'
      ensures old(AllRealise(printed, maxWSize, plans)) ==> AllRealise(printed', maxWSize, plans + [plan])
      ensures RunState(rand.draw, leftover, maxWSize, plans + [plan], rand.next, startPoint)
    {
      assert this as object !in TasksOf(printed) && rand as object !in TasksOf(printed);
      var workflow;
      ghost var shown := AllRealise(printed, maxWSize, plans);
      workflow, plan := StartedWorkflow(rand, i, leftover, plans);
      assert Realises(workflow, maxWSize, |plans|, plan);
      printed' := printed + [workflow];
      if shown {
        assert AllRealise(printed, maxWSize, plans);
        AllRealiseExtends(printed, maxWSize, plans, workflow, plan);
      }
    }

    /** The main loop: one unlinked workflow, then each further one started from a task of an earlier one. */
    method Generate(rand: Random) returns (printed: seq<seq<Task>>, ghost plans: seq<Plan>)
      requires maxWSize >= 2 && Positive(startPoint) && rand.next == 0
      modifies this`startPoint, rand
      ensures |plans| == if maxWorkflows == 0 then 1 else maxWorkflows
      ensures plans == RunOf(rand.draw, old(startPoint), maxWSize, |plans|) && AllRealise(printed, maxWSize, plans)
      ensures startPoint == StartPoints(old(startPoint), plans)
      ensures Harmless(old(startPoint), |plans|) ==> ValidRun(plans)
    {
      ghost var leftover := startPoint;
      ghost var plan;
      printed, plan := FirstWorkflow(rand);
      plans := [plan];
      FirstMade(rand.draw, leftover, maxWSize, plan);
      var i := 1;
      while i < maxWorkflows
        invariant 1 <= i && (i <= maxWorkflows || i == 1)
        invariant |plans| == i && AllRealise(printed, maxWSize, plans)
        invariant RunState(rand.draw, leftover, maxWSize, plans, rand.next, startPoint)
      {
        printed, plan := NextWorkflow(rand, i, leftover, printed, plans);
        plans := plans + [plan];
        i := i + 1;
      }
      MadeIsRun(rand.draw, leftover, maxWSize, plans, rand.next);
    }
  }
}
