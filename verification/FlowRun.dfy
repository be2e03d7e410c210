/** Runs of a published flow: how the worker advances a run, and what a clean validation guarantees about it. */
module FlowRun {
  import opened Options
  import opened FlowGraph
  import opened FlowValidate
  import opened JsText

  /** Unlike the validator's index, the worker takes the first node of an id. */
  function FirstNode(nodes: seq<Node>, id: string): Option<Node> {
    if nodes == [] then None else if nodes[0].id == id then Some(nodes[0]) else FirstNode(nodes[1..], id)
  }

  function FirstEdge(edges: seq<Edge>, source: string): Option<Edge> {
    if edges == [] then None else if edges[0].source == source then Some(edges[0]) else FirstEdge(edges[1..], source)
  }

  function FirstBranchEdge(edges: seq<Edge>, source: string, branch: Handle): Option<Edge> {
    if edges == [] then None
    else if edges[0].source == source && edges[0].handle == Some(branch) then Some(edges[0])
    else FirstBranchEdge(edges[1..], source, branch)
  }

  const MAX_STEPS_PER_RUN: nat := 1000

  /** What a tick finds out: whether an exit condition holds, whether quiet hours defer a send, the segment check's answer. */
  datatype Tick = Tick(exitSatisfied: bool, quiet: bool, branch: Handle)

  /** `DeadEnd` completes the run for want of an edge, `Refused` is the worker's throw, `BudgetSpent` a forced exit. */
  datatype Advance = Moved(nodeId: string) | Deferred | ReachedExit | DeadEnd | Refused | ExitedEarly | BudgetSpent

  function Along(edge: Option<Edge>): Advance {
    if edge.Some? then Moved(edge.value.target) else DeadEnd
  }

  /** One tick on a due run that has recorded this many steps; the budget comes before any look at the node. */
  function AdvanceFrom(def: Definition, id: string, steps: nat, tick: Tick): Advance {
    var node := FirstNode(def.nodes, id);
    if steps >= MAX_STEPS_PER_RUN then BudgetSpent
    else if node.None? then Refused
    else if tick.exitSatisfied then ExitedEarly
    else
      match node.value.kind
      case SendNode(_, _, _) => if tick.quiet then Deferred else Along(FirstEdge(def.edges, id))
      case Delay => Along(FirstEdge(def.edges, id))
      case Branch => Along(FirstBranchEdge(def.edges, id, tick.branch))
      case Exit => ReachedExit
      case Trigger => Refused
  }

  // ---------- what a tick does ----------

  /** An edge of the definition that leads from here to there, with the handle if one is asked for. */
  predicate Leads(def: Definition, source: string, handle: Option<Handle>, target: string) {
    exists e :: e in def.edges && e.source == source && e.target == target && (handle.Some? ==> e.handle == handle)
  }

  predicate Live(def: Definition, id: string, steps: nat, tick: Tick) {
    steps < 1000 && FirstNode(def.nodes, id).Some? && !tick.exitSatisfied
  }

  /** The kind of the first node of an id, where there is one. */
  function KindAt(def: Definition, id: string): Option<Kind> {
    var node := FirstNode(def.nodes, id);
    if node.Some? then Some(node.value.kind) else None
  }

  /**
   * The budget comes first, then the node, then the exit condition, and only then what the node asks for: so a
   * tick that finds the condition neither sends nor moves the run, at whatever node it stands.
   */
  lemma WhatATickDoes(def: Definition, id: string, steps: nat, tick: Tick)
    ensures var step, kind := AdvanceFrom(def, id, steps, tick), KindAt(def, id);
            && (step.BudgetSpent? <==> steps >= 1000)
            && (step.ExitedEarly? <==> steps < 1000 && kind.Some? && tick.exitSatisfied)
            && (step.Refused? <==> steps < 1000 && (kind.None? || (!tick.exitSatisfied && kind.value.Trigger?)))
            && (step.ReachedExit? <==> Live(def, id, steps, tick) && kind.value.Exit?)
            && (step.Deferred? <==> Live(def, id, steps, tick) && kind.value.SendNode? && tick.quiet)
    ensures var step, kind := AdvanceFrom(def, id, steps, tick), KindAt(def, id);
            step.Moved? || step.DeadEnd? <==>
              Live(def, id, steps, tick) && (kind.value.Delay? || kind.value.Branch? || (kind.value.SendNode? && !tick.quiet))
  {
  }

  /** A move is along an edge of the node, of a branch one that carries the answer; a dead end has no such edge. */
  lemma WhereATickMoves(def: Definition, id: string, steps: nat, tick: Tick)
    ensures var step, kind := AdvanceFrom(def, id, steps, tick), KindAt(def, id);
            && (step.Moved? ==> kind.Some? && Leads(def, id, if kind.value.Branch? then Some(tick.branch) else None, step.nodeId))
            && (step.DeadEnd? ==> kind.Some? && forall e :: e in def.edges && e.source == id ==>
                                    kind.value.Branch? && e.handle != Some(tick.branch))
  {
    FirstEdgeLeads(def.edges, id);
    FirstBranchEdgeLeads(def.edges, id, tick.branch);
  }

  lemma {:induction false} FirstEdgeLeads(edges: seq<Edge>, id: string)
    ensures var e := FirstEdge(edges, id);
            if e.Some? then e.value in edges && e.value.source == id else forall x :: x in edges ==> x.source != id
  {
    if edges != [] {
      FirstEdgeLeads(edges[1..], id);
      assert edges == [edges[0]] + edges[1..];
    }
  }

  lemma {:induction false} FirstBranchEdgeLeads(edges: seq<Edge>, id: string, branch: Handle)
    ensures var e := FirstBranchEdge(edges, id, branch);
            if e.Some? then e.value in edges && e.value.source == id && e.value.handle == Some(branch)
            else forall x :: x in edges ==> x.source != id || x.handle != Some(branch)
  {
    if edges != [] {
      FirstBranchEdgeLeads(edges[1..], id, branch);
      assert edges == [edges[0]] + edges[1..];
    }
  }

  /** A run starts where the trigger's first edge leads. */
  function EntryNode(def: Definition): Option<string> {
    var triggers := Triggers(def.nodes);
    if triggers == [] then None
    else
      var edge := FirstEdge(def.edges, triggers[0].id);
      if edge.Some? then Some(edge.value.target) else None
  }

  /** A tick takes the run from one node to the next, or leaves it deferred where it is; either records one step. */
  ghost predicate Steps(def: Definition, id: string, steps: nat, after: string) {
    exists tick :: AdvanceFrom(def, id, steps, tick) == Moved(after) || (AdvanceFrom(def, id, steps, tick) == Deferred && after == id)
  }

  /** The node of each tick, from the first; the k-th tick finds k steps recorded. */
  ghost predicate IsRun(def: Definition, trace: seq<string>) {
    && trace != [] && EntryNode(def) == Some(trace[0])
    && forall i :: 0 <= i < |trace| - 1 ==> Steps(def, trace[i], i, trace[i + 1])
  }

  /** The same run, with what each of its ticks found. */
  predicate RunsBy(def: Definition, trace: seq<string>, ticks: seq<Tick>) {
    && trace != [] && EntryNode(def) == Some(trace[0]) && |ticks| == |trace| - 1
    && forall i :: 0 <= i < |ticks| ==> Goes(AdvanceFrom(def, trace[i], i, ticks[i]), trace[i], trace[i + 1])
  }

  predicate Goes(step: Advance, id: string, after: string) {
    step == Moved(after) || (step == Deferred && after == id)
  }

  lemma {:induction false} EveryRunHasTicks(def: Definition, trace: seq<string>) returns (ticks: seq<Tick>)
    requires IsRun(def, trace)
    ensures RunsBy(def, trace, ticks)
  {
    hide AdvanceFrom, EntryNode;
    ticks := [];
    for n := 0 to |trace| - 1
      invariant |ticks| == n
      invariant forall i :: 0 <= i < n ==> Goes(AdvanceFrom(def, trace[i], i, ticks[i]), trace[i], trace[i + 1])
    {
      assert Steps(def, trace[n], n, trace[n + 1]);
      var tick :| AdvanceFrom(def, trace[n], n, tick) == Moved(trace[n + 1])
               || (AdvanceFrom(def, trace[n], n, tick) == Deferred && trace[n + 1] == trace[n]);
      ticks := ticks + [tick];
    }
  }

  /**
   * Tick by tick over a whole run: none but the last can have found the exit condition or the budget spent; a send
   * in quiet hours stays where it is; every other step follows an edge, a branch one that carries that tick's answer.
   */
  lemma TicksOfARun(def: Definition, trace: seq<string>, ticks: seq<Tick>, i: nat)
    requires RunsBy(def, trace, ticks) && i < |ticks|
    ensures i < 1000 && !ticks[i].exitSatisfied
    ensures var kind := KindAt(def, trace[i]);
            && kind.Some? && !kind.value.Exit? && !kind.value.Trigger?
            && (kind.value.SendNode? && ticks[i].quiet ==> trace[i + 1] == trace[i])
            && (kind.value.Branch? ==> Leads(def, trace[i], Some(ticks[i].branch), trace[i + 1]))
            && (kind.value.Delay? || (kind.value.SendNode? && !ticks[i].quiet) ==> Leads(def, trace[i], None, trace[i + 1]))
  {
    hide AdvanceFrom, FirstNode;
    assert Goes(AdvanceFrom(def, trace[i], i, ticks[i]), trace[i], trace[i + 1]);
    WhatATickDoes(def, trace[i], i, ticks[i]);
    WhereATickMoves(def, trace[i], i, ticks[i]);
  }

  // ---------- the graph the worker walks ----------

  function TargetOf(edge: Option<Edge>): seq<string> {
    if edge.Some? then [edge.value.target] else []
  }

  function WorkerNextFrom(def: Definition, id: string): seq<string> {
    var node := FirstNode(def.nodes, id);
    if node.None? then []
    else
      match node.value.kind
      case SendNode(_, _, _) => TargetOf(FirstEdge(def.edges, id))
      case Delay => TargetOf(FirstEdge(def.edges, id))
      case Branch => TargetOf(FirstBranchEdge(def.edges, id, Yes)) + TargetOf(FirstBranchEdge(def.edges, id, No))
      case Exit => []
      case Trigger => []
  }

  function WorkerNext(def: Definition): Successors {
    id => WorkerNextFrom(def, id)
  }

  /** The worker is at an exit, or can go on whatever a tick finds. */
  predicate WorkerSound(def: Definition, id: string) {
    var node := FirstNode(def.nodes, id);
    node.Some? &&
    match node.value.kind
    case SendNode(_, _, _) => FirstEdge(def.edges, id).Some?
    case Delay => FirstEdge(def.edges, id).Some?
    case Branch => FirstBranchEdge(def.edges, id, Yes).Some? && FirstBranchEdge(def.edges, id, No).Some?
    case Exit => true
    case Trigger => false
  }

  /** Within the budget the worker moves along its graph, and gets stuck exactly at a node that is not sound. */
  lemma TicksFollowTheGraph(def: Definition, id: string, steps: nat, tick: Tick)
    ensures var step := AdvanceFrom(def, id, steps, tick);
            && (step.Moved? ==> step.nodeId in WorkerNext(def)(id))
            && (step.DeadEnd? || step.Refused? ==> !WorkerSound(def, id))
            && (step.BudgetSpent? <==> steps >= MAX_STEPS_PER_RUN)
  {
    assert tick.branch == Yes || tick.branch == No;
  }

  lemma GraphIsTicked(def: Definition, id: string, steps: nat, after: string)
    requires steps < MAX_STEPS_PER_RUN && after in WorkerNext(def)(id)
    ensures Steps(def, id, steps, after)
  {
    var yes, no := Tick(false, false, Yes), Tick(false, false, No);
    assert AdvanceFrom(def, id, steps, yes) == Moved(after) || AdvanceFrom(def, id, steps, no) == Moved(after);
  }

  lemma UnsoundGetsStuck(def: Definition, id: string, steps: nat)
    requires steps < MAX_STEPS_PER_RUN && !WorkerSound(def, id)
    ensures exists tick :: AdvanceFrom(def, id, steps, tick).DeadEnd? || AdvanceFrom(def, id, steps, tick).Refused?
  {
    var yes, no := Tick(false, false, Yes), Tick(false, false, No);
    assert AdvanceFrom(def, id, steps, yes).DeadEnd? || AdvanceFrom(def, id, steps, yes).Refused?
        || AdvanceFrom(def, id, steps, no).DeadEnd?;
  }

  // ---------- deferrals ----------

  /** The ticks at which the run stayed where it was. */
  function Repeats(trace: seq<string>): nat {
    if |trace| <= 1 then 0
    else Repeats(trace[..|trace| - 1]) + if trace[|trace| - 1] == trace[|trace| - 2] then 1 else 0
  }

  function Dedup(trace: seq<string>): (r: seq<string>)
    ensures |r| + Repeats(trace) == |trace|
    ensures trace != [] ==> r != [] && r[0] == trace[0] && Last(r) == Last(trace)
  {
    if |trace| <= 1 then trace
    else
      var before := Dedup(trace[..|trace| - 1]);
      if trace[|trace| - 1] == trace[|trace| - 2] then before else before + [trace[|trace| - 1]]
  }

  /** Without the deferrals, a stretch of a run is a walk of the worker's graph. */
  lemma {:induction false} DedupIsWalk(def: Definition, q: seq<string>, start: nat)
    requires q != [] && forall i :: 0 <= i < |q| - 1 ==> Steps(def, q[i], start + i, q[i + 1])
    ensures Walk(WorkerNext(def), Dedup(q))
  {
    hide Steps, WorkerNext;
    if |q| > 1 {
      var n := |q| - 1;
      DedupIsWalk(def, q[..n], start);
      assert Steps(def, q[n - 1], start + (n - 1), q[n - 1 + 1]);
      if q[n] != q[n - 1] {
        StepsFollowTheGraph(def, q[n - 1], start + (n - 1), q[n]);
        var before := Dedup(q[..n]);
        assert Last(before) == q[n - 1];
        forall i | 0 <= i < |before| ensures (before + [q[n]])[i + 1] in WorkerNext(def)((before + [q[n]])[i]) {
          if i < |before| - 1 {
            assert before[i + 1] in WorkerNext(def)(before[i]);
          }
        }
      }
    }
  }

  lemma StepsFollowTheGraph(def: Definition, id: string, steps: nat, after: string)
    requires Steps(def, id, steps, after) && after != id
    ensures after in WorkerNext(def)(id)
  {
    hide AdvanceFrom, WorkerNext;
    var tick :| AdvanceFrom(def, id, steps, tick) == Moved(after) || (AdvanceFrom(def, id, steps, tick) == Deferred && after == id);
    TicksFollowTheGraph(def, id, steps, tick);
  }

  // ---------- exactly when a run can get stuck ----------

  /** Some continuation of the run comes to a tick that dead-ends or throws. */
  ghost predicate CanGetStuck(def: Definition, trace: seq<string>)
    requires trace != []
  {
    exists more, tick :: IsRun(def, trace + more) && StuckAt(def, trace + more, tick)
  }

  predicate StuckAt(def: Definition, trace: seq<string>, tick: Tick)
    requires trace != []
  {
    var step := AdvanceFrom(def, Last(trace), |trace| - 1, tick);
    step.DeadEnd? || step.Refused?
  }

  /** The worker's graph leads from the run's node, with the steps left in the budget, to a node that is not sound. */
  ghost predicate LeadsToUnsound(def: Definition, trace: seq<string>)
    requires trace != []
  {
    exists p :: UnsoundWalk(def, trace, p)
  }

  predicate UnsoundWalk(def: Definition, trace: seq<string>, p: seq<string>)
    requires trace != []
  {
    Walk(WorkerNext(def), p) && p[0] == Last(trace) && |trace| + |p| - 2 < MAX_STEPS_PER_RUN && !WorkerSound(def, Last(p))
  }

  lemma StuckMeansUnsound(def: Definition, trace: seq<string>, more: seq<string>, tick: Tick)
    requires trace != [] && IsRun(def, trace + more) && StuckAt(def, trace + more, tick)
    ensures LeadsToUnsound(def, trace)
  {
    var whole := trace + more;
    var n := |trace| - 1;
    var q := whole[n..];
    forall i | 0 <= i < |q| - 1 ensures Steps(def, q[i], n + i, q[i + 1]) {
      assert Steps(def, whole[n + i], n + i, whole[n + i + 1]);
    }
    hide AdvanceFrom, WorkerNext, WorkerSound, Steps, IsRun;
    DedupIsWalk(def, q, n);
    TicksFollowTheGraph(def, Last(whole), |whole| - 1, tick);
    var p := Dedup(q);
    assert Last(p) == Last(whole) && |p| <= |q| && p[0] == Last(trace);
    assert UnsoundWalk(def, trace, p);
  }

  lemma UnsoundMeansStuck(def: Definition, trace: seq<string>, p: seq<string>)
    requires trace != [] && IsRun(def, trace) && UnsoundWalk(def, trace, p)
    ensures CanGetStuck(def, trace)
  {
    var more := p[1..];
    var whole := trace + more;
    hide AdvanceFrom, WorkerNext, WorkerSound, Steps, EntryNode;
    forall i | 0 <= i < |whole| - 1 ensures Steps(def, whole[i], i, whole[i + 1]) {
      if i >= |trace| - 1 {
        var k := i - (|trace| - 1);
        assert whole[i] == p[k] && whole[i + 1] == p[k + 1];
        GraphIsTicked(def, p[k], i, p[k + 1]);
      } else {
        assert Steps(def, trace[i], i, trace[i + 1]);
      }
    }
    assert whole[0] == trace[0];
    assert IsRun(def, whole) && Last(whole) == Last(p);
    UnsoundGetsStuck(def, Last(whole), |whole| - 1);
    var tick :| AdvanceFrom(def, Last(whole), |whole| - 1, tick).DeadEnd? || AdvanceFrom(def, Last(whole), |whole| - 1, tick).Refused?;
    assert StuckAt(def, trace + more, tick);
  }

  /** Whatever the definition, validated or not: a run can get stuck exactly when its node leads, within the budget, to an unsound one. */
  lemma StuckIffLeadsToUnsound(def: Definition, trace: seq<string>)
    requires IsRun(def, trace)
    ensures CanGetStuck(def, trace) <==> LeadsToUnsound(def, trace)
  {
    assert trace != [];
    hide AdvanceFrom, WorkerNext, WorkerSound, Steps, IsRun, UnsoundWalk, StuckAt;
    if CanGetStuck(def, trace) {
      var more, tick :| IsRun(def, trace + more) && StuckAt(def, trace + more, tick);
      StuckMeansUnsound(def, trace, more, tick);
    }
    if LeadsToUnsound(def, trace) {
      var p :| UnsoundWalk(def, trace, p);
      UnsoundMeansStuck(def, trace, p);
    }
  }

  // ---------- first edges are listed edges ----------

  lemma {:induction false} OutgoingUnfolds(edges: seq<Edge>, id: string)
    requires edges != []
    ensures Outgoing(edges, id) == (if edges[0].source == id then [edges[0]] else []) + Outgoing(edges[1..], id)
  {
    var n := |edges| - 1;
    if n > 0 {
      OutgoingUnfolds(edges[..n], id);
      assert edges[..n][1..] == edges[1..][..n - 1] && edges[1..][n - 1] == edges[n];
    }
  }

  lemma {:induction false} FirstEdgeIsListed(edges: seq<Edge>, id: string)
    ensures var out := Outgoing(edges, id); FirstEdge(edges, id) == if out == [] then None else Some(out[0])
  {
    if edges != [] {
      OutgoingUnfolds(edges, id);
      FirstEdgeIsListed(edges[1..], id);
    }
  }

  lemma FindHandleUnfolds(e: Edge, rest: seq<Edge>, branch: Handle)
    ensures FindHandle([e] + rest, branch) == if e.handle == Some(branch) then Some(e) else FindHandle(rest, branch)
  {
    assert ([e] + rest)[1..] == rest;
  }

  lemma {:induction false} FirstBranchEdgeIsListed(edges: seq<Edge>, id: string, branch: Handle)
    ensures FirstBranchEdge(edges, id, branch) == FindHandle(Outgoing(edges, id), branch)
  {
    if edges != [] {
      OutgoingUnfolds(edges, id);
      FirstBranchEdgeIsListed(edges[1..], id, branch);
      hide Outgoing, FindHandle;
      FindHandleUnfolds(edges[0], Outgoing(edges[1..], id), branch);
      if edges[0].source != id {
        assert Outgoing(edges, id) == Outgoing(edges[1..], id);
      }
    } else {
      assert Outgoing(edges, id) == [];
    }
  }

  lemma ListedTarget(edges: seq<Edge>, id: string, e: Edge)
    requires e in Outgoing(edges, id)
    ensures e.target in Next(edges)(id)
  {
    var i :| 0 <= i < |Outgoing(edges, id)| && Outgoing(edges, id)[i] == e;
    assert Next(edges)(id)[i] == e.target;
  }

  /** The worker only ever moves a run along an edge of the definition. */
  lemma MovesAreEdges(def: Definition, id: string)
    ensures forall y :: y in WorkerNext(def)(id) ==> y in Next(def.edges)(id)
  {
    hide Next, Outgoing;
    FirstEdgeIsListed(def.edges, id);
    FirstBranchEdgeIsListed(def.edges, id, Yes);
    FirstBranchEdgeIsListed(def.edges, id, No);
    forall e | e in Outgoing(def.edges, id) ensures e.target in Next(def.edges)(id) { ListedTarget(def.edges, id, e); }
  }

  // ---------- runs are walks ----------

  lemma RunIsWalk(def: Definition, trace: seq<string>)
    requires |Triggers(def.nodes)| == 1 && IsRun(def, trace)
    ensures Walk(Next(def.edges), [Triggers(def.nodes)[0].id] + Dedup(trace))
  {
    hide Next, Outgoing, WorkerNext, Steps;
    var start := Triggers(def.nodes)[0].id;
    var q := Dedup(trace);
    var p := [start] + q;
    FirstEdgeIsListed(def.edges, start);
    ListedTarget(def.edges, start, FirstEdge(def.edges, start).value);
    DedupIsWalk(def, trace, 0);
    forall i | 0 <= i < |p| - 1 ensures p[i + 1] in Next(def.edges)(p[i]) {
      if i > 0 {
        assert q[i - 1 + 1] in WorkerNext(def)(q[i - 1]);
        MovesAreEdges(def, q[i - 1]);
      }
    }
  }

  lemma {:induction false} WalkTargetsAreIds(edges: seq<Edge>, p: seq<string>)
    requires Walk(Next(edges), p)
    ensures forall i :: 0 <= i < |p| ==> p[i] in Ids(edges, p[0])
  {
    forall i | 0 <= i < |p| ensures p[i] in Ids(edges, p[0]) {
      if i > 0 {
        assert p[i - 1 + 1] in Next(edges)(p[i - 1]);
        TargetsAreIds(edges, p[0], p[i - 1]);
      }
    }
  }

  /** In a publishable flow every walk from the trigger visits distinct nodes, and so halts. */
  lemma WalksFromTheTriggerHalt(def: Definition, p: seq<string>)
    requires Publishable(def) && Walk(Next(def.edges), p) && p[0] == Triggers(def.nodes)[0].id
    ensures Distinct(p) && |p| <= |Ids(def.edges, p[0])|
  {
    hide Next, Ids, Reach, OnCycle;
    WalksAreDistinct(Next(def.edges), p);
    WalkTargetsAreIds(def.edges, p);
    DistinctFits(p, Ids(def.edges, p[0]));
  }

  /** But for deferrals, a run of a publishable flow never revisits a node, so its ticks are bounded by the ids and the deferrals. */
  lemma RunsNeverRevisit(def: Definition, trace: seq<string>)
    requires Publishable(def) && IsRun(def, trace)
    ensures Distinct([Triggers(def.nodes)[0].id] + Dedup(trace))
    ensures |trace| < |Ids(def.edges, Triggers(def.nodes)[0].id)| + Repeats(trace)
  {
    assert |Triggers(def.nodes)| == 1;
    hide Next, IsRun, Ids, Publishable, Triggers, Walk, Distinct;
    RunIsWalk(def, trace);
    WalksFromTheTriggerHalt(def, [Triggers(def.nodes)[0].id] + Dedup(trace));
  }

  /** The budget is never spent while the ids and the deferrals together stay within it. */
  lemma BudgetIsNotSpent(def: Definition, trace: seq<string>, tick: Tick)
    requires Publishable(def) && IsRun(def, trace)
    requires |Ids(def.edges, Triggers(def.nodes)[0].id)| + Repeats(trace) <= MAX_STEPS_PER_RUN + 1
    ensures !AdvanceFrom(def, Last(trace), |trace| - 1, tick).BudgetSpent?
  {
    RunsNeverRevisit(def, trace);
    hide *;
    TicksFollowTheGraph(def, Last(trace), |trace| - 1, tick);
  }

  /** The exit check's promise: every followed path from a reachable branch is finite, and where it stops there is an exit. */
  lemma FollowedPathsEndInExits(def: Definition, branch: Node, p: seq<string>)
    requires Publishable(def) && NoDanglingEdges(def)
    requires branch in def.nodes && branch.kind.Branch? && Reach(Next(def.edges), Triggers(def.nodes)[0].id, branch.id)
    requires Walk(Followed(def), p) && p[0] == branch.id
    ensures Distinct(p) && |p| <= |Ids(def.edges, Triggers(def.nodes)[0].id)|
    ensures Followed(def)(Last(p)) == [] ==>
              NodeById(def.nodes, Last(p)).Some? && NodeById(def.nodes, Last(p)).value.kind.Exit?
  {
    var start := Triggers(def.nodes)[0].id;
    assert !BranchMissesExit(def, start, branch);
    var head :| WalkBetween(Next(def.edges), head, start, branch.id);
    hide Publishable, NoDanglingEdges, Next, FollowedFrom, Followed, Good, Ids, Triggers, Reach;
    forall x, y | y in Followed(def)(x) ensures y in Next(def.edges)(x) { FollowedAreTargets(def, x); }
    SubgraphWalk(Followed(def), Next(def.edges), p);
    WalksCompose(Next(def.edges), head, p);
    var whole := head + p[1..];
    WalksFromTheTriggerHalt(def, whole);
    assert forall i :: 0 <= i < |p| ==> p[i] == whole[|head| - 1 + i];
    FollowedEndIsAnExit(def, branch, p);
  }

  lemma FollowedEndIsAnExit(def: Definition, branch: Node, p: seq<string>)
    requires branch in def.nodes && NoDanglingEdges(def) && AllPathsGood(def, branch.id)
    requires Walk(Followed(def), p) && p[0] == branch.id
    ensures Followed(def)(Last(p)) == [] ==>
              NodeById(def.nodes, Last(p)).Some? && NodeById(def.nodes, Last(p)).value.kind.Exit?
  {
    hide Next, NoDanglingEdges, Reach;
    assert WalkBetween(Followed(def), p, branch.id, Last(p));
    assert Reach(Followed(def), branch.id, Last(p)) by { ReachedBy(Followed(def), p); }
    assert Good(def, Last(p));
    LastNodeIsMember(def.nodes, Last(p));
    if |p| > 1 {
      assert p[|p| - 2 + 1] in Followed(def)(p[|p| - 2]);
      FollowedAreTargets(def, p[|p| - 2]);
      TargetHasNode(def, p[|p| - 2], Last(p));
      FirstNodeIsMember(def.nodes, Last(p));
    }
  }

  lemma ReachedBy(next: Successors, p: seq<string>)
    requires Walk(next, p)
    ensures Reach(next, p[0], Last(p))
  {
    assert WalkBetween(next, p, p[0], Last(p));
  }

  lemma TargetHasNode(def: Definition, id: string, target: string)
    requires NoDanglingEdges(def) && target in Next(def.edges)(id)
    ensures FirstNode(def.nodes, target).Some?
  {
    var out := Outgoing(def.edges, id);
    var k :| 0 <= k < |out| && out[k].target == target;
    assert out[k] in def.edges;
  }

  // ---------- past a branch, a run ends in an exit ----------

  predicate UniqueIds(nodes: seq<Node>) {
    forall i, j :: 0 <= i < j < |nodes| ==> nodes[i].id != nodes[j].id
  }

  predicate NoDanglingEdges(def: Definition) {
    forall i :: 0 <= i < |def.edges| ==> FirstNode(def.nodes, def.edges[i].target).Some?
  }

  lemma {:induction false} FirstNodeIsMember(nodes: seq<Node>, id: string)
    ensures FirstNode(nodes, id).Some? ==> FirstNode(nodes, id).value in nodes && FirstNode(nodes, id).value.id == id
    ensures FirstNode(nodes, id).None? ==> forall node :: node in nodes ==> node.id != id
  {
    if nodes != [] {
      FirstNodeIsMember(nodes[1..], id);
    }
  }

  lemma {:induction false} LastNodeIsMember(nodes: seq<Node>, id: string)
    ensures NodeById(nodes, id).Some? ==> NodeById(nodes, id).value in nodes && NodeById(nodes, id).value.id == id
    ensures NodeById(nodes, id).None? ==> forall node :: node in nodes ==> node.id != id
  {
    if nodes != [] {
      var n := |nodes| - 1;
      LastNodeIsMember(nodes[..n], id);
      assert nodes == nodes[..n] + [nodes[n]];
    }
  }

  /** With unique ids the worker and the validator look up the same node. */
  lemma LookupsAgree(nodes: seq<Node>, id: string)
    requires UniqueIds(nodes)
    ensures FirstNode(nodes, id) == NodeById(nodes, id)
  {
    FirstNodeIsMember(nodes, id);
    LastNodeIsMember(nodes, id);
  }

  /** With unique ids, a good node that exists and is no trigger is sound, and the worker's edges from it are followed ones. */
  lemma GoodNodesAreSound(def: Definition, id: string)
    requires UniqueIds(def.nodes) && Good(def, id) && FirstNode(def.nodes, id).Some?
    requires !FirstNode(def.nodes, id).value.kind.Trigger?
    ensures WorkerSound(def, id) && forall y :: y in WorkerNext(def)(id) ==> y in Followed(def)(id)
  {
    LookupsAgree(def.nodes, id);
    FirstEdgeIsListed(def.edges, id);
    FirstBranchEdgeIsListed(def.edges, id, Yes);
    FirstBranchEdgeIsListed(def.edges, id, No);
    var out := Outgoing(def.edges, id);
    if out != [] {
      assert TargetsOf(out)[0] == out[0].target;
    }
    if FirstNode(def.nodes, id).value.kind.Branch? {
      assert Followed(def)(id) == [FindHandle(out, Yes).value.target, FindHandle(out, No).value.target];
    }
  }

  lemma RunNodesAreReachable(def: Definition, trace: seq<string>, i: nat)
    requires Publishable(def) && IsRun(def, trace) && i < |trace|
    ensures Reach(Next(def.edges), Triggers(def.nodes)[0].id, trace[i])
    ensures trace[i] != Triggers(def.nodes)[0].id
  {
    var start := Triggers(def.nodes)[0].id;
    var upTo := trace[..i + 1];
    PrefixIsRun(def, trace, i);
    assert |Triggers(def.nodes)| == 1;
    hide Next, IsRun, Publishable, Ids, Walk, Triggers;
    RunIsWalk(def, upTo);
    RunsNeverRevisit(def, upTo);
    var p := [start] + Dedup(upTo);
    PrefixIsWalk(Next(def.edges), p, |p|);
    assert p[..|p|] == p && Last(p) == trace[i] && p[0] == start;
  }

  lemma PrefixIsRun(def: Definition, trace: seq<string>, i: nat)
    requires IsRun(def, trace) && i < |trace|
    ensures IsRun(def, trace[..i + 1])
  {
    hide Steps, EntryNode;
  }

  lemma RunNodesExist(def: Definition, trace: seq<string>, i: nat)
    requires Publishable(def) && IsRun(def, trace) && NoDanglingEdges(def) && i < |trace|
    ensures FirstNode(def.nodes, trace[i]).Some? && !FirstNode(def.nodes, trace[i]).value.kind.Trigger?
  {
    var start := Triggers(def.nodes)[0].id;
    assert |Triggers(def.nodes)| == 1;
    hide *;
    RunNodesAreReachable(def, trace, i);
    TargetsExist(def, start, trace[i]);
    OnlyTheTrigger(def.nodes, trace[i]);
  }

  lemma TargetsExist(def: Definition, start: string, id: string)
    requires NoDanglingEdges(def) && Reach(Next(def.edges), start, id) && id != start
    ensures FirstNode(def.nodes, id).Some?
  {
    hide Reach, FirstNode, Next;
    ReachedIsTarget(def.edges, start, id);
  }

  lemma OnlyTheTrigger(nodes: seq<Node>, id: string)
    requires |Triggers(nodes)| == 1 && id != Triggers(nodes)[0].id && FirstNode(nodes, id).Some?
    ensures !FirstNode(nodes, id).value.kind.Trigger?
  {
    hide *;
    FirstNodeIsMember(nodes, id);
  }

  lemma ReachedIsTarget(edges: seq<Edge>, start: string, id: string)
    requires Reach(Next(edges), start, id) && id != start
    ensures exists k :: 0 <= k < |edges| && edges[k].target == id
  {
    var p :| WalkBetween(Next(edges), p, start, id);
    assert p[|p| - 2 + 1] in Next(edges)(p[|p| - 2]);
    var out := Outgoing(edges, p[|p| - 2]);
    var k :| 0 <= k < |out| && out[k].target == id;
    assert out[k] in edges;
  }

  lemma {:induction false} RunFollows(def: Definition, trace: seq<string>, i: nat, j: nat)
    requires Publishable(def) && IsRun(def, trace) && NoDanglingEdges(def) && UniqueIds(def.nodes)
    requires i <= j < |trace| && AllPathsGood(def, trace[i])
    ensures Reach(Followed(def), trace[i], trace[j])
    decreases j
  {
    hide Publishable, NoDanglingEdges, UniqueIds, Good, Followed, Next, Steps, WorkerNext, WorkerSound;
    if i == j {
      ReachesItself(Followed(def), trace[i]);
    } else {
      RunFollows(def, trace, i, j - 1);
      RunNodesExist(def, trace, j - 1);
      assert Steps(def, trace[j - 1], j - 1, trace[j - 1 + 1]);
      if trace[j] != trace[j - 1] {
        StepsFollowTheGraph(def, trace[j - 1], j - 1, trace[j]);
        GoodNodesAreSound(def, trace[j - 1]);
        ReachesFurther(Followed(def), trace[i], trace[j - 1], trace[j]);
      }
    }
  }

  /** On a publishable flow with unique ids and no dangling edge, a run that has passed a branch stands at a sound node. */
  lemma PastABranchNodesAreSound(def: Definition, trace: seq<string>, i: nat)
    requires Publishable(def) && IsRun(def, trace) && NoDanglingEdges(def) && UniqueIds(def.nodes)
    requires i < |trace| && FirstNode(def.nodes, trace[i]).Some? && FirstNode(def.nodes, trace[i]).value.kind.Branch?
    ensures WorkerSound(def, Last(trace))
  {
    var last := |trace| - 1;
    BranchNodesAreGood(def, trace, i);
    hide Publishable, NoDanglingEdges, UniqueIds, Good, Followed, Next, Triggers, Reach, WorkerSound, WorkerNext;
    RunFollows(def, trace, i, last);
    RunNodesExist(def, trace, last);
    assert Good(def, trace[last]);
    GoodNodesAreSound(def, trace[last]);
  }

  /**
   * On a publishable flow with unique ids and no dangling edge, a run that has passed a branch is never stuck:
   * unless an exit condition ends it, each tick moves it on or defers it until it stands at an exit, provided the
   * ids and the deferrals together stay within the step budget; and they bound how long that can take.
   */
  lemma PastABranchEveryRunReachesAnExit(def: Definition, trace: seq<string>, i: nat, tick: Tick)
    requires Publishable(def) && IsRun(def, trace) && NoDanglingEdges(def) && UniqueIds(def.nodes)
    requires i < |trace| && FirstNode(def.nodes, trace[i]).Some? && FirstNode(def.nodes, trace[i]).value.kind.Branch?
    requires |Ids(def.edges, Triggers(def.nodes)[0].id)| + Repeats(trace) <= MAX_STEPS_PER_RUN + 1
    ensures var step := AdvanceFrom(def, Last(trace), |trace| - 1, tick);
            && (step.ReachedExit? || (step.ExitedEarly? && tick.exitSatisfied)
                || (step.Moved? && IsRun(def, trace + [step.nodeId])) || (step.Deferred? && IsRun(def, trace + [Last(trace)])))
    ensures |trace| < |Ids(def.edges, Triggers(def.nodes)[0].id)| + Repeats(trace)
    ensures !CanGetStuck(def, trace)
  {
    hide *;
    PastABranchNodesAreSound(def, trace, i);
    BudgetIsNotSpent(def, trace, tick);
    RunsNeverRevisit(def, trace);
    NotStuckPastABranch(def, trace, i);
    TicksFollowTheGraph(def, Last(trace), |trace| - 1, tick);
    SoundNodesTick(def, Last(trace), |trace| - 1, tick);
    RunExtends(def, trace, tick);
  }

  lemma SoundNodesTick(def: Definition, id: string, steps: nat, tick: Tick)
    requires WorkerSound(def, id) && steps < MAX_STEPS_PER_RUN
    ensures var step := AdvanceFrom(def, id, steps, tick);
            step.ReachedExit? || (step.ExitedEarly? && tick.exitSatisfied) || step.Moved? || step.Deferred?
  {
    assert tick.branch == Yes || tick.branch == No;
  }

  lemma NotStuckPastABranch(def: Definition, trace: seq<string>, i: nat)
    requires Publishable(def) && IsRun(def, trace) && NoDanglingEdges(def) && UniqueIds(def.nodes)
    requires i < |trace| && FirstNode(def.nodes, trace[i]).Some? && FirstNode(def.nodes, trace[i]).value.kind.Branch?
    ensures !CanGetStuck(def, trace)
  {
    hide Publishable, NoDanglingEdges, UniqueIds, IsRun, AdvanceFrom, WorkerSound;
    forall more, tick | IsRun(def, trace + more) ensures !StuckAt(def, trace + more, tick) {
      var whole := trace + more;
      assert whole[i] == trace[i];
      PastABranchNodesAreSound(def, whole, i);
      TicksFollowTheGraph(def, Last(whole), |whole| - 1, tick);
    }
  }

  lemma BranchNodesAreGood(def: Definition, trace: seq<string>, i: nat)
    requires Publishable(def) && IsRun(def, trace)
    requires i < |trace| && FirstNode(def.nodes, trace[i]).Some? && FirstNode(def.nodes, trace[i]).value.kind.Branch?
    ensures AllPathsGood(def, trace[i])
  {
    hide IsRun, Triggers, Reach, AllPathsGood, FirstNode;
    FirstNodeIsMember(def.nodes, trace[i]);
    RunNodesAreReachable(def, trace, i);
    assert !BranchMissesExit(def, Triggers(def.nodes)[0].id, FirstNode(def.nodes, trace[i]).value);
  }

  lemma RunExtends(def: Definition, trace: seq<string>, tick: Tick)
    requires IsRun(def, trace)
    ensures var step := AdvanceFrom(def, Last(trace), |trace| - 1, tick);
            && (step.Moved? ==> IsRun(def, trace + [step.nodeId]))
            && (step.Deferred? ==> IsRun(def, trace + [Last(trace)]))
  {
    hide AdvanceFrom, EntryNode;
    var n := |trace| - 1;
    var step := AdvanceFrom(def, Last(trace), n, tick);
    if step.Moved? || step.Deferred? {
      var after := if step.Moved? then step.nodeId else Last(trace);
      var longer := trace + [after];
      assert Steps(def, trace[n], n, after);
      forall k | 0 <= k < |longer| - 1 ensures Steps(def, longer[k], k, longer[k + 1]) {
        assert k < n ==> Steps(def, trace[k], k, trace[k + 1]);
      }
      assert longer[0] == trace[0];
    }
  }

  // ---------- why unique ids matter ----------

  /** An exit that shares a branch's id hides the branch from the validator, not from the worker. */
  const Hidden := Definition(
    [Node("t", Trigger), Node("b", Branch), Node("b", Exit), Node("x", Exit)],
    [Edge("t", "b", None), Edge("b", "x", Some(Yes))])

  lemma HiddenEdges()
    ensures Outgoing(Hidden.edges, "t") == [Hidden.edges[0]] && Outgoing(Hidden.edges, "b") == [Hidden.edges[1]]
    ensures Outgoing(Hidden.edges, "x") == []
  {
    var edges := Hidden.edges;
    assert edges[..1] == [edges[0]] && edges[..1][..0] == [];
    forall id ensures Outgoing(edges[..1], id) == if id == "t" then [edges[0]] else [] {
      assert Outgoing(edges[..1][..0], id) == [];
    }
  }

  lemma HiddenLookups()
    ensures Triggers(Hidden.nodes) == [Hidden.nodes[0]]
    ensures NodeById(Hidden.nodes, "b") == Some(Node("b", Exit)) && FirstNode(Hidden.nodes, "b") == Some(Node("b", Branch))
  {
    var nodes := Hidden.nodes;
    assert nodes[..3] == [nodes[0], nodes[1], nodes[2]] && nodes[..3][..2] == [nodes[0], nodes[1]];
    assert nodes[..3][..2][..1] == [nodes[0]] && nodes[..3][..2][..1][..0] == [];
    assert Triggers(nodes[..3][..2][..1][..0]) == [];
    assert Triggers(nodes[..3][..2][..1]) == [nodes[0]];
    assert Triggers(nodes[..3][..2]) == [nodes[0]];
    assert Triggers(nodes[..3]) == [nodes[0]];
    assert nodes[1..][0] == nodes[1];
  }

  lemma HiddenHasNoCycle()
    ensures NoReachableCycle(Hidden, "t")
  {
    HiddenEdges();
    var next := Next(Hidden.edges);
    var order := ["x", "b", "t"];
    assert next("x") == [] && next("b") == ["x"] && next("t") == ["b"];
    assert order[..1] == ["x"] && order[..2] == ["x", "b"];
    assert Topological(next, order);
    forall x | Reach(next, "t", x) ensures !OnCycle(next, x) {
      assert order[2] == "t";
      TopologicalMeansNoCycle(next, order, "t", x);
    }
  }

  lemma HiddenLooksGood()
    ensures AllPathsGood(Hidden, "b")
  {
    HiddenLookups();
    hide Outgoing, NodeById;
    StopsHere(Hidden, "b");
    forall x | Reach(Followed(Hidden), "b", x) ensures Good(Hidden, x) {
      hide FollowedFrom, Followed, Good, Reach;
      assert ClosedUnder(Followed(Hidden), {"b"});
      ClosedHoldsReachable(Followed(Hidden), {"b"}, "b", x);
    }
  }

  lemma HiddenIsPublishable()
    ensures Publishable(Hidden)
  {
    HiddenEdges();
    HiddenLookups();
    HiddenHasNoCycle();
    HiddenLooksGood();
    hide Outgoing, AllPathsGood, Reach, NoReachableCycle, Triggers;
    var nodes := Hidden.nodes;
    assert |Triggers(nodes)| == 1 && Triggers(nodes)[0].id == "t";
    forall node | node in nodes ensures !BranchMissesExit(Hidden, "t", node) && !node.kind.SendNode? {
      assert node == nodes[0] || node == nodes[1] || node == nodes[2] || node == nodes[3];
    }
  }

  lemma HiddenRunDeadEnds()
    ensures IsRun(Hidden, ["b"]) && AdvanceFrom(Hidden, "b", 0, Tick(false, false, No)) == DeadEnd
  {
    HiddenEdges();
    HiddenLookups();
    FirstEdgeIsListed(Hidden.edges, "t");
    FirstBranchEdgeIsListed(Hidden.edges, "b", No);
    hide Outgoing, FirstEdge, FirstBranchEdge;
  }

  /** So the condition is needed: this flow passes validation, and a run of it dead-ends at its branch. */
  lemma DuplicateIdsHideABranch()
    ensures Publishable(Hidden) && NoDanglingEdges(Hidden) && !UniqueIds(Hidden.nodes)
    ensures IsRun(Hidden, ["b"]) && AdvanceFrom(Hidden, "b", 0, Tick(false, false, No)) == DeadEnd
  {
    hide Publishable, IsRun, AdvanceFrom;
    HiddenIsPublishable();
    HiddenRunDeadEnds();
    assert Hidden.nodes[1].id == Hidden.nodes[2].id;
    FirstNodeIsMember(Hidden.nodes, "b");
    FirstNodeIsMember(Hidden.nodes, "x");
    assert Hidden.nodes[1] in Hidden.nodes && Hidden.nodes[3] in Hidden.nodes;
  }

  // ---------- why deferrals count ----------

  /** A branch, a send that quiet hours may put off for ever, an exit. */
  const Patient := Definition(
    [Node("t", Trigger), Node("b", Branch), Node("s", SendNode(Some("template"), Some("sender"), None)), Node("x", Exit)],
    [Edge("t", "b", None), Edge("b", "s", Some(Yes)), Edge("b", "s", Some(No)), Edge("s", "x", None)])

  function Pick(e: Edge, id: string): seq<Edge> {
    if e.source == id then [e] else []
  }

  lemma OutgoingOfFour(a: Edge, b: Edge, c: Edge, d: Edge, id: string)
    ensures Outgoing([a, b, c, d], id) == ([] + Pick(a, id) + Pick(b, id)) + Pick(c, id) + Pick(d, id)
  {
    var four, three, two, one := [a, b, c, d], [a, b, c], [a, b], [a];
    assert four[..3] == three && three[..2] == two && two[..1] == one && one[..0] == [];
    assert Outgoing(one[..0], id) == [];
    assert Outgoing(one, id) == [] + Pick(a, id);
    assert Outgoing(two, id) == [] + Pick(a, id) + Pick(b, id);
    assert Outgoing(three, id) == [] + Pick(a, id) + Pick(b, id) + Pick(c, id);
  }

  lemma PatientOutgoing(id: string)
    ensures var e := Patient.edges; Outgoing(e, id) == ([] + Pick(e[0], id) + Pick(e[1], id)) + Pick(e[2], id) + Pick(e[3], id)
  {
    hide Outgoing, Pick;
    var e := Patient.edges;
    OutgoingOfFour(e[0], e[1], e[2], e[3], id);
    assert e == [e[0], e[1], e[2], e[3]];
  }

  lemma PatientEdges()
    ensures Outgoing(Patient.edges, "t") == [Patient.edges[0]] && Outgoing(Patient.edges, "b") == [Patient.edges[1], Patient.edges[2]]
    ensures Outgoing(Patient.edges, "s") == [Patient.edges[3]] && Outgoing(Patient.edges, "x") == []
  {
    hide Outgoing;
    PatientOutgoing("t");
    PatientOutgoing("b");
    PatientOutgoing("s");
    PatientOutgoing("x");
  }

  lemma PatientLookups()
    ensures Triggers(Patient.nodes) == [Patient.nodes[0]]
    ensures FirstNode(Patient.nodes, "b") == Some(Patient.nodes[1]) && FirstNode(Patient.nodes, "s") == Some(Patient.nodes[2])
    ensures FirstNode(Patient.nodes, "x") == Some(Patient.nodes[3])
  {
    var nodes := Patient.nodes;
    assert nodes[..3] == [nodes[0], nodes[1], nodes[2]] && nodes[..3][..2] == [nodes[0], nodes[1]];
    assert nodes[..3][..2][..1] == [nodes[0]] && nodes[..3][..2][..1][..0] == [];
    assert Triggers(nodes[..3][..2][..1][..0]) == [];
    assert Triggers(nodes[..3][..2][..1]) == [nodes[0]];
    assert Triggers(nodes[..3][..2]) == [nodes[0]];
    assert Triggers(nodes[..3]) == [nodes[0]];
    assert nodes[1..][0] == nodes[1] && nodes[1..][1..][0] == nodes[2] && nodes[1..][1..][1..][0] == nodes[3];
  }

  lemma PatientNext()
    ensures var next := Next(Patient.edges); next("x") == [] && next("s") == ["x"] && next("b") == ["s", "s"] && next("t") == ["b"]
  {
    PatientEdges();
    hide Outgoing;
    assert TargetsOf([Patient.edges[1], Patient.edges[2]]) == ["s", "s"] && TargetsOf([Patient.edges[3]]) == ["x"];
    assert TargetsOf([Patient.edges[0]]) == ["b"];
  }

  lemma PatientHasNoCycle()
    ensures NoReachableCycle(Patient, "t")
  {
    PatientNext();
    hide Outgoing, Next, OnCycle, Reach;
    var next := Next(Patient.edges);
    var order := ["x", "s", "b", "t"];
    assert order[..1] == ["x"] && order[..2] == ["x", "s"] && order[..3] == ["x", "s", "b"];
    assert Topological(next, order);
    forall x | Reach(next, "t", x) ensures !OnCycle(next, x) {
      assert order[3] == "t";
      TopologicalMeansNoCycle(next, order, "t", x);
    }
  }

  lemma PatientIsUnique()
    ensures UniqueIds(Patient.nodes) && NoDanglingEdges(Patient)
  {
    PatientLookups();
    hide FirstNode;
  }

  lemma PatientIndexes()
    ensures NodeById(Patient.nodes, "b") == Some(Patient.nodes[1]) && NodeById(Patient.nodes, "s") == Some(Patient.nodes[2])
    ensures NodeById(Patient.nodes, "x") == Some(Patient.nodes[3])
  {
    PatientLookups();
    PatientIsUnique();
    hide *;
    LookupsAgree(Patient.nodes, "b");
    LookupsAgree(Patient.nodes, "s");
    LookupsAgree(Patient.nodes, "x");
  }

  lemma PatientHandles()
    ensures var both := [Patient.edges[1], Patient.edges[2]];
            FindHandle(both, Yes) == Some(both[0]) && FindHandle(both, No) == Some(both[1])
  {
    var both := [Patient.edges[1], Patient.edges[2]];
    assert both[1..] == [Patient.edges[2]];
  }

  lemma PatientNodes()
    ensures Followed(Patient)("b") == ["s", "s"] && Followed(Patient)("s") == ["x"] && Followed(Patient)("x") == []
    ensures Good(Patient, "b") && Good(Patient, "s") && Good(Patient, "x")
  {
    PatientEdges();
    PatientIndexes();
    PatientHandles();
    hide Outgoing, NodeById, FindHandle;
    assert TargetsOf([Patient.edges[3]]) == ["x"];
  }

  lemma PatientLooksGood()
    ensures AllPathsGood(Patient, "b")
  {
    PatientNodes();
    hide Followed, Good, FollowedFrom;
    var inside := {"b", "s", "x"};
    assert ClosedUnder(Followed(Patient), inside);
    forall x | Reach(Followed(Patient), "b", x) ensures Good(Patient, x) {
      ClosedHoldsReachable(Followed(Patient), inside, "b", x);
    }
  }

  lemma PatientNodesAreFine(node: Node)
    requires node in Patient.nodes && AllPathsGood(Patient, "b")
    ensures !BranchMissesExit(Patient, "t", node) && (node.kind.SendNode? ==> SendReady(node.kind))
  {
    hide Outgoing, AllPathsGood, Reach;
    assert "template"[0] == 't' && !IsSpace('t');
    var nodes := Patient.nodes;
    assert node == nodes[0] || node == nodes[1] || node == nodes[2] || node == nodes[3];
  }

  lemma PatientIsPublishable()
    ensures Publishable(Patient)
  {
    PatientEdges();
    PatientLookups();
    PatientHasNoCycle();
    PatientLooksGood();
    hide Outgoing, AllPathsGood, Reach, NoReachableCycle, Triggers, BranchMissesExit, SendReady;
    forall node | node in Patient.nodes ensures !BranchMissesExit(Patient, "t", node) && (node.kind.SendNode? ==> SendReady(node.kind)) {
      PatientNodesAreFine(node);
    }
  }

  lemma PatientTicks(steps: nat)
    requires steps < MAX_STEPS_PER_RUN
    ensures Steps(Patient, "b", steps, "s") && Steps(Patient, "s", steps, "s")
    ensures EntryNode(Patient) == Some("b")
  {
    PatientEdges();
    PatientLookups();
    FirstEdgeIsListed(Patient.edges, "t");
    FirstBranchEdgeIsListed(Patient.edges, "b", Yes);
    hide Outgoing, FirstEdge, FirstBranchEdge, FirstNode, Triggers;
    assert FindHandle([Patient.edges[1], Patient.edges[2]], Yes) == Some(Patient.edges[1]);
    assert AdvanceFrom(Patient, "b", steps, Tick(false, false, Yes)) == Moved("s");
    assert AdvanceFrom(Patient, "s", steps, Tick(false, true, Yes)) == Deferred;
  }

  /** So the deferrals must be counted: this valid flow's run is put off until its budget is spent, short of its exit. */
  lemma DeferralsCanSpendTheBudget(tick: Tick)
    ensures var trace := ["b"] + seq(MAX_STEPS_PER_RUN, i => "s");
            && Publishable(Patient) && NoDanglingEdges(Patient) && UniqueIds(Patient.nodes)
            && IsRun(Patient, trace) && AdvanceFrom(Patient, Last(trace), |trace| - 1, tick) == BudgetSpent
  {
    PatientIsPublishable();
    PatientIsUnique();
    hide Publishable, NoDanglingEdges, UniqueIds, Steps, EntryNode;
    var trace := ["b"] + seq(MAX_STEPS_PER_RUN, i => "s");
    PatientTicks(0);
    forall i | 0 <= i < |trace| - 1 ensures Steps(Patient, trace[i], i, trace[i + 1]) {
      PatientTicks(i);
    }
  }
}
