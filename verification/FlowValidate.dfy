/** Publish-time validation of a flow: cycle search, reachability, and the all-paths exit check. */
module FlowValidate {
  import opened Options
  import opened FlowGraph
  import opened JsText

  datatype Handle = Yes | No

  datatype Kind =
    | Trigger | Delay | Branch | Exit
    | SendNode(templateId: Option<string>, fromSenderId: Option<string>, fromEmail: Option<string>)

  datatype Node = Node(id: string, kind: Kind)

  datatype Edge = Edge(source: string, target: string, handle: Option<Handle>)

  datatype Definition = Definition(nodes: seq<Node>, edges: seq<Edge>)

  datatype ErrorCode = NoTrigger | EmptySend | BranchMissingExit | CycleDetected | NoEntry

  datatype FlowError = FlowError(code: ErrorCode, nodeId: Option<string>)

  // ---------- the graph of a definition ----------

  function Outgoing(edges: seq<Edge>, id: string): (r: seq<Edge>)
    ensures forall i :: 0 <= i < |r| ==> r[i] in edges
  {
    if edges == [] then []
    else
      var n := |edges| - 1;
      Outgoing(edges[..n], id) + if edges[n].source == id then [edges[n]] else []
  }

  function TargetsOf(es: seq<Edge>): (r: seq<string>)
    ensures |r| == |es| && forall i :: 0 <= i < |r| ==> r[i] == es[i].target
  {
    seq(|es|, i requires 0 <= i < |es| => es[i].target)
  }

  function Next(edges: seq<Edge>): Successors {
    id => TargetsOf(Outgoing(edges, id))
  }

  /** A later node with the same id hides an earlier one. */
  function NodeById(nodes: seq<Node>, id: string): Option<Node> {
    if nodes == [] then None
    else if nodes[|nodes| - 1].id == id then Some(nodes[|nodes| - 1])
    else NodeById(nodes[..|nodes| - 1], id)
  }

  function FindHandle(es: seq<Edge>, handle: Handle): (r: Option<Edge>)
    ensures r.Some? ==> r.value in es && r.value.handle == Some(handle)
    ensures r.None? ==> forall e :: e in es ==> e.handle != Some(handle)
  {
    if es == [] then None
    else if es[0].handle == Some(handle) then Some(es[0])
    else FindHandle(es[1..], handle)
  }

  /** The edges the exit check follows: both handles of a branch, every edge of another node, none of an exit. */
  function FollowedFrom(def: Definition, id: string): seq<string> {
    var node := NodeById(def.nodes, id);
    var out := Outgoing(def.edges, id);
    if node.None? || node.value.kind.Exit? then []
    else if node.value.kind.Branch? then
      var yes, no := FindHandle(out, Yes), FindHandle(out, No);
      if yes.None? || no.None? then [] else [yes.value.target, no.value.target]
    else TargetsOf(out)
  }

  function Followed(def: Definition): Successors {
    id => FollowedFrom(def, id)
  }

  /** Where the exit check is content to stop, or can go on. */
  predicate Good(def: Definition, id: string) {
    var node := NodeById(def.nodes, id);
    var out := Outgoing(def.edges, id);
    node.None? || node.value.kind.Exit? ||
    if node.value.kind.Branch? then FindHandle(out, Yes).Some? && FindHandle(out, No).Some?
    else out != []
  }

  ghost predicate AllPathsGood(def: Definition, id: string) {
    forall x :: Reach(Followed(def), id, x) ==> Good(def, x)
  }

  // ---------- the indexes ----------

  function Listed(index: map<string, seq<Edge>>, id: string): seq<Edge> {
    if id in index then index[id] else []
  }

  predicate IndexesNode(index: map<string, seq<Edge>>, edges: seq<Edge>, id: string) {
    Listed(index, id) == Outgoing(edges, id)
  }

  ghost predicate Indexes(index: map<string, seq<Edge>>, edges: seq<Edge>) {
    forall id :: IndexesNode(index, edges, id)
  }

  method IndexEdges(edges: seq<Edge>) returns (edgesBySource: map<string, seq<Edge>>)
    ensures Indexes(edgesBySource, edges)
  {
    edgesBySource := map[];
    var i := 0;
    while i < |edges|
      invariant 0 <= i <= |edges| && Indexes(edgesBySource, edges[..i])
    {
      var edge := edges[i];
      assert edges[..i + 1][..i] == edges[..i];
      assert IndexesNode(edgesBySource, edges[..i], edge.source);
      ghost var before := edgesBySource;
      ghost var prefix := edges[..i + 1];
      edgesBySource := edgesBySource[edge.source := Listed(edgesBySource, edge.source) + [edge]];
      forall id ensures IndexesNode(edgesBySource, prefix, id) {
        assert IndexesNode(before, edges[..i], id);
      }
      i := i + 1;
    }
    assert edges[..i] == edges;
  }

  method IndexNodes(nodes: seq<Node>) returns (nodesById: map<string, Node>)
    ensures IndexesNodes(nodesById, nodes)
  {
    nodesById := map[];
    var i := 0;
    while i < |nodes|
      invariant 0 <= i <= |nodes| && IndexesNodes(nodesById, nodes[..i])
    {
      assert nodes[..i + 1][..i] == nodes[..i];
      ghost var before := nodesById;
      nodesById := nodesById[nodes[i].id := nodes[i]];
      forall id ensures ListedNode(nodesById, id) == NodeById(nodes[..i + 1], id) {
        assert ListedNode(before, id) == NodeById(nodes[..i], id);
      }
      i := i + 1;
    }
    assert nodes[..i] == nodes;
  }

  function ListedNode(index: map<string, Node>, id: string): Option<Node> {
    if id in index then Some(index[id]) else None
  }

  ghost predicate IndexesNodes(index: map<string, Node>, nodes: seq<Node>) {
    forall id :: ListedNode(index, id) == NodeById(nodes, id)
  }

  // ---------- cycle search ----------

  function Ids(edges: seq<Edge>, start: string): set<string> {
    {start} + set i | 0 <= i < |edges| :: edges[i].target
  }

  lemma TargetsAreIds(edges: seq<Edge>, start: string, id: string)
    ensures forall y :: y in Next(edges)(id) ==> y in Ids(edges, start)
  {
    forall y | y in Next(edges)(id) ensures y in Ids(edges, start) {
      var out := Outgoing(edges, id);
      var i :| 0 <= i < |out| && out[i].target == y;
      assert out[i] in edges;
    }
  }

  /**
   * `path` is the walk on the recursion stack and `finished` lists the nodes taken off it: together they
   * are the visited nodes, and the finished ones stand after their successors.
   */
  ghost predicate Consistent(edges: seq<Edge>, path: seq<string>, onStack: set<string>, visited: set<string>, finished: seq<string>) {
    && (path == [] || Walk(Next(edges), path))
    && onStack == (set x | x in path)
    && visited == onStack + (set x | x in finished)
    && Topological(Next(edges), finished)
  }

  lemma Entered(edges: seq<Edge>, path: seq<string>, onStack: set<string>, visited: set<string>, finished: seq<string>, node: string)
    requires Consistent(edges, path, onStack, visited, finished) && node !in visited
    requires path != [] ==> node in Next(edges)(Last(path))
    ensures Consistent(edges, path + [node], onStack + {node}, visited + {node}, finished)
  {
    hide Next;
  }

  lemma Left(edges: seq<Edge>, path: seq<string>, onStack: set<string>, visited: set<string>, finished: seq<string>, node: string)
    requires Consistent(edges, path + [node], onStack, visited, finished) && node !in path
    requires forall y :: y in Next(edges)(node) ==> y in finished
    ensures Consistent(edges, path, onStack - {node}, visited, finished + [node])
  {
    hide Next, Topological;
    FinishNext(Next(edges), finished, node);
    var here := path + [node];
    if path != [] {
      forall i | 0 <= i < |path| - 1 ensures path[i + 1] in Next(edges)(path[i]) {
        assert here[i + 1] in Next(edges)(here[i]);
      }
    }
  }

  lemma StackedOrFinished(edges: seq<Edge>, path: seq<string>, onStack: set<string>, visited: set<string>, finished: seq<string>, x: string)
    requires Consistent(edges, path, onStack, visited, finished)
    ensures x in onStack <==> x in path
    ensures x in visited <==> x in path || x in finished
  {
  }

  lemma BackEdge(edges: seq<Edge>, here: seq<string>, target: string)
    requires here != [] && Walk(Next(edges), here) && target in here && target in Next(edges)(Last(here))
    ensures OnCycle(Next(edges), target) && Reach(Next(edges), here[0], target)
  {
    hide Next;
    var k :| 0 <= k < |here| && here[k] == target;
    assert WalkBetween(Next(edges), here[..k + 1], here[0], target);
    assert WalkBetween(Next(edges), here[k..] + [target], target, target);
  }

  class CycleSearch {
    const edges: seq<Edge>
    const edgesBySource: map<string, seq<Edge>>
    const startId: string
    ghost const ids: set<string>
    var visited: set<string>
    var onStack: set<string>
    ghost var finished: seq<string>

    constructor (edges: seq<Edge>, edgesBySource: map<string, seq<Edge>>, startId: string)
      requires Indexes(edgesBySource, edges)
      ensures Valid([]) && visited == {} && this.edges == edges && this.startId == startId
    {
      this.edges := edges;
      this.edgesBySource := edgesBySource;
      this.startId := startId;
      ids := Ids(edges, startId);
      visited, onStack, finished := {}, {}, [];
    }

    ghost predicate Valid(path: seq<string>)
      reads this
    {
      Indexes(edgesBySource, edges) && ids == Ids(edges, startId) && Consistent(edges, path, onStack, visited, finished)
    }

    method Dfs(nodeId: string, ghost path: seq<string>) returns (found: Option<string>)
      requires Valid(path) && nodeId in ids && nodeId !in visited
      requires path != [] ==> nodeId in Next(edges)(Last(path))
      modifies this
      ensures found.None? ==> Valid(path) && old(visited) <= visited && nodeId in finished
      ensures found.None? ==> forall x :: x in old(finished) ==> x in finished
      ensures found.Some? ==> OnCycle(Next(edges), found.value)
      ensures found.Some? ==> Reach(Next(edges), (path + [nodeId])[0], found.value)
      decreases ids - visited
    {
      hide Consistent, Next, Outgoing, OnCycle, Reach, Indexes, Ids;
      ghost var here := path + [nodeId];
      StackedOrFinished(edges, path, onStack, visited, finished, nodeId);
      Entered(edges, path, onStack, visited, finished, nodeId);
      visited := visited + {nodeId};
      onStack := onStack + {nodeId};
      var out := Listed(edgesBySource, nodeId);
      ListedTargets(edges, edgesBySource, startId, nodeId);
      ghost var before := finished;
      var i := 0;
      while i < |out|
        invariant 0 <= i <= |out| && Valid(here) && old(visited) + {nodeId} <= visited
        invariant forall x :: x in before ==> x in finished
        invariant forall j :: 0 <= j < i ==> out[j].target in finished
      {
        var edge := out[i];
        StackedOrFinished(edges, here, onStack, visited, finished, edge.target);
        if edge.target in onStack {
          WalkOnStack(here);
          BackEdge(edges, here, edge.target);
          return Some(edge.target);
        }
        if edge.target !in visited {
          found := Dfs(edge.target, here);
          if found.Some? {
            assert (here + [edge.target])[0] == here[0];
            return;
          }
        }
        i := i + 1;
      }
      Left(edges, path, onStack, visited, finished, nodeId);
      finished := finished + [nodeId];
      onStack := onStack - {nodeId};
      return None;
    }

    lemma WalkOnStack(path: seq<string>)
      requires Valid(path) && path != []
      ensures Walk(Next(edges), path)
    {
    }
  }

  /** Depth-first search with a recursion stack: a reported node lies on a reachable cycle; silence means there is none. */
  method FindCycleReachableFrom(startId: string, edges: seq<Edge>, edgesBySource: map<string, seq<Edge>>) returns (found: Option<string>)
    requires Indexes(edgesBySource, edges)
    ensures found.None? <==> forall x :: Reach(Next(edges), startId, x) ==> !OnCycle(Next(edges), x)
    ensures found.Some? ==> Reach(Next(edges), startId, found.value) && OnCycle(Next(edges), found.value)
  {
    var search := new CycleSearch(edges, edgesBySource, startId);
    found := search.Dfs(startId, []);
    if found.None? {
      forall x | Reach(Next(edges), startId, x) ensures !OnCycle(Next(edges), x) {
        TopologicalMeansNoCycle(Next(edges), search.finished, startId, x);
      }
    }
  }

  // ---------- reachability ----------

  /** Breadth-first search: exactly the reachable ids. */
  method CollectReachable(startId: string, edges: seq<Edge>, edgesBySource: map<string, seq<Edge>>) returns (visited: set<string>)
    requires Indexes(edgesBySource, edges)
    ensures forall x :: x in visited <==> Reach(Next(edges), startId, x)
  {
    hide Next, Outgoing, Reach, Indexes;
    ghost var ids := Ids(edges, startId);
    visited := {startId};
    var queue := [startId];
    ReachesItself(Next(edges), startId);
    while queue != []
      invariant visited <= ids && forall x :: x in visited ==> Reach(Next(edges), startId, x)
      invariant startId in visited && forall x :: x in queue ==> x in visited
      invariant forall x, y :: x in visited && x !in queue && y in Next(edges)(x) ==> y in visited
      decreases ids - visited, |queue|
    {
      var current := queue[0];
      ghost var was := queue;
      queue := queue[1..];
      var out := Listed(edgesBySource, current);
      ListedTargets(edges, edgesBySource, startId, current);
      ghost var known := visited;
      var i := 0;
      while i < |out|
        invariant 0 <= i <= |out| && known <= visited <= ids && (visited == known ==> queue == was[1..])
        invariant forall x :: x in visited ==> Reach(Next(edges), startId, x)
        invariant forall x :: x in queue ==> x in visited
        invariant forall x :: x in was[1..] ==> x in queue
        invariant forall x :: x in visited && x !in known ==> x in queue
        invariant forall j :: 0 <= j < i ==> out[j].target in visited
      {
        if out[i].target !in visited {
          ReachesFurther(Next(edges), startId, current, out[i].target);
          visited := visited + {out[i].target};
          queue := queue + [out[i].target];
        }
        i := i + 1;
      }
      assert was == [current] + was[1..];
    }
    forall x | Reach(Next(edges), startId, x) ensures x in visited {
      ClosedHoldsReachable(Next(edges), visited, startId, x);
    }
  }

  lemma ListedTargets(edges: seq<Edge>, edgesBySource: map<string, seq<Edge>>, start: string, id: string)
    requires Indexes(edgesBySource, edges)
    ensures var out := Listed(edgesBySource, id);
            && (forall i :: 0 <= i < |out| ==> out[i].target in Next(edges)(id) && out[i].target in Ids(edges, start))
            && (forall y :: y in Next(edges)(id) ==> exists i :: 0 <= i < |out| && out[i].target == y)
  {
    assert IndexesNode(edgesBySource, edges, id);
    TargetsAreIds(edges, start, id);
    var out := Outgoing(edges, id);
    forall i | 0 <= i < |out| ensures out[i].target in Next(edges)(id) {
      assert Next(edges)(id)[i] == out[i].target;
    }
  }

  // ---------- the exit check ----------

  lemma FollowedAreTargets(def: Definition, id: string)
    ensures forall y :: y in Followed(def)(id) ==> y in Next(def.edges)(id)
  {
    var out := Outgoing(def.edges, id);
    forall e | e in out ensures e.target in TargetsOf(out) {
      var i :| 0 <= i < |out| && out[i] == e;
      assert TargetsOf(out)[i] == e.target;
    }
  }

  class ExitCheck {
    const def: Definition
    const nodesById: map<string, Node>
    const edgesBySource: map<string, seq<Edge>>
    const startId: string
    ghost const ids: set<string>
    var visited: set<string>

    constructor (def: Definition, nodesById: map<string, Node>, edgesBySource: map<string, seq<Edge>>, startId: string)
      requires Indexes(edgesBySource, def.edges) && IndexesNodes(nodesById, def.nodes)
      ensures Valid() && visited == {} && this.def == def && this.startId == startId
    {
      this.def := def;
      this.nodesById := nodesById;
      this.edgesBySource := edgesBySource;
      this.startId := startId;
      ids := Ids(def.edges, startId);
      visited := {};
    }

    ghost predicate Valid()
      reads this
    {
      Indexes(edgesBySource, def.edges) && IndexesNodes(nodesById, def.nodes) && ids == Ids(def.edges, startId)
    }

    /** The nodes added since `before` are good, and so is everything they lead to once this call's node is in. */
    ghost predicate Sound(before: set<string>)
      reads this
    {
      && before <= visited
      && (forall x :: x in visited && x !in before ==> Good(def, x))
      && (forall x, y :: x in visited && x !in before && y in Followed(def)(x) ==> y in visited)
    }

    /**
     * The shared `visited` set: a revisit answers true because the first visit's own answer is part of the
     * same conjunction. So a true answer leaves only good nodes behind, and a false one has seen a bad node.
     */
    method PathReachesExit(nodeId: string) returns (ok: bool)
      requires Valid() && nodeId in ids
      modifies this`visited
      ensures ok ==> nodeId in visited && Sound(old(visited))
      ensures !ok ==> !AllPathsGood(def, nodeId)
      decreases ids - visited
    {
      hide Good, FollowedFrom, Followed, AllPathsGood, Indexes, IndexesNodes, Ids, Outgoing, NodeById, Next;
      if nodeId in visited {
        return true;
      }
      ghost var before := visited;
      visited := visited + {nodeId};
      Looked(nodeId);
      var node := ListedNode(nodesById, nodeId);
      if node.None? || node.value.kind.Exit? {
        StopsHere(def, nodeId);
        return true;
      }
      var outgoing := Listed(edgesBySource, nodeId);
      if node.value.kind.Branch? {
        var yesEdge, noEdge := FindHandle(outgoing, Yes), FindHandle(outgoing, No);
        BranchFollows(def, nodeId);
        if yesEdge.None? || noEdge.None? {
          return false;
        }
        TargetsAreKnown(def, startId, nodeId);
        assert yesEdge.value.target in Followed(def)(nodeId) && noEdge.value.target in Followed(def)(nodeId);
        ok := PathReachesExit(yesEdge.value.target);
        if ok {
          ok := PathReachesExit(noEdge.value.target);
          if !ok {
            BadFurther(def, nodeId, noEdge.value.target);
          }
        } else {
          BadFurther(def, nodeId, yesEdge.value.target);
        }
        return;
      }
      OtherFollows(def, nodeId);
      if outgoing == [] {
        return false;
      }
      TargetsAreKnown(def, startId, nodeId);
      var i := 0;
      while i < |outgoing|
        invariant 0 <= i <= |outgoing| && before + {nodeId} <= visited
        invariant forall x :: x in visited && x !in before && x != nodeId ==> Good(def, x)
        invariant forall x, y :: x in visited && x !in before && x != nodeId && y in Followed(def)(x) ==> y in visited
        invariant forall j :: 0 <= j < i ==> outgoing[j].target in visited
      {
        ok := PathReachesExit(outgoing[i].target);
        if !ok {
          BadFurther(def, nodeId, outgoing[i].target);
          return;
        }
        i := i + 1;
      }
      return true;
    }

    lemma Looked(nodeId: string)
      requires Valid()
      ensures ListedNode(nodesById, nodeId) == NodeById(def.nodes, nodeId)
      ensures Listed(edgesBySource, nodeId) == Outgoing(def.edges, nodeId)
    {
      assert IndexesNode(edgesBySource, def.edges, nodeId);
    }
  }

  lemma StopsHere(def: Definition, id: string)
    requires var node := NodeById(def.nodes, id); node.None? || node.value.kind.Exit?
    ensures Good(def, id) && Followed(def)(id) == []
  {
  }

  lemma BadHere(def: Definition, id: string)
    requires !Good(def, id)
    ensures !AllPathsGood(def, id)
  {
    hide Good;
    ReachesItself(Followed(def), id);
  }

  lemma BranchFollows(def: Definition, id: string)
    requires var node := NodeById(def.nodes, id); node.Some? && node.value.kind.Branch?
    ensures var out := Outgoing(def.edges, id);
            var yes, no := FindHandle(out, Yes), FindHandle(out, No);
            if yes.Some? && no.Some?
            then Good(def, id) && Followed(def)(id) == [yes.value.target, no.value.target]
            else !AllPathsGood(def, id)
  {
    var out := Outgoing(def.edges, id);
    if FindHandle(out, Yes).None? || FindHandle(out, No).None? {
      BadHere(def, id);
    }
  }

  lemma OtherFollows(def: Definition, id: string)
    requires var node := NodeById(def.nodes, id); node.Some? && !node.value.kind.Branch? && !node.value.kind.Exit?
    ensures Followed(def)(id) == TargetsOf(Outgoing(def.edges, id))
    ensures if Outgoing(def.edges, id) == [] then !AllPathsGood(def, id) else Good(def, id)
  {
    if Outgoing(def.edges, id) == [] {
      BadHere(def, id);
    }
  }

  lemma TargetsAreKnown(def: Definition, start: string, id: string)
    ensures forall y :: y in Followed(def)(id) ==> y in Ids(def.edges, start)
  {
    FollowedAreTargets(def, id);
    TargetsAreIds(def.edges, start, id);
  }

  /** A bad node past a followed edge is a bad node from here. */
  lemma BadFurther(def: Definition, id: string, target: string)
    requires target in Followed(def)(id) && !AllPathsGood(def, target)
    ensures !AllPathsGood(def, id)
  {
    hide Good, FollowedFrom, Followed;
    var x :| Reach(Followed(def), target, x) && !Good(def, x);
    var p :| WalkBetween(Followed(def), p, target, x);
    WalksCompose(Followed(def), [id, target], p);
    assert Reach(Followed(def), id, x);
  }

  /** The check from a fresh `visited` set is true exactly when every node the followed edges reach is good. */
  method ReachesExitEverywhere(def: Definition, nodesById: map<string, Node>, edgesBySource: map<string, seq<Edge>>, id: string)
    returns (ok: bool)
    requires Indexes(edgesBySource, def.edges) && IndexesNodes(nodesById, def.nodes)
    ensures ok <==> AllPathsGood(def, id)
  {
    var check := new ExitCheck(def, nodesById, edgesBySource, id);
    ok := check.PathReachesExit(id);
    if ok {
      forall x | Reach(Followed(def), id, x) ensures Good(def, x) {
        ClosedHoldsReachable(Followed(def), check.visited, id, x);
      }
    }
  }

  // ---------- the whole validation ----------

  predicate Blank(text: Option<string>) {
    text.None? || forall i :: 0 <= i < |text.value| ==> IsSpace(text.value[i])
  }

  predicate SendReady(kind: Kind)
    requires kind.SendNode?
  {
    && !Blank(kind.templateId)
    && (Given(kind.fromSenderId) || Given(kind.fromEmail))
  }

  /** A send node can be published with a template id that is not all white space and some sender. */
  lemma SendIsReadyIff(kind: Kind)
    requires kind.SendNode?
    ensures SendReady(kind) <==>
              && kind.templateId.Some? && (exists i :: 0 <= i < |kind.templateId.value| && !IsSpace(kind.templateId.value[i]))
              && ((kind.fromSenderId.Some? && kind.fromSenderId.value != "") || (kind.fromEmail.Some? && kind.fromEmail.value != ""))
  {
  }

  function Triggers(nodes: seq<Node>): (r: seq<Node>)
    ensures forall i :: 0 <= i < |r| ==> r[i] in nodes && r[i].kind.Trigger?
    ensures forall node :: node in nodes && node.kind.Trigger? ==> node in r
  {
    if nodes == [] then []
    else
      var n := |nodes| - 1;
      Triggers(nodes[..n]) + if nodes[n].kind.Trigger? then [nodes[n]] else []
  }

  function EmptySends(nodes: seq<Node>): seq<FlowError> {
    if nodes == [] then []
    else
      var n := |nodes| - 1;
      EmptySends(nodes[..n])
      + if nodes[n].kind.SendNode? && !SendReady(nodes[n].kind) then [FlowError(EmptySend, Some(nodes[n].id))] else []
  }

  ghost predicate BranchMissesExit(def: Definition, start: string, node: Node) {
    node.kind.Branch? && Reach(Next(def.edges), start, node.id) && !AllPathsGood(def, node.id)
  }

  ghost function BranchErrors(def: Definition, start: string, nodes: seq<Node>): seq<FlowError> {
    if nodes == [] then []
    else
      var n := |nodes| - 1;
      BranchErrors(def, start, nodes[..n])
      + if BranchMissesExit(def, start, nodes[n]) then [FlowError(BranchMissingExit, Some(nodes[n].id))] else []
  }

  ghost predicate NoReachableCycle(def: Definition, start: string) {
    forall x :: Reach(Next(def.edges), start, x) ==> !OnCycle(Next(def.edges), x)
  }

  /** At most one cycle error, naming a node that lies on a cycle reachable from the trigger. */
  ghost predicate CycleReport(def: Definition, start: string, report: seq<FlowError>) {
    if NoReachableCycle(def, start) then report == []
    else exists id :: report == [FlowError(CycleDetected, Some(id))]
                      && Reach(Next(def.edges), start, id) && OnCycle(Next(def.edges), id)
  }

  function EntryErrors(def: Definition, start: string): seq<FlowError> {
    if Outgoing(def.edges, start) == [] then [FlowError(NoEntry, None)] else []
  }

  /** The order of the checks: sends, entry, cycle, branches; without a single trigger only the first two kinds appear. */
  ghost predicate Reported(def: Definition, errors: seq<FlowError>, cycle: seq<FlowError>) {
    var triggers := Triggers(def.nodes);
    if |triggers| == 1 then
      && CycleReport(def, triggers[0].id, cycle)
      && errors == EmptySends(def.nodes) + EntryErrors(def, triggers[0].id) + cycle
                   + BranchErrors(def, triggers[0].id, def.nodes)
    else errors == [FlowError(NoTrigger, None)] + EmptySends(def.nodes)
  }

  /** What publishing demands, said without the error list. */
  ghost predicate Publishable(def: Definition) {
    var triggers := Triggers(def.nodes);
    && |triggers| == 1
    && (forall node :: node in def.nodes && node.kind.SendNode? ==> SendReady(node.kind))
    && Outgoing(def.edges, triggers[0].id) != []
    && NoReachableCycle(def, triggers[0].id)
    && (forall node :: node in def.nodes ==> !BranchMissesExit(def, triggers[0].id, node))
  }

  lemma {:induction false} NoSendErrors(nodes: seq<Node>)
    ensures EmptySends(nodes) == [] <==> forall node :: node in nodes && node.kind.SendNode? ==> SendReady(node.kind)
  {
    if nodes != [] {
      var n := |nodes| - 1;
      NoSendErrors(nodes[..n]);
      assert nodes == nodes[..n] + [nodes[n]];
    }
  }

  lemma {:induction false} NoBranchErrors(def: Definition, start: string, nodes: seq<Node>)
    ensures BranchErrors(def, start, nodes) == [] <==> forall node :: node in nodes ==> !BranchMissesExit(def, start, node)
  {
    hide BranchMissesExit;
    if nodes != [] {
      var n := |nodes| - 1;
      NoBranchErrors(def, start, nodes[..n]);
      assert nodes == nodes[..n] + [nodes[n]];
    }
  }

  lemma EmptyReportMeansPublishable(def: Definition, errors: seq<FlowError>, cycle: seq<FlowError>)
    requires Reported(def, errors, cycle)
    ensures errors == [] <==> Publishable(def)
  {
    hide NoReachableCycle, BranchMissesExit, SendReady, Outgoing;
    NoSendErrors(def.nodes);
    if |Triggers(def.nodes)| == 1 {
      NoBranchErrors(def, Triggers(def.nodes)[0].id, def.nodes);
    }
  }

  lemma {:induction false} SendErrorsName(nodes: seq<Node>, error: FlowError)
    ensures error in EmptySends(nodes) <==>
              exists node :: node in nodes && node.kind.SendNode? && !SendReady(node.kind) && error == FlowError(EmptySend, Some(node.id))
  {
    if nodes != [] {
      var n := |nodes| - 1;
      SendErrorsName(nodes[..n], error);
      assert nodes == nodes[..n] + [nodes[n]];
    }
  }

  lemma {:induction false} BranchErrorsName(def: Definition, start: string, nodes: seq<Node>, error: FlowError)
    ensures error in BranchErrors(def, start, nodes) <==>
              exists node :: node in nodes && BranchMissesExit(def, start, node) && error == FlowError(BranchMissingExit, Some(node.id))
  {
    hide BranchMissesExit;
    if nodes != [] {
      var n := |nodes| - 1;
      BranchErrorsName(def, start, nodes[..n], error);
      assert nodes == nodes[..n] + [nodes[n]];
    }
  }

  /** Each kind of error is listed for exactly what it is about, and names it. */
  lemma WhatTheErrorsName(def: Definition, errors: seq<FlowError>, cycle: seq<FlowError>, error: FlowError)
    requires Reported(def, errors, cycle)
    ensures error in errors <==>
              match error.code
              case NoTrigger => error.nodeId == None && |Triggers(def.nodes)| != 1
              case EmptySend =>
                exists node :: node in def.nodes && node.kind.SendNode? && !SendReady(node.kind) && error.nodeId == Some(node.id)
              case NoEntry =>
                error.nodeId == None && |Triggers(def.nodes)| == 1 && forall e :: e in def.edges ==> e.source != Triggers(def.nodes)[0].id
              case CycleDetected => |Triggers(def.nodes)| == 1 && cycle == [error]
              case BranchMissingExit =>
                |Triggers(def.nodes)| == 1 &&
                exists node :: node in def.nodes && BranchMissesExit(def, Triggers(def.nodes)[0].id, node) && error.nodeId == Some(node.id)
  {
    hide EmptySends, BranchErrors, SendReady, BranchMissesExit, NoReachableCycle, Outgoing, Triggers;
    SendErrorsName(def.nodes, error);
    if |Triggers(def.nodes)| == 1 {
      BranchErrorsName(def, Triggers(def.nodes)[0].id, def.nodes, error);
      NoOutgoingIff(def.edges, Triggers(def.nodes)[0].id);
    }
  }

  lemma {:induction false} NoOutgoingIff(edges: seq<Edge>, id: string)
    ensures Outgoing(edges, id) == [] <==> forall e :: e in edges ==> e.source != id
    ensures forall e :: e in Outgoing(edges, id) <==> e in edges && e.source == id
  {
    if edges != [] {
      var n := |edges| - 1;
      NoOutgoingIff(edges[..n], id);
      assert edges == edges[..n] + [edges[n]];
    }
  }

  /** Where a followed path may stop: where there is no node, at an exit, and else only for want of nothing. */
  lemma GoodMeans(def: Definition, id: string)
    ensures var node := NodeById(def.nodes, id);
            Good(def, id) <==>
              if node.None? || node.value.kind.Exit? then true
              else if node.value.kind.Branch? then
                && (exists e :: e in def.edges && e.source == id && e.handle == Some(Yes))
                && (exists e :: e in def.edges && e.source == id && e.handle == Some(No))
              else exists e :: e in def.edges && e.source == id
  {
    NoOutgoingIff(def.edges, id);
  }

  /** What is followed: every edge of a trigger, send or delay, and both handles of a branch that has both; nothing of an exit. */
  lemma FollowedMeans(def: Definition, id: string, y: string)
    ensures var node := NodeById(def.nodes, id);
            y in FollowedFrom(def, id) ==>
              && node.Some? && !node.value.kind.Exit?
              && exists e :: e in def.edges && e.source == id && e.target == y && (node.value.kind.Branch? ==> e.handle.Some?)
    ensures var node := NodeById(def.nodes, id);
            node.Some? && !node.value.kind.Exit? && !node.value.kind.Branch? ==>
              forall e :: e in def.edges && e.source == id ==> e.target in FollowedFrom(def, id)
    ensures var node := NodeById(def.nodes, id);
            node.Some? && node.value.kind.Branch? && Good(def, id) ==>
              forall handle: Handle :: exists e :: e in def.edges && e.source == id && e.handle == Some(handle) && e.target in FollowedFrom(def, id)
  {
    NoOutgoingIff(def.edges, id);
    var node, out := NodeById(def.nodes, id), Outgoing(def.edges, id);
    if node.Some? && node.value.kind.Branch? && Good(def, id) {
      var yes, no := FindHandle(out, Yes).value, FindHandle(out, No).value;
      assert FollowedFrom(def, id) == [yes.target, no.target];
      assert FollowedFrom(def, id)[0] == yes.target && FollowedFrom(def, id)[1] == no.target;
      forall handle: Handle ensures exists e :: e in def.edges && e.source == id && e.handle == Some(handle) && e.target in FollowedFrom(def, id) {
        assert (if handle == Yes then yes else no) in def.edges;
      }
    }
  }

  method CheckSends(nodes: seq<Node>) returns (errors: seq<FlowError>)
    ensures errors == EmptySends(nodes)
  {
    hide SendReady;
    errors := [];
    var i := 0;
    while i < |nodes|
      invariant 0 <= i <= |nodes| && errors == EmptySends(nodes[..i])
    {
      assert nodes[..i + 1][..i] == nodes[..i];
      if nodes[i].kind.SendNode? && !SendReady(nodes[i].kind) {
        errors := errors + [FlowError(EmptySend, Some(nodes[i].id))];
      }
      i := i + 1;
    }
    assert nodes[..i] == nodes;
  }

  method CheckBranches(def: Definition, nodesById: map<string, Node>, edgesBySource: map<string, seq<Edge>>,
                       startId: string, reachable: set<string>) returns (errors: seq<FlowError>)
    requires Indexes(edgesBySource, def.edges) && IndexesNodes(nodesById, def.nodes)
    requires forall x :: x in reachable <==> Reach(Next(def.edges), startId, x)
    ensures errors == BranchErrors(def, startId, def.nodes)
  {
    hide Next, Reach, Indexes, IndexesNodes, AllPathsGood;
    errors := [];
    var i := 0;
    while i < |def.nodes|
      invariant 0 <= i <= |def.nodes| && errors == BranchErrors(def, startId, def.nodes[..i])
    {
      assert def.nodes[..i + 1][..i] == def.nodes[..i];
      if def.nodes[i].kind.Branch? && def.nodes[i].id in reachable {
        var ok := ReachesExitEverywhere(def, nodesById, edgesBySource, def.nodes[i].id);
        if !ok {
          errors := errors + [FlowError(BranchMissingExit, Some(def.nodes[i].id))];
        }
      }
      i := i + 1;
    }
    assert def.nodes[..i] == def.nodes;
  }

  /** The error list, check by check; it is empty exactly for a publishable flow. */
  method ValidateFlowDefinition(def: Definition) returns (errors: seq<FlowError>)
    ensures exists cycle :: Reported(def, errors, cycle)
    ensures errors == [] <==> Publishable(def)
  {
    hide Next, Outgoing, Reach, OnCycle, Indexes, IndexesNodes, EmptySends, BranchErrors, Publishable, Triggers;
    errors := [];
    var nodesById := IndexNodes(def.nodes);
    var edgesBySource := IndexEdges(def.edges);
    var triggerNodes := Triggers(def.nodes);
    if |triggerNodes| != 1 {
      errors := errors + [FlowError(NoTrigger, None)];
    }
    var sendErrors := CheckSends(def.nodes);
    errors := errors + sendErrors;
    ghost var cycle := [];
    if |triggerNodes| == 1 {
      var triggerId := triggerNodes[0].id;
      var reachable := CollectReachable(triggerId, def.edges, edgesBySource);
      ListedAre(def.edges, edgesBySource, triggerId);
      if Listed(edgesBySource, triggerId) == [] {
        errors := errors + [FlowError(NoEntry, None)];
      }
      var cycleNodeId := FindCycleReachableFrom(triggerId, def.edges, edgesBySource);
      if cycleNodeId.Some? {
        cycle := [FlowError(CycleDetected, cycleNodeId)];
        errors := errors + [FlowError(CycleDetected, cycleNodeId)];
      }
      assert CycleReport(def, triggerId, cycle);
      var branchErrors := CheckBranches(def, nodesById, edgesBySource, triggerId, reachable);
      errors := errors + branchErrors;
    }
    assert Reported(def, errors, cycle);
    EmptyReportMeansPublishable(def, errors, cycle);
  }

  lemma ListedAre(edges: seq<Edge>, edgesBySource: map<string, seq<Edge>>, id: string)
    requires Indexes(edgesBySource, edges)
    ensures Listed(edgesBySource, id) == Outgoing(edges, id)
  {
    assert IndexesNode(edgesBySource, edges, id);
  }
}
