/** Runs of operations on the graph of block nodes, and the check that can abort one.

A run starts from nodes that are not connected and attaches, changes and detaches edges.
bdrv_child_try_set_perm may give an inner edge masks its owner's policy would not ask for, as
the mirror and commit jobs do; this is what a later detach can trip over. */
module BlockRuns {
  import opened BlockPerms
  import opened Wrappers

  datatype Op =
    | TrySetPerm(c: nat, m: Masks)
    | RootAttachChild(x: nat, e: Edge)
    | AttachChild(x: nat, parent: nat, child: nat, role: Role)
    | DetachChild(x: nat)

  /** What the callers of an operation see to; a detach whose check fails ends the run. */
  ghost predicate Allowed(g: Graph, op: Op) {
    Wf(g) &&
    match op
    case TrySetPerm(c, m) =>
      c in g.edges && g.edges[c].bs in g.nodes && WriteUnchanged in m.shared && Tree(g, g.edges[c].bs)
    case RootAttachChild(x, e) =>
      x !in g.edges && e.owner.User? && e.bs in g.nodes && WriteUnchanged in e.shared && Tree(g, e.bs)
    case AttachChild(x, parent, child, role) =>
      && x !in g.edges && parent in g.nodes && child in g.nodes && !g.nodes[parent].policy.Childless?
      && parent !in Reach(g, child) && Tree(g, child)
    case DetachChild(x) =>
      x in g.edges && g.edges[x].bs in g.nodes && Tree(g, g.edges[x].bs) && DetachCheck(g, x)
  }

  ghost function Apply(g: Graph, op: Op): Graph
    requires Allowed(g, op)
  {
    match op
    case TrySetPerm(c, m) => TrySet(g, c, m)
    case RootAttachChild(x, e) => RootAttachResult(g, x, e)
    case AttachChild(x, parent, child, role) => AttachResult(g, x, parent, child, role)
    case DetachChild(x) => Detached(g, x)
  }

  /** The inner edges whose masks were set by hand and that are still there. */
  ghost function HandSet(g: Graph, op: Op, pending: set<nat>): set<nat>
    requires Allowed(g, op)
  {
    match op
    case TrySetPerm(c, m) => Loosed(g, pending, c)
    case DetachChild(x) => pending - {x}
    case _ => pending
  }

  /** A state of a run: the graph, and its inner edges that were set by hand. */
  datatype State = State(graph: Graph, pending: set<nat>)

  ghost predicate IsStep(s: State, op: Op, s': State) {
    Allowed(s.graph, op) && s' == State(Apply(s.graph, op), HandSet(s.graph, op, s.pending))
  }

  ghost predicate Init(s: State) {
    Wf(s.graph) && s.graph.edges == map[] && s.pending == {}
  }

  ghost predicate Next(s: State, s': State) {
    exists op :: IsStep(s, op, s')
  }

  ghost predicate IsRun(run: seq<State>) {
    && 0 < |run| && Init(run[0])
    && forall i :: 0 < i < |run| ==> Next(run[i - 1], run[i])
  }

  lemma StepKeeps(g: Graph, op: Op, pending: set<nat>)
    requires Allowed(g, op) && GoodBut(g, pending)
    ensures GoodBut(Apply(g, op), HandSet(g, op, pending))
  {
    match op
    case TrySetPerm(c, m) =>
      TrySetKeeps(g, c, m, pending);
    case RootAttachChild(x, e) =>
      RootAttachResultKeeps(g, x, e, pending);
    case AttachChild(x, parent, child, role) =>
      AttachResultKeeps(g, x, parent, child, role, pending);
    case DetachChild(x) =>
      DetachKeeps(g, x, pending);
  }

  lemma NextKeeps(s: State, s': State)
    requires Next(s, s') && GoodBut(s.graph, s.pending)
    ensures GoodBut(s'.graph, s'.pending)
  {
    var op :| IsStep(s, op, s');
    StepKeeps(s.graph, op, s.pending);
  }

  lemma InitGood(s: State)
    requires Init(s)
    ensures GoodBut(s.graph, s.pending)
  {
    assert forall n :: n in s.graph.nodes ==> Writable(s.graph, n);
  }

  /** In every state of every run the parents of each node are compatible, nobody writes to a
      read-only node, and every inner edge that was not set by hand follows its policy. */
  lemma {:induction false} RunKeeps(run: seq<State>, i: nat)
    requires IsRun(run) && i < |run|
    ensures GoodBut(run[i].graph, run[i].pending)
  {
    if i == 0 {
      InitGood(run[0]);
    } else {
      RunKeeps(run, i - 1);
      NextKeeps(run[i - 1], run[i]);
    }
  }

  /** Some run leads to the state. */
  ghost predicate Reached(s: State) {
    exists run :: IsRun(run) && run[|run| - 1] == s
  }

  lemma ReachedInit(s: State)
    requires Init(s)
    ensures Reached(s)
  {
    assert IsRun([s]);
  }

  lemma RunExtends(run: seq<State>, s: State)
    requires IsRun(run) && Next(run[|run| - 1], s)
    ensures IsRun(run + [s])
  {
    var run' := run + [s];
    forall i | 0 < i < |run'|
      ensures Next(run'[i - 1], run'[i])
    {
      assert run'[i - 1] == run[i - 1] && (i < |run| ==> run'[i] == run[i]);
    }
  }

  lemma ReachedEnd(run: seq<State>, s: State)
    requires IsRun(run + [s])
    ensures Reached(s)
  {
    assert (run + [s])[|run|] == s;
  }

  lemma ReachedNext(s: State, op: Op, s': State)
    requires Reached(s) && IsStep(s, op, s')
    ensures Reached(s')
  {
    var run :| IsRun(run) && run[|run| - 1] == s;
    RunExtends(run, s');
    ReachedEnd(run, s');
  }

  lemma ReachedGood(s: State)
    requires Reached(s)
    ensures GoodBut(s.graph, s.pending)
  {
    var run :| IsRun(run) && run[|run| - 1] == s;
    RunKeeps(run, |run| - 1);
  }

  // ---------------------------------------------------------------- what the policies guarantee

  /** An active format driver has its file to itself: whoever else uses it neither writes nor
      resizes it, a writable driver can do both, and one that does I/O can read. */
  lemma FileIsOwned(s: State, x: nat, n: nat)
    requires Reached(s) && x in s.graph.edges && x !in s.pending
    requires s.graph.edges[x].owner == Parent(n) && s.graph.edges[x].role.File?
    requires n in s.graph.nodes && s.graph.nodes[n].policy.Format? && !s.graph.nodes[n].inactive
    requires s.graph.edges[x].bs in s.graph.nodes && !s.graph.nodes[s.graph.edges[x].bs].forceShare
    ensures var g := s.graph;
            && (g.nodes[n].writable ==> {Write, Resize} <= g.edges[x].perm)
            && (!g.nodes[n].noIo ==> ConsistentRead in g.edges[x].perm)
            && forall y :: Points(g, y, g.edges[x].bs) && y != x ==> {Write, Resize} !! g.edges[y].perm
  {
    var g := s.graph;
    ReachedGood(s);
    assert Settled(g, x);
    FormatFileMeaning(g.nodes[n], g.nodes[g.edges[x].bs], Some(g.edges[x]), Cumulative(g, n));
  }

  lemma TakenBySome(g: Graph, n: nat, p: Perm)
    ensures p in Perms(g, n, {}) <==> exists y :: Points(g, y, n) && p in g.edges[y].perm
  {
    InAll(p);
  }

  /** A backing file is only ever read through the driver on top of it, and that exactly if a
      parent of the driver reads. */
  lemma BackingIsOnlyRead(s: State, x: nat, n: nat)
    requires Reached(s) && x in s.graph.edges && x !in s.pending
    requires s.graph.edges[x].owner == Parent(n) && s.graph.edges[x].role.Backing?
    requires n in s.graph.nodes && s.graph.nodes[n].policy.Format?
    ensures var g := s.graph;
            && g.edges[x].perm <= {ConsistentRead}
            && (ConsistentRead in g.edges[x].perm <==> exists y :: Points(g, y, n) && ConsistentRead in g.edges[y].perm)
  {
    var g := s.graph;
    ReachedGood(s);
    assert Settled(g, x) && EdgeOk(g, g.edges[x]);
    FormatBackingMeaning(g.nodes[n], g.nodes[g.edges[x].bs], Some(g.edges[x]), Cumulative(g, n));
    TakenBySome(g, n, ConsistentRead);
  }

  /** Nobody writes or resizes a backing file below an active driver that has a parent, y, which
      does not go with others writing. */
  lemma BackingIsStable(s: State, x: nat, n: nat, y: nat)
    requires Reached(s) && x in s.graph.edges && x !in s.pending
    requires s.graph.edges[x].owner == Parent(n) && s.graph.edges[x].role.Backing?
    requires n in s.graph.nodes && s.graph.nodes[n].policy.Format? && !s.graph.nodes[n].inactive
    requires s.graph.edges[x].bs in s.graph.nodes && !s.graph.nodes[s.graph.edges[x].bs].forceShare
    requires Points(s.graph, y, n) && Write !in s.graph.edges[y].shared
    ensures forall z :: Points(s.graph, z, s.graph.edges[x].bs) ==> {Write, Resize} !! s.graph.edges[z].perm
  {
    var g := s.graph;
    ReachedGood(s);
    assert Settled(g, x);
    assert Write !in Cumulative(g, n).shared;
    FormatBackingMeaning(g.nodes[n], g.nodes[g.edges[x].bs], Some(g.edges[x]), Cumulative(g, n));
  }

  /** A filter takes of its child what its own parents take of it. */
  lemma FilterHandsOn(s: State, x: nat, n: nat, p: Perm)
    requires Reached(s) && x in s.graph.edges && x !in s.pending
    requires s.graph.edges[x].owner == Parent(n) && n in s.graph.nodes && s.graph.nodes[n].policy.Filter?
    requires p != GraphMod
    ensures p in s.graph.edges[x].perm <==> exists y :: Points(s.graph, y, n) && p in s.graph.edges[y].perm
  {
    var g := s.graph;
    ReachedGood(s);
    assert Settled(g, x) && EdgeOk(g, g.edges[x]);
    FilterMeaning(g.nodes[n], g.nodes[g.edges[x].bs], Some(g.edges[x]), g.edges[x].role, Cumulative(g, n), p);
    TakenBySome(g, n, p);
  }

  // ---------------------------------------------------------------- when a detach cannot fail

  lemma SettledTight(g: Graph, pending: set<nat>, region: set<nat>)
    requires GoodBut(g, pending)
    requires forall x :: x in pending && x in g.edges && g.edges[x].owner.Parent? ==> g.edges[x].owner.node !in region
    ensures TightIn(g, region)
  {
    forall x | x in g.edges && g.edges[x].owner.Parent? && g.edges[x].owner.node in region
      ensures Tight(g, x)
    {
      assert Settled(g, x);
    }
  }

  /** The check after a detach cannot fail unless an edge below the node was set by hand. */
  lemma DetachInRun(s: State, x: nat)
    requires Reached(s) && x in s.graph.edges && Wf(s.graph) && s.graph.edges[x].bs in s.graph.nodes
    requires forall y :: y in s.pending && y in s.graph.edges && s.graph.edges[y].owner.Parent? ==>
               s.graph.edges[y].owner.node !in Reach(s.graph, s.graph.edges[x].bs)
    ensures DetachCheck(s.graph, x)
  {
    ReachedGood(s);
    SettledTight(s.graph, s.pending, Reach(s.graph, s.graph.edges[x].bs));
    DetachCheckSucceeds(s.graph, x);
  }

  // ---------------------------------------------------------------- when a check fails

  /** A way down from node n, edge by edge. */
  ghost predicate IsPath(g: Graph, n: nat, path: seq<nat>)
    requires Wf(g) && n in g.nodes
    decreases |path|
  {
    path == [] || (path[0] in g.children[n] && (ListedEdge(g, n, path[0]); IsPath(g, g.edges[path[0]].bs, path[1..])))
  }

  lemma ListedEdge(g: Graph, n: nat, c: nat)
    requires Wf(g) && n in g.nodes && c in g.children[n]
    ensures c in g.edges && g.edges[c].owner == Parent(n) && g.edges[c].bs in g.nodes
    ensures g.rank[g.edges[c].bs] < g.rank[n] && !g.nodes[n].policy.Childless?
  {
    assert ListOk(g, n) && EdgeOk(g, g.edges[c]);
  }

  /** The node at the end of the path. */
  ghost function End(g: Graph, n: nat, path: seq<nat>): (k: nat)
    requires Wf(g) && n in g.nodes && IsPath(g, n, path)
    ensures k in g.nodes
    decreases |path|
  {
    if path == [] then n else ListedEdge(g, n, path[0]); End(g, g.edges[path[0]].bs, path[1..])
  }

  /** The sums of the node edge c points to, once that edge has masks w. */
  ghost function Summed(g: Graph, c: nat, w: Masks): Masks
    requires c in g.edges
  {
    Masks(w.perm + Perms(g, g.edges[c].bs, {c}), w.shared * Shared(g, g.edges[c].bs, {c}))
  }

  /** What the node at the end of the path has to do, if node n has to do m. */
  ghost function Asked(g: Graph, n: nat, m: Masks, path: seq<nat>): Masks
    requires Wf(g) && n in g.nodes && IsPath(g, n, path)
    decreases |path|
  {
    if path == [] then m
    else
      ListedEdge(g, n, path[0]);
      Asked(g, g.edges[path[0]].bs, Summed(g, path[0], Wanted(g, n, path[0], m)), path[1..])
  }

  /** Another parent of the node edge c points to does not go with masks w. */
  ghost predicate Conflict(g: Graph, c: nat, w: Masks)
    requires c in g.edges
  {
    exists y :: Points(g, y, g.edges[c].bs) && y != c && !Compatible(g.edges[y], w)
  }

  /** The path leads to a read-only node that is asked to write. */
  ghost predicate ReadOnlyAt(g: Graph, n: nat, m: Masks, path: seq<nat>)
    requires Wf(g) && n in g.nodes && IsPath(g, n, path)
  {
    !g.nodes[End(g, n, path)].writable && !(Asked(g, n, m, path).perm !! WRITES)
  }

  /** The path leads to a node whose edge c is asked for masks another parent does not go with. */
  ghost predicate ConflictAt(g: Graph, n: nat, m: Masks, path: seq<nat>, c: nat)
    requires Wf(g) && n in g.nodes && IsPath(g, n, path)
  {
    var k := End(g, n, path);
    c in g.children[k] && (ListedEdge(g, k, c); Conflict(g, c, Wanted(g, k, c, Asked(g, n, m, path))))
  }

  ghost predicate Blocked(g: Graph, n: nat, m: Masks, path: seq<nat>)
    requires Wf(g) && n in g.nodes
  {
    IsPath(g, n, path) && (ReadOnlyAt(g, n, m, path) || exists c :: ConflictAt(g, n, m, path, c))
  }

  /** The edges to ignore do not point below the node. */
  ghost predicate Above(g: Graph, ignore: set<nat>, n: nat)
    requires n in g.rank
  {
    forall x :: x in ignore && x in g.edges ==> g.edges[x].bs in g.rank && g.rank[n] <= g.rank[g.edges[x].bs]
  }

  ghost predicate ChildChecked(g: Graph, n: nat, c: nat, m: Masks, ignore: set<nat>)
    requires Wf(g) && n in g.nodes && c in g.children[n]
  {
    ListedEdge(g, n, c);
    CheckUpdate(g, g.edges[c].bs, Wanted(g, n, c, m), ignore + {c})
  }

  lemma {:induction false} EachChildChecked(g: Graph, n: nat, cs: seq<nat>, m: Masks, ignore: set<nat>)
    requires Wf(g) && n in g.nodes && EdgesIn(g, n, cs)
    ensures CheckChildren(g, n, cs, m, ignore) <==> forall c :: c in cs ==> ChildChecked(g, n, c, m, ignore)
    decreases |cs|
  {
    if cs != [] {
      ChildFacts(g, n, cs);
      EachChildChecked(g, n, cs[1..], m, ignore);
      assert cs[0] in cs;
      assert forall c :: c in cs <==> c == cs[0] || c in cs[1..];
      assert CheckChildren(g, n, cs, m, ignore) <==>
             ChildChecked(g, n, cs[0], m, ignore) && CheckChildren(g, n, cs[1..], m, ignore);
    }
  }

  /** The check of a child is that of its other parents and that of the node. */
  lemma ChildCheck(g: Graph, n: nat, c: nat, m: Masks, ignore: set<nat>)
    requires Wf(g) && n in g.nodes && c in g.children[n] && Above(g, ignore, n)
    requires c in g.edges && g.edges[c].bs in g.nodes
    ensures var k, w := g.edges[c].bs, Wanted(g, n, c, m);
            && Above(g, ignore + {c}, k)
            && (ChildChecked(g, n, c, m, ignore) <==>
                  !Conflict(g, c, w) && CheckNode(g, k, Summed(g, c, w), ignore + {c}))
  {
    var k, w := g.edges[c].bs, Wanted(g, n, c, m);
    ListedEdge(g, n, c);
    forall y
      ensures Points(g, y, k) && y !in ignore + {c} <==> Points(g, y, k) && y !in {c}
    {
    }
    assert Perms(g, k, ignore + {c}) == Perms(g, k, {c});
    assert Shared(g, k, ignore + {c}) == Shared(g, k, {c});
  }

  /** A path taken one step further up. */
  lemma BlockedAbove(g: Graph, n: nat, m: Masks, c: nat, path: seq<nat>)
    requires Wf(g) && n in g.nodes && c in g.children[n] && c in g.edges && g.edges[c].bs in g.nodes
    ensures Blocked(g, n, m, [c] + path) <==> Blocked(g, g.edges[c].bs, Summed(g, c, Wanted(g, n, c, m)), path)
  {
    var k, up := g.edges[c].bs, [c] + path;
    var s := Summed(g, c, Wanted(g, n, c, m));
    assert up[0] == c && up[1..] == path;
    if IsPath(g, k, path) {
      assert End(g, n, up) == End(g, k, path) && Asked(g, n, m, up) == Asked(g, k, s, path);
      assert forall d :: ConflictAt(g, n, m, up, d) <==> ConflictAt(g, k, s, path, d);
    }
  }

  lemma {:induction false} BlockedFails(g: Graph, n: nat, m: Masks, ignore: set<nat>, path: seq<nat>)
    requires Wf(g) && n in g.nodes && Above(g, ignore, n) && Blocked(g, n, m, path)
    ensures !CheckNode(g, n, m, ignore)
    decreases |path|
  {
    WholeList(g, n);
    EachChildChecked(g, n, g.children[n], m, ignore);
    if path == [] {
      if !ReadOnlyAt(g, n, m, path) {
        var c :| ConflictAt(g, n, m, path, c);
        ListedEdge(g, n, c);
        ChildCheck(g, n, c, m, ignore);
      }
    } else {
      var c := path[0];
      ListedEdge(g, n, c);
      ChildCheck(g, n, c, m, ignore);
      assert path == [c] + path[1..];
      BlockedAbove(g, n, m, c, path[1..]);
      BlockedFails(g, g.edges[c].bs, Summed(g, c, Wanted(g, n, c, m)), ignore + {c}, path[1..]);
    }
  }

  lemma {:induction false} FailsBlocked(g: Graph, n: nat, m: Masks, ignore: set<nat>) returns (path: seq<nat>)
    requires Wf(g) && n in g.nodes && Above(g, ignore, n) && !CheckNode(g, n, m, ignore)
    ensures Blocked(g, n, m, path)
    decreases g.rank[n]
  {
    path := [];
    if m.perm !! WRITES || g.nodes[n].writable {
      WholeList(g, n);
      EachChildChecked(g, n, g.children[n], m, ignore);
      var c :| c in g.children[n] && !ChildChecked(g, n, c, m, ignore);
      ListedEdge(g, n, c);
      ChildCheck(g, n, c, m, ignore);
      var w := Wanted(g, n, c, m);
      if Conflict(g, c, w) {
        assert ConflictAt(g, n, m, [], c);
      } else {
        var rest := FailsBlocked(g, g.edges[c].bs, Summed(g, c, w), ignore + {c});
        BlockedAbove(g, n, m, c, rest);
        path := [c] + rest;
      }
    } else {
      assert ReadOnlyAt(g, n, m, []);
    }
  }

  /** bdrv_check_perm fails exactly if there is a way down to a read-only node that is asked to
      write, or to an edge that is asked for masks another parent of its node does not go with. */
  lemma CheckFailsIff(g: Graph, n: nat, m: Masks, ignore: set<nat>)
    requires Wf(g) && n in g.nodes && Above(g, ignore, n)
    ensures !CheckNode(g, n, m, ignore) <==> exists path :: Blocked(g, n, m, path)
  {
    if !CheckNode(g, n, m, ignore) {
      var path := FailsBlocked(g, n, m, ignore);
    }
    if path :| Blocked(g, n, m, path) {
      BlockedFails(g, n, m, ignore, path);
    }
  }

  /** A detach aborts exactly if the graph without the edge has such a way down from the node
      that loses a parent. */
  lemma DetachAbortsIff(g: Graph, x: nat)
    requires Wf(g) && x in g.edges && g.edges[x].bs in g.nodes
    ensures (WithoutWf(g, x); var h, n := Without(g, x), g.edges[x].bs;
             !DetachCheck(g, x) <==> exists path :: Blocked(h, n, Cumulative(h, n), path))
  {
    WithoutWf(g, x);
    CheckFailsIff(Without(g, x), g.edges[x].bs, Cumulative(Without(g, x), g.edges[x].bs), {});
  }

  // ---------------------------------------------------------------- a detach that aborts

  const FILTER := Node(Filter, true, false, false, false)
  const LEAF := Node(Childless, true, false, false, false)

  /** A filter, node 0, over a file, node 1, both writable, with edges `cs` between them. */
  ghost function Pair(edges: map<nat, Edge>, cs: seq<nat>, rank: nat): Graph {
    Graph(map[0 := FILTER, 1 := LEAF], edges, map[0 := cs, 1 := []], map[0 := rank, 1 := 0])
  }

  ghost predicate PairOk(edges: map<nat, Edge>, cs: seq<nat>, rank: nat) {
    && Distinct(cs) && (cs != [] ==> rank > 0)
    && (forall x :: x in edges ==> edges[x].bs <= 1 && (edges[x].owner.User? || edges[x].owner == Parent(0)))
    && (forall x :: x in edges && edges[x].owner.Parent? ==> edges[x].bs == 1)
    && forall x :: x in cs <==> x in edges && edges[x].owner.Parent?
  }

  lemma PairWf(edges: map<nat, Edge>, cs: seq<nat>, rank: nat)
    requires PairOk(edges, cs, rank)
    ensures Wf(Pair(edges, cs, rank))
  {
    var g := Pair(edges, cs, rank);
    assert ListOk(g, 0) && ListOk(g, 1);
    forall x | x in g.edges
      ensures EdgeOk(g, g.edges[x])
    {
      assert x in cs ==> cs != [];
    }
  }

  /** A writable node without children can do with any masks, and nothing follows from them. */
  lemma NoChildren(g: Graph, n: nat, m: Masks, ignore: set<nat>)
    requires Wf(g) && n in g.nodes && g.nodes[n].writable && g.children[n] == []
    ensures CheckNode(g, n, m, ignore) && SetNode(g, n, m) == g
  {
    WholeList(g, n);
    assert CheckChildren(g, n, [], m, ignore) && SetChildren(g, n, [], m) == g;
  }

  lemma LeafSet(g: Graph, c: nat, m: Masks)
    requires Wf(g) && c in g.edges && g.edges[c].bs in g.nodes
    requires g.nodes[g.edges[c].bs].writable && g.children[g.edges[c].bs] == []
    ensures SetChild(g, c, m) == WithMasks(g, c, m)
    ensures CheckUpdate(g, g.edges[c].bs, m, {c}) <==> !Conflict(g, c, m)
  {
    var h, n := WithMasks(g, c, m), g.edges[c].bs;
    NoChildren(h, n, Cumulative(h, n), {});
    NoChildren(g, n, Summed(g, c, m), {c});
  }

  lemma LeafAttach(g: Graph, x: nat, e: Edge)
    requires Wf(g) && x !in g.edges && e.owner.User? && e.bs in g.nodes
    requires g.nodes[e.bs].writable && g.children[e.bs] == []
    ensures RootAttached(g, x, e) == WithEdge(g, x, e)
    ensures CheckUpdate(g, e.bs, Masks(e.perm, e.shared), {}) <==>
            forall y :: Points(g, y, e.bs) ==> Compatible(g.edges[y], Masks(e.perm, e.shared))
  {
    var h := WithEdge(g, x, e);
    WithEdgeWf(g, x, e);
    NoChildren(h, e.bs, Cumulative(h, e.bs), {});
    NoChildren(g, e.bs, Masks(e.perm + Perms(g, e.bs, {}), e.shared * Shared(g, e.bs, {})), {});
  }

  /** Attaching a user to a node without children. */
  lemma PairAttach(edges: map<nat, Edge>, cs: seq<nat>, rank: nat, x: nat, e: Edge)
    requires PairOk(edges, cs, rank) && x !in edges && e.owner.User? && e.bs <= 1 && WriteUnchanged in e.shared
    requires cs == [] || e.bs == 1
    requires forall y :: y in edges && edges[y].bs == e.bs ==> Compatible(edges[y], Masks(e.perm, e.shared))
    ensures Allowed(Pair(edges, cs, rank), RootAttachChild(x, e))
    ensures Apply(Pair(edges, cs, rank), RootAttachChild(x, e)) == Pair(edges[x := e], cs, rank)
  {
    PairWf(edges, cs, rank);
    LeafAttach(Pair(edges, cs, rank), x, e);
  }

  lemma ReachAttach(edges: map<nat, Edge>, cs: seq<nat>, rank: nat, pending: set<nat>, x: nat, e: Edge)
    requires PairOk(edges, cs, rank) && x !in edges && e.owner.User? && e.bs <= 1 && WriteUnchanged in e.shared
    requires cs == [] || e.bs == 1
    requires forall y :: y in edges && edges[y].bs == e.bs ==> Compatible(edges[y], Masks(e.perm, e.shared))
    requires Reached(State(Pair(edges, cs, rank), pending))
    ensures Reached(State(Pair(edges[x := e], cs, rank), pending))
  {
    PairAttach(edges, cs, rank, x, e);
    ReachedNext(State(Pair(edges, cs, rank), pending), RootAttachChild(x, e),
                State(Pair(edges[x := e], cs, rank), pending));
  }

  /** What a filter asks of its file, if its parents take `perm` and share all. */
  lemma FilterAsks(c: Option<Edge>, perm: set<Perm>)
    requires perm <= PASSTHROUGH && (c.Some? ==> GraphMod !in c.value.perm && c.value.shared == ALL)
    ensures ChildPerms(FILTER, LEAF, c, File, Masks(perm, ALL)) == Masks(perm, ALL)
  {
    var r := ChildPerms(FILTER, LEAF, c, File, Masks(perm, ALL));
    forall p: Perm
      ensures (p in r.perm <==> p in perm) && p in r.shared
    {
      InAll(p);
      FilterMeaning(FILTER, LEAF, c, File, Masks(perm, ALL), p);
    }
    assert r.perm == perm && r.shared == ALL;
  }

  lemma FilterRanks(edges: map<nat, Edge>, cs: seq<nat>, rank: nat)
    requires Wf(Pair(edges, cs, rank))
    ensures RaisedRank(Pair(edges, cs, rank), 0, 1) == map[0 := rank + 1, 1 := 0]
    ensures 0 !in Reach(Pair(edges, cs, rank), 1)
  {
    var g := Pair(edges, cs, rank);
    assert Reach(g, 1) == {1};
    assert 0 in Reach(g, 0);
  }

  /** Attaching the file to the filter, whose parents take `perm` and share all. */
  lemma PairAdopt(edges: map<nat, Edge>, cs: seq<nat>, rank: nat, x: nat, perm: set<Perm>)
    requires PairOk(edges, cs, rank) && x !in edges && perm <= PASSTHROUGH
    requires Cumulative(Pair(edges, cs, rank), 0) == Masks(perm, ALL)
    requires forall y :: y in edges && edges[y].bs == 1 ==> Compatible(edges[y], Masks(perm, ALL))
    ensures Allowed(Pair(edges, cs, rank), AttachChild(x, 0, 1, File))
    ensures Apply(Pair(edges, cs, rank), AttachChild(x, 0, 1, File)) ==
            Pair(edges[x := Edge(Parent(0), File, 1, perm, ALL)], [x] + cs, rank + 1)
  {
    var g, e := Pair(edges, cs, rank), Edge(User, File, 1, perm, ALL);
    PairWf(edges, cs, rank);
    FilterAsks(None, perm);
    assert AttachMasks(g, 0, 1, File) == Masks(perm, ALL);
    LeafAttach(g, x, e);
    FilterRanks(edges, cs, rank);
    PairAdopted(edges, cs, rank, x, e);
  }

  lemma PairAdopted(edges: map<nat, Edge>, cs: seq<nat>, rank: nat, x: nat, e: Edge)
    requires PairOk(edges, cs, rank) && x !in edges && e.owner.User? && e.bs == 1
    requires Wf(Pair(edges, cs, rank)) && RootAttached(Pair(edges, cs, rank), x, e) == Pair(edges[x := e], cs, rank)
    ensures AttachedTo(Pair(edges, cs, rank), x, 0, e) ==
            Pair(edges[x := e.(owner := Parent(0))], [x] + cs, rank + 1)
  {
    PairWf(edges[x := e], cs, rank);
    PairOrdered(edges[x := e], cs, rank);
    PairListed(edges, cs, rank + 1, x, e);
  }

  lemma PairOrdered(edges: map<nat, Edge>, cs: seq<nat>, rank: nat)
    requires Wf(Pair(edges, cs, rank))
    ensures Ordered(Pair(edges, cs, rank), 0, 1) == Pair(edges, cs, rank + 1)
  {
    FilterRanks(edges, cs, rank);
  }

  lemma PairListed(edges: map<nat, Edge>, cs: seq<nat>, rank: nat, x: nat, e: Edge)
    ensures Adopted(Pair(edges[x := e], cs, rank), x, 0) == Pair(edges[x := e.(owner := Parent(0))], [x] + cs, rank)
  {
    assert edges[x := e][x := e.(owner := Parent(0))] == edges[x := e.(owner := Parent(0))];
    assert map[0 := cs, 1 := []][0 := [x] + cs] == map[0 := [x] + cs, 1 := []];
  }

  lemma ReachAdopt(edges: map<nat, Edge>, cs: seq<nat>, rank: nat, x: nat, perm: set<Perm>,
                   edges': map<nat, Edge>, cs': seq<nat>, rank': nat)
    requires PairOk(edges, cs, rank) && x !in edges && perm <= PASSTHROUGH
    requires Cumulative(Pair(edges, cs, rank), 0) == Masks(perm, ALL)
    requires forall y :: y in edges && edges[y].bs == 1 ==> Compatible(edges[y], Masks(perm, ALL))
    requires Reached(State(Pair(edges, cs, rank), {}))
    requires edges' == edges[x := Edge(Parent(0), File, 1, perm, ALL)] && cs' == [x] + cs && rank' == rank + 1
    ensures Reached(State(Pair(edges', cs', rank'), {}))
  {
    PairAdopt(edges, cs, rank, x, perm);
    ReachedNext(State(Pair(edges, cs, rank), {}), AttachChild(x, 0, 1, File), State(Pair(edges', cs', rank'), {}));
  }

  /** One user of the filter writes, another only holds it. */
  const WRITER := Edge(User, File, 0, {Write}, ALL)
  const HOLDER := Edge(User, File, 0, {}, ALL)

  /** The edge of the filter, as its policy asks and as it is set by hand. */
  const FOLLOWS := Edge(Parent(0), File, 1, {Write}, ALL)
  const UNUSED := Edge(Parent(0), File, 1, {}, ALL)

  /** Another user of the file, who forbids writing. */
  const FORBIDS := Edge(User, File, 1, {}, ALL - {Write})

  lemma Bare()
    ensures Reached(State(Pair(map[], [], 0), {}))
  {
    PairWf(map[], [], 0);
    ReachedInit(State(Pair(map[], [], 0), {}));
  }

  lemma UsersReached()
    ensures Reached(State(Pair(map[0 := WRITER, 1 := HOLDER], [], 0), {}))
  {
    Bare();
    ReachAttach(map[], [], 0, {}, 0, WRITER);
    assert map[][0 := WRITER] == map[0 := WRITER];
    InAll(Write);
    ReachAttach(map[0 := WRITER], [], 0, {}, 1, HOLDER);
    assert map[0 := WRITER][1 := HOLDER] == map[0 := WRITER, 1 := HOLDER];
  }

  lemma UsersSum(cs: seq<nat>, rank: nat)
    ensures Cumulative(Pair(map[0 := WRITER, 1 := HOLDER], cs, rank), 0) == Masks({Write}, ALL)
  {
    var g := Pair(map[0 := WRITER, 1 := HOLDER], cs, rank);
    InAll(Write);
    assert Points(g, 0, 0) && Points(g, 1, 0);
    assert forall x :: Points(g, x, 0) ==> x == 0 || x == 1;
    assert Perms(g, 0, {}) == {Write};
    assert Shared(g, 0, {}) == ALL;
  }

  /** The filter with its file: everything follows the policies. */
  lemma SettlingReached()
    ensures Reached(State(Pair(map[0 := WRITER, 1 := HOLDER, 2 := FOLLOWS], [2], 1), {}))
  {
    UsersReached();
    UsersSum([], 0);
    ReachAdopt(map[0 := WRITER, 1 := HOLDER], [], 0, 2, {Write},
               map[0 := WRITER, 1 := HOLDER, 2 := FOLLOWS], [2], 1);
  }

  /** Setting the edge of the filter, if it is the only one to the file. */
  lemma StageSet(edges: map<nat, Edge>, m: Masks)
    requires PairOk(edges, [2], 1) && 2 in edges && WriteUnchanged in m.shared
    requires forall y :: y in edges && edges[y].bs == 1 ==> y == 2
    ensures Allowed(Pair(edges, [2], 1), TrySetPerm(2, m))
    ensures Apply(Pair(edges, [2], 1), TrySetPerm(2, m)) ==
            Pair(edges[2 := edges[2].(perm := m.perm, shared := m.shared)], [2], 1)
  {
    PairWf(edges, [2], 1);
    LeafSet(Pair(edges, [2], 1), 2, m);
  }

  lemma ReachSet(edges: map<nat, Edge>, m: Masks, pending: set<nat>)
    requires PairOk(edges, [2], 1) && 2 in edges && WriteUnchanged in m.shared
    requires forall y :: y in edges && edges[y].bs == 1 ==> y == 2
    requires edges[2].owner.Parent? && Reached(State(Pair(edges, [2], 1), pending))
    ensures Reached(State(Pair(edges[2 := edges[2].(perm := m.perm, shared := m.shared)], [2], 1), pending + {2}))
  {
    StageSet(edges, m);
    ReachedNext(State(Pair(edges, [2], 1), pending), TrySetPerm(2, m),
                State(Pair(edges[2 := edges[2].(perm := m.perm, shared := m.shared)], [2], 1), pending + {2}));
  }

  /** The edge of the filter is set by hand to take nothing. */
  lemma LooseningReached()
    ensures Reached(State(Pair(map[0 := WRITER, 1 := HOLDER, 2 := UNUSED], [2], 1), {2}))
  {
    var edges := map[0 := WRITER, 1 := HOLDER, 2 := FOLLOWS];
    SettlingReached();
    ReachSet(edges, Masks({}, ALL), {});
    assert edges[2 := UNUSED] == map[0 := WRITER, 1 := HOLDER, 2 := UNUSED];
    assert {} + {2} == {2};
  }

  ghost function Loosened(): Graph {
    Pair(map[0 := WRITER, 1 := HOLDER, 2 := UNUSED, 3 := FORBIDS], [2], 1)
  }

  /** Then the other user can come to the file: a run leads here. */
  lemma LoosenedIsReached()
    ensures Reached(State(Loosened(), {2}))
  {
    var edges := map[0 := WRITER, 1 := HOLDER, 2 := UNUSED];
    LooseningReached();
    ReachAttach(edges, [2], 1, {2}, 3, FORBIDS);
    assert edges[3 := FORBIDS] == map[0 := WRITER, 1 := HOLDER, 2 := UNUSED, 3 := FORBIDS];
  }

  /** A filter with a parent that writes is blocked by a user of the node below it that does
      not share writing. */
  lemma FilterBlocked(g: Graph, n: nat, c: nat, x: nat, y: nat)
    requires Wf(g) && n in g.nodes && g.nodes[n].policy.Filter? && c in g.children[n]
    requires c in g.edges && g.edges[c].bs in g.nodes
    requires Points(g, x, n) && Write in g.edges[x].perm
    requires Points(g, y, g.edges[c].bs) && y != c && Write !in g.edges[y].shared
    ensures Blocked(g, n, Cumulative(g, n), [])
  {
    InAll(Write);
    assert Write in Perms(g, n, {});
    assert Write in Wanted(g, n, c, Cumulative(g, n)).perm;
    assert ConflictAt(g, n, Cumulative(g, n), [], c);
  }

  /** A run that ends in an abort: the second user of the filter cannot be detached, since the
      edge of the filter would be asked to write again. */
  lemma LoosenedEdgeBreaksDetach()
    ensures Reached(State(Loosened(), {2})) && Wf(Loosened()) && !DetachCheck(Loosened(), 1)
  {
    LoosenedIsReached();
    ReachedGood(State(Loosened(), {2}));
    LoosenedBlocked();
  }

  lemma LoosenedBlocked()
    requires Wf(Loosened())
    ensures !DetachCheck(Loosened(), 1)
  {
    WithoutWf(Loosened(), 1);
    WithoutHolder();
    FilterBlocked(Pair(map[0 := WRITER, 2 := UNUSED, 3 := FORBIDS], [2], 1), 0, 2, 0, 3);
    DetachAbortsIff(Loosened(), 1);
  }

  lemma WithoutHolder()
    ensures Without(Loosened(), 1) == Pair(map[0 := WRITER, 2 := UNUSED, 3 := FORBIDS], [2], 1)
  {
    assert Loosened().edges - {1} == map[0 := WRITER, 2 := UNUSED, 3 := FORBIDS];
  }

  // ---------------------------------------------------------------- a node that is reached twice

  /** What an edge of a filter to a file is asked for if a user writes and does not share it. */
  const EXCLUSIVE := Masks({Write}, ALL - {Write})

  /** A filter that uses a file twice. */
  ghost function Twice(edges: map<nat, Edge>): Graph {
    Pair(edges, [2, 3], 2)
  }

  ghost predicate TwiceOk(edges: map<nat, Edge>) {
    && edges.Keys == {0, 2, 3} && edges[0].owner.User? && edges[0].bs == 0
    && (forall x :: x in {2, 3} ==> edges[x].owner == Parent(0) && edges[x].bs == 1)
  }

  lemma TwiceWf(edges: map<nat, Edge>)
    requires TwiceOk(edges)
    ensures Wf(Twice(edges))
  {
    PairWf(edges, [2, 3], 2);
  }

  lemma UnusedWanted(g: Graph, c: nat)
    requires 0 in g.nodes && 1 in g.nodes && g.nodes[0] == FILTER && g.nodes[1] == LEAF
    requires c in g.edges && g.edges[c] == UNUSED
    ensures Wanted(g, 0, c, EXCLUSIVE) == EXCLUSIVE
  {
    var w := Wanted(g, 0, c, EXCLUSIVE);
    assert w.perm == {Write};
    assert w.shared == ALL - {Write};
  }

  lemma TwiceSums(edges: map<nat, Edge>)
    requires TwiceOk(edges)
    ensures Perms(Twice(edges), 0, {0}) == {} && Shared(Twice(edges), 0, {0}) == ALL
  {
    var g := Twice(edges);
    assert forall x :: Points(g, x, 0) ==> x == 0;
  }

  /** Each of the two edges is checked against the old masks of the other. */
  lemma TwiceChild(edges: map<nat, Edge>, c: nat)
    requires TwiceOk(edges) && edges[2] == UNUSED && edges[3] == UNUSED && c in {2, 3}
    ensures Wf(Twice(edges)) && ChildChecked(Twice(edges), 0, c, EXCLUSIVE, {0})
  {
    var g := Twice(edges);
    TwiceWf(edges);
    UnusedWanted(g, c);
    ChildCheck(g, 0, c, EXCLUSIVE, {0});
    InAll(Write);
    assert forall y :: Points(g, y, 1) && y != c ==> Compatible(g.edges[y], EXCLUSIVE);
  }

  lemma TwiceChecks(edges: map<nat, Edge>)
    requires TwiceOk(edges) && edges[2] == UNUSED && edges[3] == UNUSED
    ensures Wf(Twice(edges)) && CheckUpdate(Twice(edges), 0, EXCLUSIVE, {0})
  {
    var g := Twice(edges);
    TwiceWf(edges);
    TwiceSums(edges);
    TwiceChild(edges, 2);
    TwiceChild(edges, 3);
    WholeList(g, 0);
    EachChildChecked(g, 0, [2, 3], EXCLUSIVE, {0});
    assert EXCLUSIVE.perm + {} == EXCLUSIVE.perm && EXCLUSIVE.shared * ALL == EXCLUSIVE.shared;
  }

  lemma SetLast(h: Graph, n: nat, d: nat, m: Masks)
    requires Wf(h) && n in h.nodes && EdgesIn(h, n, [d]) && d in h.edges && h.edges[d].bs in h.nodes
    ensures SetChildren(h, n, [d], m) == SetChild(h, d, Wanted(h, n, d, m))
  {
    ChildFacts(h, n, [d]);
    assert [d][1..] == [];
    var r := SetChild(h, d, Wanted(h, n, d, m));
    assert SetChildren(r, n, [], m) == r;
  }

  lemma SetFirst(h: Graph, n: nat, c: nat, d: nat, m: Masks)
    requires Wf(h) && n in h.nodes && EdgesIn(h, n, [c, d]) && c in h.edges && h.edges[c].bs in h.nodes
    ensures var h1 := SetChild(h, c, Wanted(h, n, c, m));
            EdgesIn(h1, n, [d]) && SetChildren(h, n, [c, d], m) == SetChildren(h1, n, [d], m)
  {
    ChildFacts(h, n, [c, d]);
    assert [c, d][1..] == [d];
  }

  /** Setting the only two edges of a node, one after the other. */
  lemma SetTwo(h: Graph, n: nat, c: nat, d: nat, m: Masks)
    requires Wf(h) && n in h.nodes && h.children[n] == [c, d] && !h.nodes[n].policy.Childless?
    requires c in h.edges && d in h.edges && h.edges[c].bs in h.nodes && h.edges[d].bs in h.nodes
    ensures var h1 := SetChild(h, c, Wanted(h, n, c, m));
            SetNode(h, n, m) == SetChild(h1, d, Wanted(h1, n, d, m))
  {
    WholeList(h, n);
    SetFirst(h, n, c, d, m);
    SetLast(SetChild(h, c, Wanted(h, n, c, m)), n, d, m);
  }

  lemma TwoSet(h: Graph)
    requires Wf(h) && 0 in h.nodes && 1 in h.nodes && h.nodes[0] == FILTER && h.nodes[1] == LEAF
    requires h.children[0] == [2, 3]
    requires 2 in h.edges && 3 in h.edges && h.edges[2] == UNUSED && h.edges[3] == UNUSED
    ensures SetNode(h, 0, EXCLUSIVE) == WithMasks(WithMasks(h, 2, EXCLUSIVE), 3, EXCLUSIVE)
  {
    UnusedWanted(h, 2);
    LeafSet(h, 2, EXCLUSIVE);
    var h1 := WithMasks(h, 2, EXCLUSIVE);
    UnusedWanted(h1, 3);
    LeafSet(h1, 3, EXCLUSIVE);
    SetTwo(h, 0, 2, 3, EXCLUSIVE);
  }

  lemma HolderSum(edges: map<nat, Edge>, cs: seq<nat>, rank: nat)
    requires 0 in edges && edges[0] == HOLDER && forall x :: x in edges && edges[x].bs == 0 ==> x == 0
    ensures Cumulative(Pair(edges, cs, rank), 0) == NOTHING
  {
    var g := Pair(edges, cs, rank);
    assert Points(g, 0, 0);
    assert forall x :: Points(g, x, 0) ==> x == 0;
    assert Perms(g, 0, {}) == {};
    assert Shared(g, 0, {}) == ALL;
  }

  const UNSHARED := map[0 := HOLDER, 2 := UNUSED, 3 := UNUSED]

  lemma OnceReached()
    ensures Reached(State(Pair(map[0 := HOLDER, 3 := UNUSED], [3], 1), {}))
  {
    Bare();
    ReachAttach(map[], [], 0, {}, 0, HOLDER);
    assert map[][0 := HOLDER] == map[0 := HOLDER];
    HolderSum(map[0 := HOLDER], [], 0);
    ReachAdopt(map[0 := HOLDER], [], 0, 3, {}, map[0 := HOLDER, 3 := UNUSED], [3], 1);
  }

  lemma TwiceReached()
    ensures Reached(State(Twice(UNSHARED), {}))
  {
    var edges := map[0 := HOLDER, 3 := UNUSED];
    OnceReached();
    HolderSum(edges, [3], 1);
    ReachAdopt(edges, [3], 1, 2, {}, UNSHARED, [2, 3], 2);
  }

  /** That the nodes below are reached by one way only is needed: a run leads to a filter that
      uses a file twice.  All is well there, the check for an exclusive writer passes, and the
      change leaves two edges that exclude each other. */
  lemma SharedNodeBreaksSet()
    ensures Reached(State(Twice(UNSHARED), {})) && Good(Twice(UNSHARED))
    ensures CheckUpdate(Twice(UNSHARED), 0, EXCLUSIVE, {0})
    ensures !AllCompatible(TrySet(Twice(UNSHARED), 0, EXCLUSIVE))
  {
    TwiceReached();
    ReachedGood(State(Twice(UNSHARED), {}));
    TwiceChecks(UNSHARED);
    TwiceBreaks(UNSHARED);
  }

  lemma TwiceBreaks(edges: map<nat, Edge>)
    requires TwiceOk(edges) && edges[2] == UNUSED && edges[3] == UNUSED
    requires Wf(Twice(edges)) && CheckUpdate(Twice(edges), 0, EXCLUSIVE, {0})
    ensures !AllCompatible(TrySet(Twice(edges), 0, EXCLUSIVE))
  {
    var g := Twice(edges);
    TwiceSums(edges);
    SumsWithMasks(g, 0, EXCLUSIVE, {0});
    var h := WithMasks(g, 0, EXCLUSIVE);
    assert EXCLUSIVE.perm + {} == EXCLUSIVE.perm && EXCLUSIVE.shared * ALL == EXCLUSIVE.shared;
    TwoSet(h);
    var r := TrySet(g, 0, EXCLUSIVE);
    assert r.edges[2].perm == {Write} && Write !in r.edges[3].shared;
  }
}
