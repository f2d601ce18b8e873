/** Permissions in the graph of block nodes, block.c.

An edge (a BdrvChild) takes a set of permissions on the node it points to and shares another
set with the other parents of that node.  Changing an edge changes what its node needs from
its own children, so a change is first checked and then applied along the graph.  Open flags
are fixed, and drivers use one of the two default policies. */
module BlockPerms {
  import opened Wrappers

  datatype Perm = ConsistentRead | Write | WriteUnchanged | Resize | GraphMod

  const ALL: set<Perm> := {ConsistentRead, Write, WriteUnchanged, Resize, GraphMod}
  const PASSTHROUGH: set<Perm> := {ConsistentRead, Write, WriteUnchanged, Resize}
  const UNCHANGED: set<Perm> := {GraphMod}
  const WRITES: set<Perm> := {Write, WriteUnchanged}

  lemma InAll(p: Perm)
    ensures p in ALL
  {
    match p
    case ConsistentRead =>
    case Write =>
    case WriteUnchanged =>
    case Resize =>
    case GraphMod =>
  }

  /** bdrv_filter_default_perms, bdrv_format_default_perms, or a driver without children. */
  datatype Policy = Filter | Format | Childless

  /** A BlockDriverState: its policy, bdrv_is_writable, BDRV_O_NO_IO, BDRV_O_INACTIVE and
      force_share. */
  datatype Node = Node(policy: Policy, writable: bool, noIo: bool, inactive: bool, forceShare: bool)

  datatype Role = File | Backing

  datatype Owner = User | Parent(node: nat)

  /** A BdrvChild. */
  datatype Edge = Edge(owner: Owner, role: Role, bs: nat, perm: set<Perm>, shared: set<Perm>)

  /** `children` are the lists bs->children; the parents of a node are the edges that point to
      it.  `rank` orders the nodes: the graph has no cycle. */
  datatype Graph = Graph(
    nodes: map<nat, Node>,
    edges: map<nat, Edge>,
    children: map<nat, seq<nat>>,
    rank: map<nat, nat>)

  /** What an edge takes and shares. */
  datatype Masks = Masks(perm: set<Perm>, shared: set<Perm>)

  ghost predicate EdgeOk(g: Graph, e: Edge) {
    && e.bs in g.nodes && e.bs in g.rank
    && (e.owner.Parent? ==> e.owner.node in g.nodes && e.owner.node in g.rank && g.rank[e.bs] < g.rank[e.owner.node])
  }

  ghost predicate Distinct(s: seq<nat>) {
    forall i, j :: 0 <= i < j < |s| ==> s[i] != s[j]
  }

  ghost function Elements(s: seq<nat>): set<nat> {
    set x | x in s
  }

  ghost predicate ListOk(g: Graph, n: nat)
    requires n in g.nodes && n in g.children
  {
    && Distinct(g.children[n])
    && (forall x :: x in g.children[n] <==> x in g.edges && g.edges[x].owner == Parent(n))
    && (g.nodes[n].policy.Childless? ==> g.children[n] == [])
  }

  ghost predicate Wf(g: Graph) {
    && g.nodes.Keys == g.children.Keys == g.rank.Keys
    && (forall x :: x in g.edges ==> EdgeOk(g, g.edges[x]))
    && forall n :: n in g.nodes ==> ListOk(g, n)
  }

  /** The graphs differ only in the masks of their edges. */
  ghost predicate SameShape(g: Graph, h: Graph) {
    && g.nodes == h.nodes && g.children == h.children && g.rank == h.rank && g.edges.Keys == h.edges.Keys
    && forall x :: x in g.edges ==>
         h.edges[x].owner == g.edges[x].owner && h.edges[x].role == g.edges[x].role && h.edges[x].bs == g.edges[x].bs
  }

  /** The graphs agree on nodes, lists and the ends of the edges they both have. */
  ghost predicate SameFrame(g: Graph, h: Graph) {
    && g.nodes == h.nodes && g.children == h.children
    && forall x :: x in g.edges && x in h.edges ==>
         h.edges[x].owner == g.edges[x].owner && h.edges[x].role == g.edges[x].role && h.edges[x].bs == g.edges[x].bs
  }

  lemma SameShapeWf(g: Graph, h: Graph)
    requires Wf(g) && SameShape(g, h)
    ensures Wf(h)
  {
    forall n | n in h.nodes
      ensures ListOk(h, n)
    {
      assert ListOk(g, n);
    }
    forall x | x in h.edges
      ensures EdgeOk(h, h.edges[x])
    {
      assert EdgeOk(g, g.edges[x]);
    }
  }

  // ---------------------------------------------------------------- policies

  function FilterPerms(c: Option<Edge>, m: Masks): Masks {
    match c
    case None => Masks(m.perm * PASSTHROUGH, m.shared * PASSTHROUGH + UNCHANGED)
    case Some(e) =>
      Masks(m.perm * PASSTHROUGH + e.perm * UNCHANGED, m.shared * PASSTHROUGH + e.shared * UNCHANGED)
  }

  function FormatPerms(n: Node, c: Option<Edge>, role: Role, m: Masks): Masks {
    var r :=
      if role.File? then
        var f := FilterPerms(c, m);
        Masks(f.perm + (if n.writable then {Write, Resize} else {}) + (if n.noIo then {} else {ConsistentRead}),
              f.shared - {Write, Resize})
      else
        Masks(m.perm * {ConsistentRead},
              (if Write in m.shared then {Write, Resize} else {}) + {ConsistentRead, GraphMod, WriteUnchanged});
    if n.inactive then Masks(r.perm, r.shared + {Write, Resize}) else r
  }

  /** bdrv_child_perm. */
  function ChildPerms(n: Node, child: Node, c: Option<Edge>, role: Role, m: Masks): Masks {
    var r := if n.policy.Format? then FormatPerms(n, c, role, m) else FilterPerms(c, m);
    if child.forceShare then Masks(r.perm, ALL) else r
  }

  /** A filter hands its parents' demands on and keeps what its edge says about changing the
      graph; a new edge starts with nothing of the latter taken and all of it shared. */
  lemma FilterMeaning(n: Node, child: Node, c: Option<Edge>, role: Role, m: Masks, p: Perm)
    requires n.policy.Filter?
    ensures var r := ChildPerms(n, child, c, role, m);
            if p == GraphMod then
              && (p in r.perm <==> c.Some? && p in c.value.perm)
              && (p in r.shared <==> child.forceShare || c.None? || p in c.value.shared)
            else
              && (p in r.perm <==> p in m.perm)
              && (p in r.shared <==> child.forceShare || p in m.shared)
  {
    InAll(p);
  }

  /** A format driver may always write and resize its file if it is writable, reads it unless
      there is no I/O, and lets nobody else write or resize it unless it is inactive. */
  lemma FormatFileMeaning(n: Node, child: Node, c: Option<Edge>, m: Masks)
    requires n.policy.Format?
    ensures var r := ChildPerms(n, child, c, File, m);
            && (Write in r.perm <==> n.writable || Write in m.perm)
            && (Resize in r.perm <==> n.writable || Resize in m.perm)
            && (ConsistentRead in r.perm <==> !n.noIo || ConsistentRead in m.perm)
            && (Write in r.shared <==> child.forceShare || n.inactive)
            && (Resize in r.shared <==> child.forceShare || n.inactive)
  {
  }

  /** It only ever reads a backing file, if its own parents need that, and others may write
      the backing file if those parents can deal with it. */
  lemma FormatBackingMeaning(n: Node, child: Node, c: Option<Edge>, m: Masks)
    requires n.policy.Format?
    ensures var r := ChildPerms(n, child, c, Backing, m);
            && r.perm <= {ConsistentRead} && (ConsistentRead in r.perm <==> ConsistentRead in m.perm)
            && (Write in r.shared <==> child.forceShare || n.inactive || Write in m.shared)
            && (Resize in r.shared <==> child.forceShare || n.inactive || Write in m.shared)
  {
  }

  ghost predicate Looser(a: Masks, b: Masks) {
    a.perm <= b.perm && b.shared <= a.shared
  }

  /** Needing less and sharing more, a node needs less from its children and shares more. */
  lemma ChildPermsMonotone(n: Node, child: Node, c: Option<Edge>, role: Role, a: Masks, b: Masks)
    requires Looser(a, b)
    ensures Looser(ChildPerms(n, child, c, role, a), ChildPerms(n, child, c, role, b))
  {
  }

  lemma ChildPermsShareUnchanged(n: Node, child: Node, c: Option<Edge>, role: Role, m: Masks)
    requires WriteUnchanged in m.shared
    ensures WriteUnchanged in ChildPerms(n, child, c, role, m).shared
  {
  }

  /** Applying the policy again, to an edge that has its result, changes nothing. */
  lemma ChildPermsStable(n: Node, child: Node, c: Option<Edge>, e: Edge, role: Role, m: Masks)
    requires var r := ChildPerms(n, child, c, role, m); e.perm == r.perm && e.shared == r.shared
    ensures ChildPerms(n, child, Some(e), role, m) == ChildPerms(n, child, c, role, m)
  {
  }

  // ---------------------------------------------------------------- cumulative permissions

  ghost predicate Points(g: Graph, x: nat, n: nat) {
    x in g.edges && g.edges[x].bs == n
  }

  /** What the parents of a node take together, but for those in `ignore`. */
  ghost function Perms(g: Graph, n: nat, ignore: set<nat>): set<Perm> {
    set p | p in ALL && exists x :: Points(g, x, n) && x !in ignore && p in g.edges[x].perm
  }

  /** What all of them share. */
  ghost function Shared(g: Graph, n: nat, ignore: set<nat>): set<Perm> {
    set p | p in ALL && forall x :: Points(g, x, n) && x !in ignore ==> p in g.edges[x].shared
  }

  ghost function Cumulative(g: Graph, n: nat): Masks {
    Masks(Perms(g, n, {}), Shared(g, n, {}))
  }

  /** What no parents at all take and share. */
  const NOTHING := Masks({}, ALL)

  lemma NothingElse(g: Graph, n: nat)
    ensures Cumulative(g, n) == Masks(NOTHING.perm + Perms(g, n, {}), NOTHING.shared * Shared(g, n, {}))
  {
    assert NOTHING.perm + Perms(g, n, {}) == Perms(g, n, {});
    assert NOTHING.shared * Shared(g, n, {}) == Shared(g, n, {});
  }

  ghost predicate EdgesIn(g: Graph, n: nat, cs: seq<nat>)
    requires Wf(g) && n in g.nodes
  {
    Distinct(cs) && forall x :: x in cs ==> x in g.children[n]
  }

  lemma ChildFacts(g: Graph, n: nat, cs: seq<nat>)
    requires Wf(g) && n in g.nodes && EdgesIn(g, n, cs) && cs != []
    ensures var c := cs[0];
            && c in g.edges && g.edges[c].owner == Parent(n) && g.edges[c].bs in g.nodes
            && g.rank[g.edges[c].bs] < g.rank[n]
    ensures EdgesIn(g, n, cs[1..])
  {
    var c := cs[0];
    assert c in g.children[n];
    assert ListOk(g, n);
    assert EdgeOk(g, g.edges[c]);
    forall x | x in cs[1..]
      ensures x in g.children[n]
    {
      assert x in cs;
    }
  }

  lemma WholeList(g: Graph, n: nat)
    requires Wf(g) && n in g.nodes
    ensures EdgesIn(g, n, g.children[n])
  {
    assert ListOk(g, n);
  }

  lemma DisjointIffEmpty(s: set<Perm>)
    ensures s * WRITES == {} <==> s !! WRITES
  {
    assert forall p: Perm :: p in s * WRITES <==> p in s && p in WRITES;
  }

  // ---------------------------------------------------------------- checking

  /** The masks the policy of node n gives its edge c. */
  ghost function Wanted(g: Graph, n: nat, c: nat, m: Masks): Masks
    requires n in g.nodes && c in g.edges && g.edges[c].bs in g.nodes
  {
    ChildPerms(g.nodes[n], g.nodes[g.edges[c].bs], Some(g.edges[c]), g.edges[c].role, m)
  }

  /** bdrv_check_perm. */
  ghost predicate CheckNode(g: Graph, n: nat, m: Masks, ignore: set<nat>)
    requires Wf(g) && n in g.nodes
    decreases g.rank[n], 1, 0
  {
    && (m.perm !! WRITES || g.nodes[n].writable)
    && (g.nodes[n].policy.Childless? || (WholeList(g, n); CheckChildren(g, n, g.children[n], m, ignore)))
  }

  ghost predicate CheckChildren(g: Graph, n: nat, cs: seq<nat>, m: Masks, ignore: set<nat>)
    requires Wf(g) && n in g.nodes && EdgesIn(g, n, cs)
    decreases g.rank[n], 0, |cs|
  {
    cs == [] || (ChildFacts(g, n, cs);
                 && CheckUpdate(g, g.edges[cs[0]].bs, Wanted(g, n, cs[0], m), ignore + {cs[0]})
                 && CheckChildren(g, n, cs[1..], m, ignore))
  }

  ghost predicate Compatible(e: Edge, m: Masks) {
    m.perm <= e.shared && e.perm <= m.shared
  }

  /** bdrv_check_update_perm: the masks are compatible with every other parent, and the node
      can do with them and those together. */
  ghost predicate CheckUpdate(g: Graph, n: nat, m: Masks, ignore: set<nat>)
    requires Wf(g) && n in g.nodes
    decreases g.rank[n], 2, 0
  {
    && (forall x :: Points(g, x, n) && x !in ignore ==> Compatible(g.edges[x], m))
    && CheckNode(g, n, Masks(m.perm + Perms(g, n, ignore), m.shared * Shared(g, n, ignore)), ignore)
  }

  // ---------------------------------------------------------------- setting

  ghost function WithMasks(g: Graph, c: nat, m: Masks): (r: Graph)
    requires Wf(g) && c in g.edges
    ensures SameShape(g, r) && Wf(r)
  {
    var r := g.(edges := g.edges[c := g.edges[c].(perm := m.perm, shared := m.shared)]);
    SameShapeWf(g, r);
    r
  }

  /** bdrv_set_perm. */
  ghost function SetNode(g: Graph, n: nat, m: Masks): (r: Graph)
    requires Wf(g) && n in g.nodes
    ensures SameShape(g, r) && Wf(r)
    decreases g.rank[n], 1, 0
  {
    if g.nodes[n].policy.Childless? then g else WholeList(g, n); SetChildren(g, n, g.children[n], m)
  }

  ghost function SetChildren(g: Graph, n: nat, cs: seq<nat>, m: Masks): (r: Graph)
    requires Wf(g) && n in g.nodes && EdgesIn(g, n, cs)
    ensures SameShape(g, r) && Wf(r)
    decreases g.rank[n], 0, |cs|
  {
    if cs == [] then g
    else
      ChildFacts(g, n, cs);
      var h := SetChild(g, cs[0], Wanted(g, n, cs[0], m));
      SetChildren(h, n, cs[1..], m)
  }

  /** bdrv_child_set_perm. */
  ghost function SetChild(g: Graph, c: nat, m: Masks): (r: Graph)
    requires Wf(g) && c in g.edges && g.edges[c].bs in g.nodes
    ensures SameShape(g, r) && Wf(r)
    decreases g.rank[g.edges[c].bs], 2, 0
  {
    var h := WithMasks(g, c, m);
    SetNode(h, g.edges[c].bs, Cumulative(h, g.edges[c].bs))
  }

  // ---------------------------------------------------------------- what can be reached

  ghost function Reach(g: Graph, n: nat): set<nat>
    requires Wf(g) && n in g.nodes
    decreases g.rank[n], 1, 0
  {
    WholeList(g, n);
    {n} + ReachList(g, n, g.children[n])
  }

  ghost function ReachList(g: Graph, n: nat, cs: seq<nat>): set<nat>
    requires Wf(g) && n in g.nodes && EdgesIn(g, n, cs)
    decreases g.rank[n], 0, |cs|
  {
    if cs == [] then {} else ChildFacts(g, n, cs); Reach(g, g.edges[cs[0]].bs) + ReachList(g, n, cs[1..])
  }

  /** No node is reachable from n by two paths. */
  ghost predicate Tree(g: Graph, n: nat)
    requires Wf(g) && n in g.nodes
    decreases g.rank[n], 1, 0
  {
    WholeList(g, n);
    TreeList(g, n, g.children[n])
  }

  ghost predicate TreeList(g: Graph, n: nat, cs: seq<nat>)
    requires Wf(g) && n in g.nodes && EdgesIn(g, n, cs)
    decreases g.rank[n], 0, |cs|
  {
    cs == [] || (ChildFacts(g, n, cs);
                 && Tree(g, g.edges[cs[0]].bs) && Reach(g, g.edges[cs[0]].bs) !! ReachList(g, n, cs[1..])
                 && TreeList(g, n, cs[1..]))
  }

  // ---------------------------------------------------------------- the invariant

  /** Any two parents of a node are compatible. */
  ghost predicate AllCompatible(g: Graph) {
    forall x, y :: x in g.edges && y in g.edges && x != y && g.edges[x].bs == g.edges[y].bs ==>
      g.edges[x].perm <= g.edges[y].shared
  }

  ghost predicate SharesUnchanged(g: Graph) {
    forall x :: x in g.edges ==> WriteUnchanged in g.edges[x].shared
  }

  /** Nobody writes to a read-only node. */
  ghost predicate Writable(g: Graph, n: nat)
    requires n in g.nodes
  {
    Perms(g, n, {}) !! WRITES || g.nodes[n].writable
  }

  /** The edge has the masks the policy of its owner gives it. */
  ghost predicate Settled(g: Graph, x: nat)
    requires Wf(g) && x in g.edges && g.edges[x].owner.Parent?
  {
    assert EdgeOk(g, g.edges[x]);
    var n := g.edges[x].owner.node;
    Masks(g.edges[x].perm, g.edges[x].shared) == Wanted(g, n, x, Cumulative(g, n))
  }

  /** Every inner edge but those in `pending` is settled. */
  ghost predicate SettledBut(g: Graph, pending: set<nat>)
    requires Wf(g)
  {
    forall x :: x in g.edges && g.edges[x].owner.Parent? && x !in pending ==> Settled(g, x)
  }

  ghost predicate AllWritable(g: Graph) {
    forall n :: n in g.nodes ==> Writable(g, n)
  }

  /** All is well but for the masks of the pending edges. */
  ghost predicate GoodBut(g: Graph, pending: set<nat>) {
    Wf(g) && AllCompatible(g) && SharesUnchanged(g) && AllWritable(g) && SettledBut(g, pending)
  }

  ghost predicate Good(g: Graph) {
    GoodBut(g, {})
  }

  lemma GoodButMore(g: Graph, pending: set<nat>, more: set<nat>)
    requires GoodBut(g, pending) && pending <= more
    ensures GoodBut(g, more)
  {
  }

  // ---------------------------------------------------------------- what a change touches

  lemma {:induction false} ReachSame(g: Graph, h: Graph, n: nat)
    requires Wf(g) && Wf(h) && SameFrame(g, h) && n in g.nodes
    ensures Reach(g, n) == Reach(h, n) && Tree(g, n) == Tree(h, n)
    decreases g.rank[n], 1, 0
  {
    WholeList(g, n);
    WholeList(h, n);
    ReachListSame(g, h, n, g.children[n]);
  }

  lemma {:induction false} ReachListSame(g: Graph, h: Graph, n: nat, cs: seq<nat>)
    requires Wf(g) && Wf(h) && SameFrame(g, h) && n in g.nodes && EdgesIn(g, n, cs)
    ensures EdgesIn(h, n, cs) && ReachList(g, n, cs) == ReachList(h, n, cs) && TreeList(g, n, cs) == TreeList(h, n, cs)
    decreases g.rank[n], 0, |cs|
  {
    assert ListOk(h, n);
    if cs != [] {
      ChildFacts(g, n, cs);
      assert ListOk(h, n);
      ReachSame(g, h, g.edges[cs[0]].bs);
      ReachListSame(g, h, n, cs[1..]);
    }
  }

  /** Reachable nodes other than n have smaller ranks. */
  lemma {:induction false} ReachRank(g: Graph, n: nat, k: nat)
    requires Wf(g) && n in g.nodes && k in Reach(g, n)
    ensures k in g.nodes && (k == n || g.rank[k] < g.rank[n])
    decreases g.rank[n], 1, 0
  {
    if k != n {
      WholeList(g, n);
      ReachListRank(g, n, g.children[n], k);
    }
  }

  lemma {:induction false} ReachListRank(g: Graph, n: nat, cs: seq<nat>, k: nat)
    requires Wf(g) && n in g.nodes && EdgesIn(g, n, cs) && k in ReachList(g, n, cs)
    ensures k in g.nodes && g.rank[k] < g.rank[n]
    decreases g.rank[n], 0, |cs|
  {
    ChildFacts(g, n, cs);
    if k in Reach(g, g.edges[cs[0]].bs) {
      ReachRank(g, g.edges[cs[0]].bs, k);
    } else {
      ReachListRank(g, n, cs[1..], k);
    }
  }

  /** Edges to nodes outside `region` are as before. */
  ghost predicate SameOutside(g: Graph, h: Graph, region: set<nat>) {
    SameShape(g, h) && forall x :: x in g.edges && g.edges[x].bs !in region ==> h.edges[x] == g.edges[x]
  }

  lemma {:induction false} SetChildTouches(g: Graph, c: nat, m: Masks)
    requires Wf(g) && c in g.edges && g.edges[c].bs in g.nodes
    ensures SameOutside(g, SetChild(g, c, m), Reach(g, g.edges[c].bs))
    decreases g.rank[g.edges[c].bs], 2, 0
  {
    var h, n := WithMasks(g, c, m), g.edges[c].bs;
    SetNodeTouches(h, n, Cumulative(h, n));
    ReachSame(g, h, n);
  }

  lemma {:induction false} SetNodeTouches(g: Graph, n: nat, m: Masks)
    requires Wf(g) && n in g.nodes
    ensures SameOutside(g, SetNode(g, n, m), Reach(g, n))
    decreases g.rank[n], 1, 0
  {
    WholeList(g, n);
    SetChildrenTouches(g, n, g.children[n], m);
  }

  lemma {:induction false} SetChildrenTouches(g: Graph, n: nat, cs: seq<nat>, m: Masks)
    requires Wf(g) && n in g.nodes && EdgesIn(g, n, cs)
    ensures SameOutside(g, SetChildren(g, n, cs, m), ReachList(g, n, cs))
    decreases g.rank[n], 0, |cs|
  {
    if cs != [] {
      ChildFacts(g, n, cs);
      var w := Wanted(g, n, cs[0], m);
      var h := SetChild(g, cs[0], w);
      SetChildTouches(g, cs[0], w);
      ReachListSame(g, h, n, cs[1..]);
      SetChildrenTouches(h, n, cs[1..], m);
    }
  }

  // ---------------------------------------------------------------- what a check reads

  /** The graphs, and the lists of edges to ignore, agree on the edges to nodes in `region`;
      an edge only one of them has is ignored there. */
  ghost predicate Agree(g: Graph, h: Graph, ignore: set<nat>, ignore': set<nat>, region: set<nat>) {
    && SameFrame(g, h)
    && (forall x :: x in g.edges && g.edges[x].bs in region ==>
          if x in h.edges then g.edges[x] == h.edges[x] && (x in ignore <==> x in ignore') else x in ignore)
    && forall x :: x in h.edges && x !in g.edges && h.edges[x].bs in region ==> x in ignore'
  }

  lemma AgreeLess(g: Graph, h: Graph, ignore: set<nat>, ignore': set<nat>, region: set<nat>, less: set<nat>, c: nat)
    requires Agree(g, h, ignore, ignore', region) && less <= region
    ensures Agree(g, h, ignore + {c}, ignore' + {c}, less)
  {
  }

  lemma SumsAgree(g: Graph, h: Graph, ignore: set<nat>, ignore': set<nat>, region: set<nat>, n: nat)
    requires Agree(g, h, ignore, ignore', region) && n in region
    ensures Perms(g, n, ignore) == Perms(h, n, ignore') && Shared(g, n, ignore) == Shared(h, n, ignore')
    ensures forall x :: Points(g, x, n) && x !in ignore <==> Points(h, x, n) && x !in ignore'
    ensures forall x :: Points(g, x, n) && x !in ignore ==> g.edges[x] == h.edges[x]
  {
    forall x
      ensures Points(g, x, n) && x !in ignore <==> Points(h, x, n) && x !in ignore'
      ensures Points(g, x, n) && x !in ignore ==> x in h.edges && g.edges[x] == h.edges[x]
    {
    }
  }

  lemma {:induction false} CheckNodeSame(g: Graph, h: Graph, n: nat, m: Masks, ignore: set<nat>, ignore': set<nat>)
    requires Wf(g) && Wf(h) && n in g.nodes && SameFrame(g, h)
    requires (WholeList(g, n); Agree(g, h, ignore, ignore', ReachList(g, n, g.children[n])))
    ensures CheckNode(g, n, m, ignore) == CheckNode(h, n, m, ignore')
    decreases g.rank[n], 1, 0
  {
    WholeList(g, n);
    WholeList(h, n);
    CheckChildrenSame(g, h, n, g.children[n], m, ignore, ignore');
  }

  lemma {:induction false} CheckChildrenSame(g: Graph, h: Graph, n: nat, cs: seq<nat>, m: Masks, ignore: set<nat>,
                                             ignore': set<nat>)
    requires Wf(g) && Wf(h) && n in g.nodes && EdgesIn(g, n, cs) && SameFrame(g, h)
    requires Agree(g, h, ignore, ignore', ReachList(g, n, cs))
    ensures EdgesIn(h, n, cs) && CheckChildren(g, n, cs, m, ignore) == CheckChildren(h, n, cs, m, ignore')
    decreases g.rank[n], 0, |cs|
  {
    ReachListSame(g, h, n, cs);
    if cs != [] {
      ChildFacts(g, n, cs);
      ChildFacts(h, n, cs);
      var c := cs[0];
      var k := g.edges[c].bs;
      assert k in Reach(g, k);
      AgreeLess(g, h, ignore, ignore', ReachList(g, n, cs), Reach(g, k), c);
      CheckUpdateSame(g, h, k, Wanted(g, n, c, m), ignore + {c}, ignore' + {c});
      CheckChildrenSame(g, h, n, cs[1..], m, ignore, ignore');
    }
  }

  lemma {:induction false} CheckUpdateSame(g: Graph, h: Graph, n: nat, m: Masks, ignore: set<nat>, ignore': set<nat>)
    requires Wf(g) && Wf(h) && n in g.nodes && Agree(g, h, ignore, ignore', Reach(g, n))
    ensures CheckUpdate(g, n, m, ignore) == CheckUpdate(h, n, m, ignore')
    decreases g.rank[n], 2, 0
  {
    WholeList(g, n);
    SumsAgree(g, h, ignore, ignore', Reach(g, n), n);
    CheckNodeSame(g, h, n, Masks(m.perm + Perms(g, n, ignore), m.shared * Shared(g, n, ignore)), ignore, ignore');
  }

  // ---------------------------------------------------------------- changing one edge

  lemma PerNode(g: Graph, h: Graph, n: nat)
    requires Wf(g) && SameShape(g, h) && n in g.nodes
    requires forall x :: Points(g, x, n) ==> h.edges[x] == g.edges[x]
    ensures Cumulative(g, n) == Cumulative(h, n) && Writable(g, n) == Writable(h, n)
  {
    assert Agree(g, h, {}, {}, {n});
    SumsAgree(g, h, {}, {}, {n}, n);
  }

  /** The sums over the parents of a node once edge c has its new masks. */
  lemma SumsWithMasks(g: Graph, c: nat, m: Masks, ignore: set<nat>)
    requires Wf(g) && c in g.edges && c in ignore
    requires forall x :: x in ignore && x in g.edges && x != c ==> g.edges[x].bs != g.edges[c].bs
    ensures var h, n := WithMasks(g, c, m), g.edges[c].bs;
            Cumulative(h, n) == Masks(m.perm + Perms(g, n, ignore), m.shared * Shared(g, n, ignore))
  {
    var h, n := WithMasks(g, c, m), g.edges[c].bs;
    assert Points(h, c, n);
    forall p: Perm
      ensures p in Perms(h, n, {}) <==> p in m.perm || p in Perms(g, n, ignore)
      ensures p in Shared(h, n, {}) <==> p in m.shared && p in Shared(g, n, ignore)
    {
      forall x
        ensures Points(h, x, n) <==> Points(g, x, n)
        ensures Points(h, x, n) && x != c ==> x !in ignore && x in g.edges && h.edges[x] == g.edges[x]
      {
      }
      SumsPointwise(g, h, c, m, ignore, n, p);
    }
    assert Perms(h, n, {}) == m.perm + Perms(g, n, ignore);
    assert Shared(h, n, {}) == m.shared * Shared(g, n, ignore);
  }

  lemma SumsPointwise(g: Graph, h: Graph, c: nat, m: Masks, ignore: set<nat>, n: nat, p: Perm)
    requires Points(h, c, n) && c in ignore && h.edges[c].perm == m.perm && h.edges[c].shared == m.shared
    requires forall x :: Points(h, x, n) <==> Points(g, x, n)
    requires forall x :: Points(h, x, n) && x != c ==> x !in ignore && x in g.edges && h.edges[x] == g.edges[x]
    ensures p in Perms(h, n, {}) <==> p in m.perm || p in Perms(g, n, ignore)
    ensures p in Shared(h, n, {}) <==> p in m.shared && p in Shared(g, n, ignore)
  {
    assert p in ALL;
    if p in Perms(h, n, {}) && p !in m.perm {
      var x :| Points(h, x, n) && p in h.edges[x].perm;
      assert Points(g, x, n) && x !in ignore;
    }
    if p in Perms(g, n, ignore) {
      var x :| Points(g, x, n) && x !in ignore && p in g.edges[x].perm;
      assert Points(h, x, n);
    }
    if p in Shared(h, n, {}) {
      forall x | Points(g, x, n) && x !in ignore
        ensures p in g.edges[x].shared
      {
        assert Points(h, x, n);
      }
    }
  }

  lemma WithMasksCompatible(g: Graph, c: nat, m: Masks, ignore: set<nat>)
    requires Wf(g) && AllCompatible(g) && c in g.edges && g.edges[c].bs in g.nodes
    requires forall x :: x in ignore && x in g.edges && x != c ==> g.edges[x].bs != g.edges[c].bs
    requires CheckUpdate(g, g.edges[c].bs, m, ignore)
    ensures AllCompatible(WithMasks(g, c, m))
  {
    var h, n := WithMasks(g, c, m), g.edges[c].bs;
    forall x, y | x in h.edges && y in h.edges && x != y && h.edges[x].bs == h.edges[y].bs
      ensures h.edges[x].perm <= h.edges[y].shared
    {
      if x == c {
        assert Points(g, y, n) && y !in ignore;
      } else if y == c {
        assert Points(g, x, n) && x !in ignore;
      }
    }
  }

  lemma WithMasksWritable(g: Graph, c: nat, m: Masks, ignore: set<nat>)
    requires Wf(g) && AllWritable(g) && c in g.edges && c in ignore && g.edges[c].bs in g.nodes
    requires forall x :: x in ignore && x in g.edges && x != c ==> g.edges[x].bs != g.edges[c].bs
    requires CheckUpdate(g, g.edges[c].bs, m, ignore)
    ensures AllWritable(WithMasks(g, c, m))
  {
    var h := WithMasks(g, c, m);
    SumsWithMasks(g, c, m, ignore);
    forall n | n in h.nodes
      ensures Writable(h, n)
    {
      if n != g.edges[c].bs {
        PerNode(g, h, n);
        assert Writable(g, n);
      }
    }
  }

  /** Once edge c has the masks its owner's policy gives it, only the edges of the node it
      points to have to follow. */
  lemma WithMasksSettled(g: Graph, c: nat, m: Masks, pending: set<nat>)
    requires Wf(g) && c in g.edges && g.edges[c].bs in g.nodes && SettledBut(g, pending + {c})
    requires g.edges[c].owner.Parent? && c !in pending ==>
               && g.edges[c].owner.node in g.nodes
               && m == Wanted(g, g.edges[c].owner.node, c, Cumulative(g, g.edges[c].owner.node))
    ensures SettledBut(WithMasks(g, c, m), pending + Elements(g.children[g.edges[c].bs]))
  {
    var h, n := WithMasks(g, c, m), g.edges[c].bs;
    forall x | x in h.edges && h.edges[x].owner.Parent? && x !in pending + Elements(g.children[n])
      ensures Settled(h, x)
    {
      var o := g.edges[x].owner.node;
      assert EdgeOk(g, g.edges[x]) && ListOk(g, o);
      assert x in g.children[o];
      assert o != n;
      PerNode(g, h, o);
      if x == c {
        ChildPermsStable(g.nodes[o], g.nodes[n], Some(g.edges[c]), h.edges[c], g.edges[c].role, Cumulative(g, o));
      } else {
        assert Settled(g, x);
      }
    }
  }

  // ---------------------------------------------------------------- a checked change keeps the invariant

  /** None of the ignored edges points into the region. */
  ghost predicate Elsewhere(g: Graph, ignore: set<nat>, region: set<nat>) {
    forall x :: x in ignore && x in g.edges ==> g.edges[x].bs !in region
  }

  lemma SplitPending(g: Graph, pending: set<nat>, cs: seq<nat>)
    requires cs != [] && GoodBut(g, pending + Elements(cs))
    ensures GoodBut(g, (pending + Elements(cs[1..])) + {cs[0]})
  {
    assert cs == [cs[0]] + cs[1..];
    assert (pending + Elements(cs[1..])) + {cs[0]} == pending + Elements(cs);
  }

  /** bdrv_child_set_perm after a successful bdrv_child_check_perm. */
  lemma {:induction false} SetChildGood(g: Graph, c: nat, m: Masks, ignore: set<nat>, pending: set<nat>)
    requires Wf(g) && c in g.edges && g.edges[c].bs in g.nodes && GoodBut(g, pending + {c})
    requires WriteUnchanged in m.shared && Tree(g, g.edges[c].bs) && Elsewhere(g, ignore, Reach(g, g.edges[c].bs))
    requires CheckUpdate(g, g.edges[c].bs, m, ignore + {c})
    requires g.edges[c].owner.Parent? && c !in pending ==>
               && g.edges[c].owner.node in g.nodes
               && m == Wanted(g, g.edges[c].owner.node, c, Cumulative(g, g.edges[c].owner.node))
    ensures GoodBut(SetChild(g, c, m), pending)
    decreases g.rank[g.edges[c].bs], 2, 0
  {
    var h, n := WithMasks(g, c, m), g.edges[c].bs;
    assert n in Reach(g, n);
    WithMasksGood(g, c, m, ignore + {c}, pending);
    SumsWithMasks(g, c, m, ignore + {c});
    ReachSame(g, h, n);
    WithMasksCheck(g, c, m, ignore + {c});
    SetNodeGood(h, n, ignore + {c}, pending);
  }

  lemma WithMasksGood(g: Graph, c: nat, m: Masks, ignore: set<nat>, pending: set<nat>)
    requires c in g.edges && g.edges[c].bs in g.nodes && GoodBut(g, pending + {c})
    requires WriteUnchanged in m.shared && c in ignore && CheckUpdate(g, g.edges[c].bs, m, ignore)
    requires forall x :: x in ignore && x in g.edges && x != c ==> g.edges[x].bs != g.edges[c].bs
    requires g.edges[c].owner.Parent? && c !in pending ==>
               && g.edges[c].owner.node in g.nodes
               && m == Wanted(g, g.edges[c].owner.node, c, Cumulative(g, g.edges[c].owner.node))
    ensures GoodBut(WithMasks(g, c, m), pending + Elements(g.children[g.edges[c].bs]))
  {
    WithMasksCompatible(g, c, m, ignore);
    WithMasksShares(g, c, m);
    WithMasksWritable(g, c, m, ignore);
    WithMasksSettled(g, c, m, pending);
  }

  lemma WithMasksShares(g: Graph, c: nat, m: Masks)
    requires Wf(g) && SharesUnchanged(g) && c in g.edges && WriteUnchanged in m.shared
    ensures SharesUnchanged(WithMasks(g, c, m))
  {
  }

  /** The check of the node is not affected by the new masks of the edge to it. */
  lemma WithMasksCheck(g: Graph, c: nat, m: Masks, ignore: set<nat>)
    requires Wf(g) && c in g.edges && g.edges[c].bs in g.nodes
    ensures var h, n := WithMasks(g, c, m), g.edges[c].bs;
            && (WholeList(h, n); n !in ReachList(h, n, h.children[n]))
            && forall t: Masks :: CheckNode(g, n, t, ignore) == CheckNode(h, n, t, ignore)
  {
    var h, n := WithMasks(g, c, m), g.edges[c].bs;
    WholeList(g, n);
    WholeList(h, n);
    ReachListSame(g, h, n, g.children[n]);
    if n in ReachList(g, n, g.children[n]) {
      ReachListRank(g, n, g.children[n], n);
    }
    forall t: Masks
      ensures CheckNode(g, n, t, ignore) == CheckNode(h, n, t, ignore)
    {
      CheckNodeSame(g, h, n, t, ignore, ignore);
    }
  }

  /** bdrv_set_perm after a successful bdrv_check_perm with the sums over all parents. */
  lemma {:induction false} SetNodeGood(g: Graph, n: nat, ignore: set<nat>, pending: set<nat>)
    requires Wf(g) && n in g.nodes && GoodBut(g, pending + Elements(g.children[n]))
    requires Tree(g, n) && (WholeList(g, n); Elsewhere(g, ignore, ReachList(g, n, g.children[n])))
    requires CheckNode(g, n, Cumulative(g, n), ignore)
    ensures GoodBut(SetNode(g, n, Cumulative(g, n)), pending)
    decreases g.rank[n], 1, 0
  {
    WholeList(g, n);
    assert ListOk(g, n);
    if g.nodes[n].policy.Childless? {
      assert Elements(g.children[n]) == {};
      assert pending + {} == pending;
    } else {
      SetChildrenGood(g, n, g.children[n], Cumulative(g, n), ignore, pending);
    }
  }

  lemma {:induction false} SetChildrenGood(g: Graph, n: nat, cs: seq<nat>, m: Masks, ignore: set<nat>,
                                           pending: set<nat>)
    requires Wf(g) && n in g.nodes && EdgesIn(g, n, cs) && GoodBut(g, pending + Elements(cs))
    requires m == Cumulative(g, n) && TreeList(g, n, cs) && Elsewhere(g, ignore, ReachList(g, n, cs))
    requires CheckChildren(g, n, cs, m, ignore)
    ensures GoodBut(SetChildren(g, n, cs, m), pending)
    decreases g.rank[n], 0, |cs|
  {
    if cs == [] {
      assert Elements(cs) == {};
      assert pending + {} == pending;
    } else {
      ChildFacts(g, n, cs);
      SplitPending(g, pending, cs);
      FirstChildGood(g, n, cs, m, ignore, pending + Elements(cs[1..]));
      NextChild(g, n, cs, m, ignore);
      SetChildrenGood(SetChild(g, cs[0], Wanted(g, n, cs[0], m)), n, cs[1..], m, ignore, pending);
    }
  }

  lemma {:induction false} FirstChildGood(g: Graph, n: nat, cs: seq<nat>, m: Masks, ignore: set<nat>, rest: set<nat>)
    requires Wf(g) && n in g.nodes && EdgesIn(g, n, cs) && cs != [] && GoodBut(g, rest + {cs[0]})
    requires cs[0] in g.edges && g.edges[cs[0]].bs in g.nodes && g.edges[cs[0]].owner == Parent(n)
    requires g.rank[g.edges[cs[0]].bs] < g.rank[n]
    requires m == Cumulative(g, n) && TreeList(g, n, cs) && Elsewhere(g, ignore, ReachList(g, n, cs))
    requires CheckChildren(g, n, cs, m, ignore)
    ensures GoodBut(SetChild(g, cs[0], Wanted(g, n, cs[0], m)), rest)
    decreases g.rank[n], 0, 0
  {
    WantedSharesUnchanged(g, n, cs[0]);
    SetChildGood(g, cs[0], Wanted(g, n, cs[0], m), ignore, rest);
  }

  lemma WantedSharesUnchanged(g: Graph, n: nat, c: nat)
    requires SharesUnchanged(g) && n in g.nodes && c in g.edges && g.edges[c].bs in g.nodes
    ensures WriteUnchanged in Wanted(g, n, c, Cumulative(g, n)).shared
  {
    SharedHasUnchanged(g, n);
    ChildPermsShareUnchanged(g.nodes[n], g.nodes[g.edges[c].bs], Some(g.edges[c]), g.edges[c].role, Cumulative(g, n));
  }

  lemma SharedHasUnchanged(g: Graph, n: nat)
    requires SharesUnchanged(g)
    ensures WriteUnchanged in Cumulative(g, n).shared
  {
  }

  /** Setting one child does not disturb the others: they are still checked, and the sums of
      the node are as before. */
  lemma NextChild(g: Graph, n: nat, cs: seq<nat>, m: Masks, ignore: set<nat>)
    requires Wf(g) && n in g.nodes && EdgesIn(g, n, cs) && cs != [] && TreeList(g, n, cs)
    requires Elsewhere(g, ignore, ReachList(g, n, cs)) && CheckChildren(g, n, cs, m, ignore)
    requires cs[0] in g.edges && g.edges[cs[0]].bs in g.nodes
    ensures var h := SetChild(g, cs[0], Wanted(g, n, cs[0], m));
            && EdgesIn(h, n, cs[1..]) && TreeList(h, n, cs[1..]) && CheckChildren(h, n, cs[1..], m, ignore)
            && Elsewhere(h, ignore, ReachList(h, n, cs[1..])) && Cumulative(h, n) == Cumulative(g, n)
  {
    var c, w := cs[0], Wanted(g, n, cs[0], m);
    var h, k := SetChild(g, c, w), g.edges[c].bs;
    ChildFacts(g, n, cs);
    SetChildTouches(g, c, w);
    ReachListSame(g, h, n, cs[1..]);
    CheckChildrenSame(g, h, n, cs[1..], m, ignore, ignore);
    if n in Reach(g, k) {
      ReachRank(g, k, n);
    }
    PerNode(g, h, n);
  }

  // ---------------------------------------------------------------- bdrv_child_try_set_perm

  ghost function TrySet(g: Graph, c: nat, m: Masks): Graph
    requires Wf(g) && c in g.edges && g.edges[c].bs in g.nodes
  {
    if CheckUpdate(g, g.edges[c].bs, m, {c}) then SetChild(g, c, m) else g
  }

  /** What is pending after edge c was set: that edge too, if it is an inner one. */
  ghost function Loosed(g: Graph, pending: set<nat>, c: nat): set<nat>
    requires c in g.edges
  {
    if g.edges[c].owner.User? then pending else pending + {c}
  }

  /** A change of an edge of a user keeps everything; one of an inner edge keeps everything but
      that this edge follows the policy of its owner. */
  lemma TrySetKeeps(g: Graph, c: nat, m: Masks, pending: set<nat>)
    requires GoodBut(g, pending) && c in g.edges && g.edges[c].bs in g.nodes
    requires WriteUnchanged in m.shared && Tree(g, g.edges[c].bs)
    ensures GoodBut(TrySet(g, c, m), Loosed(g, pending, c))
  {
    var after := Loosed(g, pending, c);
    if CheckUpdate(g, g.edges[c].bs, m, {c}) {
      assert {} + {c} == {c};
      GoodButMore(g, pending, after + {c});
      SetChildGood(g, c, m, {}, after);
    } else {
      GoodButMore(g, pending, after);
    }
  }

  // ---------------------------------------------------------------- attaching

  /** The graph with a new edge that no list of children holds. */
  ghost function WithEdge(g: Graph, x: nat, e: Edge): Graph {
    g.(edges := g.edges[x := e])
  }

  lemma WithEdgeWf(g: Graph, x: nat, e: Edge)
    requires Wf(g) && x !in g.edges && e.owner.User? && e.bs in g.nodes
    ensures Wf(WithEdge(g, x, e)) && SameFrame(g, WithEdge(g, x, e))
  {
    var h := WithEdge(g, x, e);
    forall n | n in h.nodes
      ensures ListOk(h, n)
    {
      assert ListOk(g, n);
    }
    forall y | y in h.edges
      ensures EdgeOk(h, h.edges[y])
    {
      assert y != x ==> EdgeOk(g, g.edges[y]);
    }
  }

  lemma WithEdgeSums(g: Graph, x: nat, e: Edge)
    requires Wf(g) && x !in g.edges && e.owner.User? && e.bs in g.nodes
    ensures var h := WithEdge(g, x, e);
            && Cumulative(h, e.bs) == Masks(e.perm + Perms(g, e.bs, {}), e.shared * Shared(g, e.bs, {}))
            && forall n :: n in g.nodes && n != e.bs ==> Cumulative(h, n) == Cumulative(g, n)
  {
    WithEdgeSum(g, x, e, e.bs);
    forall n | n in g.nodes && n != e.bs
      ensures Cumulative(WithEdge(g, x, e), n) == Cumulative(g, n)
    {
      WithEdgeSum(g, x, e, n);
    }
  }

  lemma WithEdgeSum(g: Graph, x: nat, e: Edge, n: nat)
    requires x !in g.edges
    ensures Cumulative(WithEdge(g, x, e), n) ==
            if n == e.bs then Masks(e.perm + Perms(g, n, {}), e.shared * Shared(g, n, {})) else Cumulative(g, n)
  {
    var h := WithEdge(g, x, e);
    forall p: Perm
      ensures p in Perms(h, n, {}) <==> (n == e.bs && p in e.perm) || p in Perms(g, n, {})
      ensures p in Shared(h, n, {}) <==> (n == e.bs ==> p in e.shared) && p in Shared(g, n, {})
    {
      WithEdgePointwise(g, h, x, e, n, p);
    }
    assert Perms(h, n, {}) == if n == e.bs then e.perm + Perms(g, n, {}) else Perms(g, n, {});
    assert Shared(h, n, {}) == if n == e.bs then e.shared * Shared(g, n, {}) else Shared(g, n, {});
  }

  lemma WithEdgePointwise(g: Graph, h: Graph, x: nat, e: Edge, n: nat, p: Perm)
    requires x !in g.edges && h == WithEdge(g, x, e)
    ensures p in Perms(h, n, {}) <==> (n == e.bs && p in e.perm) || p in Perms(g, n, {})
    ensures p in Shared(h, n, {}) <==> (n == e.bs ==> p in e.shared) && p in Shared(g, n, {})
  {
    assert p in ALL;
    assert Points(h, x, n) <==> n == e.bs;
    forall y
      ensures Points(g, y, n) <==> Points(h, y, n) && y != x
    {
    }
    if p in Perms(g, n, {}) {
      var y :| Points(g, y, n) && p in g.edges[y].perm;
      assert Points(h, y, n) && p in h.edges[y].perm;
    }
  }

  /** The new edge is compatible with the others, and only the edges of the node it points to
      have to follow. */
  lemma WithEdgeGood(g: Graph, x: nat, e: Edge, pending: set<nat>)
    requires GoodBut(g, pending) && x !in g.edges && e.owner.User? && e.bs in g.nodes && WriteUnchanged in e.shared
    requires CheckUpdate(g, e.bs, Masks(e.perm, e.shared), {})
    ensures Wf(g) && GoodBut(WithEdge(g, x, e), pending + Elements(g.children[e.bs]))
  {
    WithEdgeWf(g, x, e);
    WithEdgeCompatible(g, x, e);
    WithEdgeWritable(g, x, e);
    WithEdgeSettled(g, x, e, pending);
  }

  lemma WithEdgeCompatible(g: Graph, x: nat, e: Edge)
    requires Wf(g) && AllCompatible(g) && x !in g.edges && e.bs in g.nodes
    requires CheckUpdate(g, e.bs, Masks(e.perm, e.shared), {})
    ensures AllCompatible(WithEdge(g, x, e))
  {
    var h := WithEdge(g, x, e);
    forall y, z | y in h.edges && z in h.edges && y != z && h.edges[y].bs == h.edges[z].bs
      ensures h.edges[y].perm <= h.edges[z].shared
    {
      if y == x {
        assert Points(g, z, e.bs);
      } else if z == x {
        assert Points(g, y, e.bs);
      }
    }
  }

  lemma WithEdgeWritable(g: Graph, x: nat, e: Edge)
    requires Wf(g) && AllWritable(g) && x !in g.edges && e.owner.User? && e.bs in g.nodes
    requires CheckUpdate(g, e.bs, Masks(e.perm, e.shared), {})
    ensures AllWritable(WithEdge(g, x, e))
  {
    var h := WithEdge(g, x, e);
    WithEdgeSums(g, x, e);
    forall n | n in h.nodes
      ensures Writable(h, n)
    {
      assert Writable(g, n);
    }
  }

  lemma WithEdgeSettled(g: Graph, x: nat, e: Edge, pending: set<nat>)
    requires Wf(g) && SettledBut(g, pending) && x !in g.edges && e.owner.User? && e.bs in g.nodes
    ensures Wf(WithEdge(g, x, e)) && SettledBut(WithEdge(g, x, e), pending + Elements(g.children[e.bs]))
  {
    var h := WithEdge(g, x, e);
    WithEdgeWf(g, x, e);
    WithEdgeSums(g, x, e);
    forall y | y in h.edges && h.edges[y].owner.Parent? && y !in pending + Elements(g.children[e.bs])
      ensures Settled(h, y)
    {
      var o := g.edges[y].owner.node;
      assert EdgeOk(g, g.edges[y]) && ListOk(g, o) && Settled(g, y);
      assert y in g.children[o];
    }
  }

  /** bdrv_root_attach_child: the check, and then the new edge with what follows from it. */
  ghost function RootAttached(g: Graph, x: nat, e: Edge): Graph
    requires Wf(g) && x !in g.edges && e.owner.User? && e.bs in g.nodes
  {
    WithEdgeWf(g, x, e);
    var h := WithEdge(g, x, e);
    SetNode(h, e.bs, Cumulative(h, e.bs))
  }

  /** A failed attach changes nothing. */
  ghost function RootAttachResult(g: Graph, x: nat, e: Edge): Graph
    requires Wf(g) && x !in g.edges && e.owner.User? && e.bs in g.nodes
  {
    if CheckUpdate(g, e.bs, Masks(e.perm, e.shared), {}) then RootAttached(g, x, e) else g
  }

  lemma RootAttachResultKeeps(g: Graph, x: nat, e: Edge, pending: set<nat>)
    requires GoodBut(g, pending) && x !in g.edges && e.owner.User? && e.bs in g.nodes && WriteUnchanged in e.shared
    requires Tree(g, e.bs)
    ensures GoodBut(RootAttachResult(g, x, e), pending)
  {
    if CheckUpdate(g, e.bs, Masks(e.perm, e.shared), {}) {
      RootAttachKeeps(g, x, e, pending);
    }
  }

  lemma RootAttachKeeps(g: Graph, x: nat, e: Edge, pending: set<nat>)
    requires GoodBut(g, pending) && x !in g.edges && e.owner.User? && e.bs in g.nodes && WriteUnchanged in e.shared
    requires Tree(g, e.bs) && CheckUpdate(g, e.bs, Masks(e.perm, e.shared), {})
    ensures GoodBut(RootAttached(g, x, e), pending) && SameShape(WithEdge(g, x, e), RootAttached(g, x, e))
    ensures RootAttached(g, x, e).edges[x] == e
    ensures forall n :: n in g.nodes && n !in Reach(g, e.bs) ==>
              Cumulative(RootAttached(g, x, e), n) == Cumulative(g, n)
  {
    var h, n := WithEdge(g, x, e), e.bs;
    WithEdgeGood(g, x, e, pending);
    WithEdgeSums(g, x, e);
    WithEdgeWf(g, x, e);
    ReachSame(g, h, n);
    AttachCheck(g, x, e);
    SetNodeGood(h, n, {}, pending);
    AttachFrame(g, x, e);
  }

  lemma AttachCheck(g: Graph, x: nat, e: Edge)
    requires Wf(g) && x !in g.edges && e.owner.User? && e.bs in g.nodes
    requires CheckUpdate(g, e.bs, Masks(e.perm, e.shared), {})
    ensures var h := WithEdge(g, x, e); Wf(h) && CheckNode(h, e.bs, Cumulative(h, e.bs), {})
  {
    var h, n := WithEdge(g, x, e), e.bs;
    WithEdgeWf(g, x, e);
    WithEdgeSums(g, x, e);
    WholeList(g, n);
    if n in ReachList(g, n, g.children[n]) {
      ReachListRank(g, n, g.children[n], n);
    }
    CheckNodeSame(g, h, n, Cumulative(h, n), {}, {});
  }

  lemma AttachFrame(g: Graph, x: nat, e: Edge)
    requires Wf(g) && x !in g.edges && e.owner.User? && e.bs in g.nodes
    ensures RootAttached(g, x, e).edges[x] == e
    ensures forall n :: n in g.nodes && n !in Reach(g, e.bs) ==>
              Cumulative(RootAttached(g, x, e), n) == Cumulative(g, n)
  {
    var h, k, r := WithEdge(g, x, e), e.bs, RootAttached(g, x, e);
    WithEdgeWf(g, x, e);
    WithEdgeSums(g, x, e);
    ReachSame(g, h, k);
    WholeList(h, k);
    SetNodeTouches(h, k, Cumulative(h, k));
    SetChildrenTouches(h, k, h.children[k], Cumulative(h, k));
    if k in ReachList(h, k, h.children[k]) {
      ReachListRank(h, k, h.children[k], k);
    }
    forall n | n in g.nodes && n !in Reach(g, k)
      ensures Cumulative(r, n) == Cumulative(g, n)
    {
      PerNode(h, r, n);
    }
  }

  /** Putting an edge of a user on the list of a node, as bdrv_attach_child does last. */
  ghost function Adopted(g: Graph, x: nat, n: nat): Graph
    requires x in g.edges && n in g.children
  {
    g.(edges := g.edges[x := g.edges[x].(owner := Parent(n))], children := g.children[n := [x] + g.children[n]])
  }

  lemma AdoptedWf(g: Graph, x: nat, n: nat)
    requires Wf(g) && x in g.edges && g.edges[x].owner.User? && n in g.nodes && !g.nodes[n].policy.Childless?
    requires g.edges[x].bs in g.rank && g.rank[g.edges[x].bs] < g.rank[n]
    ensures Wf(Adopted(g, x, n))
  {
    var h := Adopted(g, x, n);
    forall k | k in h.nodes
      ensures ListOk(h, k)
    {
      assert ListOk(g, k);
      assert x !in g.children[k];
    }
    forall y | y in h.edges
      ensures EdgeOk(h, h.edges[y])
    {
      assert EdgeOk(g, g.edges[y]);
    }
  }

  lemma AdoptedSums(g: Graph, x: nat, n: nat, k: nat)
    requires x in g.edges && n in g.children
    ensures Cumulative(Adopted(g, x, n), k) == Cumulative(g, k)
  {
    var h := Adopted(g, x, n);
    forall y
      ensures Points(g, y, k) <==> Points(h, y, k)
    {
    }
    assert Perms(h, k, {}) == Perms(g, k, {}) && Shared(h, k, {}) == Shared(g, k, {});
  }

  /** The masks bdrv_attach_child asks for. */
  ghost function AttachMasks(g: Graph, parent: nat, child: nat, role: Role): Masks
    requires parent in g.nodes && child in g.nodes
  {
    ChildPerms(g.nodes[parent], g.nodes[child], None, role, Cumulative(g, parent))
  }

  lemma AttachMasksShareUnchanged(g: Graph, parent: nat, child: nat, role: Role)
    requires SharesUnchanged(g) && parent in g.nodes && child in g.nodes
    ensures WriteUnchanged in AttachMasks(g, parent, child, role).shared
  {
    SharedHasUnchanged(g, parent);
    ChildPermsShareUnchanged(g.nodes[parent], g.nodes[child], None, role, Cumulative(g, parent));
  }

  lemma AdoptedGood(g: Graph, x: nat, n: nat, pending: set<nat>)
    requires GoodBut(g, pending) && x in g.edges && g.edges[x].owner.User? && n in g.nodes
    requires !g.nodes[n].policy.Childless?
    requires g.edges[x].bs in g.nodes && g.rank[g.edges[x].bs] < g.rank[n]
    requires Masks(g.edges[x].perm, g.edges[x].shared) == AttachMasks(g, n, g.edges[x].bs, g.edges[x].role)
    ensures GoodBut(Adopted(g, x, n), pending)
  {
    AdoptedWf(g, x, n);
    AdoptedSettled(g, x, n, pending);
    AdoptedWritable(g, x, n);
    AdoptedCompatible(g, x, n);
  }

  lemma AdoptedCompatible(g: Graph, x: nat, n: nat)
    requires x in g.edges && n in g.children && AllCompatible(g) && SharesUnchanged(g)
    ensures AllCompatible(Adopted(g, x, n)) && SharesUnchanged(Adopted(g, x, n))
  {
  }

  lemma AdoptedWritable(g: Graph, x: nat, n: nat)
    requires x in g.edges && n in g.children && AllWritable(g)
    ensures AllWritable(Adopted(g, x, n))
  {
    forall k | k in g.nodes
      ensures Writable(Adopted(g, x, n), k)
    {
      AdoptedSums(g, x, n, k);
      assert Writable(g, k);
    }
  }

  lemma AdoptedSettled(g: Graph, x: nat, n: nat, pending: set<nat>)
    requires Wf(g) && SettledBut(g, pending) && x in g.edges && n in g.nodes && g.edges[x].bs in g.nodes
    requires Wf(Adopted(g, x, n))
    requires Masks(g.edges[x].perm, g.edges[x].shared) == AttachMasks(g, n, g.edges[x].bs, g.edges[x].role)
    ensures SettledBut(Adopted(g, x, n), pending)
  {
    var h := Adopted(g, x, n);
    forall y | y in h.edges && h.edges[y].owner.Parent? && y !in pending
      ensures Settled(h, y)
    {
      AdoptedSums(g, x, n, h.edges[y].owner.node);
      if y == x {
        ChildPermsStable(g.nodes[n], g.nodes[g.edges[x].bs], None, h.edges[x], g.edges[x].role, Cumulative(g, n));
      } else {
        assert Settled(g, y) && EdgeOk(g, g.edges[y]);
      }
    }
  }

  lemma {:induction false} ReachChild(g: Graph, n: nat, cs: seq<nat>, c: nat)
    requires Wf(g) && n in g.nodes && EdgesIn(g, n, cs) && c in cs && c in g.edges && g.edges[c].bs in g.nodes
    ensures Reach(g, g.edges[c].bs) <= ReachList(g, n, cs)
    decreases |cs|
  {
    ChildFacts(g, n, cs);
    if c != cs[0] {
      ReachChild(g, n, cs[1..], c);
    }
  }

  /** The ranks with those of the nodes that reach n raised. */
  ghost function RaisedRank(g: Graph, n: nat, d: nat): map<nat, nat>
    requires Wf(g) && n in g.nodes
  {
    map k | k in g.nodes :: if n in Reach(g, k) then g.rank[k] + d else g.rank[k]
  }

  lemma RaisedWf(g: Graph, n: nat, d: nat)
    requires Wf(g) && n in g.nodes
    ensures Wf(g.(rank := RaisedRank(g, n, d)))
  {
    var h := g.(rank := RaisedRank(g, n, d));
    forall k | k in h.nodes
      ensures ListOk(h, k)
    {
      assert ListOk(g, k);
    }
    forall x | x in h.edges
      ensures EdgeOk(h, h.edges[x])
    {
      assert EdgeOk(g, g.edges[x]);
      if g.edges[x].owner.Parent? {
        var o := g.edges[x].owner.node;
        WholeList(g, o);
        assert ListOk(g, o);
        ReachChild(g, o, g.children[o], x);
      }
    }
  }

  /** The graph in an order that has room for an edge from parent to child. */
  ghost function Ordered(g: Graph, parent: nat, child: nat): (h: Graph)
    requires Wf(g) && parent in g.nodes && child in g.nodes
    ensures Wf(h) && SameFrame(g, h) && h.edges == g.edges
    ensures parent !in Reach(g, child) ==> h.rank[child] < h.rank[parent]
  {
    RaisedWf(g, parent, g.rank[child] + 1);
    assert parent in Reach(g, parent);
    g.(rank := RaisedRank(g, parent, g.rank[child] + 1))
  }

  /** Sums do not depend on the order. */
  lemma OrderSums(g: Graph, h: Graph, k: nat)
    requires g.edges == h.edges
    ensures Cumulative(h, k) == Cumulative(g, k)
  {
    forall y
      ensures Points(g, y, k) <==> Points(h, y, k)
    {
    }
    assert Perms(h, k, {}) == Perms(g, k, {}) && Shared(h, k, {}) == Shared(g, k, {});
  }

  lemma OrderGood(g: Graph, h: Graph, pending: set<nat>)
    requires GoodBut(g, pending) && Wf(h) && SameFrame(g, h) && g.edges == h.edges
    ensures GoodBut(h, pending)
  {
    forall k | k in h.nodes
      ensures Writable(h, k)
    {
      OrderSums(g, h, k);
      assert Writable(g, k);
    }
    forall x | x in h.edges && h.edges[x].owner.Parent? && x !in pending
      ensures Settled(h, x)
    {
      assert Settled(g, x) && EdgeOk(g, g.edges[x]);
      OrderSums(g, h, g.edges[x].owner.node);
    }
  }

  /** bdrv_attach_child, if its check succeeds. */
  ghost function Attached(g: Graph, x: nat, parent: nat, child: nat, role: Role): Graph
    requires Wf(g) && x !in g.edges && parent in g.nodes && child in g.nodes
  {
    var m := AttachMasks(g, parent, child, role);
    AttachedTo(g, x, parent, Edge(User, role, child, m.perm, m.shared))
  }

  ghost function AttachedTo(g: Graph, x: nat, parent: nat, e: Edge): Graph
    requires Wf(g) && x !in g.edges && parent in g.nodes && e.owner.User? && e.bs in g.nodes
  {
    WithEdgeWf(g, x, e);
    Adopted(Ordered(RootAttached(g, x, e), parent, e.bs), x, parent)
  }

  lemma AttachOrder(g: Graph, x: nat, parent: nat, e: Edge)
    requires Wf(g) && x !in g.edges && parent in g.nodes && e.owner.User? && e.bs in g.nodes
    requires parent !in Reach(g, e.bs)
    ensures var h := Ordered(RootAttached(g, x, e), parent, e.bs);
            && h.edges[x] == e && h.rank[e.bs] < h.rank[parent] && Cumulative(h, parent) == Cumulative(g, parent)
  {
    var r := RootAttached(g, x, e);
    AttachFrame(g, x, e);
    WithEdgeWf(g, x, e);
    ReachSame(g, r, e.bs);
    OrderSums(r, Ordered(r, parent, e.bs), parent);
  }

  ghost function AttachResult(g: Graph, x: nat, parent: nat, child: nat, role: Role): Graph
    requires Wf(g) && x !in g.edges && parent in g.nodes && child in g.nodes
  {
    if CheckUpdate(g, child, AttachMasks(g, parent, child, role), {}) then Attached(g, x, parent, child, role) else g
  }

  lemma AttachResultKeeps(g: Graph, x: nat, parent: nat, child: nat, role: Role, pending: set<nat>)
    requires GoodBut(g, pending) && x !in g.edges && parent in g.nodes && child in g.nodes
    requires !g.nodes[parent].policy.Childless? && parent !in Reach(g, child) && Tree(g, child)
    ensures GoodBut(AttachResult(g, x, parent, child, role), pending)
  {
    if CheckUpdate(g, child, AttachMasks(g, parent, child, role), {}) {
      AttachKeeps(g, x, parent, child, role, pending);
    }
  }

  lemma AttachKeeps(g: Graph, x: nat, parent: nat, child: nat, role: Role, pending: set<nat>)
    requires GoodBut(g, pending) && x !in g.edges && parent in g.nodes && child in g.nodes
    requires !g.nodes[parent].policy.Childless? && parent !in Reach(g, child) && Tree(g, child)
    requires CheckUpdate(g, child, AttachMasks(g, parent, child, role), {})
    ensures GoodBut(Attached(g, x, parent, child, role), pending)
  {
    var m := AttachMasks(g, parent, child, role);
    var e := Edge(User, role, child, m.perm, m.shared);
    assert Masks(e.perm, e.shared) == m;
    AttachMasksShareUnchanged(g, parent, child, role);
    RootAttachKeeps(g, x, e, pending);
    var r := RootAttached(g, x, e);
    OrderGood(r, Ordered(r, parent, child), pending);
    AttachOrder(g, x, parent, e);
    AdoptedGood(Ordered(r, parent, child), x, parent, pending);
  }

  // ---------------------------------------------------------------- detaching

  /** The graph without an edge, which is on the list of its owner if that is a node. */
  ghost function Without(g: Graph, x: nat): Graph
    requires x in g.edges && (g.edges[x].owner.Parent? ==> g.edges[x].owner.node in g.children)
  {
    Graph(g.nodes, g.edges - {x}, ListsWithout(g.children, g.edges[x].owner, x), g.rank)
  }

  function ListsWithout(children: map<nat, seq<nat>>, owner: Owner, x: nat): map<nat, seq<nat>>
    requires owner.Parent? ==> owner.node in children
  {
    if owner.User? then children else children[owner.node := Dropped(children[owner.node], x)]
  }

  /** QLIST_REMOVE. */
  function Dropped(s: seq<nat>, x: nat): seq<nat> {
    if s == [] then [] else if s[0] == x then s[1..] else [s[0]] + Dropped(s[1..], x)
  }

  lemma {:induction false} DroppedElements(s: seq<nat>, x: nat)
    requires Distinct(s)
    ensures Distinct(Dropped(s, x)) && forall y :: y in Dropped(s, x) <==> y in s && y != x
  {
    if s != [] {
      assert forall y :: y in s <==> y == s[0] || y in s[1..];
      if s[0] == x {
        assert x !in s[1..];
      } else {
        DroppedElements(s[1..], x);
        assert s[0] !in s[1..];
        DistinctCons(s[0], Dropped(s[1..], x));
      }
    }
  }

  lemma DistinctCons(y: nat, s: seq<nat>)
    requires Distinct(s) && y !in s
    ensures Distinct([y] + s)
  {
    var t := [y] + s;
    forall i, j | 0 <= i < j < |t|
      ensures t[i] != t[j]
    {
      assert t[j] == s[j - 1] && (i > 0 ==> t[i] == s[i - 1]);
    }
  }

  lemma WithoutWf(g: Graph, x: nat)
    requires Wf(g) && x in g.edges
    ensures (g.edges[x].owner.Parent? ==> g.edges[x].owner.node in g.children) && Wf(Without(g, x))
  {
    assert EdgeOk(g, g.edges[x]);
    var h := Without(g, x);
    forall n | n in h.nodes
      ensures ListOk(h, n)
    {
      assert ListOk(g, n);
      DroppedElements(g.children[n], x);
    }
    forall y | y in h.edges
      ensures EdgeOk(h, h.edges[y])
    {
      assert EdgeOk(g, g.edges[y]);
    }
  }

  /** Taking a parent away loosens the sums of its node and leaves the others alone. */
  lemma WithoutSums(g: Graph, x: nat, n: nat)
    requires Wf(g) && x in g.edges && (g.edges[x].owner.Parent? ==> g.edges[x].owner.node in g.children)
    ensures Looser(Cumulative(Without(g, x), n), Cumulative(g, n))
    ensures n != g.edges[x].bs ==> Cumulative(Without(g, x), n) == Cumulative(g, n)
  {
    var h := Without(g, x);
    forall y
      ensures Points(h, y, n) <==> Points(g, y, n) && y != x
    {
    }
    if n != g.edges[x].bs {
      assert Perms(h, n, {}) == Perms(g, n, {}) && Shared(h, n, {}) == Shared(g, n, {});
    }
  }

  lemma WithoutGood(g: Graph, x: nat, pending: set<nat>)
    requires GoodBut(g, pending) && x in g.edges && (g.edges[x].owner.Parent? ==> g.edges[x].owner.node in g.children)
    requires g.edges[x].bs in g.nodes && Wf(Without(g, x))
    ensures var h, n := Without(g, x), g.edges[x].bs; GoodBut(h, (pending - {x}) + Elements(h.children[n]))
  {
    var h, n := Without(g, x), g.edges[x].bs;
    WithoutWritable(g, x);
    forall y | y in h.edges && h.edges[y].owner.Parent? && y !in (pending - {x}) + Elements(h.children[n])
      ensures Settled(h, y)
    {
      var o := h.edges[y].owner.node;
      assert EdgeOk(h, h.edges[y]) && ListOk(h, o) && Settled(g, y);
      assert y in h.children[o];
      WithoutSums(g, x, o);
    }
  }

  /** The edges of a node would get looser masks than they have. */
  ghost predicate Loosens(g: Graph, n: nat, cs: seq<nat>, m: Masks)
    requires Wf(g) && n in g.nodes && EdgesIn(g, n, cs)
  {
    assert ListOk(g, n);
    forall c :: c in cs ==>
      (assert EdgeOk(g, g.edges[c]);
       Looser(Wanted(g, n, c, m), Masks(g.edges[c].perm, g.edges[c].shared)))
  }

  /** The policy of its owner asks for no more than the edge has. */
  ghost predicate Tight(g: Graph, x: nat)
    requires Wf(g) && x in g.edges && g.edges[x].owner.Parent?
  {
    assert EdgeOk(g, g.edges[x]);
    var n := g.edges[x].owner.node;
    Looser(Wanted(g, n, x, Cumulative(g, n)), Masks(g.edges[x].perm, g.edges[x].shared))
  }

  /** No inner edge owned by a node of the region is looser than the policy asks. */
  ghost predicate TightIn(g: Graph, region: set<nat>)
    requires Wf(g)
  {
    forall x :: x in g.edges && g.edges[x].owner.Parent? && g.edges[x].owner.node in region ==> Tight(g, x)
  }

  /** Tight edges get looser masks when the sums of their node get looser. */
  lemma TightLoosens(g: Graph, n: nat, m: Masks)
    requires Wf(g) && n in g.nodes && Looser(m, Cumulative(g, n)) && TightIn(g, {n})
    ensures EdgesIn(g, n, g.children[n]) && Loosens(g, n, g.children[n], m)
  {
    WholeList(g, n);
    assert ListOk(g, n);
    forall c | c in g.children[n]
      ensures EdgeOk(g, g.edges[c]) && Looser(Wanted(g, n, c, m), Masks(g.edges[c].perm, g.edges[c].shared))
    {
      assert EdgeOk(g, g.edges[c]) && Tight(g, c);
      ChildPermsMonotone(g.nodes[n], g.nodes[g.edges[c].bs], Some(g.edges[c]), g.edges[c].role, m, Cumulative(g, n));
    }
  }

  /** A check that only asks for looser masks succeeds. */
  lemma {:induction false} LooseCheckNode(g: Graph, n: nat, m: Masks, ignore: set<nat>)
    requires Wf(g) && n in g.nodes && AllCompatible(g) && AllWritable(g)
    requires m.perm !! WRITES || g.nodes[n].writable
    requires EdgesIn(g, n, g.children[n]) && Loosens(g, n, g.children[n], m)
    requires TightIn(g, ReachList(g, n, g.children[n]))
    ensures CheckNode(g, n, m, ignore)
    decreases g.rank[n], 1, 0
  {
    LooseCheckChildren(g, n, g.children[n], m, ignore);
  }

  lemma {:induction false} LooseCheckChildren(g: Graph, n: nat, cs: seq<nat>, m: Masks, ignore: set<nat>)
    requires Wf(g) && n in g.nodes && AllCompatible(g) && AllWritable(g)
    requires EdgesIn(g, n, cs) && Loosens(g, n, cs, m) && TightIn(g, ReachList(g, n, cs))
    ensures CheckChildren(g, n, cs, m, ignore)
    decreases g.rank[n], 0, |cs|
  {
    if cs != [] {
      ChildFacts(g, n, cs);
      var c := cs[0];
      assert c in cs;
      LooseCheckUpdate(g, c, Wanted(g, n, c, m), ignore + {c});
      assert forall y :: y in cs[1..] ==> y in cs;
      LooseCheckChildren(g, n, cs[1..], m, ignore);
    }
  }

  lemma {:induction false} LooseCheckUpdate(g: Graph, c: nat, w: Masks, ignore: set<nat>)
    requires Wf(g) && c in g.edges && g.edges[c].bs in g.nodes && c in ignore
    requires AllCompatible(g) && AllWritable(g) && TightIn(g, Reach(g, g.edges[c].bs))
    requires Looser(w, Masks(g.edges[c].perm, g.edges[c].shared))
    ensures CheckUpdate(g, g.edges[c].bs, w, ignore)
    decreases g.rank[g.edges[c].bs], 2, 0
  {
    var k := g.edges[c].bs;
    var m := Masks(w.perm + Perms(g, k, ignore), w.shared * Shared(g, k, ignore));
    LooseSums(g, c, w, ignore);
    assert Writable(g, k);
    WholeList(g, k);
    TightLoosens(g, k, m);
    LooseCheckNode(g, k, m, ignore);
  }

  /** With looser masks on one edge, the sums get looser; ignoring edges loosens them too. */
  lemma LooseSums(g: Graph, c: nat, w: Masks, ignore: set<nat>)
    requires c in g.edges && AllCompatible(g) && Looser(w, Masks(g.edges[c].perm, g.edges[c].shared)) && c in ignore
    ensures var k := g.edges[c].bs;
            && Looser(Masks(w.perm + Perms(g, k, ignore), w.shared * Shared(g, k, ignore)), Cumulative(g, k))
            && forall x :: Points(g, x, k) && x !in ignore ==> Compatible(g.edges[x], w)
  {
    var k := g.edges[c].bs;
    assert Points(g, c, k);
    forall p: Perm | p in w.perm
      ensures p in Perms(g, k, {})
    {
      InAll(p);
      assert p in g.edges[c].perm;
    }
    forall p: Perm | p in Shared(g, k, {})
      ensures p in w.shared && p in Shared(g, k, ignore)
    {
      assert p in g.edges[c].shared;
    }
  }

  /** bdrv_detach_child. */
  ghost function Detached(g: Graph, x: nat): Graph
    requires Wf(g) && x in g.edges && g.edges[x].bs in g.nodes
  {
    WithoutWf(g, x);
    var h, n := Without(g, x), g.edges[x].bs;
    SetNode(h, n, Cumulative(h, n))
  }

  /** What can be reached from below the owner of an edge does not depend on that edge. */
  lemma {:induction false} WithoutReach(g: Graph, x: nat, n: nat)
    requires Wf(g) && x in g.edges && n in g.nodes
    requires (WithoutWf(g, x); Wf(Without(g, x)))
    requires g.edges[x].owner.Parent? ==> g.edges[x].owner.node in g.rank && g.rank[n] < g.rank[g.edges[x].owner.node]
    ensures Reach(Without(g, x), n) == Reach(g, n) && Tree(Without(g, x), n) == Tree(g, n)
    decreases g.rank[n], 1, 0
  {
    WholeList(g, n);
    WithoutReachList(g, x, n, g.children[n]);
  }

  lemma {:induction false} WithoutReachList(g: Graph, x: nat, n: nat, cs: seq<nat>)
    requires Wf(g) && x in g.edges && n in g.nodes && EdgesIn(g, n, cs)
    requires (WithoutWf(g, x); Wf(Without(g, x)))
    requires g.edges[x].owner.Parent? ==> g.edges[x].owner.node in g.rank && g.rank[n] < g.rank[g.edges[x].owner.node]
    ensures var h := Without(g, x);
            && EdgesIn(h, n, cs) && h.children[n] == g.children[n]
            && ReachList(h, n, cs) == ReachList(g, n, cs) && TreeList(h, n, cs) == TreeList(g, n, cs)
    decreases g.rank[n], 0, |cs|
  {
    WithoutList(g, x, n, cs);
    if cs != [] {
      ChildFacts(g, n, cs);
      ChildFacts(Without(g, x), n, cs);
      WithoutReach(g, x, g.edges[cs[0]].bs);
      WithoutReachList(g, x, n, cs[1..]);
    }
  }

  lemma WithoutList(g: Graph, x: nat, n: nat, cs: seq<nat>)
    requires Wf(g) && x in g.edges && n in g.nodes && EdgesIn(g, n, cs)
    requires g.edges[x].owner.Parent? ==> g.edges[x].owner.node in g.rank && g.rank[n] < g.rank[g.edges[x].owner.node]
    requires (WithoutWf(g, x); Wf(Without(g, x)))
    ensures EdgesIn(Without(g, x), n, cs) && Without(g, x).children[n] == g.children[n]
    ensures forall c :: c in cs ==> c in Without(g, x).edges && Without(g, x).edges[c] == g.edges[c]
  {
    WithoutWf(g, x);
    assert ListOk(g, n) && ListOk(Without(g, x), n);
  }

  /** The check of the node that loses a parent, whose failure aborts the program. */
  ghost predicate DetachCheck(g: Graph, x: nat)
    requires Wf(g) && x in g.edges && g.edges[x].bs in g.nodes
  {
    WithoutWf(g, x);
    var h, n := Without(g, x), g.edges[x].bs;
    CheckNode(h, n, Cumulative(h, n), {})
  }

  /** The check succeeds if no edge below is looser than its policy asks. */
  lemma DetachCheckSucceeds(g: Graph, x: nat)
    requires Wf(g) && AllCompatible(g) && AllWritable(g) && x in g.edges && g.edges[x].bs in g.nodes
    requires TightIn(g, Reach(g, g.edges[x].bs))
    ensures DetachCheck(g, x)
  {
    WithoutWf(g, x);
    var h, n := Without(g, x), g.edges[x].bs;
    assert EdgeOk(g, g.edges[x]);
    WithoutReach(g, x, n);
    WholeList(h, n);
    WithoutTight(g, x, Reach(g, n));
    WithoutWritable(g, x);
    assert Writable(h, n);
    TightLoosens(h, n, Cumulative(h, n));
    LooseCheckNode(h, n, Cumulative(h, n), {});
  }

  lemma WithoutTight(g: Graph, x: nat, region: set<nat>)
    requires Wf(g) && x in g.edges && TightIn(g, region)
    requires (g.edges[x].owner.Parent? ==> g.edges[x].owner.node in g.children) && Wf(Without(g, x))
    ensures TightIn(Without(g, x), region)
  {
    var h := Without(g, x);
    forall y | y in h.edges && h.edges[y].owner.Parent? && h.edges[y].owner.node in region
      ensures Tight(h, y)
    {
      var o := h.edges[y].owner.node;
      assert EdgeOk(g, g.edges[y]) && Tight(g, y);
      WithoutSums(g, x, o);
      ChildPermsMonotone(g.nodes[o], g.nodes[g.edges[y].bs], Some(g.edges[y]), g.edges[y].role,
                         Cumulative(h, o), Cumulative(g, o));
    }
  }

  lemma WithoutWritable(g: Graph, x: nat)
    requires Wf(g) && x in g.edges && AllWritable(g)
    requires g.edges[x].owner.Parent? ==> g.edges[x].owner.node in g.children
    ensures AllWritable(Without(g, x))
  {
    forall n | n in g.nodes
      ensures Writable(Without(g, x), n)
    {
      WithoutSums(g, x, n);
      assert Writable(g, n);
    }
  }

  lemma DetachKeeps(g: Graph, x: nat, pending: set<nat>)
    requires GoodBut(g, pending) && x in g.edges && g.edges[x].bs in g.nodes
    requires Tree(g, g.edges[x].bs) && DetachCheck(g, x)
    ensures GoodBut(Detached(g, x), pending - {x})
  {
    WithoutWf(g, x);
    var h, n := Without(g, x), g.edges[x].bs;
    assert EdgeOk(g, g.edges[x]);
    WithoutReach(g, x, n);
    WithoutGood(g, x, pending);
    WholeList(h, n);
    SetNodeGood(h, n, {}, pending - {x});
  }

  lemma DetachOutcome(g: Graph, x: nat, pending: set<nat>)
    requires GoodBut(g, pending) && x in g.edges && g.edges[x].bs in g.nodes && Tree(g, g.edges[x].bs)
    ensures DetachCheck(g, x) ==> GoodBut(Detached(g, x), pending - {x})
    ensures !DetachCheck(g, x) ==> !TightIn(g, Reach(g, g.edges[x].bs))
  {
    if DetachCheck(g, x) {
      DetachKeeps(g, x, pending);
    } else if TightIn(g, Reach(g, g.edges[x].bs)) {
      DetachCheckSucceeds(g, x);
    }
  }

  // ---------------------------------------------------------------- the operations

  ghost predicate ParentsOk(g: Graph, parents: map<nat, seq<nat>>) {
    && parents.Keys == g.nodes.Keys
    && forall n :: n in parents ==> ListsParents(g, parents[n], n)
  }

  ghost predicate ListsParents(g: Graph, ps: seq<nat>, n: nat) {
    Distinct(ps) && forall x :: x in ps <==> Points(g, x, n)
  }

  lemma DroppedParents(g: Graph, x: nat, parents: map<nat, seq<nat>>)
    requires ParentsOk(g, parents) && x in g.edges && g.edges[x].bs in parents
    requires g.edges[x].owner.Parent? ==> g.edges[x].owner.node in g.children
    ensures ParentsOk(Without(g, x), parents[g.edges[x].bs := Dropped(parents[g.edges[x].bs], x)])
  {
    var b, h := g.edges[x].bs, Without(g, x);
    assert ListsParents(g, parents[b], b);
    DroppedElements(parents[b], x);
    forall n | n in parents
      ensures ListsParents(h, if n == b then Dropped(parents[b], x) else parents[n], n)
    {
      assert ListsParents(g, parents[n], n);
    }
  }

  lemma AddedParents(g: Graph, x: nat, e: Edge, parents: map<nat, seq<nat>>)
    requires ParentsOk(g, parents) && x !in g.edges && e.bs in parents
    ensures ParentsOk(WithEdge(g, x, e), parents[e.bs := [x] + parents[e.bs]])
  {
    var h := WithEdge(g, x, e);
    assert ListsParents(g, parents[e.bs], e.bs);
    DistinctCons(x, parents[e.bs]);
    forall n | n in parents
      ensures ListsParents(h, if n == e.bs then [x] + parents[e.bs] else parents[n], n)
    {
      assert ListsParents(g, parents[n], n);
    }
  }

  lemma SameParents(g: Graph, h: Graph, parents: map<nat, seq<nat>>)
    requires ParentsOk(g, parents) && g.nodes == h.nodes
    requires forall k, y :: Points(h, y, k) <==> Points(g, y, k)
    ensures ParentsOk(h, parents)
  {
    forall n | n in parents
      ensures ListsParents(h, parents[n], n)
    {
      assert ListsParents(g, parents[n], n);
    }
  }

  class BlockGraph {
    var nodes: map<nat, Node>
    var edges: map<nat, Edge>
    var children: map<nat, seq<nat>>
    var parents: map<nat, seq<nat>>
    ghost var rank: map<nat, nat>

    /** The inner edges whose masks were set by hand. */
    ghost var pending: set<nat>

    ghost function Value(): Graph
      reads this`nodes, this`edges, this`children, this`rank
    {
      Graph(nodes, edges, children, rank)
    }

    ghost predicate Valid()
      reads this`nodes, this`edges, this`children, this`parents, this`rank
    {
      Wf(Value()) && ParentsOk(Value(), parents)
    }

    /** What every operation keeps. */
    ghost predicate Sound()
      reads this
    {
      Valid() && GoodBut(Value(), pending)
    }

    /** Nodes that are not connected yet. */
    constructor (nodes: map<nat, Node>)
      ensures Sound() && pending == {} && edges == map[] && this.nodes == nodes
    {
      this.nodes := nodes;
      this.edges := map[];
      this.children := map n | n in nodes :: [];
      this.parents := map n | n in nodes :: [];
      this.rank := map n | n in nodes :: 0;
      this.pending := {};
    }

    /** bdrv_get_cumulative_perm. */
    method GetCumulativePerm(n: nat) returns (m: Masks)
      requires Valid() && n in nodes
      ensures m == Cumulative(Value(), n)
    {
      m := NOTHING;
      var ps, i := parents[n], 0;
      GatheredNone(Value(), ps, {}, m);
      while i < |ps|
        invariant 0 <= i <= |ps| && Gathered(Value(), ps, i, {}, NOTHING, m)
      {
        var c := ps[i];
        assert c in ps;
        GatheredNext(Value(), ps, i, {}, NOTHING, m);
        m := Masks(m.perm + edges[c].perm, m.shared * edges[c].shared);
        i := i + 1;
      }
      AllSeen(Value(), ps, n, {}, NOTHING, m);
      NothingElse(Value(), n);
    }

    /** The loop of bdrv_check_update_perm: either a conflict with another parent, or the sums
        of the new masks and those of the other parents. */
    method GatherParents(n: nat, m: Masks, ignore: set<nat>) returns (ok: bool, sum: Masks)
      requires Valid() && n in nodes
      ensures ok <==> forall x :: Points(Value(), x, n) && x !in ignore ==> Compatible(edges[x], m)
      ensures ok ==> sum == Masks(m.perm + Perms(Value(), n, ignore), m.shared * Shared(Value(), n, ignore))
    {
      ok, sum := true, m;
      var ps, i := parents[n], 0;
      GatheredNone(Value(), ps, ignore, m);
      while i < |ps|
        invariant 0 <= i <= |ps| && ok && Gathered(Value(), ps, i, ignore, m, sum)
        invariant forall j :: 0 <= j < i && ps[j] !in ignore ==> ps[j] in edges && Compatible(edges[ps[j]], m)
      {
        var c := ps[i];
        assert c in ps;
        GatheredNext(Value(), ps, i, ignore, m, sum);
        if c !in ignore {
          IncludedIffSame(m, edges[c]);
          if m.perm * edges[c].shared != m.perm || edges[c].perm * m.shared != edges[c].perm {
            assert Points(Value(), c, n);
            return false, m;
          }
          sum := Masks(sum.perm + edges[c].perm, sum.shared * edges[c].shared);
        }
        i := i + 1;
      }
      AllSeen(Value(), ps, n, ignore, m, sum);
    }

    /** bdrv_check_update_perm. */
    method CheckUpdatePerm(n: nat, m: Masks, ignore: set<nat>) returns (ok: bool)
      requires Valid() && SharesUnchanged(Value()) && n in nodes && WriteUnchanged in m.shared
      ensures ok <==> CheckUpdate(Value(), n, m, ignore)
      decreases rank[n], 2, 0
    {
      var sum;
      ok, sum := GatherParents(n, m, ignore);
      if ok {
        ok := CheckPerm(n, sum, ignore);
      }
    }

    /** bdrv_check_perm. */
    method CheckPerm(n: nat, m: Masks, ignore: set<nat>) returns (ok: bool)
      requires Valid() && SharesUnchanged(Value()) && n in nodes && WriteUnchanged in m.shared
      ensures ok <==> CheckNode(Value(), n, m, ignore)
      decreases rank[n], 1, 0
    {
      DisjointIffEmpty(m.perm);
      if m.perm * WRITES != {} && !nodes[n].writable {
        return false;
      }
      if nodes[n].policy.Childless? {
        return true;
      }
      ghost var g := Value();
      WholeList(g, n);
      var cs := children[n];
      while cs != []
        invariant EdgesIn(g, n, cs)
        invariant CheckChildren(g, n, children[n], m, ignore) <==> CheckChildren(g, n, cs, m, ignore)
        decreases |cs|
      {
        ChildFacts(g, n, cs);
        var c := cs[0];
        var e := edges[c];
        ChildPermsShareUnchanged(nodes[n], nodes[e.bs], Some(e), e.role, m);
        ok := CheckUpdatePerm(e.bs, ChildPerms(nodes[n], nodes[e.bs], Some(e), e.role, m), ignore + {c});
        if !ok {
          return false;
        }
        cs := cs[1..];
      }
      ok := true;
    }

    /** bdrv_set_perm. */
    method SetPerm(n: nat, m: Masks)
      requires Valid() && n in nodes
      modifies this`edges
      ensures Valid() && Value() == SetNode(old(Value()), n, m)
      decreases rank[n], 1, 0
    {
      if nodes[n].policy.Childless? {
        return;
      }
      ghost var g := Value();
      WholeList(g, n);
      var cs := children[n];
      while cs != []
        invariant Valid() && SameShape(g, Value()) && EdgesIn(Value(), n, cs)
        invariant SetChildren(g, n, children[n], m) == SetChildren(Value(), n, cs, m)
        decreases |cs|
      {
        ChildFacts(Value(), n, cs);
        var c := cs[0];
        var e := edges[c];
        ReachListSame(Value(), SetChild(Value(), c, Wanted(Value(), n, c, m)), n, cs[1..]);
        ChildSetPerm(c, ChildPerms(nodes[n], nodes[e.bs], Some(e), e.role, m));
        cs := cs[1..];
      }
    }

    /** bdrv_child_set_perm. */
    method ChildSetPerm(c: nat, m: Masks)
      requires Valid() && c in edges && edges[c].bs in nodes
      modifies this`edges
      ensures Valid() && Value() == SetChild(old(Value()), c, m) && SameShape(old(Value()), Value())
      decreases rank[edges[c].bs], 2, 0
    {
      ghost var h := WithMasks(Value(), c, m);
      var n := edges[c].bs;
      edges := edges[c := edges[c].(perm := m.perm, shared := m.shared)];
      SameParents(old(Value()), h, parents);
      var sum := GetCumulativePerm(n);
      SetPerm(n, sum);
    }

    method CheckAndSet(c: nat, m: Masks) returns (ok: bool)
      requires Valid() && SharesUnchanged(Value()) && c in edges && edges[c].bs in nodes && WriteUnchanged in m.shared
      modifies this`edges, this`pending
      ensures ok <==> CheckUpdate(old(Value()), old(edges[c].bs), m, {c})
      ensures Valid() && Value() == TrySet(old(Value()), c, m)
      ensures pending == if ok then Loosed(old(Value()), old(pending), c) else old(pending)
    {
      ok := CheckUpdatePerm(edges[c].bs, m, {c});
      if ok {
        pending := Loosed(Value(), pending, c);
        ChildSetPerm(c, m);
      }
    }

    /** bdrv_child_try_set_perm: a failed change changes nothing; a successful one keeps what
        every operation keeps, and an inner edge counts as set by hand from then on. */
    method TrySetPerm(c: nat, m: Masks) returns (ok: bool)
      requires Sound() && c in edges && edges[c].bs in nodes
      requires WriteUnchanged in m.shared && Tree(Value(), edges[c].bs)
      modifies this`edges, this`pending
      ensures Sound() && Value() == TrySet(old(Value()), c, m)
      ensures ok <==> CheckUpdate(old(Value()), old(edges[c].bs), m, {c})
      ensures !ok ==> edges == old(edges)
      ensures pending == if ok then Loosed(old(Value()), old(pending), c) else old(pending)
    {
      ghost var g, before := Value(), pending;
      TrySetKeeps(g, c, m, before);
      ok := CheckAndSet(c, m);
    }

    /** The new edge enters the list of parents. */
    method InsertEdge(x: nat, e: Edge)
      requires Valid() && x !in edges && e.owner.User? && e.bs in nodes
      modifies this`edges, this`parents
      ensures Valid() && Value() == WithEdge(old(Value()), x, e)
    {
      WithEdgeWf(Value(), x, e);
      AddedParents(Value(), x, e, parents);
      edges := edges[x := e];
      parents := parents[e.bs := [x] + parents[e.bs]];
    }

    /** The edge enters the list of children. */
    method Adopt(x: nat, n: nat)
      requires Valid() && x in edges && edges[x].owner.User? && n in nodes && !nodes[n].policy.Childless?
      requires edges[x].bs in rank && rank[edges[x].bs] < rank[n]
      modifies this`edges, this`children
      ensures Valid() && Value() == Adopted(old(Value()), x, n)
    {
      ghost var g := Value();
      AdoptedWf(g, x, n);
      SameParents(g, Adopted(g, x, n), parents);
      edges := edges[x := edges[x].(owner := Parent(n))];
      children := children[n := [x] + children[n]];
      assert Value() == Adopted(g, x, n);
    }

    /** The edge leaves both lists. */
    method RemoveEdge(x: nat)
      requires Valid() && x in edges && edges[x].bs in nodes
      requires edges[x].owner.Parent? ==> edges[x].owner.node in children
      modifies this`edges, this`parents, this`children
      ensures Value() == Without(old(Value()), x) && ParentsOk(Value(), parents)
    {
      DroppedParents(Value(), x, parents);
      var e := edges[x];
      children := ListsWithout(children, e.owner, x);
      parents := parents[e.bs := Dropped(parents[e.bs], x)];
      edges := edges - {x};
    }

    method CheckAndInsert(x: nat, e: Edge) returns (ok: bool)
      requires Valid() && SharesUnchanged(Value()) && x !in edges && e.owner.User? && e.bs in nodes
      requires WriteUnchanged in e.shared
      modifies this`edges, this`parents
      ensures ok <==> CheckUpdate(old(Value()), e.bs, Masks(e.perm, e.shared), {})
      ensures Valid() && Value() == RootAttachResult(old(Value()), x, e)
    {
      ok := CheckUpdatePerm(e.bs, Masks(e.perm, e.shared), {});
      if ok {
        InsertEdge(x, e);
        var sum := GetCumulativePerm(e.bs);
        SetPerm(e.bs, sum);
      }
    }

    /** bdrv_root_attach_child. */
    method RootAttachChild(x: nat, n: nat, role: Role, m: Masks) returns (ok: bool)
      requires Sound() && x !in edges && n in nodes
      requires WriteUnchanged in m.shared && Tree(Value(), n)
      modifies this`edges, this`parents
      ensures Sound() && Value() == RootAttachResult(old(Value()), x, Edge(User, role, n, m.perm, m.shared))
      ensures ok <==> CheckUpdate(old(Value()), n, m, {})
      ensures !ok ==> edges == old(edges)
    {
      var e := Edge(User, role, n, m.perm, m.shared);
      assert Masks(e.perm, e.shared) == m;
      RootAttachResultKeeps(Value(), x, e, pending);
      ok := CheckAndInsert(x, e);
    }

    /** The new edge may reverse an order of nodes that held before. */
    ghost method Reorder(parent: nat, child: nat)
      requires Valid() && parent in nodes && child in nodes
      modifies this`rank
      ensures Valid() && Value() == Ordered(old(Value()), parent, child)
    {
      ghost var h := Ordered(Value(), parent, child);
      SameParents(Value(), h, parents);
      rank := h.rank;
      assert Value() == h;
    }

    method CheckAndAdopt(x: nat, parent: nat, e: Edge) returns (ok: bool)
      requires Valid() && SharesUnchanged(Value()) && x !in edges && e.owner.User? && e.bs in nodes
      requires WriteUnchanged in e.shared && parent in nodes && !nodes[parent].policy.Childless?
      requires parent !in Reach(Value(), e.bs)
      modifies this`edges, this`parents, this`children, this`rank
      ensures ok <==> CheckUpdate(old(Value()), e.bs, Masks(e.perm, e.shared), {})
      ensures Valid()
      ensures Value() == if ok then AttachedTo(old(Value()), x, parent, e) else old(Value())
    {
      AttachOrder(Value(), x, parent, e);
      ok := CheckAndInsert(x, e);
      if ok {
        Reorder(parent, e.bs);
        Adopt(x, parent);
      }
    }

    method AttachByPolicy(x: nat, parent: nat, child: nat, role: Role) returns (ok: bool)
      requires Valid() && SharesUnchanged(Value()) && x !in edges && parent in nodes && child in nodes
      requires !nodes[parent].policy.Childless? && parent !in Reach(Value(), child)
      modifies this`edges, this`parents, this`children, this`rank
      ensures Valid()
      ensures ok <==> CheckUpdate(old(Value()), child, AttachMasks(old(Value()), parent, child, role), {})
      ensures Value() == AttachResult(old(Value()), x, parent, child, role)
    {
      AttachMasksShareUnchanged(Value(), parent, child, role);
      var sum := GetCumulativePerm(parent);
      var m := ChildPerms(nodes[parent], nodes[child], None, role, sum);
      assert m == AttachMasks(Value(), parent, child, role) == Masks(m.perm, m.shared);
      ok := CheckAndAdopt(x, parent, Edge(User, role, child, m.perm, m.shared));
    }

    /** bdrv_attach_child: the masks come from the policy of the parent, and the new edge joins
        the list of its children. */
    method AttachChild(x: nat, parent: nat, child: nat, role: Role) returns (ok: bool)
      requires Sound() && x !in edges && parent in nodes && child in nodes
      requires !nodes[parent].policy.Childless? && parent !in Reach(Value(), child) && Tree(Value(), child)
      modifies this`edges, this`parents, this`children, this`rank
      ensures Sound() && Value() == AttachResult(old(Value()), x, parent, child, role)
      ensures ok <==> CheckUpdate(old(Value()), child, AttachMasks(old(Value()), parent, child, role), {})
      ensures !ok ==> edges == old(edges)
    {
      AttachResultKeeps(Value(), x, parent, child, role, pending);
      ok := AttachByPolicy(x, parent, child, role);
    }

    /** The end of bdrv_replace_child: the node that lost a parent is checked and set again. */
    method Refresh(n: nat) returns (ok: bool)
      requires Valid() && SharesUnchanged(Value()) && n in nodes
      modifies this`edges
      ensures ok <==> CheckNode(old(Value()), n, Cumulative(old(Value()), n), {})
      ensures Valid()
      ensures Value() == if ok then SetNode(old(Value()), n, Cumulative(old(Value()), n)) else old(Value())
    {
      var sum := GetCumulativePerm(n);
      SharedHasUnchanged(Value(), n);
      ok := CheckPerm(n, sum, {});
      if ok {
        SetPerm(n, sum);
      }
    }

    method RemoveAndRefresh(x: nat) returns (ok: bool)
      requires Valid() && SharesUnchanged(Value()) && x in edges && edges[x].bs in nodes
      modifies this`edges, this`parents, this`children
      ensures ok <==> DetachCheck(old(Value()), x)
      ensures ok ==> Valid() && Value() == Detached(old(Value()), x)
    {
      var n := edges[x].bs;
      WithoutWf(Value(), x);
      RemoveEdge(x);
      ok := Refresh(n);
    }

    /** bdrv_detach_child: either the check of the node that loses a parent fails, which aborts
        the program, or what every operation keeps is kept. */
    method DetachChild(x: nat) returns (aborts: bool)
      requires Sound() && x in edges && edges[x].bs in nodes && Tree(Value(), edges[x].bs)
      modifies this`edges, this`parents, this`children, this`pending
      ensures aborts <==> !DetachCheck(old(Value()), x)
      ensures !aborts ==> Sound() && Value() == Detached(old(Value()), x) && pending == old(pending) - {x}
      ensures aborts ==> !TightIn(old(Value()), Reach(old(Value()), old(edges[x].bs)))
    {
      DetachOutcome(Value(), x, pending);
      pending := pending - {x};
      var ok := RemoveAndRefresh(x);
      aborts := !ok;
    }
  }

  /** A permission some of the first i parents take, but for those in `ignore`. */
  ghost predicate SeenPerm(g: Graph, ps: seq<nat>, i: nat, ignore: set<nat>, p: Perm)
    requires i <= |ps|
  {
    exists j :: 0 <= j < i && ps[j] in g.edges && ps[j] !in ignore && p in g.edges[ps[j]].perm
  }

  /** A permission all of them share. */
  ghost predicate SeenShared(g: Graph, ps: seq<nat>, i: nat, ignore: set<nat>, p: Perm)
    requires i <= |ps|
  {
    forall j :: 0 <= j < i && ps[j] in g.edges && ps[j] !in ignore ==> p in g.edges[ps[j]].shared
  }

  /** The masks m and those of the first i parents together. */
  ghost predicate Gathered(g: Graph, ps: seq<nat>, i: nat, ignore: set<nat>, m: Masks, sum: Masks)
    requires i <= |ps|
  {
    && (forall p: Perm :: p in sum.perm <==> p in m.perm || SeenPerm(g, ps, i, ignore, p))
    && (forall p: Perm :: p in sum.shared <==> p in m.shared && SeenShared(g, ps, i, ignore, p))
  }

  lemma GatheredNone(g: Graph, ps: seq<nat>, ignore: set<nat>, m: Masks)
    ensures Gathered(g, ps, 0, ignore, m, m)
  {
  }

  lemma SeenNext(g: Graph, ps: seq<nat>, i: nat, ignore: set<nat>, p: Perm)
    requires i < |ps| && ps[i] in g.edges
    ensures SeenPerm(g, ps, i + 1, ignore, p)
       <==> SeenPerm(g, ps, i, ignore, p) || (ps[i] !in ignore && p in g.edges[ps[i]].perm)
    ensures SeenShared(g, ps, i + 1, ignore, p)
       <==> SeenShared(g, ps, i, ignore, p) && (ps[i] !in ignore ==> p in g.edges[ps[i]].shared)
  {
    if ps[i] !in ignore && p in g.edges[ps[i]].perm {
      assert SeenPerm(g, ps, i + 1, ignore, p);
    }
  }

  lemma GatheredNext(g: Graph, ps: seq<nat>, i: nat, ignore: set<nat>, m: Masks, sum: Masks)
    requires i < |ps| && ps[i] in g.edges && Gathered(g, ps, i, ignore, m, sum)
    ensures var e := g.edges[ps[i]];
            Gathered(g, ps, i + 1, ignore, m,
                     if ps[i] in ignore then sum else Masks(sum.perm + e.perm, sum.shared * e.shared))
  {
    forall p: Perm
      ensures SeenPerm(g, ps, i + 1, ignore, p)
         <==> SeenPerm(g, ps, i, ignore, p) || (ps[i] !in ignore && p in g.edges[ps[i]].perm)
      ensures SeenShared(g, ps, i + 1, ignore, p)
         <==> SeenShared(g, ps, i, ignore, p) && (ps[i] !in ignore ==> p in g.edges[ps[i]].shared)
    {
      SeenNext(g, ps, i, ignore, p);
    }
  }

  lemma IncludedIffSame(m: Masks, e: Edge)
    ensures Compatible(e, m) <==> m.perm * e.shared == m.perm && e.perm * m.shared == e.perm
  {
    assert m.perm * e.shared == m.perm <==> m.perm <= e.shared;
    assert e.perm * m.shared == e.perm <==> e.perm <= m.shared;
  }

  /** After all parents, the sums are those of the node. */
  lemma AllSeen(g: Graph, ps: seq<nat>, n: nat, ignore: set<nat>, m: Masks, sum: Masks)
    requires forall x :: x in ps <==> Points(g, x, n)
    requires Gathered(g, ps, |ps|, ignore, m, sum)
    ensures sum == Masks(m.perm + Perms(g, n, ignore), m.shared * Shared(g, n, ignore))
  {
    forall p: Perm
      ensures SeenPerm(g, ps, |ps|, ignore, p) <==> p in Perms(g, n, ignore)
      ensures SeenShared(g, ps, |ps|, ignore, p) <==> p in Shared(g, n, ignore)
    {
      InAll(p);
      SeenIsSum(g, ps, n, ignore, p);
    }
  }

  lemma SeenIsSum(g: Graph, ps: seq<nat>, n: nat, ignore: set<nat>, p: Perm)
    requires p in ALL && forall x :: x in ps <==> Points(g, x, n)
    ensures SeenPerm(g, ps, |ps|, ignore, p) <==> p in Perms(g, n, ignore)
    ensures SeenShared(g, ps, |ps|, ignore, p) <==> p in Shared(g, n, ignore)
  {
    if SeenPerm(g, ps, |ps|, ignore, p) {
      var j :| 0 <= j < |ps| && ps[j] in g.edges && ps[j] !in ignore && p in g.edges[ps[j]].perm;
      assert ps[j] in ps;
    }
    if p in Perms(g, n, ignore) {
      var x :| Points(g, x, n) && x !in ignore && p in g.edges[x].perm;
      assert x in ps;
    }
    if SeenShared(g, ps, |ps|, ignore, p) {
      forall x | Points(g, x, n) && x !in ignore
        ensures p in g.edges[x].shared
      {
        assert x in ps;
      }
    }
    if p in Shared(g, n, ignore) {
      forall j | 0 <= j < |ps| && ps[j] in g.edges && ps[j] !in ignore
        ensures p in g.edges[ps[j]].shared
      {
        assert ps[j] in ps;
      }
    }
  }
}
