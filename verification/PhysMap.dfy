/** The multi-level physical page map of exec.c: lookup, in-place range insertion
and in-place path compaction.

P_L2_SIZE is the symbolic fan-out b and P_L2_LEVELS the symbolic number of levels;
shifts and masks by P_L2_BITS are division and remainder by powers of b.  The
pointer parameter `lp` of the source is an entry passed in and handed back, which
its caller stores where the pointer pointed. */
module PhysMap {
  import opened Radix

  const PHYS_MAP_NODE_NIL := 0x3ff_ffff
  const PHYS_SECTION_UNASSIGNED := 0

  /** skip == 0: ptr is a section number.  Otherwise ptr is a node, or NIL. */
  datatype Entry = Entry(skip: nat, ptr: nat)

  type Node = seq<Entry>

  /** What a call that may fail an assertion comes to. */
  datatype Outcome<+T> = Done(value: T) | Aborted {
    predicate IsFailure() {
      Aborted?
    }

    function PropagateFailure<U>(): Outcome<U>
      requires Aborted?
    {
      Aborted
    }

    function Extract(): T
      requires Done?
    {
      value
    }
  }

  /** Where a node sits: its level, and the first page it is responsible for. */
  datatype Pos = Pos(level: nat, base: nat)

  // ---------------------------------------------------------------- lookup

  function Slot(nodes: seq<Node>, n: nat, j: nat): Entry {
    if n < |nodes| && j < |nodes[n]| then nodes[n][j] else Entry(0, PHYS_SECTION_UNASSIGNED)
  }

  /** The section number phys_page_find reaches from entry e, h levels above the pages. */
  function Find(b: nat, nodes: seq<Node>, e: Entry, h: nat, page: nat): nat
    requires b > 0
    decreases h
  {
    if e.skip == 0 || h < e.skip then e.ptr
    else if e.ptr == PHYS_MAP_NODE_NIL then PHYS_SECTION_UNASSIGNED
    else Find(b, nodes, Slot(nodes, e.ptr, Digit(b, h - e.skip, page)), h - e.skip, page)
  }

  // ---------------------------------------------------------------- well-formed trees

  /** The pages of the node lie within the pages of an entry of height h based at lo. */
  predicate Within(b: nat, q: Pos, h: nat, lo: nat) {
    lo <= q.base && q.base + Pow(b, q.level + 1) <= lo + Pow(b, h)
  }

  /** The pages of the node at q lie within slot j of the node at r. */
  predicate InSlot(b: nat, q: Pos, r: Pos, j: nat) {
    Within(b, q, r.level, SlotBase(b, r, j))
  }

  function SlotBase(b: nat, r: Pos, j: nat): nat {
    r.base + j * Pow(b, r.level)
  }

  /** Entry e may stand for the pages [lo, lo + b^h). */
  ghost predicate EntryOk(b: nat, pos: seq<Pos>, e: Entry, h: nat, lo: nat) {
    if e.skip == 0 then e.ptr < PHYS_MAP_NODE_NIL && (h > 0 ==> e.ptr != PHYS_SECTION_UNASSIGNED)
    else && e.skip <= h
         && (e.ptr != PHYS_MAP_NODE_NIL ==>
               e.ptr < |pos| && pos[e.ptr].level == h - e.skip && Within(b, pos[e.ptr], h, lo))
  }

  ghost predicate NodeOk(b: nat, pos: seq<Pos>, node: Node, q: Pos) {
    && |node| == b > 0
    && q.base % Pow(b, q.level + 1) == 0
    && forall j :: 0 <= j < b ==> EntryOk(b, pos, node[j], q.level, SlotBase(b, q, j))
  }

  ghost predicate Shape(b: nat, nodes: seq<Node>, pos: seq<Pos>) {
    && b >= 2
    && |pos| == |nodes| <= PHYS_MAP_NODE_NIL
    && forall n :: 0 <= n < |nodes| ==> NodeOk(b, pos, nodes[n], pos[n])
  }

  /** Before compaction no entry skips more than one level. */
  ghost predicate Plain(nodes: seq<Node>) {
    forall n, j :: 0 <= n < |nodes| && 0 <= j < |nodes[n]| ==> nodes[n][j].skip <= 1
  }

  /** Every leaf in the tree is one of `leaves`. */
  ghost predicate LeavesIn(nodes: seq<Node>, leaves: set<nat>) {
    && PHYS_SECTION_UNASSIGNED in leaves
    && forall n, j :: 0 <= n < |nodes| && 0 <= j < |nodes[n]| ==> EntryIn(nodes[n][j], leaves)
  }

  predicate EntryIn(e: Entry, leaves: set<nat>) {
    e.skip == 0 ==> e.ptr in leaves
  }

  lemma {:induction false} FindIn(b: nat, pos: seq<Pos>, nodes: seq<Node>, leaves: set<nat>, e: Entry, h: nat,
                                  lo: nat, page: nat)
    requires Shape(b, nodes, pos) && EntryOk(b, pos, e, h, lo) && LeavesIn(nodes, leaves) && EntryIn(e, leaves)
    ensures Find(b, nodes, e, h, page) in leaves
    decreases h
  {
    if e.skip != 0 && e.ptr != PHYS_MAP_NODE_NIL {
      var q := pos[e.ptr];
      var j := Digit(b, q.level, page);
      assert NodeOk(b, pos, nodes[e.ptr], q);
      assert EntryIn(nodes[e.ptr][j], leaves);
      FindIn(b, pos, nodes, leaves, nodes[e.ptr][j], q.level, SlotBase(b, q, j), page);
    }
  }

  lemma StoreLeavesIn(nodes: seq<Node>, leaves: set<nat>, n: nat, j: nat, e: Entry)
    requires LeavesIn(nodes, leaves) && EntryIn(e, leaves) && n < |nodes| && j < |nodes[n]|
    ensures LeavesIn(nodes[n := nodes[n][j := e]], leaves)
  {
  }

  lemma WithinTrans(b: nat, q: Pos, r: Pos, j: nat, h: nat, lo: nat)
    requires b > 0 && j < b
    requires InSlot(b, q, r, j) && Within(b, r, h, lo)
    ensures Within(b, q, h, lo)
  {
    SlotBounds(b, r.level, j);
  }

  /** A lookup only visits nodes within the pages of the entry it starts from. */
  lemma {:induction false} FindFrame(b: nat, nodes: seq<Node>, pos: seq<Pos>, nodes': seq<Node>,
                                     e: Entry, h: nat, lo: nat, page: nat)
    requires Shape(b, nodes, pos) && EntryOk(b, pos, e, h, lo) && |nodes| <= |nodes'|
    requires forall n :: 0 <= n < |nodes| && Within(b, pos[n], h, lo) ==> nodes'[n] == nodes[n]
    ensures Find(b, nodes', e, h, page) == Find(b, nodes, e, h, page)
    decreases h
  {
    if e.skip != 0 && e.ptr != PHYS_MAP_NODE_NIL {
      var q := pos[e.ptr];
      var j := Digit(b, q.level, page);
      var lo' := SlotBase(b, q, j);
      assert NodeOk(b, pos, nodes[e.ptr], q);
      forall n | 0 <= n < |nodes| && Within(b, pos[n], q.level, lo')
        ensures nodes'[n] == nodes[n]
      {
        WithinTrans(b, pos[n], q, j, h, lo);
      }
      FindFrame(b, nodes, pos, nodes', nodes[e.ptr][j], q.level, lo', page);
    }
  }

  lemma SlotRangesDisjoint(b: nat, r: Pos, i: nat, j: nat)
    requires b > 0 && i < b && j < b && i != j
    ensures || SlotBase(b, r, i) + Pow(b, r.level) <= SlotBase(b, r, j)
            || SlotBase(b, r, j) + Pow(b, r.level) <= SlotBase(b, r, i)
  {
    SlotBounds(b, r.level, i);
    SlotBounds(b, r.level, j);
    if i < j {
      MulOrder(i + 1, j, Pow(b, r.level));
    } else {
      MulOrder(j + 1, i, Pow(b, r.level));
    }
  }

  lemma SlotsDisjoint(b: nat, q: Pos, r: Pos, i: nat, j: nat)
    requires b > 0 && i < b && j < b && i != j
    requires InSlot(b, q, r, i)
    ensures !InSlot(b, q, r, j)
  {
    SlotRangesDisjoint(b, r, i, j);
  }

  lemma NodeNotInSlot(b: nat, q: Pos, j: nat)
    requires b >= 2 && j < b
    ensures !InSlot(b, q, q, j)
  {
    MulOrder(2, b, Pow(b, q.level));
  }

  // ---------------------------------------------------------------- compaction

  /** The second tree answers as the first does, except perhaps on unassigned pages. */
  ghost predicate Refines(b: nat, nodes': seq<Node>, e': Entry, nodes: seq<Node>, e: Entry, h: nat)
    requires b > 0
  {
    forall page: nat :: Find(b, nodes, e, h, page) in
      {Find(b, nodes', e', h, page), PHYS_SECTION_UNASSIGNED}
  }

  /** How many of the first i slots are in use. */
  function Used(node: Node, i: nat): nat
    requires i <= |node|
  {
    if i == 0 then 0 else Used(node, i - 1) + if node[i - 1].ptr == PHYS_MAP_NODE_NIL then 0 else 1
  }

  lemma {:induction false} UsedOnce(node: Node, i: nat, v: nat)
    requires i <= |node| && v < i && node[v].ptr != PHYS_MAP_NODE_NIL
    ensures Used(node, i) >= 1
    ensures Used(node, i) == 1 ==> forall j :: 0 <= j < i && j != v ==> node[j].ptr == PHYS_MAP_NODE_NIL
  {
    if v < i - 1 {
      UsedOnce(node, i - 1, v);
    } else {
      UsedNone(node, i - 1);
    }
  }

  lemma {:induction false} UsedNone(node: Node, i: nat)
    requires i <= |node|
    ensures Used(node, i) == 0 ==> forall j :: 0 <= j < i ==> node[j].ptr == PHYS_MAP_NODE_NIL
  {
    if i > 0 {
      UsedNone(node, i - 1);
    }
  }

  lemma {:induction false} UsedSame(node: Node, node': Node, i: nat)
    requires i <= |node| && i <= |node'|
    requires forall j :: 0 <= j < i ==> (node[j].ptr == PHYS_MAP_NODE_NIL <==> node'[j].ptr == PHYS_MAP_NODE_NIL)
    ensures Used(node, i) == Used(node', i)
  {
    if i > 0 {
      UsedSame(node, node', i - 1);
    }
  }

  /** Nothing left to compress at e: its node has several children, or the only
      one cannot be skipped to within the bits there are. */
  ghost predicate Tight(nodes: seq<Node>, e: Entry) {
    e.skip > 0 && e.ptr < |nodes| && Used(nodes[e.ptr], |nodes[e.ptr]|) == 1 ==>
      forall v :: 0 <= v < |nodes[e.ptr]| && nodes[e.ptr][v].ptr != PHYS_MAP_NODE_NIL ==>
        e.skip + nodes[e.ptr][v].skip >= 8
  }

  /** What compacting entry e may change. */
  ghost predicate Compacted(b: nat, pos: seq<Pos>, nodes: seq<Node>, e: Entry, nodes': seq<Node>, e': Entry, h: nat,
                            lo: nat)
  {
    && |nodes'| == |nodes| && Shape(b, nodes', pos) && EntryOk(b, pos, e', h, lo)
    && Refines(b, nodes', e', nodes, e, h)
    && Tight(nodes', e')
    && (e'.ptr == PHYS_MAP_NODE_NIL <==> e.ptr == PHYS_MAP_NODE_NIL)
    && forall n :: 0 <= n < |nodes| && !Within(b, pos[n], h, lo) ==> nodes'[n] == nodes[n]
  }

  ghost predicate SlotsRefine(b: nat, level: nat, nodes0: seq<Node>, nodes: seq<Node>, n: nat, i: nat)
    requires b > 0
  {
    forall j :: 0 <= j < i ==>
      && Refines(b, nodes, Slot(nodes, n, j), nodes0, Slot(nodes0, n, j), level)
      && (Slot(nodes, n, j).ptr == PHYS_MAP_NODE_NIL <==> Slot(nodes0, n, j).ptr == PHYS_MAP_NODE_NIL)
  }

  ghost predicate SlotsTight(nodes: seq<Node>, n: nat, i: nat) {
    forall j :: 0 <= j < i ==> Tight(nodes, Slot(nodes, n, j))
  }

  /** Slots i.. of node n and everything below them are as they were. */
  ghost predicate SlotsKept(b: nat, pos: seq<Pos>, nodes0: seq<Node>, nodes: seq<Node>, n: nat, i: nat)
    requires |pos| == |nodes0| <= |nodes| && n < |pos|
  {
    && (forall j :: i <= j < b ==> Slot(nodes, n, j) == Slot(nodes0, n, j))
    && (forall j, m :: i <= j < b && 0 <= m < |nodes0| && InSlot(b, pos[m], pos[n], j) ==> nodes[m] == nodes0[m])
  }

  /** Only nodes below node n, and node n itself, have changed. */
  ghost predicate OutsideKept(b: nat, pos: seq<Pos>, nodes0: seq<Node>, nodes: seq<Node>, n: nat)
    requires |pos| == |nodes0| <= |nodes| && n < |pos|
  {
    forall m :: 0 <= m < |nodes0| && !Within(b, pos[m], pos[n].level + 1, pos[n].base) ==> nodes[m] == nodes0[m]
  }

  /** Slots 0..i of node n are compacted, the others are as they were. */
  ghost predicate CompactedUpTo(b: nat, pos: seq<Pos>, nodes0: seq<Node>, nodes: seq<Node>, n: nat, i: nat)
  {
    && b > 0 && |pos| == |nodes0| == |nodes| && n < |pos| && Shape(b, nodes, pos)
    && SlotsRefine(b, pos[n].level, nodes0, nodes, n, i) && SlotsTight(nodes, n, i)
    && SlotsKept(b, pos, nodes0, nodes, n, i)
    && OutsideKept(b, pos, nodes0, nodes, n)
  }

  /** What changes is in slot i of node n and below it, and nowhere else. */
  ghost predicate SlotChange(b: nat, pos: seq<Pos>, nodes: seq<Node>, nodes': seq<Node>, n: nat, i: nat)
    requires |pos| == |nodes| <= |nodes'| && n < |pos|
  {
    && (forall m :: 0 <= m < |nodes| && m != n && !InSlot(b, pos[m], pos[n], i) ==> nodes'[m] == nodes[m])
    && (forall j :: 0 <= j < b && j != i ==> Slot(nodes', n, j) == Slot(nodes, n, j))
  }

  lemma StoreKeepsShape(b: nat, nodes: seq<Node>, pos: seq<Pos>, n: nat, i: nat, e: Entry)
    requires Shape(b, nodes, pos) && n < |nodes| && i < b
    requires EntryOk(b, pos, e, pos[n].level, SlotBase(b, pos[n], i))
    ensures Shape(b, nodes[n := nodes[n][i := e]], pos)
  {
  }

  /** Changing one slot of a node, and nodes below it, leaves the other slots' lookups alone. */
  lemma OtherSlotFrame(b: nat, nodes: seq<Node>, pos: seq<Pos>, nodes': seq<Node>, n: nat, i: nat, j: nat, page: nat)
    requires Shape(b, nodes, pos) && |nodes| <= |nodes'| && n < |nodes| && i < b && j < b && i != j
    requires SlotChange(b, pos, nodes, nodes', n, i)
    ensures Find(b, nodes', nodes[n][j], pos[n].level, page) == Find(b, nodes, nodes[n][j], pos[n].level, page)
  {
    var q := pos[n];
    var lo := SlotBase(b, q, j);
    assert NodeOk(b, pos, nodes[n], q);
    NodeNotInSlot(b, q, j);
    forall m | 0 <= m < |nodes| && Within(b, pos[m], q.level, lo)
      ensures nodes'[m] == nodes[m]
    {
      SlotsDisjoint(b, pos[m], q, j, i);
    }
    FindFrame(b, nodes, pos, nodes', nodes[n][j], q.level, lo, page);
  }

  lemma SlotChangeKeeps(b: nat, pos: seq<Pos>, nodes0: seq<Node>, nodes: seq<Node>, next: seq<Node>, n: nat, i: nat)
    requires b >= 2 && |pos| == |nodes0| == |nodes| <= |next| && n < |pos| && i < b
    requires SlotChange(b, pos, nodes, next, n, i)
    requires SlotsKept(b, pos, nodes0, nodes, n, i) && OutsideKept(b, pos, nodes0, nodes, n)
    ensures SlotsKept(b, pos, nodes0, next, n, i + 1) && OutsideKept(b, pos, nodes0, next, n)
  {
    var q := pos[n];
    forall j, m | i < j < b && 0 <= m < |nodes0| && InSlot(b, pos[m], q, j)
      ensures next[m] == nodes0[m]
    {
      NodeNotInSlot(b, q, j);
      SlotsDisjoint(b, pos[m], q, j, i);
    }
    forall m | 0 <= m < |nodes0| && !Within(b, pos[m], q.level + 1, q.base)
      ensures next[m] == nodes0[m]
    {
      if InSlot(b, pos[m], q, i) {
        WithinTrans(b, pos[m], q, i, q.level + 1, q.base);
      }
    }
  }

  /** A slot not yet reached answers as it did at the start. */
  lemma KeptSlotFind(b: nat, pos: seq<Pos>, nodes0: seq<Node>, nodes: seq<Node>, n: nat, i: nat, page: nat)
    requires Shape(b, nodes0, pos) && |nodes0| <= |nodes| && n < |pos| && i < b
    requires SlotsKept(b, pos, nodes0, nodes, n, i)
    ensures Find(b, nodes, Slot(nodes, n, i), pos[n].level, page)
         == Find(b, nodes0, Slot(nodes0, n, i), pos[n].level, page)
  {
    var q := pos[n];
    assert NodeOk(b, pos, nodes0[n], q);
    forall m | 0 <= m < |nodes0| && Within(b, pos[m], q.level, SlotBase(b, q, i))
      ensures nodes[m] == nodes0[m]
    {
      assert InSlot(b, pos[m], q, i);
    }
    FindFrame(b, nodes0, pos, nodes, nodes0[n][i], q.level, SlotBase(b, q, i), page);
  }

  lemma EntryNodeKept(b: nat, pos: seq<Pos>, nodes: seq<Node>, next: seq<Node>, n: nat, i: nat, j: nat)
    requires Shape(b, nodes, pos) && |nodes| <= |next| && n < |pos| && i < b && j < b && i != j
    requires SlotChange(b, pos, nodes, next, n, i)
    ensures var e := Slot(nodes, n, j);
            e.skip > 0 && e.ptr != PHYS_MAP_NODE_NIL ==> e.ptr < |nodes| && next[e.ptr] == nodes[e.ptr]
  {
    assert NodeOk(b, pos, nodes[n], pos[n]);
    var e := Slot(nodes, n, j);
    NodeNotInSlot(b, pos[n], j);
    if e.skip > 0 && e.ptr != PHYS_MAP_NODE_NIL {
      assert InSlot(b, pos[e.ptr], pos[n], j);
      SlotsDisjoint(b, pos[e.ptr], pos[n], j, i);
    }
  }

  lemma EarlierSlotsTight(b: nat, pos: seq<Pos>, nodes: seq<Node>, next: seq<Node>, n: nat, i: nat)
    requires Shape(b, nodes, pos) && |nodes| == |next| && n < |pos| && i < b
    requires SlotsTight(nodes, n, i)
    requires SlotChange(b, pos, nodes, next, n, i)
    ensures SlotsTight(next, n, i)
  {
    forall j | 0 <= j < i
      ensures Tight(next, Slot(next, n, j))
    {
      EntryNodeKept(b, pos, nodes, next, n, i, j);
      assert Tight(nodes, Slot(nodes, n, j));
    }
  }

  lemma EarlierSlotsRefine(b: nat, pos: seq<Pos>, nodes0: seq<Node>, nodes: seq<Node>, next: seq<Node>, n: nat, i: nat)
    requires Shape(b, nodes, pos) && |nodes| <= |next| && n < |pos| && i < b
    requires SlotsRefine(b, pos[n].level, nodes0, nodes, n, i)
    requires SlotChange(b, pos, nodes, next, n, i)
    ensures SlotsRefine(b, pos[n].level, nodes0, next, n, i)
  {
    assert NodeOk(b, pos, nodes[n], pos[n]);
    forall j | 0 <= j < i
      ensures Refines(b, next, Slot(next, n, j), nodes0, Slot(nodes0, n, j), pos[n].level)
    {
      assert Refines(b, nodes, Slot(nodes, n, j), nodes0, Slot(nodes0, n, j), pos[n].level);
      forall page: nat
        ensures Find(b, next, Slot(next, n, j), pos[n].level, page)
             == Find(b, nodes, Slot(nodes, n, j), pos[n].level, page)
      {
        OtherSlotFrame(b, nodes, pos, next, n, i, j, page);
      }
    }
  }

  lemma CompactedEntryTight(b: nat, pos: seq<Pos>, nodes': seq<Node>, next: seq<Node>, n: nat, i: nat, e': Entry)
    requires b >= 2 && |pos| == |nodes'| == |next| <= PHYS_MAP_NODE_NIL && n < |pos| && i < b
    requires forall m :: 0 <= m < |nodes'| && m != n ==> next[m] == nodes'[m]
    requires EntryOk(b, pos, e', pos[n].level, SlotBase(b, pos[n], i)) && Tight(nodes', e')
    ensures Tight(next, e')
  {
    NodeNotInSlot(b, pos[n], i);
  }

  /** One turn of the loop of phys_page_compact that recurses. */
  lemma CompactSlot(b: nat, pos: seq<Pos>, nodes0: seq<Node>, nodes: seq<Node>, nodes': seq<Node>, n: nat, i: nat,
                    e': Entry)
    requires Shape(b, nodes0, pos) && n < |nodes0| && i < b
    requires CompactedUpTo(b, pos, nodes0, nodes, n, i)
    requires Compacted(b, pos, nodes, Slot(nodes, n, i), nodes', e', pos[n].level, SlotBase(b, pos[n], i))
    ensures nodes'[n] == nodes[n] && |nodes[n]| == b
    ensures CompactedUpTo(b, pos, nodes0, nodes'[n := nodes'[n][i := e']], n, i + 1)
  {
    var q := pos[n];
    NodeNotInSlot(b, q, i);
    assert NodeOk(b, pos, nodes[n], q);
    var next := nodes'[n := nodes'[n][i := e']];
    StoreKeepsShape(b, nodes', pos, n, i, e');
    EarlierSlotsRefine(b, pos, nodes0, nodes, next, n, i);
    EarlierSlotsTight(b, pos, nodes, next, n, i);
    CompactedEntryTight(b, pos, nodes', next, n, i, e');
    SlotChangeKeeps(b, pos, nodes0, nodes, next, n, i);
    forall page: nat
      ensures Find(b, nodes0, Slot(nodes0, n, i), q.level, page)
           in {Find(b, next, e', q.level, page), PHYS_SECTION_UNASSIGNED}
    {
      FindFrame(b, nodes', pos, next, e', q.level, SlotBase(b, q, i), page);
      KeptSlotFind(b, pos, nodes0, nodes, n, i, page);
      assert Find(b, nodes, Slot(nodes, n, i), q.level, page)
          in {Find(b, nodes', e', q.level, page), PHYS_SECTION_UNASSIGNED};
    }
    assert Refines(b, next, Slot(next, n, i), nodes0, Slot(nodes0, n, i), q.level);
  }

  /** A turn of the loop that does not recurse. */
  lemma SkipSlot(b: nat, pos: seq<Pos>, nodes0: seq<Node>, nodes: seq<Node>, n: nat, i: nat)
    requires Shape(b, nodes0, pos) && n < |nodes0| && i < b
    requires CompactedUpTo(b, pos, nodes0, nodes, n, i)
    requires Slot(nodes, n, i).skip == 0 || Slot(nodes, n, i).ptr == PHYS_MAP_NODE_NIL
    ensures CompactedUpTo(b, pos, nodes0, nodes, n, i + 1)
  {
    forall page: nat
      ensures Find(b, nodes0, Slot(nodes0, n, i), pos[n].level, page)
           in {Find(b, nodes, Slot(nodes, n, i), pos[n].level, page), PHYS_SECTION_UNASSIGNED}
    {
      KeptSlotFind(b, pos, nodes0, nodes, n, i, page);
    }
    assert Refines(b, nodes, Slot(nodes, n, i), nodes0, Slot(nodes0, n, i), pos[n].level);
  }

  /** The node behind e is compacted: e itself may stay as it is. */
  lemma CompactedNode(b: nat, pos: seq<Pos>, nodes0: seq<Node>, nodes: seq<Node>, e: Entry, h: nat, lo: nat)
    requires Shape(b, nodes0, pos) && EntryOk(b, pos, e, h, lo) && e.skip > 0 && e.ptr != PHYS_MAP_NODE_NIL
    requires CompactedUpTo(b, pos, nodes0, nodes, e.ptr, b)
    ensures Refines(b, nodes, e, nodes0, e, h)
    ensures forall n :: 0 <= n < |nodes| && !Within(b, pos[n], h, lo) ==> nodes[n] == nodes0[n]
  {
    var q := pos[e.ptr];
    forall page: nat
      ensures Find(b, nodes0, e, h, page) in {Find(b, nodes, e, h, page), PHYS_SECTION_UNASSIGNED}
    {
      var j := Digit(b, q.level, page);
      assert NodeOk(b, pos, nodes0[e.ptr], q) && NodeOk(b, pos, nodes[e.ptr], q);
      assert Refines(b, nodes, Slot(nodes, e.ptr, j), nodes0, Slot(nodes0, e.ptr, j), q.level);
    }
    forall n | 0 <= n < |nodes| && !Within(b, pos[n], h, lo)
      ensures nodes[n] == nodes0[n]
    {
      assert !Within(b, pos[n], q.level + 1, q.base);
    }
  }

  /** The entry that skips over a node with a single child. */
  function Merged(e: Entry, child: Entry): Entry {
    if child.skip == 0 then Entry(0, child.ptr) else Entry(e.skip + child.skip, child.ptr)
  }

  lemma MergeRefines(b: nat, pos: seq<Pos>, nodes: seq<Node>, e: Entry, h: nat, lo: nat, v: nat)
    requires Shape(b, nodes, pos) && EntryOk(b, pos, e, h, lo) && e.skip > 0 && e.ptr != PHYS_MAP_NODE_NIL
    requires |nodes[e.ptr]| == b && v < b && nodes[e.ptr][v].ptr != PHYS_MAP_NODE_NIL && Tight(nodes, nodes[e.ptr][v])
    requires forall j :: 0 <= j < b && j != v ==> nodes[e.ptr][j].ptr == PHYS_MAP_NODE_NIL
    ensures var e' := Merged(e, nodes[e.ptr][v]);
            && EntryOk(b, pos, e', h, lo) && Refines(b, nodes, e', nodes, e, h)
            && e'.ptr != PHYS_MAP_NODE_NIL && Tight(nodes, e')
  {
    var q := pos[e.ptr];
    var child := nodes[e.ptr][v];
    var e' := Merged(e, child);
    assert NodeOk(b, pos, nodes[e.ptr], q);
    if child.skip > 0 {
      WithinTrans(b, pos[child.ptr], q, v, h, lo);
    }
    var w := if v == 0 then 1 else 0;
    assert EntryOk(b, pos, nodes[e.ptr][w], q.level, SlotBase(b, q, w));
    forall page: nat
      ensures Find(b, nodes, e, h, page) in {Find(b, nodes, e', h, page), PHYS_SECTION_UNASSIGNED}
    {
      var j := Digit(b, q.level, page);
      assert EntryOk(b, pos, nodes[e.ptr][j], q.level, SlotBase(b, q, j));
      if j == v {
        assert Find(b, nodes, e, h, page) == Find(b, nodes, child, q.level, page);
      }
    }
  }

  lemma RefinesTrans(b: nat, nodes0: seq<Node>, nodes: seq<Node>, e: Entry, e': Entry, h: nat)
    requires b > 0 && Refines(b, nodes, e, nodes0, e, h) && Refines(b, nodes, e', nodes, e, h)
    ensures Refines(b, nodes, e', nodes0, e, h)
  {
    forall page: nat
      ensures Find(b, nodes0, e, h, page) in {Find(b, nodes, e', h, page), PHYS_SECTION_UNASSIGNED}
    {
      assert Find(b, nodes, e, h, page) in {Find(b, nodes, e', h, page), PHYS_SECTION_UNASSIGNED};
    }
  }

  /** After the loop: the merged entry, if there is exactly one child it can skip to,
      and otherwise the entry as it was, is the compacted one. */
  lemma CompactionEnds(b: nat, pos: seq<Pos>, nodes0: seq<Node>, nodes: seq<Node>, e: Entry, h: nat, lo: nat, v: nat)
    requires Shape(b, nodes0, pos) && EntryOk(b, pos, e, h, lo) && e.skip > 0 && e.ptr != PHYS_MAP_NODE_NIL
    requires CompactedUpTo(b, pos, nodes0, nodes, e.ptr, b)
    requires |nodes0[e.ptr]| == |nodes[e.ptr]| == b
    requires Used(nodes0[e.ptr], b) > 0 ==> v < b && nodes0[e.ptr][v].ptr != PHYS_MAP_NODE_NIL
    ensures Compacted(b, pos, nodes0, e, nodes,
                      if Used(nodes0[e.ptr], b) == 1 && e.skip + nodes[e.ptr][v].skip < 8
                      then Merged(e, nodes[e.ptr][v]) else e, h, lo)
  {
    var n := e.ptr;
    forall j | 0 <= j < b
      ensures nodes[n][j].ptr == PHYS_MAP_NODE_NIL <==> nodes0[n][j].ptr == PHYS_MAP_NODE_NIL
    {
      assert Slot(nodes, n, j).ptr == PHYS_MAP_NODE_NIL <==> Slot(nodes0, n, j).ptr == PHYS_MAP_NODE_NIL;
    }
    UsedSame(nodes0[n], nodes[n], b);
    CompactedNode(b, pos, nodes0, nodes, e, h, lo);
    if Used(nodes0[n], b) == 1 {
      UsedOnce(nodes[n], b, v);
      if e.skip + nodes[n][v].skip < 8 {
        assert Tight(nodes, Slot(nodes, n, v));
        MergeRefines(b, pos, nodes, e, h, lo, v);
        RefinesTrans(b, nodes0, nodes, e, Merged(e, nodes[n][v]), h);
      }
    }
  }

  lemma CompactionStarts(b: nat, pos: seq<Pos>, nodes: seq<Node>, n: nat)
    requires Shape(b, nodes, pos) && n < |nodes|
    ensures |nodes[n]| == b && CompactedUpTo(b, pos, nodes, nodes, n, 0)
  {
    assert NodeOk(b, pos, nodes[n], pos[n]);
  }

  lemma NextSlot(b: nat, pos: seq<Pos>, nodes0: seq<Node>, nodes: seq<Node>, n: nat, i: nat)
    requires Shape(b, nodes0, pos) && n < |nodes0| && i <= b && CompactedUpTo(b, pos, nodes0, nodes, n, i)
    ensures |nodes[n]| == |nodes0[n]| == b
    ensures i < b ==> nodes[n][i] == nodes0[n][i]
    ensures i < b ==> EntryOk(b, pos, nodes[n][i], pos[n].level, SlotBase(b, pos[n], i))
  {
    assert NodeOk(b, pos, nodes[n], pos[n]) && NodeOk(b, pos, nodes0[n], pos[n]);
    if i < b {
      assert Slot(nodes, n, i) == Slot(nodes0, n, i);
    }
  }

  // ---------------------------------------------------------------- range insertion

  /** The second tree gives `leaf` on the pages [from, to), and what the first gives elsewhere. */
  ghost predicate Painted(b: nat, nodes: seq<Node>, e: Entry, nodes': seq<Node>, e': Entry,
                          h: nat, lo: nat, from: nat, to: nat, leaf: nat)
    requires b > 0
  {
    forall page :: lo <= page < lo + Pow(b, h) ==>
      Find(b, nodes', e', h, page) == if from <= page < to then leaf else Find(b, nodes, e, h, page)
  }

  ghost predicate UnassignedOn(b: nat, nodes: seq<Node>, e: Entry, h: nat, lo: nat, from: nat, to: nat)
    requires b > 0
  {
    forall page :: lo <= page < lo + Pow(b, h) && from <= page < to ==>
      Find(b, nodes, e, h, page) == PHYS_SECTION_UNASSIGNED
  }

  ghost predicate BelowOnly(b: nat, pos: seq<Pos>, nodes: seq<Node>, nodes': seq<Node>, h: nat, lo: nat)
    requires |pos| == |nodes| <= |nodes'|
  {
    forall n :: 0 <= n < |nodes| && !Within(b, pos[n], h, lo) ==> nodes'[n] == nodes[n]
  }

  /** A well-formed uncompacted tree that extends the one before. */
  ghost predicate Extends(b: nat, pos: seq<Pos>, nodes: seq<Node>, pos': seq<Pos>, nodes': seq<Node>) {
    && Shape(b, nodes', pos') && Plain(nodes')
    && |pos| == |nodes| <= |nodes'| && pos <= pos'
  }

  /** What phys_page_set_level does to the entry e. */
  ghost predicate SetDone(b: nat, pos: seq<Pos>, nodes: seq<Node>, e: Entry, pos': seq<Pos>, nodes': seq<Node>,
                          e': Entry,
                          h: nat, lo: nat, from: nat, to: nat, leaf: nat)
  {
    && b > 0 && Extends(b, pos, nodes, pos', nodes')
    && e'.skip == 1 && EntryOk(b, pos', e', h, lo)
    && Painted(b, nodes, e, nodes', e', h, lo, from, to, leaf)
    && BelowOnly(b, pos, nodes, nodes', h, lo)
  }

  /** phys_map_node_alloc: an empty node. */
  function FreshNode(b: nat, leaf: bool): Node {
    seq(b, i => if leaf then Entry(0, PHYS_SECTION_UNASSIGNED) else Entry(1, PHYS_MAP_NODE_NIL))
  }

  lemma EntryOkGrows(b: nat, pos: seq<Pos>, pos': seq<Pos>, e: Entry, h: nat, lo: nat)
    requires EntryOk(b, pos, e, h, lo) && pos <= pos'
    ensures EntryOk(b, pos', e, h, lo)
  {
  }

  lemma NodeOkGrows(b: nat, pos: seq<Pos>, pos': seq<Pos>, node: Node, q: Pos)
    requires NodeOk(b, pos, node, q) && pos <= pos'
    ensures NodeOk(b, pos', node, q)
  {
    forall j | 0 <= j < b
      ensures EntryOk(b, pos', node[j], q.level, q.base + j * Pow(b, q.level))
    {
      EntryOkGrows(b, pos, pos', node[j], q.level, q.base + j * Pow(b, q.level));
    }
  }

  lemma AllocKeepsShape(b: nat, pos: seq<Pos>, nodes: seq<Node>, level: nat, lo: nat)
    requires Shape(b, nodes, pos) && Plain(nodes) && |nodes| < PHYS_MAP_NODE_NIL
    requires lo % Pow(b, level + 1) == 0
    ensures Extends(b, pos, nodes, pos + [Pos(level, lo)], nodes + [FreshNode(b, level == 0)])
  {
    var pos' := pos + [Pos(level, lo)];
    var nodes' := nodes + [FreshNode(b, level == 0)];
    forall n | 0 <= n < |nodes'|
      ensures NodeOk(b, pos', nodes'[n], pos'[n])
    {
      if n < |nodes| {
        NodeOkGrows(b, pos, pos', nodes[n], pos[n]);
      }
    }
  }

  /** A new node under an empty entry answers as the empty entry did. */
  lemma AllocFinds(b: nat, pos: seq<Pos>, nodes: seq<Node>, level: nat, lo: nat)
    requires Shape(b, nodes, pos) && |nodes| < PHYS_MAP_NODE_NIL
    ensures Painted(b, nodes, Entry(1, PHYS_MAP_NODE_NIL), nodes + [FreshNode(b, level == 0)], Entry(1, |nodes|),
                    level + 1, lo, lo, lo, 0)
  {
    var nodes', h := nodes + [FreshNode(b, level == 0)], level + 1;
    forall page | lo <= page < lo + Pow(b, h)
      ensures Find(b, nodes', Entry(1, |nodes|), h, page) == PHYS_SECTION_UNASSIGNED
    {
      assert Slot(nodes', |nodes|, Digit(b, level, page)) == FreshNode(b, level == 0)[0];
    }
  }

  /** Slots 0..j of node n hold the new leaf from page `from` on, up to page `cur`. */
  ghost predicate SetUpTo(b: nat, pos0: seq<Pos>, nodes0: seq<Node>, e0: Entry, pos: seq<Pos>, nodes: seq<Node>,
                          n: nat, level: nat, lo: nat, from: nat, cur: nat, leaf: nat)
  {
    && b > 0 && Extends(b, pos0, nodes0, pos, nodes)
    && n < |pos| && pos[n] == Pos(level, lo)
    && Painted(b, nodes0, e0, nodes, Entry(1, n), level + 1, lo, from, cur, leaf)
    && BelowOnly(b, pos0, nodes0, nodes, level + 1, lo)
  }

  /** Lookup through a node goes to the slot that holds the page. */
  /** A page in slot i of a node is looked up there. */
  lemma FoundInSlot(b: nat, pos: seq<Pos>, nodes: seq<Node>, n: nat, i: nat, page: nat)
    requires Shape(b, nodes, pos) && n < |nodes| && i < b
    requires SlotBase(b, pos[n], i) <= page < SlotBase(b, pos[n], i) + Pow(b, pos[n].level)
    ensures Find(b, nodes, Entry(1, n), pos[n].level + 1, page)
         == Find(b, nodes, Slot(nodes, n, i), pos[n].level, page)
  {
    assert NodeOk(b, pos, nodes[n], pos[n]);
    DigitInSlot(b, pos[n].level, pos[n].base, i, page);
  }

  /** The slot of a page. */
  lemma PageSlot(b: nat, pos: seq<Pos>, nodes: seq<Node>, n: nat, page: nat) returns (i: nat)
    requires Shape(b, nodes, pos) && n < |nodes|
    requires pos[n].base <= page < pos[n].base + Pow(b, pos[n].level + 1)
    ensures i < b && SlotBase(b, pos[n], i) <= page < SlotBase(b, pos[n], i) + Pow(b, pos[n].level)
    ensures Find(b, nodes, Entry(1, n), pos[n].level + 1, page)
         == Find(b, nodes, Slot(nodes, n, i), pos[n].level, page)
  {
    assert NodeOk(b, pos, nodes[n], pos[n]);
    SlotOfIndex(b, pos[n].level, pos[n].base, page);
    i := Digit(b, pos[n].level, page);
  }

  lemma PaintPage(b: nat, pos: seq<Pos>, nodes: seq<Node>, pos': seq<Pos>, nodes': seq<Node>, n: nat, j: nat, i: nat,
                  page: nat, cur: nat, to: nat, leaf: nat)
    requires Shape(b, nodes, pos) && n < |nodes| && Extends(b, pos, nodes, pos', nodes') && j < b && i < b
    requires SlotChange(b, pos, nodes, nodes', n, j)
    requires Painted(b, nodes, Slot(nodes, n, j), nodes', Slot(nodes', n, j), pos[n].level, SlotBase(b, pos[n], j),
                     cur, to, leaf)
    requires SlotBase(b, pos[n], j) <= cur && to <= SlotBase(b, pos[n], j) + Pow(b, pos[n].level)
    requires SlotBase(b, pos[n], i) <= page < SlotBase(b, pos[n], i) + Pow(b, pos[n].level)
    ensures Find(b, nodes', Slot(nodes', n, i), pos[n].level, page) ==
            if cur <= page < to then leaf else Find(b, nodes, Slot(nodes, n, i), pos[n].level, page)
  {
    var q := pos[n];
    if i != j {
      assert NodeOk(b, pos, nodes[n], q);
      OtherSlotFrame(b, nodes, pos, nodes', n, j, i, page);
      SlotRangesDisjoint(b, q, i, j);
    }
  }

  lemma PaintNodePage(b: nat, pos: seq<Pos>, nodes: seq<Node>, pos': seq<Pos>, nodes': seq<Node>, n: nat, j: nat,
                      page: nat, cur: nat, to: nat, leaf: nat)
    requires Shape(b, nodes, pos) && n < |nodes| && Extends(b, pos, nodes, pos', nodes') && j < b
    requires SlotChange(b, pos, nodes, nodes', n, j)
    requires Painted(b, nodes, Slot(nodes, n, j), nodes', Slot(nodes', n, j), pos[n].level, SlotBase(b, pos[n], j),
                     cur, to, leaf)
    requires SlotBase(b, pos[n], j) <= cur && to <= SlotBase(b, pos[n], j) + Pow(b, pos[n].level)
    requires pos[n].base <= page < pos[n].base + Pow(b, pos[n].level + 1)
    ensures Find(b, nodes', Entry(1, n), pos[n].level + 1, page) ==
            if cur <= page < to then leaf else Find(b, nodes, Entry(1, n), pos[n].level + 1, page)
  {
    var i := PageSlot(b, pos, nodes, n, page);
    PaintPage(b, pos, nodes, pos', nodes', n, j, i, page, cur, to, leaf);
    FoundAfter(b, pos, nodes, pos', nodes', n, i, page);
  }

  lemma FoundAfter(b: nat, pos: seq<Pos>, nodes: seq<Node>, pos': seq<Pos>, nodes': seq<Node>, n: nat, i: nat,
                   page: nat)
    requires Shape(b, nodes, pos) && n < |nodes| && Extends(b, pos, nodes, pos', nodes') && i < b
    requires SlotBase(b, pos[n], i) <= page < SlotBase(b, pos[n], i) + Pow(b, pos[n].level)
    ensures Find(b, nodes', Entry(1, n), pos[n].level + 1, page)
         == Find(b, nodes', Slot(nodes', n, i), pos[n].level, page)
  {
    assert pos'[n] == pos[n];
    FoundInSlot(b, pos', nodes', n, i, page);
  }

  lemma PaintNode(b: nat, pos: seq<Pos>, nodes: seq<Node>, pos': seq<Pos>, nodes': seq<Node>, n: nat,
                  level: nat, lo: nat, j: nat, cur: nat, to: nat, leaf: nat)
    requires Shape(b, nodes, pos) && n < |nodes| && Extends(b, pos, nodes, pos', nodes') && j < b
    requires pos[n] == Pos(level, lo) && SlotChange(b, pos, nodes, nodes', n, j)
    requires Painted(b, nodes, Slot(nodes, n, j), nodes', Slot(nodes', n, j), level, SlotBase(b, pos[n], j),
                     cur, to, leaf)
    requires SlotBase(b, pos[n], j) <= cur && to <= SlotBase(b, pos[n], j) + Pow(b, level)
    ensures Painted(b, nodes, Entry(1, n), nodes', Entry(1, n), level + 1, lo, cur, to, leaf)
  {
    var h := level + 1;
    forall page | lo <= page < lo + Pow(b, h)
      ensures Find(b, nodes', Entry(1, n), h, page) ==
              if cur <= page < to then leaf else Find(b, nodes, Entry(1, n), h, page)
    {
      PaintNodePage(b, pos, nodes, pos', nodes', n, j, page, cur, to, leaf);
    }
  }

  lemma PaintedTrans(b: nat, nodes0: seq<Node>, e0: Entry, nodes: seq<Node>, e: Entry, nodes': seq<Node>, e': Entry,
                     h: nat, lo: nat, from: nat, cur: nat, to: nat, leaf: nat)
    requires b > 0 && from <= cur <= to
    requires Painted(b, nodes0, e0, nodes, e, h, lo, from, cur, leaf)
    requires Painted(b, nodes, e, nodes', e', h, lo, cur, to, leaf)
    ensures Painted(b, nodes0, e0, nodes', e', h, lo, from, to, leaf)
  {
  }

  /** Painting inside one slot of node n paints node n. */
  lemma PaintSlot(b: nat, pos0: seq<Pos>, nodes0: seq<Node>, e0: Entry, pos: seq<Pos>, nodes: seq<Node>,
                  pos': seq<Pos>, nodes': seq<Node>, n: nat, level: nat, lo: nat, j: nat,
                  from: nat, cur: nat, to: nat, leaf: nat)
    requires SetUpTo(b, pos0, nodes0, e0, pos, nodes, n, level, lo, from, cur, leaf)
    requires Extends(b, pos, nodes, pos', nodes') && j < b
    requires SlotChange(b, pos, nodes, nodes', n, j)
    requires Painted(b, nodes, Slot(nodes, n, j), nodes', Slot(nodes', n, j), level, SlotBase(b, pos[n], j),
                     cur, to, leaf)
    requires from <= cur <= to && SlotBase(b, pos[n], j) <= cur && to <= SlotBase(b, pos[n], j) + Pow(b, level)
    ensures SetUpTo(b, pos0, nodes0, e0, pos', nodes', n, level, lo, from, to, leaf)
  {
    PaintNode(b, pos, nodes, pos', nodes', n, level, lo, j, cur, to, leaf);
    PaintedTrans(b, nodes0, e0, nodes, Entry(1, n), nodes', Entry(1, n), level + 1, lo, from, cur, to, leaf);
    BelowOnlyTrans(b, pos0, nodes0, pos, nodes, nodes', n, level, lo, j);
  }

  lemma BelowOnlyTrans(b: nat, pos0: seq<Pos>, nodes0: seq<Node>, pos: seq<Pos>, nodes: seq<Node>, nodes': seq<Node>,
                       n: nat, level: nat, lo: nat, j: nat)
    requires b > 0 && |pos0| == |nodes0| <= |nodes| == |pos| <= |nodes'| && pos0 <= pos && n < |pos| && j < b
    requires pos[n] == Pos(level, lo) && SlotChange(b, pos, nodes, nodes', n, j)
    requires BelowOnly(b, pos0, nodes0, nodes, level + 1, lo)
    ensures BelowOnly(b, pos0, nodes0, nodes', level + 1, lo)
  {
    forall m | 0 <= m < |nodes0| && !Within(b, pos0[m], pos[n].level + 1, pos[n].base)
      ensures nodes'[m] == nodes0[m]
    {
      if InSlot(b, pos[m], pos[n], j) {
        WithinTrans(b, pos[m], pos[n], j, pos[n].level + 1, pos[n].base);
      }
    }
  }

  lemma StorePlain(nodes: seq<Node>, n: nat, j: nat, e: Entry)
    requires Plain(nodes) && n < |nodes| && j < |nodes[n]| && e.skip <= 1
    ensures Plain(nodes[n := nodes[n][j := e]])
  {
  }

  /** A whole slot becomes the leaf. */
  lemma SetLeafSlot(b: nat, pos0: seq<Pos>, nodes0: seq<Node>, e0: Entry, pos: seq<Pos>, nodes: seq<Node>,
                    n: nat, level: nat, lo: nat, j: nat, from: nat, leaf: nat)
    requires j < b && n < |pos|
    requires SetUpTo(b, pos0, nodes0, e0, pos, nodes, n, level, lo, from, SlotBase(b, pos[n], j), leaf)
    requires from <= SlotBase(b, pos[n], j) && 0 < leaf < PHYS_MAP_NODE_NIL
    ensures |nodes[n]| == b
    ensures SetUpTo(b, pos0, nodes0, e0, pos, nodes[n := nodes[n][j := Entry(0, leaf)]], n, level, lo,
                    from, SlotBase(b, pos[n], j) + Pow(b, level), leaf)
  {
    assert NodeOk(b, pos, nodes[n], pos[n]);
    var next := nodes[n := nodes[n][j := Entry(0, leaf)]];
    StoreKeepsShape(b, nodes, pos, n, j, Entry(0, leaf));
    StorePlain(nodes, n, j, Entry(0, leaf));
    PaintSlot(b, pos0, nodes0, e0, pos, nodes, pos, next, n, level, lo, j,
              from, SlotBase(b, pos[n], j), SlotBase(b, pos[n], j) + Pow(b, level), leaf);
  }

  lemma StorePainted(b: nat, pos: seq<Pos>, nodes: seq<Node>, n: nat, j: nat, c: Entry, e0: Entry, nodes0: seq<Node>,
                     from: nat, to: nat, leaf: nat)
    requires Shape(b, nodes, pos) && n < |nodes| && j < b && |nodes[n]| == b
    requires EntryOk(b, pos, c, pos[n].level, SlotBase(b, pos[n], j))
    requires Painted(b, nodes0, e0, nodes, c, pos[n].level, SlotBase(b, pos[n], j), from, to, leaf)
    ensures Painted(b, nodes0, e0, nodes[n := nodes[n][j := c]], c, pos[n].level, SlotBase(b, pos[n], j),
                    from, to, leaf)
  {
    var next, h, lo := nodes[n := nodes[n][j := c]], pos[n].level, SlotBase(b, pos[n], j);
    NodeNotInSlot(b, pos[n], j);
    forall page | lo <= page < lo + Pow(b, h)
      ensures Find(b, next, c, h, page) == Find(b, nodes, c, h, page)
    {
      FindFrame(b, nodes, pos, next, c, h, lo, page);
    }
  }

  /** The recursive call has set part of a slot. */
  lemma SetChildSlot(b: nat, pos0: seq<Pos>, nodes0: seq<Node>, e0: Entry, pos: seq<Pos>, nodes: seq<Node>,
                     pos': seq<Pos>, nodes': seq<Node>, c: Entry, n: nat, level: nat, lo: nat, j: nat,
                     from: nat, cur: nat, to: nat, leaf: nat)
    requires j < b && SetUpTo(b, pos0, nodes0, e0, pos, nodes, n, level, lo, from, cur, leaf)
    requires SetDone(b, pos, nodes, Slot(nodes, n, j), pos', nodes', c, level, SlotBase(b, pos[n], j), cur, to, leaf)
    requires from <= cur <= to && SlotBase(b, pos[n], j) <= cur && to <= SlotBase(b, pos[n], j) + Pow(b, level)
    ensures |nodes'[n]| == b && pos'[n] == pos[n]
    ensures SetUpTo(b, pos0, nodes0, e0, pos', nodes'[n := nodes'[n][j := c]], n, level, lo, from, to, leaf)
  {
    NodeNotInSlot(b, pos[n], j);
    assert NodeOk(b, pos', nodes'[n], pos'[n]);
    var next := nodes'[n := nodes'[n][j := c]];
    StoreKeepsShape(b, nodes', pos', n, j, c);
    StorePlain(nodes', n, j, c);
    StorePainted(b, pos', nodes', n, j, c, Slot(nodes, n, j), nodes, cur, to, leaf);
    PaintSlot(b, pos0, nodes0, e0, pos, nodes, pos', next, n, level, lo, j, from, cur, to, leaf);
  }

  /** A page still unassigned below node n is unassigned below its slot. */
  lemma SlotUnassigned(b: nat, pos0: seq<Pos>, nodes0: seq<Node>, e0: Entry, pos: seq<Pos>, nodes: seq<Node>,
                       n: nat, level: nat, lo: nat, j: nat, from: nat, cur: nat, end: nat, leaf: nat)
    requires j < b && SetUpTo(b, pos0, nodes0, e0, pos, nodes, n, level, lo, from, cur, leaf)
    requires from <= cur && UnassignedOn(b, nodes0, e0, level + 1, lo, from, end)
    ensures UnassignedOn(b, nodes, Slot(nodes, n, j), level, SlotBase(b, pos[n], j), cur, end)
  {
    var base := SlotBase(b, pos[n], j);
    assert NodeOk(b, pos, nodes[n], pos[n]);
    SlotBounds(b, level, j);
    forall page | base <= page < base + Pow(b, level) && cur <= page < end
      ensures Find(b, nodes, Slot(nodes, n, j), level, page) == PHYS_SECTION_UNASSIGNED
    {
      FoundInSlot(b, pos, nodes, n, j, page);
      assert Find(b, nodes0, e0, level + 1, page) == PHYS_SECTION_UNASSIGNED;
    }
  }

  /** An entry over an unassigned page is not a leaf, above the lowest level. */
  lemma NotLeaf(b: nat, pos: seq<Pos>, nodes: seq<Node>, e: Entry, h: nat, lo: nat, page: nat, end: nat)
    requires b > 0 && h > 0 && EntryOk(b, pos, e, h, lo) && lo <= page < lo + Pow(b, h) && page < end
    requires UnassignedOn(b, nodes, e, h, lo, page, end)
    ensures e.skip != 0
  {
    assert Find(b, nodes, e, h, page) == PHYS_SECTION_UNASSIGNED;
  }

  /** Where the walk over the slots stands: in the first slot it touches at `index`,
      afterwards at the start of slot j, or at the end of the range. */
  ghost predicate Cursor(b: nat, level: nat, lo: nat, index: nat, nb: nat, j0: nat, j: nat, cur: nat) {
    && j0 <= j <= b
    && cur == if j == j0 then index else Min(index + nb, lo + j * Pow(b, level))
  }

  function Max(x: nat, y: nat): nat {
    if x >= y then x else y
  }

  function Min(x: nat, y: nat): nat {
    if x <= y then x else y
  }

  /** The most nodes one call can allocate: one for each level below if it starts at
      the start of its pages or runs to their end, and one more per level otherwise. */
  function Cost(level: nat, oneSided: bool): nat {
    if oneSided then level + 1 else 2 * level + 1
  }

  predicate OneSided(b: nat, level: nat, lo: nat, index: nat, nb: nat) {
    index == lo || index + nb >= lo + Pow(b, level + 1)
  }

  /** The most nodes the work on one slot can allocate. */
  function SlotCost(b: nat, level: nat, base: nat, cur: nat, left: nat): nat {
    if level == 0 || (cur == base && left >= Pow(b, level)) then 0
    else Cost(level - 1, OneSided(b, level - 1, base, cur, left))
  }

  /** How the costs of the slots add up along the walk. */
  lemma SlotCosts(b: nat, level: nat, lo: nat, index: nat, nb: nat, j0: nat, j: nat, cur: nat)
    requires b > 0 && lo % Pow(b, level + 1) == 0 && j0 <= j < b
    requires SlotBase(b, Pos(level, lo), j0) <= index < SlotBase(b, Pos(level, lo), j0) + Pow(b, level)
    requires Cursor(b, level, lo, index, nb, j0, j, cur) && cur < index + nb
    ensures var base := SlotBase(b, Pos(level, lo), j);
            var cost := SlotCost(b, level, base, cur, index + nb - cur);
            var before := WalkCost(b, level, lo, index, j0, j);
            && 1 + before + cost <= Cost(level, OneSided(b, level, lo, index, nb))
            && (index + nb > base + Pow(b, level) ==> before + cost <= WalkCost(b, level, lo, index, j0, j + 1))
  {
    CursorInSlot(b, level, lo, index, nb, j0, j, cur);
    if index == lo && j0 > 0 {
      MulOrder(1, j0, Pow(b, level));
    }
  }

  /** What the walk has cost at most before slot j, if it goes on: a partly covered
      first slot is covered to its end. */
  function WalkCost(b: nat, level: nat, lo: nat, index: nat, j0: nat, j: nat): nat {
    if j > j0 && index != SlotBase(b, Pos(level, lo), j0) then level else 0
  }

  lemma CursorInSlot(b: nat, level: nat, lo: nat, index: nat, nb: nat, j0: nat, j: nat, cur: nat)
    requires b > 0 && lo % Pow(b, level + 1) == 0 && j0 <= j < b
    requires SlotBase(b, Pos(level, lo), j0) <= index < SlotBase(b, Pos(level, lo), j0) + Pow(b, level)
    requires Cursor(b, level, lo, index, nb, j0, j, cur) && cur < index + nb
    ensures var base := SlotBase(b, Pos(level, lo), j);
            && base <= cur < base + Pow(b, level) <= lo + Pow(b, level + 1)
            && (j > j0 ==> cur == base)
            && (cur % Pow(b, level) == 0 <==> cur == base)
            && index <= cur
            && Cursor(b, level, lo, index, nb, j0, j + 1, Min(index + nb, base + Pow(b, level)))
  {
    SlotBounds(b, level, j);
    if j > j0 {
      SlotRangesDisjoint(b, Pos(level, lo), j0, j);
      MulOrder(j0, j, Pow(b, level));
    }
    AlignedInSlot(b, level, lo, j, cur);
  }

  /** The walk over the slots of a node stands at slot j, with nb' pages left, and the
      table has grown from n0 to nn nodes. */
  ghost predicate Walk(b: nat, level: nat, lo: nat, index: nat, nb: nat, j0: nat, j: nat, cur: nat, left: nat,
                       n0: nat, nn: nat)
  {
    && Cursor(b, level, lo, index, nb, j0, j, cur) && cur + left == index + nb
    && (left > 0 ==> nn <= n0 + 1 + WalkCost(b, level, lo, index, j0, j))
    && nn <= n0 + Cost(level, OneSided(b, level, lo, index, nb))
  }

  lemma WalkStep(b: nat, level: nat, lo: nat, index: nat, nb: nat, j0: nat, j: nat, cur: nat, left: nat, n0: nat,
                 nn: nat,
                 cur': nat, left': nat, nn': nat)
    requires b > 0 && lo % Pow(b, level + 1) == 0 && j0 <= j < b && left > 0
    requires SlotBase(b, Pos(level, lo), j0) <= index < SlotBase(b, Pos(level, lo), j0) + Pow(b, level)
    requires Walk(b, level, lo, index, nb, j0, j, cur, left, n0, nn)
    requires cur' == Min(cur + left, SlotBase(b, Pos(level, lo), j) + Pow(b, level)) && cur' + left' == cur + left
    requires nn' <= nn + SlotCost(b, level, SlotBase(b, Pos(level, lo), j), cur, left)
    ensures Walk(b, level, lo, index, nb, j0, j + 1, cur', left', n0, nn')
  {
    CursorInSlot(b, level, lo, index, nb, j0, j, cur);
    SlotCosts(b, level, lo, index, nb, j0, j, cur);
  }

  lemma WalkReady(b: nat, level: nat, lo: nat, index: nat, nb: nat, j0: nat, j: nat, cur: nat, left: nat, n0: nat,
                  nn: nat)
    requires b > 0 && lo % Pow(b, level + 1) == 0 && j0 <= j < b && left > 0
    requires SlotBase(b, Pos(level, lo), j0) <= index < SlotBase(b, Pos(level, lo), j0) + Pow(b, level)
    requires Walk(b, level, lo, index, nb, j0, j, cur, left, n0, nn)
    ensures index <= cur && SlotBase(b, Pos(level, lo), j) <= cur < SlotBase(b, Pos(level, lo), j) + Pow(b, level)
    ensures nn + SlotCost(b, level, SlotBase(b, Pos(level, lo), j), cur, left)
         <= n0 + Cost(level, OneSided(b, level, lo, index, nb))
  {
    CursorInSlot(b, level, lo, index, nb, j0, j, cur);
    SlotCosts(b, level, lo, index, nb, j0, j, cur);
  }

  lemma CursorAtEnd(b: nat, level: nat, lo: nat, index: nat, nb: nat, j0: nat, j: nat, cur: nat)
    requires b > 0 && j0 < b && index < lo + Pow(b, level + 1)
    requires Cursor(b, level, lo, index, nb, j0, j, cur) && (cur == index + nb || j == b)
    ensures cur == Min(index + nb, lo + Pow(b, level + 1))
  {
    MulOrder(j, b, Pow(b, level));
  }

  /** The node an entry has, or is given. */
  lemma SetStarts(b: nat, pos: seq<Pos>, nodes: seq<Node>, e: Entry, level: nat, lo: nat, from: nat, leaf: nat)
    requires Shape(b, nodes, pos) && Plain(nodes) && EntryOk(b, pos, e, level + 1, lo) && e.skip == 1
    requires lo % Pow(b, level + 1) == 0
    ensures e.ptr != PHYS_MAP_NODE_NIL ==> SetUpTo(b, pos, nodes, e, pos, nodes, e.ptr, level, lo, from, from, leaf)
    ensures e.ptr == PHYS_MAP_NODE_NIL && |nodes| < PHYS_MAP_NODE_NIL ==>
              SetUpTo(b, pos, nodes, e, pos + [Pos(level, lo)], nodes + [FreshNode(b, level == 0)], |nodes|, level, lo,
                      from, from, leaf)
  {
    if e.ptr != PHYS_MAP_NODE_NIL {
      assert Entry(1, e.ptr) == e;
    } else if |nodes| < PHYS_MAP_NODE_NIL {
      assert Entry(1, PHYS_MAP_NODE_NIL) == e;
      AllocKeepsShape(b, pos, nodes, level, lo);
      AllocFinds(b, pos, nodes, level, lo);
    }
  }

  lemma SetEnds(b: nat, pos0: seq<Pos>, nodes0: seq<Node>, e0: Entry, pos: seq<Pos>, nodes: seq<Node>,
                n: nat, level: nat, lo: nat, from: nat, to: nat, leaf: nat)
    requires SetUpTo(b, pos0, nodes0, e0, pos, nodes, n, level, lo, from, to, leaf)
    ensures SetDone(b, pos0, nodes0, e0, pos, nodes, Entry(1, n), level + 1, lo, from, to, leaf)
  {
  }

  // ---------------------------------------------------------------- the node table

  /** The map itself: the root entry phys_map, the nodes in use, and how many
      nodes there is room for. */
  class PageTable {
    const b: nat       // P_L2_SIZE
    const levels: nat  // P_L2_LEVELS
    var root: Entry
    var nodes: seq<Node>
    var nodesAlloc: nat
    var allocHint: nat
    ghost var pos: seq<Pos>
    ghost var leaves: set<nat>  // every section number set so far, and unassigned

    ghost predicate Valid()
      reads this
    {
      && Shape(b, nodes, pos) && EntryOk(b, pos, root, levels, 0) && levels > 0
      && LeavesIn(nodes, leaves) && EntryIn(root, leaves)
    }

    ghost predicate Uncompacted()
      reads this
    {
      Valid() && Plain(nodes) && root.skip == 1
    }

    /** The section number the map holds for a page. */
    function SectionOf(page: nat): nat
      requires b > 0
      reads this
    {
      Find(b, nodes, root, levels, page)
    }

    constructor (b: nat, levels: nat)
      requires b >= 2 && levels > 0
      ensures this.b == b && this.levels == levels && nodes == [] && leaves == {PHYS_SECTION_UNASSIGNED}
      ensures Uncompacted()
      ensures forall page: nat :: SectionOf(page) == PHYS_SECTION_UNASSIGNED
    {
      this.b, this.levels := b, levels;
      root := Entry(1, PHYS_MAP_NODE_NIL);
      nodes, nodesAlloc, allocHint, pos, leaves := [], 0, 16, [], {PHYS_SECTION_UNASSIGNED};
    }

    /** phys_map_node_reserve. */
    method Reserve(n: nat)
      modifies `nodesAlloc, `allocHint
      ensures nodesAlloc >= |nodes| + n && nodesAlloc >= old(nodesAlloc)
      ensures old(|nodes| + n <= nodesAlloc) ==> nodesAlloc == old(nodesAlloc)
    {
      if |nodes| + n > nodesAlloc {
        nodesAlloc := Max(nodesAlloc, allocHint);
        nodesAlloc := Max(nodesAlloc, |nodes| + n);
        allocHint := nodesAlloc;
      }
    }

    /** phys_page_set on pages that are unassigned: afterwards exactly those pages hold
        the leaf, or the assertion on node numbers has failed with all of them in use.  At
        most 2 * levels - 1 nodes are allocated, so what was reserved suffices. */
    method PageSet(index: nat, nb: nat, leaf: nat) returns (r: Outcome<()>)
      requires Uncompacted() && 0 < leaf < PHYS_MAP_NODE_NIL
      requires 0 < nb && index + nb <= Pow(b, levels)
      requires UnassignedOn(b, nodes, root, levels, 0, index, index + nb)
      modifies this
      ensures r.Done? ==> Uncompacted() && leaves == old(leaves) + {leaf} && |nodes| <= old(|nodes|) + 2 * levels - 1
      ensures r.Done? ==> Painted(b, old(nodes), old(root), nodes, root, levels, 0, index, index + nb, leaf)
      ensures r.Aborted? ==> |nodes| == PHYS_MAP_NODE_NIL < old(|nodes|) + 2 * levels - 1
    {
      Reserve(3 * levels);
      leaves := leaves + {leaf};
      ghost var nodes0, root0 := nodes, root;
      assert 0 % Pow(b, levels) == 0;
      var e, index', nb' :- SetLevel(root, index, nb, leaf, levels - 1, 0);
      assert nb' == 0;
      root := e;
      r := Done(());
    }

    /** The walk of phys_page_find, up to the test whether the section covers the address. */
    method PageFind(page: nat) returns (section: nat)
      requires Valid()
      ensures section == SectionOf(page)
    {
      var lp := root;
      var i := levels;
      ghost var lo := 0;
      while lp.skip != 0 && i - lp.skip >= 0
        invariant 0 <= i <= levels && EntryOk(b, pos, lp, i, lo)
        invariant Find(b, nodes, lp, i, page) == SectionOf(page)
        decreases i
      {
        i := i - lp.skip;
        if lp.ptr == PHYS_MAP_NODE_NIL {
          return PHYS_SECTION_UNASSIGNED;
        }
        ghost var q := pos[lp.ptr];
        assert NodeOk(b, pos, nodes[lp.ptr], q);
        var j := Digit(b, i, page);
        lo := SlotBase(b, q, j);
        lp := nodes[lp.ptr][j];
      }
      section := lp.ptr;
    }

    /** address_space_dispatch_compact: a page keeps its section, or had none. */
    method CompactAll()
      requires Valid()
      modifies this
      ensures Valid()
      ensures forall page: nat :: old(SectionOf(page)) in {SectionOf(page), PHYS_SECTION_UNASSIGNED}
      ensures leaves == old(leaves)
      ensures Tight(nodes, root)
    {
      if root.skip > 0 {
        ghost var nodes0, root0 := nodes, root;
        root := Compact(root, levels, 0);
        assert Refines(b, nodes, root, nodes0, root0, levels);
      }
    }

    /** phys_map_node_alloc: its first assertion fails if the next number is not one of a
        node; its second, that there is room, never does. */
    method NodeAlloc(leaf: bool, ghost q: Pos) returns (n: Outcome<nat>)
      requires |nodes| < nodesAlloc
      modifies `nodes, `pos
      ensures n == if old(|nodes|) == PHYS_MAP_NODE_NIL then Aborted else Done(old(|nodes|))
      ensures n.Done? ==> nodes == old(nodes) + [FreshNode(b, leaf)] && pos == old(pos) + [q]
      ensures n.Aborted? ==> nodes == old(nodes)
      ensures old(LeavesIn(nodes, leaves)) ==> LeavesIn(nodes, leaves)
    {
      if |nodes| == PHYS_MAP_NODE_NIL {
        return Aborted;
      }
      n := Done(|nodes|);
      nodes := nodes + [FreshNode(b, leaf)];
      pos := pos + [q];
    }

    /** The node behind a non-leaf entry, allocated if there is none yet. */
    method EntryNode(e: Entry, level: nat, ghost lo: nat, ghost from: nat, ghost leaf: nat) returns (r: Outcome<nat>)
      requires Shape(b, nodes, pos) && Plain(nodes) && EntryOk(b, pos, e, level + 1, lo) && e.skip == 1
      requires lo % Pow(b, level + 1) == 0 && |nodes| < nodesAlloc
      requires LeavesIn(nodes, leaves)
      modifies `nodes, `pos
      ensures r.Done? ==> SetUpTo(b, old(pos), old(nodes), e, pos, nodes, r.value, level, lo, from, from, leaf)
      ensures r.Done? ==> |nodes| <= old(|nodes|) + 1 && LeavesIn(nodes, leaves)
      ensures r.Aborted? ==> |nodes| == old(|nodes|) == PHYS_MAP_NODE_NIL
    {
      SetStarts(b, pos, nodes, e, level, lo, from, leaf);
      r := Done(e.ptr);
      if e.ptr == PHYS_MAP_NODE_NIL {
        r := NodeAlloc(level == 0, Pos(level, lo));
      }
    }

    /** The body of the loop of phys_page_set_level: slot j of node n, from page `cur` on. */
    method SetSlot(n: nat, j: nat, cur: nat, left: nat, leaf: nat, level: nat, ghost lo: nat,
                   ghost pos0: seq<Pos>, ghost nodes0: seq<Node>, ghost e0: Entry, ghost from: nat)
      returns (r: Outcome<nat>, left': nat)
      requires SetUpTo(b, pos0, nodes0, e0, pos, nodes, n, level, lo, from, cur, leaf)
      requires lo % Pow(b, level + 1) == 0 && 0 < leaf < PHYS_MAP_NODE_NIL && j < b
      requires left > 0 && from <= cur
      requires SlotBase(b, Pos(level, lo), j) <= cur < SlotBase(b, Pos(level, lo), j) + Pow(b, level)
      requires UnassignedOn(b, nodes0, e0, level + 1, lo, from, cur + left)
      requires |nodes| + SlotCost(b, level, SlotBase(b, Pos(level, lo), j), cur, left) <= nodesAlloc
      requires LeavesIn(nodes, leaves) && leaf in leaves
      modifies `nodes, `pos
      ensures r.Done? ==> SetUpTo(b, pos0, nodes0, e0, pos, nodes, n, level, lo, from, r.value, leaf)
      ensures r.Done? ==> r.value == Min(cur + left, SlotBase(b, Pos(level, lo), j) + Pow(b, level))
      ensures r.Done? ==> r.value + left' == cur + left
      ensures r.Done? ==> |nodes| <= old(|nodes|) + SlotCost(b, level, SlotBase(b, Pos(level, lo), j), cur, left)
      ensures r.Done? ==> LeavesIn(nodes, leaves)
      ensures r.Aborted? ==>
                && |nodes| == PHYS_MAP_NODE_NIL
                && |nodes| < old(|nodes|) + SlotCost(b, level, SlotBase(b, Pos(level, lo), j), cur, left)
      decreases level, 0
    {
      var step := Pow(b, level);
      ghost var base := SlotBase(b, Pos(level, lo), j);
      AlignedInSlot(b, level, lo, j, cur);
      assert NodeOk(b, pos, nodes[n], pos[n]);
      if cur % step == 0 && left >= step {
        SetLeafSlot(b, pos0, nodes0, e0, pos, nodes, n, level, lo, j, from, leaf);
        StoreLeavesIn(nodes, leaves, n, j, Entry(0, leaf));
        nodes := nodes[n := nodes[n][j := Entry(0, leaf)]];
        r, left' := Done(cur + step), left - step;
      } else {
        ghost var pos1, nodes1 := pos, nodes;
        SlotUnassigned(b, pos0, nodes0, e0, pos, nodes, n, level, lo, j, from, cur, cur + left, leaf);
        SlotAligned(b, level, lo, j);
        left' := left;
        var c, cur', rest :- SetLevel(nodes[n][j], cur, left, leaf, level - 1, base);
        SetChildSlot(b, pos0, nodes0, e0, pos1, nodes1, pos, nodes, c, n, level, lo, j, from, cur, cur', leaf);
        StoreLeavesIn(nodes, leaves, n, j, c);
        nodes := nodes[n := nodes[n][j := c]];
        r, left' := Done(cur'), rest;
      }
    }

    /** phys_page_set_level on the entry e: sets the leaf on the pages from `index` on,
        as far as the range of nb pages and the pages of e go. */
    method SetLevel(e: Entry, index: nat, nb: nat, leaf: nat, level: nat, ghost lo: nat)
      returns (r: Outcome<Entry>, index': nat, nb': nat)
      requires Shape(b, nodes, pos) && Plain(nodes) && EntryOk(b, pos, e, level + 1, lo) && e.skip <= 1
      requires lo % Pow(b, level + 1) == 0 && 0 < leaf < PHYS_MAP_NODE_NIL
      requires nb > 0 && lo <= index < lo + Pow(b, level + 1)
      requires UnassignedOn(b, nodes, e, level + 1, lo, index, index + nb)
      requires |nodes| + Cost(level, OneSided(b, level, lo, index, nb)) <= nodesAlloc
      requires LeavesIn(nodes, leaves) && leaf in leaves
      modifies `nodes, `pos
      ensures r.Done? ==> SetDone(b, old(pos), old(nodes), e, pos, nodes, r.value, level + 1, lo, index, index', leaf)
      ensures r.Done? ==> index' == Min(index + nb, lo + Pow(b, level + 1)) && nb' == index + nb - index'
      ensures r.Done? ==> |nodes| <= old(|nodes|) + Cost(level, OneSided(b, level, lo, index, nb))
      ensures r.Done? ==> LeavesIn(nodes, leaves)
      ensures r.Aborted? ==>
                |nodes| == PHYS_MAP_NODE_NIL < old(|nodes|) + Cost(level, OneSided(b, level, lo, index, nb))
      decreases level, 2
    {
      ghost var pos0, nodes0 := pos, nodes;
      index', nb' := index, nb;
      NotLeaf(b, pos, nodes, e, level + 1, lo, index, index + nb);
      var n :- EntryNode(e, level, lo, index, leaf);
      index', nb' :- SetSlots(n, index, nb, leaf, level, lo, pos0, nodes0, e);
      r := Done(Entry(1, n));
      SetEnds(b, pos0, nodes0, e, pos, nodes, n, level, lo, index, index', leaf);
    }

    /** The loop of phys_page_set_level, over the slots of node n. */
    method SetSlots(n: nat, index: nat, nb: nat, leaf: nat, level: nat, ghost lo: nat,
                    ghost pos0: seq<Pos>, ghost nodes0: seq<Node>, ghost e0: Entry)
      returns (r: Outcome<nat>, nb': nat)
      requires SetUpTo(b, pos0, nodes0, e0, pos, nodes, n, level, lo, index, index, leaf)
      requires lo % Pow(b, level + 1) == 0 && 0 < leaf < PHYS_MAP_NODE_NIL
      requires nb > 0 && lo <= index < lo + Pow(b, level + 1)
      requires UnassignedOn(b, nodes0, e0, level + 1, lo, index, index + nb)
      requires |nodes| <= |nodes0| + 1
      requires |nodes0| + Cost(level, OneSided(b, level, lo, index, nb)) <= nodesAlloc
      requires LeavesIn(nodes, leaves) && leaf in leaves
      modifies `nodes, `pos
      ensures r.Done? ==> SetUpTo(b, pos0, nodes0, e0, pos, nodes, n, level, lo, index, r.value, leaf)
      ensures r.Done? ==> r.value == Min(index + nb, lo + Pow(b, level + 1)) && nb' == index + nb - r.value
      ensures r.Done? ==> |nodes| <= |nodes0| + Cost(level, OneSided(b, level, lo, index, nb))
      ensures r.Done? ==> LeavesIn(nodes, leaves)
      ensures r.Aborted? ==> |nodes| == PHYS_MAP_NODE_NIL < |nodes0| + Cost(level, OneSided(b, level, lo, index, nb))
      decreases level, 1
    {
      var j := Digit(b, level, index);
      ghost var j0 := j;
      SlotOfIndex(b, level, lo, index);
      var index' := index;
      nb' := nb;
      while nb' > 0 && j < b
        invariant SetUpTo(b, pos0, nodes0, e0, pos, nodes, n, level, lo, index, index', leaf) && LeavesIn(nodes, leaves)
        invariant j0 <= j <= b && Walk(b, level, lo, index, nb, j0, j, index', nb', |nodes0|, |nodes|)
        decreases b - j
      {
        ghost var cur, left, nn := index', nb', |nodes|;
        WalkReady(b, level, lo, index, nb, j0, j, cur, left, |nodes0|, nn);
        index', nb' :- SetSlot(n, j, index', nb', leaf, level, lo, pos0, nodes0, e0, index);
        WalkStep(b, level, lo, index, nb, j0, j, cur, left, |nodes0|, nn, index', nb', |nodes|);
        j := j + 1;
      }
      CursorAtEnd(b, level, lo, index, nb, j0, j, index');
      r := Done(index');
    }

    /** phys_page_compact on the entry e; what it stores back through lp is e'. */
    method Compact(e: Entry, ghost h: nat, ghost lo: nat) returns (e': Entry)
      requires Shape(b, nodes, pos) && EntryOk(b, pos, e, h, lo) && e.skip > 0
      requires LeavesIn(nodes, leaves)
      modifies `nodes
      ensures Compacted(b, pos, old(nodes), e, nodes, e', h, lo)
      ensures LeavesIn(nodes, leaves) && EntryIn(e', leaves)
      decreases h, 1
    {
      e' := e;
      if e.ptr == PHYS_MAP_NODE_NIL {
        return;
      }
      var n := e.ptr;
      ghost var nodes0 := nodes;
      var valid, validPtr := CompactSlots(n);
      NextSlot(b, pos, nodes0, nodes, n, b);
      CompactionEnds(b, pos, nodes0, nodes, e, h, lo, validPtr);
      if valid == 1 && e.skip + nodes[n][validPtr].skip < 8 {
        e' := Merged(e, nodes[n][validPtr]);
        assert EntryIn(nodes[n][validPtr], leaves);
      }
    }

    /** The recursive call of phys_page_compact, on slot i of node n. */
    method CompactChild(n: nat, i: nat, ghost nodes0: seq<Node>)
      requires Shape(b, nodes0, pos) && n < |nodes0| && i < b && CompactedUpTo(b, pos, nodes0, nodes, n, i)
      requires LeavesIn(nodes, leaves) && Slot(nodes, n, i).skip > 0
      modifies `nodes
      ensures CompactedUpTo(b, pos, nodes0, nodes, n, i + 1) && LeavesIn(nodes, leaves)
      decreases pos[n].level, 2
    {
      ghost var before, q := nodes, pos[n];
      NextSlot(b, pos, nodes0, nodes, n, i);
      var c := Compact(nodes[n][i], q.level, SlotBase(b, q, i));
      CompactSlot(b, pos, nodes0, before, nodes, n, i, c);
      StoreLeavesIn(nodes, leaves, n, i, c);
      nodes := nodes[n := nodes[n][i := c]];
    }

    /** A slot in use: a leaf stays as it is. */
    method CompactUsed(n: nat, i: nat, ghost nodes0: seq<Node>)
      requires Shape(b, nodes0, pos) && n < |nodes0| && i < b && CompactedUpTo(b, pos, nodes0, nodes, n, i)
      requires LeavesIn(nodes, leaves)
      modifies `nodes
      ensures CompactedUpTo(b, pos, nodes0, nodes, n, i + 1) && LeavesIn(nodes, leaves)
      decreases pos[n].level, 3
    {
      NextSlot(b, pos, nodes0, nodes, n, i);
      if nodes[n][i].skip > 0 {
        CompactChild(n, i, nodes0);
      } else {
        SkipSlot(b, pos, nodes0, nodes, n, i);
      }
    }

    /** The loop of phys_page_compact, over the slots of node n. */
    method CompactSlots(n: nat) returns (valid: nat, validPtr: nat)
      requires Shape(b, nodes, pos) && n < |nodes| && LeavesIn(nodes, leaves)
      modifies `nodes
      ensures CompactedUpTo(b, pos, old(nodes), nodes, n, b)
      ensures |old(nodes)[n]| == b && valid == Used(old(nodes)[n], b)
      ensures valid > 0 ==> validPtr < b && old(nodes)[n][validPtr].ptr != PHYS_MAP_NODE_NIL
      ensures LeavesIn(nodes, leaves)
      decreases pos[n].level, 4
    {
      ghost var nodes0 := nodes;
      CompactionStarts(b, pos, nodes, n);
      valid, validPtr := 0, b;
      var i := 0;
      while i < b
        invariant 0 <= i <= b && 0 <= validPtr <= b
        invariant CompactedUpTo(b, pos, nodes0, nodes, n, i) && LeavesIn(nodes, leaves)
        invariant |nodes0[n]| == b && valid == Used(nodes0[n], i)
        invariant valid > 0 ==> validPtr < i && nodes0[n][validPtr].ptr != PHYS_MAP_NODE_NIL
      {
        NextSlot(b, pos, nodes0, nodes, n, i);
        if nodes[n][i].ptr == PHYS_MAP_NODE_NIL {
          SkipSlot(b, pos, nodes0, nodes, n, i);
        } else {
          validPtr := i;
          valid := valid + 1;
          CompactUsed(n, i, nodes0);
        }
        i := i + 1;
      }
    }
  }
}
