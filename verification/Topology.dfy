/** Building the dispatch of an address space from its flat view, exec.c and memory.c.

A flat view is a list of disjoint sections.  Adding them one by one gives a map that means
what the view means, unless an assertion on the numbers of sections or of page-map nodes
fails. */
module Topology {
  import opened Dispatch
  import opened Pages
  import opened PhysMap
  import Radix

  /** The sections of a flat view: non-empty, inside the address space, disjoint. */
  ghost predicate FlatView(space: nat, view: seq<Section>) {
    && (forall i :: 0 <= i < |view| ==> view[i].mr.Io? && view[i].size > 0 && view[i].start + view[i].size <= space)
    && (forall i, j, a :: 0 <= i < j < |view| && Holds(view[i], a) ==> !Holds(view[j], a))
  }

  /** What a dispatch is for: the meaning of an address, from the sections it was built from. */
  function Where(view: seq<Section>, a: nat): Target {
    if view == [] then Nothing
    else if Holds(view[|view| - 1], a) then TargetIn(view[|view| - 1], a)
    else Where(view[..|view| - 1], a)
  }

  lemma {:induction false} WhereNothing(view: seq<Section>, a: nat)
    requires forall i :: 0 <= i < |view| ==> !Holds(view[i], a)
    ensures Where(view, a) == Nothing
  {
    if view != [] {
      WhereNothing(view[..|view| - 1], a);
    }
  }

  /** Where says, independently of the order of the sections, which one holds the address. */
  lemma {:induction false} WhereHolds(space: nat, view: seq<Section>, i: nat, a: nat)
    requires FlatView(space, view) && i < |view| && Holds(view[i], a)
    ensures Where(view, a) == Byte(view[i].mr, view[i].offset + a - view[i].start)
  {
    if i < |view| - 1 {
      WhereHolds(space, view[..|view| - 1], i, a);
    }
  }

  // ---------------------------------------------------------------- ragged pages

  /** The pages a section has only a part of. */
  function Ragged(page: nat, sec: Section): set<nat>
    requires page > 0
  {
    (if Aligned(page, sec.start) then {} else {HeadBase(page, sec)})
    + (if Aligned(page, sec.size - HeadSize(page, sec)) then {} else {TailBase(page, sec)})
  }

  function RaggedPages(page: nat, view: seq<Section>): set<nat>
    requires page > 0
  {
    if view == [] then {} else RaggedPages(page, view[..|view| - 1]) + Ragged(page, view[|view| - 1])
  }

  /** The pieces flatview_add_to_dispatch makes of the sections. */
  function Pieces(page: nat, view: seq<Section>): nat
    requires page > 0
  {
    if view == [] then 0 else Pieces(page, view[..|view| - 1]) + Need(page, view[|view| - 1], 1, 1, 1)
  }

  /** The section numbers the view takes: those every map has, one for each piece, and one for
      the sub-page table of each ragged page. */
  function Numbers(page: nat, view: seq<Section>): nat
    requires page > 0
  {
    4 + Pieces(page, view) + |RaggedPages(page, view)|
  }

  /** The section has bytes on the page. */
  ghost predicate Touches(page: nat, sec: Section, base: nat) {
    exists a :: base <= a < base + page && Holds(sec, a)
  }

  /** The head of a section ends on a page boundary, unless it is all of it. */
  lemma TailPlace(page: nat, sec: Section)
    requires page > 0 && sec.size > 0 && !Aligned(page, sec.size - HeadSize(page, sec))
    ensures Aligned(page, TailBase(page, sec)) && sec.start + HeadSize(page, sec) <= TailBase(page, sec)
    ensures TailBase(page, sec) < sec.start + sec.size < TailBase(page, sec) + page
    ensures !Aligned(page, sec.start) ==> HeadBase(page, sec) < TailBase(page, sec)
  {
    var head := HeadSize(page, sec);
    var left := sec.size - head;
    HeadEnds(page, sec);
    PageOf(page, left);
    AlignedSum(page, sec.start + head, left - PageOff(page, left));
    if !Aligned(page, sec.start) {
      HeadInPage(page, sec);
    }
  }

  lemma RaggedIsTouched(page: nat, sec: Section, base: nat)
    requires page > 0 && sec.size > 0 && base in Ragged(page, sec)
    ensures Aligned(page, base) && Touches(page, sec, base)
  {
    if !Aligned(page, sec.start) && base == HeadBase(page, sec) {
      HeadInPage(page, sec);
      assert Holds(sec, sec.start);
    } else {
      TailPlace(page, sec);
      assert Holds(sec, base);
    }
  }

  /** A page with bytes of the section and with others is ragged: a page it starts in. */
  lemma StartsInside(page: nat, sec: Section, base: nat)
    requires page > 0 && Aligned(page, base) && base < sec.start < base + page
    ensures base in Ragged(page, sec)
  {
    PageBase(page, base, sec.start);
  }

  /** Or a page it ends in. */
  lemma EndsInside(page: nat, sec: Section, base: nat)
    requires page > 0 && Aligned(page, base) && sec.start <= base < sec.start + sec.size < base + page
    ensures base in Ragged(page, sec)
  {
    var head := HeadSize(page, sec);
    HeadBefore(page, sec, base);
    AlignedDifference(page, sec.start + head, base - (sec.start + head));
    PageBase(page, base - (sec.start + head), sec.size - head);
  }

  lemma HeadBefore(page: nat, sec: Section, base: nat)
    requires page > 0 && Aligned(page, base) && sec.start <= base < sec.start + sec.size
    ensures sec.start + HeadSize(page, sec) <= base && Aligned(page, sec.start + HeadSize(page, sec))
  {
    if !Aligned(page, sec.start) {
      HeadInPage(page, sec);
      WholePageBelow(page, HeadBase(page, sec), base);
    }
    HeadEnds(page, sec);
  }

  lemma PartlyTouchedIsRagged(page: nat, sec: Section, base: nat, z: nat)
    requires page > 0 && Aligned(page, base) && Touches(page, sec, base)
    requires base <= z < base + page && !Holds(sec, z)
    ensures base in Ragged(page, sec)
  {
    var a :| base <= a < base + page && Holds(sec, a);
    if base < sec.start {
      StartsInside(page, sec, base);
    } else {
      EndsInside(page, sec, base);
    }
  }

  lemma {:induction false} RaggedMember(page: nat, view: seq<Section>, base: nat)
    requires page > 0
    ensures base in RaggedPages(page, view) <==> exists j :: 0 <= j < |view| && base in Ragged(page, view[j])
  {
    if view != [] {
      var before := view[..|view| - 1];
      RaggedMember(page, before, base);
      if j :| 0 <= j < |view| && base in Ragged(page, view[j]) && j < |view| - 1 {
        assert before[j] == view[j];
      }
      if j :| 0 <= j < |before| && base in Ragged(page, before[j]) {
        assert view[j] == before[j];
      }
    }
  }

  /** The view has no bytes on the page. */
  ghost predicate Untouched(page: nat, view: seq<Section>, base: nat) {
    forall j :: 0 <= j < |view| ==> !Touches(page, view[j], base)
  }

  /** A page that has a byte z of another section is untouched so far exactly if it is not
      ragged so far. */
  lemma UntouchedIffNotRagged(page: nat, view: seq<Section>, base: nat, z: nat)
    requires page > 0 && Aligned(page, base) && base <= z < base + page
    requires forall j :: 0 <= j < |view| ==> view[j].size > 0 && !Holds(view[j], z)
    ensures Untouched(page, view, base) <==> base !in RaggedPages(page, view)
  {
    RaggedMember(page, view, base);
    if j :| 0 <= j < |view| && Touches(page, view[j], base) {
      PartlyTouchedIsRagged(page, view[j], base, z);
    }
    if j :| 0 <= j < |view| && base in Ragged(page, view[j]) {
      RaggedIsTouched(page, view[j], base);
    }
  }

  // ---------------------------------------------------------------- counting

  /** A page of the map is blank exactly if no section of the view has bytes there. */
  lemma BlankIffUntouched(m: Map, view: seq<Section>, base: nat)
    requires m.Geometry() && FlatView(m.space, view)
    requires forall a :: 0 <= a < m.space ==> m.Meaning(a) == Where(view, a)
    ensures Blank(m, base) <==> Untouched(m.page, view, base)
  {
    if Untouched(m.page, view, base) {
      forall a | base <= a < base + m.page && a < m.space
        ensures m.Meaning(a) == Nothing
      {
        forall j | 0 <= j < |view|
          ensures !Holds(view[j], a)
        {
          assert !Touches(m.page, view[j], base);
        }
        WhereNothing(view, a);
      }
    } else {
      var j :| 0 <= j < |view| && Touches(m.page, view[j], base);
      var a :| base <= a < base + m.page && Holds(view[j], a);
      WhereHolds(m.space, view, j, a);
    }
  }

  /** What a ragged page of the next section needs. */
  lemma PartNeedIs(m: Map, view: seq<Section>, base: nat, z: nat)
    requires m.Geometry() && FlatView(m.space, view)
    requires forall a :: 0 <= a < m.space ==> m.Meaning(a) == Where(view, a)
    requires Aligned(m.page, base) && base <= z < base + m.page
    requires forall j :: 0 <= j < |view| ==> !Holds(view[j], z)
    ensures PartNeed(m, base) == if base in RaggedPages(m.page, view) then 1 else 2
  {
    BlankIffUntouched(m, view, base);
    UntouchedIffNotRagged(m.page, view, base, z);
  }

  lemma OneMore(s: set<nat>, x: nat)
    ensures |s + {x}| == |s| + if x in s then 0 else 1
  {
    if x in s {
      assert s + {x} == s;
    }
  }

  /** How many pages become ragged with a section. */
  lemma RaggedSize(page: nat, s: set<nat>, sec: Section)
    requires page > 0 && sec.size > 0
    ensures |s + Ragged(page, sec)| == |s| + NewRagged(page, s, sec)
  {
    var x, y := HeadBase(page, sec), TailBase(page, sec);
    if Aligned(page, sec.start) {
      if Aligned(page, sec.size - HeadSize(page, sec)) {
        assert s + Ragged(page, sec) == s;
      } else {
        assert Ragged(page, sec) == {y};
        OneMore(s, y);
      }
    } else {
      OneMore(s, x);
      if Aligned(page, sec.size - HeadSize(page, sec)) {
        assert Ragged(page, sec) == {x};
      } else {
        TailPlace(page, sec);
        OneMore(s + {x}, y);
        assert s + Ragged(page, sec) == s + {x} + {y};
      }
    }
  }

  function NewRagged(page: nat, s: set<nat>, sec: Section): nat
    requires page > 0
  {
    (if !Aligned(page, sec.start) && HeadBase(page, sec) !in s then 1 else 0)
    + (if !Aligned(page, sec.size - HeadSize(page, sec)) && TailBase(page, sec) !in s then 1 else 0)
  }

  /** A section needs one number for each piece, and one for each page that becomes ragged. */
  lemma NeedIs(m: Map, view: seq<Section>, sec: Section)
    requires m.Geometry() && FlatView(m.space, view) && FlatView(m.space, view + [sec]) && sec.size > 0
    requires forall a :: 0 <= a < m.space ==> m.Meaning(a) == Where(view, a)
    ensures Need(m.page, sec, PartNeed(m, HeadBase(m.page, sec)), PartNeed(m, TailBase(m.page, sec)), 1)
         == Need(m.page, sec, 1, 1, 1) + NewRagged(m.page, RaggedPages(m.page, view), sec)
  {
    var page := m.page;
    if !Aligned(page, sec.start) {
      HeadInPage(page, sec);
      NotHeldBefore(m.space, view, sec, sec.start);
      PartNeedIs(m, view, HeadBase(page, sec), sec.start);
    }
    if !Aligned(page, sec.size - HeadSize(page, sec)) {
      TailPlace(page, sec);
      NotHeldBefore(m.space, view, sec, TailBase(page, sec));
      PartNeedIs(m, view, TailBase(page, sec), TailBase(page, sec));
    }
  }

  /** The section numbers after a section are those of the view with it. */
  lemma NumbersAfter(m: Map, view: seq<Section>, sec: Section, path: nat)
    requires m.Geometry() && FlatView(m.space, view) && FlatView(m.space, view + [sec]) && sec.size > 0
    requires forall a :: 0 <= a < m.space ==> m.Meaning(a) == Where(view, a)
    requires |m.sections| == Numbers(m.page, view)
    ensures SectionsAfter(m.page, sec, Opened(m, sec, path)) == Numbers(m.page, view + [sec])
  {
    NeedIs(m, view, sec);
    NumbersNext(m.page, view, sec);
  }

  lemma NumbersNext(page: nat, view: seq<Section>, sec: Section)
    requires page > 0 && sec.size > 0
    ensures Numbers(page, view + [sec])
         == Numbers(page, view) + Need(page, sec, 1, 1, 1) + NewRagged(page, RaggedPages(page, view), sec)
  {
    var all := view + [sec];
    assert all[..|view|] == view && all[|view|] == sec;
    RaggedSize(page, RaggedPages(page, view), sec);
  }

  lemma NotHeldBefore(space: nat, view: seq<Section>, sec: Section, z: nat)
    requires FlatView(space, view + [sec]) && Holds(sec, z)
    ensures forall j :: 0 <= j < |view| ==> !Holds(view[j], z)
  {
    var all := view + [sec];
    forall j | 0 <= j < |view|
      ensures !Holds(view[j], z)
    {
      assert all[j] == view[j] && all[|view|] == sec;
    }
  }

  lemma {:induction false} NumbersGrow(page: nat, view: seq<Section>, i: nat)
    requires page > 0 && i <= |view|
    ensures Numbers(page, view[..i]) <= Numbers(page, view)
    decreases |view|
  {
    if i == |view| {
      assert view[..i] == view;
    } else {
      var before := view[..|view| - 1];
      assert before[..i] == view[..i];
      NumbersGrow(page, before, i);
      Subset(RaggedPages(page, before), Ragged(page, view[|view| - 1]));
    }
  }

  lemma Subset(s: set<nat>, t: set<nat>)
    ensures |s| <= |s + t|
  {
    assert |s + t| == |s| + |t - s| by {
      assert s + t == s + (t - s);
    }
  }

  /** The most nodes of the page map the sections of a view need, with `path` for each piece. */
  function MostNodes(page: nat, view: seq<Section>, path: nat): nat
    requires page > 0
  {
    if view == [] then 0
    else MostNodes(page, view[..|view| - 1], path) + Need(page, view[|view| - 1], path, path, path)
  }

  lemma {:induction false} NodesGrow(page: nat, view: seq<Section>, path: nat, i: nat)
    requires page > 0 && i <= |view|
    ensures MostNodes(page, view[..i], path) <= MostNodes(page, view, path)
    decreases |view|
  {
    if i == |view| {
      assert view[..i] == view;
    } else {
      assert view[..|view| - 1][..i] == view[..i];
      NodesGrow(page, view[..|view| - 1], path, i);
    }
  }

  // ---------------------------------------------------------------- building

  /** The dispatch holds the first i sections of the view, with the numbers they take. */
  ghost predicate Built(d: AddressSpaceDispatch, view: seq<Section>, i: nat)
    requires i <= |view|
    reads d, d.table
  {
    && d.Building() && FlatView(d.space, view)
    && |d.sections| == Numbers(d.page, view[..i])
    && |d.table.nodes| <= MostNodes(d.page, view[..i], d.PathNodes())
    && forall a :: 0 <= a < d.space ==> d.Value().Meaning(a) == Where(view[..i], a)
  }

  lemma NextIsFree(m: Map, view: seq<Section>, i: nat)
    requires m.Geometry() && FlatView(m.space, view) && i < |view|
    requires forall a :: 0 <= a < m.space ==> m.Meaning(a) == Where(view[..i], a)
    ensures m.Free(view[i])
  {
    forall a | 0 <= a < m.space && Holds(view[i], a)
      ensures m.Meaning(a) == Nothing
    {
      WhereNothing(view[..i], a);
    }
  }

  lemma WhereGrows(m: Map, m': Map, view: seq<Section>, i: nat)
    requires m.Geometry() && m'.Geometry() && m'.space == m.space && i < |view|
    requires forall a :: 0 <= a < m.space ==> m.Meaning(a) == Where(view[..i], a)
    requires Extended(m, m', view[i])
    ensures forall a :: 0 <= a < m.space ==> m'.Meaning(a) == Where(view[..i + 1], a)
  {
    assert view[..i + 1][..i] == view[..i];
  }

  /** What the next section needs, in terms of the view. */
  lemma NextNeeds(m: Map, view: seq<Section>, i: nat, path: nat)
    requires m.Geometry() && FlatView(m.space, view) && i < |view|
    requires forall a :: 0 <= a < m.space ==> m.Meaning(a) == Where(view[..i], a)
    requires |m.sections| == Numbers(m.page, view[..i]) && |m.nodes| <= MostNodes(m.page, view[..i], path)
    ensures var acc := Opened(m, view[i], path);
            && SectionsAfter(m.page, view[i], acc) == Numbers(m.page, view[..i + 1]) <= Numbers(m.page, view)
            && NodesAfter(m.page, view[i], acc) <= MostNodes(m.page, view[..i + 1], path)
            && MostNodes(m.page, view[..i + 1], path) <= MostNodes(m.page, view, path)
  {
    assert view[..i + 1] == view[..i] + [view[i]];
    assert view[..i + 1][..i] == view[..i];
    FlatPrefix(m.space, view, i);
    FlatPrefix(m.space, view, i + 1);
    NumbersAfter(m, view[..i], view[i], path);
    NumbersGrow(m.page, view, i + 1);
    NodesGrow(m.page, view, path, i + 1);
  }

  lemma FlatPrefix(space: nat, view: seq<Section>, i: nat)
    requires FlatView(space, view) && i <= |view|
    ensures FlatView(space, view[..i])
  {
  }

  method AddOne(d: AddressSpaceDispatch, view: seq<Section>, i: nat) returns (r: Outcome<()>)
    requires i < |view| && Built(d, view, i)
    modifies d, d.table
    ensures r.Done? ==> Built(d, view, i + 1)
    ensures r.Aborted? ==> d.Exhausted()
    ensures r.Aborted? ==> d.page < Numbers(d.page, view)
                           || PHYS_MAP_NODE_NIL < MostNodes(d.page, view, d.PathNodes())
  {
    ghost var m := d.Value();
    NextIsFree(m, view, i);
    NextNeeds(m, view, i, d.PathNodes());
    r := d.Add(view[i]);
    if r.Done? {
      WhereGrows(m, d.Value(), view, i);
    }
  }

  /** All sections of the view, one after the other. */
  method AddAll(d: AddressSpaceDispatch, view: seq<Section>) returns (r: Outcome<()>)
    requires Built(d, view, 0)
    modifies d, d.table
    ensures r.Done? ==> d.Building() && Numbers(d.page, view) <= d.page
    ensures r.Done? ==> forall a :: 0 <= a < d.space ==> d.Value().Meaning(a) == Where(view, a)
    ensures r.Aborted? ==> d.Exhausted()
    ensures r.Aborted? ==> d.page < Numbers(d.page, view)
                           || PHYS_MAP_NODE_NIL < MostNodes(d.page, view, d.PathNodes())
  {
    var i := 0;
    while i < |view|
      invariant 0 <= i <= |view| && Built(d, view, i)
    {
      var _ :- AddOne(d, view, i);
      i := i + 1;
    }
    assert Built(d, view, |view|) && view[..|view|] == view;
    r := Done(());
  }

  /** The dispatch part of generate_memory_topology: a map that gives every address the
      region and the offset the flat view gives it, ready for lookups; or an assertion fails.
      If the view takes more section numbers than there are bytes in a page it does; otherwise
      it does only if the pieces of the view may need more nodes than there are. */
  method Generate(view: seq<Section>, page: nat, space: nat, b: nat, levels: nat)
    returns (r: Outcome<()>, d: AddressSpaceDispatch)
    requires 4 <= page <= 0x1_0000 && space > 0 && Aligned(page, space)
    requires b >= 2 && levels > 0 && PageNo(page, space) <= Radix.Pow(b, levels)
    requires FlatView(space, view)
    ensures fresh(d) && fresh(d.table) && d.space == space
    ensures r.Done? ==> d.Ready() && forall a :: 0 <= a < space ==> d.Value().Meaning(a) == Where(view, a)
    ensures r.Aborted? ==> d.Exhausted()
    ensures page < Numbers(page, view) ==> r.Aborted?
    ensures r.Aborted? ==> page < Numbers(page, view) || PHYS_MAP_NODE_NIL < MostNodes(page, view, 2 * levels - 1)
  {
    d := new AddressSpaceDispatch(page, space, b, levels);
    assert view[..0] == [] && Numbers(page, []) == 4;
    r := AddAll(d, view);
    if r.Done? {
      d.Compact();
    }
  }
}
