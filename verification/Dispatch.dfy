/** Address-space dispatch of exec.c: splitting memory sections into pages and
sub-pages, compaction, and lookup through the most-recently-used slot.

The page size and the size of the address space (2^64 in the source) are symbolic.
A section is returned by its number, as a pointer into the section table is. */
module Dispatch {
  import opened PhysMap
  import opened Pages
  import Radix

  datatype Region = Unassigned | NotDirty | Rom | Watch | Io(id: nat) | Subpage(index: nat)

  /** MemoryRegionSection: `size` bytes from address `start` show the region from `offset` on. */
  datatype Section = Section(mr: Region, start: nat, offset: nat, size: nat)

  /** subpage_t: one section number for every byte of the page. */
  datatype SubpageTable = SubpageTable(base: nat, sub: seq<nat>)

  /** What an address means: a byte of a region, or nothing. */
  datatype Target = Nothing | Byte(mr: Region, offset: int)

  predicate Holds(sec: Section, addr: nat) {
    sec.start <= addr < sec.start + sec.size
  }

  /** section_covers_addr; a size with a non-zero high half covers everything. */
  predicate Covers(space: nat, sec: Section, addr: nat) {
    sec.size >= space || Holds(sec, addr)
  }

  function TargetIn(sec: Section, addr: nat): Target {
    if sec.mr.Unassigned? then Nothing else Byte(sec.mr, sec.offset + addr - sec.start)
  }

  function SectionAt(sections: seq<Section>, s: nat): Section {
    if s < |sections| then sections[s] else Section(Unassigned, 0, 0, 0)
  }

  /** The section number sub-page resolution ends at, starting from section s. */
  function SubSection(page: nat, sections: seq<Section>, subs: seq<SubpageTable>, s: nat, addr: nat): nat
    requires page > 0
  {
    var mr := SectionAt(sections, s).mr;
    if mr.Subpage? && mr.index < |subs| && PageOff(page, addr) < |subs[mr.index].sub|
    then subs[mr.index].sub[PageOff(page, addr)]
    else s
  }

  function Resolve(page: nat, sections: seq<Section>, subs: seq<SubpageTable>, s: nat, addr: nat): Target
    requires page > 0
  {
    TargetIn(SectionAt(sections, SubSection(page, sections, subs, s, addr)), addr)
  }

  // ---------------------------------------------------------------- the invariant, on values

  /** Section s stands in the page map for whole pages of its own, or for one page
      that has a sub-page table with something in it. */
  ghost predicate LeafOk(page: nat, space: nat, sections: seq<Section>, subs: seq<SubpageTable>, s: nat)
    requires page > 0
  {
    && s < |sections|
    && Aligned(page, sections[s].start) && 0 < sections[s].size && sections[s].start + sections[s].size <= space
    && match sections[s].mr
       case Io(_) => true
       case Subpage(k) =>
         && k < |subs| && subs[k].base == sections[s].start && sections[s].size == page
         && exists i :: 0 <= i < |subs[k].sub| && subs[k].sub[i] != PHYS_SECTION_UNASSIGNED
       case _ => false
  }

  ghost predicate SubsOk(page: nat, sections: seq<Section>, subs: seq<SubpageTable>) {
    forall k :: 0 <= k < |subs| ==>
      |subs[k].sub| == page && forall i :: 0 <= i < page ==> SubEntryOk(sections, subs[k].sub[i])
  }

  predicate SubEntryOk(sections: seq<Section>, t: nat) {
    t < |sections| && (t == PHYS_SECTION_UNASSIGNED || sections[t].mr.Io?)
  }

  /** `leaf` gives every address below `space` its section in the page map, one of
      `leaves`; each of those is the section of exactly the addresses it holds. */
  ghost predicate LeavesOk(page: nat, space: nat, sections: seq<Section>, subs: seq<SubpageTable>, leaves: set<nat>,
                           leaf: nat -> nat)
    requires page > 0
  {
    && (forall a :: 0 <= a < space ==> leaf(a) in leaves)
    && (forall s :: s in leaves && s != PHYS_SECTION_UNASSIGNED ==> LeafOk(page, space, sections, subs, s))
    && (forall s, a :: s in leaves && s != PHYS_SECTION_UNASSIGNED && 0 <= a < space ==>
          (Holds(SectionAt(sections, s), a) <==> leaf(a) == s))
  }

  ghost predicate Consistent(page: nat, space: nat, sections: seq<Section>, subs: seq<SubpageTable>,
                             leaves: set<nat>, leaf: nat -> nat) {
    && page > 0
    && |sections| > 0 && sections[0].mr == Unassigned && sections[0].size >= space
    && SubsOk(page, sections, subs)
    && LeavesOk(page, space, sections, subs, leaves, leaf)
  }

  /** The meaning of addresses after a section is added: its own bytes, and everything else as before. */
  ghost predicate Added(page: nat, space: nat, sections: seq<Section>, subs: seq<SubpageTable>, leaf: nat -> nat,
                        sections': seq<Section>, subs': seq<SubpageTable>, leaf': nat -> nat, sec: Section)
    requires page > 0
  {
    forall a :: 0 <= a < space ==>
      Resolve(page, sections', subs', leaf'(a), a) ==
        if Holds(sec, a) then TargetIn(sec, a) else Resolve(page, sections, subs, leaf(a), a)
  }

  /** Appending sections changes nothing for the numbers in use. */
  lemma AppendKeepsResolve(page: nat, sections: seq<Section>, more: seq<Section>, subs: seq<SubpageTable>, s: nat,
                           a: nat)
    requires page > 0 && s < |sections| && SubsOk(page, sections, subs)
    ensures Resolve(page, sections + more, subs, s, a) == Resolve(page, sections, subs, s, a)
  {
    var mr := sections[s].mr;
    if mr.Subpage? && mr.index < |subs| && PageOff(page, a) < |subs[mr.index].sub| {
      assert SubEntryOk(sections, subs[mr.index].sub[PageOff(page, a)]);
    }
  }

  lemma AppendKeepsSubs(page: nat, sections: seq<Section>, more: seq<Section>, subs: seq<SubpageTable>)
    requires SubsOk(page, sections, subs)
    ensures SubsOk(page, sections + more, subs)
  {
    forall k | 0 <= k < |subs|
      ensures |subs[k].sub| == page && forall i :: 0 <= i < page ==> SubEntryOk(sections + more, subs[k].sub[i])
    {
      forall i | 0 <= i < page
        ensures SubEntryOk(sections + more, subs[k].sub[i])
      {
        assert SubEntryOk(sections, subs[k].sub[i]);
      }
    }
  }

  /** Giving the new section number to the addresses it holds keeps the leaves exact. */
  lemma NewLeafExact(page: nat, space: nat, sections: seq<Section>, more: seq<Section>, subs: seq<SubpageTable>,
                     subs': seq<SubpageTable>, leaves: set<nat>, leaf: nat -> nat, leaf': nat -> nat, sec: Section)
    requires page > 0 && LeavesOk(page, space, sections, subs, leaves, leaf)
    requires |more| > 0 && more[0] == sec && sec.size > 0 && sec.start + sec.size <= space
    requires subs <= subs' && LeafOk(page, space, sections + more, subs', |sections|)
    requires |sections| > 0
    requires forall a :: 0 <= a < space && Holds(sec, a) ==> leaf(a) == PHYS_SECTION_UNASSIGNED
    requires forall a :: 0 <= a < space ==> leaf'(a) == if Holds(sec, a) then |sections| else leaf(a)
    ensures LeavesOk(page, space, sections + more, subs', leaves + {|sections|}, leaf')
  {
    var leaves' := leaves + {|sections|};
    forall s | s in leaves' && s != PHYS_SECTION_UNASSIGNED
      ensures LeafOk(page, space, sections + more, subs', s)
    {
      if s != |sections| {
        assert LeafOk(page, space, sections, subs, s);
      }
    }
    forall s, a | s in leaves' && s != PHYS_SECTION_UNASSIGNED && 0 <= a < space
      ensures Holds(SectionAt(sections + more, s), a) <==> leaf'(a) == s
    {
      if s in leaves {
        assert LeafOk(page, space, sections, subs, s);
        assert Holds(SectionAt(sections, s), a) <==> leaf(a) == s;
      } else {
        assert leaf(a) in leaves;
      }
    }
  }

  /** register_multipage: whole pages get the new section. */
  lemma AddPages(page: nat, space: nat, sections: seq<Section>, subs: seq<SubpageTable>,
                 leaves: set<nat>, leaf: nat -> nat, leaf': nat -> nat, sec: Section)
    requires Consistent(page, space, sections, subs, leaves, leaf)
    requires sec.mr.Io? && Aligned(page, sec.start) && sec.size > 0 && sec.start + sec.size <= space
    requires forall a :: 0 <= a < space && Holds(sec, a) ==> leaf(a) == PHYS_SECTION_UNASSIGNED
    requires forall a :: 0 <= a < space ==> leaf'(a) == if Holds(sec, a) then |sections| else leaf(a)
    ensures Consistent(page, space, sections + [sec], subs, leaves + {|sections|}, leaf')
    ensures Added(page, space, sections, subs, leaf, sections + [sec], subs, leaf', sec)
  {
    AppendKeepsSubs(page, sections, [sec], subs);
    NewLeafExact(page, space, sections, [sec], subs, subs, leaves, leaf, leaf', sec);
    forall a | 0 <= a < space
      ensures Resolve(page, sections + [sec], subs, leaf'(a), a) ==
              if Holds(sec, a) then TargetIn(sec, a) else Resolve(page, sections, subs, leaf(a), a)
    {
      if !Holds(sec, a) {
        LeafInRange(page, space, sections, subs, leaves, leaf, a);
        AppendKeepsResolve(page, sections, [sec], subs, leaf(a), a);
      }
    }
  }

  lemma LeafInRange(page: nat, space: nat, sections: seq<Section>, subs: seq<SubpageTable>, leaves: set<nat>,
                    leaf: nat -> nat, a: nat)
    requires Consistent(page, space, sections, subs, leaves, leaf) && a < space
    ensures leaf(a) < |sections|
  {
    if leaf(a) != PHYS_SECTION_UNASSIGNED {
      assert LeafOk(page, space, sections, subs, leaf(a));
    }
  }

  /** The sub-page table subpage_init makes. */
  function EmptyTable(page: nat): seq<nat> {
    seq(page, i => PHYS_SECTION_UNASSIGNED)
  }

  /** subpage_register: the bytes lo..hi of the page get section number t. */
  function Fill(sub: seq<nat>, lo: nat, hi: nat, t: nat): seq<nat> {
    seq(|sub|, i requires 0 <= i < |sub| => if lo <= i <= hi then t else sub[i])
  }

  /** The table of a page whose first section is sec, with number t. */
  function FirstTable(page: nat, base: nat, sec: Section, t: nat): SubpageTable
    requires base <= sec.start && sec.size > 0
  {
    SubpageTable(base, Fill(EmptyTable(page), sec.start - base, sec.start - base + sec.size - 1, t))
  }

  /** register_subpage on a page without a sub-page table. */
  lemma AddFirstSubpage(page: nat, space: nat, sections: seq<Section>, subs: seq<SubpageTable>,
                        leaves: set<nat>, leaf: nat -> nat, leaf': nat -> nat, base: nat, sec: Section)
    requires Consistent(page, space, sections, subs, leaves, leaf)
    requires sec.mr.Io? && sec.size > 0 && Aligned(page, base) && base <= sec.start
    requires sec.start + sec.size <= base + page <= space
    requires forall a :: base <= a < base + page ==> leaf(a) == PHYS_SECTION_UNASSIGNED
    requires forall a :: 0 <= a < space ==> leaf'(a) == if base <= a < base + page then |sections| else leaf(a)
    ensures var sub := FirstTable(page, base, sec, |sections| + 1);
            var sections' := sections + [Section(Subpage(|subs|), base, 0, page), sec];
            && Consistent(page, space, sections', subs + [sub], leaves + {|sections|}, leaf')
            && Added(page, space, sections, subs, leaf, sections', subs + [sub], leaf', sec)
  {
    var sub := FirstTable(page, base, sec, |sections| + 1);
    var whole := Section(Subpage(|subs|), base, 0, page);
    var more := [whole, sec];
    var subs' := subs + [sub];
    assert sub.sub[sec.start - base] == |sections| + 1;
    AppendKeepsSubs(page, sections, more, subs);
    assert SubsOk(page, sections + more, subs');
    NewLeafExact(page, space, sections, more, subs, subs', leaves, leaf, leaf', whole);
    forall a | 0 <= a < space
      ensures Resolve(page, sections + more, subs', leaf'(a), a) ==
              if Holds(sec, a) then TargetIn(sec, a) else Resolve(page, sections, subs, leaf(a), a)
    {
      if Holds(whole, a) {
        PageBase(page, base, a);
      } else {
        LeafInRange(page, space, sections, subs, leaves, leaf, a);
        AppendKeepsResolve(page, sections, more, subs, leaf(a), a);
        OldSubpage(page, space, sections, subs, leaves, leaf, a);
      }
    }
  }

  lemma OldSubpage(page: nat, space: nat, sections: seq<Section>, subs: seq<SubpageTable>, leaves: set<nat>,
                   leaf: nat -> nat, a: nat)
    requires Consistent(page, space, sections, subs, leaves, leaf) && a < space
    ensures var mr := SectionAt(sections, leaf(a)).mr;
            mr.Subpage? ==> mr.index < |subs| && |subs[mr.index].sub| == page
  {
    if leaf(a) != PHYS_SECTION_UNASSIGNED {
      assert LeafOk(page, space, sections, subs, leaf(a));
    }
  }

  /** Two leaves with the same sub-page table are the same leaf. */
  lemma SameSubpage(page: nat, space: nat, sections: seq<Section>, subs: seq<SubpageTable>, leaves: set<nat>,
                    leaf: nat -> nat, a: nat, c: nat)
    requires Consistent(page, space, sections, subs, leaves, leaf) && a < space && c < space
    requires SectionAt(sections, leaf(a)).mr.Subpage?
    requires SectionAt(sections, leaf(c)).mr == SectionAt(sections, leaf(a)).mr
    ensures leaf(a) == leaf(c)
  {
    assert LeafOk(page, space, sections, subs, leaf(a)) && LeafOk(page, space, sections, subs, leaf(c));
    assert Holds(SectionAt(sections, leaf(a)), a);
    assert Holds(SectionAt(sections, leaf(c)), c);
    assert Holds(SectionAt(sections, leaf(a)), c);
  }

  /** register_subpage on a page that has a sub-page table already. */
  lemma AddToSubpage(page: nat, space: nat, sections: seq<Section>, subs: seq<SubpageTable>,
                     leaves: set<nat>, leaf: nat -> nat, base: nat, sec: Section, k: nat)
    requires Consistent(page, space, sections, subs, leaves, leaf)
    requires sec.mr.Io? && sec.size > 0 && Aligned(page, base) && base <= sec.start
    requires sec.start + sec.size <= base + page <= space
    requires SectionAt(sections, leaf(base)).mr == Subpage(k) && k < |subs| && |subs[k].sub| == page
    ensures var lo := sec.start - base;
            var sub := subs[k].(sub := Fill(subs[k].sub, lo, lo + sec.size - 1, |sections|));
            && Consistent(page, space, sections + [sec], subs[k := sub], leaves, leaf)
            && Added(page, space, sections, subs, leaf, sections + [sec], subs[k := sub], leaf, sec)
  {
    var sub := subs[k].(sub := Fill(subs[k].sub, sec.start - base, sec.start - base + sec.size - 1, |sections|));
    var subs', sections' := subs[k := sub], sections + [sec];
    FillKeepsSubs(page, sections, subs, k, sec.start - base, sec.start - base + sec.size - 1, sec);
    FillKeepsLeaves(page, space, sections, subs, leaves, leaf, k, sub, sec, sec.start - base);
    forall a | 0 <= a < space
      ensures Resolve(page, sections', subs', leaf(a), a) ==
              if Holds(sec, a) then TargetIn(sec, a) else Resolve(page, sections, subs, leaf(a), a)
    {
      SubpageAddress(page, space, sections, subs, leaves, leaf, base, sec, k, a);
    }
  }

  lemma SubpageAddress(page: nat, space: nat, sections: seq<Section>, subs: seq<SubpageTable>,
                       leaves: set<nat>, leaf: nat -> nat, base: nat, sec: Section, k: nat, a: nat)
    requires Consistent(page, space, sections, subs, leaves, leaf) && a < space
    requires sec.size > 0 && Aligned(page, base) && base <= sec.start && sec.start + sec.size <= base + page <= space
    requires SectionAt(sections, leaf(base)).mr == Subpage(k) && k < |subs| && |subs[k].sub| == page
    ensures var lo := sec.start - base;
            var sub := subs[k].(sub := Fill(subs[k].sub, lo, lo + sec.size - 1, |sections|));
            Resolve(page, sections + [sec], subs[k := sub], leaf(a), a) ==
              if Holds(sec, a) then TargetIn(sec, a) else Resolve(page, sections, subs, leaf(a), a)
  {
    LeafInRange(page, space, sections, subs, leaves, leaf, a);
    AppendKeepsResolve(page, sections, [sec], subs, leaf(a), a);
    OldSubpage(page, space, sections, subs, leaves, leaf, a);
    SubpageHolds(page, space, sections, subs, leaves, leaf, base, k);
    if base <= a < base + page {
      PageBase(page, base, a);
      FillResolves(page, sections, subs, k, base, sec, leaf(a), a);
    } else if SectionAt(sections, leaf(a)).mr == Subpage(k) {
      SameSubpage(page, space, sections, subs, leaves, leaf, a, base);
    }
  }

  /** The page of a sub-page table is the page at its base. */
  lemma SubpageHolds(page: nat, space: nat, sections: seq<Section>, subs: seq<SubpageTable>, leaves: set<nat>,
                     leaf: nat -> nat, base: nat, k: nat)
    requires Consistent(page, space, sections, subs, leaves, leaf) && Aligned(page, base) && base + page <= space
    requires SectionAt(sections, leaf(base)).mr == Subpage(k)
    ensures forall a :: 0 <= a < space ==> (leaf(a) == leaf(base) <==> base <= a < base + page)
  {
    assert LeafOk(page, space, sections, subs, leaf(base));
    assert Holds(SectionAt(sections, leaf(base)), base);
    SamePage(page, sections[leaf(base)].start, base);
    forall a | 0 <= a < space
      ensures leaf(a) == leaf(base) <==> base <= a < base + page
    {
      assert Holds(SectionAt(sections, leaf(base)), a) <==> leaf(a) == leaf(base);
    }
  }

  lemma FillResolves(page: nat, sections: seq<Section>, subs: seq<SubpageTable>, k: nat, base: nat, sec: Section,
                     s: nat, a: nat)
    requires page > 0 && SubsOk(page, sections, subs) && k < |subs| && s < |sections| && sections[s].mr == Subpage(k)
    requires base <= a < base + page && PageOff(page, a) == a - base
    requires base <= sec.start && sec.size > 0 && sec.start + sec.size <= base + page
    ensures var lo := sec.start - base;
            var sub := subs[k].(sub := Fill(subs[k].sub, lo, lo + sec.size - 1, |sections|));
            Resolve(page, sections + [sec], subs[k := sub], s, a) ==
              if Holds(sec, a) then TargetIn(sec, a) else Resolve(page, sections, subs, s, a)
  {
    assert SubEntryOk(sections, subs[k].sub[a - base]);
  }

  lemma FillKeepsSubs(page: nat, sections: seq<Section>, subs: seq<SubpageTable>, k: nat, lo: nat, hi: nat,
                      sec: Section)
    requires SubsOk(page, sections, subs) && k < |subs| && sec.mr.Io?
    ensures SubsOk(page, sections + [sec], subs[k := subs[k].(sub := Fill(subs[k].sub, lo, hi, |sections|))])
  {
    var subs' := subs[k := subs[k].(sub := Fill(subs[k].sub, lo, hi, |sections|))];
    AppendKeepsSubs(page, sections, [sec], subs);
    forall i | 0 <= i < page
      ensures SubEntryOk(sections + [sec], subs'[k].sub[i])
    {
      assert SubEntryOk(sections + [sec], subs[k].sub[i]);
    }
  }

  lemma FillKeepsLeaves(page: nat, space: nat, sections: seq<Section>, subs: seq<SubpageTable>, leaves: set<nat>,
                        leaf: nat -> nat,
                        k: nat, sub: SubpageTable, sec: Section, i: nat)
    requires Consistent(page, space, sections, subs, leaves, leaf) && k < |subs|
    requires sub.base == subs[k].base && i < |sub.sub| && sub.sub[i] != PHYS_SECTION_UNASSIGNED
    ensures LeavesOk(page, space, sections + [sec], subs[k := sub], leaves, leaf)
  {
    forall s | s in leaves && s != PHYS_SECTION_UNASSIGNED
      ensures LeafOk(page, space, sections + [sec], subs[k := sub], s)
    {
      assert LeafOk(page, space, sections, subs, s);
    }
    forall s, a | s in leaves && s != PHYS_SECTION_UNASSIGNED && 0 <= a < space
      ensures Holds(SectionAt(sections + [sec], s), a) <==> leaf(a) == s
    {
      assert LeafOk(page, space, sections, subs, s);
      assert Holds(SectionAt(sections, s), a) <==> leaf(a) == s;
    }
  }

  /** A page in the map is not empty: some byte of it means something. */
  lemma LeafMeansSomething(page: nat, space: nat, sections: seq<Section>, subs: seq<SubpageTable>, leaves: set<nat>,
                           leaf: nat -> nat, base: nat)
    returns (a: nat)
    requires Consistent(page, space, sections, subs, leaves, leaf) && Aligned(page, base) && base + page <= space
    requires leaf(base) != PHYS_SECTION_UNASSIGNED
    ensures base <= a < base + page && Resolve(page, sections, subs, leaf(a), a).Byte?
  {
    assert LeafOk(page, space, sections, subs, leaf(base));
    assert Holds(SectionAt(sections, leaf(base)), base);
    if sections[leaf(base)].mr.Io? {
      a := base;
    } else {
      var k := sections[leaf(base)].mr.index;
      var i :| 0 <= i < |subs[k].sub| && subs[k].sub[i] != PHYS_SECTION_UNASSIGNED;
      assert SubEntryOk(sections, subs[k].sub[i]);
      SamePage(page, sections[leaf(base)].start, base);
      a := base + i;
      PageBase(page, base, a);
      assert Holds(SectionAt(sections, leaf(base)), a);
    }
  }

  // ---------------------------------------------------------------- the map as a value

  /** The section number the page map holds for each address. */
  function TreeLeaf(b: nat, nodes: seq<Node>, root: Entry, levels: nat, page: nat): nat -> nat
    requires b > 0 && page > 0
  {
    (a: nat) => Find(b, nodes, root, levels, PageNo(page, a))
  }

  /** The section number phys_page_find returns for each address. */
  function FoundLeaf(b: nat, nodes: seq<Node>, root: Entry, levels: nat, page: nat, space: nat,
                     sections: seq<Section>): nat -> nat
    requires b > 0 && page > 0
  {
    (a: nat) => var s := Find(b, nodes, root, levels, PageNo(page, a));
                if Covers(space, SectionAt(sections, s), a) then s else PHYS_SECTION_UNASSIGNED
  }

  /** Everything a lookup depends on. */
  datatype Map = Map(b: nat, levels: nat, nodes: seq<Node>, root: Entry,
                     page: nat, space: nat, sections: seq<Section>, subs: seq<SubpageTable>, leaves: set<nat>)
  {
    ghost predicate Geometry() {
      && page > 0 && page <= 0x1_0000 && Aligned(page, space) && space > 0
      && b >= 2 && PageNo(page, space) <= Radix.Pow(b, levels)
    }

    ghost function Leaf(): nat -> nat
      requires Geometry()
    {
      TreeLeaf(b, nodes, root, levels, page)
    }

    ghost function Found(): nat -> nat
      requires Geometry()
    {
      FoundLeaf(b, nodes, root, levels, page, space, sections)
    }

    /** What the map says an address means. */
    ghost function Meaning(a: nat): Target
      requires Geometry()
    {
      Resolve(page, sections, subs, Found()(a), a)
    }

    /** While sections are being added. */
    ghost predicate Building() {
      Geometry() && Consistent(page, space, sections, subs, leaves, Leaf())
    }

    /** Ready for lookups. */
    ghost predicate Ready() {
      Geometry() && Consistent(page, space, sections, subs, leaves, Found())
    }

    ghost predicate Free(sec: Section)
      requires Geometry()
    {
      forall a :: 0 <= a < space && Holds(sec, a) ==> Meaning(a) == Nothing
    }
  }

  /** m' means what m means, except that the bytes of sec now mean sec. */
  ghost predicate Extended(m: Map, m': Map, sec: Section)
    requires m.Geometry() && m'.Geometry()
  {
    forall a :: 0 <= a < m.space ==> m'.Meaning(a) == if Holds(sec, a) then TargetIn(sec, a) else m.Meaning(a)
  }

  lemma FoundIsLeaf(m: Map, a: nat)
    requires m.Building() && a < m.space
    ensures m.Found()(a) == m.Leaf()(a)
  {
    var s := m.Leaf()(a);
    if s != PHYS_SECTION_UNASSIGNED {
      assert LeafOk(m.page, m.space, m.sections, m.subs, s);
      assert Holds(SectionAt(m.sections, s), a);
    }
  }

  lemma AddedExtends(m: Map, m': Map, sec: Section)
    requires m.Building() && m'.Building() && m'.page == m.page && m'.space == m.space
    requires Added(m.page, m.space, m.sections, m.subs, m.Leaf(), m'.sections, m'.subs, m'.Leaf(), sec)
    ensures Extended(m, m', sec)
  {
    forall a | 0 <= a < m.space
      ensures m'.Meaning(a) == if Holds(sec, a) then TargetIn(sec, a) else m.Meaning(a)
    {
      FoundIsLeaf(m, a);
      FoundIsLeaf(m', a);
    }
  }

  /** A page that has a section in the map has a byte that means something. */
  lemma UsedPage(m: Map, base: nat) returns (a: nat)
    requires m.Building() && Aligned(m.page, base) && base + m.page <= m.space
    requires m.Leaf()(base) != PHYS_SECTION_UNASSIGNED
    ensures base <= a < base + m.page && m.Meaning(a).Byte?
  {
    a := LeafMeansSomething(m.page, m.space, m.sections, m.subs, m.leaves, m.Leaf(), base);
    FoundIsLeaf(m, a);
  }

  lemma FreePage(m: Map, base: nat)
    requires m.Building() && Aligned(m.page, base) && base + m.page <= m.space
    requires forall a :: base <= a < base + m.page ==> m.Meaning(a) == Nothing
    ensures m.Leaf()(base) == PHYS_SECTION_UNASSIGNED
  {
    if m.Leaf()(base) != PHYS_SECTION_UNASSIGNED {
      var a := UsedPage(m, base);
    }
  }

  lemma FreePages(m: Map, sec: Section)
    requires m.Building() && m.Free(sec)
    requires Aligned(m.page, sec.start) && Aligned(m.page, sec.size) && sec.size > 0 && sec.start + sec.size <= m.space
    ensures UnassignedOn(m.b, m.nodes, m.root, m.levels, 0,
                         PageNo(m.page, sec.start), PageNo(m.page, sec.start) + PageNo(m.page, sec.size))
    ensures forall a :: 0 <= a < m.space && Holds(sec, a) ==> m.Leaf()(a) == PHYS_SECTION_UNASSIGNED
  {
    forall i | PageNo(m.page, sec.start) <= i < PageNo(m.page, sec.start) + PageNo(m.page, sec.size)
      ensures Find(m.b, m.nodes, m.root, m.levels, i) == PHYS_SECTION_UNASSIGNED
    {
      var base := BaseOf(m.page, i);
      AlignedRange(m.page, sec.start, sec.size, base);
      AlignedSum(m.page, sec.start, sec.size);
      WholePageBelow(m.page, base, sec.start + sec.size);
      FreePage(m, base);
    }
    forall a | 0 <= a < m.space && Holds(sec, a)
      ensures m.Leaf()(a) == PHYS_SECTION_UNASSIGNED
    {
      AlignedRange(m.page, sec.start, sec.size, a);
    }
  }

  /** Every page of the map in the range has the new number. */
  ghost predicate PagesSet(m: Map, m': Map, from: nat, count: nat, n: nat)
    requires m.b > 0
  {
    Painted(m.b, m.nodes, m.root, m'.nodes, m'.root, m.levels, 0, from, from + count, n)
  }

  /** Setting the pages of a range gives its addresses the new number. */
  lemma SetPageLeaf(m: Map, m': Map, start: nat, size: nat, n: nat, a: nat)
    requires m.Geometry() && Aligned(m.page, start) && Aligned(m.page, size) && a < m.space
    requires PagesSet(m, m', PageNo(m.page, start), PageNo(m.page, size), n)
    ensures Find(m.b, m'.nodes, m'.root, m.levels, PageNo(m.page, a)) ==
            if start <= a < start + size then n else Find(m.b, m.nodes, m.root, m.levels, PageNo(m.page, a))
  {
    AlignedRange(m.page, start, size, a);
    BelowAligned(m.page, a, m.space);
  }

  lemma SetPagesLeaf(m: Map, m': Map, start: nat, size: nat, n: nat)
    requires m.Geometry() && m'.Geometry() && m'.b == m.b && m'.levels == m.levels && m'.page == m.page
    requires Aligned(m.page, start) && Aligned(m.page, size)
    requires PagesSet(m, m', PageNo(m.page, start), PageNo(m.page, size), n)
    ensures forall a :: 0 <= a < m.space ==> m'.Leaf()(a) == if start <= a < start + size then n else m.Leaf()(a)
  {
    forall a | 0 <= a < m.space
      ensures m'.Leaf()(a) == if start <= a < start + size then n else m.Leaf()(a)
    {
      SetPageLeaf(m, m', start, size, n, a);
    }
  }

  /** An aligned range of addresses is a range of pages of the map. */
  lemma RangeInMap(m: Map, start: nat, size: nat)
    requires m.Geometry() && Aligned(m.page, start) && Aligned(m.page, size) && size > 0 && start + size <= m.space
    ensures 0 < PageNo(m.page, size) && PageNo(m.page, start) + PageNo(m.page, size) <= Radix.Pow(m.b, m.levels)
  {
    AlignedSum(m.page, start, size);
    PageOrder(m.page, start + size, m.space);
    PositivePages(m.page, size);
  }

  lemma MultipageAdded(m: Map, m': Map, sec: Section)
    requires m.Building() && m.Free(sec) && sec.mr.Io?
    requires Aligned(m.page, sec.start) && Aligned(m.page, sec.size) && sec.size > 0 && sec.start + sec.size <= m.space
    requires m' == m.(nodes := m'.nodes, root := m'.root, sections := m.sections + [sec],
                      leaves := m.leaves + {|m.sections|})
    requires PagesSet(m, m', PageNo(m.page, sec.start), PageNo(m.page, sec.size), |m.sections|)
    ensures m'.Building() && Extended(m, m', sec)
  {
    FreePages(m, sec);
    SetPagesLeaf(m, m', sec.start, sec.size, |m.sections|);
    AddPages(m.page, m.space, m.sections, m.subs, m.leaves, m.Leaf(), m'.Leaf(), sec);
    AddedExtends(m, m', sec);
  }

  function WholePage(m: Map, base: nat): Section {
    Section(Subpage(|m.subs|), base, 0, m.page)
  }

  /** register_subpage on a page that is unassigned. */
  lemma FirstSubpageAdded(m: Map, m': Map, base: nat, sec: Section)
    requires m.Building() && sec.mr.Io? && sec.size > 0
    requires Aligned(m.page, base) && base <= sec.start && sec.start + sec.size <= base + m.page <= m.space
    requires m.Leaf()(base) == PHYS_SECTION_UNASSIGNED
    requires PagesSet(m, m', PageNo(m.page, base), 1, |m.sections|)
    requires m'.b == m.b && m'.levels == m.levels && m'.page == m.page && m'.space == m.space
    requires m'.sections == m.sections + [WholePage(m, base), sec] && m'.leaves == m.leaves + {|m.sections|}
    requires m'.subs == m.subs + [FirstTable(m.page, base, sec, |m.sections| + 1)]
    ensures m'.Building() && Extended(m, m', sec)
  {
    OnePage(m.page);
    SetPagesLeaf(m, m', base, m.page, |m.sections|);
    UnassignedPage(m, base);
    assert WholePage(m, base) == Section(Subpage(|m.subs|), base, 0, m.page);
    AddFirstSubpage(m.page, m.space, m.sections, m.subs, m.leaves, m.Leaf(), m'.Leaf(), base, sec);
    AddedExtends(m, m', sec);
  }

  lemma UnassignedPage(m: Map, base: nat)
    requires m.Geometry() && Aligned(m.page, base) && m.Leaf()(base) == PHYS_SECTION_UNASSIGNED
    ensures forall a :: base <= a < base + m.page ==> m.Leaf()(a) == PHYS_SECTION_UNASSIGNED
  {
    forall a | base <= a < base + m.page
      ensures m.Leaf()(a) == PHYS_SECTION_UNASSIGNED
    {
      PageBase(m.page, base, a);
    }
  }

  /** The same in two steps: an empty table, m1, and then the section in it. */
  lemma FirstSubpageRegistered(m: Map, m1: Map, m': Map, base: nat, sec: Section, lo: nat)
    requires m.Building() && sec.mr.Io? && sec.size > 0
    requires Aligned(m.page, base) && base + lo == sec.start && lo + sec.size <= m.page && base + m.page <= m.space
    requires m.Leaf()(base) == PHYS_SECTION_UNASSIGNED
    requires PagesSet(m, m1, PageNo(m.page, base), 1, |m.sections|)
    requires m1 == m.(nodes := m1.nodes, root := m1.root, sections := m.sections + [WholePage(m, base)],
                      leaves := m.leaves + {|m.sections|}, subs := m.subs + [SubpageTable(base, EmptyTable(m.page))])
    requires m' == m1.(sections := m1.sections + [sec],
                       subs := m1.subs[|m.subs| := m1.subs[|m.subs|].(sub := Fill(m1.subs[|m.subs|].sub, lo,
                                                                                 lo + sec.size - 1, |m1.sections|))])
    ensures m'.Building() && Extended(m, m', sec)
  {
    var empty, n := SubpageTable(base, EmptyTable(m.page)), |m1.sections|;
    assert m1.subs[|m.subs|] == empty && n == |m.sections| + 1;
    TwoAppended(m.sections, WholePage(m, base), sec);
    TableFilled(m.page, base, sec, lo, n);
    LastReplaced(m.subs, empty, FirstTable(m.page, base, sec, n));
    FirstSubpageAdded(m, m', base, sec);
  }

  lemma TableFilled(page: nat, base: nat, sec: Section, lo: nat, n: nat)
    requires base + lo == sec.start && sec.size > 0
    ensures SubpageTable(base, EmptyTable(page)).(sub := Fill(EmptyTable(page), lo, lo + sec.size - 1, n))
         == FirstTable(page, base, sec, n)
  {
    assert sec.start - base == lo;
  }

  lemma TwoAppended<T>(s: seq<T>, x: T, y: T)
    ensures s + [x] + [y] == s + [x, y]
  {
  }

  lemma LastReplaced<T>(s: seq<T>, x: T, y: T)
    ensures (s + [x])[|s| := y] == s + [y]
  {
  }

  /** register_subpage on a page that has a sub-page table. */
  lemma SubpageAdded(m: Map, m': Map, base: nat, sec: Section, k: nat)
    requires m.Building() && sec.mr.Io? && sec.size > 0
    requires Aligned(m.page, base) && base <= sec.start && sec.start + sec.size <= base + m.page <= m.space
    requires SectionAt(m.sections, m.Leaf()(base)).mr == Subpage(k) && k < |m.subs| && |m.subs[k].sub| == m.page
    requires m' == m.(sections := m.sections + [sec],
                      subs := m.subs[k := m.subs[k].(sub := Fill(m.subs[k].sub, sec.start - base,
                                                                sec.start - base + sec.size - 1, |m.sections|))])
    ensures m'.Building() && Extended(m, m', sec)
  {
    assert m'.Leaf() == m.Leaf();
    AddToSubpage(m.page, m.space, m.sections, m.subs, m.leaves, m.Leaf(), base, sec, k);
    AddedExtends(m, m', sec);
  }

  /** The assertion of register_subpage: the page of a free range is unassigned, or
      has a sub-page table. */
  lemma SubpageOrNothing(m: Map, base: nat, sec: Section)
    requires m.Building() && m.Free(sec) && sec.size > 0
    requires Aligned(m.page, base) && base <= sec.start && sec.start + sec.size <= base + m.page <= m.space
    ensures var mr := SectionAt(m.sections, m.Leaf()(base)).mr;
            || (m.Leaf()(base) == PHYS_SECTION_UNASSIGNED && mr == Unassigned)
            || (mr.Subpage? && mr.index < |m.subs| && |m.subs[mr.index].sub| == m.page)
  {
    var s := m.Leaf()(base);
    if s != PHYS_SECTION_UNASSIGNED {
      assert LeafOk(m.page, m.space, m.sections, m.subs, s);
      PageBase(m.page, base, sec.start);
      FoundIsLeaf(m, sec.start);
      assert m.Meaning(sec.start) == Nothing;
    }
  }

  lemma OnePageFree(m: Map, base: nat)
    requires m.Geometry() && Aligned(m.page, base) && base + m.page <= m.space
    requires m.Leaf()(base) == PHYS_SECTION_UNASSIGNED
    ensures UnassignedOn(m.b, m.nodes, m.root, m.levels, 0, PageNo(m.page, base), PageNo(m.page, base) + 1)
    ensures PageNo(m.page, base) + 1 <= Radix.Pow(m.b, m.levels)
  {
    OnePage(m.page);
    RangeInMap(m, base, m.page);
  }

  /** The page of a section inside one page, and what register_subpage finds there. */
  lemma SubpageCase(m: Map, sec: Section, base: nat, s: nat)
    requires m.Building() && m.Free(sec) && sec.size > 0
    requires PageOff(m.page, sec.start) + sec.size <= m.page && sec.start + sec.size <= m.space
    requires base == sec.start - PageOff(m.page, sec.start) && s == m.Found()(base)
    ensures Aligned(m.page, base) && base + m.page <= m.space && s == m.Leaf()(base) && s < |m.sections|
    ensures if m.sections[s].mr.Subpage?
            then m.sections[s].mr.index < |m.subs| && |m.subs[m.sections[s].mr.index].sub| == m.page
            else s == PHYS_SECTION_UNASSIGNED && m.sections[s].mr == Unassigned
  {
    PageOf(m.page, sec.start);
    WholePageBelow(m.page, base, m.space);
    SubpageOrNothing(m, base, sec);
    FoundIsLeaf(m, base);
    LeafInRange(m.page, m.space, m.sections, m.subs, m.leaves, m.Leaf(), base);
  }

  lemma OnePage(page: nat)
    requires page > 0
    ensures Aligned(page, page) && PageNo(page, page) == 1
  {
  }

  // ---------------------------------------------------------------- compaction and lookup

  /** Compaction may send an unassigned address to a section, but the section does not
      cover it, so phys_page_find returns the same as before. */
  lemma CompactionKeepsFound(m: Map, m': Map, a: nat)
    requires m.Building() && m'.Geometry() && a < m.space
    requires m' == m.(nodes := m'.nodes, root := m'.root)
    requires m.Leaf()(a) in {m'.Leaf()(a), PHYS_SECTION_UNASSIGNED} && m'.Leaf()(a) in m.leaves
    ensures m'.Found()(a) == m.Found()(a)
  {
    FoundIsLeaf(m, a);
    var s := m'.Leaf()(a);
    if s != m.Leaf()(a) {
      assert LeafOk(m.page, m.space, m.sections, m.subs, s);
      assert Holds(SectionAt(m.sections, s), a) <==> m.Leaf()(a) == s;
    }
  }

  lemma CompactionKeepsMeaning(m: Map, m': Map)
    requires m.Building() && m'.Geometry()
    requires m' == m.(nodes := m'.nodes, root := m'.root)
    requires forall a :: 0 <= a < m.space ==>
               m.Leaf()(a) in {m'.Leaf()(a), PHYS_SECTION_UNASSIGNED} && m'.Leaf()(a) in m.leaves
    ensures m'.Ready()
    ensures forall a :: 0 <= a < m.space ==> m'.Meaning(a) == m.Meaning(a)
  {
    forall a | 0 <= a < m.space
      ensures m'.Found()(a) == m.Leaf()(a) == m.Found()(a)
    {
      CompactionKeepsFound(m, m', a);
      FoundIsLeaf(m, a);
    }
    SameLeaves(m.page, m.space, m.sections, m.subs, m.leaves, m.Leaf(), m'.Found());
  }

  lemma SameLeaves(page: nat, space: nat, sections: seq<Section>, subs: seq<SubpageTable>, leaves: set<nat>,
                   leaf: nat -> nat, leaf': nat -> nat)
    requires Consistent(page, space, sections, subs, leaves, leaf)
    requires forall a :: 0 <= a < space ==> leaf'(a) == leaf(a)
    ensures Consistent(page, space, sections, subs, leaves, leaf')
  {
    forall s, a | s in leaves && s != PHYS_SECTION_UNASSIGNED && 0 <= a < space
      ensures Holds(SectionAt(sections, s), a) <==> leaf'(a) == s
    {
      assert Holds(SectionAt(sections, s), a) <==> leaf(a) == s;
    }
  }

  // ---------------------------------------------------------------- splitting a section

  /** `len` bytes of a section, from byte `from` on. */
  function Piece(sec: Section, from: nat, len: nat): Section {
    Section(sec.mr, sec.start + from, sec.offset + from, len)
  }

  lemma PieceFree(m: Map, m': Map, sec: Section, done: nat, len: nat)
    requires m.Geometry() && m'.Geometry() && m'.space == m.space && m.Free(sec) && done + len <= sec.size
    requires Extended(m, m', Piece(sec, 0, done))
    ensures m'.Free(Piece(sec, done, len))
  {
    forall a | 0 <= a < m'.space && Holds(Piece(sec, done, len), a)
      ensures m'.Meaning(a) == Nothing
    {
      assert Holds(sec, a) && !Holds(Piece(sec, 0, done), a);
    }
  }

  lemma PieceExtends(m: Map, m': Map, m'': Map, sec: Section, done: nat, next: nat)
    requires m.Geometry() && m'.Geometry() && m''.Geometry() && m.space == m'.space == m''.space && done <= next
    requires Extended(m, m', Piece(sec, 0, done)) && Extended(m', m'', Piece(sec, done, next - done))
    ensures Extended(m, m'', Piece(sec, 0, next))
  {
    forall a | 0 <= a < m.space
      ensures m''.Meaning(a) == if Holds(Piece(sec, 0, next), a) then TargetIn(Piece(sec, 0, next), a) else m.Meaning(a)
    {
      assert m''.Meaning(a) == if Holds(Piece(sec, done, next - done), a)
                               then TargetIn(Piece(sec, done, next - done), a)
                               else m'.Meaning(a);
    }
  }

  lemma NothingAdded(m: Map, sec: Section)
    requires m.Geometry()
    ensures Extended(m, m, Piece(sec, 0, 0))
  {
  }

  /** What the pieces flatview_add_to_dispatch makes of `left` bytes that start on a page
      need: `multi` for the whole pages, `part` for a part of a page at the end. */
  function PiecesNeed(page: nat, left: nat, part: nat, multi: nat): nat
    requires page > 0
  {
    (if left >= page then multi else 0) + (if Aligned(page, left) then 0 else part)
  }

  /** How many bytes of a section lie before its first page boundary. */
  function HeadSize(page: nat, sec: Section): (r: nat)
    requires page > 0
    ensures r <= sec.size
  {
    if Aligned(page, sec.start) then 0 else Min(page - PageOff(page, sec.start), sec.size)
  }

  /** What all pieces of a section need: `head` for a part of a page at the start. */
  function Need(page: nat, sec: Section, head: nat, tail: nat, multi: nat): nat
    requires page > 0
  {
    (if Aligned(page, sec.start) then 0 else head) + PiecesNeed(page, sec.size - HeadSize(page, sec), tail, multi)
  }

  /** The pages of the parts at the start and at the end of a section. */
  function HeadBase(page: nat, sec: Section): nat
    requires page > 0
  {
    sec.start - PageOff(page, sec.start)
  }

  function TailBase(page: nat, sec: Section): nat
    requires page > 0
  {
    sec.start + sec.size - PageOff(page, sec.size - HeadSize(page, sec))
  }

  /** Nothing is mapped in the page at `base`. */
  ghost predicate Blank(m: Map, base: nat)
    requires m.Geometry()
  {
    forall a :: base <= a < base + m.page && a < m.space ==> m.Meaning(a) == Nothing
  }

  /** The sections a part of a page needs: its own and, if the page is blank, one for the
      sub-page table. */
  ghost function PartNeed(m: Map, base: nat): nat
    requires m.Geometry()
  {
    if Blank(m, base) then 2 else 1
  }

  /** What there is before a section is added, what the parts at its start and its end need in
      sections, and the most a piece needs in nodes. */
  datatype Account = Account(sections: nat, nodes: nat, head: nat, tail: nat, path: nat)

  ghost function Opened(m: Map, sec: Section, path: nat): Account
    requires m.Geometry()
  {
    Account(|m.sections|, |m.nodes|, PartNeed(m, HeadBase(m.page, sec)), PartNeed(m, TailBase(m.page, sec)), path)
  }

  /** The sections in use once the section has been added, and a bound on the nodes. */
  function SectionsAfter(page: nat, sec: Section, acc: Account): nat
    requires page > 0
  {
    acc.sections + Need(page, sec, acc.head, acc.tail, 1)
  }

  function NodesAfter(page: nat, sec: Section, acc: Account): nat
    requires page > 0
  {
    acc.nodes + Need(page, sec, acc.path, acc.path, acc.path)
  }

  /** The whole pages come first, and leave a part of a page. */
  lemma WholeFirst(page: nat, left: nat, part: nat, multi: nat)
    requires page > 0 && left >= page
    ensures PiecesNeed(page, left, part, multi) == multi + PiecesNeed(page, PageOff(page, left), part, multi)
  {
    assert PageOff(page, PageOff(page, left)) == PageOff(page, left);
  }

  /** With the section added up to its byte `done` there are sn sections and nn nodes: what is
      missing is what the rest of it needs. */
  predicate OnAccount(page: nat, sec: Section, done: nat, sn: nat, nn: nat, acc: Account)
    requires page > 0 && done <= sec.size
  {
    && sn + PiecesNeed(page, sec.size - done, acc.tail, 1) == SectionsAfter(page, sec, acc)
    && nn + PiecesNeed(page, sec.size - done, acc.path, acc.path) <= NodesAfter(page, sec, acc)
  }

  /** The section needs more numbers of sections or of nodes than there are. */
  predicate NoRoom(page: nat, sec: Section, acc: Account)
    requires page > 0
  {
    page < SectionsAfter(page, sec, acc) || PHYS_MAP_NODE_NIL < NodesAfter(page, sec, acc)
  }

  /** The piece from byte `done` on ends at `next`: whole pages while there are any, then the
      rest. */
  predicate NextPiece(page: nat, sec: Section, done: nat, next: nat, whole: bool)
    requires page > 0
  {
    done < next <= sec.size &&
    if whole then next == sec.size - PageOff(page, sec.size - done) else next == sec.size && sec.size - done < page
  }

  lemma RoomForHead(page: nat, sec: Section, acc: Account)
    requires page > 0 && !Aligned(page, sec.start)
    ensures page < acc.sections + acc.head || PHYS_MAP_NODE_NIL < acc.nodes + acc.path ==> NoRoom(page, sec, acc)
  {
  }

  lemma AfterHead(page: nat, sec: Section, len: nat, sn: nat, nn: nat, acc: Account)
    requires page > 0 && len == HeadSize(page, sec)
    requires if Aligned(page, sec.start) then sn == acc.sections && nn == acc.nodes
             else sn == acc.sections + acc.head && nn <= acc.nodes + acc.path
    ensures OnAccount(page, sec, len, sn, nn, acc)
  {
  }

  lemma RoomForPiece(page: nat, sec: Section, done: nat, whole: bool, sn: nat, nn: nat, acc: Account)
    requires page > 0 && done < sec.size && whole == (done + page <= sec.size)
    requires OnAccount(page, sec, done, sn, nn, acc)
    ensures page < sn + (if whole then 1 else acc.tail) || PHYS_MAP_NODE_NIL < nn + acc.path ==> NoRoom(page, sec, acc)
  {
    if whole {
      WholeFirst(page, sec.size - done, acc.tail, 1);
      WholeFirst(page, sec.size - done, acc.path, acc.path);
    }
  }

  lemma AfterPiece(page: nat, sec: Section, done: nat, next: nat, whole: bool, sn: nat, nn: nat, sn': nat, nn': nat,
                   acc: Account)
    requires page > 0 && done < sec.size && NextPiece(page, sec, done, next, whole)
    requires whole == (done + page <= sec.size)
    requires OnAccount(page, sec, done, sn, nn, acc)
    requires sn' == sn + (if whole then 1 else acc.tail) && nn' <= nn + acc.path
    ensures OnAccount(page, sec, next, sn', nn', acc)
  {
    if whole {
      WholeFirst(page, sec.size - done, acc.tail, 1);
      WholeFirst(page, sec.size - done, acc.path, acc.path);
    }
  }

  lemma HeadEnds(page: nat, sec: Section)
    requires page > 0
    ensures HeadSize(page, sec) < sec.size ==> Aligned(page, sec.start + HeadSize(page, sec))
  {
    HeadAligned(page, sec.start);
  }

  lemma HeadInPage(page: nat, sec: Section)
    requires page > 0 && sec.size > 0 && !Aligned(page, sec.start)
    ensures Aligned(page, HeadBase(page, sec)) && 0 < HeadSize(page, sec)
    ensures HeadBase(page, sec) <= sec.start && sec.start + HeadSize(page, sec) <= HeadBase(page, sec) + page
  {
    PageOf(page, sec.start);
  }

  lemma PartInPage(page: nat, base: nat, part: Section)
    requires page > 0 && Aligned(page, base) && base <= part.start && part.start + part.size <= base + page
    requires part.size > 0
    ensures HeadBase(page, part) == base && PageOff(page, part.start) + part.size <= page
  {
    PageBase(page, base, part.start);
  }

  /** A rest that is smaller than a page is the part at the end. */
  lemma RestIsTail(page: nat, sec: Section, done: nat)
    requires page > 0 && HeadSize(page, sec) <= done < sec.size && sec.size - done < page
    requires Aligned(page, sec.start + done)
    ensures TailBase(page, sec) == sec.start + done
  {
    var head := HeadSize(page, sec);
    HeadEnds(page, sec);
    AlignedDifference(page, sec.start + head, done - head);
    PageBase(page, done - head, sec.size - head);
  }

  /** A page is blank exactly if the page map has no section for it. */
  lemma BlankIffUnassigned(m: Map, base: nat)
    requires m.Building() && Aligned(m.page, base) && base + m.page <= m.space
    ensures Blank(m, base) <==> m.Leaf()(base) == PHYS_SECTION_UNASSIGNED
  {
    if Blank(m, base) {
      FreePage(m, base);
    } else {
      var a :| base <= a < base + m.page && m.Meaning(a) != Nothing;
      PageBase(m.page, base, a);
      FoundIsLeaf(m, a);
    }
  }

  /** The pieces of a section before its byte `done` are not in a page that starts there. */
  lemma BlankKept(m: Map, m': Map, sec: Section, done: nat, base: nat)
    requires m.Geometry() && m'.Geometry() && m'.space == m.space && m'.page == m.page
    requires Extended(m, m', Piece(sec, 0, done)) && (done == 0 || sec.start + done <= base)
    ensures PartNeed(m', base) == PartNeed(m, base)
  {
    forall a | base <= a < base + m.page && a < m.space
      ensures m'.Meaning(a) == m.Meaning(a)
    {
      assert !Holds(Piece(sec, 0, done), a);
    }
  }

  // ---------------------------------------------------------------- the dispatch object

  datatype Mru = Empty | Slot(s: nat)

  class AddressSpaceDispatch {
    const page: nat   // TARGET_PAGE_SIZE
    const space: nat  // 2^64
    const table: PageTable
    var sections: seq<Section>
    var subs: seq<SubpageTable>
    var mru: Mru

    ghost function Value(): Map
      reads this, table
    {
      Map(table.b, table.levels, table.nodes, table.root, page, space, sections, subs, table.leaves)
    }

    ghost predicate Building()
      reads this, table
    {
      Value().Building() && table.Uncompacted() && mru == Empty && |sections| <= page
    }

    ghost predicate Ready()
      reads this, table
    {
      Value().Ready() && table.Valid() && (mru.Slot? ==> mru.s in table.leaves)
    }

    /** address_space_dispatch_new. */
    constructor (page: nat, space: nat, b: nat, levels: nat)
      requires 4 <= page <= 0x1_0000 && space > 0 && Aligned(page, space)
      requires b >= 2 && levels > 0 && PageNo(page, space) <= Radix.Pow(b, levels)
      ensures Building() && fresh(table) && this.page == page && this.space == space
      ensures table.b == b && table.levels == levels && table.nodes == [] && |sections| == 4
      ensures forall a :: 0 <= a < space ==> Value().Meaning(a) == Nothing
    {
      this.page, this.space := page, space;
      table := new PageTable(b, levels);
      sections := [Section(Unassigned, 0, 0, space), Section(NotDirty, 0, 0, space),
                   Section(Rom, 0, 0, space), Section(Watch, 0, 0, space)];
      subs, mru := [], Empty;
      new;
      assert forall a: nat :: Value().Leaf()(a) == table.SectionOf(PageNo(page, a));
    }

    /** One of the assertions on the numbers of sections and nodes has failed. */
    ghost predicate Exhausted()
      reads this, table
    {
      |sections| == page || |table.nodes| == PHYS_MAP_NODE_NIL
    }

    /** What it takes to exhaust the numbers, starting from s0 sections and n0 nodes. */
    ghost predicate TooMuch(s0: nat, n0: nat, moreSections: nat, moreNodes: nat) {
      page < s0 + moreSections || PHYS_MAP_NODE_NIL < n0 + moreNodes
    }

    /** The most nodes one call of phys_page_set allocates. */
    function PathNodes(): nat {
      if table.levels == 0 then 0 else 2 * table.levels - 1
    }

    /** phys_section_add: the assertion fails if every section number below the page size is
        in use. */
    method SectionAdd(sec: Section) returns (n: Outcome<nat>)
      requires |sections| <= page
      modifies `sections
      ensures n == if old(|sections|) < page then Done(old(|sections|)) else Aborted
      ensures sections == if n.Done? then old(sections) + [sec] else old(sections)
    {
      if |sections| >= page {
        return Aborted;
      }
      n := Done(|sections|);
      sections := sections + [sec];
    }

    /** phys_page_find. */
    method PhysPageFind(addr: nat) returns (s: nat)
      requires Value().Geometry() && table.Valid()
      ensures s == Value().Found()(addr)
    {
      s := table.PageFind(PageNo(page, addr));
      if !Covers(space, SectionAt(sections, s), addr) {
        s := PHYS_SECTION_UNASSIGNED;
      }
    }

    /** register_multipage. */
    method RegisterMultipage(sec: Section) returns (r: Outcome<()>)
      requires Building()
      requires sec.mr.Io? && Aligned(page, sec.start) && Aligned(page, sec.size) && sec.size > 0
      requires sec.start + sec.size <= space
      requires Value().Free(sec)
      modifies this, table
      ensures r.Done? ==> Building() && Extended(old(Value()), Value(), sec)
      ensures r.Done? ==> |sections| == old(|sections|) + 1 && |table.nodes| <= old(|table.nodes|) + PathNodes()
      ensures r.Aborted? ==> Exhausted() && TooMuch(old(|sections|), old(|table.nodes|), 1, PathNodes())
    {
      ghost var m := Value();
      FreePages(m, sec);
      RangeInMap(m, sec.start, sec.size);
      var n :- SectionAdd(sec);
      var _ :- table.PageSet(PageNo(page, sec.start), PageNo(page, sec.size), n);
      MultipageAdded(m, Value(), sec);
      r := Done(());
    }

    /** subpage_register, on bytes lo..hi of a page. */
    method SubpageRegister(k: nat, lo: nat, hi: nat, t: nat)
      requires k < |subs| && hi < |subs[k].sub|
      modifies `subs
      ensures subs == old(subs)[k := old(subs)[k].(sub := Fill(old(subs)[k].sub, lo, hi, t))]
    {
      var sub := subs[k].sub;
      var idx := lo;
      while idx <= hi
        invariant lo <= idx && |sub| == |subs[k].sub|
        invariant forall i :: 0 <= i < |sub| ==> sub[i] == if lo <= i < idx && i <= hi then t else subs[k].sub[i]
        decreases hi - idx
      {
        sub := sub[idx := t];
        idx := idx + 1;
      }
      assert sub == Fill(subs[k].sub, lo, hi, t);
      subs := subs[k := subs[k].(sub := sub)];
    }

    /** register_subpage, on a section inside one page, with the sections it needs. */
    method RegisterSubpage(sec: Section, ghost need: nat) returns (r: Outcome<()>)
      requires Building()
      requires sec.mr.Io? && sec.size > 0 && PageOff(page, sec.start) + sec.size <= page
      requires sec.start + sec.size <= space
      requires Value().Free(sec) && need == PartNeed(Value(), HeadBase(page, sec))
      modifies this, table
      ensures r.Done? ==> Building() && Extended(old(Value()), Value(), sec)
      ensures r.Done? ==> |sections| == old(|sections|) + need && |table.nodes| <= old(|table.nodes|) + PathNodes()
      ensures r.Aborted? ==> Exhausted() && TooMuch(old(|sections|), old(|table.nodes|), need, PathNodes())
    {
      var base := sec.start - PageOff(page, sec.start);
      var existing := PhysPageFind(base);
      SubpageCase(Value(), sec, base, existing);
      BlankIffUnassigned(Value(), base);
      var lo := sec.start - base;
      if sections[existing].mr.Subpage? {
        r := NextSubpage(base, sec, lo, sections[existing].mr.index);
      } else {
        r := FirstSubpage(base, sec, lo);
      }
    }

    /** The end of register_subpage: the section gets a number, and its bytes of the page that. */
    method FillTable(k: nat, lo: nat, sec: Section) returns (r: Outcome<()>)
      requires |sections| <= page && k < |subs| && sec.size > 0 && lo + sec.size <= |subs[k].sub|
      modifies `sections, `subs
      ensures r.Done? ==> sections == old(sections) + [sec] && |sections| <= page
      ensures r.Done? ==>
                subs == old(subs)[k := old(subs)[k].(sub := Fill(old(subs)[k].sub, lo, lo + sec.size - 1,
                                                                 old(|sections|)))]
      ensures r.Aborted? ==> |sections| == old(|sections|) == page
    {
      var t :- SectionAdd(sec);
      SubpageRegister(k, lo, lo + sec.size - 1, t);
      r := Done(());
    }

    /** The branch of register_subpage for a page with a sub-page table. */
    method NextSubpage(base: nat, sec: Section, lo: nat, k: nat) returns (r: Outcome<()>)
      requires Building()
      requires sec.mr.Io? && sec.size > 0 && lo + sec.size <= page && base + lo == sec.start
      requires Aligned(page, base) && base + page <= space
      requires SectionAt(sections, Value().Leaf()(base)).mr == Subpage(k) && k < |subs| && |subs[k].sub| == page
      modifies this
      ensures r.Done? ==> Building() && |sections| == old(|sections|) + 1 && Extended(old(Value()), Value(), sec)
      ensures r.Aborted? ==> |sections| == old(|sections|) == page
    {
      ghost var m := Value();
      r := FillTable(k, lo, sec);
      if r.Done? {
        SubpageAdded(m, Value(), base, sec, k);
      }
    }

    /** An empty sub-page table for a page. */
    method StartTable(base: nat) returns (r: Outcome<nat>)
      requires Building() && Aligned(page, base) && base + page <= space
      requires Value().Leaf()(base) == PHYS_SECTION_UNASSIGNED
      modifies this, table
      ensures r.Done? ==> table.Uncompacted() && mru == Empty && |sections| <= page && r.value == old(|subs|)
      ensures r.Done? ==> PagesSet(old(Value()), Value(), PageNo(page, base), 1, old(|sections|))
      ensures r.Done? ==> Value() == old(Value()).(nodes := table.nodes, root := table.root,
                                                   sections := old(sections) + [WholePage(old(Value()), base)],
                                                   leaves := old(table.leaves) + {old(|sections|)},
                                                   subs := old(subs) + [SubpageTable(base, EmptyTable(page))])
      ensures r.Done? ==> |table.nodes| <= old(|table.nodes|) + PathNodes()
      ensures r.Aborted? ==> Exhausted() && TooMuch(old(|sections|), old(|table.nodes|), 1, PathNodes())
    {
      OnePageFree(Value(), base);
      var k := |subs|;
      subs := subs + [SubpageTable(base, EmptyTable(page))];
      var n :- SectionAdd(Section(Subpage(k), base, 0, page));
      var _ :- table.PageSet(PageNo(page, base), 1, n);
      r := Done(k);
    }

    /** The branch of register_subpage that starts a sub-page table. */
    method FirstSubpage(base: nat, sec: Section, lo: nat) returns (r: Outcome<()>)
      requires Building()
      requires sec.mr.Io? && sec.size > 0 && lo + sec.size <= page && base + lo == sec.start
      requires Aligned(page, base) && base + page <= space
      requires Value().Leaf()(base) == PHYS_SECTION_UNASSIGNED
      modifies this, table
      ensures r.Done? ==> Building() && Extended(old(Value()), Value(), sec)
      ensures r.Done? ==> |sections| == old(|sections|) + 2 && |table.nodes| <= old(|table.nodes|) + PathNodes()
      ensures r.Aborted? ==> Exhausted() && TooMuch(old(|sections|), old(|table.nodes|), 2, PathNodes())
    {
      ghost var m := Value();
      var k :- StartTable(base);
      ghost var m1 := Value();
      var _ :- FillTable(k, lo, sec);
      FirstSubpageRegistered(m, m1, Value(), base, sec, lo);
      r := Done(());
    }

    /** The first `done` bytes of the section have been added. */
    ghost predicate Progress(m0: Map, sec: Section, done: nat)
      requires m0.Geometry()
      reads this, table
    {
      && Building() && m0.space == space && m0.page == page
      && Extended(m0, Value(), Piece(sec, 0, done))
    }

    ghost predicate AtBoundary(sec: Section, done: nat)
      requires page > 0
    {
      HeadSize(page, sec) <= done <= sec.size && (done < sec.size ==> Aligned(page, sec.start + done))
    }

    /** A part of a page, bytes `done` to `next` of a section. */
    method RegisterPart(sec: Section, done: nat, next: nat, ghost base: nat, ghost need: nat, ghost m0: Map)
      returns (r: Outcome<()>)
      requires m0.Geometry() && m0.Free(sec) && Progress(m0, sec, done)
      requires sec.mr.Io? && done < next <= sec.size && sec.start + sec.size <= space
      requires Aligned(page, base) && base <= sec.start + done && sec.start + next <= base + page
      requires (done == 0 || sec.start + done == base) && need == PartNeed(m0, base)
      modifies this, table
      ensures r.Done? ==> Progress(m0, sec, next)
      ensures r.Done? ==> |sections| == old(|sections|) + need && |table.nodes| <= old(|table.nodes|) + PathNodes()
      ensures r.Aborted? ==> Exhausted() && TooMuch(old(|sections|), old(|table.nodes|), need, PathNodes())
    {
      ghost var m := Value();
      PieceFree(m0, m, sec, done, next - done);
      BlankKept(m0, m, sec, done, base);
      var part := Piece(sec, done, next - done);
      PartInPage(page, base, part);
      var _ :- RegisterSubpage(part, need);
      PieceExtends(m0, m, Value(), sec, done, next);
      r := Done(());
    }

    /** Whole pages, bytes `done` to `next` of a section. */
    method RegisterWhole(sec: Section, done: nat, next: nat, ghost m0: Map) returns (r: Outcome<()>)
      requires m0.Geometry() && m0.Free(sec) && Progress(m0, sec, done)
      requires sec.mr.Io? && done < next <= sec.size && sec.start + sec.size <= space
      requires Aligned(page, sec.start + done) && Aligned(page, next - done)
      modifies this, table
      ensures r.Done? ==> Progress(m0, sec, next)
      ensures r.Done? ==> |sections| == old(|sections|) + 1 && |table.nodes| <= old(|table.nodes|) + PathNodes()
      ensures r.Aborted? ==> Exhausted() && TooMuch(old(|sections|), old(|table.nodes|), 1, PathNodes())
    {
      ghost var m := Value();
      PieceFree(m0, m, sec, done, next - done);
      var _ :- RegisterMultipage(Piece(sec, done, next - done));
      PieceExtends(m0, m, Value(), sec, done, next);
      r := Done(());
    }

    /** The first branch of flatview_add_to_dispatch: a start inside a page. */
    method AddHead(sec: Section, ghost m0: Map, ghost need: nat) returns (r: Outcome<()>, next: nat)
      requires Building() && m0 == Value() && m0.Free(sec) && need == PartNeed(m0, HeadBase(page, sec))
      requires sec.mr.Io? && sec.size > 0 && sec.start + sec.size <= space
      modifies this, table
      ensures r.Done? ==> AtBoundary(sec, next) && next == HeadSize(page, sec) && Progress(m0, sec, next)
      ensures r.Done? ==>
                if Aligned(page, sec.start) then |sections| == old(|sections|) && |table.nodes| == old(|table.nodes|)
                else |sections| == old(|sections|) + need && |table.nodes| <= old(|table.nodes|) + PathNodes()
      ensures r.Aborted? ==>
                && !Aligned(page, sec.start) && Exhausted()
                && TooMuch(old(|sections|), old(|table.nodes|), need, PathNodes())
    {
      NothingAdded(m0, sec);
      HeadEnds(page, sec);
      r, next := Done(()), 0;
      if PageOff(page, sec.start) != 0 {
        HeadInPage(page, sec);
        next := Min(page - PageOff(page, sec.start), sec.size);
        r := RegisterPart(sec, 0, next, HeadBase(page, sec), need, m0);
      }
    }

    /** The same, with the account of the numbers that are left. */
    method AddHeadCounted(sec: Section, ghost m0: Map, ghost acc: Account) returns (r: Outcome<()>, next: nat)
      requires Building() && m0 == Value() && m0.Free(sec) && acc == Opened(m0, sec, PathNodes())
      requires sec.mr.Io? && sec.size > 0 && sec.start + sec.size <= space
      modifies this, table
      ensures r.Done? ==> AtBoundary(sec, next) && Progress(m0, sec, next)
      ensures r.Done? ==> OnAccount(page, sec, next, |sections|, |table.nodes|, acc)
      ensures r.Aborted? ==> Exhausted() && NoRoom(page, sec, acc)
    {
      if !Aligned(page, sec.start) {
        RoomForHead(page, sec, acc);
      }
      r, next := AddHead(sec, m0, acc.head);
      if r.Done? {
        AfterHead(page, sec, next, |sections|, |table.nodes|, acc);
      }
    }

    /** The whole pages among the bytes from `done` on. */
    method AddWholePages(sec: Section, done: nat, ghost m0: Map) returns (r: Outcome<()>, next: nat)
      requires m0.Geometry() && m0.Free(sec) && Progress(m0, sec, done) && AtBoundary(sec, done)
      requires done + page <= sec.size
      requires sec.mr.Io? && sec.start + sec.size <= space
      modifies this, table
      ensures r.Done? ==> NextPiece(page, sec, done, next, true) && AtBoundary(sec, next) && Progress(m0, sec, next)
      ensures r.Done? ==> |sections| == old(|sections|) + 1 && |table.nodes| <= old(|table.nodes|) + PathNodes()
      ensures r.Aborted? ==> Exhausted() && TooMuch(old(|sections|), old(|table.nodes|), 1, PathNodes())
    {
      ghost var pages := WholePages(page, sec.start + done, sec.size - done);
      next := sec.size - PageOff(page, sec.size - done);
      assert NextPiece(page, sec, done, next, true) && AtBoundary(sec, next);
      r := RegisterWhole(sec, done, next, m0);
    }

    /** The section has been added up to its byte `done`, with the numbers accounted for. */
    ghost predicate Along(m0: Map, sec: Section, done: nat, acc: Account)
      requires m0.Geometry() && page > 0
      reads this, table
    {
      Progress(m0, sec, done) && AtBoundary(sec, done) && OnAccount(page, sec, done, |sections|, |table.nodes|, acc)
    }

    /** A turn of the loop of flatview_add_to_dispatch, on the bytes from `done` on. */
    method AddNext(sec: Section, done: nat, ghost m0: Map, ghost tail: nat) returns (r: Outcome<()>, next: nat)
      requires m0.Geometry() && m0.Free(sec) && Progress(m0, sec, done) && AtBoundary(sec, done) && done < sec.size
      requires sec.mr.Io? && sec.start + sec.size <= space && tail == PartNeed(m0, TailBase(page, sec))
      modifies this, table
      ensures r.Done? ==> NextPiece(page, sec, done, next, done + page <= sec.size)
      ensures r.Done? ==> AtBoundary(sec, next) && Progress(m0, sec, next)
      ensures r.Done? ==> |sections| == old(|sections|) + if done + page <= sec.size then 1 else tail
      ensures r.Done? ==> |table.nodes| <= old(|table.nodes|) + PathNodes()
      ensures r.Aborted? ==>
                && Exhausted()
                && TooMuch(old(|sections|), old(|table.nodes|), if done + page <= sec.size then 1 else tail,
                           PathNodes())
    {
      if sec.size - done < page {
        next := sec.size;
        RestIsTail(page, sec, done);
        r := RegisterPart(sec, done, next, TailBase(page, sec), tail, m0);
      } else if PageOff(page, sec.start + done) != 0 {
        assert false;  // after the first piece every piece starts on a page
        r, next := Done(()), page;
      } else {
        r, next := AddWholePages(sec, done, m0);
      }
    }

    method AddCounted(sec: Section, done: nat, ghost m0: Map, ghost acc: Account) returns (r: Outcome<()>, next: nat)
      requires page > 0 && m0.Geometry() && m0.Free(sec) && Along(m0, sec, done, acc) && done < sec.size
      requires sec.mr.Io? && sec.start + sec.size <= space
      requires acc.tail == PartNeed(m0, TailBase(page, sec)) && acc.path == PathNodes()
      modifies this, table
      ensures r.Done? ==> done < next && Along(m0, sec, next, acc)
      ensures r.Aborted? ==> Exhausted() && NoRoom(page, sec, acc)
    {
      ghost var sn, nn, whole := |sections|, |table.nodes|, done + page <= sec.size;
      RoomForPiece(page, sec, done, whole, sn, nn, acc);
      r, next := AddNext(sec, done, m0, acc.tail);
      if r.Done? {
        AfterPiece(page, sec, done, next, whole, sn, nn, |sections|, |table.nodes|, acc);
      }
    }

    /** The loop of flatview_add_to_dispatch, after a first piece of `head` bytes. */
    method AddRest(sec: Section, head: nat, ghost m0: Map, ghost acc: Account) returns (r: Outcome<()>)
      requires page > 0 && m0.Geometry() && m0.Free(sec) && Along(m0, sec, head, acc)
      requires sec.mr.Io? && sec.start + sec.size <= space
      requires acc.tail == PartNeed(m0, TailBase(page, sec)) && acc.path == PathNodes()
      modifies this, table
      ensures r.Done? ==> Along(m0, sec, sec.size, acc)
      ensures r.Aborted? ==> Exhausted() && NoRoom(page, sec, acc)
    {
      var remain, now, done := sec.size, head, head;
      while remain != now
        invariant now <= remain && done + remain == sec.size + now && Along(m0, sec, done, acc)
        decreases remain - now
      {
        remain := remain - now;
        var next;
        r, next := AddCounted(sec, done, m0, acc);
        if r.Aborted? {
          return;
        }
        assert Along(m0, sec, next, acc);
        now, done := next - done, next;
      }
      assert done == sec.size;
      r := Done(());
    }

    /** flatview_add_to_dispatch: afterwards the bytes of the section mean the section, and
        every other address means what it did; or the numbers of sections or nodes have run
        out.  The number of sections is exact, so they run out if and only if the section needs
        more than are left, unless nodes do. */
    method Add(sec: Section) returns (r: Outcome<()>)
      requires Building()
      requires sec.mr.Io? && sec.size > 0 && sec.start + sec.size <= space
      requires Value().Free(sec)
      modifies this, table
      ensures r.Done? ==> Building() && Extended(old(Value()), Value(), sec)
      ensures r.Done? ==> |sections| == SectionsAfter(page, sec, Opened(old(Value()), sec, PathNodes())) <= page
      ensures r.Done? ==> |table.nodes| <= NodesAfter(page, sec, Opened(old(Value()), sec, PathNodes()))
      ensures r.Aborted? ==> Exhausted() && NoRoom(page, sec, Opened(old(Value()), sec, PathNodes()))
    {
      ghost var m0 := Value();
      ghost var acc := Opened(m0, sec, PathNodes());
      var _, head :- AddHeadCounted(sec, m0, acc);
      r := AddRest(sec, head, m0, acc);
      assert Piece(sec, 0, sec.size) == sec;
    }

    /** address_space_dispatch_compact: no address changes its meaning. */
    method Compact()
      requires Building()
      modifies table
      ensures Ready() && Value().Geometry() == old(Value().Geometry())
      ensures forall a :: 0 <= a < space ==> Value().Meaning(a) == old(Value().Meaning(a))
    {
      ghost var m := Value();
      table.CompactAll();
      ghost var m' := Value();
      forall a | 0 <= a < space
        ensures m.Leaf()(a) in {m'.Leaf()(a), PHYS_SECTION_UNASSIGNED} && m'.Leaf()(a) in m.leaves
      {
        FindIn(table.b, table.pos, table.nodes, table.leaves, table.root, table.levels, 0, PageNo(page, a));
        assert m.Leaf()(a) == old(table.SectionOf(PageNo(page, a)));
      }
      CompactionKeepsMeaning(m, m');
    }

    /** address_space_lookup_region: whatever the most-recently-used slot holds from
        earlier lookups, the answer is what the map says about the address. */
    method Lookup(addr: nat, resolveSubpage: bool) returns (s: nat)
      requires Ready() && addr < space
      modifies `mru
      ensures Ready() && Value() == old(Value())
      ensures !resolveSubpage ==> s == Value().Found()(addr)
      ensures resolveSubpage ==> s < |sections| && TargetIn(sections[s], addr) == Value().Meaning(addr)
    {
      ghost var m := Value();
      MruHit(m, mru, addr);
      LeafInRange(page, space, sections, subs, m.leaves, m.Found(), addr);
      OldSubpage(page, space, sections, subs, m.leaves, m.Found(), addr);
      var section := 0;
      if mru.Empty? || mru.s == PHYS_SECTION_UNASSIGNED || !Covers(space, SectionAt(sections, mru.s), addr) {
        section := PhysPageFind(addr);
        mru := Mru.Slot(section);
      } else {
        section := mru.s;
      }
      s := section;
      if resolveSubpage && sections[section].mr.Subpage? {
        s := subs[sections[section].mr.index].sub[PageOff(page, addr)];
        assert SubEntryOk(sections, s);
      }
    }
  }

  /** A section in the most-recently-used slot that covers an address is its section. */
  lemma MruHit(m: Map, mru: Mru, a: nat)
    requires m.Ready() && a < m.space && (mru.Slot? ==> mru.s in m.leaves)
    ensures mru.Slot? && mru.s != PHYS_SECTION_UNASSIGNED && Covers(m.space, SectionAt(m.sections, mru.s), a)
            ==> mru.s == m.Found()(a)
  {
    if mru.Slot? && mru.s != PHYS_SECTION_UNASSIGNED {
      assert LeafOk(m.page, m.space, m.sections, m.subs, mru.s);
      assert Holds(SectionAt(m.sections, mru.s), a) <==> m.Found()(a) == mru.s;
    }
  }

  lemma HeadAligned(page: nat, start: nat)
    requires page > 0
    ensures Aligned(page, start + (page - PageOff(page, start)))
  {
    PageOf(page, start);
    OnePage(page);
    AlignedSum(page, start - PageOff(page, start), page);
  }
}
