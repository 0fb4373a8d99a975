/**
 The reading order of a whole document: page after page, blocks without a page last, a page on which
 some block has no box in the order the parser gave. Ordering what is ordered already changes nothing.
 */
module CanonicalOrder {
  import opened Wrappers
  import opened Sequences
  import opened Sorting
  import opened ReadingOrder

  /** The blocks with their numbers. */
  function Enumerate(blocks: seq<Block>): (items: seq<Item>)
    ensures |items| == |blocks|
    ensures forall i :: 0 <= i < |items| ==> items[i] == Item(i, blocks[i])
  {
    seq(|blocks|, i requires 0 <= i < |blocks| => Item(i, blocks[i]))
  }

  function Blocks(items: seq<Item>): (blocks: seq<Block>)
    ensures |blocks| == |items|
    ensures forall i :: 0 <= i < |items| ==> blocks[i] == items[i].block
  {
    seq(|items|, i requires 0 <= i < |items| => items[i].block)
  }

  function PageTest(page: Option<int>): Item -> bool {
    (a: Item) => a.block.page == page
  }

  function OnPage(items: seq<Item>, page: Option<int>): seq<Item> {
    Filter(items, PageTest(page))
  }

  predicate AllBoxed(items: seq<Item>) {
    forall a :: a in items ==> Boxed(a)
  }

  predicate AnyBoxed(items: seq<Item>) {
    exists a :: a in items && Boxed(a)
  }

  predicate EarlierPage(p: Option<int>, q: Option<int>) {
    p.Some? && (q.None? || p.value < q.value)
  }

  /** What the order of the document must be. */
  ghost predicate Before(items: seq<Item>, rtl: bool, a: Item, b: Item) {
    if a.block.page != b.block.page then EarlierPage(a.block.page, b.block.page)
    else
      var page := OnPage(items, a.block.page);
      if AllBoxed(page) then PageOrder(page, rtl)(a, b) else a.index < b.index
  }

  ghost function DocumentOrder(items: seq<Item>, rtl: bool): (Item, Item) -> bool {
    (a: Item, b: Item) => Before(items, rtl, a, b)
  }

  ghost predicate IsCanonicalOrder(blocks: seq<Block>, rtl: bool, ordered: seq<Item>) {
    var items := Enumerate(blocks);
    if !AnyBoxed(items) then ordered == items
    else multiset(ordered) == multiset(items) && Pairwise(ordered, DocumentOrder(items, rtl))
  }

  // ----- the loop over the pages

  /** The sort key of a page: pages without a number last, the others by number. */
  datatype PageKey = PageKey(unknown: int, page: int, first: int)

  function KeyOfPage(group: seq<Item>): PageKey {
    if group == [] then PageKey(0, 0, 0)
    else if group[0].block.page.None? then PageKey(1, group[0].index, group[0].index)
    else PageKey(0, group[0].block.page.value, group[0].index)
  }

  predicate PageKeyLess(a: PageKey, b: PageKey) {
    || a.unknown < b.unknown
    || (a.unknown == b.unknown && (a.page < b.page || (a.page == b.page && a.first < b.first)))
  }

  predicate PageGroupBefore(a: seq<Item>, b: seq<Item>) {
    PageKeyLess(KeyOfPage(a), KeyOfPage(b))
  }

  lemma EnumerateNumbers(blocks: seq<Block>)
    ensures Numbered(Enumerate(blocks))
  {
    var items := Enumerate(blocks);
    forall a, b | a in items && b in items && a.index == b.index
      ensures a == b
    {
      var i :| 0 <= i < |items| && items[i] == a;
      var j :| 0 <= j < |items| && items[j] == b;
    }
  }

  /** Every page of the document is one of the groups, complete and in the parser's order. */
  ghost predicate GroupsPages(items: seq<Item>, pages: seq<Option<int>>, groups: seq<seq<Item>>) {
    && |groups| == |pages|
    && (forall k :: 0 <= k < |pages| ==> groups[k] == OnPage(items, pages[k]) && groups[k] != [])
    && (forall k, l :: 0 <= k < l < |pages| ==> pages[k] != pages[l])
    && (forall a :: a in items ==> a.block.page in pages)
  }

  function PagesTest(pages: seq<Option<int>>): Item -> bool {
    (a: Item) => a.block.page in pages
  }

  lemma {:induction false} GroupsHoldAll(items: seq<Item>, pages: seq<Option<int>>, groups: seq<seq<Item>>)
    requires |groups| == |pages| && forall k :: 0 <= k < |pages| ==> groups[k] == OnPage(items, pages[k])
    requires forall k, l :: 0 <= k < l < |pages| ==> pages[k] != pages[l]
    ensures multiset(Concat(groups)) == multiset(Filter(items, PagesTest(pages)))
    decreases |pages|
  {
    if pages == [] {
      FilterNone(items, PagesTest(pages));
    } else {
      var init := pages[..|pages| - 1];
      GroupsHoldAll(items, init, groups[..|groups| - 1]);
      var page := pages[|pages| - 1];
      assert page !in init;
      assert pages == init + [page];
      OneMorePage(items, init, page);
    }
  }

  lemma {:induction false} OneMorePage(items: seq<Item>, pages: seq<Option<int>>, page: Option<int>)
    requires page !in pages
    ensures multiset(Filter(items, PagesTest(pages + [page])))
         == multiset(Filter(items, PagesTest(pages))) + multiset(OnPage(items, page))
    decreases |items|
  {
    if items != [] {
      OneMorePage(items[..|items| - 1], pages, page);
    }
  }

  lemma {:induction false} InsertConcat(groups: seq<seq<Item>>, group: seq<Item>)
    ensures multiset(Concat(Insert(groups, group, PageGroupBefore))) == multiset(Concat(groups)) + multiset(group)
    decreases |groups|
  {
    hide PageGroupBefore;
    if groups == [] {
      assert [group][..0] == [];
    } else {
      var init, last := groups[..|groups| - 1], groups[|groups| - 1];
      if PageGroupBefore(group, last) {
        InsertConcat(init, group);
        ConcatSnoc(Insert(init, group, PageGroupBefore), last);
      } else {
        ConcatSnoc(groups, group);
      }
    }
  }

  /** Sorting the groups moves whole pages only. */
  lemma {:induction false} SortConcat(groups: seq<seq<Item>>)
    ensures multiset(Concat(Sort(groups, PageGroupBefore))) == multiset(Concat(groups))
    decreases |groups|
  {
    hide PageGroupBefore;
    if groups != [] {
      SortConcat(groups[..|groups| - 1]);
      InsertConcat(Sort(groups[..|groups| - 1], PageGroupBefore), groups[|groups| - 1]);
    }
  }

  /** One group, all of one page, holding all of that page. */
  ghost predicate IsPage(items: seq<Item>, group: seq<Item>) {
    group != [] && group == OnPage(items, group[0].block.page)
  }

  lemma GroupIsPage(items: seq<Item>, pages: seq<Option<int>>, groups: seq<seq<Item>>, k: nat)
    requires GroupsPages(items, pages, groups) && k < |groups|
    ensures groups[k][0].block.page == pages[k] && IsPage(items, groups[k])
  {
    assert groups[k][0] in groups[k];
    FilterMembers(items, PageTest(pages[k]), groups[k][0]);
  }

  lemma PageGroupsAreOrdered()
    ensures StrictWeak(PageGroupBefore)
  {
    hide KeyOfPage;
  }

  /** The sorted groups are the pages of the document in their order. */
  ghost predicate ArePages(items: seq<Item>, sorted: seq<seq<Item>>) {
    && (forall k :: 0 <= k < |sorted| ==> IsPage(items, sorted[k]))
    && (forall k, l :: 0 <= k < l < |sorted| ==> InPageOrder(sorted[k], sorted[l]))
    && multiset(Concat(sorted)) == multiset(items)
  }

  ghost predicate InPageOrder(g: seq<Item>, h: seq<Item>) {
    g != [] && h != [] && EarlierPage(g[0].block.page, h[0].block.page)
  }

  lemma SortedPages(items: seq<Item>, pages: seq<Option<int>>, groups: seq<seq<Item>>)
    requires GroupsPages(items, pages, groups)
    ensures ArePages(items, Sort(groups, PageGroupBefore))
  {
    hide IsPage, InPageOrder, Sort, PageGroupBefore, Concat;
    var sorted := Sort(groups, PageGroupBefore);
    SortKeepsItems(groups, PageGroupBefore);
    SameItems(groups, sorted);
    SortConcat(groups);
    GroupsAreAll(items, pages, groups);
    forall k | 0 <= k < |sorted|
      ensures IsPage(items, sorted[k])
    {
      assert sorted[k] in groups;
      var m :| 0 <= m < |groups| && groups[m] == sorted[k];
      GroupIsPage(items, pages, groups, m);
    }
    PagesInOrder(items, pages, groups);
  }

  lemma GroupsAreAll(items: seq<Item>, pages: seq<Option<int>>, groups: seq<seq<Item>>)
    requires GroupsPages(items, pages, groups)
    ensures multiset(Concat(groups)) == multiset(items)
  {
    GroupsHoldAll(items, pages, groups);
    FilterAll(items, PagesTest(pages));
  }

  lemma PagesInOrder(items: seq<Item>, pages: seq<Option<int>>, groups: seq<seq<Item>>)
    requires GroupsPages(items, pages, groups)
    ensures var sorted := Sort(groups, PageGroupBefore);
            forall k, l :: 0 <= k < l < |sorted| ==> InPageOrder(sorted[k], sorted[l])
  {
    hide Sort, PageGroupBefore, GroupsPages;
    var sorted := Sort(groups, PageGroupBefore);
    PageGroupsAreOrdered();
    SortSorts(groups, PageGroupBefore);
    SortKeepsItems(groups, PageGroupBefore);
    SameItems(groups, sorted);
    GroupsDiffer(items, pages, groups);
    PartIsDistinct(groups, sorted);
    forall k, l | 0 <= k < l < |sorted|
      ensures InPageOrder(sorted[k], sorted[l])
    {
      assert sorted[k] != sorted[l];
      assert sorted[k] in groups && sorted[l] in groups;
      PagesOfGroups(items, pages, groups, sorted[k], sorted[l]);
      PagesOfGroups(items, pages, groups, sorted[l], sorted[k]);
      assert !PageGroupBefore(sorted[l], sorted[k]);
    }
  }

  lemma GroupsDiffer(items: seq<Item>, pages: seq<Option<int>>, groups: seq<seq<Item>>)
    requires GroupsPages(items, pages, groups)
    ensures Distinct(groups)
  {
    forall k, l | 0 <= k < l < |groups|
      ensures groups[k] != groups[l]
    {
      GroupIsPage(items, pages, groups, k);
      GroupIsPage(items, pages, groups, l);
    }
  }

  lemma PagesOfGroups(items: seq<Item>, pages: seq<Option<int>>, groups: seq<seq<Item>>, g: seq<Item>, h: seq<Item>)
    requires GroupsPages(items, pages, groups) && g in groups && h in groups && g != h
    ensures g != [] && h != [] && g[0].block.page != h[0].block.page
    ensures EarlierPage(g[0].block.page, h[0].block.page) <==> PageGroupBefore(g, h)
  {
    var k :| 0 <= k < |groups| && groups[k] == g;
    var l :| 0 <= l < |groups| && groups[l] == h;
    GroupIsPage(items, pages, groups, k);
    GroupIsPage(items, pages, groups, l);
  }

  /** The order of one page, whether every block on it has a box or not. */
  method OrderPage(group: seq<Item>, rtl: bool) returns (ordered: seq<Item>)
    requires Numbered(group)
    ensures OrdersPage(group, rtl, ordered)
  {
    hide Boxed, Numbered, PageOrder;
    if forall a :: a in group ==> Boxed(a) {
      ordered := BandedVisualOrder(group, rtl);
    } else {
      ordered := group;
    }
  }

  /** The ordered pages, one after the other, are the ordered document. */
  lemma PagesMakeDocument(items: seq<Item>, rtl: bool, sorted: seq<seq<Item>>, parts: seq<seq<Item>>)
    requires Numbered(items) && ArePages(items, sorted) && |parts| == |sorted|
    requires forall k :: 0 <= k < |parts| ==> OrdersPage(sorted[k], rtl, parts[k])
    requires IndexesIncrease(items)
    ensures multiset(Concat(parts)) == multiset(items)
    ensures Pairwise(Concat(parts), DocumentOrder(items, rtl))
  {
    hide Numbered, IsPage, OrdersPage, IndexesIncrease, Concat, EarlierPage;
    var r := DocumentOrder(items, rtl);
    SamePartItems(sorted, parts, rtl);
    forall k | 0 <= k < |parts|
      ensures Pairwise(parts[k], r)
    {
      PageInDocument(items, rtl, sorted[k], parts[k]);
    }
    forall k, l, i, j | 0 <= k < l < |parts| && 0 <= i < |parts[k]| && 0 <= j < |parts[l]|
      ensures r(parts[k][i], parts[l][j])
    {
      OnThePage(items, rtl, sorted[k], parts[k], parts[k][i]);
      OnThePage(items, rtl, sorted[l], parts[l], parts[l][j]);
      assert InPageOrder(sorted[k], sorted[l]);
      EarlierPageDiffers(sorted[k][0].block.page, sorted[l][0].block.page);
    }
    PairwiseConcat(parts, r);
  }

  lemma EarlierPageDiffers(p: Option<int>, q: Option<int>)
    requires EarlierPage(p, q)
    ensures p != q
  {
  }

  ghost predicate IndexesIncrease(items: seq<Item>) {
    forall i, j :: 0 <= i < j < |items| ==> items[i].index < items[j].index
  }

  /** What `OrderPage` ensures. */
  ghost predicate OrdersPage(group: seq<Item>, rtl: bool, part: seq<Item>) {
    && multiset(part) == multiset(group)
    && (AllBoxed(group) ==> Pairwise(part, PageOrder(group, rtl)))
    && (!AllBoxed(group) ==> part == group)
  }

  lemma {:induction false} SamePartItems(sorted: seq<seq<Item>>, parts: seq<seq<Item>>, rtl: bool)
    requires |parts| == |sorted| && forall k :: 0 <= k < |parts| ==> OrdersPage(sorted[k], rtl, parts[k])
    ensures multiset(Concat(parts)) == multiset(Concat(sorted))
    decreases |parts|
  {
    if parts != [] {
      SamePartItems(sorted[..|sorted| - 1], parts[..|parts| - 1], rtl);
      assert OrdersPage(sorted[|parts| - 1], rtl, parts[|parts| - 1]);
    }
  }

  lemma OnThePage(items: seq<Item>, rtl: bool, group: seq<Item>, part: seq<Item>, a: Item)
    requires IsPage(items, group) && OrdersPage(group, rtl, part) && a in part
    ensures group != [] && a.block.page == group[0].block.page
  {
    SameItems(part, group);
    FilterMembers(items, PageTest(group[0].block.page), a);
  }

  lemma PageInDocument(items: seq<Item>, rtl: bool, group: seq<Item>, part: seq<Item>)
    requires IsPage(items, group) && OrdersPage(group, rtl, part) && IndexesIncrease(items)
    ensures Pairwise(part, DocumentOrder(items, rtl))
  {
    hide PageOrder, Boxed;
    forall i, j | 0 <= i < j < |part|
      ensures Before(items, rtl, part[i], part[j])
    {
      OnThePage(items, rtl, group, part, part[i]);
      OnThePage(items, rtl, group, part, part[j]);
      if !AllBoxed(group) {
        FilterIncreases(items, PageTest(group[0].block.page));
      }
    }
  }

  lemma {:induction false} FilterIncreases(items: seq<Item>, p: Item -> bool)
    requires IndexesIncrease(items)
    ensures IndexesIncrease(Filter(items, p))
    decreases |items|
  {
    if items != [] {
      var init, last := items[..|items| - 1], items[|items| - 1];
      FilterIncreases(init, p);
      forall i | 0 <= i < |Filter(init, p)|
        ensures Filter(init, p)[i].index < last.index
      {
        FilterMembers(init, p, Filter(init, p)[i]);
      }
    }
  }

  /** `pages` and `grouped` after reading `items`. */
  ghost predicate Grouped(items: seq<Item>, pages: seq<Option<int>>, grouped: map<Option<int>, seq<Item>>) {
    && (forall p :: p in grouped <==> p in pages)
    && (forall p :: p in pages ==> grouped[p] == OnPage(items, p) && grouped[p] != [])
    && (forall k, l :: 0 <= k < l < |pages| ==> pages[k] != pages[l])
    && (forall a :: a in items ==> a.block.page in pages)
  }

  lemma GroupOneMore(items: seq<Item>, i: nat, pages: seq<Option<int>>, grouped: map<Option<int>, seq<Item>>)
    requires i < |items| && Grouped(items[..i], pages, grouped)
    ensures var page := items[i].block.page;
            Grouped(items[..i + 1], if page in grouped then pages else pages + [page],
                    grouped[page := (if page in grouped then grouped[page] else []) + [items[i]]])
  {
    var page := items[i].block.page;
    assert items[..i + 1] == items[..i] + [items[i]];
    if page !in grouped {
      forall a | a in items[..i]
        ensures !PageTest(page)(a)
      {
      }
      FilterNone(items[..i], PageTest(page));
    }
    forall p
      ensures OnPage(items[..i + 1], p) == OnPage(items[..i], p) + (if p == page then [items[i]] else [])
    {
      FilterSnoc(items[..i], items[i], PageTest(p));
    }
  }

  method CanonicalBlockOrder(blocks: seq<Block>, rtl: bool) returns (ordered: seq<Item>)
    ensures IsCanonicalOrder(blocks, rtl, ordered)
  {
    hide Boxed, Numbered, PageOrder, Sort, Grouped, ArePages, OrdersPage, PageGroupBefore, IndexesIncrease, Concat,
      DocumentOrder;
    var items := Enumerate(blocks);
    if !(exists a :: a in items && Boxed(a)) {
      return items;
    }
    EnumerateNumbers(blocks);
    EnumerateIncreases(blocks);
    var pages: seq<Option<int>>, grouped: map<Option<int>, seq<Item>> := [], map[];
    NothingGrouped();
    for i := 0 to |items|
      invariant Grouped(items[..i], pages, grouped)
    {
      var page := items[i].block.page;
      GroupOneMore(items, i, pages, grouped);
      grouped, pages := grouped[page := (if page in grouped then grouped[page] else []) + [items[i]]],
                        if page in grouped then pages else pages + [page];
    }
    assert items[..|items|] == items;
    var groups := PageGroups(items, pages, grouped);
    var sorted := Sort(groups, PageGroupBefore);
    SortedPages(items, pages, groups);
    ordered := [];
    ghost var parts: seq<seq<Item>> := [];
    NoParts();
    for k := 0 to |sorted|
      invariant |parts| == k && ordered == Concat(parts)
      invariant forall m :: 0 <= m < k ==> OrdersPage(sorted[m], rtl, parts[m])
    {
      PageIsNumbered(items, sorted, k);
      var part := OrderPage(sorted[k], rtl);
      ConcatSnoc(parts, part);
      ordered, parts := ordered + part, parts + [part];
    }
    PagesMakeDocument(items, rtl, sorted, parts);
  }

  lemma NoParts()
    ensures Concat<Item>([]) == []
  {
  }

  lemma EnumerateIncreases(blocks: seq<Block>)
    ensures IndexesIncrease(Enumerate(blocks))
  {
  }

  lemma NothingGrouped()
    ensures Grouped([], [], map[])
  {
  }

  lemma PageIsNumbered(items: seq<Item>, sorted: seq<seq<Item>>, k: nat)
    requires Numbered(items) && ArePages(items, sorted) && k < |sorted|
    ensures Numbered(sorted[k])
  {
    hide Numbered, IsPage, InPageOrder;
    PartOfConcat(sorted, k);
    PartsAreNumbered(items, sorted[k]);
  }

  /** The groups in the order in which their pages were met. */
  method PageGroups(ghost items: seq<Item>, pages: seq<Option<int>>, grouped: map<Option<int>, seq<Item>>)
    returns (groups: seq<seq<Item>>)
    requires Grouped(items, pages, grouped)
    ensures GroupsPages(items, pages, groups)
  {
    groups := [];
    for k := 0 to |pages|
      invariant |groups| == k && forall m :: 0 <= m < k ==> groups[m] == grouped[pages[m]]
    {
      groups := groups + [grouped[pages[k]]];
    }
  }

  // ----- pages come in order

  /** Once any block has a box, page numbers never fall and blocks without a page come last. */
  lemma PagesNeverFall(blocks: seq<Block>, rtl: bool, ordered: seq<Item>, i: nat, j: nat)
    requires IsCanonicalOrder(blocks, rtl, ordered) && AnyBoxed(Enumerate(blocks))
    requires i < j < |ordered|
    ensures ordered[i].block.page == ordered[j].block.page || EarlierPage(ordered[i].block.page, ordered[j].block.page)
  {
    hide PageOrder, AllBoxed;
    assert Before(Enumerate(blocks), rtl, ordered[i], ordered[j]);
  }

  // ----- ordering again changes nothing

  /** Two sequences of the same blocks under different numbers. */
  ghost predicate SameBlocksIn(s: seq<Item>, t: seq<Item>) {
    |s| == |t| && forall m :: 0 <= m < |s| ==> s[m].block == t[m].block
  }

  /** `a` and `b` stand at the same place of the two sequences. */
  ghost predicate Opposite(s: seq<Item>, t: seq<Item>, a: Item, b: Item) {
    exists m :: 0 <= m < |s| && m < |t| && s[m] == a && t[m] == b
  }

  /** A test that does not look at the number. */
  ghost predicate OnBlocks(p: Item -> bool) {
    forall a: Item, b: Item :: a.block == b.block ==> (p(a) <==> p(b))
  }

  lemma {:induction false} FilterSameBlocks(s: seq<Item>, t: seq<Item>, p: Item -> bool)
    requires SameBlocksIn(s, t) && OnBlocks(p)
    ensures SameBlocksIn(Filter(s, p), Filter(t, p))
    decreases |s|
  {
    if s != [] {
      FilterSameBlocks(s[..|s| - 1], t[..|t| - 1], p);
    }
  }

  lemma {:induction false} FilterOpposite(s: seq<Item>, t: seq<Item>, p: Item -> bool, a: Item, b: Item, m: nat)
    requires SameBlocksIn(s, t) && OnBlocks(p)
    requires m < |s| && s[m] == a && t[m] == b && p(a)
    ensures Opposite(Filter(s, p), Filter(t, p), a, b)
    decreases |s|
  {
    var u, v := s[..|s| - 1], t[..|t| - 1];
    FilterSameBlocks(u, v, p);
    if m < |u| {
      FilterOpposite(u, v, p, a, b, m);
      var n :| 0 <= n < |Filter(u, p)| && n < |Filter(v, p)| && Filter(u, p)[n] == a && Filter(v, p)[n] == b;
      assert Filter(s, p)[n] == a && Filter(t, p)[n] == b;
    } else {
      assert Filter(s, p)[|Filter(u, p)|] == a && Filter(t, p)[|Filter(u, p)|] == b;
    }
  }

  lemma {:induction false} WidthOfSameBlocks(s: seq<Item>, t: seq<Item>)
    requires SameBlocksIn(s, t)
    ensures PageWidth(s) == PageWidth(t)
    decreases |s|
  {
    if s != [] {
      WidthOfSameBlocks(s[..|s| - 1], t[..|t| - 1]);
    }
  }

  /** The page width is a maximum, so the order of the items does not matter. */
  lemma WidthOfSameItems(s: seq<Item>, t: seq<Item>)
    requires forall a :: a in s <==> a in t
    ensures PageWidth(s) == PageWidth(t)
  {
    WidthBound(s, t);
    WidthBound(t, s);
  }

  lemma {:induction false} WidthBound(s: seq<Item>, t: seq<Item>)
    requires forall a :: a in s ==> a in t
    ensures PageWidth(s) <= PageWidth(t)
    decreases |s|
  {
    if s != [] {
      var init, last := s[..|s| - 1], s[|s| - 1];
      assert s == init + [last];
      forall a | a in init
        ensures a in t
      {
        assert a in s;
      }
      WidthBound(init, t);
      assert last in s;
      WidthCovers(t, last);
    }
  }

  lemma {:induction false} WidthCovers(t: seq<Item>, a: Item)
    requires a in t
    ensures Boxed(a) ==> BoxOf(a).x1 <= PageWidth(t) && BoxOf(a).x1 - BoxOf(a).x0 <= PageWidth(t)
    decreases |t|
  {
    if a != t[|t| - 1] {
      assert t == t[..|t| - 1] + [t[|t| - 1]];
      WidthCovers(t[..|t| - 1], a);
    }
  }

  lemma {:induction false} BandOfSameBlocks(s: seq<Item>, t: seq<Item>, a: Item, b: Item)
    requires SameBlocksIn(s, t) && a.block == b.block
    ensures BandIndex(a, s) == BandIndex(b, t)
    decreases |s|
  {
    if s != [] {
      BandOfSameBlocks(s[..|s| - 1], t[..|t| - 1], a, b);
    }
  }

  /** Every block of `s` is also in `t`, perhaps under another number. */
  ghost predicate Covers(t: seq<Item>, s: seq<Item>) {
    forall a :: a in s ==> exists b :: b in t && a.block == b.block
  }

  lemma Counterpart(s: seq<Item>, t: seq<Item>, a: Item) returns (b: Item)
    requires Covers(t, s) && a in s
    ensures b in t && a.block == b.block && BoxOf(a) == BoxOf(b)
  {
    b :| b in t && a.block == b.block;
  }

  lemma ColumnsOfSameBoxes(s: seq<Item>, t: seq<Item>, tolerance: real, a: Item, b: Item, a': Item, b': Item)
    requires Covers(t, s) && Covers(s, t) && a.block == a'.block && b.block == b'.block
    requires InEarlierColumn(s, tolerance, a, b)
    ensures InEarlierColumn(t, tolerance, a', b')
  {
    hide Boxed, Covers;
    var c :| c in s && BoxOf(a).x0 < BoxOf(c).x0 <= BoxOf(b).x0 && ColumnStartsAt(s, tolerance, BoxOf(c).x0);
    var c' := Counterpart(s, t, c);
    StartOfSameBoxes(s, t, tolerance, BoxOf(c).x0);
    hide ColumnStartsAt;
    assert BoxOf(a') == BoxOf(a) && BoxOf(b') == BoxOf(b);
  }

  lemma StartOfSameBoxes(s: seq<Item>, t: seq<Item>, tolerance: real, x: real)
    requires Covers(s, t) && ColumnStartsAt(s, tolerance, x)
    ensures ColumnStartsAt(t, tolerance, x)
  {
    hide Boxed, Covers, SourceBox;
    forall b | b in t && BoxOf(b).x0 < x
      ensures BoxOf(b).x1 + tolerance < x
    {
      var a := Counterpart(t, s, b);
    }
  }

  /** With greater numbers later on, the new numbers break ties as the first order did. */
  lemma VisuallyBeforeAgain(a: Item, b: Item, a': Item, b': Item)
    requires a.block == a'.block && b.block == b'.block && a'.index < b'.index
    requires VisuallyBefore(a, b) && a.block.page == b.block.page && Boxed(a) && Boxed(b)
    ensures VisuallyBefore(a', b')
  {
  }

  lemma {:induction false} FilterPairwise(s: seq<Item>, p: Item -> bool, r: (Item, Item) -> bool)
    requires Pairwise(s, r)
    ensures Pairwise(Filter(s, p), r)
    decreases |s|
  {
    if s != [] {
      var init, last := s[..|s| - 1], s[|s| - 1];
      FilterPairwise(init, p, r);
      forall i | 0 <= i < |Filter(init, p)|
        ensures r(Filter(init, p)[i], last)
      {
        FilterMembers(init, p, Filter(init, p)[i]);
        var j :| 0 <= j < |init| && init[j] == Filter(init, p)[i];
        assert r(s[j], s[|s| - 1]);
      }
    }
  }

  /** A page as `OnPage` gives it, its order `k`, and that order under new numbers `h`. */
  ghost predicate Renumbered(page: seq<Item>, rtl: bool, k: seq<Item>, h: seq<Item>) {
    && Numbered(page) && AllBoxed(page)
    && (forall a, b :: a in page && b in page ==> a.block.page == b.block.page)
    && multiset(k) == multiset(page) && Pairwise(k, PageOrder(page, rtl))
    && SameBlocksIn(k, h) && IndexesIncrease(h)
  }

  lemma OnTheSamePage(page: seq<Item>, rtl: bool, k: seq<Item>, h: seq<Item>, m: nat)
    requires Renumbered(page, rtl, k, h) && m < |k|
    ensures k[m] in page && Boxed(k[m]) && k[m].block == h[m].block
  {
    hide Numbered, PageOrder, Boxed;
    SameItems(k, page);
    assert k[m] in k;
  }

  lemma SameLayout(page: seq<Item>, rtl: bool, k: seq<Item>, h: seq<Item>)
    requires Renumbered(page, rtl, k, h)
    ensures PageWidth(page) == PageWidth(k) == PageWidth(h)
    ensures var w := PageWidth(page);
            && |Narrow(page, w)| == |Narrow(h, w)|
            && multiset(FullWidth(k, w)) == multiset(FullWidth(page, w))
            && SameBlocksIn(FullWidth(k, w), FullWidth(h, w))
  {
    hide Numbered, PageOrder, AllBoxed, IndexesIncrease;
    var w := PageWidth(page);
    SameItems(k, page);
    WidthOfSameItems(page, k);
    WidthOfSameBlocks(k, h);
    FilterPermutation(k, page, FullTest(w));
    FilterPermutation(k, page, NarrowTest(w));
    SameItems(Narrow(k, w), Narrow(page, w));
    WidthTestsAreOnBlocks(w);
    FilterSameBlocks(k, h, FullTest(w));
    FilterSameBlocks(k, h, NarrowTest(w));
  }

  lemma WidthTestsAreOnBlocks(w: real)
    ensures OnBlocks(FullTest(w)) && OnBlocks(NarrowTest(w))
  {
  }

  /** The separators come out in the same order, and so they do after renumbering. */
  lemma SameSeparators(page: seq<Item>, rtl: bool, k: seq<Item>, h: seq<Item>)
    requires Renumbered(page, rtl, k, h) && |Narrow(page, PageWidth(page))| >= 2
    ensures var w := PageWidth(page);
            && Sort(FullWidth(page, w), VisuallyBefore) == FullWidth(k, w)
            && Sort(FullWidth(h, w), VisuallyBefore) == FullWidth(h, w)
  {
    hide Sort, VisuallyBefore, Numbered, LayoutOrder, IsFullWidth, FullWidth, Narrow, PageWidth;
    var w := PageWidth(page);
    SameLayout(page, rtl, k, h);
    FullWidthInOrder(page, rtl, k, h);
    PageLayout(page, w);
    VisualOrderIsAnOrder();
    OrderIsUnique(Sort(FullWidth(page, w), VisuallyBefore), FullWidth(k, w), VisuallyBefore);
    SortOfSorted(FullWidth(h, w), VisuallyBefore);
  }

  lemma FullWidthInOrder(page: seq<Item>, rtl: bool, k: seq<Item>, h: seq<Item>)
    requires Renumbered(page, rtl, k, h) && |Narrow(page, PageWidth(page))| >= 2
    ensures var w := PageWidth(page);
            && Pairwise(FullWidth(k, w), VisuallyBefore)
            && Pairwise(FullWidth(h, w), VisuallyBefore)
  {
    hide Sort, VisuallyBefore, Numbered, IsFullWidth, Narrow, PageWidth;
    var w := PageWidth(page);
    var fulls, again := FullWidth(k, w), FullWidth(h, w);
    SameLayout(page, rtl, k, h);
    SameItems(k, page);
    FilterPairwise(k, FullTest(w), PageOrder(page, rtl));
    FilterIncreases(h, FullTest(w));
    forall i, j | 0 <= i < j < |fulls|
      ensures VisuallyBefore(fulls[i], fulls[j]) && VisuallyBefore(again[i], again[j])
    {
      FullWidthMembers(k, w, fulls[i]);
      FullWidthMembers(k, w, fulls[j]);
      assert PageOrder(page, rtl)(fulls[i], fulls[j]);
      VisuallyBeforeAgain(fulls[i], fulls[j], again[i], again[j]);
    }
  }

  /** The same bands hold the same blocks. */
  lemma SameBands(page: seq<Item>, rtl: bool, k: seq<Item>, h: seq<Item>, separators: seq<Item>, again: seq<Item>,
                  band: int)
    requires Renumbered(page, rtl, k, h) && SameBlocksIn(separators, again)
    ensures var w := PageWidth(page);
            var first, second := InBand(Narrow(page, w), separators, band), InBand(Narrow(h, w), again, band);
            Covers(second, first) && Covers(first, second)
  {
    hide Sort, VisuallyBefore, Numbered, IsFullWidth, PageWidth, PageOrder, BandIndex, InBand, Narrow;
    var w := PageWidth(page);
    var first, second := InBand(Narrow(page, w), separators, band), InBand(Narrow(h, w), again, band);
    SameItems(k, page);
    forall a | a in first
      ensures exists b :: b in second && a.block == b.block
    {
      BandMembers(Narrow(page, w), separators, band, a);
      NarrowMembers(page, w, a);
      assert a in k;
      var m :| 0 <= m < |k| && k[m] == a;
      InBandAgain(h, w, separators, again, band, a, m);
    }
    forall b | b in second
      ensures exists a :: a in first && a.block == b.block
    {
      BandMembers(Narrow(h, w), again, band, b);
      NarrowMembers(h, w, b);
      var m :| 0 <= m < |h| && h[m] == b;
      assert k[m] in page;
      SameTests(w, separators, again, k[m], b);
      NarrowMembers(page, w, k[m]);
      BandMembers(Narrow(page, w), separators, band, k[m]);
    }
  }

  lemma NarrowMembers(items: seq<Item>, w: real, a: Item)
    ensures a in Narrow(items, w) <==> a in items && !IsFullWidth(w, a)
  {
    FilterMembers(items, NarrowTest(w), a);
  }

  lemma SameTests(w: real, separators: seq<Item>, again: seq<Item>, a: Item, b: Item)
    requires SameBlocksIn(separators, again) && a.block == b.block
    ensures IsFullWidth(w, a) <==> IsFullWidth(w, b)
    ensures BandIndex(a, separators) == BandIndex(b, again)
  {
    BandOfSameBlocks(separators, again, a, b);
  }

  lemma InBandAgain(h: seq<Item>, w: real, separators: seq<Item>, again: seq<Item>, band: int, a: Item, m: nat)
    requires SameBlocksIn(separators, again) && m < |h| && a.block == h[m].block
    requires !IsFullWidth(w, a) && BandIndex(a, separators) == band
    ensures h[m] in InBand(Narrow(h, w), again, band)
  {
    SameTests(w, separators, again, a, h[m]);
    NarrowMembers(h, w, h[m]);
    BandMembers(Narrow(h, w), again, band, h[m]);
  }

  lemma BandBeforeAgain(first: seq<Item>, second: seq<Item>, tolerance: real, rtl: bool, a: Item, b: Item, a': Item,
                        b': Item)
    requires Covers(second, first) && Covers(first, second) && a.block == a'.block && b.block == b'.block
    requires a.block.page == b.block.page && Boxed(a) && Boxed(b) && a'.index < b'.index
    requires BandBefore(first, tolerance, rtl, a, b)
    ensures BandBefore(second, tolerance, rtl, a', b')
  {
    hide Boxed, Covers, InEarlierColumn, VisuallyBefore;
    SameColumns(first, second, tolerance, a, b, a', b');
    SameColumns(first, second, tolerance, b, a, b', a');
    if VisuallyBefore(a, b) {
      VisuallyBeforeAgain(a, b, a', b');
    }
  }

  lemma SameColumns(first: seq<Item>, second: seq<Item>, tolerance: real, a: Item, b: Item, a': Item, b': Item)
    requires Covers(second, first) && Covers(first, second) && a.block == a'.block && b.block == b'.block
    ensures InEarlierColumn(first, tolerance, a, b) <==> InEarlierColumn(second, tolerance, a', b')
  {
    hide Boxed, Covers, InEarlierColumn;
    if InEarlierColumn(first, tolerance, a, b) {
      ColumnsOfSameBoxes(first, second, tolerance, a, b, a', b');
    }
    if InEarlierColumn(second, tolerance, a', b') {
      ColumnsOfSameBoxes(second, first, tolerance, a', b', a, b);
    }
  }

  /** A separator keeps its number. */
  lemma SameSeparator(k: seq<Item>, h: seq<Item>, w: real, m: nat, number: int)
    requires SameBlocksIn(k, h) && m < |k| && IsFullWidth(w, k[m]) && Distinct(FullWidth(k, w))
    requires IsSeparator(FullWidth(k, w), number, k[m])
    ensures IsSeparator(FullWidth(h, w), number, h[m])
  {
    hide IsFullWidth;
    WidthTestsAreOnBlocks(w);
    FilterOpposite(k, h, FullTest(w), k[m], h[m], m);
    FilterSameBlocks(k, h, FullTest(w));
    var n :| 0 <= n < |FullWidth(k, w)| && n < |FullWidth(h, w)| && FullWidth(k, w)[n] == k[m] &&
        FullWidth(h, w)[n] == h[m];
    SeparatorIsUnique(FullWidth(k, w), n, number, k[m]);
  }

  /** No separator stands twice. */
  lemma SeparatorsDiffer(page: seq<Item>, rtl: bool, k: seq<Item>, h: seq<Item>)
    requires Renumbered(page, rtl, k, h)
    ensures Distinct(FullWidth(k, PageWidth(page)))
  {
    hide PageOrder, IsFullWidth, PageWidth, Boxed, Distinct;
    var w := PageWidth(page);
    FilterIsPart(page, FullTest(w));
    SameLayout(page, rtl, k, h);
    PartIsDistinct(page, FullWidth(k, w));
  }

  /** On a page the order holds again between the renumbered blocks. */
  lemma PageOrderAgain(page: seq<Item>, rtl: bool, k: seq<Item>, h: seq<Item>, m: nat, n: nat)
    requires Renumbered(page, rtl, k, h) && m < n < |k|
    ensures PageOrder(h, rtl)(h[m], h[n])
  {
    hide Sort, VisuallyBefore, Numbered, IsFullWidth, PageWidth, LayoutBefore, Narrow, FullWidth, AllBoxed, Boxed;
    var w := PageWidth(page);
    SameLayout(page, rtl, k, h);
    OnTheSamePage(page, rtl, k, h, m);
    OnTheSamePage(page, rtl, k, h, n);
    assert PageOrder(page, rtl)(k[m], k[n]);
    if |Narrow(page, w)| < 2 {
      VisuallyBeforeAgain(k[m], k[n], h[m], h[n]);
    } else {
      SameSeparators(page, rtl, k, h);
      SeparatorsDiffer(page, rtl, k, h);
      LayoutAgain(page, rtl, k, h, m, n);
    }
  }

  lemma LayoutAgain(page: seq<Item>, rtl: bool, k: seq<Item>, h: seq<Item>, m: nat, n: nat)
    requires Renumbered(page, rtl, k, h) && m < n < |k|
    requires Distinct(FullWidth(k, PageWidth(page)))
    requires LayoutBefore(FullWidth(k, PageWidth(page)), Narrow(page, PageWidth(page)), PageWidth(page), rtl, k[m],
                          k[n])
    ensures LayoutBefore(FullWidth(h, PageWidth(page)), Narrow(h, PageWidth(page)), PageWidth(page), rtl, h[m], h[n])
  {
    hide Sort, VisuallyBefore, Numbered, IsFullWidth, PageWidth, Narrow, FullWidth, AllBoxed, Boxed, BandBefore,
      BandIndex, InBand, Covers, PageOrder;
    var w := PageWidth(page);
    var first, again := FullWidth(k, w), FullWidth(h, w);
    SameLayout(page, rtl, k, h);
    OnTheSamePage(page, rtl, k, h, m);
    OnTheSamePage(page, rtl, k, h, n);
    SameTests(w, first, again, k[m], h[m]);
    SameTests(w, first, again, k[n], h[n]);
    if IsFullWidth(w, k[m]) && IsFullWidth(w, k[n]) {
      VisuallyBeforeAgain(k[m], k[n], h[m], h[n]);
    } else if IsFullWidth(w, k[m]) {
      var number :| IsSeparator(first, number, k[m]) && number < BandIndex(k[n], first);
      SameSeparator(k, h, w, m, number);
    } else if IsFullWidth(w, k[n]) {
      var number :| IsSeparator(first, number, k[n]) && BandIndex(k[m], first) <= number;
      SameSeparator(k, h, w, n, number);
    } else if BandIndex(k[m], first) == BandIndex(k[n], first) {
      var band := BandIndex(k[m], first);
      SameBands(page, rtl, k, h, first, again, band);
      BandBeforeAgain(InBand(Narrow(page, w), first, band), InBand(Narrow(h, w), again, band), w * 0.05, rtl,
                      k[m], k[n], h[m], h[n]);
    }
  }

  lemma PageIsPart(items: seq<Item>, page: Option<int>)
    requires Numbered(items)
    ensures Numbered(OnPage(items, page))
    ensures forall a :: a in OnPage(items, page) ==> a in items && a.block.page == page
  {
    hide Numbered;
    FilterIsPart(items, PageTest(page));
    PartsAreNumbered(items, OnPage(items, page));
    forall a | a in OnPage(items, page)
      ensures a in items && a.block.page == page
    {
      FilterMembers(items, PageTest(page), a);
    }
  }

  /** The document order never holds both ways. */
  lemma DocumentOrderIsOneWay(items: seq<Item>, rtl: bool, a: Item, b: Item)
    requires Numbered(items) && Before(items, rtl, a, b)
    ensures !Before(items, rtl, b, a)
  {
    hide Numbered, PageOrder, Boxed, OnPage;
    if a.block.page == b.block.page {
      var page := OnPage(items, a.block.page);
      PageIsPart(items, a.block.page);
      if AllBoxed(page) {
        PageOrderIsOneWay(page, rtl, a, b);
      }
    }
  }

  lemma SameBlocksAllBoxed(k: seq<Item>, h: seq<Item>)
    requires SameBlocksIn(k, h)
    ensures AllBoxed(k) <==> AllBoxed(h)
    ensures AnyBoxed(k) <==> AnyBoxed(h)
  {
    hide SourceBox;
    forall m | 0 <= m < |k|
      ensures Boxed(k[m]) <==> Boxed(h[m])
    {
    }
    hide Boxed;
    forall m | 0 <= m < |k|
      ensures k[m] in k && h[m] in h
    {
    }
    assert AllBoxed(k) <==> forall m :: 0 <= m < |k| ==> Boxed(k[m]);
    assert AllBoxed(h) <==> forall m :: 0 <= m < |h| ==> Boxed(h[m]);
  }

  lemma SameItemsAllBoxed(page: seq<Item>, k: seq<Item>)
    requires multiset(page) == multiset(k)
    ensures AllBoxed(page) <==> AllBoxed(k)
    ensures AnyBoxed(page) <==> AnyBoxed(k)
  {
    hide Boxed;
    SameItems(page, k);
  }

  /** The order of a whole document, and the same blocks numbered as they now stand. */
  ghost predicate Reordered(items: seq<Item>, rtl: bool, once: seq<Item>, again: seq<Item>) {
    && Numbered(items) && multiset(once) == multiset(items) && Pairwise(once, DocumentOrder(items, rtl))
    && SameBlocksIn(once, again) && IndexesIncrease(again)
  }

  lemma OnePageAgain(items: seq<Item>, rtl: bool, once: seq<Item>, again: seq<Item>, page: Option<int>)
    requires Reordered(items, rtl, once, again)
    ensures AllBoxed(OnPage(again, page)) <==> AllBoxed(OnPage(items, page))
    ensures AllBoxed(OnPage(items, page)) ==>
              Renumbered(OnPage(items, page), rtl, OnPage(once, page), OnPage(again, page))
  {
    hide Numbered, AllBoxed, PageOrder, IndexesIncrease;
    var first, k, h := OnPage(items, page), OnPage(once, page), OnPage(again, page);
    FilterPermutation(once, items, PageTest(page));
    FilterSameBlocks(once, again, PageTest(page));
    FilterIncreases(again, PageTest(page));
    SameBlocksAllBoxed(k, h);
    SameItemsAllBoxed(first, k);
    PageIsPart(items, page);
    if AllBoxed(first) {
      FilterPairwise(once, PageTest(page), DocumentOrder(items, rtl));
      SameItems(first, k);
      forall i, j | 0 <= i < j < |k|
        ensures PageOrder(first, rtl)(k[i], k[j])
      {
        assert k[i] in first && k[j] in first;
        assert Before(items, rtl, k[i], k[j]);
      }
    }
  }

  lemma BeforeAgain(items: seq<Item>, rtl: bool, once: seq<Item>, again: seq<Item>, i: nat, j: nat)
    requires Reordered(items, rtl, once, again) && i < j < |once|
    ensures Before(again, rtl, again[i], again[j])
  {
    hide Numbered, AllBoxed, PageOrder, Renumbered, OnPage;
    var page := once[i].block.page;
    assert Before(items, rtl, once[i], once[j]);
    if page == once[j].block.page {
      OnePageAgain(items, rtl, once, again, page);
      if AllBoxed(OnPage(items, page)) {
        SamePageAgain(items, rtl, once, again, i, j);
      }
    }
  }

  lemma SamePageAgain(items: seq<Item>, rtl: bool, once: seq<Item>, again: seq<Item>, i: nat, j: nat)
    requires Reordered(items, rtl, once, again) && i < j < |once| && once[i].block.page == once[j].block.page
    requires AllBoxed(OnPage(items, once[i].block.page))
    ensures PageOrder(OnPage(again, once[i].block.page), rtl)(again[i], again[j])
  {
    hide Numbered, AllBoxed, PageOrder, Before, Pairwise;
    var page := once[i].block.page;
    OnePageAgain(items, rtl, once, again, page);
    var k, h := OnPage(once, page), OnPage(again, page);
    FilterOpposite(once, again, PageTest(page), once[i], again[i], i);
    FilterOpposite(once, again, PageTest(page), once[j], again[j], j);
    var m :| 0 <= m < |k| && m < |h| && k[m] == once[i] && h[m] == again[i];
    var n :| 0 <= n < |k| && n < |h| && k[n] == once[j] && h[n] == again[j];
    assert again[i].index < again[j].index;
    assert m < n;
    PageOrderAgain(OnPage(items, page), rtl, k, h, m, n);
  }

  /** Ordering what is ordered already leaves every block where it stands. */
  lemma OrderingAgainChangesNothing(blocks: seq<Block>, rtl: bool, once: seq<Item>, twice: seq<Item>)
    requires IsCanonicalOrder(blocks, rtl, once) && IsCanonicalOrder(Blocks(once), rtl, twice)
    ensures twice == Enumerate(Blocks(once))
  {
    hide Numbered, AllBoxed, AnyBoxed, PageOrder, Before, IndexesIncrease;
    var items, again := Enumerate(blocks), Enumerate(Blocks(once));
    SameBlocksAllBoxed(once, again);
    if AnyBoxed(items) {
      EnumerateNumbers(blocks);
      EnumerateNumbers(Blocks(once));
      EnumerateIncreases(Blocks(once));
      SameItemsAllBoxed(items, once);
      forall i, j | 0 <= i < j < |again|
        ensures DocumentOrder(again, rtl)(again[i], again[j])
      {
        BeforeAgain(items, rtl, once, again, i, j);
      }
      forall a: Item, b: Item | DocumentOrder(again, rtl)(a, b)
        ensures !DocumentOrder(again, rtl)(b, a)
      {
        DocumentOrderIsOneWay(again, rtl, a, b);
      }
      OrderIsUnique(twice, again, DocumentOrder(again, rtl));
    }
  }
}
