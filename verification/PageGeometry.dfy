/**
 The reading order of a page and of a document once more, told by the coordinates of the boxes alone: without
 sorting, without numbering separators and without sweeping for columns.
 */
module PageGeometry {
  import opened Wrappers
  import opened Sequences
  import opened Sorting
  import opened ReadingOrder
  import opened CanonicalOrder

  // ----- boxes

  /** The block has a box, and that is not empty. */
  ghost predicate HasBox(a: Item) {
    && a.block.bbox.Some?
    && a.block.bbox.value.x0 < a.block.bbox.value.x1 && a.block.bbox.value.y0 < a.block.bbox.value.y1
  }

  ghost function Left(a: Item): real
    requires HasBox(a)
  {
    a.block.bbox.value.x0
  }

  ghost function Right(a: Item): real
    requires HasBox(a)
  {
    a.block.bbox.value.x1
  }

  ghost function Top(a: Item): real
    requires HasBox(a)
  {
    a.block.bbox.value.y0
  }

  ghost function Bottom(a: Item): real
    requires HasBox(a)
  {
    a.block.bbox.value.y1
  }

  lemma BoxTells(a: Item)
    ensures Boxed(a) <==> HasBox(a)
    ensures HasBox(a) ==> BoxOf(a) == Box(Left(a), Top(a), Right(a), Bottom(a))
  {
  }

  // ----- the width of a page

  /** `w` is the greatest right edge or width of a box on the page, and 1 at least. */
  ghost predicate IsPageWidth(page: set<Item>, w: real) {
    && w >= 1.0
    && (forall a :: a in page && HasBox(a) ==> Right(a) <= w && Right(a) - Left(a) <= w)
    && (w == 1.0 || exists a :: a in page && HasBox(a) && (w == Right(a) || w == Right(a) - Left(a)))
  }

  lemma OneWidth(page: set<Item>, v: real, w: real)
    requires IsPageWidth(page, v) && IsPageWidth(page, w)
    ensures v == w
  {
  }

  ghost function ItemsOf(items: seq<Item>): set<Item> {
    set a | a in items
  }

  lemma {:induction false} PageWidthTells(items: seq<Item>)
    ensures IsPageWidth(ItemsOf(items), PageWidth(items))
    decreases |items|
  {
    if items != [] {
      var init, last := items[..|items| - 1], items[|items| - 1];
      PageWidthTells(init);
      BoxTells(last);
      assert ItemsOf(items) == ItemsOf(init) + {last};
      WidthOneMore(ItemsOf(init), PageWidth(init), last, PageWidth(items));
    }
  }

  lemma WidthOneMore(page: set<Item>, w: real, last: Item, more: real)
    requires IsPageWidth(page, w)
    requires !HasBox(last) ==> more == w
    requires HasBox(last) ==> more == MaxReal(w, MaxReal(Right(last), Right(last) - Left(last)))
    ensures IsPageWidth(page + {last}, more)
  {
    if w != 1.0 {
      var a :| a in page && HasBox(a) && (w == Right(a) || w == Right(a) - Left(a));
      assert a in page + {last};
    }
    assert last in page + {last};
  }

  /** The box is at least seven tenths as wide as the page. */
  ghost predicate Wide(w: real, a: Item) {
    HasBox(a) && (Right(a) - Left(a)) * 10.0 >= w * 7.0
  }

  lemma WideTells(w: real, a: Item)
    ensures IsFullWidth(w, a) <==> Wide(w, a)
  {
    BoxTells(a);
  }

  // ----- from top to bottom

  /** On one page: nearer to the top, then further left, then earlier for the parser; without a page number the
      parser's order counts alone. */
  ghost predicate Above(a: Item, b: Item)
    requires HasBox(a) && HasBox(b)
  {
    if a.block.page == None then a.index < b.index
    else
      || Top(a) < Top(b)
      || (Top(a) == Top(b) && Left(a) < Left(b))
      || (Top(a) == Top(b) && Left(a) == Left(b) && a.index < b.index)
  }

  lemma AboveTells(a: Item, b: Item)
    requires HasBox(a) && HasBox(b) && a.block.page == b.block.page
    ensures VisuallyBefore(a, b) <==> Above(a, b)
  {
    BoxTells(a);
    BoxTells(b);
  }

  // ----- the blocks of a page

  ghost predicate IsPageOf(page: set<Item>) {
    && (forall a :: a in page ==> HasBox(a))
    && (forall a, b :: a in page && b in page ==> a.block.page == b.block.page)
    && (forall a, b :: a in page && b in page && a.index == b.index ==> a == b)
  }

  /** The wide blocks that begin at or above the middle of `b`. */
  ghost function WideOver(page: set<Item>, w: real, b: Item): set<Item>
    requires HasBox(b)
  {
    set s | s in page && Wide(w, s) && Top(s) * 2.0 <= Top(b) + Bottom(b)
  }

  /** The wide blocks above `a`. */
  ghost function WideAbove(page: set<Item>, w: real, a: Item): set<Item>
    requires HasBox(a)
  {
    set s | s in page && Wide(w, s) && Above(s, a)
  }

  /** The narrow blocks that as many wide blocks begin above as above `a`. */
  ghost function Band(page: set<Item>, w: real, a: Item): set<Item>
    requires HasBox(a)
  {
    set s | s in page && HasBox(s) && !Wide(w, s) && |WideOver(page, w, s)| == |WideOver(page, w, a)|
  }

  /** At the left edge of `c` a column of the band begins: what begins further left ends before that, by more
      than a twentieth of the page. */
  ghost predicate BeginsColumn(band: set<Item>, w: real, c: Item) {
    c in band && HasBox(c)
    && forall s :: s in band && HasBox(s) && Left(s) < Left(c) ==> Right(s) + w * 0.05 < Left(c)
  }

  /** A column begins between the left edges of `a` and `b`. */
  ghost predicate ColumnBetween(band: set<Item>, w: real, a: Item, b: Item)
    requires HasBox(a) && HasBox(b)
  {
    exists c :: BeginsColumn(band, w, c) && Left(a) < Left(c) <= Left(b)
  }

  /** The order of a page. With fewer than two narrow blocks, from top to bottom. Otherwise a wide block stands
      before the narrow ones whose middle it begins above, counted by their number; narrow blocks go by the
      number of wide blocks above their middle, then by columns from the given side, then from top to bottom. */
  ghost predicate ReadBefore(page: set<Item>, w: real, rtl: bool, a: Item, b: Item)
    requires HasBox(a) && HasBox(b)
  {
    if !(exists c, d :: c in page && d in page && c != d && !Wide(w, c) && !Wide(w, d)) then Above(a, b)
    else if Wide(w, a) && Wide(w, b) then Above(a, b)
    else if Wide(w, a) then |WideAbove(page, w, a)| < |WideOver(page, w, b)|
    else if Wide(w, b) then |WideOver(page, w, a)| <= |WideAbove(page, w, b)|
    else
      var band := Band(page, w, a);
      || |WideOver(page, w, a)| < |WideOver(page, w, b)|
      || (&& |WideOver(page, w, a)| == |WideOver(page, w, b)|
          && (|| (if rtl then ColumnBetween(band, w, b, a) else ColumnBetween(band, w, a, b))
              || (!ColumnBetween(band, w, a, b) && !ColumnBetween(band, w, b, a) && Above(a, b))))
  }

  // ----- counting the separators

  lemma PageIsPageOf(items: seq<Item>)
    requires Numbered(items) && (forall a :: a in items ==> Boxed(a))
    requires forall a, b :: a in items && b in items ==> a.block.page == b.block.page
    ensures IsPageOf(ItemsOf(items))
  {
    hide Boxed, Distinct;
    forall a | a in items
      ensures HasBox(a)
    {
      BoxTells(a);
    }
  }

  lemma {:induction false} BandIndexCounts(b: Item, separators: seq<Item>, w: real)
    requires HasBox(b) && Distinct(separators) && forall s :: s in separators ==> Wide(w, s)
    ensures BandIndex(b, separators) == |WideOver(ItemsOf(separators), w, b)|
    decreases |separators|
  {
    BoxTells(b);
    if separators == [] {
      assert WideOver(ItemsOf(separators), w, b) == {};
    } else {
      var init, last := separators[..|separators| - 1], separators[|separators| - 1];
      BandIndexCounts(b, init, w);
      BoxTells(last);
      assert last !in init && separators == init + [last];
      assert last in separators && Wide(w, last);
      var over := if Top(last) * 2.0 <= Top(b) + Bottom(b) then {last} else {};
      assert WideOver(ItemsOf(separators), w, b) == WideOver(ItemsOf(init), w, b) + over;
    }
  }

  ghost function ComesBefore(s: seq<Item>, before: (Item, Item) -> bool, b: Item): set<Item> {
    set a | a in s && before(a, b)
  }

  /** In a sequence that stands in an order that is never both ways, what stands before an item is what comes
      before it. */
  lemma {:induction false} CountBefore(s: seq<Item>, before: (Item, Item) -> bool, k: nat)
    requires k < |s| && Pairwise(s, before) && (forall a, b :: before(a, b) ==> !before(b, a))
    ensures k == |ComesBefore(s, before, s[k])|
  {
    var them := ComesBefore(s, before, s[k]);
    forall a
      ensures a in them <==> a in s[..k]
    {
      if a in s {
        var i :| 0 <= i < |s| && s[i] == a;
        if i < k {
          assert s[..k][i] == a;
        }
      }
      if a in s[..k] {
        var i :| 0 <= i < k && s[..k][i] == a;
      }
    }
    assert them == ItemsOf(s[..k]);
    forall i, j | 0 <= i < j < k
      ensures s[..k][i] != s[..k][j]
    {
      assert before(s[i], s[j]);
    }
    DistinctCount(s[..k]);
  }

  lemma {:induction false} DistinctCount(s: seq<Item>)
    requires Distinct(s)
    ensures |ItemsOf(s)| == |s|
    decreases |s|
  {
    if s != [] {
      var init, last := s[..|s| - 1], s[|s| - 1];
      DistinctCount(init);
      assert s == init + [last];
      assert last !in init;
      assert ItemsOf(s) == ItemsOf(init) + {last};
    }
  }

  lemma NarrowTells(items: seq<Item>, w: real, a: Item)
    ensures a in Narrow(items, w) <==> a in items && !Wide(w, a)
    ensures a in FullWidth(items, w) <==> a in items && Wide(w, a)
  {
    hide IsFullWidth, Wide;
    FilterMembers(items, NarrowTest(w), a);
    FilterMembers(items, FullTest(w), a);
    WideTells(w, a);
  }

  lemma TwoNarrow(items: seq<Item>, w: real)
    requires Distinct(items)
    ensures |Narrow(items, w)| >= 2 <==>
              exists c, d :: c in ItemsOf(items) && d in ItemsOf(items) && c != d && !Wide(w, c) && !Wide(w, d)
  {
    hide IsFullWidth, Wide;
    var narrow := Narrow(items, w);
    FilterIsPart(items, NarrowTest(w));
    PartIsDistinct(items, narrow);
    if |narrow| >= 2 {
      assert narrow[0] in narrow && narrow[1] in narrow && narrow[0] != narrow[1];
      NarrowTells(items, w, narrow[0]);
      NarrowTells(items, w, narrow[1]);
    }
    if c, d :| c in items && d in items && c != d && !Wide(w, c) && !Wide(w, d) {
      NarrowTells(items, w, c);
      NarrowTells(items, w, d);
      TwoMembers(narrow, c, d);
    }
  }

  lemma TwoMembers<T>(s: seq<T>, c: T, d: T)
    requires c in s && d in s && c != d
    ensures |s| >= 2
  {
  }

  // ----- the order of a page is the order of its coordinates

  /** A page as it is laid out: its blocks, its width, and its wide blocks from top to bottom. */
  ghost predicate IsLaidOut(items: seq<Item>, w: real, separators: seq<Item>) {
    && Numbered(items) && IsPageOf(ItemsOf(items)) && Distinct(separators)
    && (forall a :: a in separators <==> a in items && Wide(w, a))
    && Pairwise(separators, VisuallyBefore)
  }

  lemma LaysOut(items: seq<Item>, w: real)
    requires Numbered(items) && (forall a :: a in items ==> Boxed(a)) && w >= 1.0
    requires forall a, b :: a in items && b in items ==> a.block.page == b.block.page
    ensures IsLaidOut(items, w, Sort(FullWidth(items, w), VisuallyBefore))
  {
    hide Boxed, Wide, IsFullWidth, VisuallyBefore, Sort, IsPageOf, Distinct;
    var separators := Sort(FullWidth(items, w), VisuallyBefore);
    PageIsPageOf(items);
    PageLayout(items, w);
    SameItems(separators, FullWidth(items, w));
    forall a
      ensures a in separators <==> a in items && Wide(w, a)
    {
      NarrowTells(items, w, a);
    }
  }

  lemma OverOnPage(items: seq<Item>, w: real, separators: seq<Item>, b: Item)
    requires IsLaidOut(items, w, separators) && HasBox(b)
    ensures BandIndex(b, separators) == |WideOver(ItemsOf(items), w, b)|
  {
    hide BandIndex, Distinct, Numbered, IsPageOf, VisuallyBefore, HasBox;
    BandIndexCounts(b, separators, w);
    assert WideOver(ItemsOf(separators), w, b) == WideOver(ItemsOf(items), w, b);
  }

  lemma PlaceOfWide(items: seq<Item>, w: real, separators: seq<Item>, k: nat)
    requires IsLaidOut(items, w, separators) && k < |separators|
    ensures HasBox(separators[k]) && k == |WideAbove(ItemsOf(items), w, separators[k])|
  {
    hide Distinct, Numbered, VisuallyBefore, VisualOrderKey;
    var a := separators[k];
    assert a in separators;
    VisualOrderIsAnOrder();
    VisualIsOneWay();
    CountBefore(separators, VisuallyBefore, k);
    forall s | s in separators
      ensures VisuallyBefore(s, a) <==> Above(s, a)
    {
      AboveTells(s, a);
    }
    assert ComesBefore(separators, VisuallyBefore, a) == WideAbove(ItemsOf(items), w, a);
  }

  lemma VisualIsOneWay()
    ensures forall a, b :: VisuallyBefore(a, b) ==> !VisuallyBefore(b, a)
  {
    hide VisuallyBefore;
    VisualOrderIsAnOrder();
  }

  /** A wide block stands before what has at least so many separators above it. */
  lemma SeparatorPlace(items: seq<Item>, w: real, separators: seq<Item>, a: Item, n: nat)
    requires IsLaidOut(items, w, separators) && a in items && Wide(w, a)
    ensures (exists k :: IsSeparator(separators, k, a) && k < n) <==> |WideAbove(ItemsOf(items), w, a)| < n
    ensures (exists k :: IsSeparator(separators, k, a) && n <= k) <==> n <= |WideAbove(ItemsOf(items), w, a)|
  {
    hide Distinct, Numbered, VisuallyBefore, IsPageOf;
    assert a in separators;
    var k :| 0 <= k < |separators| && separators[k] == a;
    assert IsSeparator(separators, k, a);
    PlaceOfWide(items, w, separators, k);
    forall l | IsSeparator(separators, l, a)
      ensures l == k
    {
      PlaceOfWide(items, w, separators, l);
    }
  }

  lemma InsideHasBox(page: set<Item>, a: Item)
    requires IsPageOf(page) && a in page
    ensures HasBox(a)
  {
  }

  lemma BandTells(items: seq<Item>, w: real, separators: seq<Item>, a: Item, s: Item)
    requires IsLaidOut(items, w, separators) && a in items
    ensures HasBox(a)
    ensures s in InBand(Narrow(items, w), separators, BandIndex(a, separators)) <==> s in Band(ItemsOf(items), w, a)
  {
    hide BandIndex, Distinct, Numbered, VisuallyBefore, Wide, Narrow, WideOver, IsPageOf, HasBox;
    InsideHasBox(ItemsOf(items), a);
    FilterMembers(Narrow(items, w), BandTest(separators, BandIndex(a, separators)), s);
    NarrowTells(items, w, s);
    OverOnPage(items, w, separators, a);
    if s in items {
      InsideHasBox(ItemsOf(items), s);
      OverOnPage(items, w, separators, s);
    }
  }

  lemma ColumnTells(blocks: seq<Item>, band: set<Item>, w: real, a: Item, b: Item)
    requires forall s :: s in blocks <==> s in band
    requires (forall s :: s in blocks ==> HasBox(s)) && HasBox(a) && HasBox(b)
    ensures InEarlierColumn(blocks, w * 0.05, a, b) <==> ColumnBetween(band, w, a, b)
  {
    hide ColumnStartsAt, BeginsColumn, BoxOf, HasBox, Left;
    var tolerance := w * 0.05;
    BoxTells(a);
    BoxTells(b);
    forall c | c in blocks
      ensures BoxOf(c).x0 == Left(c)
      ensures ColumnStartsAt(blocks, tolerance, BoxOf(c).x0) <==> BeginsColumn(band, w, c)
    {
      BoxTells(c);
      StartTells(blocks, band, w, c);
    }
    forall c | BeginsColumn(band, w, c)
      ensures HasBox(c)
    {
      BeginsIsIn(band, w, c);
    }
    if c :| c in blocks && BoxOf(a).x0 < BoxOf(c).x0 <= BoxOf(b).x0 && ColumnStartsAt(blocks, tolerance, BoxOf(c).x0) {
      assert BeginsColumn(band, w, c) && Left(a) < Left(c) <= Left(b);
    }
    if c :| BeginsColumn(band, w, c) && Left(a) < Left(c) <= Left(b) {
      BeginsIsIn(band, w, c);
      assert c in blocks;
    }
  }

  lemma BeginsIsIn(band: set<Item>, w: real, c: Item)
    requires BeginsColumn(band, w, c)
    ensures c in band && HasBox(c)
  {
  }

  lemma StartTells(blocks: seq<Item>, band: set<Item>, w: real, c: Item)
    requires (forall s :: s in blocks <==> s in band) && (forall s :: s in blocks ==> HasBox(s)) && c in blocks
    ensures ColumnStartsAt(blocks, w * 0.05, BoxOf(c).x0) <==> BeginsColumn(band, w, c)
  {
    hide HasBox, BoxOf, Left, Right;
    BoxTells(c);
    forall s | s in blocks
      ensures HasBox(s) && BoxOf(s).x0 == Left(s) && BoxOf(s).x1 == Right(s)
    {
      BoxTells(s);
    }
  }

  lemma NarrowBefore(items: seq<Item>, w: real, rtl: bool, separators: seq<Item>, a: Item, b: Item)
    requires IsLaidOut(items, w, separators) && a in items && b in items
    ensures HasBox(a) && HasBox(b)
    ensures var blocks := InBand(Narrow(items, w), separators, BandIndex(a, separators));
            var band := Band(ItemsOf(items), w, a);
            BandBefore(blocks, w * 0.05, rtl, a, b) <==>
              || (if rtl then ColumnBetween(band, w, b, a) else ColumnBetween(band, w, a, b))
              || (!ColumnBetween(band, w, a, b) && !ColumnBetween(band, w, b, a) && Above(a, b))
  {
    hide Distinct, Numbered, VisuallyBefore, BandIndex, Wide, InBand, Narrow, InEarlierColumn, ColumnBetween, Band,
      Above, HasBox;
    var blocks := InBand(Narrow(items, w), separators, BandIndex(a, separators));
    var band := Band(ItemsOf(items), w, a);
    assert IsPageOf(ItemsOf(items));
    forall s
      ensures s in blocks <==> s in band
      ensures s in band ==> HasBox(s)
    {
      BandTells(items, w, separators, a, s);
      BandHasBoxes(ItemsOf(items), w, a, s);
    }
    ColumnTells(blocks, band, w, a, b);
    ColumnTells(blocks, band, w, b, a);
    AboveTells(a, b);
  }

  lemma BandHasBoxes(page: set<Item>, w: real, a: Item, s: Item)
    requires HasBox(a)
    ensures s in Band(page, w, a) ==> HasBox(s)
  {
  }

  lemma LayoutTells(items: seq<Item>, w: real, rtl: bool, separators: seq<Item>, a: Item, b: Item)
    requires IsLaidOut(items, w, separators) && a in items && b in items
    requires exists c, d :: c in ItemsOf(items) && d in ItemsOf(items) && c != d && !Wide(w, c) && !Wide(w, d)
    ensures HasBox(a) && HasBox(b)
    ensures LayoutBefore(separators, Narrow(items, w), w, rtl, a, b) <==> ReadBefore(ItemsOf(items), w, rtl, a, b)
  {
    hide Distinct, Numbered, VisuallyBefore, BandIndex, Wide, IsFullWidth, BandBefore, ColumnBetween, Above, Narrow,
      InBand, WideAbove, WideOver, Band, IsSeparator;
    assert IsPageOf(ItemsOf(items));
    WideTells(w, a);
    WideTells(w, b);
    OverOnPage(items, w, separators, a);
    OverOnPage(items, w, separators, b);
    AboveTells(a, b);
    if Wide(w, a) && !Wide(w, b) {
      SeparatorPlace(items, w, separators, a, BandIndex(b, separators));
    } else if !Wide(w, a) && Wide(w, b) {
      SeparatorPlace(items, w, separators, b, BandIndex(a, separators));
    } else if !Wide(w, a) {
      NarrowBefore(items, w, rtl, separators, a, b);
    }
  }

  /** The order of a page, as it is computed, is the order its coordinates give. */
  lemma PageOrderTells(items: seq<Item>, w: real, rtl: bool, a: Item, b: Item)
    requires Numbered(items) && (forall c :: c in items ==> Boxed(c))
    requires forall c, d :: c in items && d in items ==> c.block.page == d.block.page
    requires IsPageWidth(ItemsOf(items), w) && a in items && b in items
    ensures HasBox(a) && HasBox(b)
    ensures PageOrder(items, rtl)(a, b) <==> ReadBefore(ItemsOf(items), w, rtl, a, b)
  {
    hide Numbered, Distinct, VisuallyBefore, LayoutBefore, Narrow, FullWidth, Sort, Above, Wide, HasBox, Boxed,
      IsPageWidth, WideAbove, WideOver, Band, ColumnBetween, PageWidth;
    PageWidthTells(items);
    OneWidth(ItemsOf(items), w, PageWidth(items));
    PageIsPageOf(items);
    NumberedIsDistinct(items);
    TwoNarrow(items, w);
    AboveTells(a, b);
    if |Narrow(items, w)| >= 2 {
      LaysOut(items, w);
      LayoutTells(items, w, rtl, Sort(FullWidth(items, w), VisuallyBefore), a, b);
    }
  }

  lemma NumberedIsDistinct(items: seq<Item>)
    requires Numbered(items)
    ensures Distinct(items)
  {
  }

  // ----- the order of a document

  ghost function BlocksOnPage(blocks: seq<Item>, page: Option<int>): set<Item> {
    set a | a in blocks && a.block.page == page
  }

  /** The order of a document: pages with a number come in the order of these, before what has none; a page all
      of whose blocks have a box is read by its coordinates, any other as the parser gave it. */
  ghost predicate ReadInDocument(items: seq<Item>, rtl: bool, a: Item, b: Item) {
    var page := BlocksOnPage(items, a.block.page);
    if a.block.page != b.block.page then
      a.block.page.Some? && (b.block.page == None || a.block.page.value < b.block.page.value)
    else if forall c :: c in page ==> HasBox(c) then
      HasBox(a) && HasBox(b) && forall w :: IsPageWidth(page, w) ==> ReadBefore(page, w, rtl, a, b)
    else a.index < b.index
  }

  lemma DocumentOrderTells(items: seq<Item>, rtl: bool, a: Item, b: Item)
    requires Numbered(items) && a in items && b in items
    ensures DocumentOrder(items, rtl)(a, b) <==> ReadInDocument(items, rtl, a, b)
  {
    hide Numbered, PageOrder, ReadBefore, HasBox, Boxed, IsPageWidth;
    if a.block.page == b.block.page {
      var page := OnPage(items, a.block.page);
      PageIsPart(items, a.block.page);
      forall c
        ensures c in page <==> c in BlocksOnPage(items, a.block.page)
        ensures Boxed(c) <==> HasBox(c)
      {
        FilterMembers(items, PageTest(a.block.page), c);
        BoxTells(c);
      }
      assert ItemsOf(page) == BlocksOnPage(items, a.block.page);
      if AllBoxed(page) {
        PageWidthTells(page);
        forall w | IsPageWidth(ItemsOf(page), w)
          ensures PageOrder(page, rtl)(a, b) <==> ReadBefore(ItemsOf(page), w, rtl, a, b)
        {
          PageOrderTells(page, w, rtl, a, b);
        }
      }
    }
  }

  /** What the ordering of a document comes to. Without any box the blocks stay as the parser gave them. With
      one, the result holds every numbered block once, in the order that page numbers and coordinates give. */
  lemma CanonicalOrderTells(blocks: seq<Block>, rtl: bool, ordered: seq<Item>)
    requires IsCanonicalOrder(blocks, rtl, ordered)
    ensures var items := Enumerate(blocks);
            if forall a :: a in items ==> !HasBox(a) then Blocks(ordered) == blocks
            else
              && multiset(ordered) == multiset(items)
              && forall i, j :: 0 <= i < j < |ordered| ==> ReadInDocument(items, rtl, ordered[i], ordered[j])
  {
    hide Boxed, HasBox, Numbered, Before, ReadInDocument, DocumentOrder;
    var items := Enumerate(blocks);
    forall a
      ensures Boxed(a) <==> HasBox(a)
    {
      BoxTells(a);
    }
    if AnyBoxed(items) {
      EnumerateNumbers(blocks);
      SameItems(ordered, items);
      forall i, j | 0 <= i < j < |ordered|
        ensures ReadInDocument(items, rtl, ordered[i], ordered[j])
      {
        assert ordered[i] in items && ordered[j] in items;
        DocumentOrderTells(items, rtl, ordered[i], ordered[j]);
      }
    }
  }

  /** On a numbered page with two narrow blocks, a block at least seven tenths as wide as the page comes before a
      narrower one exactly when it begins at or above the middle of that. */
  lemma WideBeforeNarrow(items: seq<Item>, w: real, rtl: bool, ordered: seq<Item>, i: nat, j: nat, page: int)
    requires Numbered(items) && forall a :: a in items ==> Boxed(a) && a.block.page == Some(page)
    requires multiset(ordered) == multiset(items) && Pairwise(ordered, PageOrder(items, rtl))
    requires IsPageWidth(ItemsOf(items), w)
    requires exists c, d :: c in ItemsOf(items) && d in ItemsOf(items) && c != d && !Wide(w, c) && !Wide(w, d)
    requires i < |ordered| && j < |ordered| && HasBox(ordered[i]) && HasBox(ordered[j])
    requires (Right(ordered[i]) - Left(ordered[i])) * 10.0 >= w * 7.0
    requires (Right(ordered[j]) - Left(ordered[j])) * 10.0 < w * 7.0
    ensures i < j <==> Top(ordered[i]) * 2.0 <= Top(ordered[j]) + Bottom(ordered[j])
  {
    hide Numbered, Distinct, IsFullWidth, Boxed, IsPageWidth, PageOrder, Narrow, PageWidth;
    PageWidthTells(items);
    OneWidth(ItemsOf(items), w, PageWidth(items));
    NumberedIsDistinct(items);
    TwoNarrow(items, w);
    WideTells(w, ordered[i]);
    WideTells(w, ordered[j]);
    BoxTells(ordered[i]);
    BoxTells(ordered[j]);
    FullWidthBeforeNarrow(items, rtl, ordered, i, j, page);
  }
}
