/**
 The reading order of the blocks of one page. Blocks that span the page separate it into bands; inside
 a band the blocks stand in columns; inside a column they are read from top to bottom. The loops below
 follow the source; `Before` says what the order must be, from the geometry alone.
 */
module ReadingOrder {
  import opened Wrappers
  import opened Sequences
  import opened Sorting

  datatype Box = Box(x0: real, y0: real, x1: real, y1: real)

  datatype Block = Block(page: Option<int>, bbox: Option<Box>, text: string)

  /** A block and its number in the parser's output. */
  datatype Item = Item(index: nat, block: Block)

  /** The box of a block, when it has one that is not degenerate. */
  function SourceBox(b: Block): Option<Box> {
    if b.bbox.Some? && b.bbox.value.x0 < b.bbox.value.x1 && b.bbox.value.y0 < b.bbox.value.y1 then b.bbox else None
  }

  predicate Boxed(a: Item) {
    SourceBox(a.block).Some?
  }

  function BoxOf(a: Item): Box {
    match SourceBox(a.block) case Some(b) => b case None => Box(0.0, 0.0, 0.0, 0.0)
  }

  // ----- the order from top to bottom

  datatype Key = Key(unknown: int, page: int, y: real, x: real, index: int)

  function VisualOrderKey(a: Item): Key {
    if a.block.page.None? then Key(1, a.index, 0.0, 0.0, a.index)
    else if !Boxed(a) then Key(0, a.block.page.value, a.index as real, 0.0, a.index)
    else Key(0, a.block.page.value, BoxOf(a).y0, BoxOf(a).x0, a.index)
  }

  predicate KeyLess(a: Key, b: Key) {
    || a.unknown < b.unknown
    || (a.unknown == b.unknown &&
        (|| a.page < b.page
         || (a.page == b.page &&
             (|| a.y < b.y
              || (a.y == b.y && (a.x < b.x || (a.x == b.x && a.index < b.index)))))))
  }

  predicate VisuallyBefore(a: Item, b: Item) {
    KeyLess(VisualOrderKey(a), VisualOrderKey(b))
  }

  lemma VisualOrderIsAnOrder()
    ensures StrictWeak(VisuallyBefore)
    ensures forall a: Item, b: Item :: a.index != b.index ==> VisuallyBefore(a, b) || VisuallyBefore(b, a)
  {
    hide VisualOrderKey;
    forall a: Item, b: Item | a.index != b.index
      ensures VisuallyBefore(a, b) || VisuallyBefore(b, a)
    {
      KeyHasIndex(a);
      KeyHasIndex(b);
    }
  }

  lemma KeyHasIndex(a: Item)
    ensures VisualOrderKey(a).index == a.index
  {
  }

  // ----- page width, separators and bands

  function MaxReal(a: real, b: real): real {
    if a < b then b else a
  }

  function PageWidth(items: seq<Item>): (w: real)
    ensures w >= 1.0
  {
    if items == [] then 1.0
    else
      var last := items[|items| - 1];
      var w := PageWidth(items[..|items| - 1]);
      if Boxed(last) then MaxReal(w, MaxReal(BoxOf(last).x1, BoxOf(last).x1 - BoxOf(last).x0)) else w
  }

  /** The block spans at least seven tenths of the page. */
  predicate IsFullWidth(width: real, a: Item) {
    Boxed(a) && BoxOf(a).x1 - BoxOf(a).x0 >= width * 0.70
  }

  function Midpoint(a: Item): real {
    (BoxOf(a).y0 + BoxOf(a).y1) / 2.0
  }

  /** The number of separators that begin at or above the middle of the block. */
  function BandIndex(a: Item, separators: seq<Item>): (n: nat)
    ensures n <= |separators|
  {
    if !Boxed(a) || separators == [] then 0
    else
      var last := separators[|separators| - 1];
      BandIndex(a, separators[..|separators| - 1]) + (if Boxed(last) && Midpoint(a) >= BoxOf(last).y0 then 1 else 0)
  }

  // ----- columns, without any sweep

  /** No block that begins further left reaches to within the tolerance of `x`. */
  ghost predicate ColumnStartsAt(blocks: seq<Item>, tolerance: real, x: real) {
    forall s :: s in blocks && BoxOf(s).x0 < x ==> BoxOf(s).x1 + tolerance < x
  }

  /** A column starts between the left edges of the two blocks. */
  ghost predicate InEarlierColumn(blocks: seq<Item>, tolerance: real, a: Item, b: Item) {
    exists c :: c in blocks && BoxOf(a).x0 < BoxOf(c).x0 <= BoxOf(b).x0 &&
        ColumnStartsAt(blocks, tolerance, BoxOf(c).x0)
  }

  /** The order inside one band. */
  ghost predicate BandBefore(blocks: seq<Item>, tolerance: real, rtl: bool, a: Item, b: Item) {
    || (if rtl then InEarlierColumn(blocks, tolerance, b, a) else InEarlierColumn(blocks, tolerance, a, b))
    || (&& !InEarlierColumn(blocks, tolerance, a, b) && !InEarlierColumn(blocks, tolerance, b, a)
        && VisuallyBefore(a, b))
  }

  /** Columns are at least the tolerance apart: whatever is in an earlier column ends before. */
  lemma ColumnsAreApart(blocks: seq<Item>, tolerance: real, a: Item, b: Item)
    requires a in blocks && InEarlierColumn(blocks, tolerance, a, b)
    ensures BoxOf(a).x1 + tolerance < BoxOf(b).x0
  {
  }

  /** Columns are connected: a block that does not begin a column is within the tolerance of one that
      begins further left and is in the same column. */
  lemma ColumnsAreConnected(blocks: seq<Item>, tolerance: real, a: Item) returns (s: Item)
    requires a in blocks && !ColumnStartsAt(blocks, tolerance, BoxOf(a).x0)
    ensures s in blocks && BoxOf(s).x0 < BoxOf(a).x0 <= BoxOf(s).x1 + tolerance
    ensures !InEarlierColumn(blocks, tolerance, s, a) && !InEarlierColumn(blocks, tolerance, a, s)
  {
    s :| s in blocks && BoxOf(s).x0 < BoxOf(a).x0 && BoxOf(s).x1 + tolerance >= BoxOf(a).x0;
  }

  /** Column order is an order: it never holds both ways. */
  lemma EarlierColumnIsOneWay(blocks: seq<Item>, tolerance: real, a: Item, b: Item)
    requires InEarlierColumn(blocks, tolerance, a, b)
    ensures !InEarlierColumn(blocks, tolerance, b, a)
  {
  }

  // ----- the sweep that finds the columns

  predicate LeftOf(a: Item, b: Item) {
    BoxOf(a).x0 < BoxOf(b).x0
  }

  /** A column as the sweep finds it: it begins at a column start, and nothing else in it is one. */
  ghost predicate IsColumn(blocks: seq<Item>, tolerance: real, cluster: seq<Item>) {
    && cluster != []
    && ColumnStartsAt(blocks, tolerance, BoxOf(cluster[0]).x0)
    && forall a :: a in cluster ==>
         && a in blocks && BoxOf(cluster[0]).x0 <= BoxOf(a).x0
         && (BoxOf(a).x0 == BoxOf(cluster[0]).x0 || !ColumnStartsAt(blocks, tolerance, BoxOf(a).x0))
  }

  /** The clusters are columns, and stand from left to right. */
  ghost predicate AreColumns(blocks: seq<Item>, tolerance: real, clusters: seq<seq<Item>>) {
    && (forall k :: 0 <= k < |clusters| ==> IsColumn(blocks, tolerance, clusters[k]))
    && (forall k, l :: 0 <= k < l < |clusters| ==> EndsBefore(clusters[k], clusters[l]))
  }

  /** Everything in `left` begins further left than `right`. */
  ghost predicate EndsBefore(left: seq<Item>, right: seq<Item>) {
    right != [] && forall a :: a in left ==> BoxOf(a).x0 < BoxOf(right[0]).x0
  }

  /** The running right edge: nothing read so far reaches further, and something in `current` reaches it. */
  ghost predicate RightEdge(read: seq<Item>, current: seq<Item>, right: real) {
    && (forall s :: s in read ==> BoxOf(s).x1 <= right)
    && (exists s :: s in current && BoxOf(s).x1 == right)
  }

  /** The columns of a band: the blocks sorted by their left edge and cut where the gap is too wide. */
  method ColumnClusters(blocks: seq<Item>, tolerance: real) returns (clusters: seq<seq<Item>>)
    requires tolerance >= 0.0 && forall a :: a in blocks ==> Boxed(a)
    ensures multiset(Concat(clusters)) == multiset(blocks)
    ensures AreColumns(blocks, tolerance, clusters)
  {
    hide AreColumns, RightEdge, Sort, ByLeftEdge, Concat, Boxed;
    var sorted := Sort(blocks, LeftOf);
    LeftOfSorts(blocks);
    NoColumns(blocks, tolerance);
    clusters := [];
    var current: seq<Item> := [];
    var right := 0.0;
    for i := 0 to |sorted|
      invariant Concat(clusters) + current == sorted[..i]
      invariant i > 0 ==> current != []
      invariant current == [] ==> clusters == []
      invariant AreColumns(blocks, tolerance, if current == [] then clusters else clusters + [current])
      invariant current != [] ==> RightEdge(sorted[..i], current, right)
    {
      var item := sorted[i];
      assert sorted[..i + 1] == sorted[..i] + [item];
      if current != [] && BoxOf(item).x0 - right > tolerance {
        NewColumn(blocks, tolerance, sorted, i, clusters, current, right);
        ConcatSnoc(clusters, current);
        clusters, current, right := clusters + [current], [item], BoxOf(item).x1;
      } else if current == [] {
        FirstColumn(blocks, tolerance, sorted);
        assert sorted[..i + 1] == [item] && clusters + [[item]] == [[item]];
        current, right := [item], BoxOf(item).x1;
      } else {
        SameColumn(blocks, tolerance, sorted, i, clusters, current, right);
        current, right := current + [item], MaxReal(right, BoxOf(item).x1);
      }
    }
    assert sorted[..|sorted|] == sorted;
    SameBlocks(blocks, sorted);
    if current != [] {
      ConcatSnoc(clusters, current);
      clusters := clusters + [current];
    }
  }

  lemma NoColumns(blocks: seq<Item>, tolerance: real)
    ensures AreColumns(blocks, tolerance, []) && Concat<Item>([]) == []
  {
  }

  lemma SameBlocks(blocks: seq<Item>, sorted: seq<Item>)
    requires ByLeftEdge(blocks, sorted)
    ensures multiset(sorted) == multiset(blocks)
  {
  }

  /** `sorted` holds the blocks by their left edge. */
  ghost predicate ByLeftEdge(blocks: seq<Item>, sorted: seq<Item>) {
    && multiset(sorted) == multiset(blocks)
    && (forall a :: a in sorted <==> a in blocks)
    && (forall a :: a in blocks ==> Boxed(a))
    && forall i, j :: 0 <= i < j < |sorted| ==> BoxOf(sorted[i]).x0 <= BoxOf(sorted[j]).x0
  }

  lemma LeftOfSorts(blocks: seq<Item>)
    requires forall a :: a in blocks ==> Boxed(a)
    ensures ByLeftEdge(blocks, Sort(blocks, LeftOf))
  {
    SortSorts(blocks, LeftOf);
    SortKeepsItems(blocks, LeftOf);
    SameItems(blocks, Sort(blocks, LeftOf));
  }

  lemma FirstColumn(blocks: seq<Item>, tolerance: real, sorted: seq<Item>)
    requires ByLeftEdge(blocks, sorted) && sorted != []
    ensures AreColumns(blocks, tolerance, [[sorted[0]]])
    ensures RightEdge([sorted[0]], [sorted[0]], BoxOf(sorted[0]).x1)
  {
    forall s | s in blocks
      ensures BoxOf(sorted[0]).x0 <= BoxOf(s).x0
    {
      assert s in sorted;
      var j :| 0 <= j < |sorted| && sorted[j] == s;
    }
    assert IsColumn(blocks, tolerance, [sorted[0]]);
  }

  /** Behind a gap wider than the tolerance a column starts. */
  lemma NewColumn(blocks: seq<Item>, tolerance: real, sorted: seq<Item>, i: nat, clusters: seq<seq<Item>>,
                  current: seq<Item>, right: real)
    requires tolerance >= 0.0 && ByLeftEdge(blocks, sorted) && i < |sorted|
    requires Concat(clusters) + current == sorted[..i] && current != []
    requires AreColumns(blocks, tolerance, clusters + [current])
    requires RightEdge(sorted[..i], current, right) && BoxOf(sorted[i]).x0 - right > tolerance
    ensures AreColumns(blocks, tolerance, clusters + [current] + [[sorted[i]]])
    ensures RightEdge(sorted[..i + 1], [sorted[i]], BoxOf(sorted[i]).x1)
  {
    var item := sorted[i];
    BeforeTheGap(blocks, tolerance, sorted, i, right);
    assert IsColumn(blocks, tolerance, [item]);
    var all := clusters + [current];
    forall k | 0 <= k < |all|
      ensures EndsBefore(all[k], [item])
    {
      forall a | a in all[k]
        ensures BoxOf(a).x0 < BoxOf(item).x0
      {
        ConcatSnoc(clusters, current);
        InConcat(all, k, a);
        assert a in sorted[..i];
      }
    }
    AddColumn(blocks, tolerance, all, [item]);
  }

  lemma {:induction false} InConcat<T>(parts: seq<seq<T>>, k: nat, x: T)
    requires k < |parts| && x in parts[k]
    ensures x in Concat(parts)
    decreases |parts|
  {
    if k < |parts| - 1 {
      InConcat(parts[..|parts| - 1], k, x);
    }
  }

  lemma AddColumn(blocks: seq<Item>, tolerance: real, clusters: seq<seq<Item>>, column: seq<Item>)
    requires AreColumns(blocks, tolerance, clusters) && IsColumn(blocks, tolerance, column)
    requires forall k :: 0 <= k < |clusters| ==> EndsBefore(clusters[k], column)
    ensures AreColumns(blocks, tolerance, clusters + [column])
  {
    hide IsColumn, EndsBefore;
  }

  lemma BeforeTheGap(blocks: seq<Item>, tolerance: real, sorted: seq<Item>, i: nat, right: real)
    requires tolerance >= 0.0 && ByLeftEdge(blocks, sorted) && i < |sorted|
    requires forall s :: s in sorted[..i] ==> BoxOf(s).x1 <= right
    requires BoxOf(sorted[i]).x0 - right > tolerance
    ensures ColumnStartsAt(blocks, tolerance, BoxOf(sorted[i]).x0)
    ensures forall s :: s in sorted[..i] ==> BoxOf(s).x0 < BoxOf(sorted[i]).x0
    ensures forall s :: s in sorted[..i + 1] ==> BoxOf(s).x1 <= BoxOf(sorted[i]).x1
  {
    forall s | s in sorted[..i]
      ensures BoxOf(s).x0 < BoxOf(s).x1
    {
      assert s in blocks;
    }
    assert sorted[i] in blocks;
    forall s | s in blocks && BoxOf(s).x0 < BoxOf(sorted[i]).x0
      ensures BoxOf(s).x1 + tolerance < BoxOf(sorted[i]).x0
    {
      assert s in sorted;
      var j :| 0 <= j < |sorted| && sorted[j] == s;
      assert j < i;
      assert s in sorted[..i];
    }
  }

  /** A block within the tolerance of the running right edge joins the column. */
  lemma SameColumn(blocks: seq<Item>, tolerance: real, sorted: seq<Item>, i: nat, clusters: seq<seq<Item>>,
                   current: seq<Item>, right: real)
    requires ByLeftEdge(blocks, sorted) && i < |sorted|
    requires Concat(clusters) + current == sorted[..i] && current != []
    requires AreColumns(blocks, tolerance, clusters + [current])
    requires RightEdge(sorted[..i], current, right) && BoxOf(sorted[i]).x0 - right <= tolerance
    ensures AreColumns(blocks, tolerance, clusters + [current + [sorted[i]]])
    ensures RightEdge(sorted[..i + 1], current + [sorted[i]], MaxReal(right, BoxOf(sorted[i]).x1))
  {
    hide Boxed, Concat;
    var item := sorted[i];
    assert sorted[..i + 1] == sorted[..i] + [item];
    assert IsColumn(blocks, tolerance, (clusters + [current])[|clusters|]);
    forall a | a in current
      ensures BoxOf(a).x0 <= BoxOf(item).x0
    {
      assert a in sorted[..i];
    }
    JoinsColumn(blocks, tolerance, current, item, right);
    assert item in current + [item];
    assert forall s :: s in current ==> s in current + [item];
    LongerColumn(blocks, tolerance, clusters, current, current + [item]);
  }

  lemma JoinsColumn(blocks: seq<Item>, tolerance: real, current: seq<Item>, item: Item, right: real)
    requires IsColumn(blocks, tolerance, current) && item in blocks
    requires exists s :: s in current && BoxOf(s).x1 == right
    requires BoxOf(item).x0 - right <= tolerance && forall a :: a in current ==> BoxOf(a).x0 <= BoxOf(item).x0
    ensures IsColumn(blocks, tolerance, current + [item])
  {
    hide Boxed;
    var s :| s in current && BoxOf(s).x1 == right;
    assert s in blocks;
  }

  lemma LongerColumn(blocks: seq<Item>, tolerance: real, clusters: seq<seq<Item>>, current: seq<Item>,
                     longer: seq<Item>)
    requires AreColumns(blocks, tolerance, clusters + [current])
    requires IsColumn(blocks, tolerance, longer) && current != [] && longer != [] && longer[0] == current[0]
    ensures AreColumns(blocks, tolerance, clusters + [longer])
  {
    hide IsColumn;
    forall k | 0 <= k < |clusters|
      ensures EndsBefore(clusters[k], longer)
    {
      var all := clusters + [current];
      assert all[k] == clusters[k] && all[|clusters|] == current;
      assert EndsBefore(all[k], all[|clusters|]);
    }
    assert forall k :: 0 <= k < |clusters| ==> (clusters + [current])[k] == clusters[k];
  }

  // ----- the order inside one band

  /** `a` stands in an earlier cluster than `b`: it is in an earlier column. */
  lemma AcrossColumns(blocks: seq<Item>, tolerance: real, clusters: seq<seq<Item>>, k: nat, l: nat, a: Item, b: Item)
    requires AreColumns(blocks, tolerance, clusters)
    requires k < l < |clusters| && a in clusters[k] && b in clusters[l]
    ensures InEarlierColumn(blocks, tolerance, a, b)
  {
    hide ColumnStartsAt;
    assert IsColumn(blocks, tolerance, clusters[l]);
    assert EndsBefore(clusters[k], clusters[l]);
    var first := clusters[l][0];
    assert first in clusters[l];
  }

  /** In one cluster no column starts between two blocks. */
  lemma WithinColumn(blocks: seq<Item>, tolerance: real, clusters: seq<seq<Item>>, k: nat, a: Item, b: Item)
    requires AreColumns(blocks, tolerance, clusters) && multiset(Concat(clusters)) == multiset(blocks)
    requires k < |clusters| && a in clusters[k] && b in clusters[k]
    ensures !InEarlierColumn(blocks, tolerance, a, b)
  {
    hide ColumnStartsAt;
    SameItems(Concat(clusters), blocks);
    forall c | c in blocks && BoxOf(a).x0 < BoxOf(c).x0 <= BoxOf(b).x0
      ensures !ColumnStartsAt(blocks, tolerance, BoxOf(c).x0)
    {
      assert c in Concat(clusters);
      var i :| 0 <= i < |Concat(clusters)| && Concat(clusters)[i] == c;
      var l, m := PartOf(clusters, i);
      NotAStart(blocks, tolerance, clusters, k, l, a, b, c);
    }
  }

  lemma NotAStart(blocks: seq<Item>, tolerance: real, clusters: seq<seq<Item>>, k: nat, l: nat, a: Item, b: Item,
                  c: Item)
    requires AreColumns(blocks, tolerance, clusters)
    requires k < |clusters| && l < |clusters| && a in clusters[k] && b in clusters[k] && c in clusters[l]
    requires BoxOf(a).x0 < BoxOf(c).x0 <= BoxOf(b).x0
    ensures !ColumnStartsAt(blocks, tolerance, BoxOf(c).x0)
  {
    hide ColumnStartsAt;
    assert IsColumn(blocks, tolerance, clusters[k]) && IsColumn(blocks, tolerance, clusters[l]);
  }

  function ClusterX0(cluster: seq<Item>): real {
    if cluster == [] then 0.0
    else if |cluster| == 1 then BoxOf(cluster[0]).x0
    else
      var x := ClusterX0(cluster[..|cluster| - 1]);
      if BoxOf(cluster[|cluster| - 1]).x0 < x then BoxOf(cluster[|cluster| - 1]).x0 else x
  }

  predicate FurtherLeft(a: seq<Item>, b: seq<Item>) {
    ClusterX0(a) < ClusterX0(b)
  }

  predicate FurtherRight(a: seq<Item>, b: seq<Item>) {
    ClusterX0(b) < ClusterX0(a)
  }

  lemma {:induction false} ColumnX0(cluster: seq<Item>)
    requires cluster != [] && forall a :: a in cluster ==> BoxOf(cluster[0]).x0 <= BoxOf(a).x0
    ensures ClusterX0(cluster) == BoxOf(cluster[0]).x0
    decreases |cluster|
  {
    if |cluster| > 1 {
      ColumnX0(cluster[..|cluster| - 1]);
    }
  }

  lemma ColumnsFromTheLeft(blocks: seq<Item>, tolerance: real, clusters: seq<seq<Item>>)
    requires AreColumns(blocks, tolerance, clusters)
    ensures Sort(clusters, FurtherLeft) == clusters
    ensures Sort(clusters, FurtherRight) == Reverse(clusters)
  {
    hide ColumnStartsAt, ClusterX0;
    forall k, l | 0 <= k < l < |clusters|
      ensures ClusterX0(clusters[k]) < ClusterX0(clusters[l])
    {
      assert IsColumn(blocks, tolerance, clusters[k]) && IsColumn(blocks, tolerance, clusters[l]);
      ColumnX0(clusters[k]);
      ColumnX0(clusters[l]);
      assert EndsBefore(clusters[k], clusters[l]);
      assert clusters[k][0] in clusters[k];
    }
    SortOfSorted(clusters, FurtherLeft);
    SortReversed(clusters, FurtherRight);
  }

  /** Every column from top to bottom. */
  function SortEach(clusters: seq<seq<Item>>): (r: seq<seq<Item>>)
    ensures |r| == |clusters|
  {
    if clusters == [] then []
    else SortEach(clusters[..|clusters| - 1]) + [Sort(clusters[|clusters| - 1], VisuallyBefore)]
  }

  lemma {:induction false} SortEachAt(clusters: seq<seq<Item>>, k: nat)
    requires k < |clusters|
    ensures SortEach(clusters)[k] == Sort(clusters[k], VisuallyBefore)
    decreases |clusters|
  {
    if k < |clusters| - 1 {
      SortEachAt(clusters[..|clusters| - 1], k);
    }
  }

  lemma {:induction false} SortEachKeepsItems(clusters: seq<seq<Item>>)
    ensures multiset(Concat(SortEach(clusters))) == multiset(Concat(clusters))
    decreases |clusters|
  {
    if clusters != [] {
      var init, last := clusters[..|clusters| - 1], clusters[|clusters| - 1];
      SortEachKeepsItems(init);
      SortKeepsItems(last, VisuallyBefore);
      ConcatSnoc(SortEach(init), Sort(last, VisuallyBefore));
    }
  }

  lemma {:induction false} ReversedItems(clusters: seq<seq<Item>>)
    ensures multiset(Concat(Reverse(clusters))) == multiset(Concat(clusters))
    decreases |clusters|
  {
    if clusters != [] {
      var init, last := clusters[..|clusters| - 1], clusters[|clusters| - 1];
      ReversedItems(init);
      ConcatCons(last, Reverse(init));
    }
  }

  /** Items with the same number are the same item, and no item stands twice. */
  ghost predicate Numbered(items: seq<Item>) {
    && Distinct(items)
    && forall a, b :: a in items && b in items && a.index == b.index ==> a == b
  }

  lemma PartsAreNumbered(whole: seq<Item>, part: seq<Item>)
    requires Numbered(whole) && multiset(part) <= multiset(whole)
    ensures Numbered(part)
  {
    PartIsDistinct(whole, part);
    forall a | a in part
      ensures a in whole
    {
      assert a in multiset(part);
      assert a in multiset(whole);
    }
  }

  lemma {:induction false} PartOfConcat<T>(parts: seq<seq<T>>, k: nat)
    requires k < |parts|
    ensures multiset(parts[k]) <= multiset(Concat(parts))
    decreases |parts|
  {
    if k < |parts| - 1 {
      PartOfConcat(parts[..|parts| - 1], k);
    }
  }

  lemma NumberedAreOrdered(items: seq<Item>)
    requires Numbered(items)
    ensures forall a, b :: a in items && b in items && a != b ==> VisuallyBefore(a, b) || VisuallyBefore(b, a)
  {
    hide Distinct;
  }

  /** Sorting numbered items from top to bottom puts any two of them in that order. */
  lemma SortedTopToBottom(items: seq<Item>)
    requires Numbered(items)
    ensures Pairwise(Sort(items, VisuallyBefore), VisuallyBefore)
    ensures multiset(Sort(items, VisuallyBefore)) == multiset(items)
  {
    hide VisuallyBefore, Distinct;
    VisualOrderIsAnOrder();
    SortSorts(items, VisuallyBefore);
    SortKeepsItems(items, VisuallyBefore);
    SameItems(items, Sort(items, VisuallyBefore));
    PartIsDistinct(items, Sort(items, VisuallyBefore));
    NumberedAreOrdered(items);
    SortedIsPairwise(Sort(items, VisuallyBefore), VisuallyBefore);
  }

  ghost function BandOrder(blocks: seq<Item>, tolerance: real, rtl: bool): (Item, Item) -> bool {
    (a: Item, b: Item) => BandBefore(blocks, tolerance, rtl, a, b)
  }

  /** The order of one band: columns from the left, or from the right for right-to-left text, and every
      column from top to bottom. */
  method OrderColumnsInBand(blocks: seq<Item>, width: real, rtl: bool) returns (ordered: seq<Item>)
    requires width >= 0.0 && Numbered(blocks) && forall a :: a in blocks ==> Boxed(a)
    ensures multiset(ordered) == multiset(blocks)
    ensures Pairwise(ordered, BandOrder(blocks, width * 0.05, rtl))
  {
    hide AreColumns, Boxed, BandOrder, Numbered, Sort;
    if blocks == [] {
      return [];
    }
    var clusters := ColumnClusters(blocks, width * 0.05);
    var fromTheSide := Sort(clusters, if rtl then FurtherRight else FurtherLeft);
    ColumnsFromTheLeft(blocks, width * 0.05, clusters);
    ordered := [];
    for k := 0 to |fromTheSide|
      invariant ordered == Concat(SortEach(fromTheSide[..k]))
    {
      assert fromTheSide[..k + 1][..k] == fromTheSide[..k];
      ConcatSnoc(SortEach(fromTheSide[..k]), Sort(fromTheSide[k], VisuallyBefore));
      ordered := ordered + Sort(fromTheSide[k], VisuallyBefore);
    }
    assert fromTheSide[..|fromTheSide|] == fromTheSide;
    BandIsOrdered(blocks, width * 0.05, rtl, clusters);
  }

  lemma BandIsOrdered(blocks: seq<Item>, tolerance: real, rtl: bool, clusters: seq<seq<Item>>)
    requires AreColumns(blocks, tolerance, clusters) && multiset(Concat(clusters)) == multiset(blocks)
    requires Numbered(blocks)
    ensures var ordered := Concat(SortEach(if rtl then Reverse(clusters) else clusters));
            multiset(ordered) == multiset(blocks) && Pairwise(ordered, BandOrder(blocks, tolerance, rtl))
  {
    hide AreColumns, Concat, Numbered, InEarlierColumn, VisuallyBefore, Sort, SortEach;
    var side := if rtl then Reverse(clusters) else clusters;
    ReversedItems(clusters);
    SortEachKeepsItems(side);
    var parts := SortEach(side);
    var r := BandOrder(blocks, tolerance, rtl);
    forall k | 0 <= k < |parts|
      ensures Pairwise(parts[k], r)
    {
      ColumnIsOrdered(blocks, tolerance, rtl, clusters, k);
    }
    forall k, l, i, j | 0 <= k < l < |parts| && 0 <= i < |parts[k]| && 0 <= j < |parts[l]|
      ensures r(parts[k][i], parts[l][j])
    {
      ColumnsAreOrdered(blocks, tolerance, rtl, clusters, k, l, parts[k][i], parts[l][j]);
    }
    PairwiseConcat(parts, r);
  }

  /** Number `k` from the side is number `SideIndex` from the left. */
  function SideIndex(rtl: bool, n: nat, k: nat): nat
    requires k < n
  {
    if rtl then n - 1 - k else k
  }

  lemma FromTheSide(rtl: bool, clusters: seq<seq<Item>>, k: nat)
    requires k < |clusters|
    ensures var side := if rtl then Reverse(clusters) else clusters;
            && side[k] == clusters[SideIndex(rtl, |clusters|, k)]
            && SortEach(side)[k] == Sort(side[k], VisuallyBefore)
            && forall a :: a in SortEach(side)[k] <==> a in side[k]
  {
    hide Sort, VisuallyBefore, SortEach, Reverse;
    var side := if rtl then Reverse(clusters) else clusters;
    ReverseAt(clusters, k);
    SortEachAt(side, k);
    SortKeepsItems(side[k], VisuallyBefore);
    SameItems(side[k], Sort(side[k], VisuallyBefore));
  }

  lemma ColumnIsOrdered(blocks: seq<Item>, tolerance: real, rtl: bool, clusters: seq<seq<Item>>, k: nat)
    requires AreColumns(blocks, tolerance, clusters) && multiset(Concat(clusters)) == multiset(blocks)
    requires Numbered(blocks) && k < |clusters|
    ensures Pairwise(SortEach(if rtl then Reverse(clusters) else clusters)[k], BandOrder(blocks, tolerance, rtl))
  {
    hide AreColumns, Concat, Numbered, InEarlierColumn, VisuallyBefore, Sort, SortEach;
    var part := SortEach(if rtl then Reverse(clusters) else clusters)[k];
    FromTheSide(rtl, clusters, k);
    var m := SideIndex(rtl, |clusters|, k);
    PartOfConcat(clusters, m);
    PartsAreNumbered(blocks, clusters[m]);
    SortedTopToBottom(clusters[m]);
    forall i, j | 0 <= i < j < |part|
      ensures BandBefore(blocks, tolerance, rtl, part[i], part[j])
    {
      WithinColumn(blocks, tolerance, clusters, m, part[i], part[j]);
      WithinColumn(blocks, tolerance, clusters, m, part[j], part[i]);
    }
  }

  lemma ColumnsAreOrdered(blocks: seq<Item>, tolerance: real, rtl: bool, clusters: seq<seq<Item>>, k: nat, l: nat,
                          a: Item, b: Item)
    requires AreColumns(blocks, tolerance, clusters) && k < l < |clusters|
    requires var parts := SortEach(if rtl then Reverse(clusters) else clusters); a in parts[k] && b in parts[l]
    ensures BandBefore(blocks, tolerance, rtl, a, b)
  {
    hide AreColumns, InEarlierColumn, VisuallyBefore, Sort, SortEach;
    FromTheSide(rtl, clusters, k);
    FromTheSide(rtl, clusters, l);
    if rtl {
      AcrossColumns(blocks, tolerance, clusters, SideIndex(rtl, |clusters|, l), SideIndex(rtl, |clusters|, k), b, a);
    } else {
      AcrossColumns(blocks, tolerance, clusters, k, l, a, b);
    }
  }

  // ----- the order of a page

  function FullTest(width: real): Item -> bool {
    (a: Item) => IsFullWidth(width, a)
  }

  function NarrowTest(width: real): Item -> bool {
    (a: Item) => !IsFullWidth(width, a)
  }

  function BandTest(separators: seq<Item>, band: int): Item -> bool {
    (a: Item) => BandIndex(a, separators) == band
  }

  /** The blocks of the bands before number `band`. */
  function EarlierTest(separators: seq<Item>, band: int): Item -> bool {
    (a: Item) => BandIndex(a, separators) < band
  }

  function FullWidth(items: seq<Item>, width: real): seq<Item> {
    Filter(items, FullTest(width))
  }

  function Narrow(items: seq<Item>, width: real): seq<Item> {
    Filter(items, NarrowTest(width))
  }

  /** The blocks of band number `band`. */
  function InBand(narrow: seq<Item>, separators: seq<Item>, band: int): seq<Item> {
    Filter(narrow, BandTest(separators, band))
  }

  /** `a` is separator number `k`. */
  ghost predicate IsSeparator(separators: seq<Item>, k: int, a: Item) {
    0 <= k < |separators| && separators[k] == a
  }

  /** What the order of a page with separators must be. A separator stands before the blocks of all
      later bands and after those of all earlier ones. */
  ghost predicate LayoutBefore(separators: seq<Item>, narrow: seq<Item>, width: real, rtl: bool, a: Item, b: Item) {
    if IsFullWidth(width, a) then
      if IsFullWidth(width, b) then VisuallyBefore(a, b)
      else exists k :: IsSeparator(separators, k, a) && k < BandIndex(b, separators)
    else
      if IsFullWidth(width, b) then exists k :: IsSeparator(separators, k, b) && BandIndex(a, separators) <= k
      else
        || BandIndex(a, separators) < BandIndex(b, separators)
        || (&& BandIndex(a, separators) == BandIndex(b, separators)
            && BandBefore(InBand(narrow, separators, BandIndex(a, separators)), width * 0.05, rtl, a, b))
  }

  ghost function LayoutOrder(separators: seq<Item>, narrow: seq<Item>, width: real, rtl: bool): (Item, Item) -> bool {
    (a: Item, b: Item) => LayoutBefore(separators, narrow, width, rtl, a, b)
  }

  /** The order of a page on which every block has a box: with fewer than two narrow blocks from top to
      bottom, otherwise by bands and columns. */
  ghost function PageOrder(items: seq<Item>, rtl: bool): (Item, Item) -> bool {
    var width := PageWidth(items);
    if |Narrow(items, width)| < 2 then VisuallyBefore
    else LayoutOrder(Sort(FullWidth(items, width), VisuallyBefore), Narrow(items, width), width, rtl)
  }

  /** Separators and narrow blocks of one page. */
  ghost predicate IsLayout(separators: seq<Item>, narrow: seq<Item>, width: real) {
    && width >= 1.0
    && Numbered(narrow) && Pairwise(separators, VisuallyBefore)
    && (forall a :: a in narrow ==> Boxed(a) && !IsFullWidth(width, a))
    && (forall a :: a in separators ==> IsFullWidth(width, a))
  }

  /** What is in the order before band number `band` begins: the earlier bands and their separators. */
  ghost predicate UpToBand(separators: seq<Item>, narrow: seq<Item>, width: real, rtl: bool, ordered: seq<Item>,
                           band: nat)
  {
    && band <= |separators|
    && multiset(ordered) == multiset(Filter(narrow, EarlierTest(separators, band))) + multiset(separators[..band])
    && Pairwise(ordered, LayoutOrder(separators, narrow, width, rtl))
  }

  /** The same with the blocks of band number `band`. */
  ghost predicate WithBand(separators: seq<Item>, narrow: seq<Item>, width: real, rtl: bool, ordered: seq<Item>,
                           band: nat)
  {
    && band <= |separators|
    && multiset(ordered) == multiset(Filter(narrow, EarlierTest(separators, band + 1))) + multiset(separators[..band])
    && Pairwise(ordered, LayoutOrder(separators, narrow, width, rtl))
  }

  lemma {:induction false} OneMoreBand(narrow: seq<Item>, separators: seq<Item>, band: nat)
    ensures multiset(Filter(narrow, EarlierTest(separators, band + 1)))
         == multiset(Filter(narrow, EarlierTest(separators, band))) + multiset(InBand(narrow, separators, band))
    decreases |narrow|
  {
    if narrow != [] {
      OneMoreBand(narrow[..|narrow| - 1], separators, band);
    }
  }

  lemma WhoIsBefore(separators: seq<Item>, narrow: seq<Item>, width: real, ordered: seq<Item>,
                    k: nat, band: int, a: Item)
    requires IsLayout(separators, narrow, width) && k <= |separators|
    requires multiset(ordered) == multiset(Filter(narrow, EarlierTest(separators, band))) + multiset(separators[..k])
    requires a in ordered
    ensures if IsFullWidth(width, a) then exists i :: IsSeparator(separators, i, a) && i < k
            else a in narrow && BandIndex(a, separators) < band
  {
    hide BandIndex, IsFullWidth, Boxed, VisuallyBefore;
    var earlier := Filter(narrow, EarlierTest(separators, band));
    assert a in multiset(ordered);
    if a in multiset(earlier) {
      assert a in earlier;
      FilterMembers(narrow, EarlierTest(separators, band), a);
    } else {
      assert a in multiset(separators[..k]);
      assert a in separators[..k];
      var i :| 0 <= i < k && separators[..k][i] == a;
      assert IsSeparator(separators, i, a);
    }
  }

  lemma AddBand(separators: seq<Item>, narrow: seq<Item>, width: real, rtl: bool, ordered: seq<Item>, band: nat,
                more: seq<Item>)
    requires IsLayout(separators, narrow, width)
    requires UpToBand(separators, narrow, width, rtl, ordered, band)
    requires multiset(more) == multiset(InBand(narrow, separators, band))
    requires Pairwise(more, BandOrder(InBand(narrow, separators, band), width * 0.05, rtl))
    ensures WithBand(separators, narrow, width, rtl, ordered + more, band)
  {
    hide BandIndex, IsFullWidth, Boxed, VisuallyBefore, BandBefore, InBand, Numbered;
    OneMoreBand(narrow, separators, band);
    SameItems(more, InBand(narrow, separators, band));
    forall b | b in more
      ensures b in narrow && BandIndex(b, separators) == band
    {
      BandMembers(narrow, separators, band, b);
    }
    forall i, j | 0 <= i < |ordered| && 0 <= j < |more|
      ensures LayoutBefore(separators, narrow, width, rtl, ordered[i], more[j])
    {
      WhoIsBefore(separators, narrow, width, ordered, band, band, ordered[i]);
    }
    forall i, j | 0 <= i < j < |more|
      ensures LayoutBefore(separators, narrow, width, rtl, more[i], more[j])
    {
      assert BandOrder(InBand(narrow, separators, band), width * 0.05, rtl)(more[i], more[j]);
    }
    PairwiseAppend(ordered, more, LayoutOrder(separators, narrow, width, rtl));
  }

  lemma BandMembers(narrow: seq<Item>, separators: seq<Item>, band: int, b: Item)
    ensures b in InBand(narrow, separators, band) <==> b in narrow && BandIndex(b, separators) == band
  {
    FilterMembers(narrow, BandTest(separators, band), b);
  }

  lemma AddSeparator(separators: seq<Item>, narrow: seq<Item>, width: real, rtl: bool, ordered: seq<Item>, band: nat)
    requires IsLayout(separators, narrow, width) && band < |separators|
    requires WithBand(separators, narrow, width, rtl, ordered, band)
    ensures UpToBand(separators, narrow, width, rtl, ordered + [separators[band]], band + 1)
  {
    hide BandIndex, IsFullWidth, Boxed, VisuallyBefore, BandBefore, InBand, Numbered;
    var b := separators[band];
    assert IsSeparator(separators, band, b);
    assert separators[..band + 1] == separators[..band] + [b];
    forall i | 0 <= i < |ordered|
      ensures LayoutBefore(separators, narrow, width, rtl, ordered[i], b)
    {
      WhoIsBefore(separators, narrow, width, ordered, band, band + 1, ordered[i]);
    }
    PairwiseAppend(ordered, [b], LayoutOrder(separators, narrow, width, rtl));
  }

  /** The blocks of the page by bands, each band in its order and its separator after it. */
  method OrderBands(separators: seq<Item>, narrow: seq<Item>, width: real, rtl: bool) returns (ordered: seq<Item>)
    requires IsLayout(separators, narrow, width)
    ensures multiset(ordered) == multiset(narrow) + multiset(separators)
    ensures Pairwise(ordered, LayoutOrder(separators, narrow, width, rtl))
  {
    hide BandIndex, IsLayout, UpToBand, WithBand, InBand, LayoutOrder, Numbered;
    var bands: map<int, seq<Item>> := map[];
    NothingInBands(separators);
    for i := 0 to |narrow|
      invariant forall b :: (if b in bands then bands[b] else []) == InBand(narrow[..i], separators, b)
    {
      var band := BandIndex(narrow[i], separators);
      OneMoreInBand(narrow, separators, i);
      bands := bands[band := (if band in bands then bands[band] else []) + [narrow[i]]];
    }
    assert narrow[..|narrow|] == narrow;
    ordered := [];
    NothingOrdered(separators, narrow, width, rtl);
    for band := 0 to |separators|
      invariant UpToBand(separators, narrow, width, rtl, ordered, band)
    {
      var blocks := if band in bands then bands[band] else [];
      LayoutBand(separators, narrow, width, band);
      var more := OrderColumnsInBand(blocks, width, rtl);
      AddBand(separators, narrow, width, rtl, ordered, band, more);
      AddSeparator(separators, narrow, width, rtl, ordered + more, band);
      ordered := ordered + more + [separators[band]];
    }
    var last := |separators|;
    var blocks := if last in bands then bands[last] else [];
    LayoutBand(separators, narrow, width, last);
    var more := OrderColumnsInBand(blocks, width, rtl);
    AddBand(separators, narrow, width, rtl, ordered, last, more);
    ordered := ordered + more;
    AllBands(separators, narrow, width, rtl, ordered);
  }

  lemma NothingOrdered(separators: seq<Item>, narrow: seq<Item>, width: real, rtl: bool)
    ensures UpToBand(separators, narrow, width, rtl, [], 0)
  {
    FilterNone(narrow, EarlierTest(separators, 0));
  }

  lemma NothingInBands(separators: seq<Item>)
    ensures forall b :: InBand([], separators, b) == []
  {
  }

  lemma OneMoreInBand(narrow: seq<Item>, separators: seq<Item>, i: nat)
    requires i < |narrow|
    ensures forall b :: InBand(narrow[..i + 1], separators, b)
                     == InBand(narrow[..i], separators, b) + (if BandIndex(narrow[i], separators) == b then [narrow[i]]
                                                              else [])
  {
    hide BandIndex;
    assert narrow[..i + 1][..i] == narrow[..i];
  }

  lemma LayoutBand(separators: seq<Item>, narrow: seq<Item>, width: real, band: int)
    requires IsLayout(separators, narrow, width)
    ensures var blocks := InBand(narrow, separators, band);
            Numbered(blocks) && (forall a :: a in blocks ==> Boxed(a)) && width >= 0.0
  {
    hide BandIndex, IsFullWidth, Boxed, VisuallyBefore, Numbered;
    FilterIsPart(narrow, BandTest(separators, band));
    PartsAreNumbered(narrow, InBand(narrow, separators, band));
    forall a | a in InBand(narrow, separators, band)
      ensures Boxed(a)
    {
      BandMembers(narrow, separators, band, a);
    }
  }

  lemma {:induction false} FilterIsPart<T>(s: seq<T>, p: T -> bool)
    ensures multiset(Filter(s, p)) <= multiset(s)
    decreases |s|
  {
    if s != [] {
      FilterIsPart(s[..|s| - 1], p);
      assert s == s[..|s| - 1] + [s[|s| - 1]];
    }
  }

  lemma AllBands(separators: seq<Item>, narrow: seq<Item>, width: real, rtl: bool, ordered: seq<Item>)
    requires WithBand(separators, narrow, width, rtl, ordered, |separators|)
    ensures multiset(ordered) == multiset(narrow) + multiset(separators)
    ensures Pairwise(ordered, LayoutOrder(separators, narrow, width, rtl))
  {
    FilterAll(narrow, EarlierTest(separators, |separators| + 1));
    assert separators[..|separators|] == separators;
  }

  /** The reading order of a page on which every block has a box. */
  method BandedVisualOrder(items: seq<Item>, rtl: bool) returns (ordered: seq<Item>)
    requires Numbered(items) && forall a :: a in items ==> Boxed(a)
    ensures multiset(ordered) == multiset(items)
    ensures Pairwise(ordered, PageOrder(items, rtl))
  {
    hide Boxed, Numbered, Sort, VisuallyBefore, IsLayout, LayoutOrder, IsFullWidth, FullWidth, Narrow;
    var width := PageWidth(items);
    var fullWidth: seq<Item>, columnBlocks: seq<Item> := [], [];
    NothingSelected(width);
    for i := 0 to |items|
      invariant fullWidth == FullWidth(items[..i], width)
      invariant columnBlocks == Narrow(items[..i], width)
    {
      OneMoreItem(items, i, width);
      if IsFullWidth(width, items[i]) {
        fullWidth := fullWidth + [items[i]];
      } else {
        columnBlocks := columnBlocks + [items[i]];
      }
    }
    assert items[..|items|] == items;
    SortedTopToBottom(items);
    if |columnBlocks| < 2 {
      return Sort(items, VisuallyBefore);
    }
    var separators := Sort(fullWidth, VisuallyBefore);
    PageLayout(items, width);
    ordered := OrderBands(separators, columnBlocks, width, rtl);
  }

  lemma NothingSelected(width: real)
    ensures FullWidth([], width) == [] && Narrow([], width) == []
  {
  }

  lemma OneMoreItem(items: seq<Item>, i: nat, width: real)
    requires i < |items|
    ensures FullWidth(items[..i + 1], width)
         == FullWidth(items[..i], width) + (if IsFullWidth(width, items[i]) then [items[i]] else [])
    ensures Narrow(items[..i + 1], width)
         == Narrow(items[..i], width) + (if IsFullWidth(width, items[i]) then [] else [items[i]])
  {
    hide IsFullWidth;
    assert items[..i + 1][..i] == items[..i];
  }

  /** Separators and narrow blocks make up the page. */
  lemma PageLayout(items: seq<Item>, width: real)
    requires Numbered(items) && (forall a :: a in items ==> Boxed(a)) && width >= 1.0
    ensures var separators := Sort(FullWidth(items, width), VisuallyBefore);
            && IsLayout(separators, Narrow(items, width), width)
            && multiset(Narrow(items, width)) + multiset(separators) == multiset(items)
            && multiset(separators) == multiset(FullWidth(items, width))
            && Numbered(separators)
  {
    hide Boxed, Numbered, Sort, VisuallyBefore, IsFullWidth;
    var full := FullWidth(items, width);
    FilterIsPart(items, FullTest(width));
    FilterIsPart(items, NarrowTest(width));
    PartsAreNumbered(items, full);
    PartsAreNumbered(items, Narrow(items, width));
    SortedTopToBottom(full);
    SameItems(full, Sort(full, VisuallyBefore));
    PartsAreNumbered(items, Sort(full, VisuallyBefore));
    FilterSplits(items, FullTest(width), NarrowTest(width));
    forall a | a in Narrow(items, width)
      ensures Boxed(a) && !IsFullWidth(width, a)
    {
      FilterMembers(items, NarrowTest(width), a);
    }
    forall a | a in full
      ensures IsFullWidth(width, a)
    {
      FilterMembers(items, FullTest(width), a);
    }
  }

  // ----- what the order means on the page

  lemma SeparatorIsUnique(separators: seq<Item>, k: int, l: int, a: Item)
    requires Distinct(separators) && IsSeparator(separators, k, a) && IsSeparator(separators, l, a)
    ensures k == l
  {
  }

  /** The order of a page never holds both ways, so it determines the reading order. */
  lemma PageOrderIsOneWay(items: seq<Item>, rtl: bool, a: Item, b: Item)
    requires Numbered(items) && (forall a :: a in items ==> Boxed(a))
    requires PageOrder(items, rtl)(a, b)
    ensures !PageOrder(items, rtl)(b, a)
  {
    hide BandIndex, VisuallyBefore, Narrow, FullWidth, Boxed, Sort, BandBefore;
    var width := PageWidth(items);
    VisualOrderIsAnOrder();
    if |Narrow(items, width)| >= 2 {
      PageLayout(items, width);
      LayoutIsOneWay(Sort(FullWidth(items, width), VisuallyBefore), Narrow(items, width), width, rtl, a, b);
    }
  }

  lemma LayoutIsOneWay(separators: seq<Item>, narrow: seq<Item>, width: real, rtl: bool, a: Item, b: Item)
    requires Distinct(separators)
    requires LayoutBefore(separators, narrow, width, rtl, a, b)
    ensures !LayoutBefore(separators, narrow, width, rtl, b, a)
  {
    hide BandIndex, IsFullWidth, InBand, InEarlierColumn, VisualOrderKey;
    VisualOrderIsAnOrder();
    if IsFullWidth(width, a) != IsFullWidth(width, b) {
      var full := if IsFullWidth(width, a) then a else b;
      forall k, l | IsSeparator(separators, k, full) && IsSeparator(separators, l, full)
        ensures k == l
      {
        SeparatorIsUnique(separators, k, l, full);
      }
    } else if !IsFullWidth(width, a) {
      var blocks := InBand(narrow, separators, BandIndex(a, separators));
      assert InEarlierColumn(blocks, width * 0.05, a, b) ==> !InEarlierColumn(blocks, width * 0.05, b, a) by {
        if InEarlierColumn(blocks, width * 0.05, a, b) {
          EarlierColumnIsOneWay(blocks, width * 0.05, a, b);
        }
      }
    }
  }

  /** With the separators from top to bottom, the bands are what lies between them. */
  lemma {:induction false} BandByHeight(a: Item, separators: seq<Item>, k: nat)
    requires Boxed(a) && k < |separators| && forall s :: s in separators ==> Boxed(s)
    requires forall i, j :: 0 <= i < j < |separators| ==> BoxOf(separators[i]).y0 <= BoxOf(separators[j]).y0
    ensures k < BandIndex(a, separators) <==> Midpoint(a) >= BoxOf(separators[k]).y0
    decreases |separators|
  {
    hide Boxed, Midpoint;
    var init, last := separators[..|separators| - 1], separators[|separators| - 1];
    assert last in separators;
    if k < |init| {
      BandByHeight(a, init, k);
    }
    if Midpoint(a) >= BoxOf(last).y0 {
      AllAbove(a, init);
    }
  }

  lemma {:induction false} AllAbove(a: Item, separators: seq<Item>)
    requires Boxed(a) && forall s :: s in separators ==> Boxed(s) && Midpoint(a) >= BoxOf(s).y0
    ensures BandIndex(a, separators) == |separators|
    decreases |separators|
  {
    hide Boxed, Midpoint;
    if separators != [] {
      AllAbove(a, separators[..|separators| - 1]);
      assert separators[|separators| - 1] in separators;
    }
  }

  /** On a page with a number, a full-width block is read before a narrow one exactly when its top is at
      or above the middle of the narrow one. */
  lemma FullWidthBeforeNarrow(items: seq<Item>, rtl: bool, ordered: seq<Item>, i: nat, j: nat, page: int)
    requires Numbered(items) && forall a :: a in items ==> Boxed(a) && a.block.page == Some(page)
    requires multiset(ordered) == multiset(items) && Pairwise(ordered, PageOrder(items, rtl))
    requires |Narrow(items, PageWidth(items))| >= 2 && i < |ordered| && j < |ordered|
    requires IsFullWidth(PageWidth(items), ordered[i]) && !IsFullWidth(PageWidth(items), ordered[j])
    ensures i < j <==> BoxOf(ordered[i]).y0 <= Midpoint(ordered[j])
  {
    hide Numbered, Sort, Narrow, FullWidth, IsFullWidth, BandIndex, Midpoint, Boxed, BandBefore, VisuallyBefore;
    var width := PageWidth(items);
    var separators := Sort(FullWidth(items, width), VisuallyBefore);
    SameItems(ordered, items);
    assert ordered[j] in items;
    SeparatorsByHeight(items, page);
    forall k | 0 <= k < |separators|
      ensures k < BandIndex(ordered[j], separators) <==> Midpoint(ordered[j]) >= BoxOf(separators[k]).y0
    {
      BandByHeight(ordered[j], separators, k);
    }
    if i < j {
      assert LayoutBefore(separators, Narrow(items, width), width, rtl, ordered[i], ordered[j]);
    } else {
      assert LayoutBefore(separators, Narrow(items, width), width, rtl, ordered[j], ordered[i]);
    }
  }

  lemma SeparatorsByHeight(items: seq<Item>, page: int)
    requires Numbered(items) && forall a :: a in items ==> Boxed(a) && a.block.page == Some(page)
    ensures var separators := Sort(FullWidth(items, PageWidth(items)), VisuallyBefore);
            && (forall s :: s in separators ==> Boxed(s))
            && forall k, l :: 0 <= k < l < |separators| ==> BoxOf(separators[k]).y0 <= BoxOf(separators[l]).y0
  {
    hide Numbered, Sort, Narrow, FullWidth, IsFullWidth, Boxed;
    var width := PageWidth(items);
    var separators := Sort(FullWidth(items, width), VisuallyBefore);
    PageLayout(items, width);
    SameItems(separators, FullWidth(items, width));
    forall s | s in separators
      ensures s in items
    {
      FullWidthMembers(items, width, s);
    }
    forall k, l | 0 <= k < l < |separators|
      ensures BoxOf(separators[k]).y0 <= BoxOf(separators[l]).y0
    {
      assert VisuallyBefore(separators[k], separators[l]);
      assert separators[k] in separators && separators[l] in separators;
    }
  }

  lemma FullWidthMembers(items: seq<Item>, width: real, a: Item)
    ensures a in FullWidth(items, width) <==> a in items && IsFullWidth(width, a)
  {
    FilterMembers(items, FullTest(width), a);
  }

  /** Inside a band the columns are read from the left, or all of them from the right, and a column from
      top to bottom. */
  lemma ColumnsFromTheSide(items: seq<Item>, rtl: bool, ordered: seq<Item>, i: nat, j: nat)
    requires multiset(ordered) == multiset(items) && Pairwise(ordered, PageOrder(items, rtl))
    requires |Narrow(items, PageWidth(items))| >= 2 && i < j < |ordered|
    requires !IsFullWidth(PageWidth(items), ordered[i]) && !IsFullWidth(PageWidth(items), ordered[j])
    ensures var width := PageWidth(items);
            var separators := Sort(FullWidth(items, width), VisuallyBefore);
            var band := BandIndex(ordered[i], separators);
            var blocks := InBand(Narrow(items, width), separators, band);
            && band <= BandIndex(ordered[j], separators)
            && (band == BandIndex(ordered[j], separators) ==>
                  && (if rtl then !InEarlierColumn(blocks, width * 0.05, ordered[i], ordered[j])
                      else !InEarlierColumn(blocks, width * 0.05, ordered[j], ordered[i]))
                  && (!InEarlierColumn(blocks, width * 0.05, ordered[i], ordered[j]) &&
                      !InEarlierColumn(blocks, width * 0.05, ordered[j], ordered[i]) ==>
                        VisuallyBefore(ordered[i], ordered[j])))
  {
    hide Sort, Narrow, FullWidth, IsFullWidth, BandIndex, VisuallyBefore, InEarlierColumn, InBand;
    var width := PageWidth(items);
    var separators := Sort(FullWidth(items, width), VisuallyBefore);
    assert LayoutBefore(separators, Narrow(items, width), width, rtl, ordered[i], ordered[j]);
    var blocks := InBand(Narrow(items, width), separators, BandIndex(ordered[i], separators));
    if InEarlierColumn(blocks, width * 0.05, ordered[i], ordered[j]) {
      EarlierColumnIsOneWay(blocks, width * 0.05, ordered[i], ordered[j]);
    }
    if InEarlierColumn(blocks, width * 0.05, ordered[j], ordered[i]) {
      EarlierColumnIsOneWay(blocks, width * 0.05, ordered[j], ordered[i]);
    }
  }
}
