/**
 The blocks around an anchor, in reading order: those that follow it up to the next anchor, those that
 come before it back to the previous one, each cut off where the pages get too far away.
 */
module EvidenceWindows {
  import opened Wrappers
  import opened Sequences

  datatype Block = Block(key: string, hasText: bool, pageStart: Option<int>, pageEnd: Option<int>)

  datatype Window = Window(anchor: Block, body: seq<Block>, next: Option<Block>, previous: Option<Block>)

  /** What the caller looks for: the anchors, the blocks to keep, and how far pages may lie apart. */
  datatype Search = Search(isAnchor: Block -> bool, accepts: Block -> bool, maxPageGap: Option<int>)

  predicate WithinPageGap(anchor: Block, b: Block, maxPageGap: Option<int>) {
    var page := if b.pageEnd.Some? then b.pageEnd else b.pageStart;
    || maxPageGap.None? || anchor.pageStart.None? || page.None?
    || -maxPageGap.value <= page.value - anchor.pageStart.value <= maxPageGap.value
  }

  predicate IsAnchor(find: Search, b: Block) {
    b.hasText && find.isAnchor(b)
  }

  /** The block ends the scan. */
  predicate Stops(find: Search, anchor: Block, b: Block) {
    b.hasText && (find.isAnchor(b) || !WithinPageGap(anchor, b, find.maxPageGap))
  }

  predicate Kept(find: Search, b: Block) {
    b.hasText && find.accepts(b)
  }

  /** What a scan collects before it stops. */
  function Scan(find: Search, anchor: Block, rest: seq<Block>): seq<Block> {
    if rest == [] || Stops(find, anchor, rest[0]) then []
    else (if Kept(find, rest[0]) then [rest[0]] else []) + Scan(find, anchor, rest[1..])
  }

  /** The anchor a scan stops at, unless the page gap stops it first. */
  function ScanEnd(find: Search, anchor: Block, rest: seq<Block>): Option<Block> {
    if rest == [] then None
    else if Stops(find, anchor, rest[0]) then (if find.isAnchor(rest[0]) then Some(rest[0]) else None)
    else ScanEnd(find, anchor, rest[1..])
  }

  function FirstAnchor(find: Search, rest: seq<Block>): Option<Block> {
    if rest == [] then None else if IsAnchor(find, rest[0]) then Some(rest[0]) else FirstAnchor(find, rest[1..])
  }

  /** The last place of a key: later blocks overwrite earlier ones in the index. */
  function IndexOf(blocks: seq<Block>, key: string): (i: Option<nat>)
    ensures i.Some? ==> i.value < |blocks| && blocks[i.value].key == key
    ensures i.None? ==> forall j :: 0 <= j < |blocks| ==> blocks[j].key != key
  {
    if blocks == [] then None
    else if blocks[|blocks| - 1].key == key then Some(|blocks| - 1)
    else IndexOf(blocks[..|blocks| - 1], key)
  }

  function WindowAfter(blocks: seq<Block>, find: Search, anchor: Block): Window {
    match IndexOf(blocks, anchor.key)
    case None => Window(anchor, [], None, None)
    case Some(i) =>
      Window(anchor, Scan(find, anchor, blocks[i + 1..]), ScanEnd(find, anchor, blocks[i + 1..]),
             FirstAnchor(find, Reverse(blocks[..i])))
  }

  function WindowBefore(blocks: seq<Block>, find: Search, anchor: Block): Window {
    match IndexOf(blocks, anchor.key)
    case None => Window(anchor, [], None, None)
    case Some(i) =>
      Window(anchor, Reverse(Scan(find, anchor, Reverse(blocks[..i]))), FirstAnchor(find, blocks[i + 1..]),
             ScanEnd(find, anchor, Reverse(blocks[..i])))
  }

  ghost predicate UniqueKeys(blocks: seq<Block>) {
    forall i, j :: 0 <= i < j < |blocks| ==> blocks[i].key != blocks[j].key
  }

  // ----- forwards and backwards

  lemma {:induction false} ReverseTwice<T>(s: seq<T>)
    ensures Reverse(Reverse(s)) == s
  {
    forall i | 0 <= i < |s|
      ensures Reverse(Reverse(s))[i] == s[i]
    {
      ReverseAt(Reverse(s), i);
      ReverseAt(s, |s| - 1 - i);
    }
  }

  lemma {:induction false} ReverseConcat<T>(a: seq<T>, b: seq<T>)
    ensures Reverse(a + b) == Reverse(b) + Reverse(a)
    decreases |b|
  {
    if b == [] {
      assert a + b == a;
    } else {
      assert (a + b)[..|a + b| - 1] == a + b[..|b| - 1];
      ReverseConcat(a, b[..|b| - 1]);
    }
  }

  lemma AroundOne<T>(a: seq<T>, x: T, b: seq<T>)
    ensures (a + [x] + b)[|a|] == x && (a + [x] + b)[..|a|] == a && (a + [x] + b)[|a| + 1..] == b
  {
  }

  lemma ReverseAround<T>(a: seq<T>, x: T, b: seq<T>)
    ensures Reverse(a + [x] + b) == Reverse(b) + [x] + Reverse(a)
  {
    ReverseConcat(a + [x], b);
    assert (a + [x])[..|a|] == a;
  }

  lemma ReverseParts<T>(a: seq<T>, x: T, b: seq<T>)
    ensures var r := Reverse(a + [x] + b);
            |r| == |b| + 1 + |a| && r[|b|] == x && r[..|b|] == Reverse(b) && r[|b| + 1..] == Reverse(a)
  {
    hide Reverse;
    ReverseAround(a, x, b);
    AroundOne(Reverse(b), x, Reverse(a));
  }

  lemma Around<T>(s: seq<T>, i: nat)
    requires i < |s|
    ensures s == s[..i] + [s[i]] + s[i + 1..]
  {
  }

  lemma ReverseSlices<T>(s: seq<T>, i: nat)
    requires i < |s|
    ensures Reverse(s)[|s| - 1 - i] == s[i]
    ensures Reverse(s)[|s| - i..] == Reverse(s[..i])
    ensures Reverse(s)[..|s| - 1 - i] == Reverse(s[i + 1..])
  {
    hide Reverse;
    Around(s, i);
    ReverseParts(s[..i], s[i], s[i + 1..]);
  }

  lemma IndexInReverse(blocks: seq<Block>, key: string)
    requires UniqueKeys(blocks)
    ensures IndexOf(Reverse(blocks), key) ==
              match IndexOf(blocks, key) case None => None case Some(i) => Some(|blocks| - 1 - i)
  {
    hide Reverse;
    var reversed := Reverse(blocks);
    forall k | 0 <= k < |blocks|
      ensures reversed[k] == blocks[|blocks| - 1 - k]
    {
      ReverseAt(blocks, k);
    }
    var i, j := IndexOf(blocks, key), IndexOf(reversed, key);
    if j.Some? {
      assert blocks[|blocks| - 1 - j.value].key == key;
    }
    if i.Some? {
      assert reversed[|blocks| - 1 - i.value].key == key;
    }
  }

  /** With unique keys, looking back is looking ahead in the reversed document: the same blocks the other way
      round, and the next anchor is the previous one. */
  lemma BeforeIsAfterReversed(blocks: seq<Block>, find: Search, anchor: Block)
    requires UniqueKeys(blocks)
    ensures var before, after := WindowBefore(blocks, find, anchor), WindowAfter(Reverse(blocks), find, anchor);
            && before.body == Reverse(after.body) && before.anchor == after.anchor
            && before.next == after.previous && before.previous == after.next
  {
    hide Reverse, Scan, ScanEnd, FirstAnchor, UniqueKeys;
    IndexInReverse(blocks, anchor.key);
    match IndexOf(blocks, anchor.key)
    case None => NothingReversed();
    case Some(i) =>
      ReverseSlices(blocks, i);
      ReverseTwice(blocks[i + 1..]);
      assert |Reverse(blocks)| == |blocks|;
  }

  lemma NothingReversed()
    ensures Reverse<Block>([]) == []
  {
  }

  // ----- what a window holds

  /** The scan from `i` gets past everything up to `p`. */
  ghost predicate Reaches(blocks: seq<Block>, find: Search, anchor: Block, i: int, p: int) {
    forall q :: i < q <= p && 0 <= q < |blocks| ==> !Stops(find, anchor, blocks[q])
  }

  lemma CannotReach(blocks: seq<Block>, find: Search, anchor: Block, from: int, i: nat)
    requires from < i < |blocks| && Stops(find, anchor, blocks[i])
    ensures forall p :: Reaches(blocks, find, anchor, from, p) ==> p < i
  {
    hide Stops;
  }

  lemma {:induction false} ScanMembers(blocks: seq<Block>, find: Search, anchor: Block, i: nat, b: Block)
    requires i <= |blocks|
    ensures b in Scan(find, anchor, blocks[i..]) <==>
              exists p :: i <= p < |blocks| && blocks[p] == b && Kept(find, b) &&
                  Reaches(blocks, find, anchor, i - 1, p)
    decreases |blocks| - i
  {
    hide Stops, Kept;
    if i < |blocks| {
      var rest := blocks[i..];
      assert rest[1..] == blocks[i + 1..] && rest[0] == blocks[i];
      ScanMembers(blocks, find, anchor, i + 1, b);
      if Stops(find, anchor, blocks[i]) {
        CannotReach(blocks, find, anchor, i - 1, i);
      } else {
        forall p | i < p < |blocks|
          ensures Reaches(blocks, find, anchor, i - 1, p) <==> Reaches(blocks, find, anchor, i, p)
        {
        }
        assert Reaches(blocks, find, anchor, i - 1, i);
      }
    }
  }

  /** A block is in the window of the anchor at `i` exactly when it stands later, has text and is accepted,
      and no text-bearing block from there to it is an anchor or too many pages away. */
  lemma WindowHolds(blocks: seq<Block>, find: Search, i: nat, p: nat)
    requires UniqueKeys(blocks) && i < |blocks| && p < |blocks|
    ensures blocks[p] in WindowAfter(blocks, find, blocks[i]).body <==>
              i < p && Kept(find, blocks[p]) && Reaches(blocks, find, blocks[i], i, p)
  {
    hide Stops, Kept, Scan, Reaches;
    assert IndexOf(blocks, blocks[i].key) == Some(i);
    ScanMembers(blocks, find, blocks[i], i + 1, blocks[p]);
  }

  /** Windows of different anchors share no block. */
  lemma WindowsAreDisjoint(blocks: seq<Block>, find: Search, i: nat, j: nat, b: Block)
    requires UniqueKeys(blocks) && i < j < |blocks| && IsAnchor(find, blocks[i]) && IsAnchor(find, blocks[j])
    ensures !(b in WindowAfter(blocks, find, blocks[i]).body && b in WindowAfter(blocks, find, blocks[j]).body)
  {
    hide Kept, Scan, UniqueKeys;
    if b in WindowAfter(blocks, find, blocks[i]).body && b in WindowAfter(blocks, find, blocks[j]).body {
      WindowIsInside(blocks, find, j, b);
      var p :| 0 <= p < |blocks| && blocks[p] == b;
      WindowHolds(blocks, find, i, p);
      WindowHolds(blocks, find, j, p);
      assert false;
    }
  }

  lemma WindowIsInside(blocks: seq<Block>, find: Search, j: nat, b: Block)
    requires UniqueKeys(blocks) && j < |blocks| && b in WindowAfter(blocks, find, blocks[j]).body
    ensures b in blocks
  {
    hide Stops, Kept, Scan, Reaches;
    assert IndexOf(blocks, blocks[j].key) == Some(j);
    ScanMembers(blocks, find, blocks[j], j + 1, b);
  }

  // ----- windows by the places of blocks

  /** The block is further from the page of the anchor than allowed. A limit, and both pages, have to be known. */
  ghost predicate TooFar(find: Search, anchor: Block, b: Block) {
    && find.maxPageGap.Some? && anchor.pageStart.Some? && (b.pageEnd.Some? || b.pageStart.Some?)
    && var page := if b.pageEnd.Some? then b.pageEnd.value else b.pageStart.value;
       || page > anchor.pageStart.value + find.maxPageGap.value
       || page < anchor.pageStart.value - find.maxPageGap.value
  }

  /** An anchor that is not in the document has an empty window and no neighbours. */
  lemma UnknownAnchor(blocks: seq<Block>, find: Search, anchor: Block)
    requires forall j :: 0 <= j < |blocks| ==> blocks[j].key != anchor.key
    ensures WindowAfter(blocks, find, anchor) == Window(anchor, [], None, None)
    ensures WindowBefore(blocks, find, anchor) == Window(anchor, [], None, None)
  {
    hide Scan, ScanEnd, FirstAnchor;
  }

  /** A text-bearing block ends the scan when it is an anchor or too far away. */
  lemma StopsTell(find: Search, anchor: Block, b: Block)
    ensures Stops(find, anchor, b) <==> b.hasText && (find.isAnchor(b) || TooFar(find, anchor, b))
    ensures IsAnchor(find, b) <==> b.hasText && find.isAnchor(b)
    ensures Kept(find, b) <==> b.hasText && find.accepts(b)
  {
  }

  /** The place `p` of the rest is the first at which `isIt` holds. */
  ghost predicate IsFirst(rest: seq<Block>, isIt: Block -> bool, p: int) {
    0 <= p < |rest| && isIt(rest[p]) && forall q :: 0 <= q < p ==> !isIt(rest[q])
  }

  ghost function StopTest(find: Search, anchor: Block): Block -> bool {
    (b: Block) => Stops(find, anchor, b)
  }

  ghost function AnchorTest(find: Search): Block -> bool {
    (b: Block) => IsAnchor(find, b)
  }

  lemma FirstOfRest(rest: seq<Block>, isIt: Block -> bool, p: int)
    requires IsFirst(rest, isIt, p) && !isIt(rest[0])
    ensures p > 0 && IsFirst(rest[1..], isIt, p - 1) && rest[1..][p - 1] == rest[p]
  {
    forall q | 0 <= q < p - 1
      ensures !isIt(rest[1..][q])
    {
      assert !isIt(rest[q + 1]);
    }
  }

  lemma FirstIsZero(rest: seq<Block>, isIt: Block -> bool, p: int)
    requires IsFirst(rest, isIt, p) && isIt(rest[0])
    ensures p == 0
  {
  }

  lemma {:induction false} ScanEndAt(find: Search, anchor: Block, rest: seq<Block>, p: nat)
    requires IsFirst(rest, StopTest(find, anchor), p)
    ensures ScanEnd(find, anchor, rest) == if find.isAnchor(rest[p]) then Some(rest[p]) else None
    decreases |rest|
  {
    assert 0 <= p < |rest|;
    hide Stops, IsFirst;
    if Stops(find, anchor, rest[0]) {
      FirstIsZero(rest, StopTest(find, anchor), p);
    } else {
      FirstOfRest(rest, StopTest(find, anchor), p);
      ScanEndAt(find, anchor, rest[1..], p - 1);
    }
  }

  lemma {:induction false} NothingEndsScan(find: Search, anchor: Block, rest: seq<Block>)
    requires forall p :: 0 <= p < |rest| ==> !Stops(find, anchor, rest[p])
    ensures ScanEnd(find, anchor, rest) == None
    decreases |rest|
  {
    hide Stops;
    if rest != [] {
      NothingEndsScan(find, anchor, rest[1..]);
    }
  }

  lemma {:induction false} FirstAnchorAt(find: Search, rest: seq<Block>, p: nat)
    requires IsFirst(rest, AnchorTest(find), p)
    ensures FirstAnchor(find, rest) == Some(rest[p])
    decreases |rest|
  {
    assert 0 <= p < |rest|;
    hide IsAnchor, IsFirst;
    if IsAnchor(find, rest[0]) {
      FirstIsZero(rest, AnchorTest(find), p);
    } else {
      FirstOfRest(rest, AnchorTest(find), p);
      FirstAnchorAt(find, rest[1..], p - 1);
    }
  }

  lemma {:induction false} NoFirstAnchor(find: Search, rest: seq<Block>)
    requires forall p :: 0 <= p < |rest| ==> !IsAnchor(find, rest[p])
    ensures FirstAnchor(find, rest) == None
    decreases |rest|
  {
    hide IsAnchor;
    if rest != [] {
      NoFirstAnchor(find, rest[1..]);
    }
  }

  /** The anchors that a window after the block at `i` reports. The next one is the first block behind it that
      ends the scan, if that is an anchor; the previous one is the nearest anchor in front of it. */
  lemma WindowAnchorsTell(blocks: seq<Block>, find: Search, i: nat, p: nat)
    requires UniqueKeys(blocks) && i < |blocks| && p < |blocks|
    ensures var window := WindowAfter(blocks, find, blocks[i]);
            && (i < p && Stops(find, blocks[i], blocks[p])
                && (forall q :: i < q < p ==> !Stops(find, blocks[i], blocks[q])) ==>
                  window.next == if find.isAnchor(blocks[p]) then Some(blocks[p]) else None)
            && ((forall q :: i < q < |blocks| ==> !Stops(find, blocks[i], blocks[q])) ==> window.next == None)
            && (p < i && IsAnchor(find, blocks[p]) && (forall q :: p < q < i ==> !IsAnchor(find, blocks[q])) ==>
                  window.previous == Some(blocks[p]))
            && ((forall q :: 0 <= q < i ==> !IsAnchor(find, blocks[q])) ==> window.previous == None)
  {
    hide Stops, IsAnchor, Scan, ScanEnd, FirstAnchor, IsFirst, Reverse;
    var anchor, behind, front := blocks[i], blocks[i + 1..], Reverse(blocks[..i]);
    assert IndexOf(blocks, anchor.key) == Some(i);
    FirstBehind(blocks, StopTest(find, anchor), i, p);
    FirstInFront(blocks, AnchorTest(find), i, p);
    forall q: nat
      ensures |front| == i
      ensures q < i ==> front[q] == blocks[i - 1 - q]
    {
      FrontAt(blocks, i, q);
    }
    if i < p && Stops(find, anchor, blocks[p]) && (forall q :: i < q < p ==> !Stops(find, anchor, blocks[q])) {
      ScanEndAt(find, anchor, behind, p - i - 1);
    }
    if forall q :: i < q < |blocks| ==> !Stops(find, anchor, blocks[q]) {
      NothingEndsScan(find, anchor, behind);
    }
    if p < i && IsAnchor(find, blocks[p]) && (forall q :: p < q < i ==> !IsAnchor(find, blocks[q])) {
      FirstAnchorAt(find, front, i - 1 - p);
    }
    if forall q :: 0 <= q < i ==> !IsAnchor(find, blocks[q]) {
      NoFirstAnchor(find, front);
    }
  }

  lemma FrontAt(blocks: seq<Block>, i: nat, q: nat)
    requires i <= |blocks|
    ensures |Reverse(blocks[..i])| == i
    ensures q < i ==> Reverse(blocks[..i])[q] == blocks[i - 1 - q]
  {
    if q < i {
      ReverseAt(blocks[..i], q);
    } else if i > 0 {
      ReverseAt(blocks[..i], 0);
    }
  }

  lemma FirstBehind(blocks: seq<Block>, isIt: Block -> bool, i: nat, p: nat)
    requires i < |blocks| && p < |blocks|
    ensures i < p && isIt(blocks[p]) && (forall q :: i < q < p ==> !isIt(blocks[q])) ==>
              IsFirst(blocks[i + 1..], isIt, p - i - 1)
  {
  }

  lemma FirstInFront(blocks: seq<Block>, isIt: Block -> bool, i: nat, p: nat)
    requires i < |blocks| && p < |blocks|
    ensures p < i && isIt(blocks[p]) && (forall q :: p < q < i ==> !isIt(blocks[q])) ==>
              IsFirst(Reverse(blocks[..i]), isIt, i - 1 - p)
  {
    hide Reverse;
    forall q: nat
      ensures |Reverse(blocks[..i])| == i
      ensures q < i ==> Reverse(blocks[..i])[q] == blocks[i - 1 - q]
    {
      FrontAt(blocks, i, q);
    }
  }

  /** The body of a window keeps the order of the document and holds a block as often as that does. */
  lemma {:induction false} ScanInOrder(find: Search, anchor: Block, rest: seq<Block>, a: nat) returns (p: nat)
    requires a < |Scan(find, anchor, rest)|
    ensures p < |rest| && Scan(find, anchor, rest)[a] == rest[p] && a == |Scan(find, anchor, rest[..p])|
    decreases |rest|
  {
    hide Stops, Kept;
    var kept := if Kept(find, rest[0]) then 1 else 0;
    if a < kept {
      p := 0;
    } else {
      p := ScanInOrder(find, anchor, rest[1..], a - kept);
      assert rest[1..][..p] == rest[..p + 1][1..];
      p := p + 1;
    }
  }

  // ----- anchors and windows make up the document

  function TextBearing(blocks: seq<Block>): seq<Block> {
    if blocks == [] then []
    else (if blocks[0].hasText then [blocks[0]] else []) + TextBearing(blocks[1..])
  }

  /** Every anchor from place `k` on, each followed by its window. */
  function AnchorsAndWindows(blocks: seq<Block>, find: Search, k: nat): seq<Block>
    requires k <= |blocks|
    decreases |blocks| - k
  {
    if k == |blocks| then []
    else
      (if IsAnchor(find, blocks[k]) then [blocks[k]] + WindowAfter(blocks, find, blocks[k]).body else [])
      + AnchorsAndWindows(blocks, find, k + 1)
  }

  lemma OneStep(blocks: seq<Block>, find: Search, anchor: Block, k: nat)
    requires k < |blocks|
    ensures Scan(find, anchor, blocks[k..]) ==
              if Stops(find, anchor, blocks[k]) then []
              else (if Kept(find, blocks[k]) then [blocks[k]] else []) + Scan(find, anchor, blocks[k + 1..])
    ensures TextBearing(blocks[k..]) == (if blocks[k].hasText then [blocks[k]] else []) + TextBearing(blocks[k + 1..])
  {
    hide Stops, Kept;
    assert blocks[k..][0] == blocks[k] && blocks[k..][1..] == blocks[k + 1..];
  }

  lemma WindowOfAnchor(blocks: seq<Block>, find: Search, k: nat)
    requires UniqueKeys(blocks) && k < |blocks|
    ensures WindowAfter(blocks, find, blocks[k]).body == Scan(find, blocks[k], blocks[k + 1..])
  {
    hide Scan;
    assert IndexOf(blocks, blocks[k].key) == Some(k);
  }

  lemma {:induction false} WindowsCoverSuffix(blocks: seq<Block>, find: Search, anchor: Block, k: nat)
    requires UniqueKeys(blocks) && k <= |blocks|
    requires find.maxPageGap.None? && forall b :: b in blocks ==> find.accepts(b)
    ensures Scan(find, anchor, blocks[k..]) + AnchorsAndWindows(blocks, find, k) == TextBearing(blocks[k..])
    decreases |blocks| - k
  {
    hide UniqueKeys, WindowAfter, Scan, TextBearing;
    if k == |blocks| {
      NothingLeft(blocks, find, anchor);
    } else {
      var c := blocks[k];
      OneStep(blocks, find, anchor, k);
      assert find.accepts(c);
      if IsAnchor(find, c) {
        WindowOfAnchor(blocks, find, k);
        WindowsCoverSuffix(blocks, find, c, k + 1);
      } else {
        WindowsCoverSuffix(blocks, find, anchor, k + 1);
      }
    }
  }

  lemma NothingLeft(blocks: seq<Block>, find: Search, anchor: Block)
    ensures Scan(find, anchor, blocks[|blocks|..]) == [] && TextBearing(blocks[|blocks|..]) == []
  {
  }

  /** With no page limit and every block accepted, the anchors and their windows are exactly the text-bearing
      blocks from the first anchor on, in order. */
  lemma {:induction false} WindowsMakeUpDocument(blocks: seq<Block>, find: Search, first: nat)
    requires UniqueKeys(blocks) && first < |blocks| && IsAnchor(find, blocks[first])
    requires forall i :: 0 <= i < first ==> !IsAnchor(find, blocks[i])
    requires find.maxPageGap.None? && forall b :: b in blocks ==> find.accepts(b)
    ensures AnchorsAndWindows(blocks, find, 0) == TextBearing(blocks[first..])
  {
    hide Scan, TextBearing, UniqueKeys;
    SkipToFirst(blocks, find, 0, first);
    WindowsCoverSuffix(blocks, find, blocks[first], first);
    StopsAtOnce(blocks, find, first);
  }

  lemma StopsAtOnce(blocks: seq<Block>, find: Search, first: nat)
    requires first < |blocks| && IsAnchor(find, blocks[first])
    ensures Scan(find, blocks[first], blocks[first..]) == []
  {
  }

  lemma {:induction false} SkipToFirst(blocks: seq<Block>, find: Search, k: nat, first: nat)
    requires k <= first < |blocks| && forall i :: 0 <= i < first ==> !IsAnchor(find, blocks[i])
    ensures AnchorsAndWindows(blocks, find, k) == AnchorsAndWindows(blocks, find, first)
    decreases first - k
  {
    if k < first {
      SkipToFirst(blocks, find, k + 1, first);
    }
  }

  // ----- the graph

  class EvidenceGraph {
    const blocks: seq<Block>
    var indexByKey: map<string, nat>

    ghost predicate Valid()
      reads this
    {
      forall key :: (if key in indexByKey then Some(indexByKey[key]) else None) == IndexOf(blocks, key)
    }

    constructor (blocks: seq<Block>)
      ensures this.blocks == blocks && Valid()
    {
      this.blocks := blocks;
      indexByKey := map[];
      new;
      for i := 0 to |blocks|
        invariant this.blocks == blocks
        invariant forall key :: (if key in indexByKey then Some(indexByKey[key]) else None) == IndexOf(blocks[..i], key)
      {
        assert blocks[..i + 1][..i] == blocks[..i];
        indexByKey := indexByKey[blocks[i].key := i];
      }
      assert blocks[..|blocks|] == blocks;
    }

    /** The nearest anchor among `rest`, which is read from its start. */
    method Nearest(find: Search, rest: seq<Block>) returns (found: Option<Block>)
      ensures found == FirstAnchor(find, rest)
    {
      for k := 0 to |rest|
        invariant FirstAnchor(find, rest[k..]) == FirstAnchor(find, rest)
      {
        assert rest[k..][0] == rest[k] && rest[k..][1..] == rest[k + 1..];
        if rest[k].hasText && find.isAnchor(rest[k]) {
          return Some(rest[k]);
        }
      }
      return None;
    }

    method VisualWindowAfterAnchor(anchor: Block, find: Search) returns (window: Window)
      requires Valid()
      ensures window == WindowAfter(blocks, find, anchor)
    {
      hide IndexOf, Reverse;
      assert (if anchor.key in indexByKey then Some(indexByKey[anchor.key]) else None) == IndexOf(blocks, anchor.key);
      if anchor.key !in indexByKey {
        return Window(anchor, [], None, None);
      }
      var i := indexByKey[anchor.key];
      var body, next := Collect(anchor, find, blocks[i + 1..]);
      var previous := Nearest(find, Reverse(blocks[..i]));
      return Window(anchor, body, next, previous);
    }

    method VisualWindowBeforeAnchor(anchor: Block, find: Search) returns (window: Window)
      requires Valid()
      ensures window == WindowBefore(blocks, find, anchor)
    {
      hide IndexOf, Reverse;
      assert (if anchor.key in indexByKey then Some(indexByKey[anchor.key]) else None) == IndexOf(blocks, anchor.key);
      if anchor.key !in indexByKey {
        return Window(anchor, [], None, None);
      }
      var i := indexByKey[anchor.key];
      var body, previous := Collect(anchor, find, Reverse(blocks[..i]));
      var next := Nearest(find, blocks[i + 1..]);
      return Window(anchor, Reverse(body), next, previous);
    }

    /** The loop of both directions. */
    method Collect(anchor: Block, find: Search, rest: seq<Block>) returns (body: seq<Block>, stop: Option<Block>)
      ensures body == Scan(find, anchor, rest) && stop == ScanEnd(find, anchor, rest)
    {
      hide WithinPageGap;
      body, stop := [], None;
      for k := 0 to |rest|
        invariant stop.None? && body + Scan(find, anchor, rest[k..]) == Scan(find, anchor, rest)
        invariant ScanEnd(find, anchor, rest[k..]) == ScanEnd(find, anchor, rest)
      {
        var candidate := rest[k];
        assert rest[k..][0] == candidate && rest[k..][1..] == rest[k + 1..];
        if !candidate.hasText {
          continue;
        }
        if find.isAnchor(candidate) {
          return body, Some(candidate);
        }
        if !WithinPageGap(anchor, candidate, find.maxPageGap) {
          return body, None;
        }
        if find.accepts(candidate) {
          body := body + [candidate];
        }
      }
    }
  }
}
