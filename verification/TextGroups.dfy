/**
 Grouping the blocks of a parsed page sequence into texts. `GroupBuilder` is the loop with its
 running state; `Segments` and `GroupOf` say without any running state what it must come to.
 */
module TextGroups {
  import opened Text
  import opened Wrappers
  import opened Sequences

  /** A parsed block: its text, the page it is on, the page range its source item declares, its warnings. */
  datatype Block = Block(text: string, page: Option<int>, itemStart: Option<int>, itemEnd: Option<int>,
                         warnings: seq<string>)

  /** A block inside a group, and where its text stands in the group's text. */
  datatype TextBlock = TextBlock(text: string, page: Option<int>, warnings: seq<string>, start: nat, end: nat)

  datatype Group = Group(text: string, pageStart: Option<int>, pageEnd: Option<int>, warnings: seq<string>,
                         blocks: seq<TextBlock>)

  /** A Markdown heading of level one to four. */
  predicate IsHeading(text: string) {
    exists n :: 1 <= n <= 4 && n < |text| && IsSpace(text[n]) && forall p :: 0 <= p < n ==> text[p] == '#'
  }

  /** A heading begins with up to four signs, and white space right behind them. */
  lemma HeadingTells(text: string, signs: nat)
    requires signs <= |text| && (forall p :: 0 <= p < signs ==> text[p] == '#')
    requires signs == |text| || text[signs] != '#'
    ensures IsHeading(text) <==> 1 <= signs <= 4 && signs < |text| && IsSpace(text[signs])
  {
    assert forall n :: 0 <= n < signs ==> !IsSpace(text[n]);
  }

  /** A block has text when some character of it is not white space. */
  lemma TextTells(b: Block)
    ensures HasText(b) <==> exists i :: 0 <= i < |b.text| && !IsSpace(b.text[i])
  {
    hide IsSpace, Strip;
    BlankIsEmpty(b.text);
  }

  predicate HasText(b: Block) {
    Strip(b.text) != ""
  }

  function OrElse(a: Option<int>, b: Option<int>): Option<int> {
    if a.Some? then a else b
  }

  /** The first and last page a block stands for; an item that declares one of the two stands for that page. */
  function FirstPage(b: Block): Option<int> {
    OrElse(OrElse(b.itemStart, b.page), OrElse(b.itemEnd, b.page))
  }

  function LastPage(b: Block): Option<int> {
    OrElse(OrElse(b.itemEnd, b.page), OrElse(b.itemStart, b.page))
  }

  /** The pages of a block: its own range where it has one, otherwise its page; one end stands for the other. */
  lemma PagesTell(b: Block)
    ensures b.itemStart.Some? ==> FirstPage(b) == b.itemStart
    ensures b.itemEnd.Some? ==> LastPage(b) == b.itemEnd
    ensures b.itemStart.None? && b.page.Some? ==> FirstPage(b) == b.page
    ensures b.itemEnd.None? && b.page.Some? ==> LastPage(b) == b.page
    ensures b.page.None? && b.itemStart.None? ==> FirstPage(b) == b.itemEnd
    ensures b.page.None? && b.itemEnd.None? ==> LastPage(b) == b.itemStart
  {
  }

  function Lesser(a: Option<int>, b: Option<int>): Option<int> {
    if a.None? then b else if b.None? then a else if b.value < a.value then b else a
  }

  function Greater(a: Option<int>, b: Option<int>): Option<int> {
    if a.None? then b else if b.None? then a else if a.value < b.value then b else a
  }

  // ----- what the groups must be

  /** The blocks read so far, cut into finished segments and one that is still open. */
  datatype Reading = Reading(closed: seq<seq<Block>>, open: seq<Block>) {
    function Close(): seq<seq<Block>> {
      if open == [] then closed else closed + [open]
    }
    function Read(b: Block): Reading {
      if !HasText(b) then (if b.warnings == [] then this else Reading(Close() + [[b]], []))
      else if IsHeading(Strip(b.text)) then Reading(Close(), [b])
      else Reading(closed, open + [b])
    }
  }

  /** The blocks cut into segments: a heading begins a new one, and a block that has warnings but no text is
      one of its own; a block with neither is dropped. */
  function CutUp(blocks: seq<Block>): Reading {
    if blocks == [] then Reading([], []) else CutUp(blocks[..|blocks| - 1]).Read(blocks[|blocks| - 1])
  }

  function Segments(blocks: seq<Block>): seq<seq<Block>> {
    CutUp(blocks).Close()
  }

  function Texts(segment: seq<Block>): seq<string> {
    if segment == [] then []
    else
      var b := segment[|segment| - 1];
      Texts(segment[..|segment| - 1]) + (if HasText(b) then [Strip(b.text)] else [])
  }

  function TotalLength(parts: seq<string>): nat {
    if parts == [] then 0 else TotalLength(parts[..|parts| - 1]) + |parts[|parts| - 1]|
  }

  /** Where the next part begins when the parts are joined by a blank line. */
  function NextStart(parts: seq<string>): nat {
    TotalLength(parts) + 2 * |parts|
  }

  function TextBlocks(segment: seq<Block>): seq<TextBlock> {
    if segment == [] then []
    else
      var init, b := segment[..|segment| - 1], segment[|segment| - 1];
      var start := NextStart(Texts(init));
      TextBlocks(init) +
      (if HasText(b) then [TextBlock(Strip(b.text), b.page, b.warnings, start, start + |Strip(b.text)|)] else [])
  }

  function WarningsOf(segment: seq<Block>): seq<string> {
    if segment == [] then []
    else WarningsOf(segment[..|segment| - 1]) + segment[|segment| - 1].warnings
  }

  /** The first page of any block of the segment, and the last one. */
  function MinPage(segment: seq<Block>): Option<int> {
    if segment == [] then None
    else Lesser(MinPage(segment[..|segment| - 1]), FirstPage(segment[|segment| - 1]))
  }

  function MaxPage(segment: seq<Block>): Option<int> {
    if segment == [] then None
    else Greater(MaxPage(segment[..|segment| - 1]), LastPage(segment[|segment| - 1]))
  }

  function GroupOf(segment: seq<Block>): Group {
    Group(Strip(Join(Texts(segment), "\n\n")), MinPage(segment), MaxPage(segment), WarningsOf(segment),
          TextBlocks(segment))
  }

  function GroupsOf(segments: seq<seq<Block>>): seq<Group> {
    if segments == [] then []
    else GroupsOf(segments[..|segments| - 1]) + [GroupOf(segments[|segments| - 1])]
  }

  lemma NothingOpen()
    ensures Texts([]) == [] && TextBlocks([]) == [] && WarningsOf([]) == []
    ensures MinPage([]) == None && MaxPage([]) == None
  {
  }

  lemma OneMoreBlock(segment: seq<Block>, b: Block)
    ensures Texts(segment + [b]) == Texts(segment) + (if HasText(b) then [Strip(b.text)] else [])
    ensures WarningsOf(segment + [b]) == WarningsOf(segment) + b.warnings
    ensures MinPage(segment + [b]) == Lesser(MinPage(segment), FirstPage(b))
    ensures MaxPage(segment + [b]) == Greater(MaxPage(segment), LastPage(b))
  {
    hide Strip, Lesser, Greater, FirstPage, LastPage;
    assert (segment + [b])[..|segment|] == segment;
  }

  lemma NoTextBlock(b: Block)
    requires !HasText(b)
    ensures TextBlocks([b]) == [] && Texts([b]) == []
  {
    hide Strip, NextStart;
    assert [b][..0] == [];
  }

  lemma OneMoreTextBlock(segment: seq<Block>, b: Block)
    requires HasText(b)
    ensures var start := NextStart(Texts(segment));
            TextBlocks(segment + [b]) ==
            TextBlocks(segment) + [TextBlock(Strip(b.text), b.page, b.warnings, start, start + |Strip(b.text)|)]
  {
    hide Strip, Texts, NextStart;
    assert (segment + [b])[..|segment|] == segment;
  }

  lemma OneMoreSegment(segments: seq<seq<Block>>, segment: seq<Block>)
    ensures GroupsOf(segments + [segment]) == GroupsOf(segments) + [GroupOf(segment)]
  {
    hide GroupOf;
    assert (segments + [segment])[..|segments|] == segments;
  }

  // ----- the loop

  /** The running state of the loop: the group being filled and the groups already finished. */
  class GroupBuilder {
    var groups: seq<Group>
    var textParts: seq<string>
    var blocks: seq<TextBlock>
    var warnings: seq<string>
    var pageStart: Option<int>
    var pageEnd: Option<int>
    ghost var closed: seq<seq<Block>>
    ghost var open: seq<Block>

    /** The fields hold what the open segment needs, and the finished groups are those of the closed segments. */
    ghost predicate Valid()
      reads this
    {
      && groups == GroupsOf(closed)
      && textParts == Texts(open)
      && blocks == TextBlocks(open)
      && warnings == WarningsOf(open)
      && pageStart == MinPage(open)
      && pageEnd == MaxPage(open)
    }

    constructor ()
      ensures Valid() && closed == [] && open == []
    {
      groups, textParts, blocks, warnings, pageStart, pageEnd := [], [], [], [], None, None;
      closed, open := [], [];
    }

    method MergePageRange(first: Option<int>, last: Option<int>)
      modifies this`pageStart, this`pageEnd
      ensures pageStart == Lesser(old(pageStart), OrElse(first, last))
      ensures pageEnd == Greater(old(pageEnd), OrElse(last, first))
    {
      var from, to := first, last;
      if from.None? {
        from := to;
      }
      if to.None? {
        to := from;
      }
      if from.None? || to.None? {
        return;
      }
      pageStart := if pageStart.None? || from.value < pageStart.value then from else pageStart;
      pageEnd := if pageEnd.None? || pageEnd.value < to.value then to else pageEnd;
    }

    /** Finishes the open group, unless there is nothing in it. */
    method Flush()
      requires Valid() && (open == [] || textParts != [] || warnings != [])
      modifies this
      ensures Valid() && open == [] && closed == Reading(old(closed), old(open)).Close()
    {
      hide Strip, Join, Texts, TextBlocks, WarningsOf, MinPage, MaxPage, GroupsOf;
      if textParts == [] && warnings == [] {
        return;
      }
      OneMoreSegment(closed, open);
      groups := groups + [Group(Strip(Join(textParts, "\n\n")), pageStart, pageEnd, warnings, blocks)];
      closed := closed + [open];
      textParts, blocks, warnings, pageStart, pageEnd := [], [], [], None, None;
      open := [];
      NothingOpen();
    }

    /** A block without text still carries its warnings: it becomes a group of its own. */
    method AddWarnings(b: Block)
      requires Valid() && (open == [] || textParts != []) && !HasText(b) && b.warnings != []
      modifies this
      ensures Valid() && open == [] && closed == Reading(old(closed), old(open)).Close() + [[b]]
    {
      hide Strip, Texts, TextBlocks, NextStart, GroupsOf, WarningsOf, MinPage, MaxPage;
      Flush();
      NothingOpen();
      warnings := warnings + b.warnings;
      MergePageRange(OrElse(b.itemStart, b.page), OrElse(b.itemEnd, b.page));
      OneMoreBlock([], b);
      NoTextBlock(b);
      open := [b];
      assert [] + [b] == [b];
      Flush();
    }

    method AddText(b: Block)
      requires Valid() && (open == [] || textParts != []) && HasText(b)
      modifies this
      ensures Valid() && textParts != []
      ensures var before := Reading(old(closed), old(open));
              Reading(closed, open) ==
              if IsHeading(Strip(b.text)) then Reading(before.Close(), [b])
                  else Reading(before.closed, before.open + [b])
    {
      hide Strip, Texts, TextBlocks, NextStart, GroupsOf, WarningsOf, MinPage, MaxPage;
      var text := Strip(b.text);
      if textParts != [] && IsHeading(text) {
        Flush();
      }
      var start := NextStart(textParts);
      textParts := textParts + [text];
      blocks := blocks + [TextBlock(text, b.page, b.warnings, start, start + |text|)];
      warnings := warnings + b.warnings;
      MergePageRange(OrElse(b.itemStart, b.page), OrElse(b.itemEnd, b.page));
      OneMoreBlock(open, b);
      OneMoreTextBlock(open, b);
      open := open + [b];
    }
  }

  /** Groups the blocks of a document; the groups are those of the segments the blocks fall into. */
  method OrderedTextGroups(input: seq<Block>) returns (groups: seq<Group>)
    ensures groups == GroupsOf(Segments(input))
  {
    var builder := new GroupBuilder();
    for i := 0 to |input|
      invariant builder.Valid() && fresh(builder)
      invariant builder.open == [] || builder.textParts != []
      invariant Reading(builder.closed, builder.open) == CutUp(input[..i])
    {
      assert input[..i + 1][..i] == input[..i];
      if !HasText(input[i]) {
        if input[i].warnings != [] {
          builder.AddWarnings(input[i]);
        }
      } else {
        builder.AddText(input[i]);
      }
    }
    assert input[..|input|] == input;
    builder.Flush();
    return builder.groups;
  }

  // ----- what the groups are worth

  /** A segment as `CutUp` makes them: blocks with text, none but the first a heading, or one block that
      only has warnings. */
  predicate WellCut(segment: seq<Block>) {
    && segment != []
    && ((|segment| == 1 && segment[0].warnings != []) || forall i :: 0 <= i < |segment| ==> HasText(segment[i]))
    && (forall i :: 0 < i < |segment| ==> !IsHeading(Strip(segment[i].text)))
  }

  /** Between two neighbours there is a cut because the second begins with a heading or one of them is
      a warning without text. */
  predicate CutBetween(left: seq<Block>, right: seq<Block>) {
    && left != [] && right != []
    && (IsHeading(Strip(right[0].text)) || !HasText(left[0]) || !HasText(right[0]))
  }

  /** The blocks that appear in the result at all: those with text, and those with warnings. */
  function Kept(blocks: seq<Block>): seq<Block> {
    if blocks == [] then []
    else
      var b := blocks[|blocks| - 1];
      Kept(blocks[..|blocks| - 1]) + (if HasText(b) || b.warnings != [] then [b] else [])
  }

  /** Every block with text or warnings is in exactly one segment, and the order is kept. */
  lemma {:induction false} SegmentsPartition(blocks: seq<Block>)
    ensures Concat(Segments(blocks)) == Kept(blocks)
    decreases |blocks|
  {
    if blocks != [] {
      var init, b := blocks[..|blocks| - 1], blocks[|blocks| - 1];
      SegmentsPartition(init);
      CutUpStep(CutUp(init), b);
    }
  }

  lemma CutUpStep(c: Reading, b: Block)
    ensures Concat(c.Read(b).Close()) == Concat(c.Close()) + (if HasText(b) || b.warnings != [] then [b] else [])
  {
    hide Strip, IsHeading;
    ConcatSnoc(c.closed, c.open);
    if !HasText(b) {
      ConcatSnoc(c.Close(), [b]);
    } else if IsHeading(Strip(b.text)) {
      ConcatSnoc(c.Close(), [b]);
    } else {
      ConcatSnoc(c.closed, c.open + [b]);
    }
  }

  /** What `CutUp` keeps true while it reads: the closed segments are well cut, there is a reason for
      each cut, and the open segment holds text. */
  ghost predicate GoodReading(c: Reading) {
    && (forall i :: 0 <= i < |c.closed| ==> WellCut(c.closed[i]))
    && (forall i :: 0 <= i < |c.closed| - 1 ==> CutBetween(c.closed[i], c.closed[i + 1]))
    && (c.open != [] ==>
          && WellCut(c.open)
          && (forall i :: 0 <= i < |c.open| ==> HasText(c.open[i]))
          && (c.closed != [] ==> CutBetween(c.closed[|c.closed| - 1], c.open)))
    && (c.open == [] && c.closed != [] ==> !HasText(c.closed[|c.closed| - 1][0]))
  }

  lemma ClosedIsGood(c: Reading)
    requires GoodReading(c)
    ensures forall i :: 0 <= i < |c.Close()| ==> WellCut(c.Close()[i])
    ensures forall i :: 0 <= i < |c.Close()| - 1 ==> CutBetween(c.Close()[i], c.Close()[i + 1])
  {
    hide Strip, IsHeading, HasText, WellCut, CutBetween;
  }

  lemma ReadIsGood(c: Reading, b: Block)
    requires GoodReading(c)
    ensures GoodReading(c.Read(b))
  {
    hide Strip, IsHeading;
    ClosedIsGood(c);
    if !HasText(b) {
      if b.warnings != [] {
        CloseAround(c.Close(), b);
      }
    } else if IsHeading(Strip(b.text)) {
      HeadingOpens(c, b);
    } else {
      TextJoins(c, b);
    }
  }

  lemma CloseAround(closed: seq<seq<Block>>, b: Block)
    requires forall i :: 0 <= i < |closed| ==> WellCut(closed[i])
    requires forall i :: 0 <= i < |closed| - 1 ==> CutBetween(closed[i], closed[i + 1])
    requires !HasText(b) && b.warnings != []
    ensures GoodReading(Reading(closed + [[b]], []))
  {
    hide Strip, IsHeading;
    var all := closed + [[b]];
    forall i | 0 <= i < |all|
      ensures WellCut(all[i])
    {
    }
    forall i | 0 <= i < |all| - 1
      ensures CutBetween(all[i], all[i + 1])
    {
      if i < |closed| - 1 {
        assert CutBetween(closed[i], closed[i + 1]);
      }
    }
  }

  lemma HeadingOpens(c: Reading, b: Block)
    requires GoodReading(c) && HasText(b) && IsHeading(Strip(b.text))
    requires forall i :: 0 <= i < |c.Close()| ==> WellCut(c.Close()[i])
    requires forall i :: 0 <= i < |c.Close()| - 1 ==> CutBetween(c.Close()[i], c.Close()[i + 1])
    ensures GoodReading(Reading(c.Close(), [b]))
  {
    hide Strip, IsHeading;
    assert WellCut([b]);
  }

  lemma TextJoins(c: Reading, b: Block)
    requires GoodReading(c) && HasText(b) && !IsHeading(Strip(b.text))
    ensures GoodReading(Reading(c.closed, c.open + [b]))
  {
    hide Strip, IsHeading;
    var open := c.open + [b];
    forall i | 0 <= i < |open|
      ensures HasText(open[i]) && (0 < i ==> !IsHeading(Strip(open[i].text)))
    {
    }
    assert WellCut(open);
    if c.closed != [] && c.open != [] {
      assert CutBetween(c.closed[|c.closed| - 1], c.open);
    }
  }

  /** Headings stand first in their segment, and only a heading or a block without text makes a cut. */
  lemma {:induction false} SegmentsWellCut(blocks: seq<Block>)
    ensures GoodReading(CutUp(blocks))
    ensures forall i :: 0 <= i < |Segments(blocks)| ==> WellCut(Segments(blocks)[i])
    ensures forall i :: 0 <= i < |Segments(blocks)| - 1 ==> CutBetween(Segments(blocks)[i], Segments(blocks)[i + 1])
    decreases |blocks|
  {
    if blocks != [] {
      SegmentsWellCut(blocks[..|blocks| - 1]);
      ReadIsGood(CutUp(blocks[..|blocks| - 1]), blocks[|blocks| - 1]);
    }
    ClosedIsGood(CutUp(blocks));
  }

  /** The pages of a group are the hull of the pages of its blocks. */
  lemma {:induction false} PageHull(segment: seq<Block>)
    ensures MinPage(segment).None? <==> forall i :: 0 <= i < |segment| ==> FirstPage(segment[i]).None?
    ensures MaxPage(segment).None? <==> MinPage(segment).None?
    ensures MinPage(segment).Some? ==>
              && (exists i :: 0 <= i < |segment| && FirstPage(segment[i]) == MinPage(segment))
              && (exists i :: 0 <= i < |segment| && LastPage(segment[i]) == MaxPage(segment))
              && forall i :: 0 <= i < |segment| && FirstPage(segment[i]).Some? ==>
                   MinPage(segment).value <= FirstPage(segment[i]).value &&
                       LastPage(segment[i]).value <= MaxPage(segment).value
    decreases |segment|
  {
    if segment != [] {
      var init, last := segment[..|segment| - 1], segment[|segment| - 1];
      PageHull(init);
      assert forall i :: 0 <= i < |init| ==> segment[i] == init[i];
    }
  }

  /** The i-th recorded block carries the i-th text, and its place is computed from the texts before it. */
  lemma {:induction false} PlacesOfTexts(segment: seq<Block>, k: nat)
    requires k < |Texts(segment)|
    ensures |TextBlocks(segment)| == |Texts(segment)|
    ensures var b := TextBlocks(segment)[k];
            && b.text == Texts(segment)[k]
            && b.start == NextStart(Texts(segment)[..k])
            && b.end == b.start + |b.text|
    decreases |segment|
  {
    hide Strip, NextStart;
    var init := segment[..|segment| - 1];
    SameNumber(init);
    if k < |Texts(init)| {
      PlacesOfTexts(init, k);
      assert Texts(segment)[..k] == Texts(init)[..k];
    } else {
      assert Texts(segment)[..k] == Texts(init);
    }
  }

  lemma {:induction false} SameNumber(segment: seq<Block>)
    ensures |TextBlocks(segment)| == |Texts(segment)|
    decreases |segment|
  {
    if segment != [] {
      SameNumber(segment[..|segment| - 1]);
    }
  }

  /** Joined by a blank line, the k-th part stands at `NextStart` of the parts before it. */
  lemma {:induction false} PartOfJoin(parts: seq<string>, k: nat)
    requires k < |parts|
    ensures |Join(parts, "\n\n")| == NextStart(parts) - 2
    ensures var start := NextStart(parts[..k]);
            start + |parts[k]| <= |Join(parts, "\n\n")| && Join(parts, "\n\n")[start..start + |parts[k]|] == parts[k]
    decreases |parts|
  {
    var init, last := parts[..|parts| - 1], parts[|parts| - 1];
    assert parts == init + [last];
    JoinSnoc(init, last, "\n\n");
    if k < |init| {
      PartOfJoin(init, k);
      assert init[..k] == parts[..k];
      assert Join(init, "\n\n") <= Join(parts, "\n\n");
    } else {
      if init != [] {
        PartOfJoin(init, 0);
      }
      assert parts[..k] == init;
    }
  }

  lemma {:induction false} TextsAreStripped(segment: seq<Block>)
    ensures forall i :: 0 <= i < |Texts(segment)| ==> Stripped(Texts(segment)[i]) && Texts(segment)[i] != ""
    decreases |segment|
  {
    if segment != [] {
      TextsAreStripped(segment[..|segment| - 1]);
      StripWords(segment[|segment| - 1].text);
    }
  }

  lemma {:induction false} JoinOfStripped(parts: seq<string>)
    requires forall i :: 0 <= i < |parts| ==> Stripped(parts[i]) && parts[i] != ""
    ensures Stripped(Join(parts, "\n\n"))
    ensures parts != [] ==> Join(parts, "\n\n") != "" && !IsSpace(Join(parts, "\n\n")[0])
    decreases |parts|
  {
    if |parts| > 1 {
      var init, last := parts[..|parts| - 1], parts[|parts| - 1];
      assert parts == init + [last];
      JoinSnoc(init, last, "\n\n");
      JoinOfStripped(init);
    }
  }

  /** In every group the recorded places are right: the text between `start` and `end` is the block's
      text, the first block starts at 0, the last one ends with the text, and exactly two characters
      lie between neighbours. */
  lemma PlacesAreRight(segment: seq<Block>, k: nat)
    requires k < |GroupOf(segment).blocks|
    ensures var g := GroupOf(segment); var b := g.blocks[k];
            && b.text != ""
            && b.start < b.end <= |g.text| && g.text[b.start..b.end] == b.text
            && (k == 0 ==> b.start == 0)
            && (k == |g.blocks| - 1 ==> b.end == |g.text|)
            && (k > 0 ==> b.start == g.blocks[k - 1].end + 2)
  {
    hide Strip, Stripped, Join;
    var texts := Texts(segment);
    SameNumber(segment);
    TextsAreStripped(segment);
    JoinOfStripped(texts);
    StrippedIsFixed(Join(texts, "\n\n"));
    PlacesOfTexts(segment, k);
    PartOfJoin(texts, k);
    NextPlace(texts, k);
    if k > 0 {
      PlacesOfTexts(segment, k - 1);
      NextPlace(texts, k - 1);
    }
  }

  lemma NextPlace(parts: seq<string>, k: nat)
    requires k < |parts|
    ensures NextStart(parts[..k + 1]) == NextStart(parts[..k]) + |parts[k]| + 2
    ensures k == |parts| - 1 ==> parts[..k + 1] == parts
    ensures NextStart(parts[..0]) == 0
  {
    assert parts[..k + 1][..k] == parts[..k];
  }

  /** Every non-space character of joined parts lies in one of them. */
  lemma {:induction false} CharInPart(parts: seq<string>, p: nat) returns (k: nat)
    requires p < |Join(parts, "\n\n")| && !IsSpace(Join(parts, "\n\n")[p])
    ensures k < |parts| && NextStart(parts[..k]) <= p < NextStart(parts[..k]) + |parts[k]|
    decreases |parts|
  {
    var init, last := parts[..|parts| - 1], parts[|parts| - 1];
    assert parts == init + [last];
    JoinSnoc(init, last, "\n\n");
    var before := Join(init, "\n\n");
    if init != [] {
      PartOfJoin(init, 0);
    }
    if init != [] && p < |before| {
      assert Join(parts, "\n\n")[p] == before[p];
      k := CharInPart(init, p);
      assert init[..k] == parts[..k];
    } else {
      k := |init|;
      assert parts[..k] == init;
    }
  }

  /** Every non-space character of a group's text belongs to one of its blocks. */
  lemma CharInBlock(segment: seq<Block>, p: nat) returns (k: nat)
    requires p < |GroupOf(segment).text| && !IsSpace(GroupOf(segment).text[p])
    ensures k < |GroupOf(segment).blocks|
    ensures GroupOf(segment).blocks[k].start <= p < GroupOf(segment).blocks[k].end
  {
    hide Strip, Stripped, Join;
    var texts := Texts(segment);
    SameNumber(segment);
    TextsAreStripped(segment);
    JoinOfStripped(texts);
    StrippedIsFixed(Join(texts, "\n\n"));
    k := CharInPart(texts, p);
    PlacesOfTexts(segment, k);
  }

  // ----- nothing lost, nothing twice

  /** A block with text, without its place. */
  datatype Plain = Plain(text: string, page: Option<int>, warnings: seq<string>)

  function PlainBlocks(blocks: seq<Block>): seq<Plain> {
    if blocks == [] then []
    else
      var b := blocks[|blocks| - 1];
      PlainBlocks(blocks[..|blocks| - 1]) + (if HasText(b) then [Plain(Strip(b.text), b.page, b.warnings)] else [])
  }

  function PlainOf(blocks: seq<TextBlock>): seq<Plain> {
    if blocks == [] then []
    else
      var b := blocks[|blocks| - 1];
      PlainOf(blocks[..|blocks| - 1]) + [Plain(b.text, b.page, b.warnings)]
  }

  /** The recorded blocks of all groups, group after group, without their places. */
  function PlainOfGroups(groups: seq<Group>): seq<Plain> {
    if groups == [] then []
    else PlainOfGroups(groups[..|groups| - 1]) + PlainOf(groups[|groups| - 1].blocks)
  }

  function WarningsOfGroups(groups: seq<Group>): seq<string> {
    if groups == [] then []
    else WarningsOfGroups(groups[..|groups| - 1]) + groups[|groups| - 1].warnings
  }

  lemma {:induction false} PlainOfSegment(segment: seq<Block>)
    ensures PlainOf(TextBlocks(segment)) == PlainBlocks(segment)
    decreases |segment|
  {
    hide Strip, Texts, NextStart;
    if segment != [] {
      var init, b := segment[..|segment| - 1], segment[|segment| - 1];
      PlainOfSegment(init);
      if HasText(b) {
        OneMoreTextBlock(init, b);
        assert segment == init + [b];
        assert TextBlocks(segment)[..|TextBlocks(init)|] == TextBlocks(init);
      } else {
        assert TextBlocks(segment) == TextBlocks(init);
        assert PlainBlocks(segment) == PlainBlocks(init);
      }
    }
  }

  lemma {:induction false} PlainConcat(a: seq<Block>, b: seq<Block>)
    ensures PlainBlocks(a + b) == PlainBlocks(a) + PlainBlocks(b)
    ensures WarningsOf(a + b) == WarningsOf(a) + WarningsOf(b)
    decreases |b|
  {
    hide Strip;
    if b == [] {
      assert a + b == a;
    } else {
      assert (a + b)[..|a + b| - 1] == a + b[..|b| - 1];
      PlainConcat(a, b[..|b| - 1]);
    }
  }

  lemma {:induction false} PlainOfSegments(segments: seq<seq<Block>>)
    ensures PlainOfGroups(GroupsOf(segments)) == PlainBlocks(Concat(segments))
    ensures WarningsOfGroups(GroupsOf(segments)) == WarningsOf(Concat(segments))
    decreases |segments|
  {
    hide Strip, Texts, TextBlocks, PlainBlocks, PlainOf, WarningsOf, MinPage, MaxPage;
    if segments == [] {
      NothingOpen();
      NoPlainBlocks();
    } else {
      var init, last := segments[..|segments| - 1], segments[|segments| - 1];
      PlainOfSegments(init);
      PlainOfSegment(last);
      PlainConcat(Concat(init), last);
      assert GroupsOf(segments)[..|GroupsOf(init)|] == GroupsOf(init);
    }
  }

  lemma NoPlainBlocks()
    ensures PlainBlocks([]) == []
  {
  }

  lemma {:induction false} KeptIsEnough(blocks: seq<Block>)
    ensures PlainBlocks(Kept(blocks)) == PlainBlocks(blocks)
    ensures WarningsOf(Kept(blocks)) == WarningsOf(blocks)
    decreases |blocks|
  {
    hide Strip;
    if blocks != [] {
      var init, b := blocks[..|blocks| - 1], blocks[|blocks| - 1];
      KeptIsEnough(init);
      if HasText(b) || b.warnings != [] {
        assert Kept(blocks)[..|Kept(init)|] == Kept(init);
      } else {
        assert Kept(blocks) == Kept(init);
        assert PlainBlocks(blocks) == PlainBlocks(init);
        assert WarningsOf(blocks) == WarningsOf(init);
      }
    }
  }

  /** The groups record every block with text exactly once, in the order of the input, and carry all
      warnings of all blocks in order. */
  lemma GroupsKeepBlocksAndWarnings(blocks: seq<Block>)
    ensures PlainOfGroups(GroupsOf(Segments(blocks))) == PlainBlocks(blocks)
    ensures WarningsOfGroups(GroupsOf(Segments(blocks))) == WarningsOf(blocks)
  {
    SegmentsPartition(blocks);
    PlainOfSegments(Segments(blocks));
    KeptIsEnough(blocks);
  }
}
