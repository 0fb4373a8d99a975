/**
 Locating the parts of a reference unit in the text of its group. The search runs over the words of
 the unit from a cursor on; when the parts carry exactly the words of the unit, every part is found
 at the next unread words, and its pages are those of the blocks these words stand in.
 */
module SplitAlignment {
  import opened Text
  import opened Wrappers
  import opened TextGroups
  import HardSplit

  /** The words that reach into the part of the text from `start` up to `end`. */
  function Overlapping(spans: seq<Span>, start: int, end: int): seq<Span> {
    if spans == [] then []
    else
      var last := spans[|spans| - 1];
      Overlapping(spans[..|spans| - 1], start, end) + (if last.end > start && last.start < end then [last] else [])
  }

  /** A place found: where it starts and ends, and the word the next search begins with. */
  datatype Found = Found(start: nat, end: nat, next: nat)

  predicate MatchesAt(text: string, spans: seq<Span>, words: seq<string>, i: nat) {
    i + |words| <= |spans| && Cuts(text, spans[i..i + |words|]) == words
  }

  function Place(spans: seq<Span>, i: nat, n: nat): Found
    requires 0 < n && i + n <= |spans|
  {
    Found(spans[i].start, spans[i + n - 1].end, i + n)
  }

  /** The first place from word `i` on where `words` stand. */
  function FirstMatch(text: string, spans: seq<Span>, words: seq<string>, i: nat): Option<Found>
    requires words != []
    decreases |spans| - i
  {
    if i + |words| > |spans| then None
    else if MatchesAt(text, spans, words, i) then Some(Place(spans, i, |words|))
    else FirstMatch(text, spans, words, i + 1)
  }

  function Locate(text: string, child: string, start: int, end: int, cursor: nat): Option<Found> {
    if Words(child) == [] then None
    else FirstMatch(text, Overlapping(Spans(text), start, end), Words(child), cursor)
  }

  method TextSpanForSplitChild(text: string, child: string, start: int, end: int, cursor: nat)
    returns (found: Option<Found>)
    ensures found == Locate(text, child, start, end, cursor)
  {
    hide Words, Spans, Overlapping, MatchesAt;
    var childWords := Words(child);
    if childWords == [] {
      return None;
    }
    var spans := Overlapping(Spans(text), start, end);
    if spans == [] {
      return None;
    }
    var index := cursor;
    var maxStart := |spans| - |childWords|;
    while index < maxStart + 1
      invariant cursor <= index
      invariant FirstMatch(text, spans, childWords, cursor) == FirstMatch(text, spans, childWords, index)
    {
      if MatchesAt(text, spans, childWords, index) {
        return Some(Place(spans, index, |childWords|));
      }
      index := index + 1;
    }
    return None;
  }

  // ----- pages and warnings of a part of the text

  /** The page entries of a source location. */
  datatype Location = Location(page: Option<int>, pageStart: Option<int>, pageEnd: Option<int>)

  function WithPageRange(location: Location, first: int, last: int): Location {
    Location(None, Some(first), Some(last))
  }

  /** The location of something whose place is not known: a page range, if there is one, and no page. */
  function Broad(location: Location): Location {
    if location.pageStart.Some? || location.pageEnd.Some? then location.(page := None) else location
  }

  function Touching(blocks: seq<TextBlock>, start: int, end: int): seq<TextBlock> {
    if blocks == [] then []
    else
      var b := blocks[|blocks| - 1];
      Touching(blocks[..|blocks| - 1], start, end) + (if b.end > start && b.start < end then [b] else [])
  }

  function BlocksForTextSpan(blocks: seq<TextBlock>, start: int, end: int): seq<TextBlock> {
    if start < 0 || Touching(blocks, start, end) == [] then blocks else Touching(blocks, start, end)
  }

  function Pages(blocks: seq<TextBlock>): seq<int> {
    if blocks == [] then []
    else
      var b := blocks[|blocks| - 1];
      Pages(blocks[..|blocks| - 1]) + (if b.page.Some? then [b.page.value] else [])
  }

  function MinOf(pages: seq<int>): (m: int)
    requires pages != []
    ensures m in pages && forall p :: p in pages ==> m <= p
  {
    if |pages| == 1 then pages[0]
    else
      var m := MinOf(pages[1..]);
      assert pages == [pages[0]] + pages[1..];
      if pages[0] < m then pages[0] else m
  }

  function MaxOf(pages: seq<int>): (m: int)
    requires pages != []
    ensures m in pages && forall p :: p in pages ==> p <= m
  {
    if |pages| == 1 then pages[0]
    else
      var m := MaxOf(pages[1..]);
      assert pages == [pages[0]] + pages[1..];
      if m < pages[0] then pages[0] else m
  }

  function LocationForTextSpan(location: Location, blocks: seq<TextBlock>, start: int, end: int): Location {
    var pages := Pages(BlocksForTextSpan(blocks, start, end));
    if pages == [] then location else WithPageRange(location, MinOf(pages), MaxOf(pages))
  }

  function WarningsForTextSpan(blocks: seq<TextBlock>, start: int, end: int): seq<string> {
    AllWarnings(BlocksForTextSpan(blocks, start, end))
  }

  function AllWarnings(blocks: seq<TextBlock>): seq<string> {
    if blocks == [] then [] else AllWarnings(blocks[..|blocks| - 1]) + blocks[|blocks| - 1].warnings
  }

  // ----- the pieces of one unit

  /** A piece with its location, and the parser warnings handed on to it. */
  datatype Piece = Piece(text: string, location: Location, warnings: seq<string>)

  function PieceFor(location: Location, group: Group, part: string, found: Option<Found>): Piece {
    match found
    case None => Piece(part, Broad(location), [])
    case Some(f) => Piece(part, LocationForTextSpan(location, group.blocks, f.start, f.end),
                          WarningsForTextSpan(group.blocks, f.start, f.end))
  }

  /** The pieces of the parts from `cursor` on; a part that is not found leaves the cursor where it is. */
  function PiecesFrom(location: Location, group: Group, parts: seq<string>, start: int, end: int,
                      cursor: nat): seq<Piece>
  {
    if parts == [] then []
    else if Strip(parts[0]) == "" then PiecesFrom(location, group, parts[1..], start, end, cursor)
    else
      var found := Locate(group.text, parts[0], start, end, cursor);
      [PieceFor(location, group, parts[0], found)] +
      PiecesFrom(location, group, parts[1..], start, end, if found.Some? then found.value.next else cursor)
  }

  /** A unit that needs no split keeps the location and the warnings of the whole unit. */
  function WholeUnit(location: Location, warnings: seq<string>, parts: seq<string>): seq<Piece> {
    if |parts| == 1 && Strip(parts[0]) != "" then [Piece(parts[0], location, warnings)] else []
  }

  method ReferenceUnitHardSplitPieces(location: Location, warnings: seq<string>, group: Group, parts: seq<string>,
                                      unitStart: int, unitEnd: int)
    returns (pieces: seq<Piece>)
    ensures pieces == if |parts| <= 1 then WholeUnit(location, warnings, parts)
                      else PiecesFrom(location, group, parts, unitStart, unitEnd, 0)
  {
    hide Strip, Locate, PieceFor;
    if |parts| <= 1 {
      return WholeUnit(location, warnings, parts);
    }
    pieces := [];
    var wordCursor := 0;
    for i := 0 to |parts|
      invariant PiecesFrom(location, group, parts, unitStart, unitEnd, 0) ==
                pieces + PiecesFrom(location, group, parts[i..], unitStart, unitEnd, wordCursor)
    {
      assert parts[i..][1..] == parts[i + 1..];
      if Strip(parts[i]) == "" {
        continue;
      }
      var found := TextSpanForSplitChild(group.text, parts[i], unitStart, unitEnd, wordCursor);
      pieces := pieces + [PieceFor(location, group, parts[i], found)];
      if found.Some? {
        wordCursor := found.value.next;
      }
    }
  }

  // ----- the parts of a word-aligned unit are found one after the other

  /** `FirstMatch` finds the first place there is, and fails only where there is none. */
  lemma {:induction false} FirstMatchIsFirst(text: string, spans: seq<Span>, words: seq<string>, i: nat, j: nat)
    requires words != [] && i <= j && j + |words| <= |spans| && MatchesAt(text, spans, words, j)
    ensures var f := FirstMatch(text, spans, words, i);
            && f.Some? && i + |words| <= f.value.next <= j + |words|
            && MatchesAt(text, spans, words, f.value.next - |words|)
            && f.value == Place(spans, f.value.next - |words|, |words|)
            && forall k :: i <= k < f.value.next - |words| ==> !MatchesAt(text, spans, words, k)
    decreases j - i
  {
    hide MatchesAt;
    if !MatchesAt(text, spans, words, i) {
      FirstMatchIsFirst(text, spans, words, i + 1, j);
    }
  }

  lemma {:induction false} OverlappingConcat(a: seq<Span>, b: seq<Span>, start: int, end: int)
    ensures Overlapping(a + b, start, end) == Overlapping(a, start, end) + Overlapping(b, start, end)
    decreases |b|
  {
    if b == [] {
      assert a + b == a;
    } else {
      OverlappingConcat(a, b[..|b| - 1], start, end);
      assert (a + b)[..|a + b| - 1] == a + b[..|b| - 1];
    }
  }

  lemma {:induction false} OverlappingAll(a: seq<Span>, start: int, end: int)
    requires forall k :: 0 <= k < |a| ==> a[k].end > start && a[k].start < end
    ensures Overlapping(a, start, end) == a
    decreases |a|
  {
    if a != [] {
      OverlappingAll(a[..|a| - 1], start, end);
    }
  }

  lemma {:induction false} OverlappingNone(a: seq<Span>, start: int, end: int)
    requires forall k :: 0 <= k < |a| ==> a[k].end <= start || end <= a[k].start
    ensures Overlapping(a, start, end) == []
    decreases |a|
  {
    if a != [] {
      OverlappingNone(a[..|a| - 1], start, end);
    }
  }

  /** `unit` stands in `text` between `pre` and `post`, and no word crosses its ends. */
  predicate WordAligned(text: string, pre: string, unit: string, post: string) {
    text == pre + unit + post && Seam(pre, unit) && Seam(pre + unit, post)
  }

  lemma SpansOfText(text: string, pre: string, unit: string, post: string)
    requires WordAligned(text, pre, unit, post)
    ensures Spans(text) == Spans(pre) + Shift(Spans(unit), |pre|) + Shift(Spans(post), |pre| + |unit|)
    ensures Words(text) == Words(pre) + Words(unit) + Words(post)
  {
    hide Words, Spans;
    SpansConcat(pre + unit, post);
    SpansConcat(pre, unit);
    WordsConcat(pre + unit, post);
    WordsConcat(pre, unit);
  }

  lemma SpanBounds(s: string, k: nat)
    requires k < |Spans(s)|
    ensures Spans(s)[k].start < Spans(s)[k].end <= |s|
  {
    SpansAreMaximalRuns(s, |s|);
    assert MaximalRun(s, |s|, Spans(s)[k]);
  }

  /** The words the search looks at are exactly those of the unit. */
  lemma SpansOfUnit(text: string, pre: string, unit: string, post: string)
    requires WordAligned(text, pre, unit, post)
    ensures Overlapping(Spans(text), |pre|, |pre| + |unit|) == Shift(Spans(unit), |pre|)
  {
    hide Words, Spans, Overlapping;
    var start, end := |pre|, |pre| + |unit|;
    var left, mid, right := Spans(pre), Shift(Spans(unit), start), Shift(Spans(post), end);
    SpansOfText(text, pre, unit, post);
    forall k | 0 <= k < |left|
      ensures left[k].end <= start
    {
      SpanBounds(pre, k);
    }
    forall k | 0 <= k < |mid|
      ensures mid[k].end > start && mid[k].start < end
    {
      SpanBounds(unit, k);
    }
    OverlappingConcat(left + mid, right, start, end);
    OverlappingConcat(left, mid, start, end);
    OverlappingNone(left, start, end);
    OverlappingAll(mid, start, end);
    OverlappingNone(right, start, end);
    OnlyMiddle(mid);
  }

  lemma OnlyMiddle(mid: seq<Span>)
    ensures [] + mid + [] == mid
  {
  }

  /** What stands at the words `c..c + n` of the unit. */
  lemma CutsOfUnit(text: string, pre: string, unit: string, post: string, c: nat, n: nat)
    requires WordAligned(text, pre, unit, post) && c + n <= |Spans(unit)|
    ensures Cuts(text, Shift(Spans(unit), |pre|)[c..c + n]) == Words(unit)[c..c + n]
  {
    hide Spans, Cut;
    var cuts := Cuts(text, Shift(Spans(unit), |pre|)[c..c + n]);
    forall k | 0 <= k < n
      ensures cuts[k] == Words(unit)[c..c + n][k]
    {
      SpanBounds(unit, c + k);
      CutInside(text, pre, unit, post, Spans(unit)[c + k]);
    }
  }

  lemma CutInside(text: string, pre: string, unit: string, post: string, w: Span)
    requires text == pre + unit + post && w.start < w.end <= |unit|
    ensures Cut(text, Span(w.start + |pre|, w.end + |pre|)) == Cut(unit, w)
  {
    assert text[w.start + |pre|..w.end + |pre|] == unit[w.start..w.end];
  }

  /** A part that carries the next unread words is found exactly there. */
  lemma NextWordsAreFound(text: string, pre: string, unit: string, post: string, part: string, c: nat)
    requires WordAligned(text, pre, unit, post)
    requires Words(part) != [] && c + |Words(part)| <= |Words(unit)|
    requires Words(unit)[c..c + |Words(part)|] == Words(part)
    ensures |Spans(unit)| == |Words(unit)|
    ensures Locate(text, part, |pre|, |pre| + |unit|, c) == Some(Place(Shift(Spans(unit), |pre|), c, |Words(part)|))
  {
    hide Words, Spans, Overlapping, FirstMatch;
    WordCount(unit);
    SpansOfUnit(text, pre, unit, post);
    CutsOfUnit(text, pre, unit, post, c, |Words(part)|);
    FirstMatchIsFirst(text, Shift(Spans(unit), |pre|), Words(part), c, c);
  }

  /** Where the i-th of the parts stands, counted in words of the unit, when reading begins at word `c`. */
  function WordOffset(parts: seq<string>, i: nat, c: nat): nat
    requires i <= |parts|
  {
    c + |WordsOf(parts[..i])|
  }

  /** The words of part number `i` come right after those of the parts before it. */
  lemma PartWords(parts: seq<string>, i: nat)
    requires i < |parts|
    ensures var c := |WordsOf(parts[..i])|;
            && c + |Words(parts[i])| <= |WordsOf(parts)|
            && WordsOf(parts)[c..c + |Words(parts[i])|] == Words(parts[i])
  {
    hide Words;
    WordsOfConcat(parts[..i], parts[i..]);
    assert parts[..i] + parts[i..] == parts;
    assert WordsOf(parts[i..]) == Words(parts[i]) + WordsOf(parts[i..][1..]);
  }

  lemma {:induction false} PiecesOneByOne(location: Location, group: Group, pre: string, unit: string, post: string,
                                          parts: seq<string>, c: nat, i: nat)
    requires WordAligned(group.text, pre, unit, post)
    requires forall k :: 0 <= k < |parts| ==> Words(parts[k]) != []
    requires c <= |Words(unit)| && Words(unit)[c..] == WordsOf(parts)
    requires i < |parts|
    ensures |Spans(unit)| == |Words(unit)|
    ensures WordOffset(parts, i, c) + |Words(parts[i])| <= |Words(unit)|
    ensures var pieces := PiecesFrom(location, group, parts, |pre|, |pre| + |unit|, c);
            && |pieces| == |parts|
            && pieces[i] == PieceFor(location, group, parts[i],
                                     Some(Place(Shift(Spans(unit), |pre|), WordOffset(parts, i, c), |Words(parts[i])|)))
    decreases |parts|
  {
    hide Words, Spans, Strip, PieceFor, WordAligned, Locate, Place;
    var part, rest := parts[0], parts[1..];
    var n := |Words(part)|;
    FrontWords(Words(unit), c, Words(part), WordsOf(rest));
    NextWordsAreFound(group.text, pre, unit, post, part, c);
    StripWords(part);
    assert parts[..0] == [];
    if |rest| == 0 {
      NoPieces(location, group, |pre|, |pre| + |unit|, c + n);
    } else {
      PiecesOneByOne(location, group, pre, unit, post, rest, c + n, if i > 0 then i - 1 else 0);
      if i > 0 {
        OffsetOfRest(parts, i);
      }
    }
    NextOfPlace(Shift(Spans(unit), |pre|), c, n);
  }

  lemma OffsetOfRest(parts: seq<string>, i: nat)
    requires 0 < i < |parts|
    ensures WordsOf(parts[..i]) == Words(parts[0]) + WordsOf(parts[1..][..i - 1])
  {
    hide Words;
    assert parts[..i][1..] == parts[1..][..i - 1];
  }

  lemma NextOfPlace(spans: seq<Span>, c: nat, n: nat)
    requires 0 < n && c + n <= |spans|
    ensures Place(spans, c, n).next == c + n
  {
  }

  lemma FrontWords(all: seq<string>, c: nat, front: seq<string>, rest: seq<string>)
    requires c <= |all| && all[c..] == front + rest
    ensures c + |front| <= |all| && all[c..c + |front|] == front && all[c + |front|..] == rest
  {
    assert all[c..c + |front|] == all[c..][..|front|];
    assert all[c + |front|..] == all[c..][|front|..];
  }

  lemma NoPieces(location: Location, group: Group, start: int, end: int, cursor: nat)
    ensures PiecesFrom(location, group, [], start, end, cursor) == []
  {
  }

  // ----- the pages of a located part

  /** The block and one of the words `from..to` of the text have a character in common. */
  ghost predicate TouchesWords(text: string, b: TextBlock, from: nat, to: nat) {
    exists k :: from <= k < to && k < |Spans(text)| && b.start < Spans(text)[k].end && Spans(text)[k].start < b.end
  }

  /** `r` names the first and the last page of the blocks that the words `from..to` stand in; without
      any such page it is the location given. */
  ghost predicate IsPageHull(g: Group, from: nat, to: nat, location: Location, r: Location) {
    if forall b :: b in g.blocks && TouchesWords(g.text, b, from, to) ==> b.page.None? then r == location
    else
      && r.page.None? && r.pageStart.Some? && r.pageEnd.Some?
      && (exists b :: b in g.blocks && TouchesWords(g.text, b, from, to) && b.page == r.pageStart)
      && (exists b :: b in g.blocks && TouchesWords(g.text, b, from, to) && b.page == r.pageEnd)
      && (forall b :: b in g.blocks && TouchesWords(g.text, b, from, to) && b.page.Some? ==>
            r.pageStart.value <= b.page.value <= r.pageEnd.value)
  }

  lemma {:induction false} TouchingMembers(blocks: seq<TextBlock>, start: int, end: int, b: TextBlock)
    ensures b in Touching(blocks, start, end) <==> b in blocks && b.end > start && b.start < end
    decreases |blocks|
  {
    if blocks != [] {
      var init, last := blocks[..|blocks| - 1], blocks[|blocks| - 1];
      TouchingMembers(init, start, end, b);
      assert blocks == init + [last];
    }
  }

  lemma {:induction false} PageMembers(blocks: seq<TextBlock>, p: int)
    ensures p in Pages(blocks) <==> exists b :: b in blocks && b.page == Some(p)
    decreases |blocks|
  {
    if blocks != [] {
      var init, last := blocks[..|blocks| - 1], blocks[|blocks| - 1];
      PageMembers(init, p);
      assert blocks == init + [last];
      if last.page == Some(p) {
        assert last in blocks;
      }
    }
  }

  /** A block overlaps the stretch from the first to the last of some words exactly when it shares a
      character with one of these words: no block lies between two words. */
  lemma BlockTouchesWords(segment: seq<Block>, from: nat, to: nat, i: nat)
    requires var g := GroupOf(segment); from < to <= |Spans(g.text)| && i < |g.blocks|
    ensures var g := GroupOf(segment); var b := g.blocks[i];
            (b.end > Spans(g.text)[from].start && b.start < Spans(g.text)[to - 1].end)
            <==> TouchesWords(g.text, b, from, to)
  {
    var g := GroupOf(segment);
    PlacesAreRight(segment, i);
    BlockBeginsWithText(segment, i);
    hide GroupOf, Spans, TouchesWords;
    if g.blocks[i].end > Spans(g.text)[from].start && g.blocks[i].start < Spans(g.text)[to - 1].end {
      OverlapTouches(g.text, g.blocks[i], from, to);
    }
    if TouchesWords(g.text, g.blocks[i], from, to) {
      TouchOverlaps(g.text, g.blocks[i], from, to);
    }
  }

  lemma TouchOverlaps(text: string, b: TextBlock, from: nat, to: nat)
    requires from < to <= |Spans(text)| && TouchesWords(text, b, from, to)
    ensures b.end > Spans(text)[from].start && b.start < Spans(text)[to - 1].end
  {
    hide Spans;
    var k :| from <= k < to && k < |Spans(text)| && b.start < Spans(text)[k].end && Spans(text)[k].start < b.end;
    SpanStartsIncrease(text, from, k);
    SpanEndsIncrease(text, k, to - 1);
  }

  lemma OverlapTouches(text: string, b: TextBlock, from: nat, to: nat)
    requires from < to <= |Spans(text)| && b.start < b.end <= |text| && !IsSpace(text[b.start])
    requires b.end > Spans(text)[from].start && b.start < Spans(text)[to - 1].end
    ensures TouchesWords(text, b, from, to)
  {
    if b.start < Spans(text)[from].start {
      SpanBounds(text, from);
    } else {
      var k := SpanAt(text, |text|, b.start);
      WordBetween(text, from, to, k, b.start);
    }
  }

  lemma BlockBeginsWithText(segment: seq<Block>, i: nat)
    requires i < |GroupOf(segment).blocks|
    ensures var g := GroupOf(segment); g.blocks[i].start < |g.text| && !IsSpace(g.text[g.blocks[i].start])
  {
    hide Strip, Stripped, Join, NextStart;
    PlacesAreRight(segment, i);
    SameNumber(segment);
    PlacesOfTexts(segment, i);
    TextsAreStripped(segment);
    var g := GroupOf(segment);
    FirstOfCut(g.text, g.blocks[i].start, g.blocks[i].end, Texts(segment)[i]);
  }

  lemma FirstOfCut(text: string, start: nat, end: nat, part: string)
    requires start < end <= |text| && text[start..end] == part && Stripped(part) && part != ""
    ensures !IsSpace(text[start])
  {
    assert part[0] == text[start];
  }

  lemma SpanStartsIncrease(s: string, i: nat, j: nat)
    requires i <= j < |Spans(s)|
    ensures Spans(s)[i].start <= Spans(s)[j].start
  {
    SpansAreMaximalRuns(s, |s|);
    assert MaximalRun(s, |s|, Spans(s)[i]);
  }

  /** The word at a place between two words is between them. */
  lemma WordBetween(s: string, from: nat, to: nat, k: nat, p: nat)
    requires from < to <= |Spans(s)| && k < |Spans(s)|
    requires Spans(s)[k].start <= p < Spans(s)[k].end
    requires Spans(s)[from].start <= p < Spans(s)[to - 1].end
    ensures from <= k < to
  {
    SpansAreMaximalRuns(s, |s|);
  }

  /** The location computed for the stretch of the words `from..to` is their page hull. */
  lemma LocationIsPageHull(segment: seq<Block>, from: nat, to: nat, location: Location)
    requires from < to <= |Spans(GroupOf(segment).text)|
    ensures var g := GroupOf(segment);
            IsPageHull(g, from, to, location,
                       LocationForTextSpan(location, g.blocks, Spans(g.text)[from].start, Spans(g.text)[to - 1].end))
  {
    var g := GroupOf(segment);
    var start, end := Spans(g.text)[from].start, Spans(g.text)[to - 1].end;
    var touching := Touching(g.blocks, start, end);
    SomeBlockTouches(segment, from, to);
    forall b | b in g.blocks
      ensures b in touching <==> TouchesWords(g.text, b, from, to)
    {
      var i :| 0 <= i < |g.blocks| && g.blocks[i] == b;
      BlockTouchesWords(segment, from, to, i);
      TouchingMembers(g.blocks, start, end, b);
    }
    forall b | b in touching
      ensures b in g.blocks
    {
      TouchingMembers(g.blocks, start, end, b);
    }
    PageHullOfBlocks(g, from, to, location, touching);
  }

  lemma PageHullOfBlocks(g: Group, from: nat, to: nat, location: Location, touching: seq<TextBlock>)
    requires forall b :: b in g.blocks ==> (b in touching <==> TouchesWords(g.text, b, from, to))
    requires forall b :: b in touching ==> b in g.blocks
    ensures IsPageHull(g, from, to, location,
                       var pages := Pages(touching);
                       if pages == [] then location else WithPageRange(location, MinOf(pages), MaxOf(pages)))
  {
    hide TouchesWords, Pages;
    forall p: int
      ensures p in Pages(touching) <==> exists b :: b in touching && b.page == Some(p)
    {
      PageMembers(touching, p);
    }
    var pages := Pages(touching);
    forall b | b in g.blocks && TouchesWords(g.text, b, from, to) && b.page.Some?
      ensures b.page.value in pages
    {
      assert b in touching && b.page == Some(b.page.value);
    }
    if pages != [] {
      assert MinOf(pages) in pages && MaxOf(pages) in pages;
    }
  }

  /** The block counts for the stretch: it has a character in it, or none has, or the stretch is not known. */
  ghost predicate Counts(blocks: seq<TextBlock>, start: int, end: int, b: TextBlock) {
    && b in blocks
    && (|| (b.end > start && b.start < end)
        || start < 0
        || forall c :: c in blocks ==> !(c.end > start && c.start < end))
  }

  lemma CountsTell(blocks: seq<TextBlock>, start: int, end: int, b: TextBlock)
    ensures b in BlocksForTextSpan(blocks, start, end) <==>
              if start < 0 then b in blocks else Counts(blocks, start, end, b)
  {
    hide Touching;
    TouchingMembers(blocks, start, end, b);
    if Touching(blocks, start, end) == [] {
      forall c | c in blocks
        ensures !(c.end > start && c.start < end)
      {
        TouchingMembers(blocks, start, end, c);
      }
    } else {
      var c := Touching(blocks, start, end)[0];
      assert c in Touching(blocks, start, end);
      TouchingMembers(blocks, start, end, c);
    }
  }

  /** The location of any stretch of a group: the hull of the pages of the blocks that count for it, or the
      location given when none of them has a page. */
  lemma StretchTells(location: Location, blocks: seq<TextBlock>, start: int, end: int)
    ensures var r := LocationForTextSpan(location, blocks, start, end);
            if forall b :: Counts(blocks, start, end, b) ==> b.page == None then r == location
            else
              && r.page == None && r.pageStart.Some? && r.pageEnd.Some?
              && (exists b :: Counts(blocks, start, end, b) && b.page == r.pageStart)
              && (exists b :: Counts(blocks, start, end, b) && b.page == r.pageEnd)
              && forall b :: Counts(blocks, start, end, b) && b.page.Some? ==>
                   r.pageStart.value <= b.page.value <= r.pageEnd.value
  {
    hide Counts, Pages, BlocksForTextSpan;
    var them := BlocksForTextSpan(blocks, start, end);
    forall b
      ensures b in them <==> Counts(blocks, start, end, b)
    {
      CountsTell(blocks, start, end, b);
      UnknownCounts(blocks, start, end, b);
    }
    forall p: int
      ensures p in Pages(them) <==> exists b :: b in them && b.page == Some(p)
    {
      PageMembers(them, p);
    }
    var pages := Pages(them);
    forall b | b in them && b.page.Some?
      ensures b.page.value in pages
    {
      assert b.page == Some(b.page.value);
    }
    if pages != [] {
      assert MinOf(pages) in pages && MaxOf(pages) in pages;
      var first :| first in them && first.page == Some(MinOf(pages));
      assert Counts(blocks, start, end, first);
    }
  }

  /** The warnings handed on for any stretch of a group are those of the blocks that count for it. */
  lemma StretchWarnings(blocks: seq<TextBlock>, start: int, end: int, w: string)
    ensures w in WarningsForTextSpan(blocks, start, end) <==>
              exists b :: Counts(blocks, start, end, b) && w in b.warnings
  {
    hide Counts, AllWarnings, BlocksForTextSpan;
    var them := BlocksForTextSpan(blocks, start, end);
    forall b
      ensures b in them <==> Counts(blocks, start, end, b)
    {
      CountsTell(blocks, start, end, b);
      UnknownCounts(blocks, start, end, b);
    }
    WarningMembers(them, w);
  }

  lemma {:induction false} WarningMembers(blocks: seq<TextBlock>, w: string)
    ensures w in AllWarnings(blocks) <==> exists b :: b in blocks && w in b.warnings
    decreases |blocks|
  {
    if blocks != [] {
      var init, last := blocks[..|blocks| - 1], blocks[|blocks| - 1];
      WarningMembers(init, w);
      assert blocks == init + [last];
      if w in last.warnings {
        assert last in blocks;
      }
    }
  }

  lemma UnknownCounts(blocks: seq<TextBlock>, start: int, end: int, b: TextBlock)
    ensures start < 0 ==> (Counts(blocks, start, end, b) <==> b in blocks)
  {
  }

  /** A part that is not found keeps the broad location of its unit, and no warning is handed on to it. */
  lemma NotFoundTells(location: Location, group: Group, part: string)
    ensures var piece := PieceFor(location, group, part, None);
            && piece.text == part && piece.warnings == []
            && piece.location.pageStart == location.pageStart && piece.location.pageEnd == location.pageEnd
            && (location.pageStart.Some? || location.pageEnd.Some? ==> piece.location.page == None)
            && (location.pageStart.None? && location.pageEnd.None? ==> piece.location == location)
  {
  }

  /** The words a search goes through are those that reach into the stretch, in order. */
  lemma {:induction false} OverlappingTells(spans: seq<Span>, start: int, end: int, w: Span)
    ensures w in Overlapping(spans, start, end) <==> w in spans && w.end > start && w.start < end
    decreases |spans|
  {
    if spans != [] {
      OverlappingTells(spans[..|spans| - 1], start, end, w);
      assert spans == spans[..|spans| - 1] + [spans[|spans| - 1]];
    }
  }

  lemma SomeBlockTouches(segment: seq<Block>, from: nat, to: nat)
    requires from < to <= |Spans(GroupOf(segment).text)|
    ensures var g := GroupOf(segment);
            Touching(g.blocks, Spans(g.text)[from].start, Spans(g.text)[to - 1].end) != []
  {
    var g := GroupOf(segment);
    hide GroupOf;
    SpansAreMaximalRuns(g.text, |g.text|);
    assert MaximalRun(g.text, |g.text|, Spans(g.text)[from]);
    var i := CharInBlock(segment, Spans(g.text)[from].start);
    SpanEndsIncrease(g.text, from, to - 1);
    TouchingMembers(g.blocks, Spans(g.text)[from].start, Spans(g.text)[to - 1].end, g.blocks[i]);
  }

  /** The warnings of the blocks that the words `from..to` stand in, block after block. */
  ghost function WarningsOfWords(text: string, from: nat, to: nat, blocks: seq<TextBlock>): seq<string> {
    if blocks == [] then []
    else
      var last := blocks[|blocks| - 1];
      WarningsOfWords(text, from, to, blocks[..|blocks| - 1]) +
          (if TouchesWords(text, last, from, to) then last.warnings else [])
  }

  lemma {:induction false} WarningsOfTouching(segment: seq<Block>, from: nat, to: nat, n: nat)
    requires from < to <= |Spans(GroupOf(segment).text)| && n <= |GroupOf(segment).blocks|
    ensures var g := GroupOf(segment);
            AllWarnings(Touching(g.blocks[..n], Spans(g.text)[from].start, Spans(g.text)[to - 1].end)) ==
              WarningsOfWords(g.text, from, to, g.blocks[..n])
    decreases n
  {
    hide GroupOf, Spans, TouchesWords;
    var g := GroupOf(segment);
    if n > 0 {
      WarningsOfTouching(segment, from, to, n - 1);
      BlockTouchesWords(segment, from, to, n - 1);
      var start, end := Spans(g.text)[from].start, Spans(g.text)[to - 1].end;
      assert g.blocks[..n][..n - 1] == g.blocks[..n - 1];
      AllWarningsSnoc(Touching(g.blocks[..n - 1], start, end), g.blocks[n - 1]);
    }
  }

  lemma AllWarningsSnoc(blocks: seq<TextBlock>, b: TextBlock)
    ensures AllWarnings(blocks + [b]) == AllWarnings(blocks) + b.warnings
    ensures AllWarnings(blocks + []) == AllWarnings(blocks)
  {
    assert (blocks + [b])[..|blocks|] == blocks;
    assert blocks + [] == blocks;
  }

  /** The warnings handed on for the stretch of the words `from..to` are those of the blocks they stand in. */
  lemma WarningsAreOfWords(segment: seq<Block>, from: nat, to: nat)
    requires from < to <= |Spans(GroupOf(segment).text)|
    ensures var g := GroupOf(segment);
            WarningsForTextSpan(g.blocks, Spans(g.text)[from].start, Spans(g.text)[to - 1].end) ==
              WarningsOfWords(g.text, from, to, g.blocks)
  {
    hide GroupOf, Spans, WarningsOfWords, Touching, AllWarnings;
    var g := GroupOf(segment);
    SomeBlockTouches(segment, from, to);
    WarningsOfTouching(segment, from, to, |g.blocks|);
    assert g.blocks[..|g.blocks|] == g.blocks;
  }

  /** Words of a unit stand in the text behind those in front of the unit. */
  lemma PlaceInText(text: string, pre: string, unit: string, post: string, c: nat, n: nat)
    requires WordAligned(text, pre, unit, post) && 0 < n && c + n <= |Words(unit)|
    ensures |Shift(Spans(unit), |pre|)| == |Words(unit)|
    ensures var first := |Words(pre)| + c;
            && first + n <= |Spans(text)| == |Words(text)|
            && Words(text)[first..first + n] == Words(unit)[c..c + n]
            && Place(Shift(Spans(unit), |pre|), c, n) ==
               Found(Spans(text)[first].start, Spans(text)[first + n - 1].end, c + n)
  {
    hide Words, Spans, WordAligned;
    SpansOfText(text, pre, unit, post);
    WordCount(pre);
    WordCount(unit);
    WordCount(text);
    MiddleOf(Words(pre), Words(unit), Words(post), c, n);
    MiddleOf(Spans(pre), Shift(Spans(unit), |pre|), Shift(Spans(post), |pre| + |unit|), c, n);
  }

  /** Where part number `i` is found, in the words of the whole text. */
  lemma AlignedPlace(location: Location, g: Group, pre: string, unit: string, post: string, parts: seq<string>, i: nat)
    requires WordAligned(g.text, pre, unit, post)
    requires WordsOf(parts) == Words(unit)
    requires forall k :: 0 <= k < |parts| ==> Words(parts[k]) != []
    requires i < |parts|
    ensures var pieces := PiecesFrom(location, g, parts, |pre|, |pre| + |unit|, 0);
            var first, n := |Words(pre)| + |WordsOf(parts[..i])|, |Words(parts[i])|;
            && |pieces| == |parts| && 0 < n && first + n <= |Spans(g.text)|
            && Words(g.text)[first..first + n] == Words(parts[i])
            && pieces[i] == PieceFor(location, g, parts[i],
                                     Some(Found(Spans(g.text)[first].start, Spans(g.text)[first + n - 1].end,
                                                |WordsOf(parts[..i])| + n)))
  {
    hide Words, Spans, WordAligned, PiecesFrom, PieceFor, Shift, WordsOf;
    assert Words(unit)[0..] == Words(unit);
    PiecesOneByOne(location, g, pre, unit, post, parts, 0, i);
    PartWords(parts, i);
    var c, n := |WordsOf(parts[..i])|, |Words(parts[i])|;
    PlaceInText(g.text, pre, unit, post, c, n);
  }

  /** Part number `i` is found at the words that follow those of the parts before it: from the first character
      of the first of them to the end of the last, and the next search begins behind them. */
  ghost predicate IsFound(text: string, pre: string, unit: string, parts: seq<string>, i: nat)
    requires i < |parts|
  {
    var c, n := |WordsOf(parts[..i])|, |Words(parts[i])|;
    var first := |Words(pre)| + c;
    && 0 < n && first + n <= |Spans(text)|
    && Locate(text, parts[i], |pre|, |pre| + |unit|, c) ==
       Some(Found(Spans(text)[first].start, Spans(text)[first + n - 1].end, c + n))
  }

  /** The search for part number `i`, begun behind the words of the parts before it, finds it there. */
  lemma AlignedIsFound(text: string, pre: string, unit: string, post: string, parts: seq<string>, i: nat)
    requires WordAligned(text, pre, unit, post) && WordsOf(parts) == Words(unit)
    requires i < |parts| && Words(parts[i]) != []
    ensures IsFound(text, pre, unit, parts, i)
  {
    hide Words, Spans, WordAligned, Locate, WordsOf;
    PartWords(parts, i);
    NextIsFound(text, pre, unit, post, parts[i], |WordsOf(parts[..i])|);
  }

  lemma NextIsFound(text: string, pre: string, unit: string, post: string, part: string, c: nat)
    requires WordAligned(text, pre, unit, post)
    requires Words(part) != [] && c + |Words(part)| <= |Words(unit)|
    requires Words(unit)[c..c + |Words(part)|] == Words(part)
    ensures var n := |Words(part)|;
            var first := |Words(pre)| + c;
            && first + n <= |Spans(text)|
            && Locate(text, part, |pre|, |pre| + |unit|, c) ==
               Some(Found(Spans(text)[first].start, Spans(text)[first + n - 1].end, c + n))
  {
    hide Words, Spans, WordAligned, Locate, Shift, Place;
    NextWordsAreFound(text, pre, unit, post, part, c);
    PlaceInText(text, pre, unit, post, c, |Words(part)|);
  }

  /** Piece number `i` is made for the place where part number `i` is found, which is at the words that follow
      those of the parts before it, and has the pages and the warnings of the blocks they stand in. */
  ghost predicate PieceInPlace(location: Location, g: Group, pre: string, unit: string, parts: seq<string>, i: nat,
                               piece: Piece)
    requires i < |parts|
  {
    var first := |Words(pre)| + |WordsOf(parts[..i])|;
    var next := first + |Words(parts[i])|;
    && IsFound(g.text, pre, unit, parts, i)
    && piece == PieceFor(location, g, parts[i],
                         Locate(g.text, parts[i], |pre|, |pre| + |unit|, |WordsOf(parts[..i])|))
    && next <= |Words(g.text)| && Words(g.text)[first..next] == Words(parts[i])
    && IsPageHull(g, first, next, location, piece.location)
    && piece.warnings == WarningsOfWords(g.text, first, next, g.blocks)
  }

  /** The parts of a word-aligned unit that carry exactly its words: part number `i` is found at the words
      right after those of the parts before it, so the places are consecutive, disjoint and cover the unit;
      its pages are the hull of the pages of the blocks these words stand in, and its warnings are the
      warnings of these blocks. */
  lemma AlignedChild(segment: seq<Block>, location: Location, pre: string, unit: string, post: string,
                     parts: seq<string>, i: nat)
    requires WordAligned(GroupOf(segment).text, pre, unit, post)
    requires WordsOf(parts) == Words(unit)
    requires forall k :: 0 <= k < |parts| ==> Words(parts[k]) != []
    requires i < |parts|
    ensures var pieces := PiecesFrom(location, GroupOf(segment), parts, |pre|, |pre| + |unit|, 0);
            && |pieces| == |parts| && pieces[i].text == parts[i]
            && PieceInPlace(location, GroupOf(segment), pre, unit, parts, i, pieces[i])
  {
    hide Words, Spans, IsPageHull, GroupOf, WordAligned, PiecesFrom, LocationForTextSpan, WarningsForTextSpan, WordsOf,
      WarningsOfWords, Locate;
    var g := GroupOf(segment);
    AlignedPlace(location, g, pre, unit, post, parts, i);
    AlignedIsFound(g.text, pre, unit, post, parts, i);
    WordCount(g.text);
    var first := |Words(pre)| + |WordsOf(parts[..i])|;
    LocationIsPageHull(segment, first, first + |Words(parts[i])|, location);
    WarningsAreOfWords(segment, first, first + |Words(parts[i])|);
  }

  lemma MiddleOf<T>(a: seq<T>, b: seq<T>, c: seq<T>, from: nat, n: nat)
    requires from + n <= |b| && n > 0
    ensures (a + b + c)[|a| + from..|a| + from + n] == b[from..from + n]
    ensures (a + b + c)[|a| + from] == b[from]
    ensures (a + b + c)[|a| + from + n - 1] == b[from + n - 1]
  {
  }

  /** Every part that has words yields one piece, found or not. */
  lemma {:induction false} PieceTexts(location: Location, group: Group, parts: seq<string>, start: int, end: int,
                                      cursor: nat)
    requires forall k :: 0 <= k < |parts| ==> Words(parts[k]) != []
    ensures |PiecesFrom(location, group, parts, start, end, cursor)| == |parts|
    ensures forall i :: 0 <= i < |parts| ==> PiecesFrom(location, group, parts, start, end, cursor)[i].text == parts[i]
    decreases |parts|
  {
    hide Words, Strip, Locate, LocationForTextSpan, WarningsForTextSpan;
    if parts != [] {
      StripWords(parts[0]);
      var found := Locate(group.text, parts[0], start, end, cursor);
      PieceTexts(location, group, parts[1..], start, end, if found.Some? then found.value.next else cursor);
    }
  }

  lemma PiecesInPlace(segment: seq<Block>, location: Location, pre: string, unit: string, post: string,
                      parts: seq<string>, pieces: seq<Piece>)
    requires WordAligned(GroupOf(segment).text, pre, unit, post)
    requires WordsOf(parts) == Words(unit)
    requires forall k :: 0 <= k < |parts| ==> Words(parts[k]) != []
    requires pieces == PiecesFrom(location, GroupOf(segment), parts, |pre|, |pre| + |unit|, 0) && |pieces| == |parts|
    ensures forall i :: 0 <= i < |parts| ==> PieceInPlace(location, GroupOf(segment), pre, unit, parts, i, pieces[i])
  {
    hide Words, WordsOf, GroupOf, WordAligned, PiecesFrom, IsPageHull, WarningsOfWords;
    forall i | 0 <= i < |parts|
      ensures PieceInPlace(location, GroupOf(segment), pre, unit, parts, i, pieces[i])
    {
      AlignedChild(segment, location, pre, unit, post, parts, i);
    }
  }

  /** The pieces of one unit that begins at `unitStart` of the group's text, or, when that is negative,
      was not found there. A unit that does stand there, cut off at word ends, and that is over the limit
      is split into pieces that are located one right after the other. */
  method SplitReferenceUnit(location: Location, group: Group, unit: string, unitStart: int, hardMax: nat, lower: nat,
                            ghost segment: seq<Block>, ghost pre: string, ghost post: string)
    returns (pieces: seq<Piece>, parts: seq<string>)
    requires 1 <= lower <= hardMax
    ensures HardSplit.HardParts(unit, hardMax, lower, parts) && |pieces| == |parts|
    ensures forall i :: 0 <= i < |parts| ==> pieces[i].text == parts[i]
    ensures |parts| == 1 ==>
              var unitEnd := if unitStart >= 0 then unitStart + |unit| else |group.text|;
              pieces == [Piece(parts[0], LocationForTextSpan(location, group.blocks, unitStart, unitEnd),
                               WarningsForTextSpan(group.blocks, unitStart, unitEnd))]
    ensures |parts| > 1 ==>
              var unitEnd := if unitStart >= 0 then unitStart + |unit| else |group.text|;
              pieces == PiecesFrom(LocationForTextSpan(location, group.blocks, unitStart, unitEnd), group, parts,
                                   unitStart, unitEnd, 0)
    ensures |parts| > 1 && group == GroupOf(segment) && WordAligned(group.text, pre, unit, post) &&
              unitStart == |pre| ==>
              var unitLocation := LocationForTextSpan(location, group.blocks, unitStart, unitStart + |unit|);
              forall i :: 0 <= i < |parts| ==> PieceInPlace(unitLocation, group, pre, unit, parts, i, pieces[i])
  {
    hide Words, WordsOf, GroupOf, WordAligned, PiecesFrom, PieceInPlace, LocationForTextSpan, WarningsForTextSpan,
      Strip, HardSplit.HardParts;
    var unitEnd := if unitStart >= 0 then unitStart + |unit| else |group.text|;
    var unitLocation := LocationForTextSpan(location, group.blocks, unitStart, unitEnd);
    parts := HardSplit.HardSplitText(unit, hardMax, lower);
    PartsOfUnit(unit, hardMax, lower, parts);
    var warnings := if |parts| <= 1 then WarningsForTextSpan(group.blocks, unitStart, unitEnd) else [];
    pieces := ReferenceUnitHardSplitPieces(unitLocation, warnings, group, parts, unitStart, unitEnd);
    if |parts| <= 1 {
      if |parts| == 1 {
        StripWords(parts[0]);
      }
    } else {
      PieceTexts(unitLocation, group, parts, unitStart, unitEnd, 0);
      if group == GroupOf(segment) && WordAligned(group.text, pre, unit, post) && unitStart == |pre| {
        PiecesInPlace(segment, unitLocation, pre, unit, post, parts, pieces);
      }
    }
  }

  lemma PartsOfUnit(unit: string, hardMax: nat, lower: nat, parts: seq<string>)
    requires HardSplit.HardParts(unit, hardMax, lower, parts)
    ensures WordsOf(parts) == Words(unit)
    ensures forall i :: 0 <= i < |parts| ==> 1 <= |Words(parts[i])| <= hardMax
  {
    hide HardSplit.Explained;
  }
}
