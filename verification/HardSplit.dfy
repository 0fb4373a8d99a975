/**
 Splitting a text that is too long for one chunk, and packing the parts of several sections
 into chunks again. Cuts are made between words only, at the end of a sentence where that is
 possible, and inside a sentence only when the sentence alone is over the limit.
 */
module HardSplit {
  import opened Text
  import opened Wrappers

  /** The characters a sentence ends with. */
  predicate IsSentenceEnd(c: char) {
    c in ".!?\U{61F}\U{964}\U{3002}"
  }

  /** The characters after which a long sentence may be cut. */
  predicate IsSoftBoundary(c: char) {
    IsSentenceEnd(c) || c in ",;:"
  }

  /** The end of the white space that starts at `i`. */
  function SpaceEnd(s: string, i: nat): (e: nat)
    requires i <= |s|
    ensures i <= e <= |s|
    ensures forall p :: i <= p < e ==> IsSpace(s[p])
    ensures i < |s| && IsSpace(s[i]) ==> i < e
    decreases |s| - i
  {
    if i < |s| && IsSpace(s[i]) then SpaceEnd(s, i + 1) else i
  }

  /** The end of the run of line breaks that starts at `i`. */
  function NewlineEnd(s: string, i: nat): (e: nat)
    requires i <= |s|
    ensures i <= e <= |s|
    ensures forall p :: i <= p < e ==> s[p] == '\n'
    ensures i < |s| && s[i] == '\n' ==> i < e
    decreases |s| - i
  {
    if i < |s| && s[i] == '\n' then NewlineEnd(s, i + 1) else i
  }

  // ----- sentences

  predicate SentenceBreak(s: string, i: nat) {
    0 < i < |s| && IsSentenceEnd(s[i - 1]) && IsSpace(s[i])
  }

  /** The pieces of `s` from `from` on, the piece being read having begun at `from` and reached `i`:
      the text is cut at the white space that follows a sentence end, and that white space is dropped. */
  function Sentences(s: string, from: nat, i: nat): seq<string>
    requires from <= i <= |s|
    decreases |s| - i
  {
    if i == |s| then [s[from..]]
    else if SentenceBreak(s, i) then [s[from..i]] + Sentences(s, SpaceEnd(s, i), SpaceEnd(s, i))
    else Sentences(s, from, i + 1)
  }

  lemma {:induction false} SentencesKeepWords(s: string, from: nat, i: nat)
    requires from <= i <= |s|
    ensures WordsOf(Sentences(s, from, i)) == Words(s[from..])
    decreases |s| - i
  {
    if i == |s| {
      WordsOfSingle(s[from..]);
    } else if SentenceBreak(s, i) {
      var e := SpaceEnd(s, i);
      SentencesKeepWords(s, e, e);
      WordsAroundGap(s, from, i, e);
    } else {
      SentencesKeepWords(s, from, i + 1);
    }
  }

  lemma WordsOfSingle(part: string)
    ensures WordsOf([part]) == Words(part)
  {
    assert WordsOf([part]) == Words(part) + WordsOf([]);
  }

  /** White space in the middle of a text may be dropped without touching a word. */
  lemma WordsAroundGap(s: string, from: nat, i: nat, e: nat)
    requires from <= i < e <= |s|
    requires forall p :: i <= p < e ==> IsSpace(s[p])
    ensures Words(s[from..]) == Words(s[from..i]) + Words(s[e..])
  {
    hide Words, IsSpace;
    var left, gap, right := s[from..i], s[i..e], s[e..];
    assert s[from..] == left + (gap + right);
    BlankInFront(gap, right);
    assert (gap + right)[0] == s[i];
    WordsConcat(left, gap + right);
  }

  lemma BlankInFront(gap: string, right: string)
    requires gap != [] && forall p :: 0 <= p < |gap| ==> IsSpace(gap[p])
    ensures Words(gap + right) == Words(right)
  {
    hide Words, IsSpace;
    WordsConcat(gap, right);
    BlankHasNoWords(gap);
  }

  // ----- cutting one long sentence

  /** Where the places end after which a long sentence may be cut: a run of line breaks, or the
      white space after a soft boundary, whichever is met first. */
  function BoundaryEnds(s: string, i: nat): seq<nat>
    requires i <= |s|
    decreases |s| - i
  {
    if i == |s| then []
    else if s[i] == '\n' then [NewlineEnd(s, i)] + BoundaryEnds(s, NewlineEnd(s, i))
    else if i > 0 && IsSoftBoundary(s[i - 1]) && IsSpace(s[i]) then [SpaceEnd(s, i)] + BoundaryEnds(s, SpaceEnd(s, i))
    else BoundaryEnds(s, i + 1)
  }

  lemma {:induction false} BoundaryEndsFollowSpace(s: string, i: nat)
    requires i <= |s|
    ensures forall k :: 0 <= k < |BoundaryEnds(s, i)| ==>
              i < BoundaryEnds(s, i)[k] <= |s| && IsSpace(s[BoundaryEnds(s, i)[k] - 1])
    ensures forall j, k :: 0 <= j < k < |BoundaryEnds(s, i)| ==> BoundaryEnds(s, i)[j] < BoundaryEnds(s, i)[k]
    decreases |s| - i
  {
    if i < |s| {
      if s[i] == '\n' {
        var e := NewlineEnd(s, i);
        BoundaryEndsFollowSpace(s, e);
        assert s[e - 1] == '\n';
      } else if i > 0 && IsSoftBoundary(s[i - 1]) && IsSpace(s[i]) {
        BoundaryEndsFollowSpace(s, SpaceEnd(s, i));
        assert IsSpace(s[SpaceEnd(s, i) - 1]);
      } else {
        BoundaryEndsFollowSpace(s, i + 1);
      }
    }
  }

  /** The cut may come after the `lower`-th word and at the end of the `hardMax`-th at the latest. */
  predicate InWindow(s: string, hardMax: nat, lower: nat, e: nat)
    requires 1 <= lower <= hardMax < |Spans(s)|
  {
    Spans(s)[lower - 1].end < e <= Spans(s)[hardMax - 1].end
  }

  /** The last place in the window where the text may be cut, if there is one. */
  method SemanticSplitIndex(s: string, hardMax: nat, lower: nat) returns (index: Option<nat>)
    requires 1 <= lower <= hardMax
    ensures |Spans(s)| <= hardMax ==> index == None
    ensures |Spans(s)| > hardMax && index.Some? ==>
              IsLastBoundary(s, hardMax, lower, index.value)
    ensures |Spans(s)| > hardMax && index.None? ==>
              forall e :: e in BoundaryEnds(s, 0) ==> !InWindow(s, hardMax, lower, e)
  {
    hide Spans, BoundaryEnds;
    var words := Spans(s);
    if |words| <= hardMax {
      return None;
    }
    var lowerBound := words[lower - 1].end;
    var upperBound := words[hardMax - 1].end;
    SpanEndsIncrease(s, lower - 1, hardMax - 1);
    index := None;
    var ends := BoundaryEnds(s, 0);
    BoundaryEndsFollowSpace(s, 0);
    var i := 0;
    while i < |ends|
      invariant 0 <= i <= |ends|
      invariant forall k :: 0 <= k < i ==> ends[k] <= upperBound
      invariant index.None? ==> forall k :: 0 <= k < i ==> ends[k] <= lowerBound
      invariant index.Some? ==> index.value in ends && lowerBound < index.value <= upperBound
      invariant index.Some? ==> forall k :: 0 <= k < i ==> ends[k] <= index.value
    {
      var end := ends[i];
      if end > lowerBound {
        if end > upperBound {
          break;
        }
        index := Some(end);
      }
      i := i + 1;
    }
    forall e | e in ends && InWindow(s, hardMax, lower, e)
      ensures index.Some? && e <= index.value
    {
      var k :| 0 <= k < |ends| && ends[k] == e;
    }
  }

  /** A cut in the window leaves at least `lower` and at most `hardMax` words in front of it. */
  lemma WindowWordCount(s: string, hardMax: nat, lower: nat, e: nat)
    requires 1 <= lower <= hardMax < |Spans(s)|
    requires 0 < e <= |s| && IsSpace(s[e - 1]) && InWindow(s, hardMax, lower, e)
    ensures Words(s) == Words(s[..e]) + Words(s[e..])
    ensures lower <= |Words(s[..e])| <= hardMax
  {
    var left, right := s[..e], s[e..];
    assert s == left + right;
    assert left[|left| - 1] == s[e - 1];
    WordsConcat(left, right);
    SpansConcat(left, right);
    SpansAreMaximalRuns(s, |s|);
    SpansAreMaximalRuns(left, |left|);
    WindowCounts(s, left, right, hardMax, lower);
  }

  lemma WindowCounts(s: string, left: string, right: string, hardMax: nat, lower: nat)
    requires 1 <= lower <= hardMax < |Spans(s)|
    requires Spans(s) == Spans(left) + Shift(Spans(right), |left|)
    requires InWindow(s, hardMax, lower, |left|)
    requires MaximalRuns(s, |s|, Spans(s)) && MaximalRuns(left, |left|, Spans(left))
    ensures lower <= |Spans(left)| <= hardMax
  {
    assert MaximalRun(s, |s|, Spans(s)[lower - 1]);
    assert Spans(s)[hardMax - 1].end < Spans(s)[hardMax].start;
  }

  /** `e` is the last place where `s` may be cut. */
  ghost predicate IsLastBoundary(s: string, hardMax: nat, lower: nat, e: nat)
    requires 1 <= lower <= hardMax < |Spans(s)|
  {
    && e in BoundaryEnds(s, 0) && InWindow(s, hardMax, lower, e)
    && forall d :: d in BoundaryEnds(s, 0) && InWindow(s, hardMax, lower, d) ==> d <= e
  }

  /** A text over the limit is cut into `piece` and `rest`: at the last boundary in the window, or after
      `hardMax` words when there is none. */
  ghost predicate IsCut(s: string, hardMax: nat, lower: nat, piece: string, rest: string)
    requires 1 <= lower <= hardMax
  {
    && |Spans(s)| > hardMax
    && if exists e :: e in BoundaryEnds(s, 0) && InWindow(s, hardMax, lower, e) then
         exists e: nat :: e <= |s| && IsLastBoundary(s, hardMax, lower, e) && piece == Strip(s[..e]) &&
             rest == Strip(s[e..])
       else piece == Join(Words(s)[..hardMax], " ") && rest == Strip(Join(Words(s)[hardMax..], " "))
  }

  /** Cutting off `pieces` one after the other leaves `rest` of the text. */
  ghost predicate CutOff(text: string, hardMax: nat, lower: nat, pieces: seq<string>, rest: string)
    requires 1 <= lower <= hardMax
    decreases |pieces|, 0
  {
    if pieces == [] then rest == Strip(text)
    else CutOffBefore(text, hardMax, lower, pieces[..|pieces| - 1], pieces[|pieces| - 1], rest)
  }

  ghost predicate CutOffBefore(text: string, hardMax: nat, lower: nat, pieces: seq<string>, piece: string, rest: string)
    requires 1 <= lower <= hardMax
    decreases |pieces|, 1
  {
    exists before :: CutOff(text, hardMax, lower, pieces, before) && IsCut(before, hardMax, lower, piece, rest)
  }

  /** The pieces of one text: what is cut off while it is over the limit, and what is left then. */
  ghost predicate IsCutUp(text: string, hardMax: nat, lower: nat, pieces: seq<string>)
    requires 1 <= lower <= hardMax
  {
    || CutOff(text, hardMax, lower, pieces, "")
    || (pieces != [] && |Words(pieces[|pieces| - 1])| <= hardMax
        && CutOff(text, hardMax, lower, pieces[..|pieces| - 1], pieces[|pieces| - 1]))
  }

  lemma CutOffOneMore(text: string, hardMax: nat, lower: nat, pieces: seq<string>, before: string, piece: string,
                      rest: string)
    requires 1 <= lower <= hardMax && CutOff(text, hardMax, lower, pieces, before) &&
              IsCut(before, hardMax, lower, piece, rest)
    ensures CutOff(text, hardMax, lower, pieces + [piece], rest)
  {
    hide IsCut;
    assert (pieces + [piece])[..|pieces|] == pieces;
  }

  lemma CutUpWithLast(text: string, hardMax: nat, lower: nat, pieces: seq<string>, last: string)
    requires 1 <= lower <= hardMax && CutOff(text, hardMax, lower, pieces, last) && |Words(last)| <= hardMax
    ensures IsCutUp(text, hardMax, lower, pieces + [last])
  {
    hide CutOff, Words;
    assert (pieces + [last])[..|pieces|] == pieces;
  }

  lemma NothingCutOff(text: string, hardMax: nat, lower: nat)
    requires 1 <= lower <= hardMax
    ensures CutOff(text, hardMax, lower, [], Strip(text))
  {
  }

  /** What the cutting of one sentence gives: its words, within the limit, all pieces but the last of at
      least `lower` words, hence few of them, and every cut where the boundaries put it. */
  ghost predicate SplitInto(sentence: string, hardMax: nat, lower: nat, parts: seq<string>) {
    && 1 <= lower <= hardMax
    && WordsOf(parts) == Words(sentence)
    && (forall i :: 0 <= i < |parts| ==> 1 <= |Words(parts[i])| <= hardMax)
    && (forall i :: 0 <= i < |parts| - 1 ==> lower <= |Words(parts[i])|)
    && |parts| <= |Words(sentence)| / lower + 1
    && IsCutUp(sentence, hardMax, lower, parts)
  }

  /** Cuts the first piece off a text that is over the limit. */
  method CutFirst(text: string, hardMax: nat, lower: nat) returns (piece: string, rest: string)
    requires 1 <= lower <= hardMax < |Words(text)|
    ensures Words(text) == Words(piece) + Words(rest)
    ensures lower <= |Words(piece)| <= hardMax && Stripped(rest)
    ensures IsCut(text, hardMax, lower, piece, rest)
  {
    hide Strip, Stripped, Words, Spans, BoundaryEnds, Join, IsCut, IsLastBoundary;
    WordCount(text);
    var index := SemanticSplitIndex(text, hardMax, lower);
    if index.None? {
      HardCut(text, hardMax);
      HardCutIsCut(text, hardMax, lower);
      piece := Join(Words(text)[..hardMax], " ");
      rest := Strip(Join(Words(text)[hardMax..], " "));
    } else {
      SoftCut(text, hardMax, lower, index.value);
      SoftCutIsCut(text, hardMax, lower, index.value);
      piece := Strip(text[..index.value]);
      rest := Strip(text[index.value..]);
    }
  }

  /** Cuts a sentence of more than `hardMax` words. Words are kept, every piece is within the limit,
      and since every piece but the last has `lower` words or more there are few of them. */
  method SplitOversizedSentence(text: string, hardMax: nat, lower: nat) returns (chunks: seq<string>)
    requires 1 <= lower <= hardMax
    ensures SplitInto(text, hardMax, lower, chunks)
  {
    hide Strip, Stripped, Words, Spans, IsCut, CutOff, IsCutUp;
    chunks := [];
    var remaining := Strip(text);
    StripWords(text);
    NothingCutOff(text, hardMax, lower);
    while remaining != ""
      invariant Stripped(remaining)
      invariant WordsOf(chunks) + Words(remaining) == Words(text)
      invariant forall i :: 0 <= i < |chunks| ==> lower <= |Words(chunks[i])| <= hardMax
      invariant CutOff(text, hardMax, lower, chunks, remaining)
      decreases |Words(remaining)|
    {
      StrippedHasWords(remaining);
      if |Words(remaining)| <= hardMax {
        PieceCount(chunks, lower, |Words(text)|);
        MoveWords(chunks, remaining, Words(remaining), []);
        CutUpWithLast(text, hardMax, lower, chunks, remaining);
        chunks := chunks + [remaining];
        return;
      }
      var piece, rest := CutFirst(remaining, hardMax, lower);
      MoveWords(chunks, piece, Words(remaining), Words(rest));
      CutOffOneMore(text, hardMax, lower, chunks, remaining, piece, rest);
      chunks, remaining := chunks + [piece], rest;
    }
    BlankHasNoWords("");
    PieceCount(chunks, lower, |Words(text)|);
    CutUpCompletely(text, hardMax, lower, chunks);
  }

  lemma CutUpCompletely(text: string, hardMax: nat, lower: nat, pieces: seq<string>)
    requires 1 <= lower <= hardMax && CutOff(text, hardMax, lower, pieces, "")
    ensures IsCutUp(text, hardMax, lower, pieces)
  {
  }

  lemma HardCutIsCut(s: string, hardMax: nat, lower: nat)
    requires 1 <= lower <= hardMax < |Spans(s)| && |Words(s)| == |Spans(s)|
    requires forall e :: e in BoundaryEnds(s, 0) ==> !InWindow(s, hardMax, lower, e)
    ensures IsCut(s, hardMax, lower, Join(Words(s)[..hardMax], " "), Strip(Join(Words(s)[hardMax..], " ")))
  {
    hide Strip, Words, Spans, BoundaryEnds, Join, InWindow;
  }

  lemma SoftCutIsCut(s: string, hardMax: nat, lower: nat, e: nat)
    requires 1 <= lower <= hardMax < |Spans(s)| && e <= |s| && IsLastBoundary(s, hardMax, lower, e)
    ensures IsCut(s, hardMax, lower, Strip(s[..e]), Strip(s[e..]))
  {
    hide Strip, Words, Spans, BoundaryEnds, Join, InWindow;
    assert e in BoundaryEnds(s, 0) && InWindow(s, hardMax, lower, e);
  }

  /** Without a boundary the cut is made after exactly `hardMax` words. */
  lemma HardCut(s: string, hardMax: nat)
    requires hardMax < |Words(s)|
    ensures Words(Join(Words(s)[..hardMax], " ")) == Words(s)[..hardMax]
    ensures Words(Strip(Join(Words(s)[hardMax..], " "))) == Words(s)[hardMax..]
    ensures Stripped(Strip(Join(Words(s)[hardMax..], " ")))
  {
    WordsAreWords(s);
    JoinWordsRoundTrip(Words(s)[..hardMax]);
    JoinWordsRoundTrip(Words(s)[hardMax..]);
    StripWords(Join(Words(s)[hardMax..], " "));
  }

  /** At a boundary in the window no word is cut. */
  lemma SoftCut(s: string, hardMax: nat, lower: nat, e: nat)
    requires 1 <= lower <= hardMax < |Spans(s)|
    requires IsLastBoundary(s, hardMax, lower, e)
    ensures e <= |s|
    ensures Words(s) == Words(Strip(s[..e])) + Words(Strip(s[e..]))
    ensures lower <= |Words(Strip(s[..e]))| <= hardMax
    ensures Stripped(Strip(s[e..]))
  {
    BoundaryEndsFollowSpace(s, 0);
    WindowWordCount(s, hardMax, lower, e);
    StripWords(s[..e]);
    StripWords(s[e..]);
  }

  /** Pieces of at least `lower` words each: their number is bounded by the number of words. */
  lemma PieceCount(chunks: seq<string>, lower: nat, total: nat)
    requires lower >= 1
    requires forall i :: 0 <= i < |chunks| ==> lower <= |Words(chunks[i])|
    requires |WordsOf(chunks)| <= total
    ensures |chunks| <= total / lower
  {
    PiecesTimesLower(chunks, lower);
    QuotientBound(|chunks|, lower, total);
  }

  /** Moving a piece from the front of the remaining words to the chunks keeps all the words. */
  lemma MoveWords(chunks: seq<string>, piece: string, before: seq<string>, rest: seq<string>)
    requires before == Words(piece) + rest
    ensures WordsOf(chunks + [piece]) + rest == WordsOf(chunks) + before
  {
    WordsOfSnoc(chunks, piece);
  }

  lemma {:induction false} PiecesTimesLower(chunks: seq<string>, lower: nat)
    requires forall i :: 0 <= i < |chunks| ==> lower <= |Words(chunks[i])|
    ensures |chunks| * lower <= |WordsOf(chunks)|
    decreases |chunks|
  {
    hide Words;
    if chunks != [] {
      PiecesTimesLower(chunks[1..], lower);
      assert chunks[0] in chunks;
      assert |chunks| * lower == (|chunks| - 1) * lower + lower;
    }
  }

  lemma SmallFactor(x: int, b: nat)
    requires x * b < b
    ensures x <= 0
  {
  }

  lemma QuotientBound(a: nat, b: nat, t: nat)
    requires b >= 1 && a * b <= t
    ensures a <= t / b
  {
    var excess := a - t / b;
    assert t == t / b * b + t % b;
    assert excess * b == a * b - t / b * b < b;
    SmallFactor(excess, b);
  }

  // ----- splitting a text into pieces within the limit

  /** The parts that hold a word, stripped. */
  function NonBlank(parts: seq<string>): seq<string> {
    if parts == [] then []
    else NonBlank(parts[..|parts| - 1]) + (if Strip(parts[|parts| - 1]) == "" then [] else [Strip(parts[|parts| - 1])])
  }

  lemma {:induction false} NonBlankKeepsWords(parts: seq<string>)
    ensures WordsOf(NonBlank(parts)) == WordsOf(parts)
    decreases |parts|
  {
    if parts != [] {
      var init, last := parts[..|parts| - 1], parts[|parts| - 1];
      NonBlankKeepsWords(init);
      assert parts == init + [last];
      WordsOfSnoc(init, last);
      StripWords(last);
      if Strip(last) == "" {
        assert NonBlank(parts) == NonBlank(init);
      } else {
        WordsOfSnoc(NonBlank(init), Strip(last));
      }
    }
  }

  /** Where pieces come from: whole sentences `from..to` joined by spaces are one piece; a sentence that
      alone is over the limit is cut into `parts`. */
  datatype Run = Packed(from: nat, to: nat) | Divided(sentence: nat, parts: seq<string>) {
    function Begin(): nat {
      match this case Packed(from, _) => from case Divided(j, _) => j
    }
    function End(): nat {
      match this case Packed(_, to) => to case Divided(j, _) => j + 1
    }
  }

  /** The sentences of a text, without the blank ones. */
  function CleanSentences(text: string): seq<string> {
    NonBlank(Sentences(text, 0, 0))
  }

  function PiecesOf(sentences: seq<string>, r: Run): seq<string> {
    match r
    case Packed(from, to) => if from <= to <= |sentences| then [Join(sentences[from..to], " ")] else []
    case Divided(_, parts) => parts
  }

  function PiecesOfRuns(sentences: seq<string>, runs: seq<Run>): seq<string> {
    if runs == [] then [] else PiecesOfRuns(sentences, runs[..|runs| - 1]) + PiecesOf(sentences, runs[|runs| - 1])
  }

  /** Sentences packed together are within the limit; only a sentence over the limit is divided, and it is
      divided as `SplitInto` says. */
  ghost predicate RunIsRight(sentences: seq<string>, hardMax: nat, lower: nat, r: Run) {
    match r
    case Packed(from, to) => from < to <= |sentences| && |WordsOf(sentences[from..to])| <= hardMax
    case Divided(j, parts) =>
      j < |sentences| && |Words(sentences[j])| > hardMax && SplitInto(sentences[j], hardMax, lower, parts)
  }

  /** The next run begins where this one ends; between two packed runs there is a cut only because the next
      sentence did not fit any more. */
  predicate CutNeeded(sentences: seq<string>, hardMax: nat, r: Run, next: Run) {
    && r.End() == next.Begin()
    && (r.Packed? && next.Packed? ==>
          && r.from <= r.to < |sentences|
          && |WordsOf(sentences[r.from..r.to])| + |Words(sentences[r.to])| > hardMax)
  }

  /** The pieces are those of the runs, and the runs cover `sentences[..end]` in order. */
  ghost predicate Explained(sentences: seq<string>, hardMax: nat, lower: nat, pieces: seq<string>, runs: seq<Run>,
                            end: nat)
  {
    && pieces == PiecesOfRuns(sentences, runs)
    && (forall i :: 0 <= i < |runs| ==> RunIsRight(sentences, hardMax, lower, runs[i]))
    && (forall i :: 0 <= i < |runs| - 1 ==> CutNeeded(sentences, hardMax, runs[i], runs[i + 1]))
    && (if runs == [] then end == 0 else runs[0].Begin() == 0 && runs[|runs| - 1].End() == end)
  }

  /** The cut between what is finished and the run `r` was needed. */
  predicate CanFollow(sentences: seq<string>, hardMax: nat, runs: seq<Run>, r: Run) {
    if runs == [] then r.Begin() == 0 else CutNeeded(sentences, hardMax, runs[|runs| - 1], r)
  }

  lemma ExplainedSnoc(sentences: seq<string>, hardMax: nat, lower: nat, pieces: seq<string>, runs: seq<Run>, end: nat,
                      r: Run)
    requires Explained(sentences, hardMax, lower, pieces, runs, end)
    requires RunIsRight(sentences, hardMax, lower, r) && CanFollow(sentences, hardMax, runs, r)
    ensures Explained(sentences, hardMax, lower, pieces + PiecesOf(sentences, r), runs + [r], r.End())
  {
    hide RunIsRight, CutNeeded, PiecesOf;
    var more := runs + [r];
    assert more[..|runs|] == runs;
    forall i | 0 <= i < |more| - 1
      ensures CutNeeded(sentences, hardMax, more[i], more[i + 1])
    {
      if i < |runs| - 1 {
        assert CutNeeded(sentences, hardMax, runs[i], runs[i + 1]);
      }
    }
  }

  lemma {:induction false} NonBlankPrefix(parts: seq<string>, i: nat)
    requires i <= |parts|
    ensures NonBlank(parts[..i]) <= NonBlank(parts)
    decreases |parts|
  {
    if i == |parts| {
      assert parts[..i] == parts;
    } else {
      NonBlankPrefix(parts[..|parts| - 1], i);
      assert parts[..|parts| - 1][..i] == parts[..i];
    }
  }

  /** Reading one more sentence either adds nothing or adds that sentence, stripped. */
  lemma NonBlankStep(parts: seq<string>, i: nat, j: nat)
    requires i < |parts| && j <= |NonBlank(parts)| && NonBlank(parts)[..j] == NonBlank(parts[..i])
    ensures Strip(parts[i]) == "" ==> NonBlank(parts)[..j] == NonBlank(parts[..i + 1])
    ensures Strip(parts[i]) != "" ==>
              && j < |NonBlank(parts)| && NonBlank(parts)[j] == Strip(parts[i])
              && NonBlank(parts)[..j + 1] == NonBlank(parts[..i + 1])
  {
    assert parts[..i + 1][..i] == parts[..i];
    NonBlankPrefix(parts, i + 1);
  }

  /** The finished pieces hold exactly the words of the first `end` sentences. */
  ghost predicate Finished(sentences: seq<string>, hardMax: nat, lower: nat, pieces: seq<string>, runs: seq<Run>,
                           end: nat)
  {
    && end <= |sentences|
    && WordsOf(pieces) == WordsOf(sentences[..end])
    && (forall i :: 0 <= i < |pieces| ==> 1 <= |Words(pieces[i])| <= hardMax)
    && Explained(sentences, hardMax, lower, pieces, runs, end)
  }

  /** Sentences `start..j` wait in `current`; a run that starts with them may follow the finished ones. */
  ghost predicate Packing(sentences: seq<string>, hardMax: nat, lower: nat, pieces: seq<string>, runs: seq<Run>,
                          current: seq<string>, start: nat, j: nat)
  {
    && start <= j <= |sentences|
    && current == sentences[start..j]
    && |WordsOf(current)| <= hardMax
    && (current != [] ==> 1 <= |WordsOf(current)|)
    && Finished(sentences, hardMax, lower, pieces, runs, start)
    && (current != [] ==> CanFollow(sentences, hardMax, runs, Packed(start, start + 1)))
    && (current == [] && runs != [] ==> runs[|runs| - 1].Divided?)
  }

  /** A run more, with the words of the next sentences. */
  lemma FinishRun(sentences: seq<string>, hardMax: nat, lower: nat, pieces: seq<string>, runs: seq<Run>, start: nat,
                  r: Run)
    requires Finished(sentences, hardMax, lower, pieces, runs, start)
    requires RunIsRight(sentences, hardMax, lower, r) && CanFollow(sentences, hardMax, runs, r)
    requires start == r.Begin() <= r.End() <= |sentences|
    requires WordsOf(PiecesOf(sentences, r)) == WordsOf(sentences[start..r.End()])
    requires forall i :: 0 <= i < |PiecesOf(sentences, r)| ==> 1 <= |Words(PiecesOf(sentences, r)[i])| <= hardMax
    ensures Finished(sentences, hardMax, lower, pieces + PiecesOf(sentences, r), runs + [r], r.End())
  {
    hide Words, Explained, PiecesOf, WordsOf, RunIsRight, CanFollow;
    WordsOfConcat(pieces, PiecesOf(sentences, r));
    WordsOfConcat(sentences[..start], sentences[start..r.End()]);
    assert sentences[..start] + sentences[start..r.End()] == sentences[..r.End()];
    ExplainedSnoc(sentences, hardMax, lower, pieces, runs, start, r);
  }

  /** Closing the piece that holds sentences `start..j`. */
  lemma ClosePiece(sentences: seq<string>, hardMax: nat, lower: nat, pieces: seq<string>, runs: seq<Run>,
                   current: seq<string>, start: nat, j: nat)
    requires Packing(sentences, hardMax, lower, pieces, runs, current, start, j) && current != []
    ensures Finished(sentences, hardMax, lower, pieces + [Join(current, " ")], runs + [Packed(start, j)], j)
  {
    hide Words, Explained, Join, WordsOf, CutNeeded;
    var piece := Join(current, " ");
    JoinWords(current, " ");
    WordsOfSingle(piece);
    SameBeginning(sentences, hardMax, runs, start, j);
    FinishRun(sentences, hardMax, lower, pieces, runs, start, Packed(start, j));
  }

  lemma SameBeginning(sentences: seq<string>, hardMax: nat, runs: seq<Run>, start: nat, j: nat)
    requires CanFollow(sentences, hardMax, runs, Packed(start, start + 1))
    ensures CanFollow(sentences, hardMax, runs, Packed(start, j))
  {
    hide Words, WordsOf;
  }

  /** A sentence that fits joins the ones that wait. */
  lemma AddSentence(sentences: seq<string>, hardMax: nat, lower: nat, pieces: seq<string>, runs: seq<Run>,
                    current: seq<string>, start: nat, j: nat)
    requires Packing(sentences, hardMax, lower, pieces, runs, current, start, j)
    requires j < |sentences| && 1 <= |Words(sentences[j])| <= hardMax - |WordsOf(current)|
    ensures WordsOf(current + [sentences[j]]) == WordsOf(current) + Words(sentences[j])
    ensures Packing(sentences, hardMax, lower, pieces, runs, current + [sentences[j]], start, j + 1)
  {
    hide Words, WordsOf, RunIsRight, PiecesOfRuns;
    WordsOfSnoc(current, sentences[j]);
    assert current + [sentences[j]] == sentences[start..j + 1];
  }

  /** A sentence that no longer fits behind the piece just closed begins the next one. */
  lemma StartPiece(sentences: seq<string>, hardMax: nat, lower: nat, pieces: seq<string>, runs: seq<Run>, start: nat,
                   j: nat)
    requires Finished(sentences, hardMax, lower, pieces, runs, j) && runs != [] && runs[|runs| - 1] == Packed(start, j)
    requires start <= j < |sentences| && 1 <= |Words(sentences[j])| <= hardMax
    requires |WordsOf(sentences[start..j])| + |Words(sentences[j])| > hardMax
    ensures Packing(sentences, hardMax, lower, pieces, runs, [sentences[j]], j, j + 1)
  {
    hide Words, WordsOf, RunIsRight, PiecesOfRuns;
    WordsOfSingle(sentences[j]);
    assert [sentences[j]] == sentences[j..j + 1];
  }

  /** The parts of a sentence that is over the limit become pieces of their own. */
  lemma AddDivided(sentences: seq<string>, hardMax: nat, lower: nat, pieces: seq<string>, runs: seq<Run>, j: nat,
                   parts: seq<string>)
    requires Finished(sentences, hardMax, lower, pieces, runs, j)
    requires j < |sentences| && |Words(sentences[j])| > hardMax && SplitInto(sentences[j], hardMax, lower, parts)
    ensures Packing(sentences, hardMax, lower, pieces + parts, runs + [Divided(j, parts)], [], j + 1, j + 1)
  {
    hide Words, WordsOf, PiecesOfRuns, IsCutUp;
    WordsOfSingle(sentences[j]);
    assert sentences[j..j + 1] == [sentences[j]];
    FinishRun(sentences, hardMax, lower, pieces, runs, j, Divided(j, parts));
    NothingWaits(sentences, hardMax, lower, pieces + parts, runs + [Divided(j, parts)], j + 1);
  }

  lemma NothingRead(sentences: seq<string>, hardMax: nat, lower: nat)
    ensures Packing(sentences, hardMax, lower, [], [], [], 0, 0)
  {
    assert sentences[..0] == [];
    assert sentences[0..0] == [];
  }

  lemma AllFinished(sentences: seq<string>, hardMax: nat, lower: nat, pieces: seq<string>, runs: seq<Run>, end: nat)
    requires Finished(sentences, hardMax, lower, pieces, runs, end) && end == |sentences|
    ensures WordsOf(pieces) == WordsOf(sentences)
    ensures forall i :: 0 <= i < |pieces| ==> 1 <= |Words(pieces[i])| <= hardMax
    ensures Explained(sentences, hardMax, lower, pieces, runs, |sentences|)
  {
    assert sentences[..end] == sentences;
  }

  lemma WhatWaitsIsFinished(sentences: seq<string>, hardMax: nat, lower: nat, pieces: seq<string>, runs: seq<Run>,
                            start: nat, j: nat)
    requires Packing(sentences, hardMax, lower, pieces, runs, [], start, j)
    ensures Finished(sentences, hardMax, lower, pieces, runs, j)
  {
    hide Explained;
  }

  lemma NothingWaits(sentences: seq<string>, hardMax: nat, lower: nat, pieces: seq<string>, runs: seq<Run>, j: nat)
    requires Finished(sentences, hardMax, lower, pieces, runs, j)
    requires runs != [] ==> runs[|runs| - 1].Divided?
    ensures Packing(sentences, hardMax, lower, pieces, runs, [], j, j)
  {
    hide Explained;
    WordsOfEmpty();
  }

  lemma WordsOfEmpty()
    ensures WordsOf([]) == []
  {
  }

  /** The pieces a text is split into. A text within the limit is one piece. Otherwise no word is cut, lost
      or moved, every piece is within the limit, and every cut is explained by the sentences. */
  ghost predicate HardParts(text: string, hardMax: nat, lower: nat, pieces: seq<string>) {
    && WordsOf(pieces) == Words(text)
    && (forall i :: 0 <= i < |pieces| ==> 1 <= |Words(pieces[i])| <= hardMax)
    && (if |Words(text)| <= hardMax then pieces == if Words(text) == [] then [] else [Strip(text)]
        else exists runs :: Explained(CleanSentences(text), hardMax, lower, pieces, runs, |CleanSentences(text)|))
  }

  /** Splits a text into pieces of at most `hardMax` words. */
  method HardSplitText(text: string, hardMax: nat, lower: nat) returns (pieces: seq<string>)
    requires 1 <= lower <= hardMax
    ensures HardParts(text, hardMax, lower, pieces)
  {
    hide Words, Strip, Explained, Sentences, NonBlank;
    StripWords(text);
    if |Words(text)| <= hardMax {
      WithinLimit(text, hardMax, lower);
      pieces := if Strip(text) != "" then [Strip(text)] else [];
      return;
    }
    ghost var runs;
    pieces, runs := PackSentences(Sentences(text, 0, 0), hardMax, lower);
    SentencesKeepWords(text, 0, 0);
    assert text[0..] == text;
    assert Explained(CleanSentences(text), hardMax, lower, pieces, runs, |CleanSentences(text)|);
  }

  lemma WithinLimit(text: string, hardMax: nat, lower: nat)
    requires |Words(text)| <= hardMax
    ensures HardParts(text, hardMax, lower, if Strip(text) != "" then [Strip(text)] else [])
  {
    hide Words, Strip, Explained;
    StripWords(text);
    WordsOfSingle(Strip(text));
    WordsOfEmpty();
  }

  /** The loop over the sentences of a text that is over the limit. */
  method PackSentences(sentences: seq<string>, hardMax: nat, lower: nat)
    returns (pieces: seq<string>, ghost runs: seq<Run>)
    requires 1 <= lower <= hardMax
    ensures WordsOf(pieces) == WordsOf(sentences)
    ensures forall i :: 0 <= i < |pieces| ==> 1 <= |Words(pieces[i])| <= hardMax
    ensures Explained(NonBlank(sentences), hardMax, lower, pieces, runs, |NonBlank(sentences)|)
  {
    hide Strip, Words, Packing, Finished, Explained, SplitInto;
    ghost var clean := NonBlank(sentences);
    NonBlankKeepsWords(sentences);
    runs := [];
    pieces := [];
    var current: seq<string> := [];
    var currentWords := 0;
    ghost var start, j := 0, 0;
    NothingRead(clean, hardMax, lower);
    for i := 0 to |sentences|
      invariant j <= |clean| && clean[..j] == NonBlank(sentences[..i])
      invariant currentWords == |WordsOf(current)|
      invariant Packing(clean, hardMax, lower, pieces, runs, current, start, j)
    {
      NonBlankStep(sentences, i, j);
      var sentence := Strip(sentences[i]);
      StripWords(sentences[i]);
      if sentence == "" {
        continue;
      }
      StrippedHasWords(sentence);
      var sentenceWords := |Words(sentence)|;
      if sentenceWords > hardMax {
        if current != [] {
          ClosePiece(clean, hardMax, lower, pieces, runs, current, start, j);
          pieces, runs := pieces + [Join(current, " ")], runs + [Packed(start, j)];
          current, currentWords := [], 0;
        } else {
          WhatWaitsIsFinished(clean, hardMax, lower, pieces, runs, start, j);
        }
        var parts := SplitOversizedSentence(sentence, hardMax, lower);
        AddDivided(clean, hardMax, lower, pieces, runs, j, parts);
        pieces, runs := pieces + parts, runs + [Divided(j, parts)];
        start := j + 1;
      } else if currentWords + sentenceWords > hardMax && current != [] {
        ClosePiece(clean, hardMax, lower, pieces, runs, current, start, j);
        WhatWaits(clean, hardMax, lower, pieces, runs, current, start, j);
        pieces, runs := pieces + [Join(current, " ")], runs + [Packed(start, j)];
        StartPiece(clean, hardMax, lower, pieces, runs, start, j);
        WordsOfSingle(sentence);
        current, currentWords, start := [sentence], sentenceWords, j;
      } else {
        AddSentence(clean, hardMax, lower, pieces, runs, current, start, j);
        current, currentWords := current + [sentence], currentWords + sentenceWords;
      }
      j := j + 1;
    }
    assert sentences[..|sentences|] == sentences;
    if current != [] {
      ClosePiece(clean, hardMax, lower, pieces, runs, current, start, j);
      pieces, runs := pieces + [Join(current, " ")], runs + [Packed(start, j)];
    } else {
      WhatWaitsIsFinished(clean, hardMax, lower, pieces, runs, start, j);
    }
    AllFinished(clean, hardMax, lower, pieces, runs, j);
  }

  lemma WhatWaits(sentences: seq<string>, hardMax: nat, lower: nat, pieces: seq<string>, runs: seq<Run>,
                  current: seq<string>, start: nat, j: nat)
    requires Packing(sentences, hardMax, lower, pieces, runs, current, start, j)
    ensures start <= j <= |sentences| && current == sentences[start..j]
  {
    hide Finished;
  }

  lemma StrippedHasWords(s: string)
    requires Stripped(s) && s != ""
    ensures |Words(s)| >= 1
  {
    BlankHasNoWords(s);
  }

  // ----- where sentences end

  /** At `p` a sentence end stands before white space. */
  ghost predicate BreaksAt(s: string, p: int) {
    0 < p < |s| && s[p - 1] in ['.', '!', '?', '\U{61F}', '\U{964}', '\U{3002}'] && IsSpace(s[p])
  }

  lemma BreaksAtEnds(s: string, p: nat)
    ensures SentenceBreak(s, p) <==> BreaksAt(s, p)
  {
  }

  /** The parts are the stretches of the text from `from` to its end that `bounds` names, one after the other:
      between two there is a whole run of white space, which follows a sentence end, and inside of a part no
      sentence end is followed by white space. */
  ghost predicate AreSentences(s: string, from: nat, parts: seq<string>, bounds: seq<Span>) {
    && |parts| == |bounds| > 0 && bounds[0].start == from && bounds[|bounds| - 1].end == |s|
    && (forall m :: 0 <= m < |bounds| ==> IsStretch(s, parts[m], bounds[m]))
    && (forall m, n :: 0 <= m && n == m + 1 && n < |bounds| ==> IsGap(s, bounds[m].end, bounds[n].start))
  }

  ghost predicate IsStretch(s: string, part: string, b: Span) {
    && b.start <= b.end <= |s| && part == s[b.start..b.end]
    && forall p :: b.start < p < b.end ==> !BreaksAt(s, p)
  }

  /** The white space from `i` to `e` follows a sentence end and cannot be extended. */
  ghost predicate IsGap(s: string, i: nat, e: nat) {
    && BreaksAt(s, i) && i < e <= |s|
    && (forall p :: i <= p < e ==> IsSpace(s[p]))
    && (e == |s| || !IsSpace(s[e]))
  }

  lemma {:induction false} SpaceEndIsLast(s: string, i: nat)
    requires i <= |s|
    ensures SpaceEnd(s, i) == |s| || !IsSpace(s[SpaceEnd(s, i)])
    decreases |s| - i
  {
    if i < |s| && IsSpace(s[i]) {
      SpaceEndIsLast(s, i + 1);
    }
  }

  lemma {:induction false} SentencesTell(s: string, from: nat, i: nat) returns (bounds: seq<Span>)
    requires from <= i <= |s| && forall p :: from < p < i ==> !BreaksAt(s, p)
    requires i == from ==> from == 0 || !BreaksAt(s, from)
    ensures AreSentences(s, from, Sentences(s, from, i), bounds)
    decreases |s| - i
  {
    hide IsSentenceEnd, IsSpace, BreaksAt;
    if i == |s| {
      bounds := [Span(from, |s|)];
    } else {
      BreaksAtEnds(s, i);
      if SentenceBreak(s, i) {
        var e := SpaceEnd(s, i);
        SpaceEndIsLast(s, i);
        BreakIsSpace(s, i);
        NoBreakAfterSpace(s, e);
        var rest := SentencesTell(s, e, e);
        bounds := [Span(from, i)] + rest;
        FirstSentence(s, from, i, e, Sentences(s, e, e), rest);
      } else {
        bounds := SentencesTell(s, from, i + 1);
      }
    }
  }

  lemma BreakIsSpace(s: string, i: nat)
    requires SentenceBreak(s, i)
    ensures 0 < i < |s| && IsSpace(s[i])
  {
  }

  lemma NoBreakAfterSpace(s: string, e: nat)
    requires 0 < e <= |s| && IsSpace(s[e - 1])
    ensures !BreaksAt(s, e)
  {
  }

  lemma FirstSentence(s: string, from: nat, i: nat, e: nat, parts: seq<string>, rest: seq<Span>)
    requires from <= i < e <= |s| && IsGap(s, i, e) && AreSentences(s, e, parts, rest)
    requires forall p :: from < p < i ==> !BreaksAt(s, p)
    ensures AreSentences(s, from, [s[from..i]] + parts, [Span(from, i)] + rest)
  {
    hide IsGap, BreaksAt;
    var all, bounds := [s[from..i]] + parts, [Span(from, i)] + rest;
    forall m | 0 <= m < |bounds|
      ensures IsStretch(s, all[m], bounds[m])
    {
      if m > 0 {
        assert IsStretch(s, parts[m - 1], rest[m - 1]);
      }
    }
    forall m, n | 0 <= m && n == m + 1 && n < |bounds|
      ensures IsGap(s, bounds[m].end, bounds[n].start)
    {
      if m > 0 {
        assert IsGap(s, rest[m - 1].end, rest[n - 1].start);
      }
    }
  }

  /** The sentences of a text are its stretches between the runs of white space after sentence ends. */
  lemma SentencesOfText(s: string) returns (bounds: seq<Span>)
    ensures AreSentences(s, 0, Sentences(s, 0, 0), bounds)
  {
    bounds := SentencesTell(s, 0, 0);
  }

  /** Clean sentence number `a` is a sentence that is not blank, stripped, and they keep their order. */
  lemma {:induction false} NonBlankComesFrom(parts: seq<string>, a: nat) returns (i: nat)
    requires a < |NonBlank(parts)|
    ensures i < |parts| && Words(parts[i]) != [] && NonBlank(parts)[a] == Strip(parts[i])
    ensures a == |NonBlank(parts[..i])|
    decreases |parts|
  {
    hide Strip, Words;
    var init, last := parts[..|parts| - 1], parts[|parts| - 1];
    if a < |NonBlank(init)| {
      i := NonBlankComesFrom(init, a);
      assert init[..i] == parts[..i];
    } else {
      i := |parts| - 1;
      StripWords(last);
    }
  }

  lemma {:induction false} NonBlankIsThere(parts: seq<string>, i: nat)
    requires i < |parts| && Words(parts[i]) != []
    ensures |NonBlank(parts[..i])| < |NonBlank(parts)| && NonBlank(parts)[|NonBlank(parts[..i])|] == Strip(parts[i])
    decreases |parts|
  {
    hide Strip, Words;
    var init, last := parts[..|parts| - 1], parts[|parts| - 1];
    if i < |init| {
      NonBlankIsThere(init, i);
      assert init[..i] == parts[..i];
    } else {
      StripWords(last);
      EmptyHasNoWords();
    }
  }

  lemma EmptyHasNoWords()
    ensures Words("") == []
  {
  }

  // ----- where a long sentence may be cut

  ghost predicate IsSoft(c: char) {
    c in ['.', '!', '?', '\U{61F}', '\U{964}', '\U{3002}', ',', ';', ':']
  }

  /** White space begins at `a`, not with a line break, right after a soft boundary, and reaches up to `b`. */
  ghost predicate SoftGap(s: string, a: int, b: int) {
    && 0 < a < b <= |s| && IsSoft(s[a - 1]) && s[a] != '\n'
    && forall p :: a <= p < b ==> IsSpace(s[p])
  }

  /** The white space after a soft boundary ends at `e`. */
  ghost predicate EndsSoftGap(s: string, e: int) {
    && (exists a :: SoftGap(s, a, e))
    && (e == |s| || (0 <= e < |s| && !IsSpace(s[e])))
  }

  /** A whole run of line breaks from `b` ends at `e`, and it is not part of the white space after a soft
      boundary. */
  ghost predicate BreakRun(s: string, b: int, e: int) {
    && 0 <= b < e <= |s| && (forall p :: b <= p < e ==> s[p] == '\n')
    && (b == 0 || s[b - 1] != '\n') && (e == |s| || s[e] != '\n')
    && forall a :: !SoftGap(s, a, b)
  }

  ghost predicate IsBoundary(s: string, e: int) {
    EndsSoftGap(s, e) || exists b :: BreakRun(s, b, e)
  }

  /** No run of line breaks and no soft gap goes across `i`. */
  ghost predicate NothingAcross(s: string, i: nat) {
    && i <= |s|
    && !(0 < i < |s| && s[i - 1] == '\n' && s[i] == '\n')
    && (i < |s| && IsSpace(s[i]) ==> forall a :: !SoftGap(s, a, i))
  }

  lemma {:induction false} NewlineEndIsLast(s: string, i: nat)
    requires i <= |s|
    ensures NewlineEnd(s, i) == |s| || s[NewlineEnd(s, i)] != '\n'
    decreases |s| - i
  {
    if i < |s| && s[i] == '\n' {
      NewlineEndIsLast(s, i + 1);
    }
  }

  lemma AtLineBreak(s: string, i: nat, j: nat, e: int)
    requires NothingAcross(s, i) && i < j <= |s| && (forall p :: i <= p < j ==> s[p] == '\n')
    requires j == |s| || s[j] != '\n'
    ensures i < e <= j ==> (IsBoundary(s, e) <==> e == j)
    ensures NothingAcross(s, j)
  {
    if i < e < j {
      assert s[e] == '\n' && IsSpace(s[e]);
      assert forall b :: !BreakRun(s, b, e);
    }
    assert s[i] == '\n' && IsSpace(s[i]);
    assert BreakRun(s, i, j);
    forall a
      ensures !SoftGap(s, a, j)
    {
      if SoftGap(s, a, j) {
        if a < i {
          assert SoftGap(s, a, i);
        }
      }
    }
  }

  lemma AtSoftBoundary(s: string, i: nat, j: nat, e: int)
    requires 0 < i < j <= |s| && IsSoft(s[i - 1]) && s[i] != '\n' && (forall p :: i <= p < j ==> IsSpace(s[p]))
    requires j == |s| || !IsSpace(s[j])
    ensures i < e <= j ==> (IsBoundary(s, e) <==> e == j)
    ensures NothingAcross(s, j)
  {
    assert SoftGap(s, i, j);
    if i < e < j {
      assert IsSpace(s[e]);
      forall b
        ensures !BreakRun(s, b, e)
      {
        if BreakRun(s, b, e) {
          if b > i {
            assert SoftGap(s, i, b);
          }
        }
      }
    }
  }

  lemma AtOther(s: string, i: nat)
    requires NothingAcross(s, i) && i < |s| && s[i] != '\n' && !(i > 0 && IsSoft(s[i - 1]) && IsSpace(s[i]))
    ensures !IsBoundary(s, i + 1) && NothingAcross(s, i + 1)
  {
    var e := i + 1;
    forall a
      ensures !SoftGap(s, a, e)
    {
      if SoftGap(s, a, e) {
        assert IsSpace(s[i]);
        if a < i {
          assert SoftGap(s, a, i);
        }
      }
    }
    forall b
      ensures !BreakRun(s, b, e)
    {
    }
  }

  lemma SoftBoundaryIsSoft(c: char)
    ensures IsSoftBoundary(c) <==> IsSoft(c)
  {
  }

  /** The places where a long sentence may be cut are exactly the ends of the white space after a soft boundary
      and of the other runs of line breaks. */
  lemma {:induction false} BoundaryEndsTell(s: string, i: nat, e: nat)
    requires NothingAcross(s, i)
    ensures e in BoundaryEnds(s, i) <==> i < e <= |s| && IsBoundary(s, e)
    decreases |s| - i
  {
    hide IsSpace, IsSoftBoundary, IsSoft, IsBoundary, NothingAcross;
    InsideText(s, i);
    if i < |s| {
      if i > 0 {
        SoftBoundaryIsSoft(s[i - 1]);
      }
      if s[i] == '\n' {
        var j := NewlineEnd(s, i);
        NewlineEndIsLast(s, i);
        AtLineBreak(s, i, j, e);
        BoundaryEndsTell(s, j, e);
      } else if i > 0 && IsSoftBoundary(s[i - 1]) && IsSpace(s[i]) {
        var j := SpaceEnd(s, i);
        SpaceEndIsLast(s, i);
        AtSoftBoundary(s, i, j, e);
        BoundaryEndsTell(s, j, e);
      } else {
        AtOther(s, i);
        BoundaryEndsTell(s, i + 1, e);
      }
    }
  }

  lemma InsideText(s: string, i: nat)
    requires NothingAcross(s, i)
    ensures i <= |s|
  {
  }

  lemma BoundariesOfText(s: string, e: nat)
    ensures e in BoundaryEnds(s, 0) <==> 0 < e <= |s| && IsBoundary(s, e)
  {
    assert NothingAcross(s, 0) by {
      forall a
        ensures !SoftGap(s, a, 0)
      {
      }
    }
    BoundaryEndsTell(s, 0, e);
  }

  lemma WordBeforePlace(s: string, e: nat, k: nat)
    requires 0 < e <= |s| && IsSpace(s[e - 1]) && k < |Spans(s)|
    ensures |Spans(s)| >= |Spans(s[..e])|
    ensures k < |Spans(s[..e])| ==> Spans(s)[k].end < e
    ensures k >= |Spans(s[..e])| ==> e < Spans(s)[k].end
  {
    hide SpansTo;
    var left, right := s[..e], s[e..];
    assert s == left + right && left[|left| - 1] == s[e - 1];
    SpansConcat(left, right);
    SpansAreMaximalRuns(left, |left|);
    SpansAreMaximalRuns(right, |right|);
    if k < |Spans(left)| {
      assert MaximalRun(left, |left|, Spans(left)[k]);
      assert !IsSpace(left[Spans(left)[k].end - 1]);
    } else {
      assert MaximalRun(right, |right|, Spans(right)[k - |Spans(left)|]);
    }
  }

  /** A place after white space is in the window exactly when it leaves at least `lower` words in front of it,
      and fewer than `hardMax`. */
  lemma WindowByWords(s: string, hardMax: nat, lower: nat, e: nat)
    requires 1 <= lower <= hardMax < |Words(s)|
    requires 0 < e <= |s| && IsSpace(s[e - 1])
    ensures |Spans(s)| == |Words(s)|
    ensures InWindow(s, hardMax, lower, e) <==> lower <= |Words(s[..e])| < hardMax
  {
    hide Spans;
    WordCount(s);
    WordCount(s[..e]);
    WordBeforePlace(s, e, lower - 1);
    WordBeforePlace(s, e, hardMax - 1);
  }
}
