/**
 Text as the chunk splitter sees it: characters, white space, words and the places
 words occupy. `Words` is Python's `str.split()`, `Spans` the matches of `\S+`, `Strip`
 is `str.strip()` and `Join` is `sep.join(parts)`.
 */
module Text {

  /** The characters `str.isspace()` accepts. */
  predicate IsSpace(c: char) {
    || '\U{9}' <= c <= '\U{D}'
    || '\U{1C}' <= c <= '\U{20}'
    || c in {'\U{85}', '\U{A0}', '\U{1680}', '\U{2028}', '\U{2029}', '\U{202F}', '\U{205F}', '\U{3000}'}
    || '\U{2000}' <= c <= '\U{200A}'
  }

  /** The white space of Python's `str.isspace`, one by one. */
  lemma SpacesTell(c: char)
    ensures IsSpace(c) <==>
              c as int in {0x9, 0xA, 0xB, 0xC, 0xD, 0x1C, 0x1D, 0x1E, 0x1F, 0x20, 0x85, 0xA0, 0x1680, 0x2000, 0x2001,
                           0x2002, 0x2003, 0x2004, 0x2005, 0x2006, 0x2007, 0x2008, 0x2009, 0x200A, 0x2028, 0x2029,
                           0x202F, 0x205F, 0x3000}
  {
  }

  predicate Blank(s: string) {
    forall i :: 0 <= i < |s| ==> IsSpace(s[i])
  }

  /** A maximal run of non-space characters, cut out of its text. */
  predicate IsWord(w: string) {
    w != "" && forall i :: 0 <= i < |w| ==> !IsSpace(w[i])
  }

  /** The length of the longest prefix of white space. */
  function SpaceLen(s: string): (n: nat)
    ensures n <= |s|
  {
    if s == "" || !IsSpace(s[0]) then 0 else 1 + SpaceLen(s[1..])
  }

  /** Where one word stands: from `start` up to, not including, `end`. */
  datatype Span = Span(start: nat, end: nat)

  /** The matches of `\S+` in the first `n` characters, in order: reading a character more either
      leaves the words as they are, begins a word, or makes the last one longer. */
  function SpansTo(s: string, n: nat): seq<Span>
    requires n <= |s|
  {
    if n == 0 then []
    else if IsSpace(s[n - 1]) then SpansTo(s, n - 1)
    else Grow(SpansTo(s, n - 1), n == 1 || IsSpace(s[n - 2]), n - 1)
  }

  /** One more non-space character at place `p`: a word of its own, or the end of the last word. */
  function Grow(r: seq<Span>, newWord: bool, p: nat): seq<Span> {
    if newWord || r == [] then r + [Span(p, p + 1)] else r[|r| - 1 := Span(r[|r| - 1].start, p + 1)]
  }

  function Spans(s: string): seq<Span> {
    SpansTo(s, |s|)
  }

  /** The part of the text that a span covers. */
  function Cut(s: string, w: Span): string {
    if w.start <= w.end <= |s| then s[w.start..w.end] else ""
  }

  function Cuts(s: string, r: seq<Span>): (ws: seq<string>)
    ensures |ws| == |r|
    ensures forall k :: 0 <= k < |r| ==> ws[k] == Cut(s, r[k])
  {
    seq(|r|, k requires 0 <= k < |r| => Cut(s, r[k]))
  }

  function Words(s: string): seq<string> {
    Cuts(s, Spans(s))
  }

  lemma WordCount(s: string)
    ensures |Words(s)| == |Spans(s)|
  {
  }

  function Shift(r: seq<Span>, offset: nat): (q: seq<Span>)
    ensures |q| == |r|
    ensures forall k :: 0 <= k < |q| ==> q[k] == Span(r[k].start + offset, r[k].end + offset)
  {
    seq(|r|, k requires 0 <= k < |r| => Span(r[k].start + offset, r[k].end + offset))
  }

  function LStrip(s: string): string {
    s[SpaceLen(s)..]
  }

  function RStrip(s: string): string {
    if s == "" || !IsSpace(s[|s| - 1]) then s else RStrip(s[..|s| - 1])
  }

  function Strip(s: string): string {
    RStrip(LStrip(s))
  }

  /** True of what `Strip` returns: no white space at either end. */
  predicate Stripped(s: string) {
    s == "" || (!IsSpace(s[0]) && !IsSpace(s[|s| - 1]))
  }

  function Join(parts: seq<string>, sep: string): string {
    if |parts| == 0 then "" else if |parts| == 1 then parts[0] else parts[0] + sep + Join(parts[1..], sep)
  }

  /** The words of all parts, one part after the other. */
  function WordsOf(parts: seq<string>): seq<string> {
    if parts == [] then [] else Words(parts[0]) + WordsOf(parts[1..])
  }

  /** No word of `a + b` runs across the seam between the two. */
  predicate Seam(a: string, b: string) {
    a == "" || b == "" || IsSpace(a[|a| - 1]) || IsSpace(b[0])
  }

  /** `w` is a run of non-space characters in the first `n` that nothing makes longer. */
  predicate MaximalRun(s: string, n: nat, w: Span)
    requires n <= |s|
  {
    && w.start < w.end <= n
    && (forall p :: w.start <= p < w.end ==> !IsSpace(s[p]))
    && (w.start == 0 || IsSpace(s[w.start - 1]))
    && (w.end == n || IsSpace(s[w.end]))
  }

  /** `r` holds maximal runs from left to right, and the last one reaches a word that ends at `n`. */
  predicate MaximalRuns(s: string, n: nat, r: seq<Span>)
    requires n <= |s|
  {
    && (forall k :: 0 <= k < |r| ==> MaximalRun(s, n, r[k]))
    && (forall j, k :: 0 <= j < k < |r| ==> r[j].end < r[k].start)
    && (n > 0 && !IsSpace(s[n - 1]) ==> r != [] && r[|r| - 1].end == n)
  }

  /** `Spans` finds maximal runs of non-space characters only, from left to right. */
  lemma {:induction false} SpansAreMaximalRuns(s: string, n: nat)
    requires n <= |s|
    ensures MaximalRuns(s, n, SpansTo(s, n))
    decreases n
  {
    if n > 0 {
      SpansAreMaximalRuns(s, n - 1);
      var r := SpansTo(s, n - 1);
      if IsSpace(s[n - 1]) {
        RunsAfterSpace(s, n, r);
      } else if n == 1 || IsSpace(s[n - 2]) {
        RunsAfterNewWord(s, n, r);
      } else {
        RunsAfterLongerWord(s, n, r);
      }
    }
  }

  lemma RunsAfterSpace(s: string, n: nat, r: seq<Span>)
    requires 0 < n <= |s| && MaximalRuns(s, n - 1, r)
    requires IsSpace(s[n - 1])
    ensures MaximalRuns(s, n, r)
  {
    forall k | 0 <= k < |r|
      ensures MaximalRun(s, n, r[k])
    {
      assert MaximalRun(s, n - 1, r[k]);
    }
  }

  lemma RunsAfterNewWord(s: string, n: nat, r: seq<Span>)
    requires 0 < n <= |s| && MaximalRuns(s, n - 1, r)
    requires !IsSpace(s[n - 1]) && (n == 1 || IsSpace(s[n - 2]))
    ensures MaximalRuns(s, n, r + [Span(n - 1, n)])
  {
    var q := r + [Span(n - 1, n)];
    forall k | 0 <= k < |q|
      ensures MaximalRun(s, n, q[k])
      ensures k < |r| ==> q[k].end < n - 1
    {
      if k < |r| {
        assert MaximalRun(s, n - 1, r[k]);
      }
    }
  }

  lemma RunsAfterLongerWord(s: string, n: nat, r: seq<Span>)
    requires 1 < n <= |s| && MaximalRuns(s, n - 1, r)
    requires !IsSpace(s[n - 1]) && !IsSpace(s[n - 2])
    ensures r != [] && MaximalRuns(s, n, r[|r| - 1 := Span(r[|r| - 1].start, n)])
  {
    var q := r[|r| - 1 := Span(r[|r| - 1].start, n)];
    forall k | 0 <= k < |q|
      ensures MaximalRun(s, n, q[k])
    {
      assert MaximalRun(s, n - 1, r[k]);
    }
  }

  lemma SpanEndsIncrease(s: string, i: nat, j: nat)
    requires i <= j < |Spans(s)|
    ensures Spans(s)[i].end <= Spans(s)[j].end
  {
    SpansAreMaximalRuns(s, |s|);
    assert MaximalRun(s, |s|, Spans(s)[j]);
  }

  /** Every non-space character belongs to a word. */
  lemma {:induction false} SpanAt(s: string, n: nat, p: nat) returns (k: nat)
    requires p < n <= |s| && !IsSpace(s[p])
    ensures k < |SpansTo(s, n)| && SpansTo(s, n)[k].start <= p < SpansTo(s, n)[k].end
    decreases n
  {
    SpansAreMaximalRuns(s, n);
    if p == n - 1 {
      k := |SpansTo(s, n)| - 1;
    } else {
      k := SpanAt(s, n - 1, p);
      SpansAreMaximalRuns(s, n - 1);
    }
  }

  lemma WordsAreWords(s: string)
    ensures forall w :: w in Words(s) ==> IsWord(w)
  {
    SpansAreMaximalRuns(s, |s|);
    forall i | 0 <= i < |Words(s)|
      ensures IsWord(Words(s)[i])
    {
      assert MaximalRun(s, |s|, Spans(s)[i]);
    }
  }

  lemma {:induction false} SpansOfPrefix(a: string, b: string, n: nat)
    requires n <= |a|
    ensures SpansTo(a + b, n) == SpansTo(a, n)
    decreases n
  {
    if n > 0 {
      SpansOfPrefix(a, b, n - 1);
    }
  }

  /** Where no word crosses the seam, the words of `a + b` are those of `a`, then those of `b`. */
  lemma {:induction false} SpansConcatTo(a: string, b: string, m: nat)
    requires Seam(a, b) && m <= |b|
    ensures SpansTo(a + b, |a| + m) == SpansTo(a, |a|) + Shift(SpansTo(b, m), |a|)
    decreases m
  {
    if m == 0 {
      SpansOfPrefix(a, b, |a|);
    } else {
      SpansConcatTo(a, b, m - 1);
      SpansConcatStep(a, b, m, SpansTo(a, |a|), SpansTo(b, m - 1));
    }
  }

  lemma SpansConcatStep(a: string, b: string, m: nat, left: seq<Span>, right: seq<Span>)
    requires Seam(a, b) && 0 < m <= |b|
    requires right == SpansTo(b, m - 1)
    requires SpansTo(a + b, |a| + m - 1) == left + Shift(right, |a|)
    ensures SpansTo(a + b, |a| + m) == left + Shift(SpansTo(b, m), |a|)
  {
    hide SpansTo, Grow, Shift, MaximalRun, IsSpace;
    assert (a + b)[|a| + m - 1] == b[m - 1];
    SpansOneMore(a + b, |a| + m);
    SpansOneMore(b, m);
    if !IsSpace(b[m - 1]) {
      var newWord := m == 1 || IsSpace(b[m - 2]);
      BeforeSeam(a, b, m);
      if !newWord {
        SpansAreMaximalRuns(b, m - 1);
      }
      GrowShifted(left, right, newWord, m - 1, |a|);
    }
  }

  lemma SpansOneMore(s: string, n: nat)
    requires 0 < n <= |s|
    ensures SpansTo(s, n) == if IsSpace(s[n - 1]) then SpansTo(s, n - 1)
                             else Grow(SpansTo(s, n - 1), n == 1 || IsSpace(s[n - 2]), n - 1)
  {
    hide IsSpace, Grow;
  }

  lemma BeforeSeam(a: string, b: string, m: nat)
    requires Seam(a, b) && 0 < m <= |b| && !IsSpace(b[m - 1])
    ensures (|a| + m == 1 || IsSpace((a + b)[|a| + m - 2])) <==> (m == 1 || IsSpace(b[m - 2]))
  {
    if m > 1 {
      assert (a + b)[|a| + m - 2] == b[m - 2];
    } else if a != "" {
      assert (a + b)[|a| - 1] == a[|a| - 1];
    }
  }

  lemma GrowShifted(left: seq<Span>, right: seq<Span>, newWord: bool, p: nat, offset: nat)
    requires newWord || right != []
    ensures Grow(left + Shift(right, offset), newWord, p + offset) == left + Shift(Grow(right, newWord, p), offset)
  {
    if newWord {
      assert Shift(right + [Span(p, p + 1)], offset) == Shift(right, offset) + [Span(p + offset, p + offset + 1)];
    } else {
      GrowShiftedLast(left, right, p, offset);
    }
  }

  lemma GrowShiftedLast(left: seq<Span>, right: seq<Span>, p: nat, offset: nat)
    requires right != []
    ensures Grow(left + Shift(right, offset), false, p + offset) == left + Shift(Grow(right, false, p), offset)
  {
    var both := left + Shift(right, offset);
    var l, r := Grow(both, false, p + offset), left + Shift(Grow(right, false, p), offset);
    forall k | 0 <= k < |l|
      ensures l[k] == r[k]
    {
      if k == |l| - 1 {
        assert both[k] == Shift(right, offset)[|right| - 1];
      } else if k >= |left| {
        assert r[k] == Shift(Grow(right, false, p), offset)[k - |left|];
        assert l[k] == both[k] == Shift(right, offset)[k - |left|];
      }
    }
  }

  lemma SpansConcat(a: string, b: string)
    requires Seam(a, b)
    ensures Spans(a + b) == Spans(a) + Shift(Spans(b), |a|)
  {
    SpansConcatTo(a, b, |b|);
  }

  lemma WordsConcat(a: string, b: string)
    requires Seam(a, b)
    ensures Words(a + b) == Words(a) + Words(b)
  {
    SpansConcat(a, b);
    SpansAreMaximalRuns(a, |a|);
    SpansAreMaximalRuns(b, |b|);
    CutsConcat(a, b, Spans(a), Spans(b));
  }

  lemma CutsConcat(a: string, b: string, left: seq<Span>, right: seq<Span>)
    requires forall k :: 0 <= k < |left| ==> left[k].start <= left[k].end <= |a|
    requires forall k :: 0 <= k < |right| ==> right[k].start <= right[k].end <= |b|
    ensures Cuts(a + b, left + Shift(right, |a|)) == Cuts(a, left) + Cuts(b, right)
  {
    var all := left + Shift(right, |a|);
    forall k | 0 <= k < |all|
      ensures Cut(a + b, all[k]) == (Cuts(a, left) + Cuts(b, right))[k]
    {
      if k < |left| {
        assert (a + b)[left[k].start..left[k].end] == a[left[k].start..left[k].end];
      } else {
        var w := right[k - |left|];
        assert (a + b)[w.start + |a|..w.end + |a|] == b[w.start..w.end];
      }
    }
  }

  lemma BlankHasNoWords(s: string)
    ensures Blank(s) <==> Words(s) == []
  {
    if Blank(s) {
      BlankHasNoSpans(s, |s|);
    } else {
      var p :| 0 <= p < |s| && !IsSpace(s[p]);
      var k := SpanAt(s, |s|, p);
    }
  }

  lemma {:induction false} BlankHasNoSpans(s: string, n: nat)
    requires n <= |s| && Blank(s)
    ensures SpansTo(s, n) == []
    decreases n
  {
    if n > 0 {
      BlankHasNoSpans(s, n - 1);
    }
  }

  lemma {:induction false} RStripWords(s: string)
    ensures Words(RStrip(s)) == Words(s)
    ensures RStrip(s) <= s
    ensures RStrip(s) != "" ==> !IsSpace(RStrip(s)[|RStrip(s)| - 1])
    ensures Blank(s[|RStrip(s)|..])
    decreases |s|
  {
    if s != "" && IsSpace(s[|s| - 1]) {
      var init, last := s[..|s| - 1], s[|s| - 1..];
      RStripWords(init);
      assert s == init + last;
      WordsConcat(init, last);
      BlankHasNoWords(last);
    }
  }

  lemma {:induction false} SpaceLenIsMaximal(s: string)
    ensures forall i :: 0 <= i < SpaceLen(s) ==> IsSpace(s[i])
    ensures SpaceLen(s) < |s| ==> !IsSpace(s[SpaceLen(s)])
    decreases |s|
  {
    if s != "" && IsSpace(s[0]) {
      SpaceLenIsMaximal(s[1..]);
    }
  }

  lemma LStripWords(s: string)
    ensures Words(LStrip(s)) == Words(s)
  {
    SpaceLenIsMaximal(s);
    var n := SpaceLen(s);
    assert s == s[..n] + s[n..];
    WordsConcat(s[..n], s[n..]);
    BlankHasNoWords(s[..n]);
  }

  /** Stripping loses no word and leaves no white space at either end. */
  lemma StripWords(s: string)
    ensures Words(Strip(s)) == Words(s)
    ensures Stripped(Strip(s))
    ensures Strip(s) == "" <==> Words(s) == []
    ensures |Strip(s)| <= |s|
  {
    SpaceLenIsMaximal(s);
    LStripWords(s);
    RStripWords(LStrip(s));
    BlankHasNoWords(s);
    BlankHasNoWords(Strip(s));
  }

  lemma {:induction false} RStripIsFront(s: string)
    ensures RStrip(s) <= s && Blank(s[|RStrip(s)|..])
    ensures RStrip(s) != "" ==> !IsSpace(RStrip(s)[|RStrip(s)| - 1])
    decreases |s|
  {
    hide IsSpace;
    if s != "" && IsSpace(s[|s| - 1]) {
      var init := s[..|s| - 1];
      RStripIsFront(init);
      assert s[|RStrip(init)|..] == init[|RStrip(init)|..] + [s[|s| - 1]];
    }
  }

  /** Stripping takes white space off both ends, all of it, and nothing else. */
  lemma StripIsMiddle(s: string)
    ensures Stripped(Strip(s))
    ensures exists pre, post :: s == pre + Strip(s) + post && Blank(pre) && Blank(post)
  {
    hide RStrip, SpaceLen, IsSpace;
    var n := SpaceLen(s);
    SpaceLenIsMaximal(s);
    RStripIsFront(s[n..]);
    var middle := RStrip(s[n..]);
    AroundMiddle(s, n, middle);
    StripWords(s);
  }

  lemma BlankIsEmpty(s: string)
    ensures Strip(s) == "" <==> Blank(s)
  {
    hide Strip, IsSpace;
    StripWords(s);
    if Blank(s) {
      BlankHasNoWords(s);
    } else {
      var i :| 0 <= i < |s| && !IsSpace(s[i]);
      var k := SpanAt(s, |s|, i);
      WordCount(s);
    }
  }

  lemma AroundMiddle(s: string, n: nat, middle: string)
    requires n <= |s| && middle <= s[n..] && Blank(s[..n]) && Blank(s[n..][|middle|..])
    ensures exists pre, post :: s == pre + middle + post && Blank(pre) && Blank(post)
  {
    hide Blank;
    var pre, post := s[..n], s[n..][|middle|..];
    assert s == pre + middle + post;
  }

  lemma StrippedIsFixed(s: string)
    requires Stripped(s)
    ensures Strip(s) == s
  {
  }

  lemma {:induction false} WordsOfConcat(a: seq<string>, b: seq<string>)
    ensures WordsOf(a + b) == WordsOf(a) + WordsOf(b)
    decreases |a|
  {
    if a == [] {
      assert a + b == b;
    } else {
      assert (a + b)[1..] == a[1..] + b;
      WordsOfConcat(a[1..], b);
    }
  }

  lemma WordsOfSnoc(parts: seq<string>, part: string)
    ensures WordsOf(parts + [part]) == WordsOf(parts) + Words(part)
  {
    WordsOfConcat(parts, [part]);
    assert WordsOf([part]) == Words(part) + WordsOf([]);
  }

  /** Joining with white space keeps exactly the words of the parts, in order. */
  lemma {:induction false} JoinWords(parts: seq<string>, sep: string)
    requires sep != "" && Blank(sep)
    ensures Words(Join(parts, sep)) == WordsOf(parts)
    decreases |parts|
  {
    if |parts| == 1 {
      assert WordsOf(parts) == Words(parts[0]) + WordsOf([]);
    } else if |parts| > 1 {
      JoinWords(parts[1..], sep);
      var tail := Join(parts[1..], sep);
      WordsConcat(sep, tail);
      BlankHasNoWords(sep);
      WordsConcat(parts[0], sep + tail);
      assert parts[0] + sep + tail == parts[0] + (sep + tail);
    }
  }

  lemma {:induction false} JoinSnoc(parts: seq<string>, last: string, sep: string)
    ensures Join(parts + [last], sep) == if parts == [] then last else Join(parts, sep) + sep + last
    decreases |parts|
  {
    if |parts| > 1 {
      var rest := parts[1..];
      JoinSnoc(rest, last, sep);
      assert (parts + [last])[1..] == rest + [last];
      assert parts[0] + sep + (Join(rest, sep) + sep + last) == (parts[0] + sep + Join(rest, sep)) + sep + last;
    }
  }

  lemma {:induction false} SingleWords(ws: seq<string>)
    requires forall w :: w in ws ==> IsWord(w)
    ensures WordsOf(ws) == ws
    decreases |ws|
  {
    if ws != [] {
      SingleWords(ws[1..]);
      var w := ws[0];
      SpansOfWord(w, |w|);
      assert w[0..|w|] == w;
      assert Words(w) == [w];
    }
  }

  lemma {:induction false} SpansOfWord(w: string, n: nat)
    requires IsWord(w) && 0 < n <= |w|
    ensures SpansTo(w, n) == [Span(0, n)]
    decreases n
  {
    if n > 1 {
      SpansOfWord(w, n - 1);
    }
  }

  /** Joining words with one space and splitting again gives the words back. */
  lemma JoinWordsRoundTrip(ws: seq<string>)
    requires forall w :: w in ws ==> IsWord(w)
    ensures Words(Join(ws, " ")) == ws
  {
    JoinWords(ws, " ");
    SingleWords(ws);
  }
}
