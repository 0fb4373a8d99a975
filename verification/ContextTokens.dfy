/**
 How many tokens a text is taken to need, and how a text that needs too many is cut.
 */
module ContextTokens {
  import opened Wrappers
  import opened Text

  predicate IsArabic(c: char) {
    '\U{600}' <= c <= '\U{6FF}'
  }

  predicate IsCode(c: char) {
    c in "{}[]()=;:,.<>/\\|"
  }

  function Count(s: string, p: char -> bool): nat {
    if s == "" then 0 else Count(s[..|s| - 1], p) + (if p(s[|s| - 1]) then 1 else 0)
  }

  /** The estimate for a text that has words: at least one token for every four characters, for every word,
      three for four Arabic letters, and one for every two code symbols. */
  function EstimateOf(words: nat, length: nat, arabic: nat, code: nat): (n: int)
    ensures n >= 1
  {
    Max(Max(words, Max(1, length / 4)),
        Max(if arabic > 0 then Max(1, arabic * 3 / 4) else 0, Max(if code > 0 then Max(1, code / 2) else 0, 1)))
  }

  function EstimateTokens(text: string): (n: int)
    ensures n >= 1
  {
    var stripped := Strip(text);
    if stripped == "" then 1
    else EstimateOf(|Words(stripped)|, |stripped|, Count(stripped, IsArabic), Count(stripped, IsCode))
  }

  /** Less of everything never needs more. */
  lemma EstimateIsMonotone(w: nat, l: nat, a: nat, c: nat, w': nat, l': nat, a': nat, c': nat)
    requires w <= w' && l <= l' && a <= a' && c <= c'
    ensures EstimateOf(w, l, a, c) <= EstimateOf(w', l', a', c')
  {
  }

  // ----- cutting

  /** Where the first empty line begins, or the length of the text. */
  function ParagraphEnd(s: string): (n: nat)
    ensures n <= |s|
    ensures n < |s| ==> n + 2 <= |s| && s[n..n + 2] == "\n\n"
  {
    if s == "" then 0 else if |s| >= 2 && s[0] == '\n' && s[1] == '\n' then 0 else 1 + ParagraphEnd(s[1..])
  }

  /** `text.split("\n\n")` without the blank parts, the others stripped. */
  function Paragraphs(s: string): seq<string>
    decreases |s|
  {
    var n := ParagraphEnd(s);
    var first := if Strip(s[..n]) == "" then [] else [Strip(s[..n])];
    if n == |s| then first else first + Paragraphs(s[n + 2..])
  }

  /** Python's `ws[:n]`; a negative `n` counts from the end. */
  function Take(ws: seq<string>, n: int): (r: seq<string>)
    ensures r <= ws
  {
    if n >= 0 then (if n < |ws| then ws[..n] else ws) else if -n < |ws| then ws[..|ws| + n] else []
  }

  function Truncate(text: string, hard: int): string {
    var paragraphs := Paragraphs(text);
    if paragraphs != [] && EstimateTokens(paragraphs[0]) <= hard then paragraphs[0]
    else Join(Take(Words(text), hard), " ")
  }

  lemma {:induction false} CountConcat(a: string, b: string, p: char -> bool)
    ensures Count(a + b, p) == Count(a, p) + Count(b, p)
    decreases |b|
  {
    if b == "" {
      assert a + b == a;
    } else {
      assert a + b == (a + b[..|b| - 1]) + [b[|b| - 1]];
      assert (a + b)[..|a + b| - 1] == a + b[..|b| - 1];
      CountConcat(a, b[..|b| - 1], p);
    }
  }

  /** The first `k` words, joined, are no longer and hold no more of any letter than the text up to them. */
  lemma {:induction false} FirstWordsFit(t: string, k: nat, p: char -> bool)
    requires 0 < k <= |Words(t)| && !p(' ')
    ensures Spans(t)[k - 1].end <= |t|
    ensures |Join(Words(t)[..k], " ")| <= Spans(t)[k - 1].end
    ensures Count(Join(Words(t)[..k], " "), p) <= Count(t[..Spans(t)[k - 1].end], p)
    decreases k
  {
    hide Spans, Join, Count;
    var ws, last := Words(t), Spans(t)[k - 1];
    SpanIsCut(t, k - 1);
    assert ws[..k] == ws[..k - 1] + [ws[k - 1]];
    JoinSnoc(ws[..k - 1], ws[k - 1], " ");
    assert t[..last.end] == t[..last.start] + t[last.start..last.end];
    CountConcat(t[..last.start], t[last.start..last.end], p);
    if k > 1 {
      FirstWordsFit(t, k - 1, p);
      var joined := Join(ws[..k - 1], " ");
      SpanIsCut(t, k - 2);
      SpansApart(t, k - 2);
      PrefixCount(t, Spans(t)[k - 2].end, last.start, p);
      CountConcat(joined + " ", ws[k - 1], p);
      CountConcat(joined, " ", p);
      NoSpaceCounts(p);
    }
  }

  lemma NoSpaceCounts(p: char -> bool)
    requires !p(' ')
    ensures Count(" ", p) == 0
  {
    assert " "[..0] == "";
  }

  lemma SpanIsCut(t: string, k: nat)
    requires k < |Spans(t)|
    ensures Spans(t)[k].start < Spans(t)[k].end <= |t|
    ensures Words(t)[k] == t[Spans(t)[k].start..Spans(t)[k].end]
  {
    SpansAreMaximalRuns(t, |t|);
    assert MaximalRun(t, |t|, Spans(t)[k]);
  }

  lemma SpansApart(t: string, k: nat)
    requires k + 1 < |Spans(t)|
    ensures Spans(t)[k].end < Spans(t)[k + 1].start
  {
    SpansAreMaximalRuns(t, |t|);
  }

  lemma PrefixCount(t: string, m: nat, n: nat, p: char -> bool)
    requires m <= n <= |t|
    ensures Count(t[..m], p) <= Count(t[..n], p)
  {
    assert t[..n] == t[..m] + t[m..n];
    CountConcat(t[..m], t[m..n], p);
  }

  lemma {:induction false} JoinedIsStripped(ws: seq<string>)
    requires forall w :: w in ws ==> IsWord(w)
    ensures Stripped(Join(ws, " "))
    ensures ws != [] ==> Join(ws, " ") != "" && Join(ws, " ")[0] == ws[0][0]
    decreases |ws|
  {
    if ws != [] {
      var init, last := ws[..|ws| - 1], ws[|ws| - 1];
      assert ws == init + [last];
      assert IsWord(last);
      JoinSnoc(init, last, " ");
      JoinedIsStripped(init);
      assert IsWord(ws[0]);
    }
  }

  /** The first words of a text never need more tokens than the text. */
  lemma FirstWordsNeedLess(text: string, k: nat)
    requires k <= |Words(text)|
    ensures EstimateTokens(Join(Words(text)[..k], " ")) <= EstimateTokens(text)
  {
    hide Spans, Count, EstimateOf, Words, Join;
    var ws, t := Words(text), Strip(text);
    StripWords(text);
    if k == 0 {
      NothingJoined();
    } else {
      var joined := Join(ws[..k], " ");
      PartsAreWords(text, k);
      JoinedIsStripped(ws[..k]);
      StrippedIsFixed(joined);
      JoinWordsRoundTrip(ws[..k]);
      JoinedFits(t, k);
      EstimateIsMonotone(k, |joined|, Count(joined, IsArabic), Count(joined, IsCode),
                         |ws|, |t|, Count(t, IsArabic), Count(t, IsCode));
    }
  }

  lemma NothingJoined()
    ensures EstimateTokens(Join([], " ")) == 1
  {
  }

  lemma PartsAreWords(text: string, k: nat)
    requires k <= |Words(text)|
    ensures forall w :: w in Words(text)[..k] ==> IsWord(w)
  {
    WordsAreWords(text);
  }

  lemma JoinedFits(t: string, k: nat)
    requires 0 < k <= |Words(t)|
    ensures var joined := Join(Words(t)[..k], " ");
            |joined| <= |t| && Count(joined, IsArabic) <= Count(t, IsArabic) &&
                Count(joined, IsCode) <= Count(t, IsCode)
  {
    hide Spans, Count, Words, Join;
    WordCount(t);
    FirstWordsFit(t, k, IsArabic);
    FirstWordsFit(t, k, IsCode);
    PrefixCount(t, Spans(t)[k - 1].end, |t|, IsArabic);
    PrefixCount(t, Spans(t)[k - 1].end, |t|, IsCode);
    assert t[..|t|] == t;
  }

  /** Cutting a text that needs more than the limit never makes it need more than before. */
  lemma TruncationNeverRaises(text: string, hard: int)
    requires EstimateTokens(text) > hard
    ensures EstimateTokens(Truncate(text, hard)) <= EstimateTokens(text)
  {
    hide EstimateTokens, Words, Join, Paragraphs;
    var taken := Take(Words(text), hard);
    assert taken == Words(text)[..|taken|];
    FirstWordsNeedLess(text, |taken|);
  }

  // ----- what is cut is an end

  /** What is left of a text is a prefix of its words. */
  lemma TruncationKeepsAPrefix(text: string, hard: int)
    ensures Words(Truncate(text, hard)) <= Words(text)
  {
    hide EstimateTokens, Words, Join, Paragraphs;
    var taken := Take(Words(text), hard);
    PartsAreWords(text, |taken|);
    assert taken == Words(text)[..|taken|];
    JoinWordsRoundTrip(taken);
    if Paragraphs(text) != [] {
      FirstParagraphIsPrefix(text);
    }
  }

  lemma WordsAround(a: string, gap: string, b: string)
    requires gap != "" && Blank(gap)
    ensures Words(a + gap + b) == Words(a) + Words(b)
  {
    hide Words;
    assert a + gap + b == a + (gap + b);
    WordsConcat(a, gap + b);
    WordsConcat(gap, b);
    BlankHasNoWords(gap);
  }

  lemma WordsAcrossEmptyLine(text: string)
    requires ParagraphEnd(text) < |text|
    ensures Words(text) == Words(text[..ParagraphEnd(text)]) + Words(text[ParagraphEnd(text) + 2..])
  {
    hide Words, ParagraphEnd, Blank;
    var n := ParagraphEnd(text);
    EmptyLineIsBlank(text[n..n + 2]);
    WordsAround(text[..n], text[n..n + 2], text[n + 2..]);
    Apart(text, n);
  }

  lemma EmptyLineIsBlank(gap: string)
    requires gap == "\n\n"
    ensures Blank(gap) && gap != ""
  {
  }

  lemma Apart(text: string, n: nat)
    requires n + 2 <= |text|
    ensures text == text[..n] + text[n..n + 2] + text[n + 2..]
  {
  }

  lemma {:induction false} FirstParagraphIsPrefix(text: string)
    requires Paragraphs(text) != []
    ensures Words(Paragraphs(text)[0]) <= Words(text)
    decreases |text|
  {
    hide Words, Strip, ParagraphEnd;
    var n := ParagraphEnd(text);
    StripWords(text[..n]);
    if n == |text| {
      assert text[..n] == text;
    } else {
      WordsAcrossEmptyLine(text);
      if Strip(text[..n]) == "" {
        FirstParagraphIsPrefix(text[n + 2..]);
      }
    }
  }

  // ----- the estimate and the cut, by characters

  ghost function Places(s: string, p: char -> bool): set<nat> {
    set i: nat | i < |s| && p(s[i])
  }

  lemma {:induction false} CountTells(s: string, p: char -> bool)
    ensures Count(s, p) == |Places(s, p)|
    decreases |s|
  {
    if s != "" {
      var init := s[..|s| - 1];
      CountTells(init, p);
      assert Places(s, p) == Places(init, p) + (if p(s[|s| - 1]) then {|s| - 1} else {});
    }
  }

  /** The characters that are told apart from others. */
  lemma KindsTell(c: char)
    ensures IsArabic(c) <==> 0x600 <= c as int <= 0x6FF
    ensures IsCode(c) <==>
              c in {'{', '}', '[', ']', '(', ')', '=', ';', ':', ',', '.', '<', '>', '/', '\\', '|'}
  {
  }

  /** The estimate of a text is the greatest of these: 1, its words, a quarter of its characters, three quarters
      of its Arabic characters, half of its code characters; surrounding space does not count. */
  lemma EstimateTells(text: string)
    ensures var n, t := EstimateTokens(text), Strip(text);
            var words, length := |Words(t)|, |t|;
            var arabic, code := |Places(t, IsArabic)|, |Places(t, IsCode)|;
            && n >= 1
            && (t == "" ==> n == 1)
            && (t != "" ==>
                  && n >= words && n >= length / 4 && n >= arabic * 3 / 4 && n >= code / 2
                  && (n == 1 || n == words || n == length / 4 || n == arabic * 3 / 4 || n == code / 2))
  {
    hide Strip, Words, Count, Places;
    CountTells(Strip(text), IsArabic);
    CountTells(Strip(text), IsCode);
    NothingAt(Strip(text));
  }

  lemma NothingAt(s: string)
    ensures s == "" ==> Count(s, IsArabic) == Count(s, IsCode) == 0
  {
  }

  /** An empty line begins at `p`. */
  ghost predicate EmptyLineAt(s: string, p: nat) {
    p + 2 <= |s| && s[p] == '\n' && s[p + 1] == '\n'
  }

  lemma {:induction false} ParagraphEndTells(s: string)
    ensures forall p :: 0 <= p < ParagraphEnd(s) ==> !EmptyLineAt(s, p)
    ensures ParagraphEnd(s) < |s| ==> EmptyLineAt(s, ParagraphEnd(s))
    decreases |s|
  {
    if s != "" && !EmptyLineAt(s, 0) {
      ParagraphEndTells(s[1..]);
      forall p | 0 <= p < ParagraphEnd(s)
        ensures !EmptyLineAt(s, p)
      {
        if p > 0 {
          assert !EmptyLineAt(s[1..], p - 1);
        }
      }
    }
  }

  /** The first paragraph that says anything stands at `from..to`: what is before is blank and ends with an empty
      line, if there is anything; it ends where the next empty line begins, or with the text. */
  ghost predicate IsFirstParagraph(s: string, from: nat, to: nat) {
    && from <= to <= |s| && Blank(s[..from]) && !Blank(s[from..to])
    && (from == 0 || (from >= 2 && s[from - 2..from] == "\n\n"))
    && (to == |s| || EmptyLineAt(s, to))
    && forall p :: from <= p < to ==> !EmptyLineAt(s, p)
  }

  lemma ParagraphsUnfold(s: string)
    ensures var n := ParagraphEnd(s);
            Paragraphs(s) == (if Strip(s[..n]) == "" then [] else [Strip(s[..n])])
                             + (if n == |s| then [] else Paragraphs(s[n + 2..]))
  {
    hide Strip, ParagraphEnd;
  }

  lemma {:induction false} ParagraphsTell(s: string) returns (from: nat, to: nat)
    ensures Paragraphs(s) == [] <==> Blank(s)
    ensures Paragraphs(s) != [] ==> IsFirstParagraph(s, from, to) && Paragraphs(s)[0] == Strip(s[from..to])
    decreases |s|
  {
    hide Strip, ParagraphEnd, EmptyLineAt, Paragraphs, IsFirstParagraph, Blank;
    var n := ParagraphEnd(s);
    ParagraphsUnfold(s);
    BlankIsEmpty(s[..n]);
    from, to := 0, n;
    if Strip(s[..n]) != "" {
      FirstParagraphHere(s);
    } else if n == |s| {
      assert s[..n] == s;
    } else {
      from, to := ParagraphsTell(s[n + 2..]);
      BlankFront(s, n);
      if Paragraphs(s[n + 2..]) != [] {
        LaterParagraph(s, n + 2, from, to);
        from, to := n + 2 + from, n + 2 + to;
      }
    }
  }

  lemma FirstParagraphHere(s: string)
    requires !Blank(s[..ParagraphEnd(s)])
    ensures IsFirstParagraph(s, 0, ParagraphEnd(s)) && !Blank(s)
  {
    hide ParagraphEnd, IsSpace;
    var n := ParagraphEnd(s);
    ParagraphEndTells(s);
    assert s[0..n] == s[..n];
    var i :| 0 <= i < n && !IsSpace(s[..n][i]);
    assert s[i] == s[..n][i];
  }

  lemma BlankFront(s: string, n: nat)
    requires n + 2 <= |s| && s[n..n + 2] == "\n\n" && Blank(s[..n])
    ensures Blank(s[..n + 2]) && (Blank(s) <==> Blank(s[n + 2..]))
  {
    hide Blank;
    EmptyLineIsBlank(s[n..n + 2]);
    BlankParts(s[..n], s[n..n + 2], s[n + 2..]);
    BlankParts(s[..n], s[n..n + 2], "");
    EmptyIsBlank();
    assert s == s[..n] + s[n..n + 2] + s[n + 2..];
    assert s[..n + 2] == s[..n] + s[n..n + 2] + "";
  }

  lemma EmptyIsBlank()
    ensures Blank("")
  {
  }

  lemma BlankParts(a: string, gap: string, b: string)
    requires Blank(gap)
    ensures Blank(a + gap + b) <==> Blank(a) && Blank(b)
  {
    var s := a + gap + b;
    if Blank(s) {
      forall i | 0 <= i < |a|
        ensures IsSpace(a[i])
      {
        assert s[i] == a[i];
      }
      forall i | 0 <= i < |b|
        ensures IsSpace(b[i])
      {
        assert s[|a| + |gap| + i] == b[i];
      }
    }
  }

  lemma LaterParagraph(s: string, k: nat, from: nat, to: nat)
    requires 2 <= k <= |s| && IsFirstParagraph(s[k..], from, to) && Blank(s[..k]) && s[k - 2..k] == "\n\n"
    ensures IsFirstParagraph(s, k + from, k + to) && s[k + from..k + to] == s[k..][from..to]
  {
    hide IsSpace;
    assert s[k + from..k + to] == s[k..][from..to];
    assert s[..k + from] == s[..k] + s[k..][..from];
    forall p | k + from <= p < k + to
      ensures !EmptyLineAt(s, p)
    {
      assert !EmptyLineAt(s[k..], p - k);
    }
    if from > 0 {
      assert s[k + from - 2..k + from] == s[k..][from - 2..from];
    }
  }

  /** What is left of a text that is cut: its first paragraph if that fits, and otherwise its first words, as
      many as the limit says; a limit below zero counts from the end. */
  lemma TruncateTells(text: string, hard: int) returns (from: nat, to: nat)
    ensures if !Blank(text) && IsFirstParagraph(text, from, to) && EstimateTokens(Strip(text[from..to])) <= hard
            then Truncate(text, hard) == Strip(text[from..to])
            else
              var n, count := if hard >= 0 then hard else |Words(text)| + hard, |Words(text)|;
              Truncate(text, hard) == Join(if n <= 0 then [] else if n >= count then Words(text) else Words(text)[..n],
                                           " ")
    ensures !Blank(text) ==> IsFirstParagraph(text, from, to)
  {
    hide Strip, Words, EstimateTokens, Paragraphs, IsFirstParagraph, Join;
    from, to := ParagraphsTell(text);
    var words := Words(text);
    assert words[..|words|] == words && words[..0] == [];
  }
}
