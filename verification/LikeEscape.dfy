/**
 Escaping a search term for the SQL LIKE predicate (section 8.5 of ISO/IEC 9075-2), with the backslash as
 escape character. ILIKE compares letters after folding their case; LIKE is the case of no folding.
 */
module LikeEscape {
  import opened Wrappers
  import opened Sequences

  const ESCAPE: char := '\\'

  // ----- the predicate

  datatype Token = Literal(c: char) | AnyOne | AnyMany

  predicate Special(c: char) {
    c == ESCAPE || c == '%' || c == '_'
  }

  /** A pattern is read from its start. An escape character has to stand before a special one. */
  function Parse(pattern: string): Option<seq<Token>> {
    if pattern == "" then Some([])
    else if pattern[0] == ESCAPE then
      if |pattern| < 2 || !Special(pattern[1]) then None
      else match Parse(pattern[2..]) case None => None case Some(rest) => Some([Literal(pattern[1])] + rest)
    else
      var token := if pattern[0] == '%' then AnyMany else if pattern[0] == '_' then AnyOne else Literal(pattern[0]);
      match Parse(pattern[1..]) case None => None case Some(rest) => Some([token] + rest)
  }

  predicate MatchesTokens(tokens: seq<Token>, s: string, fold: char -> char)
    decreases |tokens|
  {
    if tokens == [] then s == ""
    else match tokens[0]
      case Literal(c) => s != "" && fold(s[0]) == fold(c) && MatchesTokens(tokens[1..], s[1..], fold)
      case AnyOne => s != "" && MatchesTokens(tokens[1..], s[1..], fold)
      case AnyMany => exists k :: 0 <= k <= |s| && MatchesTokens(tokens[1..], s[k..], fold)
  }

  /** `s LIKE pattern ESCAPE '\'`, which raises an exception for a pattern that cannot be read. */
  predicate Like(s: string, pattern: string, fold: char -> char) {
    Parse(pattern).Some? && MatchesTokens(Parse(pattern).value, s, fold)
  }

  // ----- the escaping

  /** `value.replace(c, with)` */
  function Replace(value: string, c: char, with: string): string {
    if value == "" then "" else (if value[0] == c then with else [value[0]]) + Replace(value[1..], c, with)
  }

  function EscapeLike(value: string): string {
    Replace(Replace(Replace(value, '\\', "\\\\"), '%', "\\%"), '_', "\\_")
  }

  /** Every special character gets an escape character, in one pass. */
  function EscapeEach(value: string): string {
    if value == "" then "" else (if Special(value[0]) then [ESCAPE, value[0]] else [value[0]]) + EscapeEach(value[1..])
  }

  lemma {:induction false} ReplaceConcat(a: string, b: string, c: char, with: string)
    ensures Replace(a + b, c, with) == Replace(a, c, with) + Replace(b, c, with)
    decreases |a|
  {
    if a == "" {
      assert a + b == b;
    } else {
      assert (a + b)[1..] == a[1..] + b;
      ReplaceConcat(a[1..], b, c, with);
    }
  }

  lemma ReplaceOne(x: char, c: char, with: string)
    ensures Replace([x], c, with) == if x == c then with else [x]
  {
    assert Replace([x][1..], c, with) == "";
  }

  lemma EscapeOne(x: char)
    ensures EscapeLike([x]) == if Special(x) then [ESCAPE, x] else [x]
  {
    ReplaceOne(x, '\\', "\\\\");
    ReplaceOne(x, '%', "\\%");
    ReplaceOne(x, '_', "\\_");
    if x == '\\' {
      assert "\\\\" == ['\\'] + ['\\'];
      ReplaceConcat(['\\'], ['\\'], '%', "\\%");
      ReplaceConcat(['\\'], ['\\'], '_', "\\_");
      ReplaceOne('\\', '%', "\\%");
      ReplaceOne('\\', '_', "\\_");
    } else if x == '%' {
      assert "\\%" == ['\\'] + ['%'];
      ReplaceConcat(['\\'], ['%'], '_', "\\_");
      ReplaceOne('\\', '_', "\\_");
      ReplaceOne('%', '_', "\\_");
    }
  }

  /** The three replacements, one after the other, do what one pass does: backslashes are doubled before the
      other two add any. */
  lemma {:induction false} ThreeReplacesAreOnePass(value: string)
    ensures EscapeLike(value) == EscapeEach(value)
    decreases |value|
  {
    if value != "" {
      var first, rest := [value[0]], value[1..];
      assert value == first + rest;
      ReplaceConcat(first, rest, '\\', "\\\\");
      ReplaceConcat(Replace(first, '\\', "\\\\"), Replace(rest, '\\', "\\\\"), '%', "\\%");
      ReplaceConcat(Replace(Replace(first, '\\', "\\\\"), '%', "\\%"), Replace(Replace(rest, '\\', "\\\\"), '%', "\\%"),
                    '_', "\\_");
      assert EscapeLike(value) == EscapeLike(first) + EscapeLike(rest);
      EscapeOne(value[0]);
      ThreeReplacesAreOnePass(rest);
    }
  }

  // ----- reading an escaped term back

  function Literals(value: string): (tokens: seq<Token>)
    ensures |tokens| == |value|
    ensures forall i :: 0 <= i < |value| ==> tokens[i] == Literal(value[i])
  {
    seq(|value|, i requires 0 <= i < |value| => Literal(value[i]))
  }

  lemma ReadEscaped(c: char, rest: string)
    requires Special(c) && Parse(rest).Some?
    ensures Parse([ESCAPE, c] + rest) == Some([Literal(c)] + Parse(rest).value)
  {
    assert ([ESCAPE, c] + rest)[2..] == rest;
  }

  lemma ReadPlain(c: char, rest: string)
    requires !Special(c) && Parse(rest).Some?
    ensures Parse([c] + rest) == Some([Literal(c)] + Parse(rest).value)
  {
    assert ([c] + rest)[1..] == rest;
  }

  lemma LiteralsCons(value: string, more: seq<Token>)
    requires value != ""
    ensures [Literal(value[0])] + (Literals(value[1..]) + more) == Literals(value) + more
  {
  }

  lemma EscapeStep(value: string, tail: string)
    requires value != ""
    ensures EscapeEach(value) + tail ==
              (if Special(value[0]) then [ESCAPE, value[0]] else [value[0]]) + (EscapeEach(value[1..]) + tail)
  {
    hide Special;
  }

  /** What follows an escaped term is read as if the term were not there. */
  lemma {:induction false} EscapedReadsBack(value: string, tail: string)
    requires Parse(tail).Some?
    ensures Parse(EscapeEach(value) + tail) == Some(Literals(value) + Parse(tail).value)
    decreases |value|
  {
    hide Parse, Special;
    if value == "" {
      assert EscapeEach(value) + tail == tail;
      assert Literals(value) + Parse(tail).value == Parse(tail).value;
    } else {
      EscapedReadsBack(value[1..], tail);
      EscapeStep(value, tail);
      LiteralsCons(value, Parse(tail).value);
      var rest := EscapeEach(value[1..]) + tail;
      if Special(value[0]) {
        ReadEscaped(value[0], rest);
      } else {
        ReadPlain(value[0], rest);
      }
    }
  }

  /** An escaped term can be read, as its own characters. */
  lemma EscapeIsReadable(value: string)
    ensures Parse(EscapeLike(value)) == Some(Literals(value))
  {
    hide EscapeLike, EscapeEach;
    ThreeReplacesAreOnePass(value);
    EscapedReadsBack(value, "");
    assert EscapeEach(value) + "" == EscapeEach(value);
    assert Literals(value) + [] == Literals(value);
  }

  /** Different terms have different patterns. */
  lemma EscapeIsInjective(a: string, b: string)
    requires EscapeLike(a) == EscapeLike(b)
    ensures a == b
  {
    hide EscapeLike, Parse;
    EscapeIsReadable(a);
    EscapeIsReadable(b);
    forall i | 0 <= i < |a|
      ensures a[i] == b[i]
    {
      assert Literals(a)[i] == Literals(b)[i];
    }
  }

  // ----- searching

  /** The term stands in `s` at place `k`, letter case folded. */
  predicate OccursAt(s: string, term: string, k: int, fold: char -> char) {
    && 0 <= k && k + |term| <= |s|
    && forall i :: 0 <= i < |term| ==> fold(s[k + i]) == fold(term[i])
  }

  predicate Contains(s: string, term: string, fold: char -> char) {
    exists k :: 0 <= k <= |s| && OccursAt(s, term, k, fold)
  }

  lemma AnythingMatches(s: string, fold: char -> char)
    ensures MatchesTokens([AnyMany], s, fold)
  {
    assert s[|s|..] == "";
    assert MatchesTokens([AnyMany][1..], s[|s|..], fold);
  }

  /** Literals before a final `%` match exactly what begins with them. */
  lemma {:induction false} LiteralsMatchPrefix(s: string, term: string, fold: char -> char)
    ensures MatchesTokens(Literals(term) + [AnyMany], s, fold) <==> OccursAt(s, term, 0, fold)
    decreases |term|
  {
    var tokens := Literals(term) + [AnyMany];
    if term == "" {
      assert tokens == [AnyMany];
      AnythingMatches(s, fold);
    } else {
      assert tokens[0] == Literal(term[0]);
      assert tokens[1..] == Literals(term[1..]) + [AnyMany];
      if s != "" {
        LiteralsMatchPrefix(s[1..], term[1..], fold);
        PrefixStep(s, term, fold);
      }
    }
  }

  lemma PrefixStep(s: string, term: string, fold: char -> char)
    requires s != "" && term != ""
    ensures OccursAt(s, term, 0, fold) <==> fold(s[0]) == fold(term[0]) && OccursAt(s[1..], term[1..], 0, fold)
  {
    if fold(s[0]) == fold(term[0]) && OccursAt(s[1..], term[1..], 0, fold) {
      forall i | 0 <= i < |term|
        ensures fold(s[i]) == fold(term[i])
      {
        if i > 0 {
          assert fold(s[1..][i - 1]) == fold(term[1..][i - 1]);
        }
      }
    }
    if OccursAt(s, term, 0, fold) {
      forall i | 0 <= i < |term| - 1
        ensures fold(s[1..][i]) == fold(term[1..][i])
      {
        assert fold(s[0 + (i + 1)]) == fold(term[i + 1]);
      }
    }
  }

  lemma OccursInSuffix(s: string, term: string, k: nat, fold: char -> char)
    requires k <= |s|
    ensures OccursAt(s[k..], term, 0, fold) <==> OccursAt(s, term, k, fold)
  {
    forall i | 0 <= i < |s| - k
      ensures s[k..][i] == s[k + i]
    {
    }
  }

  function SearchPattern(term: string): string {
    "%" + EscapeLike(term) + "%"
  }

  lemma ReadMany(rest: string)
    requires Parse(rest).Some?
    ensures Parse("%" + rest) == Some([AnyMany] + Parse(rest).value)
  {
    assert ("%" + rest)[1..] == rest;
  }

  lemma SearchPatternReads(term: string)
    ensures Parse(SearchPattern(term)) == Some([AnyMany] + (Literals(term) + [AnyMany]))
  {
    hide EscapeLike, EscapeEach, Special, Parse;
    ThreeReplacesAreOnePass(term);
    NothingReads();
    ReadMany("");
    assert "%" + "" == "%" && [AnyMany] + [] == [AnyMany];
    EscapedReadsBack(term, "%");
    ReadMany(EscapeEach(term) + "%");
    assert SearchPattern(term) == "%" + (EscapeEach(term) + "%");
  }

  lemma NothingReads()
    ensures Parse("") == Some([])
  {
  }

  /** A term is searched for as it is: `'%' + escape(term) + '%'` matches exactly the texts in which the term
      stands, whatever special characters it has. */
  lemma EscapingKeepsMeaning(s: string, term: string, fold: char -> char)
    ensures Like(s, SearchPattern(term), fold) <==> Contains(s, term, fold)
  {
    hide SearchPattern, Parse, OccursAt;
    SearchPatternReads(term);
    var rest := Literals(term) + [AnyMany];
    assert ([AnyMany] + rest)[1..] == rest;
    forall k | 0 <= k <= |s|
      ensures MatchesTokens(rest, s[k..], fold) <==> OccursAt(s, term, k, fold)
    {
      LiteralsMatchPrefix(s[k..], term, fold);
      OccursInSuffix(s, term, k, fold);
    }
  }

  // ----- the prefilter

  function AnyTerm(terms: seq<string>, fold: char -> char): string -> bool {
    (s: string) => exists i :: 0 <= i < |terms| && Like(s, SearchPattern(terms[i]), fold)
  }

  function AllTerms(terms: seq<string>, fold: char -> char): string -> bool {
    (s: string) => forall i :: 0 <= i < |terms| ==> Like(s, SearchPattern(terms[i]), fold)
  }

  function Limited(texts: seq<string>, limit: int): seq<string> {
    if limit <= 0 then [] else if |texts| <= limit then texts else texts[..limit]
  }

  /** The texts, in the order of the table, that the two statements select. */
  method EnglishPrefilter(texts: seq<string>, terms: seq<string>, limit: int, fold: char -> char)
    returns (found: seq<string>)
    ensures terms == [] || limit <= 0 ==> found == []
    ensures terms != [] && limit > 0 ==>
              var all := Filter(texts, (s: string) => forall i :: 0 <= i < |terms| ==> Contains(s, terms[i], fold));
              var any := Filter(texts, (s: string) => exists i :: 0 <= i < |terms| && Contains(s, terms[i], fold));
              found == Limited(if |terms| > 1 && all != [] then all else any, limit)
  {
    hide Like, SearchPattern, Contains, Filter;
    if terms == [] || limit <= 0 {
      return [];
    }
    SelectionsAgree(texts, terms, fold);
    if |terms| > 1 {
      var exact := Limited(Filter(texts, AllTerms(terms, fold)), limit);
      if exact != [] {
        return exact;
      }
    }
    found := Limited(Limited(Filter(texts, AnyTerm(terms, fold)), if limit * 4 > limit then limit * 4 else limit),
                     limit);
  }

  lemma SelectionsAgree(texts: seq<string>, terms: seq<string>, fold: char -> char)
    ensures Filter(texts, AllTerms(terms, fold)) ==
              Filter(texts, (s: string) => forall i :: 0 <= i < |terms| ==> Contains(s, terms[i], fold))
    ensures Filter(texts, AnyTerm(terms, fold)) ==
              Filter(texts, (s: string) => exists i :: 0 <= i < |terms| && Contains(s, terms[i], fold))
  {
    hide Like, SearchPattern, Contains, Filter;
    forall s, i | 0 <= i < |terms|
      ensures Like(s, SearchPattern(terms[i]), fold) <==> Contains(s, terms[i], fold)
    {
      EscapingKeepsMeaning(s, terms[i], fold);
    }
    FilterAgree(texts, AllTerms(terms, fold),
                (s: string) => forall i :: 0 <= i < |terms| ==> Contains(s, terms[i], fold));
    FilterAgree(texts, AnyTerm(terms, fold),
                (s: string) => exists i :: 0 <= i < |terms| && Contains(s, terms[i], fold));
  }
}
