/**
 Choosing the evidence that goes into the context of an answer: candidates with direct evidence first,
 duplicates folded, candidates dropped by policy or for the token budget.
 */
module ContextAssembly {
  import opened Wrappers
  import opened Text
  import opened Sequences
  import opened Sorting
  import opened ContextTokens

  /** A candidate, with what its metadata says about it. An empty chunk id stands for a missing one. */
  datatype Candidate = Candidate(id: string, chunkId: string, text: string, referenceExact: bool, arabicExact: bool,
                                 blocked: bool, risks: seq<string>, degraded: bool, passes: seq<string>)

  datatype Evidence = Evidence(candidate: Candidate, text: string, passes: seq<string>)

  datatype Dropped = Dropped(candidateId: string, reason: string, tokens: int)

  datatype Settings = Settings(maxTokens: int, hardTokens: Option<int>)

  datatype State = State(evidence: seq<Evidence>, dropped: seq<Dropped>, seen: map<string, nat>, used: int,
                         direct: bool)

  function Priority(c: Candidate): int {
    if c.referenceExact then 100 else if c.arabicExact then 90 else 10
  }

  predicate IsDirect(c: Candidate) {
    c.referenceExact || c.arabicExact
  }

  predicate HigherPriority(a: Candidate, b: Candidate) {
    Priority(a) > Priority(b)
  }

  /** `fold` is `str.casefold`. */
  function CandidateKey(c: Candidate, fold: string -> string): string {
    if c.chunkId != "" then c.chunkId else fold(Strip(c.text))
  }

  function PolicyDropReason(c: Candidate): Option<string> {
    if c.blocked then Some("quality_policy_block")
    else if "runtime_bridge_missing" in c.risks then Some("runtime_bridge_missing")
    else if "graph_projection_stale" in c.risks then Some("graph_projection_stale")
    else if c.degraded then Some("reranker_degraded")
    else None
  }

  function MergedPasses(left: seq<string>, right: seq<string>): (merged: seq<string>)
    ensures left <= merged
    ensures forall p :: p in merged <==> p in left || p in right
  {
    if right == [] then left
    else
      var merged := MergedPasses(left, right[..|right| - 1]);
      assert right == right[..|right| - 1] + [right[|right| - 1]];
      if right[|right| - 1] in merged then merged else merged + [right[|right| - 1]]
  }

  /** What is added stands once, in the order of the second list. */
  lemma {:induction false} MergedPassesTell(left: seq<string>, right: seq<string>)
    ensures forall i, j :: |left| <= i < |MergedPasses(left, right)| && 0 <= j < i ==>
              MergedPasses(left, right)[i] != MergedPasses(left, right)[j]
    decreases |right|
  {
    if right != [] {
      MergedPassesTell(left, right[..|right| - 1]);
    }
  }

  method MergePasses(left: seq<string>, right: seq<string>) returns (merged: seq<string>)
    ensures merged == MergedPasses(left, right)
  {
    merged := left;
    for i := 0 to |right|
      invariant merged == MergedPasses(left, right[..i])
    {
      assert right[..i + 1][..i] == right[..i];
      if right[i] !in merged {
        merged := merged + [right[i]];
      }
    }
    assert right[..|right|] == right;
  }

  predicate MustCut(settings: Settings, c: Candidate) {
    settings.hardTokens.Some? && EstimateTokens(c.text) > settings.hardTokens.value
  }

  function AdmittedText(settings: Settings, c: Candidate): string {
    if MustCut(settings, c) then Truncate(c.text, settings.hardTokens.value) else c.text
  }

  // ----- one candidate after the other

  /** What becomes of a candidate. */
  datatype Fate = Folded | Refused(reason: string) | Admitted

  predicate OverBudget(settings: Settings, s: State, c: Candidate) {
    s.used + EstimateTokens(c.text) > settings.maxTokens
  }

  function FateOf(settings: Settings, fold: string -> string, s: State, c: Candidate): Fate {
    if CandidateKey(c, fold) in s.seen then Folded
    else match PolicyDropReason(c)
      case Some(reason) => Refused(reason)
      case None => if OverBudget(settings, s, c) && !IsDirect(c) then Refused("token_budget") else Admitted
  }

  /** The notices that go with an admission. */
  function Notices(settings: Settings, s: State, c: Candidate): seq<Dropped> {
    (if OverBudget(settings, s, c) then [Dropped(c.id, "direct_evidence_preserved_over_budget", EstimateTokens(c.text))]
     else [])
    + (if MustCut(settings, c) then [Dropped(c.id, "context_truncated", EstimateTokens(AdmittedText(settings, c)))]
       else [])
  }

  predicate Indexed(s: State) {
    forall k :: k in s.seen ==> s.seen[k] < |s.evidence|
  }

  function Next(settings: Settings, fold: string -> string, s: State, c: Candidate): (t: State)
    requires Indexed(s)
    ensures Indexed(t)
  {
    match FateOf(settings, fold, s, c)
    case Folded =>
      var i := s.seen[CandidateKey(c, fold)];
      s.(evidence := s.evidence[i := s.evidence[i].(passes := MergedPasses(s.evidence[i].passes, c.passes))])
    case Refused(reason) => s.(dropped := s.dropped + [Dropped(c.id, reason, EstimateTokens(c.text))])
    case Admitted =>
      var text := AdmittedText(settings, c);
      State(s.evidence + [Evidence(c, text, c.passes)], s.dropped + Notices(settings, s, c),
            s.seen[CandidateKey(c, fold) := |s.evidence|], s.used + EstimateTokens(text), s.direct || IsDirect(c))
  }

  function After(settings: Settings, fold: string -> string, ordered: seq<Candidate>, n: nat): (s: State)
    requires n <= |ordered|
    ensures Indexed(s)
  {
    if n == 0 then State([], [], map[], 0, false)
    else Next(settings, fold, After(settings, fold, ordered, n - 1), ordered[n - 1])
  }

  function FateAt(settings: Settings, fold: string -> string, ordered: seq<Candidate>, i: nat): Fate
    requires i < |ordered|
  {
    FateOf(settings, fold, After(settings, fold, ordered, i), ordered[i])
  }

  // ----- the tokens

  function TokensOf(evidence: seq<Evidence>): (n: int)
    ensures n >= |evidence|
  {
    if evidence == [] then 0 else TokensOf(evidence[..|evidence| - 1]) + EstimateTokens(evidence[|evidence| - 1].text)
  }

  /** The tokens of the direct evidence alone. */
  function DirectTokens(evidence: seq<Evidence>): (n: int)
    ensures 0 <= n <= TokensOf(evidence)
    ensures (exists j :: 0 <= j < |evidence| && !IsDirect(evidence[j].candidate)) ==> n < TokensOf(evidence)
    ensures (forall j :: 0 <= j < |evidence| ==> IsDirect(evidence[j].candidate)) ==> n == TokensOf(evidence)
  {
    if evidence == [] then 0
    else
      var init, last := evidence[..|evidence| - 1], evidence[|evidence| - 1];
      assert forall j :: 0 <= j < |init| ==> evidence[j] == init[j];
      DirectTokens(init) + (if IsDirect(last.candidate) then EstimateTokens(last.text) else 0)
  }

  lemma {:induction false} TokensOfSameTexts(a: seq<Evidence>, b: seq<Evidence>)
    requires |a| == |b| && forall j :: 0 <= j < |a| ==> a[j].text == b[j].text && a[j].candidate == b[j].candidate
    ensures TokensOf(a) == TokensOf(b) && DirectTokens(a) == DirectTokens(b)
    decreases |a|
  {
    hide EstimateTokens, IsDirect;
    if a != [] {
      TokensOfSameTexts(a[..|a| - 1], b[..|b| - 1]);
    }
  }

  /** The keys that were seen are those of the evidence, each at its place; the tokens used are those of the
      evidence; and the flag says whether any of it is direct. */
  ghost predicate Consistent(fold: string -> string, s: State) {
    && (forall k :: k in s.seen ==>
        s.seen[k] < |s.evidence| && CandidateKey(s.evidence[s.seen[k]].candidate, fold) == k)
    && (forall j :: 0 <= j < |s.evidence| ==>
          CandidateKey(s.evidence[j].candidate, fold) in s.seen &&
              s.seen[CandidateKey(s.evidence[j].candidate, fold)] == j)
    && s.used == TokensOf(s.evidence)
    && (s.direct <==> exists j :: 0 <= j < |s.evidence| && IsDirect(s.evidence[j].candidate))
  }

  lemma TokensOfSnoc(evidence: seq<Evidence>, e: Evidence)
    ensures TokensOf(evidence + [e]) == TokensOf(evidence) + EstimateTokens(e.text)
    ensures DirectTokens(evidence + [e]) == DirectTokens(evidence) +
              (if IsDirect(e.candidate) then EstimateTokens(e.text) else 0)
  {
    assert (evidence + [e])[..|evidence|] == evidence;
  }

  /** What one candidate does to the evidence: a fold changes passes only, an admission adds one item. */
  lemma NextEvidence(settings: Settings, fold: string -> string, s: State, c: Candidate)
    requires Indexed(s)
    ensures var t := Next(settings, fold, s, c);
            match FateOf(settings, fold, s, c)
            case Admitted => t.evidence == s.evidence + [Evidence(c, AdmittedText(settings, c), c.passes)]
            case _ =>
              && |t.evidence| == |s.evidence|
              && forall j :: 0 <= j < |s.evidence| ==>
                   && t.evidence[j].text == s.evidence[j].text && t.evidence[j].candidate == s.evidence[j].candidate
                   && s.evidence[j].passes <= t.evidence[j].passes
  {
    hide EstimateTokens, IsDirect, CandidateKey, AdmittedText, PolicyDropReason;
  }

  lemma AdmissionIsConsistent(fold: string -> string, s: State, e: Evidence, t: State)
    requires Consistent(fold, s) && CandidateKey(e.candidate, fold) !in s.seen
    requires t.evidence == s.evidence + [e] && t.seen == s.seen[CandidateKey(e.candidate, fold) := |s.evidence|]
    requires t.used == s.used + EstimateTokens(e.text) && t.direct == (s.direct || IsDirect(e.candidate))
    ensures Consistent(fold, t)
  {
    hide EstimateTokens, IsDirect, CandidateKey, TokensOf;
    TokensOfSnoc(s.evidence, e);
    assert t.evidence[|s.evidence|] == e;
    forall j | 0 <= j < |s.evidence|
      ensures t.evidence[j] == s.evidence[j]
    {
    }
    if s.direct {
      var j :| 0 <= j < |s.evidence| && IsDirect(s.evidence[j].candidate);
      assert IsDirect(t.evidence[j].candidate);
    }
  }

  lemma FoldIsConsistent(fold: string -> string, s: State, t: State)
    requires Consistent(fold, s) && |t.evidence| == |s.evidence|
    requires forall j :: 0 <= j < |s.evidence| ==>
               t.evidence[j].text == s.evidence[j].text && t.evidence[j].candidate == s.evidence[j].candidate
    requires t.seen == s.seen && t.used == s.used && t.direct == s.direct
    ensures Consistent(fold, t)
  {
    hide EstimateTokens, IsDirect, CandidateKey, TokensOf;
    TokensOfSameTexts(s.evidence, t.evidence);
    if s.direct {
      var j :| 0 <= j < |s.evidence| && IsDirect(s.evidence[j].candidate);
      assert IsDirect(t.evidence[j].candidate);
    }
  }

  lemma NextIsConsistent(settings: Settings, fold: string -> string, s: State, c: Candidate)
    requires Consistent(fold, s) && Indexed(s)
    ensures Consistent(fold, Next(settings, fold, s, c))
  {
    hide EstimateTokens, IsDirect, CandidateKey, AdmittedText, PolicyDropReason, TokensOf, Consistent;
    var t := Next(settings, fold, s, c);
    NextEvidence(settings, fold, s, c);
    if FateOf(settings, fold, s, c).Admitted? {
      AdmissionIsConsistent(fold, s, Evidence(c, AdmittedText(settings, c), c.passes), t);
    } else {
      FoldIsConsistent(fold, s, t);
    }
  }

  lemma {:induction false} AfterIsConsistent(settings: Settings, fold: string -> string, ordered: seq<Candidate>,
                                             n: nat)
    requires n <= |ordered|
    ensures Consistent(fold, After(settings, fold, ordered, n))
    decreases n
  {
    hide Next, CandidateKey, IsDirect;
    if n > 0 {
      AfterIsConsistent(settings, fold, ordered, n - 1);
      NextIsConsistent(settings, fold, After(settings, fold, ordered, n - 1), ordered[n - 1]);
    }
  }

  // ----- the budget

  /** Direct candidates come before all others. */
  ghost predicate DirectFirst(ordered: seq<Candidate>) {
    forall i, j :: 0 <= i < j < |ordered| && IsDirect(ordered[j]) ==> IsDirect(ordered[i])
  }

  lemma SortedIsDirectFirst(candidates: seq<Candidate>)
    ensures DirectFirst(Sort(candidates, HigherPriority))
    ensures multiset(Sort(candidates, HigherPriority)) == multiset(candidates)
    ensures |Sort(candidates, HigherPriority)| == |candidates|
  {
    hide Sort;
    SortSorts(candidates, HigherPriority);
    SortKeepsItems(candidates, HigherPriority);
    var ordered := Sort(candidates, HigherPriority);
    forall i, j | 0 <= i < j < |ordered| && IsDirect(ordered[j])
      ensures IsDirect(ordered[i])
    {
      assert !HigherPriority(ordered[j], ordered[i]);
    }
  }

  lemma {:induction false} EvidenceIsOrdered(settings: Settings, fold: string -> string, ordered: seq<Candidate>,
                                             n: nat, j: nat) returns (i: nat)
    requires n <= |ordered| && j < |After(settings, fold, ordered, n).evidence|
    ensures i < n && FateAt(settings, fold, ordered, i).Admitted? && |After(settings, fold, ordered, i).evidence| == j
    ensures After(settings, fold, ordered, n).evidence[j].candidate == ordered[i]
    ensures After(settings, fold, ordered, n).evidence[j].text == AdmittedText(settings, ordered[i])
    ensures ordered[i].passes <= After(settings, fold, ordered, n).evidence[j].passes
    decreases n
  {
    hide Next, FateOf, AdmittedText;
    var s := After(settings, fold, ordered, n - 1);
    NextEvidence(settings, fold, s, ordered[n - 1]);
    if j < |s.evidence| {
      i := EvidenceIsOrdered(settings, fold, ordered, n - 1, j);
    } else {
      i := n - 1;
    }
  }

  /** As long as only direct evidence was admitted it may use what it needs; anything else stays within the
      budget. */
  ghost predicate WithinBudget(settings: Settings, s: State) {
    && s.used <= Max(settings.maxTokens, DirectTokens(s.evidence))
    && ((exists j :: 0 <= j < |s.evidence| && !IsDirect(s.evidence[j].candidate)) ==> s.used <= settings.maxTokens)
  }

  lemma AdmittedTextNeedsLess(settings: Settings, c: Candidate)
    ensures EstimateTokens(AdmittedText(settings, c)) <= EstimateTokens(c.text)
  {
    hide EstimateTokens, Truncate;
    if MustCut(settings, c) {
      TruncationNeverRaises(c.text, settings.hardTokens.value);
    }
  }

  lemma AdmissionWithinBudget(settings: Settings, fold: string -> string, s: State, e: Evidence, t: State)
    requires WithinBudget(settings, s) && Consistent(fold, s)
    requires t.evidence == s.evidence + [e] && t.used == s.used + EstimateTokens(e.text)
    requires if IsDirect(e.candidate) then forall j :: 0 <= j < |s.evidence| ==> IsDirect(s.evidence[j].candidate)
             else s.used + EstimateTokens(e.text) <= settings.maxTokens
    ensures WithinBudget(settings, t)
  {
    hide EstimateTokens, IsDirect, CandidateKey, TokensOf, DirectTokens;
    TokensOfSnoc(s.evidence, e);
    if IsDirect(e.candidate) {
      assert DirectTokens(s.evidence) == s.used;
      forall j | 0 <= j < |t.evidence|
        ensures IsDirect(t.evidence[j].candidate)
      {
        assert j < |s.evidence| ==> t.evidence[j] == s.evidence[j];
      }
    } else {
      assert t.used <= settings.maxTokens;
    }
  }

  lemma FoldWithinBudget(settings: Settings, s: State, t: State)
    requires WithinBudget(settings, s) && |t.evidence| == |s.evidence| && t.used == s.used
    requires forall j :: 0 <= j < |s.evidence| ==>
               t.evidence[j].text == s.evidence[j].text && t.evidence[j].candidate == s.evidence[j].candidate
    ensures WithinBudget(settings, t)
  {
    hide EstimateTokens, IsDirect, TokensOf, DirectTokens;
    TokensOfSameTexts(s.evidence, t.evidence);
    if j :| 0 <= j < |t.evidence| && !IsDirect(t.evidence[j].candidate) {
      assert !IsDirect(s.evidence[j].candidate);
    }
  }

  lemma {:induction false} AfterIsWithinBudget(settings: Settings, fold: string -> string, ordered: seq<Candidate>,
                                               n: nat)
    requires n <= |ordered| && DirectFirst(ordered)
    ensures WithinBudget(settings, After(settings, fold, ordered, n))
    decreases n
  {
    hide *;
    if n == 0 {
      AfterNothing(settings, fold, ordered);
      NothingWithinBudget(settings);
    } else {
      AfterUnfolds(settings, fold, ordered, n - 1);
      AfterIsWithinBudget(settings, fold, ordered, n - 1);
      AfterIsConsistent(settings, fold, ordered, n - 1);
      if IsDirect(ordered[n - 1]) {
        OnlyDirectBefore(settings, fold, ordered, n - 1);
      }
      NextIsWithinBudget(settings, fold, After(settings, fold, ordered, n - 1), ordered[n - 1]);
    }
  }

  lemma NextIsWithinBudget(settings: Settings, fold: string -> string, s: State, c: Candidate)
    requires WithinBudget(settings, s) && Consistent(fold, s) && Indexed(s)
    requires IsDirect(c) ==> forall j :: 0 <= j < |s.evidence| ==> IsDirect(s.evidence[j].candidate)
    ensures WithinBudget(settings, Next(settings, fold, s, c))
  {
    hide Consistent, CandidateKey, AdmittedText, EstimateTokens, PolicyDropReason, WithinBudget, IsDirect, Notices,
      MergedPasses;
    NextEvidence(settings, fold, s, c);
    if FateOf(settings, fold, s, c).Admitted? {
      AdmittedTextNeedsLess(settings, c);
      AdmissionWithinBudget(settings, fold, s, Evidence(c, AdmittedText(settings, c), c.passes),
                            Next(settings, fold, s, c));
    } else {
      FoldWithinBudget(settings, s, Next(settings, fold, s, c));
    }
  }

  lemma NothingWithinBudget(settings: Settings)
    ensures WithinBudget(settings, State([], [], map[], 0, false))
  {
  }

  /** Before a direct candidate only direct evidence was admitted. */
  lemma OnlyDirectBefore(settings: Settings, fold: string -> string, ordered: seq<Candidate>, n: nat)
    requires n < |ordered| && DirectFirst(ordered) && IsDirect(ordered[n])
    ensures var s := After(settings, fold, ordered, n); forall j :: 0 <= j < |s.evidence| ==>
              IsDirect(s.evidence[j].candidate)
  {
    hide After, IsDirect;
    var s := After(settings, fold, ordered, n);
    forall j | 0 <= j < |s.evidence|
      ensures IsDirect(s.evidence[j].candidate)
    {
      var i := EvidenceIsOrdered(settings, fold, ordered, n, j);
    }
  }

  /** What the assembly of all candidates gives. */
  function Assembled(settings: Settings, fold: string -> string, candidates: seq<Candidate>): State
  {
    var ordered := Sort(candidates, HigherPriority);
    After(settings, fold, ordered, |ordered|)
  }

  /** The total is the sum over the admitted texts, and within the budget or what direct evidence needs;
      when direct evidence alone reaches the budget, nothing else is admitted. */
  lemma BudgetIsKept(settings: Settings, fold: string -> string, candidates: seq<Candidate>)
    ensures var s := Assembled(settings, fold, candidates);
            && s.used == TokensOf(s.evidence)
            && s.used <= Max(settings.maxTokens, DirectTokens(s.evidence))
            && (DirectTokens(s.evidence) >= settings.maxTokens ==>
                  forall j :: 0 <= j < |s.evidence| ==> IsDirect(s.evidence[j].candidate))
  {
    hide After, Sort, EstimateTokens, DirectFirst, IsDirect, TokensOf, DirectTokens;
    var ordered := Sort(candidates, HigherPriority);
    SortedIsDirectFirst(candidates);
    AfterIsConsistent(settings, fold, ordered, |ordered|);
    AfterIsWithinBudget(settings, fold, ordered, |ordered|);
  }

  // ----- what becomes of each candidate

  /** What was admitted stays, at its place and with its text. */
  lemma {:induction false} EvidenceStays(settings: Settings, fold: string -> string, ordered: seq<Candidate>, i: nat,
                                         n: nat, j: nat)
    requires i <= n <= |ordered| && j < |After(settings, fold, ordered, i).evidence|
    ensures j < |After(settings, fold, ordered, n).evidence|
    ensures After(settings, fold, ordered, n).evidence[j].candidate ==
              After(settings, fold, ordered, i).evidence[j].candidate
    ensures After(settings, fold, ordered, n).evidence[j].text == After(settings, fold, ordered, i).evidence[j].text
    ensures After(settings, fold, ordered, i).evidence[j].passes <= After(settings, fold, ordered, n).evidence[j].passes
    decreases n
  {
    hide Next, FateOf, AdmittedText;
    if i < n {
      EvidenceStays(settings, fold, ordered, i, n - 1, j);
      NextEvidence(settings, fold, After(settings, fold, ordered, n - 1), ordered[n - 1]);
    }
  }

  lemma {:induction false} DropStays(settings: Settings, fold: string -> string, ordered: seq<Candidate>, i: nat,
                                     n: nat, d: Dropped)
    requires i <= n <= |ordered| && d in After(settings, fold, ordered, i).dropped
    ensures d in After(settings, fold, ordered, n).dropped
    decreases n
  {
    hide FateOf, AdmittedText, CandidateKey, EstimateTokens, Notices;
    if i < n {
      DropStays(settings, fold, ordered, i, n - 1, d);
    }
  }

  /** Every candidate meets one fate, and the result shows it: an admitted one is an item of its own, a
      folded one has its key and passes in an item, a refused one is listed with its reason. */
  lemma EveryCandidateAccounted(settings: Settings, fold: string -> string, ordered: seq<Candidate>, i: nat)
    requires i < |ordered|
    ensures var s := After(settings, fold, ordered, |ordered|); var c := ordered[i];
            match FateAt(settings, fold, ordered, i)
            case Admitted =>
              var j := |After(settings, fold, ordered, i).evidence|;
              && j < |s.evidence| && s.evidence[j].candidate == c && s.evidence[j].text == AdmittedText(settings, c)
              && c.passes <= s.evidence[j].passes
            case Folded =>
              exists j :: 0 <= j < |s.evidence| && CandidateKey(s.evidence[j].candidate, fold) == CandidateKey(c, fold)
                          && forall p :: p in c.passes ==> p in s.evidence[j].passes
            case Refused(reason) =>
              && Dropped(c.id, reason, EstimateTokens(c.text)) in s.dropped
              && (PolicyDropReason(c) == Some(reason) ||
                  (PolicyDropReason(c).None? && reason == "token_budget" && !IsDirect(c)))
  {
    hide AdmittedText, CandidateKey, EstimateTokens, Notices, PolicyDropReason, After, OverBudget, IsDirect,
      MergedPasses;
    var s, c := After(settings, fold, ordered, i), ordered[i];
    AfterUnfolds(settings, fold, ordered, i);
    match FateOf(settings, fold, s, c)
    case Admitted =>
      EvidenceStays(settings, fold, ordered, i + 1, |ordered|, |s.evidence|);
    case Folded =>
      var j := s.seen[CandidateKey(c, fold)];
      AfterIsConsistent(settings, fold, ordered, i);
      EvidenceStays(settings, fold, ordered, i + 1, |ordered|, j);
    case Refused(reason) =>
      DropStays(settings, fold, ordered, i + 1, |ordered|, Dropped(c.id, reason, EstimateTokens(c.text)));
  }

  // ----- what decides about a candidate, by its fields

  /** Candidates with an exact reference first, then those with exact Arabic text, then all others; within each
      kind they keep their order. */
  ghost function RankOf(c: Candidate): nat {
    if c.referenceExact then 0 else if c.arabicExact then 1 else 2
  }

  lemma OrderTells(candidates: seq<Candidate>, rank: nat)
    ensures var ordered := Sort(candidates, HigherPriority);
            && multiset(ordered) == multiset(candidates)
            && (forall i, j :: 0 <= i < j < |ordered| ==> RankOf(ordered[i]) <= RankOf(ordered[j]))
            && Filter(ordered, (c: Candidate) => RankOf(c) == rank) ==
               Filter(candidates, (c: Candidate) => RankOf(c) == rank)
  {
    hide Sort;
    SortSorts(candidates, HigherPriority);
    SortKeepsItems(candidates, HigherPriority);
    SortIsStable(candidates, HigherPriority, (c: Candidate) => RankOf(c) == rank);
    var ordered := Sort(candidates, HigherPriority);
    forall i, j | 0 <= i < j < |ordered|
      ensures RankOf(ordered[i]) <= RankOf(ordered[j])
    {
      assert !HigherPriority(ordered[j], ordered[i]);
    }
  }

  lemma KeyTells(c: Candidate, fold: string -> string)
    ensures c.chunkId != "" ==> CandidateKey(c, fold) == c.chunkId
    ensures c.chunkId == "" ==> CandidateKey(c, fold) == fold(Strip(c.text))
    ensures IsDirect(c) <==> c.referenceExact || c.arabicExact
  {
    hide Strip;
  }

  /** Why a candidate is refused whatever the budget: it is blocked; or its runtime bridge is missing; or its
      projection is stale; or its ranking failed, in this order. */
  ghost predicate IsPolicyReason(c: Candidate, reason: string) {
    || (reason == "quality_policy_block" && c.blocked)
    || (reason == "runtime_bridge_missing" && !c.blocked && "runtime_bridge_missing" in c.risks)
    || (reason == "graph_projection_stale" && !c.blocked && "runtime_bridge_missing" !in c.risks
        && "graph_projection_stale" in c.risks)
    || (reason == "reranker_degraded" && !c.blocked && "runtime_bridge_missing" !in c.risks
        && "graph_projection_stale" !in c.risks && c.degraded)
  }

  lemma PolicyTells(c: Candidate)
    ensures forall reason :: PolicyDropReason(c) == Some(reason) <==> IsPolicyReason(c, reason)
    ensures PolicyDropReason(c) == None <==>
              && !c.blocked && "runtime_bridge_missing" !in c.risks && "graph_projection_stale" !in c.risks
              && !c.degraded
    ensures PolicyDropReason(c) != Some("token_budget")
  {
  }

  /** An admitted candidate with the key of this one stands before it. */
  ghost predicate KeyTaken(fold: string -> string, s: State, c: Candidate) {
    exists j :: 0 <= j < |s.evidence| && CandidateKey(s.evidence[j].candidate, fold) == CandidateKey(c, fold)
  }

  /** What becomes of a candidate. It is folded when its key is taken. Otherwise it is refused when there is a
      policy reason, or when it is not direct and its tokens and those of the evidence before it exceed the
      budget. Otherwise it is admitted. */
  lemma FateTells(settings: Settings, fold: string -> string, ordered: seq<Candidate>, i: nat)
    requires i < |ordered|
    ensures var s, c, fate := After(settings, fold, ordered, i), ordered[i], FateAt(settings, fold, ordered, i);
            var over := TokensOf(s.evidence) + EstimateTokens(c.text) > settings.maxTokens;
            var reasonable := exists reason :: IsPolicyReason(c, reason);
            && (fate == Folded <==> KeyTaken(fold, s, c))
            && (fate == Refused("token_budget") <==>
                  !KeyTaken(fold, s, c) && !reasonable && !c.referenceExact && !c.arabicExact && over)
            && (forall reason :: reason != "token_budget" ==>
                  (fate == Refused(reason) <==> !KeyTaken(fold, s, c) && IsPolicyReason(c, reason)))
            && (fate == Admitted <==>
                  !KeyTaken(fold, s, c) && !reasonable && (c.referenceExact || c.arabicExact || !over))
  {
    hide After, CandidateKey, TokensOf, EstimateTokens, PolicyDropReason, IsPolicyReason;
    var s, c := After(settings, fold, ordered, i), ordered[i];
    AfterIsConsistent(settings, fold, ordered, i);
    PolicyTells(c);
    assert (exists reason :: IsPolicyReason(c, reason)) <==> PolicyDropReason(c).Some? by {
      if PolicyDropReason(c).Some? {
        assert IsPolicyReason(c, PolicyDropReason(c).value);
      }
    }
  }

  /** A text is cut exactly when it is over the hard limit, if there is one. */
  lemma CutTells(settings: Settings, c: Candidate)
    ensures (settings.hardTokens == None || EstimateTokens(c.text) <= settings.hardTokens.value) ==>
              AdmittedText(settings, c) == c.text && !MustCut(settings, c)
    ensures settings.hardTokens.Some? && EstimateTokens(c.text) > settings.hardTokens.value ==>
              AdmittedText(settings, c) == Truncate(c.text, settings.hardTokens.value) && MustCut(settings, c)
  {
    hide EstimateTokens, Truncate;
  }

  /** Both notices of an admission are listed when they are due. */
  lemma NoticesAreListed(settings: Settings, fold: string -> string, ordered: seq<Candidate>, i: nat)
    requires i < |ordered| && FateAt(settings, fold, ordered, i) == Admitted
    ensures var s, c := After(settings, fold, ordered, i), ordered[i];
            var dropped := After(settings, fold, ordered, |ordered|).dropped;
            && (TokensOf(s.evidence) + EstimateTokens(c.text) > settings.maxTokens ==>
                  Dropped(c.id, "direct_evidence_preserved_over_budget", EstimateTokens(c.text)) in dropped)
            && (settings.hardTokens.Some? && EstimateTokens(c.text) > settings.hardTokens.value ==>
                  Dropped(c.id, "context_truncated",
                          EstimateTokens(Truncate(c.text, settings.hardTokens.value))) in dropped)
  {
    hide After, CandidateKey, TokensOf, EstimateTokens, PolicyDropReason, Truncate, IsDirect, Consistent;
    var s, c := After(settings, fold, ordered, i), ordered[i];
    UsedIsSum(settings, fold, ordered, i);
    AfterUnfolds(settings, fold, ordered, i);
    var next := After(settings, fold, ordered, i + 1);
    forall d | d in Notices(settings, s, c)
      ensures d in After(settings, fold, ordered, |ordered|).dropped
    {
      assert d in next.dropped;
      DropStays(settings, fold, ordered, i + 1, |ordered|, d);
    }
  }

  lemma UsedIsSum(settings: Settings, fold: string -> string, ordered: seq<Candidate>, n: nat)
    requires n <= |ordered|
    ensures After(settings, fold, ordered, n).used == TokensOf(After(settings, fold, ordered, n).evidence)
  {
    hide After, CandidateKey, TokensOf, IsDirect;
    AfterIsConsistent(settings, fold, ordered, n);
  }

  /** The passes of an item are exactly those of the candidates with its key that were not refused. */
  lemma {:induction false} PassesComeFrom(settings: Settings, fold: string -> string, ordered: seq<Candidate>,
                                          n: nat, j: nat, p: string) returns (i: nat)
    requires n <= |ordered| && j < |After(settings, fold, ordered, n).evidence|
    requires p in After(settings, fold, ordered, n).evidence[j].passes
    ensures i < n && p in ordered[i].passes && !FateAt(settings, fold, ordered, i).Refused?
    ensures CandidateKey(ordered[i], fold) ==
              CandidateKey(After(settings, fold, ordered, n).evidence[j].candidate, fold)
    decreases n
  {
    hide Next, CandidateKey, FateOf, Consistent;
    var s, c := After(settings, fold, ordered, n - 1), ordered[n - 1];
    AfterIsConsistent(settings, fold, ordered, n - 1);
    NextEvidence(settings, fold, s, c);
    if j < |s.evidence| && p in s.evidence[j].passes {
      i := PassesComeFrom(settings, fold, ordered, n - 1, j, p);
    } else {
      NextPasses(settings, fold, s, c, j, p);
      i := n - 1;
    }
  }

  lemma NextPasses(settings: Settings, fold: string -> string, s: State, c: Candidate, j: nat, p: string)
    requires Indexed(s) && Consistent(fold, s) && j < |Next(settings, fold, s, c).evidence|
    requires p in Next(settings, fold, s, c).evidence[j].passes && !(j < |s.evidence| && p in s.evidence[j].passes)
    ensures p in c.passes && !FateOf(settings, fold, s, c).Refused?
    ensures CandidateKey(Next(settings, fold, s, c).evidence[j].candidate, fold) == CandidateKey(c, fold)
  {
    hide AdmittedText, CandidateKey, EstimateTokens, Notices, PolicyDropReason, IsDirect, OverBudget, Consistent,
      MergedPasses;
    KeysAreTheirs(fold, s);
  }

  lemma KeysAreTheirs(fold: string -> string, s: State)
    requires Consistent(fold, s)
    ensures forall k :: k in s.seen ==>
              s.seen[k] < |s.evidence| && CandidateKey(s.evidence[s.seen[k]].candidate, fold) == k
  {
    hide TokensOf, CandidateKey;
  }

  /** The entry of the list of drops tells of this candidate: it was refused for this reason, or admitted
      with this notice. */
  ghost predicate TellsOf(settings: Settings, fold: string -> string, s: State, c: Candidate, d: Dropped) {
    && d.candidateId == c.id
    && match FateOf(settings, fold, s, c)
       case Admitted =>
         || (d.reason == "direct_evidence_preserved_over_budget" && d.tokens == EstimateTokens(c.text)
             && IsDirect(c) && OverBudget(settings, s, c))
         || (d.reason == "context_truncated" && d.tokens == EstimateTokens(AdmittedText(settings, c))
             && MustCut(settings, c))
       case Folded => false
       case Refused(reason) => d.reason == reason && d.tokens == EstimateTokens(c.text)
  }

  lemma NextDrops(settings: Settings, fold: string -> string, s: State, c: Candidate)
    requires Indexed(s)
    ensures s.dropped <= Next(settings, fold, s, c).dropped
    ensures forall j :: |s.dropped| <= j < |Next(settings, fold, s, c).dropped| ==>
              TellsOf(settings, fold, s, c, Next(settings, fold, s, c).dropped[j])
  {
    hide AdmittedText, CandidateKey, EstimateTokens, PolicyDropReason, IsDirect, MergedPasses, MustCut, OverBudget;
  }

  /** Nothing else is listed: every entry tells of one candidate, and the entries stand in the order of the
      candidates. */
  lemma {:induction false} DropsAreOrdered(settings: Settings, fold: string -> string, ordered: seq<Candidate>,
                                           n: nat, j: nat) returns (i: nat)
    requires n <= |ordered| && j < |After(settings, fold, ordered, n).dropped|
    ensures i < n
    ensures TellsOf(settings, fold, After(settings, fold, ordered, i), ordered[i],
                    After(settings, fold, ordered, n).dropped[j])
    ensures |After(settings, fold, ordered, i).dropped| <= j < |After(settings, fold, ordered, i + 1).dropped|
    decreases n
  {
    hide Next, TellsOf;
    var s := After(settings, fold, ordered, n - 1);
    NextDrops(settings, fold, s, ordered[n - 1]);
    if j < |s.dropped| {
      i := DropsAreOrdered(settings, fold, ordered, n - 1, j);
    } else {
      i := n - 1;
    }
  }

  lemma AfterNothing(settings: Settings, fold: string -> string, ordered: seq<Candidate>)
    ensures After(settings, fold, ordered, 0) == State([], [], map[], 0, false)
  {
  }

  lemma AfterUnfolds(settings: Settings, fold: string -> string, ordered: seq<Candidate>, i: nat)
    requires i < |ordered|
    ensures After(settings, fold, ordered, i + 1) == Next(settings, fold, After(settings, fold, ordered, i), ordered[i])
  {
  }

  /** Admitted keys are distinct. */
  lemma KeysAreDistinct(settings: Settings, fold: string -> string, ordered: seq<Candidate>, j: nat, k: nat)
    requires j < k < |After(settings, fold, ordered, |ordered|).evidence|
    ensures var s := After(settings, fold, ordered, |ordered|);
            CandidateKey(s.evidence[j].candidate, fold) != CandidateKey(s.evidence[k].candidate, fold)
  {
    hide After, CandidateKey;
    AfterIsConsistent(settings, fold, ordered, |ordered|);
  }

  /** The flag is set exactly when some direct candidate has no reason to be dropped. A duplicate of such a
      candidate counts, because what it is folded into stands no lower. */
  lemma {:induction false} DirectFlag(settings: Settings, fold: string -> string, ordered: seq<Candidate>, n: nat)
    requires n <= |ordered| && DirectFirst(ordered)
    ensures After(settings, fold, ordered, n).direct <==>
              exists i :: 0 <= i < n && IsDirect(ordered[i]) && PolicyDropReason(ordered[i]).None?
    decreases n
  {
    hide After, CandidateKey, PolicyDropReason, IsDirect, DirectFirst, Next;
    if n == 0 {
      AfterNothing(settings, fold, ordered);
    } else {
      DirectFlag(settings, fold, ordered, n - 1);
      var s, c := After(settings, fold, ordered, n - 1), ordered[n - 1];
      AfterUnfolds(settings, fold, ordered, n - 1);
      NextDirect(settings, fold, s, c);
      if IsDirect(c) && CandidateKey(c, fold) in s.seen {
        FoldedIntoDirect(settings, fold, ordered, n - 1);
      }
    }
  }

  lemma NextDirect(settings: Settings, fold: string -> string, s: State, c: Candidate)
    requires Indexed(s)
    ensures Next(settings, fold, s, c).direct <==>
              s.direct || (IsDirect(c) && PolicyDropReason(c).None? && CandidateKey(c, fold) !in s.seen)
  {
    hide AdmittedText, CandidateKey, EstimateTokens, Notices, PolicyDropReason, IsDirect, MergedPasses;
  }

  lemma FoldedIntoDirect(settings: Settings, fold: string -> string, ordered: seq<Candidate>, n: nat)
    requires n < |ordered| && DirectFirst(ordered) && IsDirect(ordered[n])
    requires CandidateKey(ordered[n], fold) in After(settings, fold, ordered, n).seen
    ensures After(settings, fold, ordered, n).direct
  {
    hide After, CandidateKey, IsDirect, DirectFirst;
    var s := After(settings, fold, ordered, n);
    OnlyDirectBefore(settings, fold, ordered, n);
    AfterIsConsistent(settings, fold, ordered, n);
    assert IsDirect(s.evidence[s.seen[CandidateKey(ordered[n], fold)]].candidate);
  }

  /** The answer is grounded exactly when some direct candidate has no reason to be dropped. */
  lemma GroundedExactly(settings: Settings, fold: string -> string, candidates: seq<Candidate>)
    ensures Assembled(settings, fold, candidates).direct <==>
              exists c :: c in candidates && IsDirect(c) && PolicyDropReason(c).None?
  {
    hide After, Sort, IsDirect, PolicyDropReason, DirectFirst;
    var ordered := Sort(candidates, HigherPriority);
    SortedIsDirectFirst(candidates);
    SameItems(candidates, ordered);
    DirectFlag(settings, fold, ordered, |ordered|);
    if c :| c in candidates && IsDirect(c) && PolicyDropReason(c).None? {
      var i :| 0 <= i < |ordered| && ordered[i] == c;
    }
    if i :| 0 <= i < |ordered| && IsDirect(ordered[i]) && PolicyDropReason(ordered[i]).None? {
      assert ordered[i] in candidates;
    }
  }

  datatype AssembledContext = AssembledContext(evidence: seq<Evidence>, dropped: seq<Dropped>, totalTokens: int,
                                               grounded: bool)

  method Assemble(settings: Settings, fold: string -> string, candidates: seq<Candidate>)
    returns (context: AssembledContext)
    ensures var s := Assembled(settings, fold, candidates);
            context == AssembledContext(s.evidence, s.dropped, s.used, s.direct)
  {
    hide AdmittedText, CandidateKey, EstimateTokens, PolicyDropReason, IsDirect, Sort, MergedPasses;
    var ordered := Sort(candidates, HigherPriority);
    var evidence: seq<Evidence>, dropped: seq<Dropped>, seen: map<string, nat> := [], [], map[];
    var usedTokens, includedDirectEvidence := 0, false;
    AfterNothing(settings, fold, ordered);
    hide After;
    for i := 0 to |ordered|
      invariant State(evidence, dropped, seen, usedTokens, includedDirectEvidence) == After(settings, fold, ordered, i)
    {
      var c := ordered[i];
      AfterUnfolds(settings, fold, ordered, i);
      var key := CandidateKey(c, fold);
      if key in seen {
        var existing := evidence[seen[key]];
        var passes := MergePasses(existing.passes, c.passes);
        evidence := evidence[seen[key] := existing.(passes := passes)];
        continue;
      }
      var estimated := EstimateTokens(c.text);
      var reason := PolicyDropReason(c);
      if reason.Some? {
        dropped := dropped + [Dropped(c.id, reason.value, estimated)];
        continue;
      }
      var overBudget := usedTokens + estimated > settings.maxTokens;
      if overBudget && !IsDirect(c) {
        dropped := dropped + [Dropped(c.id, "token_budget", estimated)];
        continue;
      }
      ghost var before := dropped;
      if overBudget {
        dropped := dropped + [Dropped(c.id, "direct_evidence_preserved_over_budget", estimated)];
      }
      var text := c.text;
      if settings.hardTokens.Some? && estimated > settings.hardTokens.value {
        text := Truncate(c.text, settings.hardTokens.value);
        estimated := EstimateTokens(text);
        dropped := dropped + [Dropped(c.id, "context_truncated", estimated)];
      }
      TextIs(settings, c);
      assert dropped == before + Notices(settings, After(settings, fold, ordered, i), c);
      seen := seen[key := |evidence|];
      evidence := evidence + [Evidence(c, text, c.passes)];
      includedDirectEvidence := includedDirectEvidence || IsDirect(c);
      usedTokens := usedTokens + estimated;
    }
    context := AssembledContext(evidence, dropped, usedTokens, includedDirectEvidence);
  }

  lemma TextIs(settings: Settings, c: Candidate)
    ensures AdmittedText(settings, c) ==
              if settings.hardTokens.Some? && EstimateTokens(c.text) > settings.hardTokens.value
              then Truncate(c.text, settings.hardTokens.value) else c.text
  {
  }
}
