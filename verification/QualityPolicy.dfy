/**
 What may be done with a chunk: the policy of each reference in it, the policy of the chunk that these add
 up to, and what parser warnings do to that afterwards. Flags are kept sorted and without repeats by the
 source, so a set stands for them.
 */
module QualityPolicy {
  import opened Wrappers
  import opened Text

  datatype Confidence = High | Degraded | Blocked

  /** The keys of a policy that are read elsewhere. A key that is missing counts as `true`. */
  datatype Policy = Policy(persistChunk: bool, indexVector: bool, indexExactArabic: bool, projectGraph: bool,
                           confidence: Confidence, flags: set<string>, status: Option<string>, action: Option<string>)

  /** What was found about one reference. */
  datatype Finding = Finding(status: string, flags: set<string>, missingScripts: seq<string>, action: string)

  predicate BlocksReference(action: string) {
    action == "block_reference_materialization" || action == "quarantine_reference_unit"
  }

  function ReferencePolicy(f: Finding): Policy {
    var blocked := BlocksReference(f.action);
    Policy(true, !blocked, !(blocked || "arabic" in f.missingScripts), !blocked,
           if blocked then Blocked else if f.flags != {} then Degraded else High,
           f.flags, Some(f.status), Some(f.action))
  }

  /** The policies of the references, of those that have one. */
  function Policies(records: seq<Option<Policy>>): seq<Policy> {
    if records == [] then []
    else
      var last := records[|records| - 1];
      Policies(records[..|records| - 1]) + (if last.Some? then [last.value] else [])
  }

  function AllFlags(policies: seq<Policy>): set<string> {
    set p, flag | p in policies && flag in p.flags && flag != "" :: flag
  }

  function ChunkPolicy(records: seq<Option<Policy>>): Option<Policy> {
    var policies := Policies(records);
    if policies == [] then None
    else
      var project := forall p :: p in policies ==> p.projectGraph;
      Some(Policy(true, forall p :: p in policies ==> p.indexVector,
                  forall p :: p in policies ==> p.indexExactArabic, project,
                  if !project then Blocked else if AllFlags(policies) != {} then Degraded else High,
                  AllFlags(policies), None, None))
  }

  lemma {:induction false} PolicyMembers(records: seq<Option<Policy>>, p: Policy)
    ensures p in Policies(records) <==> Some(p) in records
    decreases |records|
  {
    if records != [] {
      var init, last := records[..|records| - 1], records[|records| - 1];
      PolicyMembers(init, p);
      assert records == init + [last];
    }
  }

  /** Whether a chunk goes into the graph: a chunk without a policy does. */
  predicate ProjectsGraph(policy: Option<Policy>) {
    policy.None? || (policy.value.projectGraph && policy.value.confidence != Blocked)
  }

  /** The references of a chunk let it into the graph exactly when none of them is blocked or quarantined. */
  lemma ReferencesDecide(records: seq<Option<Policy>>, findings: seq<Option<Finding>>)
    requires |records| == |findings|
    requires forall i :: 0 <= i < |records| ==>
               records[i] == match findings[i] case None => None case Some(f) => Some(ReferencePolicy(f))
    ensures ProjectsGraph(ChunkPolicy(records)) <==>
              forall i :: 0 <= i < |findings| && findings[i].Some? ==> !BlocksReference(findings[i].value.action)
    ensures ChunkPolicy(records).Some? ==>
              (ChunkPolicy(records).value.projectGraph <==> ChunkPolicy(records).value.confidence != Blocked)
  {
    hide ReferencePolicy, BlocksReference;
    forall p
      ensures p in Policies(records) <==> Some(p) in records
    {
      PolicyMembers(records, p);
    }
    forall i | 0 <= i < |findings| && findings[i].Some?
      ensures ReferencePolicy(findings[i].value) in Policies(records)
      ensures ReferencePolicy(findings[i].value).projectGraph <==> !BlocksReference(findings[i].value.action)
    {
      assert records[i] in records;
      BlockedReference(findings[i].value);
    }
  }

  lemma BlockedReference(f: Finding)
    ensures ReferencePolicy(f).projectGraph <==> !BlocksReference(f.action)
    ensures ReferencePolicy(f).confidence == Blocked <==> BlocksReference(f.action)
  {
  }

  /** The two actions that keep a reference out. */
  ghost predicate KeepsOut(f: Finding) {
    f.action == "block_reference_materialization" || f.action == "quarantine_reference_unit"
  }

  lemma ReferencePolicyTells(f: Finding)
    ensures var p := ReferencePolicy(f);
            && p.persistChunk && p.flags == f.flags && p.status == Some(f.status) && p.action == Some(f.action)
            && (p.projectGraph <==> !KeepsOut(f)) && (p.indexVector <==> !KeepsOut(f))
            && (p.indexExactArabic <==> !KeepsOut(f) && "arabic" !in f.missingScripts)
            && (p.confidence == Blocked <==> KeepsOut(f))
            && (p.confidence == Degraded <==> !KeepsOut(f) && f.flags != {})
  {
  }

  ghost predicate SomeKeptOut(findings: seq<Option<Finding>>) {
    exists i :: 0 <= i < |findings| && findings[i].Some? && KeepsOut(findings[i].value)
  }

  ghost predicate SomeMissesArabic(findings: seq<Option<Finding>>) {
    exists i :: 0 <= i < |findings| && findings[i].Some? && "arabic" in findings[i].value.missingScripts
  }

  ghost predicate SomeHasFlag(findings: seq<Option<Finding>>, flag: string) {
    exists i :: 0 <= i < |findings| && findings[i].Some? && flag in findings[i].value.flags
  }

  /** The records of a chunk carry the policies of these findings. */
  ghost predicate AreOf(records: seq<Option<Policy>>, findings: seq<Option<Finding>>) {
    && |records| == |findings|
    && forall i :: 0 <= i < |records| ==>
         records[i] == match findings[i] case None => None case Some(f) => Some(ReferencePolicy(f))
  }

  lemma PolicyOfFinding(records: seq<Option<Policy>>, findings: seq<Option<Finding>>, i: nat)
    requires AreOf(records, findings) && i < |findings| && findings[i].Some?
    ensures ReferencePolicy(findings[i].value) in Policies(records)
  {
    hide ReferencePolicy;
    assert records[i] in records;
    PolicyMembers(records, ReferencePolicy(findings[i].value));
  }

  lemma FindingOfPolicy(records: seq<Option<Policy>>, findings: seq<Option<Finding>>, p: Policy) returns (i: nat)
    requires AreOf(records, findings) && p in Policies(records)
    ensures i < |findings| && findings[i].Some? && p == ReferencePolicy(findings[i].value)
  {
    hide ReferencePolicy;
    PolicyMembers(records, p);
    i :| 0 <= i < |records| && records[i] == Some(p);
  }

  lemma GraphOfChunk(records: seq<Option<Policy>>, findings: seq<Option<Finding>>)
    requires AreOf(records, findings)
    ensures (forall p :: p in Policies(records) ==> p.projectGraph) <==> !SomeKeptOut(findings)
    ensures (forall p :: p in Policies(records) ==> p.indexVector) <==> !SomeKeptOut(findings)
  {
    hide ReferencePolicy, KeepsOut, Policies, AreOf;
    if i :| 0 <= i < |findings| && findings[i].Some? && KeepsOut(findings[i].value) {
      PolicyOfFinding(records, findings, i);
      ReferencePolicyTells(findings[i].value);
    } else {
      forall p | p in Policies(records)
        ensures p.projectGraph && p.indexVector
      {
        var i := FindingOfPolicy(records, findings, p);
        ReferencePolicyTells(findings[i].value);
      }
    }
  }

  lemma ArabicOfChunk(records: seq<Option<Policy>>, findings: seq<Option<Finding>>)
    requires AreOf(records, findings)
    ensures (forall p :: p in Policies(records) ==> p.indexExactArabic) <==>
              !SomeKeptOut(findings) && !SomeMissesArabic(findings)
  {
    hide ReferencePolicy, KeepsOut, Policies, AreOf;
    if i :| 0 <= i < |findings| && findings[i].Some? &&
            (KeepsOut(findings[i].value) || "arabic" in findings[i].value.missingScripts) {
      PolicyOfFinding(records, findings, i);
      ReferencePolicyTells(findings[i].value);
    } else {
      forall p | p in Policies(records)
        ensures p.indexExactArabic
      {
        var i := FindingOfPolicy(records, findings, p);
        ReferencePolicyTells(findings[i].value);
      }
    }
  }

  lemma FlagsOfChunk(records: seq<Option<Policy>>, findings: seq<Option<Finding>>, flag: string)
    requires AreOf(records, findings)
    ensures flag in AllFlags(Policies(records)) <==> flag != "" && SomeHasFlag(findings, flag)
  {
    hide ReferencePolicy, Policies, AreOf;
    if flag in AllFlags(Policies(records)) {
      var p :| p in Policies(records) && flag in p.flags && flag != "";
      var i := FindingOfPolicy(records, findings, p);
      ReferencePolicyTells(findings[i].value);
    }
    if i :| 0 <= i < |findings| && findings[i].Some? && flag in findings[i].value.flags && flag != "" {
      PolicyOfFinding(records, findings, i);
      ReferencePolicyTells(findings[i].value);
    }
  }

  lemma ChunkHasPolicy(records: seq<Option<Policy>>, findings: seq<Option<Finding>>)
    requires AreOf(records, findings)
    ensures Policies(records) == [] <==> forall i :: 0 <= i < |findings| ==> findings[i] == None
  {
    hide ReferencePolicy, AreOf;
    if i :| 0 <= i < |findings| && findings[i].Some? {
      PolicyOfFinding(records, findings, i);
    } else if Policies(records) != [] {
      assert Policies(records)[0] in Policies(records);
      var i := FindingOfPolicy(records, findings, Policies(records)[0]);
    }
  }

  /** The policy of a chunk, told by the findings on its references: one that is kept out keeps the chunk out of
      graph and index; a missing Arabic script keeps it out of the index of exact Arabic; flags are collected. */
  lemma ChunkPolicyTells(records: seq<Option<Policy>>, findings: seq<Option<Finding>>)
    requires AreOf(records, findings)
    ensures ChunkPolicy(records) == None <==> forall i :: 0 <= i < |findings| ==> findings[i] == None
    ensures ChunkPolicy(records).Some? ==>
              var p, keptOut := ChunkPolicy(records).value, SomeKeptOut(findings);
              && p.persistChunk && p.status == None && p.action == None
              && (p.projectGraph <==> !keptOut) && (p.indexVector <==> !keptOut)
              && (p.indexExactArabic <==> !keptOut && !SomeMissesArabic(findings))
              && (forall flag :: flag in p.flags <==> flag != "" && SomeHasFlag(findings, flag))
              && (p.confidence == Blocked <==> keptOut) && (p.confidence == Degraded <==> !keptOut && p.flags != {})
  {
    hide ReferencePolicy, KeepsOut, Policies, AreOf, AllFlags, SomeKeptOut, SomeMissesArabic, SomeHasFlag;
    ChunkHasPolicy(records, findings);
    GraphOfChunk(records, findings);
    ArabicOfChunk(records, findings);
    forall flag
      ensures flag in AllFlags(Policies(records)) <==> flag != "" && SomeHasFlag(findings, flag)
    {
      FlagsOfChunk(records, findings, flag);
    }
  }

  // ----- parser warnings

  datatype Warning = Warning(severity: string, gateAction: string, action: string, reason: string, code: Option<string>)

  /** `fold` is `str.casefold`. */
  predicate Blocks(w: Warning, fold: string -> string) {
    || fold(Strip(if w.gateAction != "" then w.gateAction else w.action)) == "block"
    || (fold(Strip(w.severity)) == "block" && "layout_quality_policy." <= w.reason)
  }

  /** A gate action counts before an action; severity "block" counts only for layout quality. */
  lemma BlocksByFields(w: Warning, fold: string -> string)
    ensures Blocks(w, fold) <==>
              || (w.gateAction != "" && fold(Strip(w.gateAction)) == "block")
              || (w.gateAction == "" && fold(Strip(w.action)) == "block")
              || (fold(Strip(w.severity)) == "block" && "layout_quality_policy." <= w.reason)
  {
    hide Strip;
  }

  predicate AnyBlocks(warnings: seq<Warning>, fold: string -> string) {
    exists i :: 0 <= i < |warnings| && Blocks(warnings[i], fold)
  }

  /** The flag a blocking warning leaves, when it has a code. */
  function CodeFlags(w: Warning, fold: string -> string): (flags: set<string>)
    ensures "" !in flags
  {
    if Blocks(w, fold) && w.code.Some? && w.code.value != "" then {"parser_quality_block:" + w.code.value} else {}
  }

  function BlockingCodes(warnings: seq<Warning>, fold: string -> string): (flags: set<string>)
    ensures "" !in flags
  {
    if warnings == [] then {}
    else BlockingCodes(warnings[..|warnings| - 1], fold) + CodeFlags(warnings[|warnings| - 1], fold)
  }

  /** A policy after the parser stage. */
  function AfterParser(policy: Option<Policy>, warnings: seq<Warning>, fold: string -> string): Option<Policy> {
    if !AnyBlocks(warnings, fold) then policy
    else Some(Policy(if policy.Some? then policy.value.persistChunk else true, false, false, false, Blocked,
                     (if policy.Some? then policy.value.flags - {""} else {}) + BlockingCodes(warnings, fold),
                     Some("parser_quality_blocked"), Some("block_parser_quality_materialization")))
  }

  /** The warning blocks and leaves this flag. */
  ghost predicate LeavesFlag(w: Warning, flag: string, fold: string -> string) {
    Blocks(w, fold) && w.code.Some? && w.code.value != "" && flag == "parser_quality_block:" + w.code.value
  }

  lemma {:induction false} CodesOfWarnings(warnings: seq<Warning>, flag: string, fold: string -> string)
    ensures flag in BlockingCodes(warnings, fold) <==>
              exists i :: 0 <= i < |warnings| && LeavesFlag(warnings[i], flag, fold)
    decreases |warnings|
  {
    hide Blocks;
    if warnings != [] {
      var init, last := warnings[..|warnings| - 1], warnings[|warnings| - 1];
      CodesOfWarnings(init, flag, fold);
      if i :| 0 <= i < |init| && LeavesFlag(init[i], flag, fold) {
        assert LeavesFlag(warnings[i], flag, fold);
      }
      if i :| 0 <= i < |warnings| && LeavesFlag(warnings[i], flag, fold) {
        assert i < |init| ==> LeavesFlag(init[i], flag, fold);
      }
    }
  }

  /** A policy after the parser stage: one blocking warning switches the index and the graph off and says why;
      its flags are those there were and one for the code of every blocking warning. */
  lemma ParserTells(policy: Option<Policy>, warnings: seq<Warning>, fold: string -> string)
    ensures (forall i :: 0 <= i < |warnings| ==> !Blocks(warnings[i], fold)) ==>
              AfterParser(policy, warnings, fold) == policy
    ensures (exists i :: 0 <= i < |warnings| && Blocks(warnings[i], fold)) ==>
              && AfterParser(policy, warnings, fold).Some?
              && var p := AfterParser(policy, warnings, fold).value;
                 && p.indexVector == p.indexExactArabic == p.projectGraph == false && p.confidence == Blocked
                 && p.status == Some("parser_quality_blocked")
                 && p.action == Some("block_parser_quality_materialization")
                 && (p.persistChunk <==> (policy.Some? ==> policy.value.persistChunk))
                 && forall flag :: flag in p.flags <==>
                      || (policy.Some? && flag in policy.value.flags && flag != "")
                      || exists i :: 0 <= i < |warnings| && LeavesFlag(warnings[i], flag, fold)
  {
    hide Blocks, BlockingCodes, LeavesFlag;
    forall flag
      ensures flag in BlockingCodes(warnings, fold) <==>
                exists i :: 0 <= i < |warnings| && LeavesFlag(warnings[i], flag, fold)
    {
      CodesOfWarnings(warnings, flag, fold);
    }
  }

  /** Parser warnings only ever take away: what the policy allowed before and no warning blocks. */
  lemma ParserNeverReenables(policy: Option<Policy>, warnings: seq<Warning>, fold: string -> string)
    ensures ProjectsGraph(AfterParser(policy, warnings, fold)) <==>
              ProjectsGraph(policy) && !AnyBlocks(warnings, fold)
    ensures var after := AfterParser(policy, warnings, fold);
            policy.Some? ==>
              && after.Some? && after.value.persistChunk == policy.value.persistChunk
              && (after.value.indexVector ==> policy.value.indexVector)
              && (after.value.indexExactArabic ==> policy.value.indexExactArabic)
              && policy.value.flags - {""} <= after.value.flags
  {
    hide Blocks;
  }

  lemma ParserTwice(policy: Option<Policy>, warnings: seq<Warning>, fold: string -> string)
    ensures AfterParser(AfterParser(policy, warnings, fold), warnings, fold) == AfterParser(policy, warnings, fold)
  {
    hide AnyBlocks, BlockingCodes;
    if AnyBlocks(warnings, fold) {
      var codes := BlockingCodes(warnings, fold);
      var flags := (if policy.Some? then policy.value.flags - {""} else {}) + codes;
      assert flags - {""} + codes == flags;
    }
  }

  /** The flags of the metadata follow those of a policy that was blocked. */
  function FlagsAfter(flags: set<string>, policy: Option<Policy>, warnings: seq<Warning>,
                      fold: string -> string): set<string>
  {
    if AnyBlocks(warnings, fold) && policy.Some? then policy.value.flags else flags
  }

  lemma FlagsTwice(flags: set<string>, policy: Option<Policy>, warnings: seq<Warning>, fold: string -> string)
    ensures FlagsAfter(FlagsAfter(flags, policy, warnings, fold), policy, warnings, fold) ==
              FlagsAfter(flags, policy, warnings, fold)
  {
  }

  /** The metadata of a chunk, as far as policies go. */
  class ChunkMetadata {
    const warnings: seq<Warning>
    var policy: Option<Policy>
    var flags: set<string>

    constructor (warnings: seq<Warning>, policy: Option<Policy>)
      ensures this.warnings == warnings && this.policy == policy
      ensures flags == if policy.Some? then policy.value.flags else {}
    {
      this.warnings, this.policy := warnings, policy;
      flags := if policy.Some? then policy.value.flags else {};
    }

    ghost predicate IsApplied(before: Option<Policy>, flagsBefore: set<string>, fold: string -> string)
      reads this
    {
      policy == AfterParser(before, warnings, fold) && flags == FlagsAfter(flagsBefore, policy, warnings, fold)
    }

    /** Blocks the chunk when a parser warning says so. */
    method ApplyParserWarnings(fold: string -> string)
      modifies this
      ensures policy == AfterParser(old(policy), warnings, fold)
      ensures flags == FlagsAfter(old(flags), policy, warnings, fold)
    {
      hide Blocks, CodeFlags, BlockingCodes, AnyBlocks;
      var blocking := false;
      var more: set<string> := if policy.Some? then policy.value.flags - {""} else {};
      NoWarnings(fold);
      assert warnings[..0] == [];
      for i := 0 to |warnings|
        invariant policy == old(policy) && flags == old(flags)
        invariant blocking <==> AnyBlocks(warnings[..i], fold)
        invariant more == (if policy.Some? then policy.value.flags - {""} else {}) + BlockingCodes(warnings[..i], fold)
      {
        OneMoreWarning(warnings, i, fold);
        if Blocks(warnings[i], fold) {
          blocking := true;
          if warnings[i].code.Some? && warnings[i].code.value != "" {
            more := more + {"parser_quality_block:" + warnings[i].code.value};
          }
        }
      }
      assert warnings[..|warnings|] == warnings;
      if blocking {
        policy := Some(Policy(if policy.Some? then policy.value.persistChunk else true, false, false, false, Blocked,
                              more, Some("parser_quality_blocked"), Some("block_parser_quality_materialization")));
        flags := more;
      }
    }
  }

  lemma OneMoreWarning(warnings: seq<Warning>, i: nat, fold: string -> string)
    requires i < |warnings|
    ensures AnyBlocks(warnings[..i + 1], fold) <==> AnyBlocks(warnings[..i], fold) || Blocks(warnings[i], fold)
    ensures BlockingCodes(warnings[..i + 1], fold) == BlockingCodes(warnings[..i], fold) +
              (if Blocks(warnings[i], fold) && warnings[i].code.Some? && warnings[i].code.value != ""
               then {"parser_quality_block:" + warnings[i].code.value} else {})
  {
    hide Blocks;
    assert warnings[..i + 1][..i] == warnings[..i] && warnings[..i + 1][i] == warnings[i];
    if AnyBlocks(warnings[..i], fold) {
      var j :| 0 <= j < i && Blocks(warnings[..i][j], fold);
      assert Blocks(warnings[..i + 1][j], fold);
    }
    if AnyBlocks(warnings[..i + 1], fold) {
      var j :| 0 <= j < i + 1 && Blocks(warnings[..i + 1][j], fold);
      assert j < i ==> Blocks(warnings[..i][j], fold);
    }
    assert Blocks(warnings[i], fold) ==> Blocks(warnings[..i + 1][i], fold);
  }

  lemma NoWarnings(fold: string -> string)
    ensures !AnyBlocks([], fold) && BlockingCodes([], fold) == {}
  {
  }

  /** The parser stage over all chunks; a chunk that stands in the list twice is no exception. */
  method ApplyParserQualityActionPolicy(chunks: seq<ChunkMetadata>, fold: string -> string)
    modifies chunks
    ensures forall i :: 0 <= i < |chunks| ==>
              && chunks[i].policy == AfterParser(old(chunks[i].policy), chunks[i].warnings, fold)
              && chunks[i].flags == FlagsAfter(old(chunks[i].flags), chunks[i].policy, chunks[i].warnings, fold)
  {
    hide AfterParser, FlagsAfter;
    for i := 0 to |chunks|
      invariant forall j :: 0 <= j < i ==> chunks[j].IsApplied(old(chunks[j].policy), old(chunks[j].flags), fold)
      invariant forall j :: i <= j < |chunks| ==>
                  || (chunks[j].policy == old(chunks[j].policy) && chunks[j].flags == old(chunks[j].flags))
                  || chunks[j].IsApplied(old(chunks[j].policy), old(chunks[j].flags), fold)
    {
      ParserTwice(old(chunks[i].policy), chunks[i].warnings, fold);
      FlagsTwice(old(chunks[i].flags), AfterParser(old(chunks[i].policy), chunks[i].warnings, fold), chunks[i].warnings,
                 fold);
      chunks[i].ApplyParserWarnings(fold);
    }
  }

  /** Both stages: a chunk goes into the graph exactly when no reference in it is blocked or quarantined and
      no parser warning blocks it. */
  lemma ChunkIsProjected(findings: seq<Option<Finding>>, records: seq<Option<Policy>>, warnings: seq<Warning>,
                         fold: string -> string)
    requires |records| == |findings|
    requires forall i :: 0 <= i < |records| ==>
               records[i] == match findings[i] case None => None case Some(f) => Some(ReferencePolicy(f))
    ensures ProjectsGraph(AfterParser(ChunkPolicy(records), warnings, fold)) <==>
              && (forall i :: 0 <= i < |findings| && findings[i].Some? ==> !BlocksReference(findings[i].value.action))
              && !AnyBlocks(warnings, fold)
  {
    hide Blocks, BlocksReference, ReferencePolicy, ChunkPolicy, AfterParser, ProjectsGraph;
    ReferencesDecide(records, findings);
    ParserNeverReenables(ChunkPolicy(records), warnings, fold);
  }
}
