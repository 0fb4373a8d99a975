/**
 Compiling the metadata of a domain: a reference contract that is declared but not verified is switched
 off; one that validation verified gets exactly the anchors that validation selected, and defaults for the
 sections that execute it. How an executable contract is read from the schema and the structure is left to
 `build`.
 */
module ContractCompiler {
  import opened Wrappers
  import opened Text
  import opened MetadataMerge

  type Dict = map<string, Json>

  /** What is asked of an executable contract. */
  datatype Contract = Contract(executable: bool, contextUnitOnly: bool, primary: bool, context: bool, unit: bool)

  function Get(d: Dict, key: string): Json {
    if key in d then d[key] else Null
  }

  /** The fields of a dictionary; anything else counts as an empty one. */
  function DictValue(v: Json): Dict {
    if v.Obj? then v.fields else map[]
  }

  function StringValue(v: Json): Option<string> {
    if v.Str? && Strip(v.s) != "" then Some(Strip(v.s)) else None
  }

  /** Python's truth of a JSON value. */
  predicate Truthy(v: Json) {
    match v
    case Null => false
    case Bool(b) => b
    case Int(i) => i != 0
    case Real(r) => r != 0.0
    case Str(s) => s != ""
    case Arr(items) => items != []
    case Obj(fields) => fields != map[]
  }

  function Section(c: Dict, key: string): Dict {
    DictValue(Get(c, key))
  }

  function StatusOf(c: Dict, key: string): Json {
    Get(Section(c, key), "status")
  }

  // ----- switching off

  function Demoted(anchor: Json): Json {
    if anchor.Obj? then Obj(anchor.fields["verified" := Bool(false)]) else anchor
  }

  predicate IsAnchorKey(key: string) {
    key == "primary_anchor" || key == "context_anchor" || key == "unit_anchor"
  }

  function DemotedAnchors(structure: Dict): Dict {
    map k | k in structure :: if IsAnchorKey(k) then Demoted(structure[k]) else structure[k]
  }

  function DemotedStructure(c: Dict): Dict {
    var structure := Section(c, "domain_structure");
    if structure != map[] then c["domain_structure" := Obj(DemotedAnchors(structure))] else c
  }

  function DisabledResolution(c: Dict): Dict {
    var resolution := Section(c, "reference_resolution");
    if resolution != map[]
    then c["reference_resolution" := Obj(resolution["enabled" := Bool(false)]["build_canonical_units" := Bool(false)])]
    else c
  }

  function DemotedContract(c: Dict): Dict {
    DisabledResolution(DemotedStructure(c))
  }

  // ----- execution and validation

  function AfterExecution(c: Dict): Dict {
    if StatusOf(c, "reference_contract_execution") == Str("unverified") then DemotedContract(c) else c
  }

  /** The candidate that validation selected: the first whose expressions are the selected ones. */
  function SelectedFrom(candidates: seq<Json>, validation: Dict, strategy: string): Dict {
    if candidates == [] then map[]
    else if candidates[0].Obj? && Matches(candidates[0].fields, validation, strategy) then candidates[0].fields
    else SelectedFrom(candidates[1..], validation, strategy)
  }

  predicate Matches(candidate: Dict, validation: Dict, strategy: string) {
    || (strategy == "single_anchor" &&
        StringValue(Get(candidate, "primary_anchor_regex")) ==
            StringValue(Get(validation, "selected_primary_anchor_regex")))
    || (strategy == "contextual_unit" &&
        StringValue(Get(candidate, "context_anchor_regex")) ==
            StringValue(Get(validation, "selected_context_anchor_regex")) &&
        StringValue(Get(candidate, "unit_anchor_regex")) == StringValue(Get(validation, "selected_unit_anchor_regex")))
  }

  function Selected(validation: Dict, strategy: string): Dict {
    var candidates := Get(validation, "candidates");
    if candidates.Arr? then SelectedFrom(candidates.items, validation, strategy) else map[]
  }

  function SchemaType(c: Dict, strategy: string): Option<string> {
    var own := StringValue(Get(Selected(Section(c, "reference_contract_validation"), strategy), "schema_type"));
    if own.Some? then own else StringValue(Get(Section(c, "reference_schema"), "type"))
  }

  /** The anchor has the expression that validation selected under `key`. */
  predicate IsSelected(structure: Dict, anchor: string, validation: Dict, key: string) {
    && StringValue(Get(validation, key)).Some?
    && StringValue(Get(Section(structure, anchor), "regex")) == StringValue(Get(validation, key))
  }

  function Typed(anchor: Dict, schemaType: Option<string>): Dict {
    if schemaType.Some? then anchor["type" := Str(schemaType.value)] else anchor
  }

  function VerifiedAnchor(structure: Dict, anchor: string, schemaType: Option<string>): Dict {
    Typed(Section(structure, anchor)["verified" := Bool(true)], schemaType)
  }

  function WithSource(unit: Dict): Dict {
    if StringValue(Get(unit, "context_source")).Some? then unit else unit["context_source" := Str("context_anchor")]
  }

  /** The structure with the anchors of the strategy verified, when they are the selected ones. */
  function VerifiedStructure(structure: Dict, validation: Dict, strategy: string, schemaType: Option<string>): Dict {
    if strategy == "single_anchor" then
      if IsSelected(structure, "primary_anchor", validation, "selected_primary_anchor_regex")
      then structure["primary_anchor" := Obj(VerifiedAnchor(structure, "primary_anchor", schemaType))]
      else structure
    else
      if && IsSelected(structure, "context_anchor", validation, "selected_context_anchor_regex")
         && IsSelected(structure, "unit_anchor", validation, "selected_unit_anchor_regex")
      then structure["context_anchor" := Obj(VerifiedAnchor(structure, "context_anchor", schemaType))]
                    ["unit_anchor" := Obj(WithSource(VerifiedAnchor(structure, "unit_anchor", schemaType)))]
      else structure
  }

  predicate KnownStrategy(strategy: Option<string>) {
    strategy == Some("single_anchor") || strategy == Some("contextual_unit")
  }

  function Strategy(c: Dict): Option<string> {
    StringValue(Get(Section(c, "reference_contract_validation"), "selected_strategy"))
  }

  function AfterValidation(c: Dict): Dict {
    var status := StatusOf(c, "reference_contract_validation");
    if status == Str("unverified") then DemotedContract(c)
    else if status != Str("verified") || !KnownStrategy(Strategy(c)) || Section(c, "domain_structure") == map[] then c
    else
      var strategy := Strategy(c).value;
      c["domain_structure" := Obj(VerifiedStructure(DemotedAnchors(Section(c, "domain_structure")),
                                                    Section(c, "reference_contract_validation"), strategy,
                                                    SchemaType(c, strategy)))]
  }

  predicate IsVerified(c: Dict) {
    var status := StatusOf(c, "reference_contract_validation");
    || status == Str("verified")
    || (status != Str("unverified") && StatusOf(c, "reference_contract_execution") == Str("verified"))
  }

  predicate Declares(c: Dict) {
    || Get(c, "reference_schema").Obj? || Get(c, "domain_structure").Obj?
    || Get(c, "reference_contract_execution").Obj? || Get(c, "reference_contract_validation").Obj?
    || Get(c, "reference_contract_candidates").Arr?
  }

  // ----- defaults for the sections that execute a contract

  /** Every key that is missing gets its default. */
  function Completed(d: Dict, defaults: Dict): Dict {
    defaults + d
  }

  const RESOLUTION_DEFAULTS: Dict := map[
    "enabled" := Bool(true),
    "build_canonical_units" := Bool(true),
    "carry_forward_body_blocks" := Bool(true),
    "header_only_policy" := Str("provenance_only"),
    "continuation_policy" := Str("until_next_reference"),
    "max_page_gap" := Int(2),
    "require_single_reference_per_answerable_chunk" := Bool(true)
  ]

  const PROVENANCE_DEFAULTS: Dict := map[
    "preserve_original_blocks" := Bool(true),
    "block_preview_chars" := Int(160),
    "store_text_hash" := Bool(true)
  ]

  const GATE_DEFAULTS: Dict := map["enabled" := Bool(true), "action" := Str("block")]

  function Required(contract: Contract): seq<Json> {
    [Str("reference_schema.type")]
    + (if contract.contextUnitOnly
       then [Str("domain_structure.context_anchor.regex"), Str("domain_structure.unit_anchor.regex")]
       else if contract.primary then [Str("domain_structure.primary_anchor.regex")]
       else (if contract.context then [Str("domain_structure.context_anchor.regex")] else [])
            + (if contract.unit then [Str("domain_structure.unit_anchor.regex")] else []))
    + [Str("reference_resolution.build_canonical_units")]
  }

  function GateDefaults(gate: Dict, contract: Contract): Dict {
    var required := Get(gate, "required");
    Completed(gate, GATE_DEFAULTS)["required" := if Truthy(required) then required else Arr(Required(contract))]
  }

  function PolicyDefaults(policy: Dict, contract: Contract): Dict {
    policy["reference_contract_gate" := Obj(GateDefaults(Section(policy, "reference_contract_gate"), contract))]
  }

  function WithDefaults(c: Dict, contract: Contract): Dict {
    c["reference_resolution" := Obj(Completed(Section(c, "reference_resolution"), RESOLUTION_DEFAULTS))]
     ["provenance" := Obj(Completed(Section(c, "provenance"), PROVENANCE_DEFAULTS))]
     ["quality_policy" := Obj(PolicyDefaults(Section(c, "quality_policy"), contract))]
  }

  // ----- compiling

  function Checked(c: Dict): Dict {
    AfterValidation(AfterExecution(c))
  }

  /** `build` reads a contract from the schema and the structure. */
  function ContractOf(c: Dict, build: (Json, Json) -> Contract): Contract {
    build(Get(c, "reference_schema"), Get(c, "domain_structure"))
  }

  function Compiled(c: Dict, build: (Json, Json) -> Contract): Dict {
    var checked := Checked(c);
    if Declares(checked) && !IsVerified(checked) then DemotedContract(checked)
    else if !ContractOf(checked, build).executable then checked
    else WithDefaults(checked, ContractOf(checked, build))
  }

  // ----- nothing unverified is switched on

  predicate AnchorVerified(c: Dict, anchor: string) {
    Truthy(Get(Section(Section(c, "domain_structure"), anchor), "verified"))
  }

  /** The steps before the sections are filled leave every section but two alone, and keep what those are. */
  ghost predicate SameOutside(c: Dict, d: Dict) {
    && (forall k :: k != "domain_structure" && k != "reference_resolution" ==>
        (k in c <==> k in d) && (k in c ==> c[k] == d[k]))
    && (Get(d, "domain_structure").Obj? <==> Get(c, "domain_structure").Obj?)
  }

  lemma DemotingIsOutside(c: Dict)
    ensures SameOutside(c, DemotedContract(c))
  {
  }

  lemma CheckingIsOutside(c: Dict)
    ensures SameOutside(c, Checked(c))
  {
    hide VerifiedStructure, SchemaType, Strategy, DemotedAnchors, DemotedContract;
    DemotingIsOutside(c);
    DemotingIsOutside(AfterExecution(c));
  }

  lemma OutsideKeepsStatus(c: Dict, d: Dict)
    requires SameOutside(c, d)
    ensures IsVerified(c) == IsVerified(d) && Declares(c) == Declares(d)
  {
    hide SameOutside, Get;
    OutsideGet(c, d, "reference_contract_validation");
    OutsideGet(c, d, "reference_contract_execution");
    OutsideGet(c, d, "reference_schema");
    OutsideGet(c, d, "reference_contract_candidates");
  }

  lemma OutsideGet(c: Dict, d: Dict, key: string)
    requires SameOutside(c, d)
    ensures key != "domain_structure" && key != "reference_resolution" ==> Get(d, key) == Get(c, key)
    ensures Get(d, "domain_structure").Obj? <==> Get(c, "domain_structure").Obj?
  {
  }

  lemma DemotedHasNoAnchor(c: Dict, anchor: string)
    requires IsAnchorKey(anchor)
    ensures !AnchorVerified(DemotedContract(c), anchor)
  {
  }

  // ----- the metadata by its fields

  ghost predicate HasDict(c: Dict, key: string) {
    key in c && c[key].Obj?
  }

  /** The status of a section is this text. */
  ghost predicate HasStatus(c: Dict, key: string, status: string) {
    HasDict(c, key) && "status" in c[key].fields && c[key].fields["status"] == Str(status)
  }

  /** Any of the five sections that declare a reference contract has its type. */
  ghost predicate MentionsContract(c: Dict) {
    || HasDict(c, "reference_schema") || HasDict(c, "domain_structure")
    || HasDict(c, "reference_contract_execution") || HasDict(c, "reference_contract_validation")
    || ("reference_contract_candidates" in c && c["reference_contract_candidates"].Arr?)
  }

  /** Validation did not verify the contract, and either refused it or left it to execution, which did not verify
      it. */
  ghost predicate LacksProof(c: Dict) {
    && !HasStatus(c, "reference_contract_validation", "verified")
    && (|| HasStatus(c, "reference_contract_validation", "unverified")
        || !HasStatus(c, "reference_contract_execution", "verified"))
  }

  lemma StatusByFields(c: Dict, key: string, status: string)
    ensures StatusOf(c, key) == Str(status) <==> HasStatus(c, key, status)
  {
  }

  lemma DeclaredByFields(c: Dict)
    ensures Declares(c) <==> MentionsContract(c)
    ensures IsVerified(c) <==> !LacksProof(c)
  {
    hide StatusOf, HasStatus;
    StatusByFields(c, "reference_contract_validation", "verified");
    StatusByFields(c, "reference_contract_validation", "unverified");
    StatusByFields(c, "reference_contract_execution", "verified");
  }

  /** What demoting leaves: the three anchors lose their verification and nothing else, and a resolution section
      that says anything is switched off and keeps what else it says. */
  ghost predicate IsDemoted(c: Dict, d: Dict) {
    && c.Keys == d.Keys
    && (forall k :: k in c && k != "domain_structure" && k != "reference_resolution" ==> d[k] == c[k])
    && (HasDict(c, "domain_structure") ==>
          && HasDict(d, "domain_structure")
          && AreDemoted(c["domain_structure"].fields, d["domain_structure"].fields))
    && ("domain_structure" in c && !c["domain_structure"].Obj? ==> d["domain_structure"] == c["domain_structure"])
    && (HasDict(c, "reference_resolution") && c["reference_resolution"].fields != map[] ==>
          d["reference_resolution"] ==
          Obj(c["reference_resolution"].fields["enabled" := Bool(false)]["build_canonical_units" := Bool(false)]))
    && ("reference_resolution" in c &&
        !(c["reference_resolution"].Obj? && c["reference_resolution"].fields != map[]) ==>
          d["reference_resolution"] == c["reference_resolution"])
  }

  ghost predicate AreDemoted(s: Dict, t: Dict) {
    && s.Keys == t.Keys
    && forall k :: k in s ==>
         t[k] == if k in {"primary_anchor", "context_anchor", "unit_anchor"} && s[k].Obj?
                 then Obj(s[k].fields["verified" := Bool(false)]) else s[k]
  }

  lemma DemotedTells(c: Dict)
    ensures IsDemoted(c, DemotedContract(c))
  {
    if HasDict(c, "domain_structure") {
      AnchorsAreDemoted(c["domain_structure"].fields);
    }
  }

  lemma AnchorsAreDemoted(structure: Dict)
    ensures AreDemoted(structure, DemotedAnchors(structure))
  {
  }

  /** Metadata that declares a contract nobody verified compiles to metadata without a verified anchor, and
      whatever resolution section there is, is switched off. */
  lemma UnverifiedIsSwitchedOff(c: Dict, build: (Json, Json) -> Contract, anchor: string)
    requires MentionsContract(c) && LacksProof(c) && anchor in {"primary_anchor", "context_anchor", "unit_anchor"}
    ensures !AnchorVerified(Compiled(c, build), anchor)
    ensures var d := Compiled(c, build);
            && (HasDict(d, "domain_structure") && HasDict(d["domain_structure"].fields, anchor) ==>
                  "verified" in d["domain_structure"].fields[anchor].fields
                  && d["domain_structure"].fields[anchor].fields["verified"] == Bool(false))
            && (HasDict(d, "reference_resolution") && d["reference_resolution"].fields != map[] ==>
                  Get(d["reference_resolution"].fields, "enabled") == Bool(false)
                  && Get(d["reference_resolution"].fields, "build_canonical_units") == Bool(false))
  {
    hide Checked, IsVerified, Declares, DemotedContract, AnchorVerified, MentionsContract, LacksProof;
    var e := Checked(c);
    DeclaredByFields(c);
    CheckingIsOutside(c);
    OutsideKeepsStatus(c, e);
    DemotedHasNoAnchor(e, anchor);
    DemotedTells(e);
    var d := DemotedContract(e);
    assert Compiled(c, build) == d;
    if HasDict(d, "domain_structure") && HasDict(d["domain_structure"].fields, anchor) {
      assert AreDemoted(e["domain_structure"].fields, d["domain_structure"].fields);
    }
  }

  // ----- exactly the selected anchors are verified

  /** Validation selected the anchor of the metadata: the primary one by its expression, the context and the
      unit anchor only together. */
  predicate IsSelectedAnchor(c: Dict, anchor: string) {
    var structure, validation := Section(c, "domain_structure"), Section(c, "reference_contract_validation");
    || (Strategy(c) == Some("single_anchor") && anchor == "primary_anchor" &&
        IsSelected(structure, "primary_anchor", validation, "selected_primary_anchor_regex"))
    || (Strategy(c) == Some("contextual_unit") && (anchor == "context_anchor" || anchor == "unit_anchor") &&
        IsSelected(structure, "context_anchor", validation, "selected_context_anchor_regex") &&
        IsSelected(structure, "unit_anchor", validation, "selected_unit_anchor_regex"))
  }

  lemma DemotingKeepsRegex(structure: Dict, anchor: string)
    ensures Get(Section(DemotedAnchors(structure), anchor), "regex") == Get(Section(structure, anchor), "regex")
    ensures Get(Section(DemotedAnchors(structure), anchor), "context_source") ==
              Get(Section(structure, anchor), "context_source")
    ensures IsAnchorKey(anchor) ==> !Truthy(Get(Section(DemotedAnchors(structure), anchor), "verified"))
  {
  }

  lemma DemotingKeepsSelection(structure: Dict, anchor: string, validation: Dict, key: string)
    ensures IsSelected(DemotedAnchors(structure), anchor, validation, key) ==
              IsSelected(structure, anchor, validation, key)
  {
    hide DemotedAnchors, StringValue;
    DemotingKeepsRegex(structure, anchor);
  }

  lemma VerifiedIsTruthy(structure: Dict, anchor: string, schemaType: Option<string>)
    ensures Truthy(Get(VerifiedAnchor(structure, anchor, schemaType), "verified"))
    ensures Truthy(Get(WithSource(VerifiedAnchor(structure, anchor, schemaType)), "verified"))
  {
    hide StringValue;
  }

  lemma VerifiedStructureExactly(structure: Dict, validation: Dict, strategy: string, schemaType: Option<string>,
                                 anchor: string)
    requires IsAnchorKey(anchor) && KnownStrategy(Some(strategy))
    ensures Truthy(Get(Section(VerifiedStructure(DemotedAnchors(structure), validation, strategy, schemaType), anchor),
                       "verified")) <==>
              || (strategy == "single_anchor" && anchor == "primary_anchor" &&
                  IsSelected(structure, "primary_anchor", validation, "selected_primary_anchor_regex"))
              || (strategy == "contextual_unit" && (anchor == "context_anchor" || anchor == "unit_anchor") &&
                  IsSelected(structure, "context_anchor", validation, "selected_context_anchor_regex") &&
                  IsSelected(structure, "unit_anchor", validation, "selected_unit_anchor_regex"))
  {
    hide DemotedAnchors, StringValue, IsSelected, VerifiedAnchor, WithSource, Truthy;
    var demoted := DemotedAnchors(structure);
    DemotingKeepsSelection(structure, "primary_anchor", validation, "selected_primary_anchor_regex");
    DemotingKeepsSelection(structure, "context_anchor", validation, "selected_context_anchor_regex");
    DemotingKeepsSelection(structure, "unit_anchor", validation, "selected_unit_anchor_regex");
    DemotingKeepsRegex(structure, anchor);
    VerifiedIsTruthy(demoted, anchor, schemaType);
  }

  /** When validation verified a contract under a strategy that is known, the verified anchors are exactly the
      selected ones, whatever execution says. */
  lemma SelectedAnchorsAreVerified(c: Dict, build: (Json, Json) -> Contract, anchor: string)
    requires StatusOf(c, "reference_contract_validation") == Str("verified") && KnownStrategy(Strategy(c)) &&
              IsAnchorKey(anchor)
    ensures AnchorVerified(Compiled(c, build), anchor) <==> IsSelectedAnchor(c, anchor)
  {
    hide VerifiedStructure, IsSelected, StringValue, SchemaType, Truthy, DemotedAnchors, WithDefaults;
    var structure, validation := Section(c, "domain_structure"), Section(c, "reference_contract_validation");
    var strategy := Strategy(c).value;
    ExecutionKeepsTheRest(c);
    DefaultsKeepStructure(Checked(c), ContractOf(Checked(c), build));
    if structure == map[] {
      NoStructureNoAnchor(c, anchor);
    } else {
      var demoted := DemotedAnchors(Section(AfterExecution(c), "domain_structure"));
      DemotedAgain(structure);
      assert demoted == DemotedAnchors(structure);
      VerifiedStructureExactly(structure, validation, strategy, SchemaType(AfterExecution(c), strategy), anchor);
    }
  }

  lemma DefaultsKeepStructure(c: Dict, contract: Contract)
    ensures Section(WithDefaults(c, contract), "domain_structure") == Section(c, "domain_structure")
  {
    hide Completed, PolicyDefaults;
  }

  lemma DemotedAgain(structure: Dict)
    ensures DemotedAnchors(DemotedAnchors(structure)) == DemotedAnchors(structure)
  {
    hide Demoted;
    forall k | k in structure
      ensures Demoted(Demoted(structure[k])) == Demoted(structure[k])
    {
      DemotedTwice(structure[k]);
    }
  }

  lemma DemotedTwice(anchor: Json)
    ensures Demoted(Demoted(anchor)) == Demoted(anchor)
  {
    if anchor.Obj? {
      UpdateTwice(anchor.fields, "verified", Bool(false));
    }
  }

  lemma UpdateTwice(d: Dict, key: string, v: Json)
    ensures d[key := v][key := v] == d[key := v]
  {
  }

  lemma ExecutionKeepsTheRest(c: Dict)
    ensures Section(AfterExecution(c), "reference_contract_validation") == Section(c, "reference_contract_validation")
    ensures Section(AfterExecution(c), "domain_structure") in
              [Section(c, "domain_structure"), DemotedAnchors(Section(c, "domain_structure"))]
    ensures Section(AfterExecution(c), "domain_structure") == map[] <==> Section(c, "domain_structure") == map[]
    ensures IsVerified(AfterExecution(c)) == IsVerified(c)
  {
    DemotedNonEmpty(Section(c, "domain_structure"));
  }

  lemma DemotedNonEmpty(structure: Dict)
    ensures DemotedAnchors(structure) == map[] <==> structure == map[]
  {
    assert DemotedAnchors(structure).Keys == structure.Keys;
  }

  lemma EmptyStructureStays(c: Dict)
    requires Section(c, "domain_structure") == map[]
    ensures Section(AfterValidation(c), "domain_structure") == map[]
  {
    hide VerifiedStructure, SchemaType, Strategy;
  }

  lemma NoAnchorInNoStructure(c: Dict, anchor: string)
    requires Section(c, "domain_structure") == map[]
    ensures !AnchorVerified(c, anchor)
  {
  }

  lemma NoStructureNoAnchor(c: Dict, anchor: string)
    requires Section(c, "domain_structure") == map[]
    ensures !IsSelectedAnchor(c, anchor)
    ensures Section(AfterExecution(c), "domain_structure") == map[] ==> !AnchorVerified(Checked(c), anchor)
  {
    hide AfterValidation, AfterExecution, AnchorVerified, Strategy;
    if Section(AfterExecution(c), "domain_structure") == map[] {
      EmptyStructureStays(AfterExecution(c));
      NoAnchorInNoStructure(Checked(c), anchor);
    }
  }

  // ----- compiling twice

  lemma DemotingTwice(c: Dict)
    ensures DemotedContract(DemotedContract(c)) == DemotedContract(c)
  {
    hide DemotedAnchors;
    var structure := Section(c, "domain_structure");
    DemotedNonEmpty(structure);
    DemotedAgain(structure);
    var once := DemotedContract(c);
    var resolution := Section(once, "reference_resolution");
    assert Section(once, "domain_structure") == (if structure == map[] then structure else DemotedAnchors(structure));
    DisablingTwice(Section(c, "reference_resolution"));
    assert DemotedStructure(once) == once;
  }

  lemma DisablingTwice(resolution: Dict)
    ensures var off := resolution["enabled" := Bool(false)]["build_canonical_units" := Bool(false)];
            off["enabled" := Bool(false)]["build_canonical_units" := Bool(false)] == off
  {
  }

  lemma DemotedUpdate(structure: Dict, anchor: string, fields: Dict)
    requires IsAnchorKey(anchor)
    ensures DemotedAnchors(structure[anchor := Obj(fields)]) ==
              DemotedAnchors(structure)[anchor := Demoted(Obj(fields))]
  {
    hide Demoted;
  }

  /** An anchor that was verified, demoted and is verified again. */
  lemma AnchorAgain(anchor: Dict, schemaType: Option<string>)
    ensures var once := Typed(anchor["verified" := Bool(true)], schemaType);
            Typed(Demoted(Obj(once)).fields["verified" := Bool(true)], schemaType) == once
  {
  }

  lemma SourceAgain(anchor: Dict, schemaType: Option<string>)
    ensures var once := WithSource(Typed(anchor["verified" := Bool(true)], schemaType));
            WithSource(Typed(Demoted(Obj(once)).fields["verified" := Bool(true)], schemaType)) == once
  {
    SourceIsGiven();
  }

  lemma SourceIsGiven()
    ensures StringValue(Str("context_anchor")).Some?
  {
    StrippedIsFixed("context_anchor");
  }

  lemma UpdateOver(d: Dict, key: string, v: Json, w: Json)
    ensures d[key := v][key := w] == d[key := w]
  {
  }

  lemma SingleAgain(demoted: Dict, validation: Dict, schemaType: Option<string>)
    requires DemotedAnchors(demoted) == demoted &&
              IsSelected(demoted, "primary_anchor", validation, "selected_primary_anchor_regex")
    ensures var once := demoted["primary_anchor" := Obj(VerifiedAnchor(demoted, "primary_anchor", schemaType))];
            VerifiedStructure(DemotedAnchors(once), validation, "single_anchor", schemaType) == once
  {
    hide StringValue, Demoted, DemotedAnchors, Typed;
    var fields := VerifiedAnchor(demoted, "primary_anchor", schemaType);
    var once := demoted["primary_anchor" := Obj(fields)];
    DemotedUpdate(demoted, "primary_anchor", fields);
    VerifyingKeepsRegex(Section(demoted, "primary_anchor"), schemaType);
    AnchorAgain(Section(demoted, "primary_anchor"), schemaType);
    UpdateOver(demoted, "primary_anchor", Demoted(Obj(fields)), Obj(fields));
  }

  lemma VerifyingKeepsRegex(anchor: Dict, schemaType: Option<string>)
    ensures var once := Typed(anchor["verified" := Bool(true)], schemaType);
            && Demoted(Obj(once)).Obj? && Get(Demoted(Obj(once)).fields, "regex") == Get(anchor, "regex")
            && Demoted(Obj(WithSource(once))).Obj? &&
                Get(Demoted(Obj(WithSource(once))).fields, "regex") == Get(anchor, "regex")
  {
    hide StringValue;
  }

  lemma ContextualAgain(demoted: Dict, validation: Dict, schemaType: Option<string>)
    requires DemotedAnchors(demoted) == demoted
    requires IsSelected(demoted, "context_anchor", validation, "selected_context_anchor_regex")
    requires IsSelected(demoted, "unit_anchor", validation, "selected_unit_anchor_regex")
    ensures var once := demoted["context_anchor" := Obj(VerifiedAnchor(demoted, "context_anchor", schemaType))]
                               ["unit_anchor" := Obj(WithSource(VerifiedAnchor(demoted, "unit_anchor", schemaType)))];
            VerifiedStructure(DemotedAnchors(once), validation, "contextual_unit", schemaType) == once
  {
    hide StringValue, Demoted, DemotedAnchors, Typed, WithSource;
    var context, unit := VerifiedAnchor(demoted, "context_anchor", schemaType),
        WithSource(VerifiedAnchor(demoted, "unit_anchor", schemaType));
    DemotedUpdate(demoted, "context_anchor", context);
    DemotedUpdate(demoted["context_anchor" := Obj(context)], "unit_anchor", unit);
    VerifyingKeepsRegex(Section(demoted, "context_anchor"), schemaType);
    VerifyingKeepsRegex(Section(demoted, "unit_anchor"), schemaType);
    AnchorAgain(Section(demoted, "context_anchor"), schemaType);
    SourceAgain(Section(demoted, "unit_anchor"), schemaType);
    BothOver(demoted, Demoted(Obj(context)), Demoted(Obj(unit)), Obj(context), Obj(unit));
  }

  lemma BothOver(d: Dict, v: Json, w: Json, v': Json, w': Json)
    ensures d["context_anchor" := v]["unit_anchor" := w]["context_anchor" := v']["unit_anchor" := w']
         == d["context_anchor" := v']["unit_anchor" := w']
  {
  }

  /** Verifying again what was verified and demoted gives the same. */
  lemma VerifyingAgain(structure: Dict, validation: Dict, strategy: string, schemaType: Option<string>)
    requires KnownStrategy(Some(strategy))
    ensures var demoted := DemotedAnchors(structure);
            var once := VerifiedStructure(demoted, validation, strategy, schemaType);
            VerifiedStructure(DemotedAnchors(once), validation, strategy, schemaType) == once
  {
    hide DemotedAnchors, IsSelected, VerifiedAnchor, WithSource;
    var demoted := DemotedAnchors(structure);
    DemotedAgain(structure);
    if strategy == "single_anchor" {
      if IsSelected(demoted, "primary_anchor", validation, "selected_primary_anchor_regex") {
        SingleAgain(demoted, validation, schemaType);
      }
    } else if && IsSelected(demoted, "context_anchor", validation, "selected_context_anchor_regex")
              && IsSelected(demoted, "unit_anchor", validation, "selected_unit_anchor_regex") {
      ContextualAgain(demoted, validation, schemaType);
    }
  }

  /** What checking makes of the structure, and whether it switches the resolution off. */
  function NewStructure(c: Dict): Dict {
    var structure, status := Section(c, "domain_structure"), StatusOf(c, "reference_contract_validation");
    var kept := if StatusOf(c, "reference_contract_execution") == Str("unverified") then DemotedAnchors(structure)
        else structure;
    if status == Str("unverified") then DemotedAnchors(kept)
    else if status == Str("verified") && KnownStrategy(Strategy(c)) then
      VerifiedStructure(DemotedAnchors(kept), Section(c, "reference_contract_validation"), Strategy(c).value,
                        SchemaType(c, Strategy(c).value))
    else kept
  }

  predicate SwitchedOff(c: Dict) {
    || StatusOf(c, "reference_contract_execution") == Str("unverified")
    || StatusOf(c, "reference_contract_validation") == Str("unverified")
  }

  function Rebuilt(c: Dict, structure: Dict, off: bool): Dict {
    var d := if Section(c, "domain_structure") != map[] then c["domain_structure" := Obj(structure)] else c;
    if off then DisabledResolution(d) else d
  }

  /** The sections that decide what checking does. */
  ghost predicate SameSections(c: Dict, d: Dict) {
    && Section(c, "reference_contract_validation") == Section(d, "reference_contract_validation")
    && Section(c, "reference_contract_execution") == Section(d, "reference_contract_execution")
    && Section(c, "reference_schema") == Section(d, "reference_schema")
  }

  lemma OutsideSameSections(c: Dict, d: Dict)
    requires SameOutside(c, d)
    ensures SameSections(c, d)
  {
  }

  lemma SameSectionsDecide(c: Dict, d: Dict)
    requires SameSections(c, d)
    ensures Strategy(c) == Strategy(d) && SwitchedOff(c) == SwitchedOff(d)
    ensures StatusOf(c, "reference_contract_validation") == StatusOf(d, "reference_contract_validation")
    ensures StatusOf(c, "reference_contract_execution") == StatusOf(d, "reference_contract_execution")
    ensures forall strategy :: SchemaType(c, strategy) == SchemaType(d, strategy)
  {
    hide StringValue, Selected;
  }

  lemma RebuildTwice(c: Dict, s1: Dict, off1: bool, s2: Dict, off2: bool)
    requires Section(c, "domain_structure") != map[] ==> s1 != map[]
    ensures Rebuilt(Rebuilt(c, s1, off1), s2, off2) == Rebuilt(c, s2, off1 || off2)
  {
    DisablingTwice(Section(c, "reference_resolution"));
  }

  lemma DemotedIsRebuilt(c: Dict)
    ensures DemotedContract(c) == Rebuilt(c, DemotedAnchors(Section(c, "domain_structure")), true)
  {
  }

  lemma ExecutionIsRebuilt(c: Dict)
    ensures var unverified := StatusOf(c, "reference_contract_execution") == Str("unverified");
            var structure := Section(c, "domain_structure");
            AfterExecution(c) == Rebuilt(c, if unverified then DemotedAnchors(structure) else structure, unverified)
  {
    hide DemotedAnchors;
    RebuiltSame(c);
  }

  lemma RebuiltSame(c: Dict)
    ensures Rebuilt(c, Section(c, "domain_structure"), false) == c
  {
  }

  lemma ValidationIsRebuilt(c: Dict, kept: Dict)
    requires kept == Section(c, "domain_structure")
    ensures var status := StatusOf(c, "reference_contract_validation");
            AfterValidation(c) ==
              if status == Str("unverified") then Rebuilt(c, DemotedAnchors(kept), true)
              else if status == Str("verified") && KnownStrategy(Strategy(c)) then
                Rebuilt(c, VerifiedStructure(DemotedAnchors(kept), Section(c, "reference_contract_validation"),
                                             Strategy(c).value, SchemaType(c, Strategy(c).value)), false)
              else Rebuilt(c, kept, false)
  {
    hide DemotedAnchors, VerifiedStructure, SchemaType, Strategy;
    RebuiltSame(c);
  }

  lemma CheckedIsRebuilt(c: Dict)
    ensures Checked(c) == Rebuilt(c, NewStructure(c), SwitchedOff(c))
  {
    hide DemotedAnchors, VerifiedStructure, SchemaType, Strategy, Rebuilt, AfterValidation, AfterExecution, SameOutside;
    var unverified := StatusOf(c, "reference_contract_execution") == Str("unverified");
    var structure := Section(c, "domain_structure");
    var kept := if unverified then DemotedAnchors(structure) else structure;
    var e := AfterExecution(c);
    ExecutionIsRebuilt(c);
    ExecutionIsOutside(c);
    OutsideSameSections(c, e);
    SameSectionsDecide(c, e);
    DemotedNonEmpty(structure);
    StructureOfRebuilt(c, kept, unverified);
    ValidationIsRebuilt(e, Section(e, "domain_structure"));
    if structure == map[] {
      var now, off := Section(e, "domain_structure"), StatusOf(c, "reference_contract_validation") == Str("unverified");
      var next := if off then DemotedAnchors(now)
                  else if StatusOf(c, "reference_contract_validation") == Str("verified")
                          && KnownStrategy(Strategy(c)) then
                    VerifiedStructure(DemotedAnchors(now), Section(c, "reference_contract_validation"),
                                      Strategy(c).value, SchemaType(c, Strategy(c).value))
                  else now;
      EmptyRebuilt(c, kept, unverified, next, NewStructure(c), off);
    } else {
      RebuildTwice(c, kept, unverified, NewStructure(c), StatusOf(c, "reference_contract_validation") ==
                   Str("unverified"));
    }
  }

  lemma ExecutionIsOutside(c: Dict)
    ensures SameOutside(c, AfterExecution(c))
  {
    hide DemotedContract;
    DemotingIsOutside(c);
  }

  lemma StructureOfRebuilt(c: Dict, structure: Dict, off: bool)
    ensures Section(Rebuilt(c, structure, off), "domain_structure") ==
              if Section(c, "domain_structure") == map[] then map[] else structure
  {
  }

  /** Without a structure it does not matter what it would be. */
  lemma EmptyRebuilt(c: Dict, s1: Dict, off1: bool, s2: Dict, s3: Dict, off2: bool)
    requires Section(c, "domain_structure") == map[]
    ensures Rebuilt(Rebuilt(c, s1, off1), s2, off2) == Rebuilt(c, s3, off1 || off2)
  {
    DisablingTwice(Section(c, "reference_resolution"));
  }

  /** Checking such metadata changes nothing. */
  predicate Settled(c: Dict) {
    && (Section(c, "domain_structure") != map[] ==> NewStructure(c) == Section(c, "domain_structure"))
    && (SwitchedOff(c) ==> DisabledResolution(c) == c)
  }

  lemma SettledIsChecked(c: Dict)
    requires Settled(c)
    ensures Checked(c) == c
  {
    hide NewStructure, SwitchedOff;
    CheckedIsRebuilt(c);
    RebuiltSame(c);
  }

  lemma NewStructureAgain(c: Dict, d: Dict)
    requires SameSections(c, d) && Section(d, "domain_structure") == NewStructure(c)
    ensures NewStructure(d) == NewStructure(c)
  {
    hide DemotedAnchors, VerifiedStructure, SchemaType, Strategy, KnownStrategy;
    SameSectionsDecide(c, d);
    var structure := Section(c, "domain_structure");
    DemotedAgain(structure);
    KnownIsSome(c);
    if StatusOf(c, "reference_contract_validation") == Str("verified") && KnownStrategy(Strategy(c)) {
      VerifyingAgain(structure, Section(c, "reference_contract_validation"), Strategy(c).value,
                     SchemaType(c, Strategy(c).value));
      var once := VerifiedStructure(DemotedAnchors(structure), Section(c, "reference_contract_validation"),
                                    Strategy(c).value, SchemaType(c, Strategy(c).value));
      DemotedAgain(once);
    }
  }

  lemma KnownIsSome(c: Dict)
    ensures KnownStrategy(Strategy(c)) ==> Strategy(c).Some? && KnownStrategy(Some(Strategy(c).value))
  {
  }

  lemma ResolutionOff(c: Dict, structure: Dict)
    ensures DisabledResolution(Rebuilt(c, structure, true)) == Rebuilt(c, structure, true)
  {
    DisablingTwice(Section(c, "reference_resolution"));
  }

  lemma CheckedIsSettled(c: Dict)
    ensures Settled(Checked(c))
  {
    hide NewStructure, Rebuilt, SameOutside, SameSections, Checked, SwitchedOff, DisabledResolution;
    var d := Checked(c);
    CheckedIsRebuilt(c);
    CheckingIsOutside(c);
    OutsideSameSections(c, d);
    SameSectionsDecide(c, d);
    StructureOfRebuilt(c, NewStructure(c), SwitchedOff(c));
    if Section(d, "domain_structure") != map[] {
      NewStructureAgain(c, d);
    }
    ResolutionOff(c, NewStructure(c));
  }

  /** Checking twice is checking once. */
  lemma CheckingTwice(c: Dict)
    ensures Checked(Checked(c)) == Checked(c)
  {
    hide Checked, Settled;
    CheckedIsSettled(c);
    SettledIsChecked(Checked(c));
  }

  lemma DemotedIsSettled(c: Dict)
    requires StatusOf(c, "reference_contract_validation") != Str("verified")
    ensures Settled(DemotedContract(c))
  {
    hide Rebuilt, SameOutside, SameSections, DemotedAnchors, DemotedContract, DisabledResolution, VerifiedStructure;
    var d, structure := DemotedContract(c), Section(c, "domain_structure");
    DemotedIsRebuilt(c);
    DemotingIsOutside(c);
    OutsideSameSections(c, d);
    SameSectionsDecide(c, d);
    StructureOfRebuilt(c, DemotedAnchors(structure), true);
    DemotedAgain(structure);
    ResolutionOff(c, DemotedAnchors(structure));
  }

  // ----- the sections filled with defaults

  /** A section with all defaults is not changed by them. */
  lemma CompletedTwice(d: Dict, defaults: Dict)
    ensures Completed(Completed(d, defaults), defaults) == Completed(d, defaults)
  {
  }

  lemma GateDefaultsTwice(gate: Dict, contract: Contract)
    ensures GateDefaults(GateDefaults(gate, contract), contract) == GateDefaults(gate, contract)
  {
  }

  lemma PolicyDefaultsTwice(policy: Dict, contract: Contract)
    ensures PolicyDefaults(PolicyDefaults(policy, contract), contract) == PolicyDefaults(policy, contract)
  {
    hide GateDefaults;
    GateDefaultsTwice(Section(policy, "reference_contract_gate"), contract);
  }

  lemma DefaultsTwice(c: Dict, contract: Contract)
    ensures WithDefaults(WithDefaults(c, contract), contract) == WithDefaults(c, contract)
  {
    hide Completed, PolicyDefaults;
    CompletedTwice(Section(c, "reference_resolution"), RESOLUTION_DEFAULTS);
    CompletedTwice(Section(c, "provenance"), PROVENANCE_DEFAULTS);
    PolicyDefaultsTwice(Section(c, "quality_policy"), contract);
  }

  lemma DefaultsAreOutside(c: Dict, contract: Contract)
    ensures SameSections(c, WithDefaults(c, contract))
    ensures IsVerified(WithDefaults(c, contract)) == IsVerified(c) && Declares(WithDefaults(c, contract)) == Declares(c)
    ensures Get(WithDefaults(c, contract), "reference_schema") == Get(c, "reference_schema")
    ensures Get(WithDefaults(c, contract), "domain_structure") == Get(c, "domain_structure")
    ensures Section(WithDefaults(c, contract), "reference_resolution") ==
              Completed(Section(c, "reference_resolution"), RESOLUTION_DEFAULTS)
  {
    hide Completed, PolicyDefaults, WithDefaults, Get;
    DefaultsKeep(c, contract, "reference_contract_validation");
    DefaultsKeep(c, contract, "reference_contract_execution");
    DefaultsKeep(c, contract, "reference_contract_candidates");
    DefaultsKeep(c, contract, "reference_schema");
    DefaultsKeep(c, contract, "domain_structure");
  }

  lemma DefaultsKeep(c: Dict, contract: Contract, key: string)
    ensures key !in {"reference_resolution", "provenance", "quality_policy"} ==>
              Get(WithDefaults(c, contract), key) == Get(c, key)
    ensures Section(WithDefaults(c, contract), "reference_resolution") ==
              Completed(Section(c, "reference_resolution"), RESOLUTION_DEFAULTS)
  {
    hide Completed, PolicyDefaults;
  }

  /** Completed, a section that was switched off stays off, and one that was not there is on. */
  lemma CompletedResolution(d: Dict)
    ensures var r := Completed(d, RESOLUTION_DEFAULTS);
            && r != map[]
            && (d == map[] ==> Get(r, "enabled") == Bool(true))
            && (d != map[] && d["enabled" := Bool(false)]["build_canonical_units" := Bool(false)] == d ==>
                  r["enabled" := Bool(false)]["build_canonical_units" := Bool(false)] == r)
  {
    var r := Completed(d, RESOLUTION_DEFAULTS);
    assert "enabled" in r;
    var off := d["enabled" := Bool(false)]["build_canonical_units" := Bool(false)];
    if d != map[] && off == d {
      assert off["enabled"] == Bool(false) && off["build_canonical_units"] == Bool(false);
      assert r["enabled"] == Bool(false) && r["build_canonical_units"] == Bool(false);
    }
  }

  lemma DefaultsStructure(c: Dict, contract: Contract)
    requires Section(c, "domain_structure") != map[] ==> NewStructure(c) == Section(c, "domain_structure")
    ensures var t := WithDefaults(c, contract);
            && (Section(t, "domain_structure") != map[] ==> NewStructure(t) == Section(t, "domain_structure"))
            && SwitchedOff(t) == SwitchedOff(c)
  {
    hide NewStructure, SwitchedOff, WithDefaults, SameSections;
    var t := WithDefaults(c, contract);
    DefaultsAreOutside(c, contract);
    SameSectionsDecide(c, t);
    if Section(t, "domain_structure") != map[] {
      NewStructureAgain(c, t);
    }
  }

  lemma DisabledIsSame(c: Dict)
    requires Section(c, "reference_resolution") != map[]
    ensures var r := Section(c, "reference_resolution");
            DisabledResolution(c) == c <==> r["enabled" := Bool(false)]["build_canonical_units" := Bool(false)] == r
  {
    var r := Section(c, "reference_resolution");
    var off := r["enabled" := Bool(false)]["build_canonical_units" := Bool(false)];
    if off == r {
      assert c["reference_resolution"] == Obj(off);
    } else {
      assert DisabledResolution(c)["reference_resolution"] == Obj(off);
      assert c["reference_resolution"] == Obj(r);
    }
  }

  /** The completed sections are settled unless a resolution section that was not there before is switched on
      although execution says unverified. */
  lemma DefaultsAreSettled(c: Dict, contract: Contract)
    requires Settled(c)
    ensures Settled(WithDefaults(c, contract)) <==> !(SwitchedOff(c) && Section(c, "reference_resolution") == map[])
  {
    hide NewStructure, SwitchedOff, WithDefaults, SameSections, DisabledResolution, Completed;
    var t, r := WithDefaults(c, contract), Section(c, "reference_resolution");
    DefaultsAreOutside(c, contract);
    DefaultsStructure(c, contract);
    CompletedResolution(r);
    DisabledIsSame(t);
    if r != map[] {
      DisabledIsSame(c);
    } else {
      var full := Section(t, "reference_resolution");
      OnIsNotOff(full);
    }
  }

  lemma OnIsNotOff(r: Dict)
    requires Get(r, "enabled") == Bool(true)
    ensures r["enabled" := Bool(false)]["build_canonical_units" := Bool(false)] != r
  {
    assert r["enabled" := Bool(false)]["build_canonical_units" := Bool(false)]["enabled"] == Bool(false);
  }

  // ----- compiling twice

  /** Execution calls the contract unverified, validation verified it, it can be executed, and there is no
      resolution section that could be switched off. */
  predicate SwitchesOnOnce(c: Dict, build: (Json, Json) -> Contract) {
    && StatusOf(c, "reference_contract_execution") == Str("unverified")
    && StatusOf(c, "reference_contract_validation") == Str("verified")
    && Section(c, "reference_resolution") == map[]
    && ContractOf(Checked(c), build).executable
  }

  lemma CompiledFromSettled(t: Dict, build: (Json, Json) -> Contract)
    requires Checked(t) == t
    ensures Compiled(t, build) ==
              if Declares(t) && !IsVerified(t) then DemotedContract(t)
              else if !ContractOf(t, build).executable then t
              else WithDefaults(t, ContractOf(t, build))
  {
  }

  lemma CompiledStatus(c: Dict)
    ensures IsVerified(Checked(c)) == IsVerified(c) && Declares(Checked(c)) == Declares(c)
    ensures SwitchedOff(Checked(c)) == SwitchedOff(c)
  {
    hide Checked, SameOutside, IsVerified, Declares, SwitchedOff;
    CheckingIsOutside(c);
    OutsideKeepsStatus(c, Checked(c));
    OutsideSameSections(c, Checked(c));
    SameSectionsDecide(c, Checked(c));
  }

  lemma DemotedCompilesToItself(d: Dict, build: (Json, Json) -> Contract)
    requires Declares(d) && !IsVerified(d)
    ensures Compiled(DemotedContract(d), build) == DemotedContract(d)
  {
    hide Checked, SameOutside, DemotedContract, Declares, Settled, WithDefaults;
    assert StatusOf(d, "reference_contract_validation") != Str("verified");
    hide IsVerified;
    DemotedIsSettled(d);
    SettledIsChecked(DemotedContract(d));
    DemotingIsOutside(d);
    OutsideKeepsStatus(d, DemotedContract(d));
    DemotingTwice(d);
    CompiledFromSettled(DemotedContract(d), build);
  }

  lemma FilledCompilesToItself(d: Dict, build: (Json, Json) -> Contract)
    requires Settled(d) && !(Declares(d) && !IsVerified(d)) && ContractOf(d, build).executable
    requires Settled(WithDefaults(d, ContractOf(d, build)))
    ensures Compiled(WithDefaults(d, ContractOf(d, build)), build) == WithDefaults(d, ContractOf(d, build))
  {
    hide Checked, SameSections, IsVerified, Declares, Settled, WithDefaults;
    var contract := ContractOf(d, build);
    var t := WithDefaults(d, contract);
    SettledIsChecked(t);
    DefaultsAreOutside(d, contract);
    DefaultsTwice(d, contract);
    CompiledFromSettled(t, build);
  }

  lemma SwitchedOffCompilesOff(t: Dict, build: (Json, Json) -> Contract)
    requires SwitchedOff(t) && Section(t, "reference_resolution") != map[] && IsVerified(t)
    ensures Get(Section(Compiled(t, build), "reference_resolution"), "enabled") == Bool(false)
  {
    hide NewStructure, SwitchedOff, Completed, PolicyDefaults, Declares, Checked;
    var c := Checked(t);
    CheckedIsRebuilt(t);
    RebuiltIsOff(t, NewStructure(t));
    CompiledStatus(t);
    hide IsVerified;
    var resolution := Section(c, "reference_resolution");
    CompletedKeeps(resolution, RESOLUTION_DEFAULTS, "enabled");
    assert Section(WithDefaults(c, ContractOf(c, build)), "reference_resolution") ==
        Completed(resolution, RESOLUTION_DEFAULTS);
  }

  lemma CompletedKeeps(d: Dict, defaults: Dict, key: string)
    requires key in d
    ensures Get(Completed(d, defaults), key) == d[key]
  {
  }

  lemma RebuiltIsOff(c: Dict, structure: Dict)
    requires Section(c, "reference_resolution") != map[]
    ensures var resolution := Section(Rebuilt(c, structure, true), "reference_resolution");
            "enabled" in resolution && resolution["enabled"] == Bool(false)
  {
  }

  /** Compiling compiled metadata changes nothing, with one exception: execution says unverified, validation
      says verified, and the first compilation had to create the resolution section. It switches that section
      on; the second one switches it off. */
  lemma CompilingTwice(c: Dict, build: (Json, Json) -> Contract)
    ensures Compiled(Compiled(c, build), build) == Compiled(c, build) <==> !SwitchesOnOnce(c, build)
  {
    hide Checked, Settled, IsVerified, Declares, WithDefaults, DemotedContract, SwitchedOff, SameSections;
    var d := Checked(c);
    CheckedIsSettled(c);
    CheckingTwice(c);
    CompiledStatus(c);
    if Declares(d) && !IsVerified(d) {
      DemotedCompilesToItself(d, build);
      VerifiedStatus(c);
    } else if !ContractOf(d, build).executable {
      CompiledFromSettled(d, build);
    } else {
      DefaultsAreSettled(d, ContractOf(d, build));
      OffMeansExecution(c);
      ResolutionOfChecked(c);
      if Settled(WithDefaults(d, ContractOf(d, build))) {
        FilledCompilesToItself(d, build);
      } else {
        SwitchedOnOnce(d, build);
      }
    }
  }

  lemma VerifiedStatus(c: Dict)
    ensures StatusOf(c, "reference_contract_validation") == Str("verified") ==> IsVerified(c)
  {
  }

  /** What is verified or declares nothing is switched off only by what execution says. */
  lemma OffMeansExecution(c: Dict)
    ensures !(Declares(c) && !IsVerified(c)) ==>
              (SwitchedOff(c) <==> StatusOf(c, "reference_contract_execution") == Str("unverified")
                                   && StatusOf(c, "reference_contract_validation") == Str("verified"))
  {
  }

  lemma ResolutionOfChecked(c: Dict)
    ensures Section(Checked(c), "reference_resolution") == map[] <==> Section(c, "reference_resolution") == map[]
  {
    hide NewStructure, SwitchedOff, Checked;
    CheckedIsRebuilt(c);
  }

  lemma SwitchedOnOnce(d: Dict, build: (Json, Json) -> Contract)
    requires SwitchedOff(d) && Section(d, "reference_resolution") == map[] && !(Declares(d) && !IsVerified(d))
    ensures var t := WithDefaults(d, ContractOf(d, build)); Compiled(t, build) != t
  {
    hide WithDefaults, SameSections, Completed, Compiled, SwitchedOff;
    var t := WithDefaults(d, ContractOf(d, build));
    DefaultsAreOutside(d, ContractOf(d, build));
    SameSectionsDecide(d, t);
    OffMeansExecution(d);
    VerifiedStatus(d);
    CompletedResolution(Section(d, "reference_resolution"));
    hide IsVerified, Declares;
    SwitchedOffCompilesOff(t, build);
  }

  // ----- reading a contract from the metadata

  /** What the reading of a contract takes from elsewhere: the fields of a format template, the named groups of
      a regular expression, and case folding. */
  datatype Reader = Reader(templateFields: string -> Option<set<string>>, groupNames: string -> set<string>,
                           fold: string -> string)

  function StringList(v: Json): set<string> {
    if v.Arr? then set i | 0 <= i < |v.items| && StringValue(v.items[i]).Some? :: StringValue(v.items[i]).value else {}
  }

  /** The groups that identify a reference: those of the template, or the first list of fields that is there. */
  function RequiredGroups(schema: Dict, reader: Reader): set<string> {
    var template := StringValue(Get(schema, "canonical_ref_template"));
    if template.Some? && reader.templateFields(template.value).Some? then reader.templateFields(template.value).value
    else if StringList(Get(schema, "identity_fields")) != {} then StringList(Get(schema, "identity_fields"))
    else if StringList(Get(schema, "required_fields")) != {} then StringList(Get(schema, "required_fields"))
    else set k | k in Section(schema, "fields") && Strip(k) != "" :: Strip(k)
  }

  function RegexOf(structure: Dict, key: string): Option<string> {
    StringValue(Get(Section(structure, key), "regex"))
  }

  /** The keys of the anchors of a kind. */
  function Anchors(structure: Dict, kind: string, reader: Reader): set<string> {
    set k | k in structure && RegexOf(structure, k).Some? && reader.fold(Strip(k)) == reader.fold(kind)
  }

  function AnchorGroups(structure: Dict, kind: string, reader: Reader): set<string> {
    set k, g | k in Anchors(structure, kind, reader) && g in reader.groupNames(RegexOf(structure, k).value) :: g
  }

  /** One primary anchor has all required groups. */
  predicate PrimarySatisfied(structure: Dict, required: set<string>, reader: Reader) {
    exists k :: k in Anchors(structure, "primary_anchor", reader) &&
        required <= reader.groupNames(RegexOf(structure, k).value)
  }

  predicate ContextUnitSatisfied(structure: Dict, required: set<string>, reader: Reader) {
    var context, unit := AnchorGroups(structure, "context_anchor", reader),
        AnchorGroups(structure, "unit_anchor", reader);
    context != {} && unit != {} && required <= context + unit
  }

  function ReadContract(schema: Dict, structure: Dict, reader: Reader): Contract {
    var required := RequiredGroups(schema, reader);
    var primary := Anchors(structure, "primary_anchor", reader) != {};
    var context := Anchors(structure, "context_anchor", reader) != {};
    var unit := Anchors(structure, "unit_anchor", reader) != {};
    Contract(StringValue(Get(schema, "type")).Some? && required != {} && (primary || (context && unit)),
             ContextUnitSatisfied(structure, required, reader) && !PrimarySatisfied(structure, required, reader),
             primary, context, unit)
  }

  function Build(reader: Reader): (Json, Json) -> Contract {
    (schema: Json, structure: Json) => ReadContract(DictValue(schema), DictValue(structure), reader)
  }

  lemma RegexKept(structure: Dict, validation: Dict, strategy: string, schemaType: Option<string>, key: string)
    ensures RegexOf(VerifiedStructure(structure, validation, strategy, schemaType), key) == RegexOf(structure, key)
  {
    hide StringValue, Typed, WithSource, Demoted;
    VerifiedRegex(Section(structure, key), schemaType);
  }

  lemma VerifiedRegex(anchor: Dict, schemaType: Option<string>)
    ensures var once := Typed(anchor["verified" := Bool(true)], schemaType);
            Get(once, "regex") == Get(anchor, "regex") && Get(WithSource(once), "regex") == Get(anchor, "regex")
  {
    hide StringValue;
  }

  /** Checking changes no expression. */
  lemma CheckingKeepsRegex(c: Dict, key: string)
    ensures RegexOf(Section(Checked(c), "domain_structure"), key) == RegexOf(Section(c, "domain_structure"), key)
  {
    hide DemotedAnchors, VerifiedStructure, SchemaType, Strategy, KnownStrategy, Rebuilt, StringValue, Checked, Section;
    var structure := Section(c, "domain_structure");
    CheckedIsRebuilt(c);
    StructureOfRebuilt(c, NewStructure(c), SwitchedOff(c));
    DemotingRegex(structure, key);
    DemotingRegex(DemotedAnchors(structure), key);
    if KnownStrategy(Strategy(c)) {
      KnownIsSome(c);
      DemotedAgain(structure);
      RegexKept(DemotedAnchors(structure), Section(c, "reference_contract_validation"), Strategy(c).value,
                SchemaType(c, Strategy(c).value), key);
    }
  }

  lemma DemotingRegex(structure: Dict, key: string)
    ensures RegexOf(DemotedAnchors(structure), key) == RegexOf(structure, key)
  {
    hide DemotedAnchors, StringValue;
    DemotingKeepsRegex(structure, key);
  }

  lemma SameAnchors(a: Dict, b: Dict, kind: string, reader: Reader)
    requires forall k :: RegexOf(a, k) == RegexOf(b, k)
    ensures Anchors(a, kind, reader) == Anchors(b, kind, reader)
  {
    hide Strip;
    forall k | RegexOf(a, k).Some?
      ensures k in a && k in b
    {
      assert RegexOf(b, k).Some?;
    }
  }

  lemma SameContract(schema: Dict, a: Dict, b: Dict, reader: Reader)
    requires forall k :: RegexOf(a, k) == RegexOf(b, k)
    ensures ReadContract(schema, a, reader) == ReadContract(schema, b, reader)
  {
    hide Anchors, RegexOf, RequiredGroups, StringValue;
    SameAnchors(a, b, "primary_anchor", reader);
    SameAnchors(a, b, "context_anchor", reader);
    SameAnchors(a, b, "unit_anchor", reader);
    assert AnchorGroups(a, "context_anchor", reader) == AnchorGroups(b, "context_anchor", reader);
    assert AnchorGroups(a, "unit_anchor", reader) == AnchorGroups(b, "unit_anchor", reader);
  }

  /** What the checks before it change has no influence on the contract that is read. */
  lemma CheckingKeepsContract(c: Dict, reader: Reader)
    ensures ContractOf(Checked(c), Build(reader)) == ContractOf(c, Build(reader))
  {
    hide Checked, RegexOf, ReadContract, SameOutside, SameSections;
    CheckingIsOutside(c);
    OutsideSameSections(c, Checked(c));
    SameSchema(c, Checked(c));
    forall k
      ensures RegexOf(Section(Checked(c), "domain_structure"), k) == RegexOf(Section(c, "domain_structure"), k)
    {
      CheckingKeepsRegex(c, k);
    }
    SameContract(Section(c, "reference_schema"), Section(Checked(c), "domain_structure"),
                 Section(c, "domain_structure"), reader);
  }

  lemma SameSchema(c: Dict, d: Dict)
    requires SameSections(c, d)
    ensures Section(c, "reference_schema") == Section(d, "reference_schema")
  {
  }

  /** With the contract read as it is, whether compiling twice changes anything can be seen from the metadata. */
  lemma CompilingMetadataTwice(c: Dict, reader: Reader)
    ensures Compiled(Compiled(c, Build(reader)), Build(reader)) == Compiled(c, Build(reader)) <==>
              !(&& StatusOf(c, "reference_contract_execution") == Str("unverified")
                && StatusOf(c, "reference_contract_validation") == Str("verified")
                && Section(c, "reference_resolution") == map[]
                && ReadContract(Section(c, "reference_schema"), Section(c, "domain_structure"), reader).executable)
  {
    hide Compiled, Checked, ReadContract;
    CompilingTwice(c, Build(reader));
    CheckingKeepsContract(c, reader);
  }

  /** A schema with a type and an identity field, and a primary anchor whose expression validation selected. */
  ghost function SwitchingMetadata(): Dict {
    map["reference_schema" := Obj(map["type" := Str("verse"), "identity_fields" := Arr([Str("verse")])]),
        "domain_structure" := Obj(map["primary_anchor" := Obj(map["regex" := Str("(?P<verse>[0-9]+)")])]),
        "reference_contract_execution" := Obj(map["status" := Str("unverified")]),
        "reference_contract_validation" :=
          Obj(map["status" := Str("verified"), "selected_strategy" := Str("single_anchor"),
                  "selected_primary_anchor_regex" := Str("(?P<verse>[0-9]+)")])]
  }

  lemma ExecutableWithPrimary(schema: Dict, structure: Dict, reader: Reader, field: string)
    requires StringValue(Get(schema, "type")).Some? && "canonical_ref_template" !in schema
    requires field in StringList(Get(schema, "identity_fields")) && RegexOf(structure, "primary_anchor").Some?
    requires Strip("primary_anchor") == "primary_anchor"
    ensures ReadContract(schema, structure, reader).executable
  {
    hide Strip, StringList, ContextUnitSatisfied, PrimarySatisfied;
    assert "primary_anchor" in structure;
    hide RegexOf, StringValue;
    assert "primary_anchor" in Anchors(structure, "primary_anchor", reader);
    assert StringValue(Get(schema, "canonical_ref_template")).None? by {
      MissingIsNone();
    }
    assert field in RequiredGroups(schema, reader);
  }

  lemma MissingIsNone()
    ensures StringValue(Null).None?
  {
  }

  lemma SwitchingSchema()
    ensures var schema := Section(SwitchingMetadata(), "reference_schema");
            && StringValue(Get(schema, "type")).Some? && "canonical_ref_template" !in schema
            && "verse" in StringList(Get(schema, "identity_fields"))
  {
    StrippedIsFixed("verse");
    hide Strip;
    var fields := Get(Section(SwitchingMetadata(), "reference_schema"), "identity_fields");
    assert fields == Arr([Str("verse")]);
    assert StringValue(fields.items[0]) == Some("verse");
  }

  lemma SwitchingStructure()
    ensures RegexOf(Section(SwitchingMetadata(), "domain_structure"), "primary_anchor").Some?
  {
    StrippedIsFixed("(?P<verse>[0-9]+)");
    hide Strip;
  }

  lemma SwitchingIsExecutable(reader: Reader)
    ensures var c := SwitchingMetadata();
            ReadContract(Section(c, "reference_schema"), Section(c, "domain_structure"), reader).executable
  {
    hide SwitchingMetadata, ReadContract, Strip, Section, StringValue, RegexOf, StringList;
    var c := SwitchingMetadata();
    SwitchingSchema();
    SwitchingStructure();
    KindIsStripped();
    ExecutableWithPrimary(Section(c, "reference_schema"), Section(c, "domain_structure"), reader, "verse");
  }

  lemma KindIsStripped()
    ensures Strip("primary_anchor") == "primary_anchor"
  {
    StrippedIsFixed("primary_anchor");
  }

  /** The exception occurs, however templates, expressions and letter case are read. */
  lemma ContractSwitchesOnOnce(reader: Reader)
    ensures var c := SwitchingMetadata();
            && SwitchesOnOnce(c, Build(reader))
            && Compiled(Compiled(c, Build(reader)), Build(reader)) != Compiled(c, Build(reader))
  {
    hide Checked, Compiled, ReadContract;
    var c := SwitchingMetadata();
    SwitchingIsExecutable(reader);
    CheckingKeepsContract(c, reader);
    CompilingMetadataTwice(c, reader);
  }

  // ----- what the steps do, by the fields

  /** The text of a field without surrounding space, if it has any. */
  ghost predicate SaysText(d: Dict, key: string, text: string) {
    text != "" && key in d && d[key].Str? && Strip(d[key].s) == text
  }

  lemma TextByFields(d: Dict, key: string)
    ensures forall text :: StringValue(Get(d, key)) == Some(text) <==> SaysText(d, key, text)
  {
    hide Strip;
  }

  lemma TruthTells(v: Json)
    ensures Truthy(v) <==>
              v !in {Null, Bool(false), Int(0), Real(0.0), Str(""), Arr([]), Obj(map[])}
  {
  }

  /** Execution that refuses the contract demotes it, and does nothing otherwise. */
  lemma ExecutionTells(c: Dict)
    ensures if HasStatus(c, "reference_contract_execution", "unverified") then IsDemoted(c, AfterExecution(c))
            else AfterExecution(c) == c
  {
    hide DemotedContract, HasStatus, StatusOf, IsDemoted;
    StatusByFields(c, "reference_contract_execution", "unverified");
    DemotedTells(c);
  }

  /** The strategies that validation can select. */
  ghost predicate SelectsBy(c: Dict, strategy: string) {
    && strategy in {"single_anchor", "contextual_unit"}
    && HasDict(c, "reference_contract_validation")
    && SaysText(c["reference_contract_validation"].fields, "selected_strategy", strategy)
  }

  lemma StrategyTells(c: Dict)
    ensures KnownStrategy(Strategy(c)) <==> exists strategy :: SelectsBy(c, strategy)
    ensures forall strategy :: SelectsBy(c, strategy) ==> Strategy(c) == Some(strategy)
  {
    hide StringValue, Strip;
    var validation := Section(c, "reference_contract_validation");
    TextByFields(validation, "selected_strategy");
    if KnownStrategy(Strategy(c)) {
      assert SelectsBy(c, Strategy(c).value);
    }
  }

  /** The anchor says the expression that validation selected for it. */
  ghost predicate Agrees(structure: Dict, anchor: string, validation: Dict, key: string) {
    && HasDict(structure, anchor)
    && exists regex :: SaysText(validation, key, regex) && SaysText(structure[anchor].fields, "regex", regex)
  }

  lemma SelectionTells(structure: Dict, anchor: string, validation: Dict, key: string)
    ensures IsSelected(structure, anchor, validation, key) <==> Agrees(structure, anchor, validation, key)
  {
    hide StringValue, Strip;
    TextByFields(validation, key);
    TextByFields(Section(structure, anchor), "regex");
    if IsSelected(structure, anchor, validation, key) {
      var regex := StringValue(Get(validation, key)).value;
      assert SaysText(validation, key, regex);
    }
  }

  /** What a selected anchor says afterwards: it is verified, has the type of the schema if there is one, and
      everything else as before. */
  ghost predicate IsVerifiedAs(before: Dict, after: Dict, schemaType: Option<string>) {
    && "verified" in after && after["verified"] == Bool(true)
    && (schemaType.Some? ==> "type" in after && after["type"] == Str(schemaType.value))
    && (schemaType.None? ==> ("type" in after <==> "type" in before))
    && (schemaType.None? && "type" in before ==> after["type"] == before["type"])
    && (forall k :: k !in {"verified", "type", "context_source"} ==>
          (k in after <==> k in before) && (k in before ==> after[k] == before[k]))
  }

  /** Verifying a structure changes the selected anchors only: the primary one, or the context and the unit
      anchor together; a unit anchor without a source gets the context anchor for it. */
  lemma VerifyingTells(structure: Dict, validation: Dict, strategy: string, schemaType: Option<string>)
    requires strategy in {"single_anchor", "contextual_unit"}
    ensures var after := VerifiedStructure(structure, validation, strategy, schemaType);
            if strategy == "single_anchor" then
              if Agrees(structure, "primary_anchor", validation, "selected_primary_anchor_regex") then
                && HasDict(after, "primary_anchor") && after == structure["primary_anchor" := after["primary_anchor"]]
                && IsVerifiedAs(structure["primary_anchor"].fields, after["primary_anchor"].fields, schemaType)
                && Get(after["primary_anchor"].fields, "context_source") ==
                   Get(structure["primary_anchor"].fields, "context_source")
              else after == structure
            else
              if && Agrees(structure, "context_anchor", validation, "selected_context_anchor_regex")
                 && Agrees(structure, "unit_anchor", validation, "selected_unit_anchor_regex") then
                && HasDict(after, "context_anchor") && HasDict(after, "unit_anchor")
                && after == structure["context_anchor" := after["context_anchor"]]["unit_anchor" :=
                                                                                   after["unit_anchor"]]
                && IsVerifiedAs(structure["context_anchor"].fields, after["context_anchor"].fields, schemaType)
                && IsVerifiedAs(structure["unit_anchor"].fields, after["unit_anchor"].fields, schemaType)
                && Get(after["context_anchor"].fields, "context_source") ==
                   Get(structure["context_anchor"].fields, "context_source")
                && (if exists text :: SaysText(structure["unit_anchor"].fields, "context_source", text)
                    then Get(after["unit_anchor"].fields, "context_source") ==
                         Get(structure["unit_anchor"].fields, "context_source")
                    else Get(after["unit_anchor"].fields, "context_source") == Str("context_anchor"))
              else after == structure
  {
    hide StringValue, IsSelected, Agrees, SaysText, IsVerifiedAs, VerifiedAnchor, WithSource;
    SelectionTells(structure, "primary_anchor", validation, "selected_primary_anchor_regex");
    SelectionTells(structure, "context_anchor", validation, "selected_context_anchor_regex");
    SelectionTells(structure, "unit_anchor", validation, "selected_unit_anchor_regex");
    if Agrees(structure, "primary_anchor", validation, "selected_primary_anchor_regex") {
      AnchorTells(structure, "primary_anchor", validation, "selected_primary_anchor_regex", schemaType);
    }
    if Agrees(structure, "context_anchor", validation, "selected_context_anchor_regex") {
      AnchorTells(structure, "context_anchor", validation, "selected_context_anchor_regex", schemaType);
    }
    if Agrees(structure, "unit_anchor", validation, "selected_unit_anchor_regex") {
      AnchorTells(structure, "unit_anchor", validation, "selected_unit_anchor_regex", schemaType);
      SourceTells(structure["unit_anchor"].fields, VerifiedAnchor(structure, "unit_anchor", schemaType), schemaType);
    }
  }

  lemma AnchorTells(structure: Dict, anchor: string, validation: Dict, key: string, schemaType: Option<string>)
    requires Agrees(structure, anchor, validation, key)
    ensures HasDict(structure, anchor)
    ensures IsVerifiedAs(structure[anchor].fields, VerifiedAnchor(structure, anchor, schemaType), schemaType)
    ensures Get(VerifiedAnchor(structure, anchor, schemaType), "context_source") ==
              Get(structure[anchor].fields, "context_source")
  {
    hide SaysText;
  }

  lemma SourceTells(before: Dict, after: Dict, schemaType: Option<string>)
    requires IsVerifiedAs(before, after, schemaType) && Get(after, "context_source") == Get(before, "context_source")
    ensures IsVerifiedAs(before, WithSource(after), schemaType)
    ensures if exists text :: SaysText(before, "context_source", text)
            then Get(WithSource(after), "context_source") == Get(before, "context_source")
            else Get(WithSource(after), "context_source") == Str("context_anchor")
  {
    hide StringValue, SaysText;
    TextByFields(before, "context_source");
    if StringValue(Get(before, "context_source")).Some? {
      assert SaysText(before, "context_source", StringValue(Get(before, "context_source")).value);
    }
  }

  /** The type given to selected anchors is that of the first candidate with the selected expressions, or else
      that of the schema. */
  lemma SchemaTypeTells(c: Dict, strategy: string)
    ensures forall text :: SaysText(Selected(Section(c, "reference_contract_validation"), strategy), "schema_type",
                                    text) ==>
              SchemaType(c, strategy) == Some(text)
    ensures (forall text :: !SaysText(Selected(Section(c, "reference_contract_validation"), strategy), "schema_type",
                                      text)) ==>
              forall text :: SchemaType(c, strategy) == Some(text) <==>
                HasDict(c, "reference_schema") && SaysText(c["reference_schema"].fields, "type", text)
  {
    hide StringValue, Strip, Selected;
    var selected := Selected(Section(c, "reference_contract_validation"), strategy);
    TextByFields(selected, "schema_type");
    TextByFields(Section(c, "reference_schema"), "type");
    if StringValue(Get(selected, "schema_type")).Some? {
      assert SaysText(selected, "schema_type", StringValue(Get(selected, "schema_type")).value);
    }
  }

  /** Both fields say the same text, or neither says any. */
  ghost predicate SameText(a: Dict, key: string, b: Dict, other: string) {
    forall text :: SaysText(a, key, text) <==> SaysText(b, other, text)
  }

  lemma SameTextTells(a: Dict, key: string, b: Dict, other: string)
    ensures StringValue(Get(a, key)) == StringValue(Get(b, other)) <==> SameText(a, key, b, other)
  {
    hide StringValue, SaysText;
    TextByFields(a, key);
    TextByFields(b, other);
    if StringValue(Get(a, key)).Some? {
      assert SaysText(a, key, StringValue(Get(a, key)).value);
    }
    if StringValue(Get(b, other)).Some? {
      assert SaysText(b, other, StringValue(Get(b, other)).value);
    }
  }

  /** A candidate is the selected one when its expressions are those that were selected. */
  lemma MatchTells(candidate: Dict, validation: Dict, strategy: string)
    ensures Matches(candidate, validation, strategy) <==>
              || (strategy == "single_anchor"
                  && SameText(candidate, "primary_anchor_regex", validation, "selected_primary_anchor_regex"))
              || (strategy == "contextual_unit"
                  && SameText(candidate, "context_anchor_regex", validation, "selected_context_anchor_regex")
                  && SameText(candidate, "unit_anchor_regex", validation, "selected_unit_anchor_regex"))
  {
    hide StringValue, SameText;
    SameTextTells(candidate, "primary_anchor_regex", validation, "selected_primary_anchor_regex");
    SameTextTells(candidate, "context_anchor_regex", validation, "selected_context_anchor_regex");
    SameTextTells(candidate, "unit_anchor_regex", validation, "selected_unit_anchor_regex");
  }

  /** The candidate number `i` is a dictionary that matches. */
  ghost predicate MatchesAt(candidates: seq<Json>, validation: Dict, strategy: string, i: int) {
    0 <= i < |candidates| && candidates[i].Obj? && Matches(candidates[i].fields, validation, strategy)
  }

  lemma {:induction false} SelectedIsFirst(candidates: seq<Json>, validation: Dict, strategy: string)
    ensures (forall i :: !MatchesAt(candidates, validation, strategy, i)) ==>
              SelectedFrom(candidates, validation, strategy) == map[]
    ensures forall i :: MatchesAt(candidates, validation, strategy, i)
                        && (forall j :: 0 <= j < i ==> !MatchesAt(candidates, validation, strategy, j)) ==>
              SelectedFrom(candidates, validation, strategy) == candidates[i].fields
    decreases |candidates|
  {
    hide Matches;
    if candidates != [] {
      var rest := candidates[1..];
      SelectedIsFirst(rest, validation, strategy);
      var first := MatchesAt(candidates, validation, strategy, 0);
      forall i
        ensures MatchesAt(rest, validation, strategy, i) ==> MatchesAt(candidates, validation, strategy, i + 1)
      {
      }
      forall i | MatchesAt(candidates, validation, strategy, i)
                 && (forall j :: 0 <= j < i ==> !MatchesAt(candidates, validation, strategy, j))
        ensures SelectedFrom(candidates, validation, strategy) == candidates[i].fields
      {
        if i > 0 {
          assert !first;
          assert MatchesAt(rest, validation, strategy, i - 1);
        }
      }
    }
  }

  /** The selected candidate is the first of those that validation lists, and empty if none of them is selected. */
  lemma SelectedTells(validation: Dict, strategy: string)
    ensures var listed := if "candidates" in validation && validation["candidates"].Arr?
                          then validation["candidates"].items else [];
            && ((forall i :: !MatchesAt(listed, validation, strategy, i)) ==> Selected(validation, strategy) == map[])
            && (forall i :: MatchesAt(listed, validation, strategy, i)
                            && (forall j :: 0 <= j < i ==> !MatchesAt(listed, validation, strategy, j)) ==>
                  Selected(validation, strategy) == listed[i].fields)
  {
    hide Matches;
    var listed := if "candidates" in validation && validation["candidates"].Arr?
                  then validation["candidates"].items else [];
    SelectedIsFirst(listed, validation, strategy);
  }

  /** Validation that refuses the contract demotes it. One that verified it, by a strategy that is known, demotes
      the anchors of the structure and verifies those it selected. Anything else changes nothing. */
  lemma ValidationTells(c: Dict)
    ensures if HasStatus(c, "reference_contract_validation", "unverified") then IsDemoted(c, AfterValidation(c))
            else if && HasStatus(c, "reference_contract_validation", "verified")
                    && HasDict(c, "domain_structure") && c["domain_structure"].fields != map[]
                    && exists strategy :: SelectsBy(c, strategy) then
              exists strategy, demoted :: SelectsBy(c, strategy) && AreDemoted(c["domain_structure"].fields, demoted)
                && AfterValidation(c) ==
                   c["domain_structure" := Obj(VerifiedStructure(demoted, c["reference_contract_validation"].fields,
                                                                 strategy, SchemaType(c, strategy)))]
            else AfterValidation(c) == c
  {
    hide DemotedContract, IsDemoted, VerifiedStructure, SchemaType, StringValue, DemotedAnchors, AreDemoted, Strategy,
      SaysText, HasStatus, StatusOf;
    StatusByFields(c, "reference_contract_validation", "unverified");
    StatusByFields(c, "reference_contract_validation", "verified");
    DemotedTells(c);
    StrategyTells(c);
    if strategy :| SelectsBy(c, strategy) {
      AnchorsAreDemoted(Section(c, "domain_structure"));
      assert Strategy(c) == Some(strategy);
    }
  }

  // ----- what executing a contract fills in

  /** The field is as it was, or has the default if it was not there. */
  ghost predicate FilledIn(before: Dict, after: Dict, key: string, default: Json) {
    key in after && after[key] == if key in before then before[key] else default
  }

  ghost predicate SameBut(before: Dict, after: Dict, keys: set<string>) {
    forall k :: k !in keys ==> (k in after <==> k in before) && (k in before ==> after[k] == before[k])
  }

  /** The dictionary a section is, or an empty one. */
  ghost function FieldsOf(c: Dict, key: string): Dict {
    if key in c && c[key].Obj? then c[key].fields else map[]
  }

  lemma FieldsAreSection(c: Dict, key: string)
    ensures FieldsOf(c, key) == Section(c, key)
  {
  }

  ghost predicate ResolutionFilled(before: Dict, after: Dict) {
    && FilledIn(before, after, "enabled", Bool(true)) && FilledIn(before, after, "build_canonical_units", Bool(true))
    && FilledIn(before, after, "carry_forward_body_blocks", Bool(true))
    && FilledIn(before, after, "header_only_policy", Str("provenance_only"))
    && FilledIn(before, after, "continuation_policy", Str("until_next_reference"))
    && FilledIn(before, after, "max_page_gap", Int(2))
    && FilledIn(before, after, "require_single_reference_per_answerable_chunk", Bool(true))
    && SameBut(before, after, {"enabled", "build_canonical_units", "carry_forward_body_blocks", "header_only_policy",
                               "continuation_policy", "max_page_gap", "require_single_reference_per_answerable_chunk"})
  }

  ghost predicate ProvenanceFilled(before: Dict, after: Dict) {
    && FilledIn(before, after, "preserve_original_blocks", Bool(true))
    && FilledIn(before, after, "block_preview_chars", Int(160))
    && FilledIn(before, after, "store_text_hash", Bool(true))
    && SameBut(before, after, {"preserve_original_blocks", "block_preview_chars", "store_text_hash"})
  }

  /** What the gate requires: the type and the canonical units, and between them the expressions of the anchors
      the contract is executed with. */
  ghost predicate IsRequired(contract: Contract, required: seq<Json>) {
    && required != [] && required[0] == Str("reference_schema.type")
    && required[|required| - 1] == Str("reference_resolution.build_canonical_units")
    && required[1..|required| - 1] ==
       (if contract.contextUnitOnly || (!contract.primary && contract.context && contract.unit)
        then [Str("domain_structure.context_anchor.regex"), Str("domain_structure.unit_anchor.regex")]
        else if contract.primary then [Str("domain_structure.primary_anchor.regex")]
        else if contract.context then [Str("domain_structure.context_anchor.regex")]
        else if contract.unit then [Str("domain_structure.unit_anchor.regex")]
        else [])
  }

  /** A gate keeps what it requires unless that is nothing. */
  ghost predicate GateFilled(before: Dict, after: Dict, contract: Contract) {
    && FilledIn(before, after, "enabled", Bool(true)) && FilledIn(before, after, "action", Str("block"))
    && SameBut(before, after, {"enabled", "action", "required"}) && "required" in after
    && (if "required" in before && Truthy(before["required"]) then after["required"] == before["required"]
        else after["required"].Arr? && IsRequired(contract, after["required"].items))
  }

  lemma RequiredTells(contract: Contract)
    ensures IsRequired(contract, Required(contract))
  {
    var required := Required(contract);
    var middle := required[1..|required| - 1];
    assert required == [required[0]] + middle + [required[|required| - 1]];
  }

  lemma ResolutionTells(before: Dict)
    ensures ResolutionFilled(before, Completed(before, RESOLUTION_DEFAULTS))
  {
  }

  lemma ProvenanceTells(before: Dict)
    ensures ProvenanceFilled(before, Completed(before, PROVENANCE_DEFAULTS))
  {
  }

  lemma GateTells(before: Dict, contract: Contract)
    ensures GateFilled(before, GateDefaults(before, contract), contract)
  {
    hide Required, IsRequired;
    RequiredTells(contract);
  }

  /** Executing a contract fills in three sections and leaves the others alone. */
  ghost predicate IsFilled(c: Dict, d: Dict, contract: Contract) {
    && SameBut(c, d, {"reference_resolution", "provenance", "quality_policy"})
    && HasDict(d, "reference_resolution") && HasDict(d, "provenance") && HasDict(d, "quality_policy")
    && ResolutionFilled(FieldsOf(c, "reference_resolution"), d["reference_resolution"].fields)
    && ProvenanceFilled(FieldsOf(c, "provenance"), d["provenance"].fields)
    && var before, after := FieldsOf(c, "quality_policy"), d["quality_policy"].fields;
       && SameBut(before, after, {"reference_contract_gate"}) && HasDict(after, "reference_contract_gate")
       && GateFilled(FieldsOf(before, "reference_contract_gate"), after["reference_contract_gate"].fields, contract)
  }

  lemma DefaultsTell(c: Dict, contract: Contract)
    ensures IsFilled(c, WithDefaults(c, contract), contract)
  {
    hide Completed, GateDefaults, ResolutionFilled, ProvenanceFilled, GateFilled;
    ResolutionTells(Section(c, "reference_resolution"));
    ProvenanceTells(Section(c, "provenance"));
    GateTells(Section(Section(c, "quality_policy"), "reference_contract_gate"), contract);
    FieldsAreSection(c, "reference_resolution");
    FieldsAreSection(c, "provenance");
    FieldsAreSection(c, "quality_policy");
    FieldsAreSection(FieldsOf(c, "quality_policy"), "reference_contract_gate");
  }

  /** What compiling comes to, after execution and validation had their say: without proof the contract is
      demoted; with it, or without any contract, the sections are filled in exactly when it can be executed. */
  lemma CompilingTells(c: Dict, build: (Json, Json) -> Contract)
    ensures var checked := AfterValidation(AfterExecution(c));
            var contract := build(Get(checked, "reference_schema"), Get(checked, "domain_structure"));
            if MentionsContract(c) && LacksProof(c) then IsDemoted(checked, Compiled(c, build))
            else if contract.executable then IsFilled(checked, Compiled(c, build), contract)
            else Compiled(c, build) == checked
  {
    hide AfterValidation, AfterExecution, IsVerified, Declares, DemotedContract, MentionsContract, LacksProof,
      IsDemoted, WithDefaults, IsFilled, Compiled;
    var checked := Checked(c);
    DeclaredByFields(c);
    CheckingIsOutside(c);
    OutsideKeepsStatus(c, checked);
    DemotedTells(checked);
    DefaultsTell(checked, ContractOf(checked, build));
    CompiledCases(c, build);
  }

  lemma CompiledCases(c: Dict, build: (Json, Json) -> Contract)
    ensures var checked := AfterValidation(AfterExecution(c));
            var contract := build(Get(checked, "reference_schema"), Get(checked, "domain_structure"));
            Compiled(c, build) ==
              if Declares(checked) && !IsVerified(checked) then DemotedContract(checked)
              else if contract.executable then WithDefaults(checked, contract) else checked
  {
    hide AfterValidation, AfterExecution, IsVerified, Declares, DemotedContract, WithDefaults;
  }

  /** A contract can be executed when the schema says a type, some group is required, and there is a primary
      anchor with an expression, or a context and a unit anchor. Its required groups are those of the template if
      that can be read, otherwise of the first list of fields that is not empty. */
  lemma ReadingTells(schema: Dict, structure: Dict, reader: Reader)
    ensures var required := RequiredGroups(schema, reader);
            ReadContract(schema, structure, reader).executable <==>
              && (exists text :: SaysText(schema, "type", text)) && required != {}
              && (|| (exists k :: IsAnchorOf(structure, k, "primary_anchor", reader))
                  || (&& (exists k :: IsAnchorOf(structure, k, "context_anchor", reader))
                      && (exists k :: IsAnchorOf(structure, k, "unit_anchor", reader))))
  {
    hide StringValue, SaysText, RequiredGroups, IsAnchorOf, PrimarySatisfied, ContextUnitSatisfied, Anchors;
    TextByFields(schema, "type");
    AnchorsTell(structure, "primary_anchor", reader);
    AnchorsTell(structure, "context_anchor", reader);
    AnchorsTell(structure, "unit_anchor", reader);
    if StringValue(Get(schema, "type")).Some? {
      assert SaysText(schema, "type", StringValue(Get(schema, "type")).value);
    }
  }

  /** The key names an anchor of this kind, letter case and surrounding space apart, and that has an
      expression. */
  ghost predicate IsAnchorOf(structure: Dict, k: string, kind: string, reader: Reader) {
    && HasDict(structure, k) && (exists regex :: SaysText(structure[k].fields, "regex", regex))
    && reader.fold(Strip(k)) == reader.fold(kind)
  }

  lemma AnchorsTell(structure: Dict, kind: string, reader: Reader)
    ensures forall k :: k in Anchors(structure, kind, reader) <==> IsAnchorOf(structure, k, kind, reader)
    ensures Anchors(structure, kind, reader) != {} <==> exists k :: IsAnchorOf(structure, k, kind, reader)
  {
    hide StringValue, Strip;
    forall k
      ensures k in Anchors(structure, kind, reader) <==> IsAnchorOf(structure, k, kind, reader)
    {
      TextByFields(Section(structure, k), "regex");
      if RegexOf(structure, k).Some? {
        assert SaysText(Section(structure, k), "regex", RegexOf(structure, k).value);
      }
    }
    hide IsAnchorOf, SaysText;
    if Anchors(structure, kind, reader) != {} {
      var k :| k in Anchors(structure, kind, reader);
      assert IsAnchorOf(structure, k, kind, reader);
    }
    if k :| IsAnchorOf(structure, k, kind, reader) {
      assert k in Anchors(structure, kind, reader);
    }
  }

  /** The list of a schema names the group, surrounding space apart. */
  ghost predicate Names(schema: Dict, key: string, group: string) {
    && key in schema && schema[key].Arr? && group != ""
    && exists i :: 0 <= i < |schema[key].items| && schema[key].items[i].Str? && Strip(schema[key].items[i].s) == group
  }

  lemma NamesTell(schema: Dict, key: string)
    ensures forall g :: g in StringList(Get(schema, key)) <==> Names(schema, key, g)
    ensures StringList(Get(schema, key)) != {} <==> exists g :: Names(schema, key, g)
  {
    hide Strip;
    var v := Get(schema, key);
    forall g
      ensures g in StringList(v) <==> Names(schema, key, g)
    {
      if Names(schema, key, g) {
        var i :| 0 <= i < |v.items| && v.items[i].Str? && Strip(v.items[i].s) == g;
        assert StringValue(v.items[i]) == Some(g);
      }
      if g in StringList(v) {
        var i :| 0 <= i < |v.items| && StringValue(v.items[i]).Some? && StringValue(v.items[i]).value == g;
        assert v.items[i].Str?;
      }
    }
    if StringList(v) != {} {
      var g :| g in StringList(v);
      assert Names(schema, key, g);
    }
    if g :| Names(schema, key, g) {
      assert g in StringList(v);
    }
  }

  /** The required groups are those of the template if that can be read, otherwise those of the first of three
      lists that names any. */
  lemma GroupsTell(schema: Dict, reader: Reader, group: string)
    ensures var template := StringValue(Get(schema, "canonical_ref_template"));
            group in RequiredGroups(schema, reader) <==>
              if template.Some? && reader.templateFields(template.value).Some?
              then group in reader.templateFields(template.value).value
              else if exists g :: Names(schema, "identity_fields", g) then Names(schema, "identity_fields", group)
              else if exists g :: Names(schema, "required_fields", g) then Names(schema, "required_fields", group)
              else
                group != "" && HasDict(schema, "fields")
                && exists k :: k in schema["fields"].fields && Strip(k) == group
  {
    hide StringValue, Strip, StringList, Names;
    NamesTell(schema, "identity_fields");
    NamesTell(schema, "required_fields");
    var fields := Section(schema, "fields");
    if k :| k in fields && Strip(k) == group && group != "" {
      assert k in fields && Strip(k) != "";
    }
  }

  /** An anchor of this kind has the group in its expression. */
  ghost predicate CapturedBy(structure: Dict, k: string, kind: string, reader: Reader, group: string) {
    && IsAnchorOf(structure, k, kind, reader)
    && exists regex :: SaysText(structure[k].fields, "regex", regex) && group in reader.groupNames(regex)
  }

  lemma CapturedTells(structure: Dict, k: string, kind: string, reader: Reader, group: string)
    ensures CapturedBy(structure, k, kind, reader, group) <==>
              k in Anchors(structure, kind, reader) && group in reader.groupNames(RegexOf(structure, k).value)
  {
    hide StringValue, Strip;
    AnchorsTell(structure, kind, reader);
    TextByFields(Section(structure, k), "regex");
  }

  /** The context and the unit anchors are required together when they capture something each and all required
      groups between them, and no single primary anchor does. */
  lemma TogetherTells(schema: Dict, structure: Dict, reader: Reader)
    ensures var required := RequiredGroups(schema, reader);
            ReadContract(schema, structure, reader).contextUnitOnly <==>
              && (exists k, g :: CapturedBy(structure, k, "context_anchor", reader, g))
              && (exists k, g :: CapturedBy(structure, k, "unit_anchor", reader, g))
              && (forall g :: g in required ==>
                    exists k :: || CapturedBy(structure, k, "context_anchor", reader, g)
                                || CapturedBy(structure, k, "unit_anchor", reader, g))
              && !(exists k :: IsAnchorOf(structure, k, "primary_anchor", reader)
                               && forall g :: g in required ==> CapturedBy(structure, k, "primary_anchor", reader, g))
  {
    hide StringValue, RequiredGroups, IsAnchorOf, CapturedBy, Anchors;
    var required := RequiredGroups(schema, reader);
    SharedTells(structure, "context_anchor", reader);
    SharedTells(structure, "unit_anchor", reader);
    PrimaryTells(structure, required, reader);
    var context, unit := AnchorGroups(structure, "context_anchor", reader),
        AnchorGroups(structure, "unit_anchor", reader);
    hide AnchorGroups, PrimarySatisfied;
    if required <= context + unit {
      forall g | g in required
        ensures exists k :: || CapturedBy(structure, k, "context_anchor", reader, g)
                            || CapturedBy(structure, k, "unit_anchor", reader, g)
      {
        assert g in context || g in unit;
      }
    }
  }

  lemma SharedTells(structure: Dict, kind: string, reader: Reader)
    ensures forall g :: g in AnchorGroups(structure, kind, reader) <==>
                        exists k :: CapturedBy(structure, k, kind, reader, g)
    ensures AnchorGroups(structure, kind, reader) != {} <==> exists k, g :: CapturedBy(structure, k, kind, reader, g)
  {
    hide StringValue, CapturedBy;
    forall k, g
      ensures CapturedBy(structure, k, kind, reader, g) <==>
                k in Anchors(structure, kind, reader) && g in reader.groupNames(RegexOf(structure, k).value)
    {
      CapturedTells(structure, k, kind, reader, g);
    }
    var groups := AnchorGroups(structure, kind, reader);
    if groups != {} {
      var g :| g in groups;
      var k :| k in Anchors(structure, kind, reader) && g in reader.groupNames(RegexOf(structure, k).value);
      assert CapturedBy(structure, k, kind, reader, g);
    }
    if k, g :| CapturedBy(structure, k, kind, reader, g) {
      assert g in groups;
    }
  }

  lemma PrimaryTells(structure: Dict, required: set<string>, reader: Reader)
    ensures PrimarySatisfied(structure, required, reader) <==>
              exists k :: IsAnchorOf(structure, k, "primary_anchor", reader)
                          && forall g :: g in required ==> CapturedBy(structure, k, "primary_anchor", reader, g)
  {
    hide StringValue, CapturedBy, IsAnchorOf;
    AnchorsTell(structure, "primary_anchor", reader);
    forall k, g
      ensures CapturedBy(structure, k, "primary_anchor", reader, g) <==>
                k in Anchors(structure, "primary_anchor", reader)
                && g in reader.groupNames(RegexOf(structure, k).value)
    {
      CapturedTells(structure, k, "primary_anchor", reader, g);
    }
    if k :| k in Anchors(structure, "primary_anchor", reader)
            && required <= reader.groupNames(RegexOf(structure, k).value) {
      assert IsAnchorOf(structure, k, "primary_anchor", reader);
    }
    if k :| IsAnchorOf(structure, k, "primary_anchor", reader)
            && forall g :: g in required ==> CapturedBy(structure, k, "primary_anchor", reader, g) {
      assert k in Anchors(structure, "primary_anchor", reader);
      assert required <= reader.groupNames(RegexOf(structure, k).value);
    }
  }

  // ----- the steps, in place

  /** The metadata of a document type while it is compiled. */
  class MetadataCompiler {
    var customJson: Dict

    constructor (customJson: Dict)
      ensures this.customJson == customJson
    {
      this.customJson := customJson;
    }

    /** Sets `verified` to false in each of the three anchors of a structure. */
    static method DemoteAnchors(structure: Dict) returns (demoted: Dict)
      ensures demoted == DemotedAnchors(structure)
    {
      var keys := ["primary_anchor", "context_anchor", "unit_anchor"];
      demoted := structure;
      for i := 0 to |keys|
        invariant demoted.Keys == structure.Keys
        invariant forall k :: k in structure ==>
                  demoted[k] == if k in keys[..i] then Demoted(structure[k]) else structure[k]
      {
        var anchor := Get(demoted, keys[i]);
        if anchor.Obj? {
          demoted := demoted[keys[i] := Obj(anchor.fields["verified" := Bool(false)])];
        }
        assert keys[..i + 1] == keys[..i] + [keys[i]];
      }
      assert keys[..|keys|] == keys;
    }

    method DemoteReferenceContract()
      modifies this
      ensures customJson == DemotedContract(old(customJson))
    {
      hide DemotedAnchors;
      var structure := Section(customJson, "domain_structure");
      if structure != map[] {
        var demoted := DemoteAnchors(structure);
        customJson := customJson["domain_structure" := Obj(demoted)];
      }
      var resolution := Section(customJson, "reference_resolution");
      if resolution != map[] {
        resolution := resolution["enabled" := Bool(false)];
        resolution := resolution["build_canonical_units" := Bool(false)];
        customJson := customJson["reference_resolution" := Obj(resolution)];
      }
    }

    method ApplyExecutionStatus()
      modifies this
      ensures customJson == AfterExecution(old(customJson))
    {
      if StatusOf(customJson, "reference_contract_execution") != Str("unverified") {
        return;
      }
      DemoteReferenceContract();
    }

    /** The first candidate with the selected expressions. */
    static method SelectedCandidate(validation: Dict, strategy: string) returns (selected: Dict)
      ensures selected == Selected(validation, strategy)
    {
      hide Matches;
      var candidates := Get(validation, "candidates");
      if !candidates.Arr? {
        return map[];
      }
      for i := 0 to |candidates.items|
        invariant SelectedFrom(candidates.items[i..], validation, strategy) ==
                  SelectedFrom(candidates.items, validation, strategy)
      {
        assert candidates.items[i..][0] == candidates.items[i] &&
            candidates.items[i..][1..] == candidates.items[i + 1..];
        if candidates.items[i].Obj? && Matches(candidates.items[i].fields, validation, strategy) {
          return candidates.items[i].fields;
        }
      }
      return map[];
    }

    method ApplyValidation()
      modifies this
      ensures customJson == AfterValidation(old(customJson))
    {
      hide DemotedAnchors, StringValue, Selected, DemotedContract;
      var validation := Section(customJson, "reference_contract_validation");
      if Get(validation, "status") == Str("unverified") {
        DemoteReferenceContract();
        return;
      }
      if Get(validation, "status") != Str("verified") {
        return;
      }
      var strategy := StringValue(Get(validation, "selected_strategy"));
      var structure := Section(customJson, "domain_structure");
      if !KnownStrategy(strategy) || structure == map[] {
        return;
      }
      var selected := SelectedCandidate(validation, strategy.value);
      var schemaType := StringValue(Get(selected, "schema_type"));
      if schemaType.None? {
        schemaType := StringValue(Get(Section(customJson, "reference_schema"), "type"));
      }
      structure := DemoteAnchors(structure);
      if strategy.value == "single_anchor" {
        if IsSelected(structure, "primary_anchor", validation, "selected_primary_anchor_regex") {
          structure := structure["primary_anchor" := Obj(VerifiedAnchor(structure, "primary_anchor", schemaType))];
        }
      } else if && IsSelected(structure, "context_anchor", validation, "selected_context_anchor_regex")
                && IsSelected(structure, "unit_anchor", validation, "selected_unit_anchor_regex") {
        var context := VerifiedAnchor(structure, "context_anchor", schemaType);
        var unit := VerifiedAnchor(structure, "unit_anchor", schemaType);
        if StringValue(Get(unit, "context_source")).None? {
          unit := unit["context_source" := Str("context_anchor")];
        }
        structure := structure["context_anchor" := Obj(context)];
        structure := structure["unit_anchor" := Obj(unit)];
      }
      customJson := customJson["domain_structure" := Obj(structure)];
    }

    method Compile(build: (Json, Json) -> Contract)
      modifies this
      ensures customJson == Compiled(old(customJson), build)
    {
      hide AfterExecution, AfterValidation, DemotedContract, Declares, IsVerified, Completed, PolicyDefaults;
      ApplyExecutionStatus();
      ApplyValidation();
      if Declares(customJson) && !IsVerified(customJson) {
        DemoteReferenceContract();
        return;
      }
      var contract := ContractOf(customJson, build);
      if !contract.executable {
        return;
      }
      customJson := customJson["reference_resolution" :=
                               Obj(Completed(Section(customJson, "reference_resolution"), RESOLUTION_DEFAULTS))];
      customJson := customJson["provenance" := Obj(Completed(Section(customJson, "provenance"), PROVENANCE_DEFAULTS))];
      customJson := customJson["quality_policy" :=
                               Obj(PolicyDefaults(Section(customJson, "quality_policy"), contract))];
    }
  }
}
