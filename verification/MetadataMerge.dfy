/**
 Merging what a model suggests into baseline metadata: dictionaries key by key at every depth, lists
 without repeats, and a baseline value wins unless it is empty.
 */
module MetadataMerge {
  import opened Wrappers
  import opened Sequences

  /** A JSON value; 1 and 1.0 are two values, as their texts are. */
  datatype Json =
    | Null
    | Bool(b: bool)
    | Int(i: int)
    | Real(r: real)
    | Str(s: string)
    | Arr(items: seq<Json>)
    | Obj(fields: map<string, Json>)

  predicate IsEmptyMetadataValue(v: Json) {
    v == Null || v == Str("") || v == Str("unknown")
  }

  // ----- lists

  /** The items in order, each one that occurs again left out; items that are not kept are left out too. */
  function Unique(items: seq<Json>, kept: Json -> bool): seq<Json> {
    if items == [] then []
    else
      var merged, last := Unique(items[..|items| - 1], kept), items[|items| - 1];
      if kept(last) && last !in merged then merged + [last] else merged
  }

  function NonEmptyString(v: Json): bool {
    v.Str? && v.s != ""
  }

  function Anything(v: Json): bool {
    true
  }

  predicate AllStrings(items: seq<Json>) {
    forall i :: 0 <= i < |items| ==> items[i].Str?
  }

  /** Lists of strings lose their empty strings, other lists keep everything. */
  function KeptIn(items: seq<Json>): Json -> bool {
    if AllStrings(items) then NonEmptyString else Anything
  }

  function MergedLists(first: seq<Json>, second: seq<Json>): seq<Json> {
    Unique(first + second, KeptIn(first + second))
  }

  lemma {:induction false} UniqueHolds(items: seq<Json>, kept: Json -> bool)
    ensures Distinct(Unique(items, kept))
    ensures forall v :: v in Unique(items, kept) <==> v in items && kept(v)
    decreases |items|
  {
    if items != [] {
      var init, last := items[..|items| - 1], items[|items| - 1];
      UniqueHolds(init, kept);
      assert items == init + [last];
    }
  }

  lemma {:induction false} UniqueOfConcat(a: seq<Json>, b: seq<Json>, kept: Json -> bool)
    ensures Unique(a, kept) <= Unique(a + b, kept)
    decreases |b|
  {
    if b == [] {
      assert a + b == a;
    } else {
      assert (a + b)[..|a + b| - 1] == a + b[..|b| - 1];
      UniqueOfConcat(a, b[..|b| - 1], kept);
    }
  }

  /** Adding what is there already adds nothing. */
  lemma {:induction false} UniqueAbsorbs(a: seq<Json>, b: seq<Json>, kept: Json -> bool)
    requires forall v :: v in b && kept(v) ==> v in Unique(a, kept)
    ensures Unique(a + b, kept) == Unique(a, kept)
    decreases |b|
  {
    if b == [] {
      assert a + b == a;
    } else {
      var init, last := b[..|b| - 1], b[|b| - 1];
      assert b == init + [last];
      assert (a + b)[..|a + b| - 1] == a + init;
      UniqueAbsorbs(a, init, kept);
    }
  }

  lemma {:induction false} UniqueOfUnique(items: seq<Json>, kept: Json -> bool)
    requires Distinct(items) && forall v :: v in items ==> kept(v)
    ensures Unique(items, kept) == items
    decreases |items|
  {
    if items != [] {
      var init, last := items[..|items| - 1], items[|items| - 1];
      assert items == init + [last];
      UniqueOfUnique(init, kept);
      assert last !in init;
    }
  }

  /** A merged list has no duplicates, begins with the items of the baseline, and holds exactly the items of
      both lists; only when all of them are strings are the empty ones dropped. */
  lemma MergedListsHold(first: seq<Json>, second: seq<Json>)
    ensures var merged := MergedLists(first, second);
            && Distinct(merged)
            && Unique(first, KeptIn(first + second)) <= merged
            && forall v :: v in merged <==>
                 (v in first || v in second) && (AllStrings(first + second) ==> v != Str(""))
  {
    var all := first + second;
    UniqueHolds(all, KeptIn(all));
    UniqueOfConcat(first, second, KeptIn(all));
    forall v | v in all
      ensures KeptIn(all)(v) <==> (AllStrings(all) ==> v != Str(""))
    {
      var i :| 0 <= i < |all| && all[i] == v;
    }
  }

  /** A list that merging with itself leaves as it is: without duplicates, and without empty strings when it
      holds strings only. */
  ghost predicate CleanList(items: seq<Json>) {
    Distinct(items) && (AllStrings(items) ==> Str("") !in items)
  }

  lemma KeptInBoth(first: seq<Json>, second: seq<Json>)
    ensures AllStrings(first + second) <==> AllStrings(first) && AllStrings(second)
  {
    var all := first + second;
    if AllStrings(all) {
      forall i | 0 <= i < |first|
        ensures first[i].Str?
      {
        assert all[i].Str?;
      }
      forall i | 0 <= i < |second|
        ensures second[i].Str?
      {
        assert all[|first| + i].Str?;
      }
    }
  }

  /** Merging the same list again adds nothing. */
  lemma MergeListTwice(first: seq<Json>, second: seq<Json>)
    ensures MergedLists(MergedLists(first, second), second) == MergedLists(first, second)
  {
    hide AllStrings, NonEmptyString, Anything;
    var all := first + second;
    var merged := MergedLists(first, second);
    var kept := KeptIn(all);
    UniqueHolds(all, kept);
    SameKindAgain(first, second);
    UniqueOfUnique(merged, kept);
    UniqueAbsorbs(merged, second, kept);
  }

  /** Whether all items are strings does not change by merging. */
  lemma SameKindAgain(first: seq<Json>, second: seq<Json>)
    ensures AllStrings(MergedLists(first, second) + second) <==> AllStrings(first + second)
  {
    var all, merged := first + second, MergedLists(first, second);
    KeptInBoth(merged, second);
    KeptInBoth(first, second);
    UniqueHolds(all, KeptIn(all));
    if AllStrings(all) {
      forall i | 0 <= i < |merged|
        ensures merged[i].Str?
      {
        assert merged[i] in all;
        var j :| 0 <= j < |all| && all[j] == merged[i];
      }
    } else {
      var j :| 0 <= j < |all| && !all[j].Str?;
      assert all[j] in all && Anything(all[j]);
      assert all[j] in merged;
      var i :| 0 <= i < |merged| && merged[i] == all[j];
    }
  }

  /** A list is left as it is by merging it with itself exactly when it is clean. */
  lemma CleanListsOnly(items: seq<Json>)
    ensures MergedLists(items, items) == items <==> CleanList(items)
  {
    var all := items + items;
    KeptInBoth(items, items);
    MergedListsHold(items, items);
    forall v
      ensures v in all <==> v in items
    {
    }
    if CleanList(items) {
      forall v | v in items
        ensures KeptIn(all)(v)
      {
        var i :| 0 <= i < |items| && items[i] == v;
      }
      UniqueOfUnique(items, KeptIn(all));
      UniqueAbsorbs(items, items, KeptIn(all));
    }
  }

  // ----- trees

  function Combined(baseline: Json, ai: Json): Json
    decreases ai
  {
    if baseline.Obj? && ai.Obj? then
      Obj(map k | k in baseline.fields.Keys + ai.fields.Keys ::
            if k !in ai.fields then baseline.fields[k]
            else if k !in baseline.fields then ai.fields[k]
            else Combined(baseline.fields[k], ai.fields[k]))
    else if baseline.Arr? && ai.Arr? then Arr(MergedLists(baseline.items, ai.items))
    else if IsEmptyMetadataValue(baseline) then ai
    else baseline
  }

  function Lookup(tree: Json, path: seq<string>): Option<Json>
    decreases |path|
  {
    if path == [] then Some(tree)
    else if tree.Obj? && path[0] in tree.fields then Lookup(tree.fields[path[0]], path[1..])
    else None
  }

  /** On the way the baseline has a value that is neither a dictionary nor empty, so nothing below it counts. */
  predicate Blocked(baseline: Json, path: seq<string>)
    decreases |path|
  {
    && path != []
    && if baseline.Obj? then path[0] in baseline.fields && Blocked(baseline.fields[path[0]], path[1..])
       else !IsEmptyMetadataValue(baseline)
  }

  /** What the merge holds at a path, from what the two trees hold there: both values combined, the baseline
      value where the suggestion has none, and a suggested value where the baseline leaves room for it. */
  lemma {:induction false} MergeAtPath(baseline: Json, ai: Json, path: seq<string>)
    ensures Lookup(Combined(baseline, ai), path) ==
              match Lookup(baseline, path)
              case Some(x) => (match Lookup(ai, path) case Some(y) => Some(Combined(x, y)) case None => Some(x))
              case None => if Blocked(baseline, path) then None else Lookup(ai, path)
    decreases |path|
  {
    hide MergedLists;
    if path != [] && baseline.Obj? && ai.Obj? && path[0] in baseline.fields && path[0] in ai.fields {
      MergeAtPath(baseline.fields[path[0]], ai.fields[path[0]], path[1..]);
    } else if path != [] && baseline.Obj? && path[0] in baseline.fields {
      FoundOrBlocked(baseline, path);
    }
  }

  lemma {:induction false} FoundOrBlocked(baseline: Json, path: seq<string>)
    ensures Lookup(baseline, path).Some? ==> !Blocked(baseline, path)
    decreases |path|
  {
    if path != [] && baseline.Obj? && path[0] in baseline.fields {
      FoundOrBlocked(baseline.fields[path[0]], path[1..]);
    }
  }

  /** A baseline value that is not empty survives at every path, unless it is a list and grows. */
  lemma BaselineSurvives(baseline: Json, ai: Json, path: seq<string>)
    requires Lookup(baseline, path).Some?
    ensures var x := Lookup(baseline, path).value;
            && (!x.Obj? && !x.Arr? && !IsEmptyMetadataValue(x) ==> Lookup(Combined(baseline, ai), path) == Some(x))
            && (x.Arr? ==>
                  Lookup(Combined(baseline, ai), path).Some? && Lookup(Combined(baseline, ai), path).value.Arr?)
  {
    hide MergedLists;
    MergeAtPath(baseline, ai, path);
  }

  /** What counts as no value: nothing, an empty text, and the text "unknown". */
  ghost predicate SaysNothing(v: Json) {
    v in {Null, Str(""), Str("unknown")}
  }

  /** Where both trees have a value and not both a dictionary, lists are merged; a baseline that says nothing gives
      way to what is suggested, whatever that is; and any other baseline value stays. */
  lemma ValuesTell(baseline: Json, ai: Json, path: seq<string>)
    requires Lookup(baseline, path).Some? && Lookup(ai, path).Some?
    ensures var x, y := Lookup(baseline, path).value, Lookup(ai, path).value;
            var merged := Lookup(Combined(baseline, ai), path);
            && (SaysNothing(x) ==> merged == Some(y))
            && (x.Arr? && y.Arr? ==> merged == Some(Arr(MergedLists(x.items, y.items))))
            && (!SaysNothing(x) && !(x.Arr? && y.Arr?) && !(x.Obj? && y.Obj?) ==> merged == Some(x))
  {
    hide MergedLists;
    MergeAtPath(baseline, ai, path);
  }

  /** Where only one of the trees has a value, that is what the merge has, except that nothing is put below a
      baseline value that is no dictionary and says something. */
  lemma OneSideTells(baseline: Json, ai: Json, path: seq<string>, n: nat)
    ensures Lookup(baseline, path).Some? && Lookup(ai, path).None? ==>
              Lookup(Combined(baseline, ai), path) == Lookup(baseline, path)
    ensures Lookup(baseline, path).None? && n < |path| && Lookup(baseline, path[..n]).Some?
            && !Lookup(baseline, path[..n]).value.Obj? ==>
              Lookup(Combined(baseline, ai), path) ==
                if SaysNothing(Lookup(baseline, path[..n]).value) then Lookup(ai, path) else None
    ensures Lookup(baseline, path).None? && n < |path| && Lookup(baseline, path[..n]).Some?
            && Lookup(baseline, path[..n]).value.Obj? && path[n] !in Lookup(baseline, path[..n]).value.fields ==>
              Lookup(Combined(baseline, ai), path) == Lookup(ai, path)
  {
    hide MergedLists, Combined;
    MergeAtPath(baseline, ai, path);
    if n < |path| && Lookup(baseline, path[..n]).Some? {
      BlockedAt(baseline, path, n);
    }
  }

  lemma {:induction false} BlockedAt(baseline: Json, path: seq<string>, n: nat)
    requires n < |path| && Lookup(baseline, path[..n]).Some?
    ensures var v := Lookup(baseline, path[..n]).value;
            && (!v.Obj? ==> (Blocked(baseline, path) <==> !SaysNothing(v)))
            && (v.Obj? && path[n] !in v.fields ==> !Blocked(baseline, path))
    decreases n
  {
    if n == 0 {
      assert path[..0] == [];
    } else {
      assert path[..n][1..] == path[1..][..n - 1];
      BlockedAt(baseline.fields[path[0]], path[1..], n - 1);
    }
  }

  /** Merged lists keep the order of first occurrence. */
  lemma {:induction false} UniqueInOrder(items: seq<Json>, kept: Json -> bool, a: nat, b: nat) returns (i: nat)
    requires a < b < |Unique(items, kept)|
    ensures i < |items| && items[i] == Unique(items, kept)[a]
    ensures forall j :: 0 <= j <= i ==> items[j] != Unique(items, kept)[b]
    decreases |items|
  {
    var init, last := items[..|items| - 1], items[|items| - 1];
    if b < |Unique(init, kept)| {
      i := UniqueInOrder(init, kept, a, b);
    } else {
      UniqueHolds(init, kept);
      var v := Unique(items, kept)[a];
      assert v == Unique(init, kept)[a] && v in Unique(init, kept);
      i :| 0 <= i < |init| && init[i] == v;
      forall j | 0 <= j <= i
        ensures items[j] != Unique(items, kept)[b]
      {
        assert init[j] in init;
      }
    }
  }

  /** Where both have a dictionary, the merge has the keys of both. */
  lemma KeysOfBoth(baseline: Json, ai: Json, path: seq<string>)
    requires Lookup(baseline, path).Some? && Lookup(baseline, path).value.Obj?
    requires Lookup(ai, path).Some? && Lookup(ai, path).value.Obj?
    ensures var merged := Lookup(Combined(baseline, ai), path);
            && merged.Some? && merged.value.Obj?
            && merged.value.fields.Keys == Lookup(baseline, path).value.fields.Keys + Lookup(ai, path).value.fields.Keys
  {
    hide MergedLists;
    MergeAtPath(baseline, ai, path);
  }

  // ----- merging again

  /** No list that a path of dictionaries leads to has duplicates, or empty strings among strings. */
  ghost predicate Clean(v: Json)
    decreases v
  {
    match v
    case Arr(items) => CleanList(items)
    case Obj(fields) => forall k :: k in fields ==> Clean(fields[k])
    case _ => true
  }

  lemma {:induction false} SelfMerge(v: Json)
    ensures Combined(v, v) == v <==> Clean(v)
    decreases v
  {
    hide MergedLists, CleanList;
    match v
    case Arr(items) => CleanListsOnly(items);
    case Obj(fields) =>
      forall k | k in fields
        ensures Combined(fields[k], fields[k]) == fields[k] <==> Clean(fields[k])
      {
        SelfMerge(fields[k]);
      }
      var merged := Combined(v, v);
      assert merged.fields.Keys == fields.Keys;
      if Clean(v) {
        assert forall k :: k in fields ==> merged.fields[k] == fields[k];
      } else {
        var k :| k in fields && !Clean(fields[k]);
        assert merged.fields[k] != fields[k];
      }
    case _ =>
  }

  lemma {:induction false} MergeTwice(baseline: Json, ai: Json)
    requires Clean(ai)
    ensures Combined(Combined(baseline, ai), ai) == Combined(baseline, ai)
    decreases ai
  {
    hide MergedLists, CleanList;
    if baseline.Obj? && ai.Obj? {
      var once := Combined(baseline, ai);
      var twice := Combined(once, ai);
      forall k | k in once.fields
        ensures twice.fields[k] == once.fields[k]
      {
        if k in ai.fields {
          if k in baseline.fields {
            MergeTwice(baseline.fields[k], ai.fields[k]);
          } else {
            SelfMerge(ai.fields[k]);
          }
        }
      }
      assert twice.fields.Keys == once.fields.Keys;
    } else if baseline.Arr? && ai.Arr? {
      MergeListTwice(baseline.items, ai.items);
    } else if IsEmptyMetadataValue(baseline) {
      SelfMerge(ai);
    }
  }

  /** Merging the same suggestion again never changes anything, whatever the baseline, exactly when the
      suggestion is clean. */
  lemma MergingAgainChangesNothing(ai: Json)
    requires ai.Obj?
    ensures (forall baseline: Json :: baseline.Obj? ==>
             Combined(Combined(baseline, ai), ai) == Combined(baseline, ai)) <==> Clean(ai)
  {
    hide Clean;
    if Clean(ai) {
      forall baseline: Json | baseline.Obj?
        ensures Combined(Combined(baseline, ai), ai) == Combined(baseline, ai)
      {
        MergeTwice(baseline, ai);
      }
    } else {
      var nothing := Obj(map[]);
      assert Combined(nothing, ai).fields == ai.fields;
      SelfMerge(ai);
      assert Combined(Combined(nothing, ai), ai) != Combined(nothing, ai);
    }
  }

  // ----- the loops

  method MergeUniqueStrings(first: seq<Json>, second: seq<Json>) returns (merged: seq<Json>)
    ensures merged == Unique(first + second, NonEmptyString)
  {
    var all := first + second;
    merged := [];
    for i := 0 to |all|
      invariant merged == Unique(all[..i], NonEmptyString)
    {
      assert all[..i + 1][..i] == all[..i];
      if all[i].Str? && all[i].s != "" && all[i] !in merged {
        merged := merged + [all[i]];
      }
    }
    assert all[..|all|] == all;
  }

  method MergeLists(first: seq<Json>, second: seq<Json>) returns (merged: seq<Json>)
    ensures merged == MergedLists(first, second)
  {
    var all := first + second;
    if forall i :: 0 <= i < |all| ==> all[i].Str? {
      merged := MergeUniqueStrings(first, second);
      return;
    }
    merged := [];
    var seen: set<Json> := {};
    for i := 0 to |all|
      invariant merged == Unique(all[..i], Anything)
      invariant forall v :: v in seen <==> v in merged
    {
      assert all[..i + 1][..i] == all[..i];
      if all[i] in seen {
        continue;
      }
      seen := seen + {all[i]};
      merged := merged + [all[i]];
    }
    assert all[..|all|] == all;
  }

  /** The value a key of the suggestion gets. */
  function MergedValue(first: map<string, Json>, second: Json, key: string): Json
    requires second.Obj? && key in second.fields
  {
    if key in first then Combined(first[key], second.fields[key]) else second.fields[key]
  }

  /** The merge of some keys. */
  function PartlyMerged(first: map<string, Json>, second: Json, done: set<string>): map<string, Json>
    requires second.Obj? && done <= second.fields.Keys
  {
    map k | k in first.Keys + done :: if k in done then MergedValue(first, second, k) else first[k]
  }

  lemma NothingMerged(first: map<string, Json>, second: Json)
    requires second.Obj?
    ensures PartlyMerged(first, second, {}) == first
  {
  }

  lemma OneMoreMerged(first: map<string, Json>, second: Json, done: set<string>, key: string)
    requires second.Obj? && done <= second.fields.Keys && key in second.fields && key !in done
    ensures PartlyMerged(first, second, done + {key}) ==
              PartlyMerged(first, second, done)[key := MergedValue(first, second, key)]
    ensures key in first <==> key in PartlyMerged(first, second, done)
    ensures key in first ==> PartlyMerged(first, second, done)[key] == first[key]
  {
    hide Combined, MergedValue;
  }

  lemma AllMerged(first: map<string, Json>, second: Json)
    requires second.Obj?
    ensures Obj(PartlyMerged(first, second, second.fields.Keys)) == Combined(Obj(first), second)
  {
    hide MergedLists;
    assert PartlyMerged(first, second, second.fields.Keys) == Combined(Obj(first), second).fields;
  }

  method DeepMergeDicts(first: map<string, Json>, second: Json) returns (merged: map<string, Json>)
    requires second.Obj?
    ensures Obj(merged) == Combined(Obj(first), second)
    decreases second
  {
    hide MergedLists, PartlyMerged;
    merged := first;
    var left := second.fields.Keys;
    NothingMerged(first, second);
    assert second.fields.Keys - left == {};
    while left != {}
      invariant left <= second.fields.Keys
      invariant merged == PartlyMerged(first, second, second.fields.Keys - left)
      decreases |left|
    {
      var key :| key in left;
      OneMoreMerged(first, second, second.fields.Keys - left, key);
      assert second.fields.Keys - (left - {key}) == (second.fields.Keys - left) + {key};
      left := left - {key};
      var value := second.fields[key];
      if key in merged && merged[key].Obj? && value.Obj? {
        var inner := DeepMergeDicts(merged[key].fields, value);
        merged := merged[key := Obj(inner)];
      } else if key in merged && merged[key].Arr? && value.Arr? {
        var items := MergeLists(merged[key].items, value.items);
        merged := merged[key := Arr(items)];
      } else if key !in merged || IsEmptyMetadataValue(merged[key]) {
        merged := merged[key := value];
      } else {
        Unchanged(merged, key);
      }
    }
    AllMerged(first, second);
    assert second.fields.Keys - left == second.fields.Keys;
  }

  lemma Unchanged<K, V>(m: map<K, V>, k: K)
    requires k in m
    ensures m[k := m[k]] == m
  {
  }
}
