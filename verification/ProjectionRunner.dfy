/**
 The graph projection of one document as the runner performs it. The main transaction works on a view of
 the records; markers are committed to the durable records at once. How a delete ends is decided outside:
 where the process dies, and what each store answers.
 */
module ProjectionRunner {
  import opened Wrappers
  import opened Sequences
  import opened CleanupSaga
  import opened ProjectionRuns

  datatype Outcome = Returned(status: Status) | Raised | Died

  /** What a write reports. */
  datatype Report = Report(status: Status, nodes: nat, edges: nat)

  function ReportOf(r: Record): Report {
    Report(r.status, r.nodes, r.edges)
  }

  // ----- what a write reports, told by the fields of the record

  /** The record that was enqueued last among those that wait. */
  ghost predicate IsLastPending(records: seq<Record>, i: int) {
    && 0 <= i < |records| && records[i].status == Pending
    && forall j :: i < j < |records| ==> records[j].status != Pending
  }

  ghost predicate Reported(profiles: Profiles, r: Record, write: Write, report: Report) {
    report.status != Pending && EndsAs(profiles, r, write, report.status, report.nodes, report.edges)
  }

  /** The record carries what was reported, and waits no more. */
  ghost predicate IsWritten(r: Record, report: Report, records: seq<Record>) {
    exists w :: w in records && w.id == r.id && w.cleanup == r.cleanup
                && w.status == report.status && w.nodes == report.nodes && w.edges == report.edges
  }

  lemma PendingInOrder(records: seq<Record>, i: nat)
    requires LastPending(records) == Some(i)
    ensures IsLastPending(records, i)
  {
  }

  lemma WrittenIsThere(records: seq<Record>, i: nat, w: Record, after: seq<Record>)
    requires i < |records| && w.id == records[i].id && w.cleanup == records[i].cleanup
    requires after == records[i := w] || after == Filter(records[i := w], KeptTest(w))
    ensures IsWritten(records[i], ReportOf(w), after)
  {
    SwapMembers(records, i, w);
    FilterMembers(records[i := w], KeptTest(w), w);
    assert w in after;
  }

  // ----- groups by record id

  function MarkedIds(r: Record, ids: set<nat>, k: Key, c: Cleanup): Record {
    if r.id in ids then r.(workspace := k.workspace, uri := k.uri, username := k.username, cleanup := c) else r
  }

  /** UPDATE … WHERE id IN ids */
  function MarkIds(records: seq<Record>, ids: set<nat>, k: Key, c: Cleanup): (marked: seq<Record>)
    ensures |marked| == |records|
    ensures forall i :: 0 <= i < |records| ==> marked[i] == MarkedIds(records[i], ids, k, c)
  {
    seq(|records|, i requires 0 <= i < |records| => MarkedIds(records[i], ids, k, c))
  }

  /** The ids listed for a key are those of the records of its group. */
  ghost predicate IdsMatch(profiles: Profiles, records: seq<Record>, targets: map<Key, set<nat>>) {
    forall r, k :: r in records && k in targets ==> (r.id in targets[k] <==> EffectiveKey(profiles, r) == k)
  }

  lemma MarkIdsIsMark(profiles: Profiles, records: seq<Record>, targets: map<Key, set<nat>>, k: Key, c: Cleanup)
    requires IdsMatch(profiles, records, targets) && k in targets
    ensures MarkIds(records, targets[k], k, c) == Mark(profiles, records, k, c)
  {
    hide EffectiveKey;
    forall i | 0 <= i < |records|
      ensures MarkedIds(records[i], targets[k], k, c) == Marked(profiles, records[i], k, c)
    {
      assert records[i] in records;
    }
  }

  /** The same records, apart from what markers write. */
  ghost predicate SameIdentities(profiles: Profiles, a: seq<Record>, b: seq<Record>) {
    && |a| == |b|
    && forall i :: 0 <= i < |a| ==>
         && a[i].id == b[i].id && a[i].profile == b[i].profile
         && EffectiveKey(profiles, a[i]) == EffectiveKey(profiles, b[i])
  }

  lemma MarkKeepsIdentities(profiles: Profiles, records: seq<Record>, k: Key, c: Cleanup)
    ensures SameIdentities(profiles, records, Mark(profiles, records, k, c))
  {
    hide EffectiveKey;
    forall i | 0 <= i < |records|
      ensures EffectiveKey(profiles, Marked(profiles, records[i], k, c)) == EffectiveKey(profiles, records[i])
    {
      MarkersKeepGroups(profiles, records[i], k, c);
    }
  }

  lemma {:induction false} RemarkedKeepsIdentities(profiles: Profiles, records: seq<Record>, keys: seq<Key>, n: nat)
    requires n <= |keys|
    ensures SameIdentities(profiles, records, Remarked(profiles, records, keys, n))
    decreases n
  {
    hide EffectiveKey, IsCleaned, AllCleaned;
    if n > 0 {
      RemarkedKeepsIdentities(profiles, records, keys, n - 1);
      MarkKeepsIdentities(profiles, Remarked(profiles, records, keys, n - 1), keys[n - 1], Cleaned);
    }
  }

  lemma {:induction false} ProgressKeepsIdentities(profiles: Profiles, s: Saga, keys: seq<Key>, n: nat)
    requires n <= |keys|
    ensures SameIdentities(profiles, s.records, Progress(profiles, s, keys, n).records)
    decreases n
  {
    hide EffectiveKey;
    if n > 0 {
      ProgressKeepsIdentities(profiles, s, keys, n - 1);
      MarkKeepsIdentities(profiles, Progress(profiles, s, keys, n - 1).records, keys[n - 1], Cleaned);
    }
  }

  lemma IdentitiesMatch(profiles: Profiles, a: seq<Record>, b: seq<Record>, targets: map<Key, set<nat>>)
    requires SameIdentities(profiles, a, b) && IdsMatch(profiles, a, targets)
    ensures IdsMatch(profiles, b, targets)
  {
    hide EffectiveKey;
    forall r, k | r in b && k in targets
      ensures r.id in targets[k] <==> EffectiveKey(profiles, r) == k
    {
      var i :| 0 <= i < |b| && b[i] == r;
      assert a[i] in a;
    }
  }

  lemma {:induction false} IdentitiesGroup(profiles: Profiles, a: seq<Record>, b: seq<Record>)
    requires SameIdentities(profiles, a, b)
    ensures GroupKeys(profiles, a) == GroupKeys(profiles, b)
    decreases |a|
  {
    hide EffectiveKey;
    if a != [] {
      IdentitiesGroup(profiles, a[..|a| - 1], b[..|b| - 1]);
    }
  }

  lemma IdentitiesTarget(profiles: Profiles, a: seq<Record>, b: seq<Record>, k: Key)
    requires SameIdentities(profiles, a, b) && NoTarget(profiles, a, k)
    ensures NoTarget(profiles, b, k)
  {
    hide EffectiveKey;
    forall r | r in b && EffectiveKey(profiles, r) == k
      ensures r.profile !in profiles
    {
      var i :| 0 <= i < |b| && b[i] == r;
      assert a[i] in a;
    }
  }

  /** The second marker of a group overwrites the first. */
  lemma MarkTwice(profiles: Profiles, records: seq<Record>, k: Key, c: Cleanup, d: Cleanup)
    ensures Mark(profiles, Mark(profiles, records, k, c), k, d) == Mark(profiles, records, k, d)
  {
    hide EffectiveKey;
    forall i | 0 <= i < |records|
      ensures Marked(profiles, Marked(profiles, records[i], k, c), k, d) == Marked(profiles, records[i], k, d)
    {
      MarkersKeepGroups(profiles, records[i], k, c);
    }
  }

  // ----- the record that stands for a group

  predicate HasAuth(r: Record) {
    HasTarget(StoredKey(r)) && (r.username.None? || r.password.Some?)
  }

  /** Records with a profile first, then records with their own login. */
  predicate Preferred(profiles: Profiles, a: Record, b: Record) {
    if (a.profile in profiles) != (b.profile in profiles) then a.profile in profiles
    else HasAuth(a) && !HasAuth(b)
  }

  function Representative(profiles: Profiles, group: seq<Record>): Record
    requires group != []
  {
    if |group| == 1 then group[0]
    else
      var best, last := Representative(profiles, group[..|group| - 1]), group[|group| - 1];
      if Preferred(profiles, last, best) then last else best
  }

  /** A group is represented by a record whose profile is alive, when it has one. */
  lemma {:induction false} RepresentativeIsLive(profiles: Profiles, group: seq<Record>)
    requires group != []
    ensures Representative(profiles, group) in group
    ensures Representative(profiles, group).profile in profiles <==> exists r :: r in group && r.profile in profiles
    decreases |group|
  {
    hide HasAuth;
    if |group| > 1 {
      var init, last := group[..|group| - 1], group[|group| - 1];
      RepresentativeIsLive(profiles, init);
      assert group == init + [last];
    }
  }

  /** The record can be used for its store as it is: it names its target, and its password when it has a
      user. */
  ghost predicate CarriesLogin(r: Record) {
    && r.workspace.Some? && r.workspace.value != "" && r.uri.Some? && r.uri.value != ""
    && (r.username.Some? ==> r.password.Some?)
  }

  /** Rank of a record: with a profile before without, then with a login before without. */
  ghost function RankOf(profiles: Profiles, r: Record): nat {
    (if r.profile in profiles then 0 else 2) + (if CarriesLogin(r) then 0 else 1)
  }

  /** The representative is the first of the records of least rank. */
  lemma {:induction false} RepresentativeIsFirst(profiles: Profiles, group: seq<Record>) returns (i: nat)
    requires group != []
    ensures i < |group| && Representative(profiles, group) == group[i]
    ensures forall j :: 0 <= j < |group| ==> RankOf(profiles, group[i]) <= RankOf(profiles, group[j])
    ensures forall j :: 0 <= j < i ==> RankOf(profiles, group[i]) < RankOf(profiles, group[j])
    decreases |group|
  {
    if |group| == 1 {
      i := 0;
    } else {
      var init, last := group[..|group| - 1], group[|group| - 1];
      i := RepresentativeIsFirst(profiles, init);
      PreferredByRank(profiles, last, group[i]);
      assert forall j :: 0 <= j < |init| ==> init[j] == group[j];
      if Preferred(profiles, last, group[i]) {
        i := |group| - 1;
      }
    }
  }

  lemma PreferredByRank(profiles: Profiles, a: Record, b: Record)
    ensures Preferred(profiles, a, b) <==> RankOf(profiles, a) < RankOf(profiles, b)
  {
  }

  /** How a delete ends at a group that it does not get through. */
  function Failure(profiles: Profiles, records: seq<Record>, k: Key, fate: Fate): Outcome {
    if NoTarget(profiles, records, k) then Raised
    else match Actual(k, fate) case StoreFails(_, marked) => (if marked then Raised else Died) case _ => Died
  }

  function IdTest(ids: set<nat>): Record -> bool {
    (r: Record) => r.id in ids
  }

  lemma GroupById(profiles: Profiles, records: seq<Record>, targets: map<Key, set<nat>>, k: Key)
    requires IdsMatch(profiles, records, targets) && k in targets && IsOpen(profiles, records, k)
    ensures var group := Filter(records, IdTest(targets[k]));
            && group != []
            && EffectiveKey(profiles, Representative(profiles, group)) == k
            && (Representative(profiles, group).profile !in profiles && !HasTarget(k) <==>
                NoTarget(profiles, records, k))
  {
    hide EffectiveKey, HasTarget;
    var group := Filter(records, IdTest(targets[k]));
    forall r
      ensures r in group <==> r in records && EffectiveKey(profiles, r) == k
    {
      FilterMembers(records, IdTest(targets[k]), r);
    }
    var r :| r in records && EffectiveKey(profiles, r) == k;
    assert r in group;
    RepresentativeIsLive(profiles, group);
  }

  lemma GroupOneMore(profiles: Profiles, records: seq<Record>, i: nat, keys: seq<Key>, targets: map<Key, set<nat>>)
    requires i < |records| && UniqueIds(records)
    requires keys == GroupKeys(profiles, records[..i]) && Grouped(profiles, records[..i], keys, targets)
    ensures var k := EffectiveKey(profiles, records[i]);
            var more := if k in targets then keys else keys + [k];
            && more == GroupKeys(profiles, records[..i + 1])
            && Grouped(profiles, records[..i + 1], more,
                       targets[k := (if k in targets then targets[k] else {}) + {records[i].id}])
  {
    hide EffectiveKey, IdsMatch, IdsComeFrom;
    assert records[..i + 1][..i] == records[..i];
    IdsOneMore(profiles, records, i, keys, targets);
  }

  lemma IdsOneMore(profiles: Profiles, records: seq<Record>, i: nat, keys: seq<Key>, targets: map<Key, set<nat>>)
    requires i < |records| && UniqueIds(records)
    requires keys == GroupKeys(profiles, records[..i]) && Grouped(profiles, records[..i], keys, targets)
    ensures var k := EffectiveKey(profiles, records[i]);
            var more := targets[k := (if k in targets then targets[k] else {}) + {records[i].id}];
            IdsMatch(profiles, records[..i + 1], more) && IdsComeFrom(records[..i + 1], more)
  {
    hide EffectiveKey, GroupKeys;
    var init, last := records[..i], records[i];
    var k := EffectiveKey(profiles, last);
    var more := targets[k := (if k in targets then targets[k] else {}) + {last.id}];
    assert records[..i + 1] == init + [last];
    GroupKeysAreAll(profiles, init);
    forall r | r in init
      ensures r.id != last.id
    {
      var j :| 0 <= j < i && records[j] == r;
    }
    hide UniqueIds;
    forall other, id | other in more && id in more[other]
      ensures exists r :: r in records[..i + 1] && r.id == id
    {
      if id == last.id {
        assert last in records[..i + 1];
      } else {
        var r :| r in init && r.id == id;
        assert r in records[..i + 1];
      }
    }
  }

  ghost predicate IdsComeFrom(records: seq<Record>, targets: map<Key, set<nat>>) {
    forall k, id :: k in targets && id in targets[k] ==> exists r :: r in records && r.id == id
  }

  /** The groups of some records: their keys, and the ids of exactly their records. */
  ghost predicate Grouped(profiles: Profiles, records: seq<Record>, keys: seq<Key>, targets: map<Key, set<nat>>) {
    && (forall k :: k in targets <==> k in keys)
    && IdsMatch(profiles, records, targets)
    && IdsComeFrom(records, targets)
  }

  lemma NothingGrouped(profiles: Profiles)
    ensures GroupKeys(profiles, []) == [] && Grouped(profiles, [], [], map[])
  {
  }

  lemma AnyById(profiles: Profiles, records: seq<Record>, targets: map<Key, set<nat>>, k: Key)
    requires IdsMatch(profiles, records, targets) && k in targets
    ensures (exists r :: r in records && r.id in targets[k] && r.cleanup.Cleaned?) <==> IsCleaned(profiles, records, k)
    ensures (exists r :: r in records && r.id in targets[k] && !r.cleanup.Cleaned?) <==>
              !AllCleaned(profiles, records, k)
    ensures !IsCleaned(profiles, records, k) ==>
              ((exists r :: r in records && r.id in targets[k] && NeedsCleanup(r)) <==> IsOpen(profiles, records, k))
  {
    hide EffectiveKey, NeedsCleanup;
  }

  class GraphProjectionRunner {
    const profiles: Profiles
    var durable: seq<Record>
    var view: seq<Record>
    var store: set<Stored>

    /** Nothing is written yet, and no record exists. */
    constructor (profiles: Profiles)
      ensures this.profiles == profiles && view == durable == [] && store == {}
    {
      this.profiles := profiles;
      durable, view, store := [], [], {};
    }

    function Committed(): Saga
      reads this`durable, this`store
    {
      Saga(durable, store)
    }

    method Commit()
      modifies this`durable
      ensures durable == view
    {
      durable := view;
    }

    method Rollback()
      modifies this`view
      ensures view == durable
    {
      view := durable;
    }

    /** Writes a marker into the records of the session, and commits it in a transaction of its own. */
    method PersistMarker(ids: set<nat>, k: Key, c: Cleanup)
      modifies this`view, this`durable
      ensures view == MarkIds(old(view), ids, k, c)
      ensures durable == MarkIds(old(durable), ids, k, c)
      ensures |durable| == |old(durable)| && forall i :: 0 <= i < |durable| ==>
                if old(durable)[i].id in ids
                then durable[i] == old(durable)[i].(workspace := k.workspace, uri := k.uri, username := k.username,
                                                    cleanup := c)
                else durable[i] == old(durable)[i]
    {
      for i := 0 to |view|
        invariant |view| == |old(view)| && durable == old(durable)
        invariant forall j :: 0 <= j < i ==> view[j] == MarkedIds(old(view)[j], ids, k, c)
        invariant forall j :: i <= j < |view| ==> view[j] == old(view)[j]
      {
        if view[i].id in ids {
          view := view[i := view[i].(workspace := k.workspace, uri := k.uri, username := k.username, cleanup := c)];
        }
      }
      durable := MarkIds(durable, ids, k, c);
    }

    /** Groups the records of the document by their effective key. */
    method GroupRecords() returns (keys: seq<Key>, targets: map<Key, set<nat>>)
      requires UniqueIds(view)
      ensures keys == GroupKeys(profiles, view)
      ensures Grouped(profiles, view, keys, targets)
    {
      hide EffectiveKey, Grouped, GroupKeys, UniqueIds;
      keys, targets := [], map[];
      NothingGrouped(profiles);
      for i := 0 to |view|
        invariant keys == GroupKeys(profiles, view[..i])
        invariant Grouped(profiles, view[..i], keys, targets)
      {
        var k := EffectiveKey(profiles, view[i]);
        GroupOneMore(profiles, view, i, keys, targets);
        keys, targets := if k in targets then keys else keys + [k],
                         targets[k := (if k in targets then targets[k] else {}) + {view[i].id}];
      }
      assert view[..|view|] == view;
    }

    /** The answer of the materialization service to a delete. */
    method DeleteGraph(workspace: Option<string>, uri: Option<string>, fate: Fate) returns (succeeded: bool, nodes: nat)
      requires Given(workspace) || !Given(uri)
      requires !fate.DiesFirst? && !fate.DiesRunning?
      modifies this`store
      ensures succeeded <==> Given(uri) && !fate.StoreFails?
      ensures store == if Given(uri) && (fate.StoreFails? ==> fate.gone)
                       then Without(old(store), Target(workspace.value, uri.value)) else old(store)
      ensures succeeded ==> nodes == |old(store)| - |store|
    {
      succeeded, nodes := false, 0;
      if Given(uri) && (fate.StoreFails? ==> fate.gone) {
        var rest := Without(store, Target(workspace.value, uri.value));
        if !fate.StoreFails? {
          succeeded, nodes := true, |store| - |rest|;
        }
        store := rest;
      }
    }

    /** In the groups that are cleaned already, marks the records that are not marked so. */
    method RemarkCleaned(keys: seq<Key>, targets: map<Key, set<nat>>, diesAfter: Option<nat>)
      returns (died: bool, anyCleaned: bool)
      requires view == durable && keys == GroupKeys(profiles, view) && Grouped(profiles, view, keys, targets)
      modifies this`view, this`durable
      ensures view == durable == Remarked(profiles, old(view), keys, Remarks(profiles, old(Committed()), diesAfter))
      ensures died <==> DiesRemarking(profiles, old(Committed()), diesAfter)
      ensures !died ==> (anyCleaned <==> exists k :: k in keys && IsCleaned(profiles, old(view), k))
    {
      hide EffectiveKey, IsCleaned, AllCleaned, GroupKeys, IdsMatch, MarkIds, Remarked, SameGroups;
      died, anyCleaned := false, false;
      NothingRemarked(profiles, view, keys);
      for i := 0 to |keys|
        invariant view == durable == Remarked(profiles, old(view), keys, i)
        invariant diesAfter.Some? ==> i <= diesAfter.value
        invariant anyCleaned <==> exists j :: 0 <= j < i && IsCleaned(profiles, old(view), keys[j])
      {
        if diesAfter == Some(i) {
          died := true;
          return;
        }
        RemarkStep(profiles, old(view), keys, targets, i);
        if exists r :: r in view && r.id in targets[keys[i]] && r.cleanup.Cleaned? {
          anyCleaned := true;
          if exists r :: r in view && r.id in targets[keys[i]] && !r.cleanup.Cleaned? {
            PersistMarker(targets[keys[i]], keys[i], Cleaned);
          }
        }
      }
    }

    /** The groups no record of which is marked cleaned, and some record of which needs it. */
    method GroupsToClean(keys: seq<Key>, targets: map<Key, set<nat>>) returns (open: seq<Key>)
      requires IdsMatch(profiles, view, targets) && forall i :: 0 <= i < |keys| ==> keys[i] in targets
      ensures open == Filter(keys, OpenTest(profiles, view))
    {
      hide EffectiveKey, IsCleaned, IsOpen, NeedsCleanup, IdsMatch;
      open := [];
      for i := 0 to |keys|
        invariant open == Filter(keys[..i], OpenTest(profiles, view))
      {
        var k := keys[i];
        AnyById(profiles, view, targets, k);
        OpenNotCleaned(profiles, view, k);
        assert keys[..i + 1] == keys[..i] + [k];
        FilterSnoc(keys[..i], k, OpenTest(profiles, view));
        if !(exists r :: r in view && r.id in targets[k] && r.cleanup.Cleaned?)
           && (exists r :: r in view && r.id in targets[k] && NeedsCleanup(r))
        {
          open := open + [k];
        }
      }
      assert keys[..|keys|] == keys;
    }

    /** Cleans one group: marks it running, calls its store, and marks it failed or cleaned. */
    method CleanGroup(k: Key, targets: map<Key, set<nat>>, fate: Fate)
      returns (outcome: Option<Outcome>, nodes: nat, called: bool)
      requires view == durable && IdsMatch(profiles, view, targets) && k in targets && IsOpen(profiles, view, k)
      requires Named(profiles)
      modifies this`view, this`durable, this`store
      ensures view == durable
      ensures Committed() == if NoTarget(profiles, old(view), k) then old(Committed())
                             else AfterGroup(profiles, old(Committed()), k, Actual(k, fate))
      ensures outcome.None? <==> !NoTarget(profiles, old(view), k) && Actual(k, fate).Deleted?
      ensures outcome.Some? ==> outcome.value == Failure(profiles, old(view), k, fate)
      ensures outcome.None? ==> nodes == |old(store)| - |store|
      ensures called <==> !NoTarget(profiles, old(view), k) && !fate.DiesFirst? && !fate.DiesRunning?
    {
      hide EffectiveKey, IsOpen, IsCleaned, NeedsCleanup, Mark, MarkIds, NoTarget, IdsMatch, Representative;
      nodes, called := 0, false;
      var group := Filter(view, IdTest(targets[k]));
      GroupById(profiles, view, targets, k);
      var representative := Representative(profiles, group);
      if representative.profile !in profiles && !HasTarget(k) {
        return Some(Raised), 0, false;
      }
      OpenNames(profiles, representative, k);
      if fate.DiesFirst? {
        return Some(Died), 0, false;
      }
      MarkIdsIsMark(profiles, view, targets, k, Running);
      PersistMarker(targets[k], k, Running);
      if fate.DiesRunning? {
        return Some(Died), 0, false;
      }
      // the marker has written the key into the representative
      var uri := if representative.profile in profiles then Or(k.uri, profiles[representative.profile].uri) else k.uri;
      var succeeded, removed := DeleteGraph(k.workspace, uri, fate);
      called := true;
      if !succeeded {
        if fate.DiesAfterDelete? || (fate.StoreFails? && !fate.marked) {
          return Some(Died), 0, true;
        }
        MarkAgain(profiles, old(view), view, targets, k, CleanupFailed);
        PersistMarker(targets[k], k, CleanupFailed);
        return Some(Raised), 0, true;
      }
      if fate.DiesAfterDelete? {
        return Some(Died), 0, true;
      }
      MarkAgain(profiles, old(view), view, targets, k, Cleaned);
      PersistMarker(targets[k], k, Cleaned);
      return None, removed, true;
    }

    /** Cleans the groups one after the other, until one cannot be cleaned. */
    method CleanGroups(open: seq<Key>, targets: map<Key, set<nat>>, fates: seq<Fate>)
      returns (outcome: Option<Outcome>, nodes: nat, sent: seq<Key>)
      requires view == durable && Named(profiles) && IdsMatch(profiles, view, targets)
      requires open == OpenKeys(profiles, view) && forall k :: k in GroupKeys(profiles, view) ==> k in targets
      modifies this`view, this`durable, this`store
      ensures Committed() == Attempted(profiles, old(Committed()), fates)
      ensures outcome.None? <==> Finishes(profiles, old(Committed()), fates)
      ensures outcome.Some? ==> !outcome.value.Returned?
      ensures outcome.None? ==> nodes == |old(store)| - |store|
      ensures sent == Called(profiles, old(Committed()), fates)
    {
      hide EffectiveKey, IsOpen, IsCleaned, NeedsCleanup, GroupKeys, IdsMatch, NoTarget, Progress, AfterGroup, Actual,
        Succeeds, OpenKeys;
      nodes, sent := 0, [];
      ghost var s := Committed();
      OpenKeysAreOpen(profiles, s.records);
      NothingDone(profiles, s, open);
      for n := 0 to |open|
        invariant view == durable && Committed() == Progress(profiles, s, open, n)
        invariant forall m :: 0 <= m < n ==> Succeeds(profiles, s.records, open, fates, m)
        invariant nodes == |s.store| - |store| && sent == open[..n]
      {
        BeforeGroup(profiles, s, open, targets, n);
        var ended, removed, called := CleanGroup(open[n], targets, FateAt(fates, n));
        if called {
          sent := sent + [open[n]];
        }
        if ended.Some? {
          StopsHere(profiles, s.records, open, fates, n);
          FailureIsNoReturn(profiles, Progress(profiles, s, open, n).records, open[n], FateAt(fates, n));
          return ended, 0, sent;
        }
        nodes := nodes + removed;
        NextProgress(profiles, s, open, fates, n);
      }
      AllDone(profiles, s.records, open, fates);
      outcome := None;
    }

    /** Deletes the document from every store its records name, and drops the records. What is committed
        is what the state machine says; the records are dropped in the main transaction only. */
    method DeleteDocumentGraph(diesAfter: Option<nat>, fates: seq<Fate>)
      returns (outcome: Outcome, nodes: nat, sent: seq<Key>)
      requires view == durable && UniqueIds(view) && Named(profiles)
      modifies this`view, this`durable, this`store
      ensures Committed() == AfterDelete(profiles, old(Committed()), diesAfter, fates)
      ensures outcome.Returned? <==> Returns(profiles, old(Committed()), diesAfter, fates)
      ensures outcome.Returned? ==> view == [] && nodes == |old(store)| - |store|
      ensures outcome.Returned? ==>
                (outcome.status == Succeeded
                 <==> exists k :: IsOpen(profiles, old(view), k) || IsCleaned(profiles, old(view), k))
      ensures outcome.Returned? ==> outcome.status == Succeeded || outcome.status == Skipped
      ensures sent == Sent(profiles, old(Committed()), diesAfter, fates)
    {
      hide EffectiveKey, IsOpen, IsCleaned, NeedsCleanup, GroupKeys, IdsMatch, NoTarget, Remarked, Progress, AllCleaned,
        SameGroups, UniqueIds, Attempted, Finishes, Called, OpenKeys;
      ghost var start := view;
      var keys, targets := GroupRecords();
      var died, anyCleaned := RemarkCleaned(keys, targets, diesAfter);
      CleanedInKeys(profiles, start);
      if died {
        return Died, 0, [];
      }
      AfterRemarking(profiles, start, keys, targets, view);
      var open := GroupsToClean(keys, targets);
      FilteredAreOpen(profiles, view, keys, open);
      OpenAfterRemarks(profiles, start, view, open);
      var ended: Option<Outcome>;
      ended, nodes, sent := CleanGroups(open, targets, fates);
      if ended.Some? {
        return ended.value, 0, sent;
      }
      view := [];
      outcome := Returned(if open == [] && !anyCleaned then Skipped else Succeeded);
    }

    /** Deletes the document; its transaction is committed only when the graph was deleted. A service without
        settings knows no stores and drops the records. */
    method DeleteDocument(configured: bool, diesAfter: Option<nat>, fates: seq<Fate>, commits: bool)
      returns (outcome: Outcome)
      requires view == durable && UniqueIds(view) && Named(profiles)
      modifies this`view, this`durable, this`store
      ensures view == durable
      ensures Committed() == Step(profiles, old(Committed()),
                                  if configured then Event.Delete(diesAfter, fates, commits) else Drop(commits))
      ensures outcome.Returned? <==> !configured || Returns(profiles, old(Committed()), diesAfter, fates)
      ensures if outcome.Returned? && commits then durable == []
              else |durable| == |old(durable)| && forall i :: 0 <= i < |durable| ==> durable[i].id == old(durable)[i].id
      ensures !configured ==> store == old(store)
    {
      hide AfterDelete, Returns, UniqueIds;
      DeleteKeepsIds(profiles, Committed(), diesAfter, fates);
      if configured {
        var nodes, sent;
        outcome, nodes, sent := DeleteDocumentGraph(diesAfter, fates);
      } else {
        view := [];
        outcome := Returned(Skipped);
      }
      if outcome.Returned? && commits {
        Commit();
      } else {
        Rollback();
      }
    }

    /** Adds a record that waits to be written. */
    method EnqueueProjection(record: Record)
      requires view == durable
      modifies this`view, this`durable
      ensures view == durable
      ensures Committed() == Step(profiles, old(Committed()), Enqueue(record))
      ensures durable == old(durable) + [record] && store == old(store)
    {
      view := view + [record];
      Commit();
    }

    /** Writes the pending projection and, when that succeeds, drops the records of the same target. The
        transaction with the records is committed afterwards, or lost. */
    method MaterializePending(write: Write, commits: bool) returns (report: Option<Report>)
      requires view == durable && Named(profiles)
      modifies this`view, this`durable, this`store
      ensures view == durable
      ensures Committed() == Step(profiles, old(Committed()), if commits then Materialize(write) else Lose(write))
      ensures report == match Picked(old(view))
                        case None => None
                        case Some(r) => Some(ReportOf(AfterWrite(profiles, r, write)))
      ensures report == None <==> forall r :: r in old(view) ==> r.status != Pending
      ensures report == None ==> Committed() == old(Committed())
      ensures report != None ==>
                exists i :: IsLastPending(old(view), i) && Reported(profiles, old(view)[i], write, report.value)
                            && (commits ==> IsWritten(old(view)[i], report.value, durable))
      ensures !commits ==> durable == old(durable)
    {
      hide EffectiveKey, Filter;
      ghost var start := view;
      var i := LastPending(view);
      if i.None? {
        return None;
      }
      var r := view[i.value];
      var result: Write := write;
      if r.profile !in profiles {
        r, result := Ended(r, Failed, 0, 0), WriteFails;
      } else {
        r := Filled(profiles, r);
        if !Given(r.uri) {
          result := Unreachable;
        }
        match result
        case Unreachable => r := Ended(r, Skipped, 0, 0);
        case WriteFails => r := Ended(r, Failed, 0, 0);
        case Written(nodes, edges) => r := Ended(r, Succeeded, |nodes|, edges);
      }
      view := view[i.value := r];
      if result.Written? {
        store := Without(store, TargetOf(StoredKey(r))) + Holding(TargetOf(StoredKey(r)), result.nodes);
        view := Filter(view, KeptTest(r));
      }
      if commits {
        Commit();
      } else {
        Rollback();
      }
      PendingInOrder(start, i.value);
      WriteEnds(profiles, start[i.value], write);
      if commits {
        WrittenIsThere(start, i.value, r, durable);
      }
      return Some(ReportOf(r));
    }

    /** Sets a record to skipped, if it is still there. */
    method MarkSkipped(id: nat) returns (found: bool)
      requires view == durable
      modifies this`view, this`durable
      ensures view == durable
      ensures Committed() == Step(profiles, old(Committed()), Skip(id))
      ensures found <==> exists r :: r in old(view) && r.id == id
      ensures |durable| == |old(durable)| && store == old(store) && forall i :: 0 <= i < |durable| ==>
                if old(durable)[i].id == id
                then durable[i] == old(durable)[i].(status := Status.Skipped, nodes := 0, edges := 0)
                else durable[i] == old(durable)[i]
    {
      found := exists r :: r in view && r.id == id;
      view := SkippedRecords(view, id);
      Commit();
    }
  }

  lemma DeleteKeepsIds(profiles: Profiles, s: Saga, diesAfter: Option<nat>, fates: seq<Fate>)
    ensures var t := AfterDelete(profiles, s, diesAfter, fates);
            |t.records| == |s.records| && forall i :: 0 <= i < |s.records| ==> t.records[i].id == s.records[i].id
  {
    hide EffectiveKey, Remarked, Progress, OpenKeys, Succeeds, GroupKeys, NoTarget, Actual;
    var keys := GroupKeys(profiles, s.records);
    RemarkedKeepsIdentities(profiles, s.records, keys, Remarks(profiles, s, diesAfter));
    var t := AfterRemarks(profiles, s, diesAfter);
    var open := OpenKeys(profiles, t.records);
    var done := DoneFrom(profiles, t.records, open, fates, 0);
    ProgressKeepsIdentities(profiles, t, open, done);
    var u := Progress(profiles, t, open, done);
    if done < |open| {
      forall i | 0 <= i < |u.records|
        ensures AfterGroup(profiles, u, open[done], Actual(open[done], FateAt(fates, done))).records[i].id ==
                  u.records[i].id
      {
        GroupTells(profiles, u, open[done], Actual(open[done], FateAt(fates, done)), i);
      }
    }
  }

  lemma NothingRemarked(profiles: Profiles, records: seq<Record>, keys: seq<Key>)
    ensures Remarked(profiles, records, keys, 0) == records
  {
  }

  /** What the checks by id see of one group, and what marking it does. */
  lemma RemarkStep(profiles: Profiles, records: seq<Record>, keys: seq<Key>, targets: map<Key, set<nat>>, i: nat)
    requires i < |keys| && Grouped(profiles, records, keys, targets)
    ensures keys[i] in targets
    ensures var before := Remarked(profiles, records, keys, i);
            var any := exists r :: r in before && r.id in targets[keys[i]] && r.cleanup.Cleaned?;
            && (any <==> IsCleaned(profiles, records, keys[i]))
            && Remarked(profiles, records, keys, i + 1) ==
                 if any && (exists r :: r in before && r.id in targets[keys[i]] && !r.cleanup.Cleaned?)
                 then MarkIds(before, targets[keys[i]], keys[i], Cleaned) else before
  {
    hide EffectiveKey, IsCleaned, AllCleaned, IdsMatch, MarkIds, SameIdentities;
    var before := Remarked(profiles, records, keys, i);
    RemarkedKeepsIdentities(profiles, records, keys, i);
    IdentitiesMatch(profiles, records, before, targets);
    AnyById(profiles, before, targets, keys[i]);
    RemarkingKeepsGroups(profiles, records, keys, i);
    MarkIdsIsMark(profiles, before, targets, keys[i], Cleaned);
  }

  lemma OpenNotCleaned(profiles: Profiles, records: seq<Record>, k: Key)
    ensures IsOpen(profiles, records, k) ==> !IsCleaned(profiles, records, k)
  {
  }

  /** Unless the call is refused beforehand, the key of a group names its workspace. */
  lemma OpenNames(profiles: Profiles, r: Record, k: Key)
    requires Named(profiles) && EffectiveKey(profiles, r) == k && (r.profile in profiles || HasTarget(k))
    ensures Given(k.workspace)
    ensures r.profile in profiles ==> Or(k.uri, profiles[r.profile].uri) == k.uri
  {
  }

  lemma MarkAgain(profiles: Profiles, before: seq<Record>, running: seq<Record>, targets: map<Key, set<nat>>, k: Key,
                  c: Cleanup)
    requires IdsMatch(profiles, before, targets) && k in targets && running == Mark(profiles, before, k, Running)
    ensures MarkIds(running, targets[k], k, c) == Mark(profiles, before, k, c)
  {
    hide EffectiveKey, IdsMatch, Mark, MarkIds, SameIdentities;
    MarkKeepsIdentities(profiles, before, k, Running);
    IdentitiesMatch(profiles, before, running, targets);
    MarkIdsIsMark(profiles, running, targets, k, c);
    MarkTwice(profiles, before, k, Running, c);
  }

  lemma CleanedInKeys(profiles: Profiles, records: seq<Record>)
    ensures forall k :: IsCleaned(profiles, records, k) ==> k in GroupKeys(profiles, records)
    ensures forall k :: IsOpen(profiles, records, k) ==> k in GroupKeys(profiles, records)
  {
    hide EffectiveKey, NeedsCleanup;
    GroupKeysAreAll(profiles, records);
  }

  /** Re-marking changes neither the groups nor what is open and what is cleaned. */
  lemma AfterRemarking(profiles: Profiles, records: seq<Record>, keys: seq<Key>, targets: map<Key, set<nat>>,
                       marked: seq<Record>)
    requires keys == GroupKeys(profiles, records) && Grouped(profiles, records, keys, targets)
    requires marked == Remarked(profiles, records, keys, |keys|)
    ensures keys == GroupKeys(profiles, marked) && IdsMatch(profiles, marked, targets)
    ensures forall i :: 0 <= i < |keys| ==> keys[i] in targets
    ensures SameGroups(profiles, records, marked)
  {
    hide EffectiveKey, IdsMatch, SameIdentities, Remarked, IsOpen, IsCleaned;
    RemarkedKeepsIdentities(profiles, records, keys, |keys|);
    IdentitiesGroup(profiles, records, marked);
    IdentitiesMatch(profiles, records, marked, targets);
    RemarkingKeepsGroups(profiles, records, keys, |keys|);
  }

  lemma OpenAfterRemarks(profiles: Profiles, before: seq<Record>, records: seq<Record>, open: seq<Key>)
    requires SameGroups(profiles, before, records) && AreOpenKeys(profiles, records, open)
    ensures open == [] <==> !exists k :: IsOpen(profiles, before, k)
  {
    hide IsOpen, IsCleaned;
    if open != [] {
      assert open[0] in open;
    }
  }

  lemma NothingDone(profiles: Profiles, s: Saga, keys: seq<Key>)
    ensures Progress(profiles, s, keys, 0) == s
  {
  }

  /** Before group number `n`: its ids are known, it is open, and it can be called as it could at the start. */
  lemma BeforeGroup(profiles: Profiles, s: Saga, open: seq<Key>, targets: map<Key, set<nat>>, n: nat)
    requires n < |open| && AreOpenKeys(profiles, s.records, open) && IdsMatch(profiles, s.records, targets)
    requires forall k :: k in GroupKeys(profiles, s.records) ==> k in targets
    ensures IdsMatch(profiles, Progress(profiles, s, open, n).records, targets) && open[n] in targets
    ensures IsOpen(profiles, Progress(profiles, s, open, n).records, open[n])
    ensures NoTarget(profiles, Progress(profiles, s, open, n).records, open[n]) <==>
              NoTarget(profiles, s.records, open[n])
  {
    hide EffectiveKey, IdsMatch, SameIdentities, IsOpen, IsCleaned, NoTarget, Progress, GroupKeys;
    var now := Progress(profiles, s, open, n).records;
    ProgressKeepsIdentities(profiles, s, open, n);
    SameIdentitiesBack(profiles, s.records, now);
    IdentitiesMatch(profiles, s.records, now, targets);
    ProgressDeletes(profiles, s, open, n);
    assert open[n] in open[n..] && open[n] in open;
    CleanedInKeys(profiles, s.records);
    if NoTarget(profiles, now, open[n]) {
      IdentitiesTarget(profiles, now, s.records, open[n]);
    }
    if NoTarget(profiles, s.records, open[n]) {
      IdentitiesTarget(profiles, s.records, now, open[n]);
    }
  }

  lemma SameIdentitiesBack(profiles: Profiles, a: seq<Record>, b: seq<Record>)
    requires SameIdentities(profiles, a, b)
    ensures SameIdentities(profiles, b, a)
  {
  }

  lemma NextProgress(profiles: Profiles, s: Saga, open: seq<Key>, fates: seq<Fate>, n: nat)
    requires n < |open| && !NoTarget(profiles, s.records, open[n]) && Actual(open[n], FateAt(fates, n)).Deleted?
    ensures Progress(profiles, s, open, n + 1) ==
              AfterGroup(profiles, Progress(profiles, s, open, n), open[n], Actual(open[n], FateAt(fates, n)))
    ensures Succeeds(profiles, s.records, open, fates, n)
    ensures !FateAt(fates, n).DiesFirst? && !FateAt(fates, n).DiesRunning?
  {
  }

  lemma StopsHere(profiles: Profiles, records: seq<Record>, open: seq<Key>, fates: seq<Fate>, n: nat)
    requires n < |open| && forall m :: 0 <= m < n ==> Succeeds(profiles, records, open, fates, m)
    requires NoTarget(profiles, records, open[n]) || !Actual(open[n], FateAt(fates, n)).Deleted?
    ensures DoneFrom(profiles, records, open, fates, 0) == n
  {
    assert !Succeeds(profiles, records, open, fates, n);
  }

  lemma FailureIsNoReturn(profiles: Profiles, records: seq<Record>, k: Key, fate: Fate)
    ensures !Failure(profiles, records, k, fate).Returned?
  {
  }

  lemma FilteredAreOpen(profiles: Profiles, records: seq<Record>, keys: seq<Key>, open: seq<Key>)
    requires keys == GroupKeys(profiles, records) && open == Filter(keys, OpenTest(profiles, records))
    ensures open == OpenKeys(profiles, records) && AreOpenKeys(profiles, records, open)
  {
    hide IsOpen, GroupKeys;
    OpenKeysAreOpen(profiles, records);
  }

  lemma AllDone(profiles: Profiles, records: seq<Record>, open: seq<Key>, fates: seq<Fate>)
    requires forall m :: 0 <= m < |open| ==> Succeeds(profiles, records, open, fates, m)
    ensures DoneFrom(profiles, records, open, fates, 0) == |open|
  {
  }
}
