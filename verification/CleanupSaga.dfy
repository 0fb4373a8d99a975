/**
 Which external graphs still hold a document, as its projection records tell, and what every step of
 enqueueing, materializing and deleting does to that. A delete marks its progress in the records; each
 marker is committed on its own, so it survives when the delete itself is cut off.
 */
module CleanupSaga {
  import opened Wrappers
  import opened Sequences

  datatype Status = Pending | Succeeded | Skipped | Failed

  datatype Cleanup = NotTried | Running | CleanupFailed | Cleaned

  /** A projection record of the document. */
  datatype Record = Record(id: nat, profile: string, status: Status, nodes: nat, edges: nat,
                           workspace: Option<string>, uri: Option<string>, username: Option<string>,
                           password: Option<string>, cleanup: Cleanup)

  /** A runtime profile: the workspace label made from its name, and where its graph lives. */
  datatype Profile = Profile(workspace: string, uri: Option<string>, username: Option<string>)

  type Profiles = map<string, Profile>

  /** The workspace label of a profile is never empty. */
  ghost predicate Named(profiles: Profiles) {
    forall p :: p in profiles ==> profiles[p].workspace != ""
  }

  datatype Key = Key(workspace: Option<string>, uri: Option<string>, username: Option<string>)

  /** The part of an external store that holds a workspace. */
  datatype Target = Target(workspace: string, uri: string)

  /** A node of the document in an external store. */
  datatype Stored = Stored(target: Target, node: string)

  /** What is committed: the records, and what the external stores hold. */
  datatype Saga = Saga(records: seq<Record>, store: set<Stored>)

  predicate Given(x: Option<string>) {
    x.Some? && x.value != ""
  }

  /** Python's `x or y`. */
  function Or(x: Option<string>, y: Option<string>): Option<string> {
    if Given(x) then x else y
  }

  function StoredKey(r: Record): Key {
    Key(r.workspace, r.uri, r.username)
  }

  /** The key of the group a record belongs to: its own fields, completed from its profile. */
  function EffectiveKey(profiles: Profiles, r: Record): Key {
    if r.profile in profiles then
      var p := profiles[r.profile];
      Key(Or(r.workspace, Some(p.workspace)), Or(r.uri, p.uri), Or(r.username, p.username))
    else StoredKey(r)
  }

  predicate NeedsCleanup(r: Record) {
    !r.cleanup.Cleaned? && (r.status.Succeeded? || r.nodes > 0 || r.edges > 0)
  }

  predicate HasTarget(k: Key) {
    Given(k.workspace) && Given(k.uri)
  }

  predicate Reaches(k: Key, t: Target) {
    HasTarget(k) && t == Target(k.workspace.value, k.uri.value)
  }

  /** Some record of the group is marked cleaned. */
  predicate IsCleaned(profiles: Profiles, records: seq<Record>, k: Key) {
    exists r :: r in records && EffectiveKey(profiles, r) == k && r.cleanup.Cleaned?
  }

  /** A delete has to send the group to its store. */
  predicate IsOpen(profiles: Profiles, records: seq<Record>, k: Key) {
    && !IsCleaned(profiles, records, k)
    && exists r :: r in records && EffectiveKey(profiles, r) == k && NeedsCleanup(r)
  }

  ghost predicate IsCovered(profiles: Profiles, records: seq<Record>, t: Target) {
    exists k :: IsOpen(profiles, records, k) && Reaches(k, t)
  }

  /** Whatever a store holds of the document, some open group will remove. */
  ghost predicate Covered(profiles: Profiles, s: Saga) {
    forall n :: n in s.store ==> IsCovered(profiles, s.records, n.target)
  }

  // ----- markers

  function Marked(profiles: Profiles, r: Record, k: Key, c: Cleanup): Record {
    if EffectiveKey(profiles, r) == k then
      r.(workspace := k.workspace, uri := k.uri, username := k.username, cleanup := c)
    else r
  }

  function Mark(profiles: Profiles, records: seq<Record>, k: Key, c: Cleanup): (marked: seq<Record>)
    ensures |marked| == |records|
    ensures forall i :: 0 <= i < |records| ==> marked[i] == Marked(profiles, records[i], k, c)
  {
    seq(|records|, i requires 0 <= i < |records| => Marked(profiles, records[i], k, c))
  }

  /** A marker writes the key of the group into its records; they stay in the group they were in. */
  lemma MarkersKeepGroups(profiles: Profiles, r: Record, k: Key, c: Cleanup)
    ensures EffectiveKey(profiles, Marked(profiles, r, k, c)) == EffectiveKey(profiles, r)
  {
  }

  lemma MarkedMembers(profiles: Profiles, records: seq<Record>, k: Key, c: Cleanup)
    ensures forall r :: r in records ==> Marked(profiles, r, k, c) in Mark(profiles, records, k, c)
    ensures forall m :: m in Mark(profiles, records, k, c) ==>
              exists r :: r in records && m == Marked(profiles, r, k, c)
  {
    hide Marked;
    var marked := Mark(profiles, records, k, c);
    forall r | r in records
      ensures Marked(profiles, r, k, c) in marked
    {
      var i :| 0 <= i < |records| && records[i] == r;
      assert marked[i] == Marked(profiles, r, k, c);
    }
    forall m | m in marked
      ensures exists r :: r in records && m == Marked(profiles, r, k, c)
    {
      var i :| 0 <= i < |marked| && marked[i] == m;
      assert records[i] in records;
    }
  }

  /** A marker leaves the other groups as open and as clean as they were. */
  lemma OtherGroups(profiles: Profiles, records: seq<Record>, k: Key, c: Cleanup, other: Key)
    requires other != k
    ensures IsCleaned(profiles, Mark(profiles, records, k, c), other) <==> IsCleaned(profiles, records, other)
    ensures IsOpen(profiles, Mark(profiles, records, k, c), other) <==> IsOpen(profiles, records, other)
  {
    hide NeedsCleanup, EffectiveKey;
    var marked := Mark(profiles, records, k, c);
    forall r | EffectiveKey(profiles, r) == other
      ensures r in marked <==> r in records
    {
      MarkedMembers(profiles, records, k, c);
      assert Marked(profiles, r, k, c) == r;
      if r in marked {
        var r0 :| r0 in records && r == Marked(profiles, r0, k, c);
        MarkersKeepGroups(profiles, r0, k, c);
      }
    }
  }

  /** A group that is marked cleaned is closed, a group marked otherwise stays open. */
  lemma MarkedGroup(profiles: Profiles, records: seq<Record>, k: Key, c: Cleanup)
    requires IsOpen(profiles, records, k)
    ensures IsCleaned(profiles, Mark(profiles, records, k, c), k) <==> c.Cleaned?
    ensures IsOpen(profiles, Mark(profiles, records, k, c), k) <==> !c.Cleaned?
  {
    hide EffectiveKey;
    var marked := Mark(profiles, records, k, c);
    MarkedMembers(profiles, records, k, c);
    var r :| r in records && EffectiveKey(profiles, r) == k && NeedsCleanup(r);
    var m := Marked(profiles, r, k, c);
    MarkersKeepGroups(profiles, r, k, c);
    assert m in marked && m.cleanup == c;
    forall n | n in marked && EffectiveKey(profiles, n) == k
      ensures n.cleanup == c
    {
      var r0 :| r0 in records && n == Marked(profiles, r0, k, c);
      MarkersKeepGroups(profiles, r0, k, c);
    }
  }

  // ----- the groups of a delete

  /** The group keys in the order in which their first records stand. */
  function GroupKeys(profiles: Profiles, records: seq<Record>): seq<Key> {
    if records == [] then []
    else
      var keys := GroupKeys(profiles, records[..|records| - 1]);
      var k := EffectiveKey(profiles, records[|records| - 1]);
      if k in keys then keys else keys + [k]
  }

  function OpenTest(profiles: Profiles, records: seq<Record>): Key -> bool {
    (k: Key) => IsOpen(profiles, records, k)
  }

  /** The groups a delete has to send to their stores. */
  function OpenKeys(profiles: Profiles, records: seq<Record>): seq<Key> {
    Filter(GroupKeys(profiles, records), OpenTest(profiles, records))
  }

  lemma {:induction false} GroupKeysAreAll(profiles: Profiles, records: seq<Record>)
    ensures forall r :: r in records ==> EffectiveKey(profiles, r) in GroupKeys(profiles, records)
    ensures Distinct(GroupKeys(profiles, records))
    decreases |records|
  {
    hide EffectiveKey;
    if records != [] {
      var init, last := records[..|records| - 1], records[|records| - 1];
      GroupKeysAreAll(profiles, init);
      assert records == init + [last];
    }
  }

  lemma {:induction false} FilterDistinct<T(!new)>(s: seq<T>, p: T -> bool)
    requires Distinct(s)
    ensures Distinct(Filter(s, p))
    decreases |s|
  {
    if s != [] {
      var init, last := s[..|s| - 1], s[|s| - 1];
      FilterDistinct(init, p);
      forall i | 0 <= i < |Filter(init, p)|
        ensures Filter(init, p)[i] != last
      {
        FilterMembers(init, p, Filter(init, p)[i]);
      }
    }
  }

  lemma OpenKeysAreOpen(profiles: Profiles, records: seq<Record>)
    ensures Distinct(OpenKeys(profiles, records))
    ensures forall k :: k in OpenKeys(profiles, records) <==> IsOpen(profiles, records, k)
  {
    hide EffectiveKey, IsCleaned, NeedsCleanup;
    GroupKeysAreAll(profiles, records);
    FilterDistinct(GroupKeys(profiles, records), OpenTest(profiles, records));
    forall k
      ensures k in OpenKeys(profiles, records) <==> IsOpen(profiles, records, k)
    {
      FilterMembers(GroupKeys(profiles, records), OpenTest(profiles, records), k);
    }
  }

  /** No record of the group has a profile any more, and the key does not name a target either. */
  predicate NoTarget(profiles: Profiles, records: seq<Record>, k: Key) {
    && !HasTarget(k)
    && forall r :: r in records && EffectiveKey(profiles, r) == k ==> r.profile !in profiles
  }

  function TargetOf(k: Key): Target {
    Target(if k.workspace.Some? then k.workspace.value else "", if k.uri.Some? then k.uri.value else "")
  }

  function Without(store: set<Stored>, t: Target): (rest: set<Stored>)
    ensures forall n :: n in rest <==> n in store && n.target != t
    ensures |rest| <= |store|
  {
    var rest := set n | n in store && n.target != t;
    RestIsSmaller(store, rest);
    rest
  }

  lemma RestIsSmaller(store: set<Stored>, rest: set<Stored>)
    requires rest <= store
    ensures |rest| <= |store|
  {
    assert store == rest + (store - rest);
  }

  /** What happens to a group: the process dies before the marker "running", or after it and before the
      call of the store; the call fails, whether the nodes are gone or not, and the process dies before
      the marker "failed" or not; the process dies between the call and the marker "succeeded"; or the
      group is deleted. */
  datatype Fate =
    | DiesFirst
    | DiesRunning
    | StoreFails(gone: bool, marked: bool)
    | DiesAfterDelete
    | Deleted

  /** A group without a store address is refused, whatever the store would have done. */
  function Actual(k: Key, fate: Fate): Fate {
    if Given(k.uri) then fate
    else match fate
      case StoreFails(gone, marked) => StoreFails(false, marked)
      case DiesAfterDelete => StoreFails(false, false)
      case Deleted => StoreFails(false, true)
      case _ => fate
  }

  /** The state after one group. */
  function AfterGroup(profiles: Profiles, s: Saga, k: Key, fate: Fate): Saga {
    match fate
    case DiesFirst => s
    case DiesRunning => Saga(Mark(profiles, s.records, k, Running), s.store)
    case StoreFails(gone, marked) =>
      Saga(Mark(profiles, s.records, k, if marked then CleanupFailed else Running),
           if gone then Without(s.store, TargetOf(k)) else s.store)
    case DiesAfterDelete => Saga(Mark(profiles, s.records, k, Running), Without(s.store, TargetOf(k)))
    case Deleted => Saga(Mark(profiles, s.records, k, Cleaned), Without(s.store, TargetOf(k)))
  }

  /** The state after `n` groups that were all deleted. */
  function Progress(profiles: Profiles, s: Saga, keys: seq<Key>, n: nat): Saga
    requires n <= |keys|
  {
    if n == 0 then s else AfterGroup(profiles, Progress(profiles, s, keys, n - 1), keys[n - 1], Deleted)
  }

  function FateAt(fates: seq<Fate>, n: nat): Fate {
    if n < |fates| then fates[n] else Deleted
  }

  /** Group number `n` is deleted when its turn comes. */
  predicate Succeeds(profiles: Profiles, records: seq<Record>, keys: seq<Key>, fates: seq<Fate>, n: nat)
    requires n < |keys|
  {
    !NoTarget(profiles, records, keys[n]) && Actual(keys[n], FateAt(fates, n)).Deleted?
  }

  /** How many groups are deleted before the delete ends. */
  function DoneFrom(profiles: Profiles, records: seq<Record>, keys: seq<Key>, fates: seq<Fate>, n: nat): (done: nat)
    requires n <= |keys|
    ensures n <= done <= |keys|
    ensures forall m :: n <= m < done ==> Succeeds(profiles, records, keys, fates, m)
    ensures done < |keys| ==> !Succeeds(profiles, records, keys, fates, done)
    decreases |keys| - n
  {
    if n == |keys| || !Succeeds(profiles, records, keys, fates, n) then n
    else DoneFrom(profiles, records, keys, fates, n + 1)
  }

  /** What a delete does before it calls any store: in the first `n` groups that are cleaned already, the
      records that are not marked so are marked. */
  function Remarked(profiles: Profiles, records: seq<Record>, keys: seq<Key>, n: nat): seq<Record>
    requires n <= |keys|
  {
    if n == 0 then records
    else
      var before := Remarked(profiles, records, keys, n - 1);
      if IsCleaned(profiles, before, keys[n - 1]) && !AllCleaned(profiles, before, keys[n - 1])
      then Mark(profiles, before, keys[n - 1], Cleaned) else before
  }

  predicate AllCleaned(profiles: Profiles, records: seq<Record>, k: Key) {
    forall r :: r in records && EffectiveKey(profiles, r) == k ==> r.cleanup.Cleaned?
  }

  /** The state in which a delete leaves the records and the stores, when it calls the stores. */
  function Attempted(profiles: Profiles, s: Saga, fates: seq<Fate>): Saga {
    var keys := OpenKeys(profiles, s.records);
    var done := DoneFrom(profiles, s.records, keys, fates, 0);
    var progress := Progress(profiles, s, keys, done);
    if done == |keys| || NoTarget(profiles, s.records, keys[done]) then progress
    else AfterGroup(profiles, progress, keys[done], Actual(keys[done], FateAt(fates, done)))
  }

  // ----- what every step of a delete keeps

  /** The groups of a state: which are open, which are cleaned. */
  ghost predicate SameGroups(profiles: Profiles, a: seq<Record>, b: seq<Record>) {
    forall k ::
      IsOpen(profiles, a, k) == IsOpen(profiles, b, k) && IsCleaned(profiles, a, k) == IsCleaned(profiles, b, k)
  }

  lemma {:induction false} RemarkingKeepsGroups(profiles: Profiles, records: seq<Record>, keys: seq<Key>, n: nat)
    requires n <= |keys|
    ensures SameGroups(profiles, records, Remarked(profiles, records, keys, n))
    decreases n
  {
    hide Marked, NeedsCleanup, EffectiveKey, AllCleaned;
    if n > 0 {
      RemarkingKeepsGroups(profiles, records, keys, n - 1);
      var before := Remarked(profiles, records, keys, n - 1);
      var k := keys[n - 1];
      if IsCleaned(profiles, before, k) {
        RemarkOne(profiles, before, k);
      }
    }
  }

  lemma RemarkOne(profiles: Profiles, records: seq<Record>, k: Key)
    requires IsCleaned(profiles, records, k)
    ensures SameGroups(profiles, records, Mark(profiles, records, k, Cleaned))
  {
    hide NeedsCleanup, EffectiveKey, Marked;
    var marked := Mark(profiles, records, k, Cleaned);
    forall other | other != k
      ensures IsOpen(profiles, marked, other) == IsOpen(profiles, records, other)
      ensures IsCleaned(profiles, marked, other) == IsCleaned(profiles, records, other)
    {
      OtherGroups(profiles, records, k, Cleaned, other);
    }
    StaysCleaned(profiles, records, k);
  }

  lemma StaysCleaned(profiles: Profiles, records: seq<Record>, k: Key)
    requires IsCleaned(profiles, records, k)
    ensures IsCleaned(profiles, Mark(profiles, records, k, Cleaned), k)
  {
    hide NeedsCleanup, EffectiveKey;
    MarkedMembers(profiles, records, k, Cleaned);
    var r :| r in records && EffectiveKey(profiles, r) == k && r.cleanup.Cleaned?;
    MarkersKeepGroups(profiles, r, k, Cleaned);
    assert Marked(profiles, r, k, Cleaned).cleanup.Cleaned?;
  }

  /** Whatever happens to an open group: the other groups stay as they are, this one is open until it is
      deleted, nothing enters a store, and only what the group reaches can leave. */
  ghost predicate GroupLeft(profiles: Profiles, s: Saga, k: Key, fate: Fate, t: Saga) {
    && (forall other :: other != k ==>
          && IsOpen(profiles, t.records, other) == IsOpen(profiles, s.records, other)
          && IsCleaned(profiles, t.records, other) == IsCleaned(profiles, s.records, other))
    && IsOpen(profiles, t.records, k) == !fate.Deleted?
    && IsCleaned(profiles, t.records, k) == fate.Deleted?
    && (forall n :: n in t.store ==> n in s.store && (fate.Deleted? ==> n.target != TargetOf(k)))
    && (forall n :: n in s.store && n.target != TargetOf(k) ==> n in t.store)
  }

  lemma GroupStep(profiles: Profiles, s: Saga, k: Key, fate: Fate)
    requires IsOpen(profiles, s.records, k)
    ensures GroupLeft(profiles, s, k, fate, AfterGroup(profiles, s, k, fate))
  {
    hide IsCleaned, NeedsCleanup, EffectiveKey, Marked, IsOpen;
    forall other, c | other != k
      ensures IsOpen(profiles, Mark(profiles, s.records, k, c), other) == IsOpen(profiles, s.records, other)
      ensures IsCleaned(profiles, Mark(profiles, s.records, k, c), other) == IsCleaned(profiles, s.records, other)
    {
      OtherGroups(profiles, s.records, k, c, other);
    }
    forall c
      ensures IsOpen(profiles, Mark(profiles, s.records, k, c), k) == !c.Cleaned?
      ensures IsCleaned(profiles, Mark(profiles, s.records, k, c), k) == c.Cleaned?
    {
      MarkedGroup(profiles, s.records, k, c);
    }
    OpenIsNotCleaned(profiles, s.records, k);
  }

  lemma OpenIsNotCleaned(profiles: Profiles, records: seq<Record>, k: Key)
    requires IsOpen(profiles, records, k)
    ensures !IsCleaned(profiles, records, k)
  {
  }

  /** What is left after `n` deleted groups: the open groups are the others, and the stores hold what none
      of the `n` reaches. */
  ghost predicate Deleting(profiles: Profiles, s: Saga, keys: seq<Key>, n: nat, t: Saga)
    requires n <= |keys|
  {
    && (forall k :: IsOpen(profiles, t.records, k) <==> k in keys[n..])
    && (forall k :: IsCleaned(profiles, t.records, k) <==> k in keys[..n] || IsCleaned(profiles, s.records, k))
    && (forall m :: m in t.store <==> m in s.store && forall j :: 0 <= j < n ==> m.target != TargetOf(keys[j]))
  }

  ghost predicate AreOpenKeys(profiles: Profiles, records: seq<Record>, keys: seq<Key>) {
    Distinct(keys) && forall k :: k in keys <==> IsOpen(profiles, records, k)
  }

  lemma {:induction false} ProgressDeletes(profiles: Profiles, s: Saga, keys: seq<Key>, n: nat)
    requires n <= |keys| && AreOpenKeys(profiles, s.records, keys)
    ensures Deleting(profiles, s, keys, n, Progress(profiles, s, keys, n))
    decreases n
  {
    hide IsOpen, IsCleaned, AfterGroup;
    if n > 0 {
      var before, k := Progress(profiles, s, keys, n - 1), keys[n - 1];
      ProgressDeletes(profiles, s, keys, n - 1);
      assert k in keys[n - 1..];
      GroupStep(profiles, before, k, Deleted);
      OneMoreDeleted(profiles, s, keys, n, before, AfterGroup(profiles, before, k, Deleted));
    }
  }

  lemma OneMoreDeleted(profiles: Profiles, s: Saga, keys: seq<Key>, n: nat, t: Saga, u: Saga)
    requires 0 < n <= |keys| && Distinct(keys)
    requires Deleting(profiles, s, keys, n - 1, t) && GroupLeft(profiles, t, keys[n - 1], Deleted, u)
    ensures Deleting(profiles, s, keys, n, u)
  {
    hide IsOpen, IsCleaned;
    var k := keys[n - 1];
    assert keys[n - 1..] == [k] + keys[n..];
    assert keys[..n] == keys[..n - 1] + [k];
    assert k !in keys[n..];
    forall m
      ensures m in u.store <==> m in s.store && forall j :: 0 <= j < n ==> m.target != TargetOf(keys[j])
    {
      assert (forall j :: 0 <= j < n ==> m.target != TargetOf(keys[j])) <==>
             (forall j :: 0 <= j < n - 1 ==> m.target != TargetOf(keys[j])) && m.target != TargetOf(k);
    }
  }

  // ----- what a delete as a whole keeps and does

  /** Cut off anywhere, a delete leaves exactly the groups open that it did not get to mark: the open groups
      shrink by the ones that were deleted, and cleaned groups stay cleaned. */
  lemma DeleteShrinks(profiles: Profiles, s: Saga, fates: seq<Fate>)
    ensures var keys := OpenKeys(profiles, s.records);
            var done := DoneFrom(profiles, s.records, keys, fates, 0);
            var t := Attempted(profiles, s, fates);
            && (forall k :: IsOpen(profiles, t.records, k) <==> k in keys[done..])
            && (forall k :: IsCleaned(profiles, t.records, k) <==>
                k in keys[..done] || IsCleaned(profiles, s.records, k))
  {
    hide IsOpen, IsCleaned, AfterGroup, Succeeds, NoTarget, Progress, Covered;
    var keys := OpenKeys(profiles, s.records);
    var done := DoneFrom(profiles, s.records, keys, fates, 0);
    OpenKeysAreOpen(profiles, s.records);
    ProgressDeletes(profiles, s, keys, done);
    if done < |keys| && !NoTarget(profiles, s.records, keys[done]) {
      var fate := Actual(keys[done], FateAt(fates, done));
      assert !fate.Deleted? by {
        assert !Succeeds(profiles, s.records, keys, fates, done);
        LastFate(profiles, s.records, keys, fates, done);
      }
      assert keys[done] in keys[done..];
      GroupStep(profiles, Progress(profiles, s, keys, done), keys[done], fate);
      CutIsOpen(profiles, s, keys, done);
    }
  }

  lemma LastFate(profiles: Profiles, records: seq<Record>, keys: seq<Key>, fates: seq<Fate>, n: nat)
    requires n < |keys| && !Succeeds(profiles, records, keys, fates, n) && !NoTarget(profiles, records, keys[n])
    ensures !Actual(keys[n], FateAt(fates, n)).Deleted?
  {
  }

  lemma CutIsOpen(profiles: Profiles, s: Saga, keys: seq<Key>, done: nat)
    requires done < |keys| && AreOpenKeys(profiles, s.records, keys)
    ensures keys[done] !in keys[..done] && !IsCleaned(profiles, s.records, keys[done])
  {
    hide IsCleaned;
    assert keys[done] in keys;
    OpenIsNotCleaned(profiles, s.records, keys[done]);
  }

  /** Nothing enters a store, and what leaves it was reached by a group the delete sent. */
  lemma DeleteRemoves(profiles: Profiles, s: Saga, fates: seq<Fate>)
    ensures var keys := OpenKeys(profiles, s.records);
            var done := DoneFrom(profiles, s.records, keys, fates, 0);
            var t := Attempted(profiles, s, fates);
            && (forall m :: m in t.store ==>
                  m in s.store && forall j :: 0 <= j < done ==> m.target != TargetOf(keys[j]))
            && (forall m :: m in s.store && m !in t.store ==>
                  exists j :: 0 <= j <= done && j < |keys| && m.target == TargetOf(keys[j]))
  {
    hide IsOpen, IsCleaned, AfterGroup, Succeeds, NoTarget, Progress, Actual;
    var keys := OpenKeys(profiles, s.records);
    var done := DoneFrom(profiles, s.records, keys, fates, 0);
    OpenKeysAreOpen(profiles, s.records);
    ProgressDeletes(profiles, s, keys, done);
    if done < |keys| && !NoTarget(profiles, s.records, keys[done]) {
      assert keys[done] in keys[done..];
      GroupStep(profiles, Progress(profiles, s, keys, done), keys[done], Actual(keys[done], FateAt(fates, done)));
    }
  }

  /** Wherever a delete is cut off, the groups still open reach all that the stores still hold. */
  lemma DeleteKeepsCovered(profiles: Profiles, s: Saga, fates: seq<Fate>)
    requires Covered(profiles, s)
    ensures Covered(profiles, Attempted(profiles, s, fates))
  {
    hide IsOpen, IsCleaned, Attempted, Succeeds, OpenKeys;
    var keys := OpenKeys(profiles, s.records);
    var done := DoneFrom(profiles, s.records, keys, fates, 0);
    var t := Attempted(profiles, s, fates);
    DeleteShrinks(profiles, s, fates);
    DeleteRemoves(profiles, s, fates);
    OpenKeysAreOpen(profiles, s.records);
    forall n | n in t.store
      ensures IsCovered(profiles, t.records, n.target)
    {
      assert IsCovered(profiles, s.records, n.target);
      var k :| IsOpen(profiles, s.records, k) && Reaches(k, n.target);
      var j :| 0 <= j < |keys| && keys[j] == k;
      assert n.target == TargetOf(keys[j]);
      assert j >= done;
      assert keys[done..][j - done] == k;
    }
  }

  /** A delete gets to the end of its groups. */
  predicate Finishes(profiles: Profiles, s: Saga, fates: seq<Fate>) {
    DoneFrom(profiles, s.records, OpenKeys(profiles, s.records), fates, 0) == |OpenKeys(profiles, s.records)|
  }

  /** A delete that gets to the end leaves no open group, and the stores without the document exactly when
      the open groups covered all they held. */
  lemma FinishedMeansGone(profiles: Profiles, s: Saga, fates: seq<Fate>)
    requires Named(profiles) && Finishes(profiles, s, fates)
    ensures forall k :: !IsOpen(profiles, Attempted(profiles, s, fates).records, k)
    ensures Attempted(profiles, s, fates).store == {} <==> Covered(profiles, s)
  {
    hide IsOpen, IsCleaned, Attempted, Succeeds, OpenKeys;
    var keys := OpenKeys(profiles, s.records);
    var t := Attempted(profiles, s, fates);
    DeleteShrinks(profiles, s, fates);
    DeleteRemoves(profiles, s, fates);
    OpenKeysAreOpen(profiles, s.records);
    assert keys[|keys|..] == [];
    if Covered(profiles, s) {
      DeleteKeepsCovered(profiles, s, fates);
      assert forall n :: n in t.store ==> IsCovered(profiles, t.records, n.target);
    }
    if t.store == {} {
      forall n | n in s.store
        ensures IsCovered(profiles, s.records, n.target)
      {
        var j :| 0 <= j < |keys| && n.target == TargetOf(keys[j]);
        FinishedHasTargets(profiles, s, fates, j);
        assert keys[j] in keys;
        assert Reaches(keys[j], n.target);
      }
    }
  }

  lemma FinishedHasTargets(profiles: Profiles, s: Saga, fates: seq<Fate>, j: nat)
    requires Finishes(profiles, s, fates) && j < |OpenKeys(profiles, s.records)|
    requires Named(profiles)
    ensures HasTarget(OpenKeys(profiles, s.records)[j])
  {
    hide IsOpen, IsCleaned, Attempted;
    var keys := OpenKeys(profiles, s.records);
    assert Succeeds(profiles, s.records, keys, fates, j);
  }

  // ----- writing a projection

  function LastPending(records: seq<Record>): (i: Option<nat>)
    ensures i.Some? ==> i.value < |records| && records[i.value].status.Pending?
    ensures i.Some? ==> forall j :: i.value < j < |records| ==> !records[j].status.Pending?
    ensures i.None? ==> forall j :: 0 <= j < |records| ==> !records[j].status.Pending?
  {
    if records == [] then None
    else if records[|records| - 1].status.Pending? then Some(|records| - 1)
    else LastPending(records[..|records| - 1])
  }

  /** The answer of the store to a projection: no driver, a failed transaction, or the nodes and the
      number of edges written. */
  datatype Write = Unreachable | WriteFails | Written(nodes: set<string>, edges: nat)

  /** The empty target fields of a record are filled from its profile. */
  function Filled(profiles: Profiles, r: Record): Record
    requires r.profile in profiles
  {
    var k := EffectiveKey(profiles, r);
    r.(workspace := k.workspace, uri := k.uri, username := k.username, password := None)
  }

  function Ended(r: Record, status: Status, nodes: nat, edges: nat): Record {
    r.(status := status, nodes := nodes, edges := edges)
  }

  function AfterWrite(profiles: Profiles, r: Record, write: Write): Record {
    if r.profile !in profiles then Ended(r, Failed, 0, 0)
    else
      var filled := Filled(profiles, r);
      if !Given(filled.uri) || write.Unreachable? then Ended(filled, Skipped, 0, 0)
      else if write.WriteFails? then Ended(filled, Failed, 0, 0)
      else Ended(filled, Succeeded, |write.nodes|, write.edges)
  }

  /** What stays beside a record that was just written: the records of other targets. */
  function KeptTest(written: Record): Record -> bool {
    (r: Record) => r.id == written.id || StoredKey(r) != StoredKey(written)
  }

  function Holding(t: Target, nodes: set<string>): (held: set<Stored>)
    ensures forall n :: n in held <==> n.target == t && n.node in nodes
  {
    set n | n in nodes :: Stored(t, n)
  }

  function Materialized(profiles: Profiles, s: Saga, write: Write): Saga {
    match LastPending(s.records)
    case None => s
    case Some(i) =>
      var r := AfterWrite(profiles, s.records[i], write);
      if r.status.Succeeded? && write.Written? then
        Saga(Filter(s.records[i := r], KeptTest(r)),
             Without(s.store, TargetOf(StoredKey(r))) + Holding(TargetOf(StoredKey(r)), write.nodes))
      else Saga(s.records[i := r], s.store)
  }

  // ----- what every reachable state satisfies

  ghost predicate UniqueIds(records: seq<Record>) {
    forall i, j :: 0 <= i < j < |records| ==> records[i].id != records[j].id
  }

  /** A record that waits was never counted; one that is marked cleaned names its group; one that needs
      cleaning names its target. */
  predicate Sound(profiles: Profiles, r: Record) {
    && (r.status.Pending? ==> r.nodes == 0 && r.edges == 0)
    && (r.cleanup.Cleaned? ==> StoredKey(r) == EffectiveKey(profiles, r))
    && (NeedsCleanup(r) ==> HasTarget(StoredKey(r)))
  }

  ghost predicate AllSound(profiles: Profiles, records: seq<Record>) {
    UniqueIds(records) && forall r :: r in records ==> Sound(profiles, r)
  }

  ghost predicate Good(profiles: Profiles, s: Saga) {
    AllSound(profiles, s.records) && Covered(profiles, s)
  }

  /** The record `materialize_pending` picks. */
  function Picked(records: seq<Record>): Option<Record> {
    match LastPending(records) case None => None case Some(i) => Some(records[i])
  }

  ghost predicate Writes(profiles: Profiles, s: Saga, write: Write) {
    && Picked(s.records).Some? && write.Written?
    && AfterWrite(profiles, Picked(s.records).value, write).status.Succeeded?
  }

  lemma WrittenRecord(profiles: Profiles, r: Record, write: Write)
    requires Named(profiles) && write.Written? && AfterWrite(profiles, r, write).status.Succeeded?
    ensures var w := AfterWrite(profiles, r, write);
            && w.id == r.id && w.cleanup == r.cleanup
            && EffectiveKey(profiles, w) == EffectiveKey(profiles, r) == StoredKey(w) && HasTarget(StoredKey(w))
            && (NeedsCleanup(w) <==> !r.cleanup.Cleaned?)
  {
  }

  lemma UnwrittenRecord(profiles: Profiles, r: Record, write: Write)
    requires Sound(profiles, r) && r.status.Pending? &&
              !(AfterWrite(profiles, r, write).status.Succeeded? && write.Written?)
    ensures var w := AfterWrite(profiles, r, write);
            && w.id == r.id && w.cleanup == r.cleanup && EffectiveKey(profiles, w) == EffectiveKey(profiles, r)
            && !NeedsCleanup(w) && !NeedsCleanup(r) && Sound(profiles, w)
  {
  }

  /** Replacing a record by one of the same group that is neither more nor less open changes no group. */
  lemma SwapKeepsGroups(profiles: Profiles, records: seq<Record>, i: nat, w: Record)
    requires i < |records| && EffectiveKey(profiles, w) == EffectiveKey(profiles, records[i])
    requires w.cleanup == records[i].cleanup && NeedsCleanup(w) == NeedsCleanup(records[i])
    ensures SameGroups(profiles, records, records[i := w])
  {
    hide EffectiveKey, NeedsCleanup;
    SwapMembers(records, i, w);
    SwapMembers(records[i := w], i, records[i]);
    assert records[i := w][i := records[i]] == records;
  }

  lemma SwapMembers(records: seq<Record>, i: nat, w: Record)
    requires i < |records|
    ensures forall r :: r in records[i := w] ==> r == w || r in records
    ensures forall r :: r in records ==> r == records[i] || r in records[i := w]
    ensures w in records[i := w]
  {
    assert records[i := w][i] == w;
    forall r | r in records
      ensures r == records[i] || r in records[i := w]
    {
      var j :| 0 <= j < |records| && records[j] == r;
      if j != i {
        assert records[i := w][j] == r;
      }
    }
  }

  lemma SameGroupsCover(profiles: Profiles, s: Saga, records: seq<Record>)
    requires SameGroups(profiles, s.records, records) && Covered(profiles, s)
    ensures Covered(profiles, Saga(records, s.store))
  {
    hide IsOpen, IsCleaned, Reaches;
    forall n | n in s.store
      ensures IsCovered(profiles, records, n.target)
    {
      assert IsCovered(profiles, s.records, n.target);
    }
  }

  /** Another open group reaches the target of the record that is written, without the records that the
      write prunes. */
  ghost predicate OtherOpen(profiles: Profiles, records: seq<Record>, w: Record) {
    exists k ::
      k != StoredKey(w) && Reaches(k, TargetOf(StoredKey(w))) && IsOpen(profiles, Filter(records, KeptTest(w)), k)
  }

  // ----- the same, told by the fields of the records

  /** A field of the record that is not empty counts, otherwise that of its profile; a record without a
      profile has only its own. */
  lemma OwnFieldsFirst(profiles: Profiles, r: Record)
    ensures var k := EffectiveKey(profiles, r);
            if r.profile !in profiles then k.workspace == r.workspace && k.uri == r.uri && k.username == r.username
            else
              var p := profiles[r.profile];
              && (r.workspace.Some? && r.workspace.value != "" ==> k.workspace == r.workspace)
              && (r.workspace == None || r.workspace == Some("") ==> k.workspace == Some(p.workspace))
              && (r.uri.Some? && r.uri.value != "" ==> k.uri == r.uri)
              && (r.uri == None || r.uri == Some("") ==> k.uri == p.uri)
              && (r.username.Some? && r.username.value != "" ==> k.username == r.username)
              && (r.username == None || r.username == Some("") ==> k.username == p.username)
  {
  }

  /** A group has to be sent exactly when none of its records carries the mark of success and one of them was
      written or has a count. */
  lemma OpenByFields(profiles: Profiles, records: seq<Record>, k: Key)
    ensures IsOpen(profiles, records, k) <==>
              && (forall r :: r in records && EffectiveKey(profiles, r) == k ==> r.cleanup != Cleaned)
              && (exists r :: r in records && EffectiveKey(profiles, r) == k
                              && (r.status == Succeeded || r.nodes != 0 || r.edges != 0))
  {
    hide EffectiveKey;
    if IsOpen(profiles, records, k) {
      var r :| r in records && EffectiveKey(profiles, r) == k && NeedsCleanup(r);
      assert r.status == Succeeded || r.nodes != 0 || r.edges != 0;
    }
    if r :| r in records && EffectiveKey(profiles, r) == k && (r.status == Succeeded || r.nodes != 0 || r.edges != 0) {
      assert r.cleanup != Cleaned ==> NeedsCleanup(r);
    }
  }

  /** Where the record would be written: there is an address, its own or that of its profile. */
  ghost predicate HasAddress(profiles: Profiles, r: Record) {
    || (r.uri.Some? && r.uri.value != "")
    || (r.profile in profiles && profiles[r.profile].uri.Some? && profiles[r.profile].uri.value != "")
  }

  /** What the answer of a store makes of a record, by status and counts. */
  ghost predicate EndsAs(profiles: Profiles, r: Record, write: Write, status: Status, nodes: nat, edges: nat) {
    var live := r.profile in profiles;
    && (status == Succeeded <==> live && HasAddress(profiles, r) && write.Written?)
    && (status == Skipped <==> live && (!HasAddress(profiles, r) || write.Unreachable?))
    && (status == Failed <==> !live || (HasAddress(profiles, r) && write.WriteFails?))
    && (status == Succeeded && write.Written? ==> nodes == |write.nodes| && edges == write.edges)
    && (status != Succeeded ==> nodes == 0 && edges == 0)
  }

  /** After a write the record waits no more, and is told from others by the same id, profile and mark. */
  lemma WriteEnds(profiles: Profiles, r: Record, write: Write)
    ensures var w := AfterWrite(profiles, r, write);
            && EndsAs(profiles, r, write, w.status, w.nodes, w.edges) && w.status != Pending
            && w.id == r.id && w.profile == r.profile && w.cleanup == r.cleanup
            && (r.profile in profiles ==> w.password == None && StoredKey(w) == EffectiveKey(profiles, r))
            && (r.profile !in profiles ==> StoredKey(w) == StoredKey(r) && w.password == r.password)
  {
  }

  /** A successful write drops exactly the other records that name the same workspace, address and user, and
      puts its nodes in place of what the target held; any other write changes no other record and no store. */
  lemma WriteReplaces(profiles: Profiles, s: Saga, write: Write, i: nat)
    requires UniqueIds(s.records) && LastPending(s.records) == Some(i)
    ensures var r, t := s.records[i], Materialized(profiles, s, write); var k := EffectiveKey(profiles, r);
            if r.profile in profiles && HasAddress(profiles, r) && write.Written? then
              && AfterWrite(profiles, r, write) in t.records
              && (forall x :: x in s.records && x != r ==>
                    (x in t.records <==> !(x.workspace == k.workspace && x.uri == k.uri && x.username == k.username)))
              && (forall n :: n in t.store <==>
                    if k.workspace == Some(n.target.workspace) && k.uri == Some(n.target.uri)
                    then n.node in write.nodes else n in s.store)
            else t.store == s.store && |t.records| == |s.records|
                 && forall j :: 0 <= j < |s.records| && j != i ==> t.records[j] == s.records[j]
  {
    hide EffectiveKey, AfterWrite, UniqueIds;
    var r := s.records[i];
    WriteEnds(profiles, r, write);
    var w := AfterWrite(profiles, r, write);
    if r.profile in profiles && HasAddress(profiles, r) && write.Written? {
      AddressIsKey(profiles, r);
      SwapMembers(s.records, i, w);
      FilterMembers(s.records[i := w], KeptTest(w), w);
      forall x | x in s.records && x != r
        ensures x in Materialized(profiles, s, write).records <==> StoredKey(x) != StoredKey(w)
      {
        FilterMembers(s.records[i := w], KeptTest(w), x);
        OtherId(s.records, i, x);
      }
    }
  }

  lemma AddressIsKey(profiles: Profiles, r: Record)
    requires r.profile in profiles && HasAddress(profiles, r)
    ensures EffectiveKey(profiles, r).workspace.Some? && EffectiveKey(profiles, r).uri.Some?
  {
  }

  lemma OtherId(records: seq<Record>, i: nat, x: Record)
    requires UniqueIds(records) && i < |records| && x in records && x != records[i]
    ensures x.id != records[i].id
  {
    var j :| 0 <= j < |records| && records[j] == x;
    if i < j {
      assert records[i].id != records[j].id;
    }
  }

  /** What a group and its store tell after each way it can end. Markers say how far the delete got; the nodes
      are gone exactly when the store was called and deleted them. */
  lemma GroupTells(profiles: Profiles, s: Saga, k: Key, fate: Fate, i: nat)
    requires i < |s.records|
    ensures var r, t := s.records[i], AfterGroup(profiles, s, k, fate);
            && |t.records| == |s.records| && t.records[i].id == r.id && t.records[i].status == r.status
            && t.records[i].nodes == r.nodes && t.records[i].edges == r.edges && t.records[i].profile == r.profile
            && (EffectiveKey(profiles, r) != k || fate == DiesFirst ==> t.records[i] == r)
            && (EffectiveKey(profiles, r) == k && fate != DiesFirst ==>
                  && StoredKey(t.records[i]) == k
                  && (t.records[i].cleanup == Cleaned <==> fate == Deleted)
                  && (t.records[i].cleanup == CleanupFailed <==> fate.StoreFails? && fate.marked)
                  && (t.records[i].cleanup == Running <==>
                        fate == DiesRunning || fate == DiesAfterDelete || (fate.StoreFails? && !fate.marked)))
    ensures var t := AfterGroup(profiles, s, k, fate);
            forall n :: n in t.store <==>
              n in s.store && (n.target == TargetOf(k) ==>
                fate == DiesFirst || fate == DiesRunning || (fate.StoreFails? && !fate.gone))
  {
    hide EffectiveKey;
  }

  /** A group without an address is never deleted: its store is not called, and it is marked failed unless the
      process dies before. */
  lemma WithoutAddress(k: Key, fate: Fate)
    ensures (k.uri.Some? && k.uri.value != "") ==> Actual(k, fate) == fate
    ensures (k.uri == None || k.uri == Some("")) ==>
              && Actual(k, fate) != Deleted && Actual(k, fate) != DiesAfterDelete
              && (Actual(k, fate).StoreFails? ==> !Actual(k, fate).gone)
              && (Actual(k, fate) == DiesFirst <==> fate == DiesFirst)
              && (Actual(k, fate) == DiesRunning <==> fate == DiesRunning)
              && (Actual(k, fate).StoreFails? && Actual(k, fate).marked <==>
                    fate == Deleted || (fate.StoreFails? && fate.marked))
  {
  }

  /** The keys stand in the order in which their first records do. */
  lemma {:induction false} KeysByFirstRecord(profiles: Profiles, records: seq<Record>, a: nat, b: nat) returns (i: nat)
    requires a < b < |GroupKeys(profiles, records)|
    ensures i < |records| && EffectiveKey(profiles, records[i]) == GroupKeys(profiles, records)[a]
    ensures forall j :: 0 <= j <= i ==> EffectiveKey(profiles, records[j]) != GroupKeys(profiles, records)[b]
    decreases |records|
  {
    hide EffectiveKey;
    var init, last := records[..|records| - 1], records[|records| - 1];
    var keys := GroupKeys(profiles, init);
    GroupKeysAreAll(profiles, init);
    if b < |keys| {
      i := KeysByFirstRecord(profiles, init, a, b);
    } else {
      i := KeyOfRecord(profiles, init, a);
      forall j | 0 <= j <= i
        ensures EffectiveKey(profiles, records[j]) != GroupKeys(profiles, records)[b]
      {
        assert init[j] in init;
      }
    }
  }

  lemma {:induction false} KeyOfRecord(profiles: Profiles, records: seq<Record>, a: nat) returns (i: nat)
    requires a < |GroupKeys(profiles, records)|
    ensures i < |records| && EffectiveKey(profiles, records[i]) == GroupKeys(profiles, records)[a]
    decreases |records|
  {
    hide EffectiveKey;
    var init := records[..|records| - 1];
    if a < |GroupKeys(profiles, init)| {
      i := KeyOfRecord(profiles, init, a);
    } else {
      i := |records| - 1;
    }
  }

  /** Re-marking is complete: in a group that is cleaned every record ends up marked and names the group, and
      the records of other groups are as they were. */
  lemma {:induction false} RemarkedCompletely(profiles: Profiles, records: seq<Record>, keys: seq<Key>, n: nat, i: nat)
    requires n <= |keys| && i < |records| && Distinct(keys)
    ensures |Remarked(profiles, records, keys, n)| == |records|
    ensures var r, m, k := records[i], Remarked(profiles, records, keys, n)[i], EffectiveKey(profiles, records[i]);
            && EffectiveKey(profiles, m) == k
            && (k in keys[..n] && IsCleaned(profiles, records, k) ==> m.cleanup == Cleaned)
            && (k !in keys[..n] || !IsCleaned(profiles, records, k) ==> m == r)
            && (m == r || m == r.(workspace := k.workspace, uri := k.uri, username := k.username, cleanup := Cleaned))
    decreases n
  {
    hide EffectiveKey, IsCleaned, IsOpen;
    if n > 0 {
      RemarkedCompletely(profiles, records, keys, n - 1, i);
      var before, k := Remarked(profiles, records, keys, n - 1), keys[n - 1];
      RemarkingKeepsGroups(profiles, records, keys, n - 1);
      assert SameGroups(profiles, records, before);
      assert keys[..n] == keys[..n - 1] + [k];
      assert before[i] in before;
      MarkersKeepGroups(profiles, before[i], k, Cleaned);
    } else {
      assert keys[..0] == [];
    }
  }
}
