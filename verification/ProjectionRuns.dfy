/**
 Runs of the graph projection of one document: enqueueing a projection, writing the pending one, and
 deletes that are cut off anywhere. After a delete that returns, no store holds the document.
 */
module ProjectionRuns {
  import opened Wrappers
  import opened Sequences
  import opened CleanupSaga

  // ----- what writing a projection does to the groups

  lemma StoredReaches(profiles: Profiles, r: Record)
    requires HasTarget(StoredKey(r))
    ensures Reaches(EffectiveKey(profiles, r), TargetOf(StoredKey(r)))
  {
  }

  lemma WrittenMembers(profiles: Profiles, records: seq<Record>, i: nat, w: Record, k: Key)
    requires i < |records| && HasTarget(StoredKey(w)) && k != StoredKey(w)
    requires EffectiveKey(profiles, w) == EffectiveKey(profiles, records[i]) == StoredKey(w)
    ensures forall r :: EffectiveKey(profiles, r) == k ==>
              (r in Filter(records[i := w], KeptTest(w)) <==> r in Filter(records, KeptTest(w)))
    ensures !Reaches(k, TargetOf(StoredKey(w))) ==>
              forall r :: EffectiveKey(profiles, r) == k ==> (r in Filter(records, KeptTest(w)) <==> r in records)
  {
    hide EffectiveKey, Reaches, HasTarget, StoredKey;
    SwapMembers(records, i, w);
    forall r | EffectiveKey(profiles, r) == k
      ensures r in Filter(records[i := w], KeptTest(w)) <==> r in Filter(records, KeptTest(w))
      ensures !Reaches(k, TargetOf(StoredKey(w))) ==> (r in Filter(records, KeptTest(w)) <==> r in records)
    {
      FilterMembers(records[i := w], KeptTest(w), r);
      FilterMembers(records, KeptTest(w), r);
      if StoredKey(r) == StoredKey(w) {
        StoredReaches(profiles, r);
      }
    }
  }

  lemma SameMembersSameGroup(profiles: Profiles, a: seq<Record>, b: seq<Record>, k: Key)
    requires forall r :: EffectiveKey(profiles, r) == k ==> (r in a <==> r in b)
    ensures IsOpen(profiles, a, k) == IsOpen(profiles, b, k) && IsCleaned(profiles, a, k) == IsCleaned(profiles, b, k)
  {
    hide EffectiveKey, NeedsCleanup;
  }

  lemma IdIsUnique(records: seq<Record>, i: nat, x: Record)
    requires UniqueIds(records) && i < |records| && x in records && x.id == records[i].id
    ensures x == records[i]
  {
    var j :| 0 <= j < |records| && records[j] == x;
  }

  /** The group of the record that was written is open unless that record is marked cleaned: the records
      of the group that are marked name the target, so the write pruned them. */
  lemma WrittenGroup(profiles: Profiles, records: seq<Record>, i: nat, w: Record)
    requires AllSound(profiles, records) && i < |records|
    requires w.id == records[i].id && w.cleanup == records[i].cleanup && (NeedsCleanup(w) <==> !w.cleanup.Cleaned?)
    requires EffectiveKey(profiles, w) == EffectiveKey(profiles, records[i]) == StoredKey(w)
    ensures IsOpen(profiles, Filter(records[i := w], KeptTest(w)), StoredKey(w)) <==> !w.cleanup.Cleaned?
  {
    hide EffectiveKey, NeedsCleanup, StoredKey, UniqueIds;
    var after := Filter(records[i := w], KeptTest(w));
    SwapMembers(records, i, w);
    FilterMembers(records[i := w], KeptTest(w), w);
    assert w in after;
    if !w.cleanup.Cleaned? {
      forall x | x in after && EffectiveKey(profiles, x) == StoredKey(w)
        ensures !x.cleanup.Cleaned?
      {
        FilterMembers(records[i := w], KeptTest(w), x);
        if x != w && x.cleanup.Cleaned? {
          assert Sound(profiles, x);
          IdIsUnique(records, i, x);
          assert false;
        }
      }
    }
  }

  // ----- writing keeps the stores covered

  /** Writing a projection keeps the stores covered exactly when it wrote no node, or wrote for a record
      that is not marked cleaned, or another open group happens to reach the same target. */
  lemma WriteKeepsCovered(profiles: Profiles, s: Saga, write: Write)
    requires Named(profiles) && Good(profiles, s) && Writes(profiles, s, write)
    ensures Covered(profiles, Materialized(profiles, s, write)) <==>
              || write.nodes == {}
              || !Picked(s.records).value.cleanup.Cleaned?
              || OtherOpen(profiles, s.records, AfterWrite(profiles, Picked(s.records).value, write))
  {
    hide IsOpen, IsCleaned, AllSound, AfterWrite, Reaches, EffectiveKey, StoredKey, HasTarget, NeedsCleanup;
    var i := LastPending(s.records).value;
    var w := AfterWrite(profiles, s.records[i], write);
    var t := Materialized(profiles, s, write);
    WrittenRecord(profiles, s.records[i], write);
    WrittenGroup(profiles, s.records, i, w);
    assert t.records == Filter(s.records[i := w], KeptTest(w));
    OldNodesCovered(profiles, s, i, w);
    NewNodesCovered(profiles, s.records, i, w);
    var target := TargetOf(StoredKey(w));
    if write.nodes != {} {
      var node :| node in write.nodes;
      assert Stored(target, node) in t.store;
    }
    assert forall n :: n in t.store ==>
        (n.target == target && n.node in write.nodes) || (n in s.store && n.target != target);
  }

  lemma OldNodesCovered(profiles: Profiles, s: Saga, i: nat, w: Record)
    requires Covered(profiles, s) && i < |s.records| && HasTarget(StoredKey(w))
    requires EffectiveKey(profiles, w) == EffectiveKey(profiles, s.records[i]) == StoredKey(w)
    ensures forall n :: n in s.store && n.target != TargetOf(StoredKey(w)) ==>
              IsCovered(profiles, Filter(s.records[i := w], KeptTest(w)), n.target)
  {
    hide IsOpen, IsCleaned, EffectiveKey, NeedsCleanup, StoredKey;
    var after := Filter(s.records[i := w], KeptTest(w));
    forall n | n in s.store && n.target != TargetOf(StoredKey(w))
      ensures IsCovered(profiles, after, n.target)
    {
      assert IsCovered(profiles, s.records, n.target);
      var k :| IsOpen(profiles, s.records, k) && Reaches(k, n.target);
      WrittenMembers(profiles, s.records, i, w, k);
      SameMembersSameGroup(profiles, after, s.records, k);
    }
  }

  lemma NewNodesCovered(profiles: Profiles, records: seq<Record>, i: nat, w: Record)
    requires i < |records| && HasTarget(StoredKey(w))
    requires EffectiveKey(profiles, w) == EffectiveKey(profiles, records[i]) == StoredKey(w)
    requires IsOpen(profiles, Filter(records[i := w], KeptTest(w)), StoredKey(w)) <==> !w.cleanup.Cleaned?
    ensures IsCovered(profiles, Filter(records[i := w], KeptTest(w)), TargetOf(StoredKey(w))) <==>
              !w.cleanup.Cleaned? || OtherOpen(profiles, records, w)
  {
    hide IsOpen, IsCleaned, EffectiveKey, NeedsCleanup;
    var after := Filter(records[i := w], KeptTest(w));
    var target := TargetOf(StoredKey(w));
    assert Reaches(StoredKey(w), target);
    forall k | k != StoredKey(w)
      ensures IsOpen(profiles, after, k) == IsOpen(profiles, Filter(records, KeptTest(w)), k)
    {
      WrittenMembers(profiles, records, i, w, k);
      SameMembersSameGroup(profiles, after, Filter(records, KeptTest(w)), k);
    }
  }

  // ----- writing keeps the records sound

  lemma {:induction false} FilterUniqueIds(records: seq<Record>, p: Record -> bool)
    requires UniqueIds(records)
    ensures UniqueIds(Filter(records, p))
    decreases |records|
  {
    if records != [] {
      var init, last := records[..|records| - 1], records[|records| - 1];
      FilterUniqueIds(init, p);
      forall i | 0 <= i < |Filter(init, p)|
        ensures Filter(init, p)[i].id != last.id
      {
        FilterMembers(init, p, Filter(init, p)[i]);
        var j :| 0 <= j < |init| && init[j] == Filter(init, p)[i];
        assert records[j].id != records[|records| - 1].id;
      }
    }
  }

  lemma SwapSound(profiles: Profiles, records: seq<Record>, i: nat, w: Record)
    requires AllSound(profiles, records) && i < |records| && w.id == records[i].id && Sound(profiles, w)
    ensures AllSound(profiles, records[i := w])
  {
    hide Sound;
    SwapMembers(records, i, w);
  }

  lemma FilterSound(profiles: Profiles, records: seq<Record>, p: Record -> bool)
    requires AllSound(profiles, records)
    ensures AllSound(profiles, Filter(records, p))
  {
    hide Sound;
    FilterUniqueIds(records, p);
    forall r | r in Filter(records, p)
      ensures Sound(profiles, r)
    {
      FilterMembers(records, p, r);
    }
  }

  lemma WrittenIsSound(profiles: Profiles, r: Record, write: Write)
    requires Named(profiles) && write.Written? && AfterWrite(profiles, r, write).status.Succeeded?
    ensures Sound(profiles, AfterWrite(profiles, r, write))
  {
    WrittenRecord(profiles, r, write);
  }

  lemma MaterializedIsSound(profiles: Profiles, s: Saga, write: Write)
    requires Named(profiles) && AllSound(profiles, s.records)
    ensures AllSound(profiles, Materialized(profiles, s, write).records)
  {
    hide AfterWrite, Sound, UniqueIds;
    if Picked(s.records).Some? {
      var i := LastPending(s.records).value;
      var w := AfterWrite(profiles, s.records[i], write);
      assert Sound(profiles, s.records[i]);
      if Writes(profiles, s, write) {
        WrittenRecord(profiles, s.records[i], write);
        WrittenIsSound(profiles, s.records[i], write);
        SwapSound(profiles, s.records, i, w);
        FilterSound(profiles, s.records[i := w], KeptTest(w));
      } else {
        UnwrittenRecord(profiles, s.records[i], write);
        SwapSound(profiles, s.records, i, w);
      }
    }
  }

  /** A write that fails or is skipped leaves the groups and the stores alone. */
  lemma UnwrittenKeepsGroups(profiles: Profiles, s: Saga, write: Write)
    requires AllSound(profiles, s.records) && !Writes(profiles, s, write)
    ensures SameGroups(profiles, s.records, Materialized(profiles, s, write).records)
    ensures Materialized(profiles, s, write).store == s.store
  {
    hide AfterWrite, Sound, UniqueIds, IsOpen, IsCleaned;
    if Picked(s.records).Some? {
      var i := LastPending(s.records).value;
      assert Sound(profiles, s.records[i]);
      UnwrittenRecord(profiles, s.records[i], write);
      SwapKeepsGroups(profiles, s.records, i, AfterWrite(profiles, s.records[i], write));
    }
  }

  // ----- a delete keeps the records sound

  lemma MarkedIsSound(profiles: Profiles, r: Record, k: Key, c: Cleanup)
    requires Sound(profiles, r)
    requires c.Cleaned? || EffectiveKey(profiles, r) != k || !r.cleanup.Cleaned?
    ensures Sound(profiles, Marked(profiles, r, k, c))
  {
    MarkersKeepGroups(profiles, r, k, c);
  }

  lemma MarkSound(profiles: Profiles, records: seq<Record>, k: Key, c: Cleanup)
    requires AllSound(profiles, records) && (c.Cleaned? || !IsCleaned(profiles, records, k))
    ensures AllSound(profiles, Mark(profiles, records, k, c))
  {
    hide Sound, EffectiveKey;
    var marked := Mark(profiles, records, k, c);
    forall m | m in marked
      ensures Sound(profiles, m)
    {
      var i :| 0 <= i < |marked| && marked[i] == m;
      assert records[i] in records;
      MarkedIsSound(profiles, records[i], k, c);
    }
  }

  lemma {:induction false} RemarkedSound(profiles: Profiles, records: seq<Record>, keys: seq<Key>, n: nat)
    requires n <= |keys| && AllSound(profiles, records)
    ensures AllSound(profiles, Remarked(profiles, records, keys, n))
    decreases n
  {
    hide AllSound, IsCleaned, AllCleaned, Mark;
    if n > 0 {
      RemarkedSound(profiles, records, keys, n - 1);
      MarkSound(profiles, Remarked(profiles, records, keys, n - 1), keys[n - 1], Cleaned);
    }
  }

  lemma GroupSound(profiles: Profiles, s: Saga, k: Key, fate: Fate)
    requires AllSound(profiles, s.records) && !IsCleaned(profiles, s.records, k)
    ensures AllSound(profiles, AfterGroup(profiles, s, k, fate).records)
  {
    hide AllSound, IsCleaned, Mark;
    MarkSound(profiles, s.records, k, Running);
    MarkSound(profiles, s.records, k, CleanupFailed);
    MarkSound(profiles, s.records, k, Cleaned);
  }

  lemma {:induction false} ProgressSound(profiles: Profiles, s: Saga, keys: seq<Key>, n: nat)
    requires n <= |keys| && AreOpenKeys(profiles, s.records, keys) && AllSound(profiles, s.records)
    ensures AllSound(profiles, Progress(profiles, s, keys, n).records)
    decreases n
  {
    hide AllSound, IsCleaned, IsOpen, AfterGroup;
    if n > 0 {
      ProgressSound(profiles, s, keys, n - 1);
      ProgressDeletes(profiles, s, keys, n - 1);
      assert keys[n - 1] in keys[n - 1..];
      OpenIsNotCleaned(profiles, Progress(profiles, s, keys, n - 1).records, keys[n - 1]);
      GroupSound(profiles, Progress(profiles, s, keys, n - 1), keys[n - 1], Deleted);
    }
  }

  lemma AttemptedSound(profiles: Profiles, s: Saga, fates: seq<Fate>)
    requires AllSound(profiles, s.records)
    ensures AllSound(profiles, Attempted(profiles, s, fates).records)
  {
    hide AllSound, IsCleaned, IsOpen, AfterGroup, OpenKeys, Succeeds, NoTarget, Actual, Progress;
    var keys := OpenKeys(profiles, s.records);
    var done := DoneFrom(profiles, s.records, keys, fates, 0);
    OpenKeysAreOpen(profiles, s.records);
    ProgressSound(profiles, s, keys, done);
    ProgressDeletes(profiles, s, keys, done);
    if done < |keys| {
      assert keys[done] in keys[done..];
      OpenIsNotCleaned(profiles, Progress(profiles, s, keys, done).records, keys[done]);
      GroupSound(profiles, Progress(profiles, s, keys, done), keys[done], Actual(keys[done], FateAt(fates, done)));
    }
  }

  // ----- runs

  /** What happens to the projection of the document: a record is enqueued; the pending one is written; it
      is written to the store, but the record of that is lost; a record is set to skipped; a delete is
      attempted, which dies after it re-marked some groups, or goes on to the stores, and whose own
      transaction is committed or not; a service without settings deletes the document, and with it the
      records, but calls no store. */
  datatype Event =
    | Enqueue(record: Record)
    | Materialize(write: Write)
    | Lose(write: Write)
    | Skip(id: nat)
    | Delete(diesAfter: Option<nat>, fates: seq<Fate>, commits: bool)
    | Drop(commits: bool)

  /** The store took the projection, but the transaction with the record was not committed. */
  function Lost(profiles: Profiles, s: Saga, write: Write): Saga {
    Saga(s.records, Materialized(profiles, s, write).store)
  }

  function SkippedIf(r: Record, id: nat): Record {
    if r.id == id then Ended(r, Skipped, 0, 0) else r
  }

  function SkippedRecords(records: seq<Record>, id: nat): (skipped: seq<Record>)
    ensures |skipped| == |records|
    ensures forall i :: 0 <= i < |records| ==> skipped[i] == SkippedIf(records[i], id)
  {
    seq(|records|, i requires 0 <= i < |records| => SkippedIf(records[i], id))
  }

  function Remarks(profiles: Profiles, s: Saga, diesAfter: Option<nat>): nat
    ensures Remarks(profiles, s, diesAfter) <= |GroupKeys(profiles, s.records)|
  {
    var all := |GroupKeys(profiles, s.records)|;
    if diesAfter.Some? && diesAfter.value < all then diesAfter.value else all
  }

  predicate DiesRemarking(profiles: Profiles, s: Saga, diesAfter: Option<nat>) {
    diesAfter.Some? && diesAfter.value < |GroupKeys(profiles, s.records)|
  }

  /** The state when a delete begins to call the stores, or dies before. */
  function AfterRemarks(profiles: Profiles, s: Saga, diesAfter: Option<nat>): Saga {
    Saga(Remarked(profiles, s.records, GroupKeys(profiles, s.records), Remarks(profiles, s, diesAfter)), s.store)
  }

  /** The markers and stores as a delete leaves them, its own transaction apart. */
  function AfterDelete(profiles: Profiles, s: Saga, diesAfter: Option<nat>, fates: seq<Fate>): Saga {
    var t := AfterRemarks(profiles, s, diesAfter);
    if DiesRemarking(profiles, s, diesAfter) then t else Attempted(profiles, t, fates)
  }

  /** The delete returns to its caller. */
  predicate Returns(profiles: Profiles, s: Saga, diesAfter: Option<nat>, fates: seq<Fate>) {
    !DiesRemarking(profiles, s, diesAfter) && Finishes(profiles, AfterRemarks(profiles, s, diesAfter), fates)
  }

  function Step(profiles: Profiles, s: Saga, e: Event): Saga {
    match e
    case Enqueue(r) => Saga(s.records + [r], s.store)
    case Materialize(write) => Materialized(profiles, s, write)
    case Lose(write) => Lost(profiles, s, write)
    case Skip(id) => Saga(SkippedRecords(s.records, id), s.store)
    case Delete(diesAfter, fates, commits) =>
      var t := AfterDelete(profiles, s, diesAfter, fates);
      if Returns(profiles, s, diesAfter, fates) && commits then Saga([], t.store) else t
    case Drop(commits) => if commits then Saga([], s.store) else s
  }

  function Run(profiles: Profiles, s: Saga, events: seq<Event>): Saga {
    if events == [] then s else Step(profiles, Run(profiles, s, events[..|events| - 1]), events[|events| - 1])
  }

  /** The record that is written is not marked cleaned, or nothing is written that no other open group
      reaches. */
  ghost predicate WriteIsSafe(profiles: Profiles, s: Saga, write: Write) {
    Writes(profiles, s, write) ==>
      var r := Picked(s.records).value;
      write.nodes == {} || !r.cleanup.Cleaned? || OtherOpen(profiles, s.records, AfterWrite(profiles, r, write))
  }

  /** A write that is lost stored nothing, or an open group reaches its target already. */
  ghost predicate LossIsSafe(profiles: Profiles, s: Saga, write: Write) {
    Writes(profiles, s, write) ==>
      || write.nodes == {}
      || IsCovered(profiles, s.records, TargetOf(StoredKey(AfterWrite(profiles, Picked(s.records).value, write))))
  }

  /** The group of the record that is set to skipped was not open, or stays open, or the stores hold
      nothing that only this group reaches. */
  ghost predicate SkipIsSafe(profiles: Profiles, s: Saga, id: nat) {
    forall r :: r in s.records && r.id == id && IsOpen(profiles, s.records, EffectiveKey(profiles, r)) ==>
      || IsOpen(profiles, SkippedRecords(s.records, id), EffectiveKey(profiles, r))
      || OthersReach(profiles, s, EffectiveKey(profiles, r), SkippedRecords(s.records, id))
  }

  /** An open group among these records reaches whatever the stores hold at the target of this one. */
  ghost predicate OthersReach(profiles: Profiles, s: Saga, k: Key, records: seq<Record>) {
    forall n :: n in s.store && Reaches(k, n.target) ==> IsCovered(profiles, records, n.target)
  }

  /** A record is enqueued empty, under a new id. */
  ghost predicate Fresh(records: seq<Record>, r: Record) {
    && r.status.Pending? && r.nodes == 0 && r.edges == 0 && r.cleanup.NotTried?
    && forall x :: x in records ==> x.id != r.id
  }

  /** A fresh record is enqueued; what is written, lost or skipped is safe; the records are dropped when the
      stores are empty. */
  ghost predicate Allowed(profiles: Profiles, s: Saga, e: Event) {
    match e
    case Enqueue(r) => Fresh(s.records, r)
    case Materialize(write) => WriteIsSafe(profiles, s, write)
    case Lose(write) => LossIsSafe(profiles, s, write)
    case Skip(id) => SkipIsSafe(profiles, s, id)
    case Delete(_, _, _) => true
    case Drop(commits) => commits ==> s.store == {}
  }

  ghost predicate AllowedRun(profiles: Profiles, s: Saga, events: seq<Event>) {
    events != [] ==>
      var init := events[..|events| - 1];
      AllowedRun(profiles, s, init) && Allowed(profiles, Run(profiles, s, init), events[|events| - 1])
  }

  lemma EnqueueKeepsGroups(profiles: Profiles, records: seq<Record>, r: Record)
    requires Fresh(records, r)
    ensures SameGroups(profiles, records, records + [r])
  {
    hide EffectiveKey, StoredKey, HasTarget, Reaches;
    var after := records + [r];
    assert forall x :: x in after <==> x in records || x == r;
    forall k
      ensures IsOpen(profiles, after, k) == IsOpen(profiles, records, k)
      ensures IsCleaned(profiles, after, k) == IsCleaned(profiles, records, k)
    {
    }
  }

  lemma EnqueueIsSound(profiles: Profiles, records: seq<Record>, r: Record)
    requires AllSound(profiles, records) && Fresh(records, r)
    ensures AllSound(profiles, records + [r])
  {
    hide EffectiveKey;
    var after := records + [r];
    assert Sound(profiles, r);
    forall i, j | 0 <= i < j < |after|
      ensures after[i].id != after[j].id
    {
      if j == |records| {
        assert after[i] in records;
      }
    }
  }

  lemma EnqueueIsGood(profiles: Profiles, s: Saga, r: Record)
    requires Good(profiles, s) && Fresh(s.records, r)
    ensures Good(profiles, Saga(s.records + [r], s.store))
  {
    hide AllSound, Fresh, SameGroups, Covered;
    EnqueueKeepsGroups(profiles, s.records, r);
    SameGroupsCover(profiles, s, s.records + [r]);
    EnqueueIsSound(profiles, s.records, r);
  }

  lemma MaterializeIsGood(profiles: Profiles, s: Saga, write: Write)
    requires Named(profiles) && Good(profiles, s)
    ensures Good(profiles, Materialized(profiles, s, write)) <==> WriteIsSafe(profiles, s, write)
  {
    hide IsOpen, IsCleaned, AllSound, Materialized, AfterWrite, OtherOpen, Covered;
    MaterializedIsSound(profiles, s, write);
    if Writes(profiles, s, write) {
      WriteKeepsCovered(profiles, s, write);
    } else {
      UnwrittenKeepsGroups(profiles, s, write);
      SameGroupsCover(profiles, s, Materialized(profiles, s, write).records);
    }
  }

  /** What a write does to the stores. */
  lemma WrittenStore(profiles: Profiles, s: Saga, write: Write)
    ensures Materialized(profiles, s, write).store ==
              if Writes(profiles, s, write) then
                var t := TargetOf(StoredKey(AfterWrite(profiles, Picked(s.records).value, write)));
                Without(s.store, t) + Holding(t, write.nodes)
              else s.store
  {
    hide AfterWrite, StoredKey;
  }

  lemma LossIsGood(profiles: Profiles, s: Saga, write: Write)
    requires Good(profiles, s)
    ensures Good(profiles, Lost(profiles, s, write)) <==> LossIsSafe(profiles, s, write)
  {
    hide IsOpen, IsCleaned, AllSound, Materialized, AfterWrite, IsCovered, StoredKey;
    WrittenStore(profiles, s, write);
    if Writes(profiles, s, write) {
      LostNodes(profiles, s, TargetOf(StoredKey(AfterWrite(profiles, Picked(s.records).value, write))), write.nodes);
    }
  }

  /** Nodes that no record tells of are covered only when an open group reaches their target anyway. */
  lemma LostNodes(profiles: Profiles, s: Saga, t: Target, nodes: set<string>)
    requires Covered(profiles, s)
    ensures Covered(profiles, Saga(s.records, Without(s.store, t) + Holding(t, nodes))) <==>
              nodes == {} || IsCovered(profiles, s.records, t)
  {
    hide IsOpen, Reaches, IsCovered;
    var store := Without(s.store, t) + Holding(t, nodes);
    if nodes != {} {
      var node :| node in nodes;
      assert Stored(t, node) in store;
    }
  }

  // ----- setting a record to skipped

  lemma SkippedMembers(records: seq<Record>, id: nat)
    ensures forall r :: r in records ==> SkippedIf(r, id) in SkippedRecords(records, id)
    ensures forall m :: m in SkippedRecords(records, id) ==> exists r :: r in records && m == SkippedIf(r, id)
  {
    hide SkippedIf;
    var skipped := SkippedRecords(records, id);
    forall r | r in records
      ensures SkippedIf(r, id) in skipped
    {
      var i :| 0 <= i < |records| && records[i] == r;
      assert skipped[i] == SkippedIf(r, id);
    }
    forall m | m in skipped
      ensures exists r :: r in records && m == SkippedIf(r, id)
    {
      var i :| 0 <= i < |skipped| && skipped[i] == m;
      assert records[i] in records;
    }
  }

  lemma SkippedRecord(profiles: Profiles, r: Record, id: nat)
    ensures EffectiveKey(profiles, SkippedIf(r, id)) == EffectiveKey(profiles, r)
    ensures SkippedIf(r, id).cleanup == r.cleanup && SkippedIf(r, id).id == r.id
    ensures Sound(profiles, r) ==> Sound(profiles, SkippedIf(r, id))
    ensures NeedsCleanup(SkippedIf(r, id)) <==> NeedsCleanup(r) && r.id != id
  {
  }

  /** A record that was set to skipped waits no more and has no counts; the others are as they were. */
  lemma SkippedWaitsNoMore(records: seq<Record>, id: nat, i: nat)
    requires i < |records|
    ensures var r, m := records[i], SkippedRecords(records, id)[i];
            && m.id == r.id && m.cleanup == r.cleanup && StoredKey(m) == StoredKey(r) && m.profile == r.profile
            && (r.id == id ==> m.status == Status.Skipped && m.nodes == 0 && m.edges == 0)
            && (r.id != id ==> m == r)
  {
  }

  /** Setting a record to skipped marks no group cleaned and opens none; it can close the group of the record. */
  lemma SkipGroups(profiles: Profiles, records: seq<Record>, id: nat, k: Key)
    ensures IsCleaned(profiles, SkippedRecords(records, id), k) == IsCleaned(profiles, records, k)
    ensures IsOpen(profiles, SkippedRecords(records, id), k) ==> IsOpen(profiles, records, k)
    ensures (forall r :: r in records && r.id == id ==> EffectiveKey(profiles, r) != k) ==>
              IsOpen(profiles, SkippedRecords(records, id), k) == IsOpen(profiles, records, k)
  {
    hide EffectiveKey, NeedsCleanup, SkippedIf;
    SkippedMembers(records, id);
    forall r: Record
      ensures EffectiveKey(profiles, SkippedIf(r, id)) == EffectiveKey(profiles, r)
      ensures SkippedIf(r, id).cleanup == r.cleanup
      ensures NeedsCleanup(SkippedIf(r, id)) <==> NeedsCleanup(r) && r.id != id
    {
      SkippedRecord(profiles, r, id);
    }
  }

  lemma SkippedSound(profiles: Profiles, records: seq<Record>, id: nat)
    requires AllSound(profiles, records)
    ensures AllSound(profiles, SkippedRecords(records, id))
  {
    hide Sound, SkippedIf;
    var skipped := SkippedRecords(records, id);
    forall i, j | 0 <= i < j < |skipped|
      ensures skipped[i].id != skipped[j].id
    {
      SkippedRecord(profiles, records[i], id);
      SkippedRecord(profiles, records[j], id);
    }
    forall m | m in skipped
      ensures Sound(profiles, m)
    {
      SkippedMembers(records, id);
      var r :| r in records && m == SkippedIf(r, id);
      SkippedRecord(profiles, r, id);
    }
  }

  /** Setting a record to skipped keeps the stores covered exactly when it is safe. */
  lemma SkipIsGood(profiles: Profiles, s: Saga, id: nat)
    requires Good(profiles, s)
    ensures Good(profiles, Saga(SkippedRecords(s.records, id), s.store)) <==> SkipIsSafe(profiles, s, id)
  {
    hide IsOpen, AllSound, EffectiveKey, Reaches;
    var after := SkippedRecords(s.records, id);
    SkippedSound(profiles, s.records, id);
    if SkipIsSafe(profiles, s, id) {
      forall n | n in s.store
        ensures IsCovered(profiles, after, n.target)
      {
        assert IsCovered(profiles, s.records, n.target);
        var k :| IsOpen(profiles, s.records, k) && Reaches(k, n.target);
        SkipGroups(profiles, s.records, id, k);
      }
    }
    if Covered(profiles, Saga(after, s.store)) {
      assert forall n :: n in s.store ==> IsCovered(profiles, after, n.target);
    }
  }

  /** Indexing sets a record to skipped that it enqueued and that still waits, which is safe. */
  lemma PendingIsSkipped(profiles: Profiles, s: Saga, r: Record)
    requires AllSound(profiles, s.records) && r in s.records && r.status.Pending?
    ensures Allowed(profiles, s, Skip(r.id))
  {
    hide EffectiveKey;
    var after := SkippedRecords(s.records, r.id);
    var i :| 0 <= i < |s.records| && s.records[i] == r;
    var k := EffectiveKey(profiles, r);
    forall x | x in s.records && x.id == r.id
      ensures x == r
    {
      IdIsUnique(s.records, i, x);
    }
    assert Sound(profiles, r);
    if IsOpen(profiles, s.records, k) {
      SkipGroups(profiles, s.records, r.id, k);
      SkippedMembers(s.records, r.id);
      var x :| x in s.records && EffectiveKey(profiles, x) == k && NeedsCleanup(x);
      assert x.id != r.id && SkippedIf(x, r.id) == x;
    }
  }

  lemma RemarksAreSound(profiles: Profiles, s: Saga, diesAfter: Option<nat>)
    requires AllSound(profiles, s.records)
    ensures AllSound(profiles, AfterRemarks(profiles, s, diesAfter).records)
  {
    hide AllSound, Remarked, GroupKeys;
    RemarkedSound(profiles, s.records, GroupKeys(profiles, s.records), Remarks(profiles, s, diesAfter));
  }

  lemma RemarksKeepCovered(profiles: Profiles, s: Saga, diesAfter: Option<nat>)
    ensures Covered(profiles, AfterRemarks(profiles, s, diesAfter)) <==> Covered(profiles, s)
  {
    hide SameGroups, Covered, Remarked, GroupKeys;
    var keys, n := GroupKeys(profiles, s.records), Remarks(profiles, s, diesAfter);
    var t := AfterRemarks(profiles, s, diesAfter);
    RemarkingKeepsGroups(profiles, s.records, keys, n);
    SameGroupsBack(profiles, s.records, t.records);
    if Covered(profiles, s) {
      SameGroupsCover(profiles, s, t.records);
    }
    if Covered(profiles, t) {
      SameGroupsCover(profiles, t, s.records);
    }
  }

  lemma SameGroupsBack(profiles: Profiles, a: seq<Record>, b: seq<Record>)
    requires SameGroups(profiles, a, b)
    ensures SameGroups(profiles, b, a)
  {
    hide IsOpen, IsCleaned;
  }

  lemma DeleteIsSound(profiles: Profiles, s: Saga, diesAfter: Option<nat>, fates: seq<Fate>)
    requires AllSound(profiles, s.records)
    ensures AllSound(profiles, AfterDelete(profiles, s, diesAfter, fates).records)
  {
    hide AllSound, Attempted, AfterRemarks;
    RemarksAreSound(profiles, s, diesAfter);
    AttemptedSound(profiles, AfterRemarks(profiles, s, diesAfter), fates);
  }

  lemma DeleteIsGood(profiles: Profiles, s: Saga, diesAfter: Option<nat>, fates: seq<Fate>)
    requires Good(profiles, s)
    ensures Good(profiles, AfterDelete(profiles, s, diesAfter, fates))
  {
    hide AllSound, Covered, Attempted, AfterRemarks;
    DeleteIsSound(profiles, s, diesAfter, fates);
    RemarksKeepCovered(profiles, s, diesAfter);
    DeleteKeepsCovered(profiles, AfterRemarks(profiles, s, diesAfter), fates);
  }

  /** A delete that returns leaves no group to clean, and no node of the document in any store exactly when
      the open groups covered all that the stores held. */
  lemma ReturnedMeansGone(profiles: Profiles, s: Saga, diesAfter: Option<nat>, fates: seq<Fate>)
    requires Named(profiles) && Returns(profiles, s, diesAfter, fates)
    ensures AfterDelete(profiles, s, diesAfter, fates).store == {} <==> Covered(profiles, s)
    ensures forall k :: !IsOpen(profiles, AfterDelete(profiles, s, diesAfter, fates).records, k)
  {
    hide Covered, Attempted, AfterRemarks, IsOpen, Finishes;
    RemarksKeepCovered(profiles, s, diesAfter);
    FinishedMeansGone(profiles, AfterRemarks(profiles, s, diesAfter), fates);
  }

  /** An event other than enqueueing keeps a good state good exactly when it is allowed. */
  lemma StepIsGoodExactly(profiles: Profiles, s: Saga, e: Event)
    requires Named(profiles) && Good(profiles, s) && !e.Enqueue?
    ensures Good(profiles, Step(profiles, s, e)) <==> Allowed(profiles, s, e)
  {
    hide Good, Returns, AfterDelete, Materialized, Lost, WriteIsSafe, LossIsSafe, SkipIsSafe;
    match e
    case Enqueue(r) =>
    case Materialize(write) => MaterializeIsGood(profiles, s, write);
    case Lose(write) => LossIsGood(profiles, s, write);
    case Skip(id) => SkipIsGood(profiles, s, id);
    case Delete(diesAfter, fates, commits) =>
      DeleteIsGood(profiles, s, diesAfter, fates);
      if Returns(profiles, s, diesAfter, fates) {
        GoodIsCovered(profiles, s);
        ReturnedMeansGone(profiles, s, diesAfter, fates);
        NothingIsGood(profiles);
      }
    case Drop(commits) =>
      DropIsGood(profiles, s.store);
  }

  /** Without records nothing that a store holds is ever looked for. */
  lemma DropIsGood(profiles: Profiles, store: set<Stored>)
    ensures Good(profiles, Saga([], store)) <==> store == {}
  {
    forall n | n in store
      ensures !IsCovered(profiles, [], n.target)
    {
    }
    if store != {} {
      var n :| n in store;
      assert !IsCovered(profiles, [], n.target);
    }
  }

  lemma GoodIsCovered(profiles: Profiles, s: Saga)
    requires Good(profiles, s)
    ensures Covered(profiles, s)
  {
  }

  lemma GoodIsSound(profiles: Profiles, s: Saga)
    requires Good(profiles, s)
    ensures AllSound(profiles, s.records)
  {
  }

  lemma StepIsGood(profiles: Profiles, s: Saga, e: Event)
    requires Named(profiles) && Good(profiles, s) && Allowed(profiles, s, e)
    ensures Good(profiles, Step(profiles, s, e))
  {
    hide Good, Fresh, WriteIsSafe, LossIsSafe, SkipIsSafe, Returns, AfterDelete, Materialized;
    match e
    case Enqueue(r) => EnqueueIsGood(profiles, s, r);
    case _ => StepIsGoodExactly(profiles, s, e);
  }

  lemma NothingIsGood(profiles: Profiles)
    ensures Good(profiles, Saga([], {}))
  {
  }

  lemma {:induction false} RunIsGood(profiles: Profiles, s: Saga, events: seq<Event>)
    requires Named(profiles) && Good(profiles, s) && AllowedRun(profiles, s, events)
    ensures Good(profiles, Run(profiles, s, events))
    decreases |events|
  {
    hide Good, Allowed, Step;
    if events != [] {
      var init := events[..|events| - 1];
      RunIsGood(profiles, s, init);
      StepIsGood(profiles, Run(profiles, s, init), events[|events| - 1]);
    }
  }

  /** Whatever happened to the document before, and however often deletes were cut off: a delete that
      returns leaves nothing of it in any store. */
  lemma DeletedDocumentIsGone(profiles: Profiles, events: seq<Event>, diesAfter: Option<nat>, fates: seq<Fate>)
    requires Named(profiles) && AllowedRun(profiles, Saga([], {}), events)
    requires Returns(profiles, Run(profiles, Saga([], {}), events), diesAfter, fates)
    ensures AfterDelete(profiles, Run(profiles, Saga([], {}), events), diesAfter, fates).store == {}
  {
    hide Good, Allowed, Returns, AfterDelete, Run;
    NothingIsGood(profiles);
    RunIsGood(profiles, Saga([], {}), events);
    GoodIsCovered(profiles, Run(profiles, Saga([], {}), events));
    ReturnedMeansGone(profiles, Run(profiles, Saga([], {}), events), diesAfter, fates);
  }

  lemma SoundAndCovered(profiles: Profiles, s: Saga)
    requires AllSound(profiles, s.records)
    ensures Good(profiles, s) <==> Covered(profiles, s)
  {
  }

  /** The condition is exact: after an event that is not allowed, a delete that returns next leaves nodes of
      the document behind. */
  lemma GoneOnlyWhenAllowed(profiles: Profiles, s: Saga, e: Event, diesAfter: Option<nat>, fates: seq<Fate>)
    requires Named(profiles) && Good(profiles, s) && !e.Enqueue?
    requires Returns(profiles, Step(profiles, s, e), diesAfter, fates)
    ensures AfterDelete(profiles, Step(profiles, s, e), diesAfter, fates).store == {} <==> Allowed(profiles, s, e)
  {
    hide Good, Allowed, Returns, AfterDelete, Step, Covered, AllSound;
    StepIsGoodExactly(profiles, s, e);
    GoodIsSound(profiles, s);
    StepIsSound(profiles, s, e);
    SoundAndCovered(profiles, Step(profiles, s, e));
    ReturnedMeansGone(profiles, Step(profiles, s, e), diesAfter, fates);
  }

  // ----- what every run keeps, safe or not

  lemma NothingIsSound(profiles: Profiles)
    ensures AllSound(profiles, [])
  {
  }

  /** Records stay sound whatever happens, the events that leave nodes behind included. */
  lemma StepIsSound(profiles: Profiles, s: Saga, e: Event)
    requires Named(profiles) && AllSound(profiles, s.records) && (e.Enqueue? ==> Fresh(s.records, e.record))
    ensures AllSound(profiles, Step(profiles, s, e).records)
  {
    hide AllSound, Materialized, AfterDelete, Returns, Covered, Fresh;
    match e
    case Enqueue(r) => EnqueueIsSound(profiles, s.records, r);
    case Materialize(write) => MaterializedIsSound(profiles, s, write);
    case Lose(write) =>
    case Skip(id) => SkippedSound(profiles, s.records, id);
    case Delete(diesAfter, fates, commits) =>
      DeleteIsSound(profiles, s, diesAfter, fates);
      NothingIsSound(profiles);
    case Drop(commits) =>
      NothingIsSound(profiles);
  }

  /** Any events in any order, as long as every record that is enqueued is fresh. */
  ghost predicate FreshRun(profiles: Profiles, s: Saga, events: seq<Event>) {
    events != [] ==>
      var init, last := events[..|events| - 1], events[|events| - 1];
      && FreshRun(profiles, s, init)
      && (last.Enqueue? ==> Fresh(Run(profiles, s, init).records, last.record))
  }

  lemma {:induction false} RunIsSound(profiles: Profiles, s: Saga, events: seq<Event>)
    requires Named(profiles) && AllSound(profiles, s.records) && FreshRun(profiles, s, events)
    ensures AllSound(profiles, Run(profiles, s, events).records)
    decreases |events|
  {
    hide AllSound, Fresh, Step;
    if events != [] {
      var init := events[..|events| - 1];
      RunIsSound(profiles, s, init);
      StepIsSound(profiles, Run(profiles, s, init), events[|events| - 1]);
    }
  }

  // ----- where the safety of a delete ends

  ghost function OneProfile(): Profiles {
    map["p" := Profile("w", Some("u"), None)]
  }

  ghost function OneRecord(id: nat, status: Status, nodes: nat, cleanup: Cleanup): Record {
    Record(id, "p", status, nodes, 0, Some("w"), Some("u"), None, None, cleanup)
  }

  ghost function OneKey(): Key {
    Key(Some("w"), Some("u"), None)
  }

  ghost function OneNode(): set<Stored> {
    {Stored(Target("w", "u"), "n")}
  }

  lemma OneGroup(id: nat, status: Status, nodes: nat, cleanup: Cleanup)
    ensures EffectiveKey(OneProfile(), OneRecord(id, status, nodes, cleanup)) == OneKey()
    ensures StoredKey(OneRecord(id, status, nodes, cleanup)) == OneKey()
  {
  }

  /** Projected once, and enqueued again. */
  ghost function ProjectedAndWaiting(): Saga {
    Saga([OneRecord(1, Succeeded, 1, NotTried), OneRecord(2, Pending, 0, NotTried)], OneNode())
  }

  /** A delete removed the nodes and marked both records, but its own transaction was rolled back. */
  ghost function MarkedAndWaiting(): Saga {
    Saga([OneRecord(1, Succeeded, 1, Cleaned), OneRecord(2, Pending, 0, Cleaned)], {})
  }

  /** The waiting record was written after that. */
  ghost function WrittenAfterAll(): Saga {
    Saga([OneRecord(2, Succeeded, 1, Cleaned)], OneNode())
  }

  ghost function FirstEvents(): seq<Event> {
    [Enqueue(OneRecord(1, Pending, 0, NotTried)), Materialize(Written({"n"}, 0)),
     Enqueue(OneRecord(2, Pending, 0, NotTried))]
  }

  lemma FirstProjection()
    ensures Run(OneProfile(), Saga([], {}), FirstEvents()[..1]) == Saga([OneRecord(1, Pending, 0, NotTried)], {})
    ensures Run(OneProfile(), Saga([], {}), FirstEvents()[..2]) ==
              Saga([OneRecord(1, Succeeded, 1, NotTried)], OneNode())
    ensures Run(OneProfile(), Saga([], {}), FirstEvents()) == ProjectedAndWaiting()
  {
    var events, s := FirstEvents(), Saga([], {});
    assert events[..2][..1] == events[..1] && events[..1][..0] == [];
    assert Run(OneProfile(), s, events[..1]) == Saga([OneRecord(1, Pending, 0, NotTried)], {});
    WriteOne(Saga([OneRecord(1, Pending, 0, NotTried)], {}), 0, OneRecord(1, Pending, 0, NotTried));
    assert Run(OneProfile(), s, events[..2]) == Saga([OneRecord(1, Succeeded, 1, NotTried)], OneNode());
  }

  /** Writing record number `i`, the only one pending, with one node. */
  lemma WriteOne(s: Saga, i: nat, r: Record)
    requires LastPending(s.records) == Some(i) && s.records[i] == r && s.store == {}
    requires r == OneRecord(r.id, Pending, 0, r.cleanup)
    ensures var w := OneRecord(r.id, Succeeded, 1, r.cleanup);
            Materialized(OneProfile(), s, Written({"n"}, 0)) == Saga(Filter(s.records[i := w], KeptTest(w)), OneNode())
  {
    OneGroup(r.id, Pending, 0, r.cleanup);
    var w := OneRecord(r.id, Succeeded, 1, r.cleanup);
    assert |{"n"}| == 1;
    assert AfterWrite(OneProfile(), r, Written({"n"}, 0)) == w;
    assert Without({}, TargetOf(OneKey())) + Holding(TargetOf(OneKey()), {"n"}) == OneNode();
  }

  lemma NothingToRemark()
    ensures GroupKeys(OneProfile(), ProjectedAndWaiting().records) == [OneKey()]
    ensures AfterRemarks(OneProfile(), ProjectedAndWaiting(), None) == ProjectedAndWaiting()
  {
    hide IsOpen, IsCleaned, EffectiveKey, AllCleaned;
    var s, k := ProjectedAndWaiting(), OneKey();
    OneGroup(1, Succeeded, 1, NotTried);
    OneGroup(2, Pending, 0, NotTried);
    assert s.records[..1] == [s.records[0]] && s.records[..1][..0] == [];
    assert GroupKeys(OneProfile(), s.records[..1]) == [k];
    OnlyGroupOpen();
    assert Remarked(OneProfile(), s.records, [k], 0) == s.records;
    assert Remarked(OneProfile(), s.records, [k], 1) == s.records;
  }

  lemma OneGroupToDelete()
    ensures OpenKeys(OneProfile(), ProjectedAndWaiting().records) == [OneKey()]
    ensures DoneFrom(OneProfile(), ProjectedAndWaiting().records, [OneKey()], [], 0) == 1
  {
    hide IsOpen, IsCleaned, EffectiveKey, GroupKeys, Remarked;
    var s, k := ProjectedAndWaiting(), OneKey();
    NothingToRemark();
    OnlyGroupOpen();
    assert [k][..0] == [];
    assert Succeeds(OneProfile(), s.records, [k], [], 0);
  }

  lemma BothAreMarked()
    ensures Progress(OneProfile(), ProjectedAndWaiting(), [OneKey()], 1) == MarkedAndWaiting()
  {
    hide IsOpen, IsCleaned, EffectiveKey, GroupKeys, Remarked;
    var s, k := ProjectedAndWaiting(), OneKey();
    OneGroup(1, Succeeded, 1, NotTried);
    OneGroup(2, Pending, 0, NotTried);
    assert Progress(OneProfile(), s, [k], 0) == s;
    assert Mark(OneProfile(), s.records, k, Cleaned) == MarkedAndWaiting().records;
    assert Without(s.store, TargetOf(k)) == {};
  }

  lemma PartialDelete()
    ensures Step(OneProfile(), ProjectedAndWaiting(), Delete(None, [], false)) == MarkedAndWaiting()
  {
    hide IsOpen, IsCleaned, EffectiveKey, GroupKeys, Remarked, OpenKeys, Progress, DoneFrom, AfterRemarks,
      ProjectedAndWaiting;
    NothingToRemark();
    OneGroupToDelete();
    BothAreMarked();
  }

  lemma OnlyGroupOpen()
    ensures IsOpen(OneProfile(), ProjectedAndWaiting().records, OneKey())
    ensures !IsCleaned(OneProfile(), ProjectedAndWaiting().records, OneKey())
  {
    var s := ProjectedAndWaiting();
    assert s.records[0] in s.records && NeedsCleanup(s.records[0]);
  }

  lemma SecondProjection()
    ensures Step(OneProfile(), MarkedAndWaiting(), Materialize(Written({"n"}, 0))) == WrittenAfterAll()
  {
    var s := MarkedAndWaiting();
    var w := OneRecord(2, Succeeded, 1, Cleaned);
    WriteOne(s, 1, s.records[1]);
    OneGroup(1, Succeeded, 1, Cleaned);
    OneGroup(2, Succeeded, 1, Cleaned);
    var swapped := s.records[1 := w];
    assert swapped == [s.records[0], w];
    assert swapped[..1] == [s.records[0]] && swapped[..1][..0] == [];
    assert Filter(swapped[..1], KeptTest(w)) == [];
    assert Filter(swapped, KeptTest(w)) == [w];
  }

  /** Without the condition on what is written the stores do not stay covered. After a delete that was
      rolled back, a record that waited all along is written although it is marked cleaned; the next
      delete returns, calls no store, and the node of the document is still there. */
  lemma MarkedRecordLeaks()
    ensures Named(OneProfile()) && AllowedRun(OneProfile(), Saga([], {}), FirstEvents())
    ensures var s := Run(OneProfile(), Saga([], {}), FirstEvents());
            var t := Step(OneProfile(), Step(OneProfile(), s, Delete(None, [], false)), Materialize(Written({"n"}, 0)));
            Returns(OneProfile(), t, None, []) && AfterDelete(OneProfile(), t, None, []).store == t.store == OneNode()
  {
    hide IsOpen, IsCleaned, AllCleaned, Run, Step, AfterDelete, Returns, AllowedRun;
    FirstProjection();
    FirstProjectionAllowed();
    PartialDelete();
    SecondProjection();
    NothingIsSent();
  }

  lemma NothingIsSent()
    ensures Returns(OneProfile(), WrittenAfterAll(), None, [])
    ensures AfterDelete(OneProfile(), WrittenAfterAll(), None, []).store == OneNode()
  {
    hide IsOpen;
    var s, k := WrittenAfterAll(), OneKey();
    OneGroup(2, Succeeded, 1, Cleaned);
    assert s.records[..0] == [];
    assert GroupKeys(OneProfile(), s.records) == [k];
    assert !IsOpen(OneProfile(), s.records, k) by {
      assert s.records[0] in s.records;
      LeakedIsClosed();
    }
    assert Remarked(OneProfile(), s.records, [k], 1) == s.records;
    assert [k][..0] == [];
    assert OpenKeys(OneProfile(), s.records) == [];
  }

  lemma LeakedIsClosed()
    ensures !IsOpen(OneProfile(), WrittenAfterAll().records, OneKey())
  {
    var s := WrittenAfterAll();
    assert s.records[0] in s.records;
  }

  lemma FirstProjectionAllowed()
    ensures AllowedRun(OneProfile(), Saga([], {}), FirstEvents())
  {
    hide Run, Step;
    var events, s := FirstEvents(), Saga([], {});
    FirstProjection();
    assert events[..2][..1] == events[..1] && events[..1][..0] == [];
    assert Run(OneProfile(), s, []) == s by {
      EmptyRun(OneProfile(), s);
    }
    assert AllowedRun(OneProfile(), s, events[..1]);
    assert AllowedRun(OneProfile(), s, events[..2]);
  }

  lemma EmptyRun(profiles: Profiles, s: Saga)
    ensures Run(profiles, s, []) == s
  {
  }

  /** Nor when the record of a write is lost. The nodes of a document that was enqueued and written are in
      the store, the record still waits, and a delete returns without calling the store. */
  lemma LostRecordLeaks()
    ensures var e := Enqueue(OneRecord(1, Pending, 0, NotTried));
            var s := Step(OneProfile(), Saga([], {}), e);
            var t := Step(OneProfile(), s, Lose(Written({"n"}, 0)));
            && Allowed(OneProfile(), Saga([], {}), e) && Returns(OneProfile(), t, None, [])
            && AfterDelete(OneProfile(), t, None, []).store == t.store == OneNode()
  {
    hide IsOpen, IsCleaned, EffectiveKey, AllCleaned, Materialized;
    var r, k := OneRecord(1, Pending, 0, NotTried), OneKey();
    var s := Saga([r], {});
    assert Step(OneProfile(), Saga([], {}), Enqueue(r)) == s;
    WriteOne(s, 0, r);
    var t := Saga([r], OneNode());
    assert Step(OneProfile(), s, Lose(Written({"n"}, 0))) == t;
    WaitingIsClosed(r);
    OneGroup(1, Pending, 0, NotTried);
    assert t.records[..0] == [] && [k][..0] == [];
    assert GroupKeys(OneProfile(), t.records) == [k];
    assert Remarked(OneProfile(), t.records, [k], 0) == t.records;
    assert Remarked(OneProfile(), t.records, [k], 1) == t.records;
    NothingOpen(OneProfile(), t.records);
  }

  lemma NothingOpen(profiles: Profiles, records: seq<Record>)
    requires forall k :: !IsOpen(profiles, records, k)
    ensures OpenKeys(profiles, records) == []
  {
    hide IsOpen, OpenKeys;
    var keys := OpenKeys(profiles, records);
    if keys != [] {
      assert keys[0] in keys;
      OpenKeysAreOpen(profiles, records);
    }
  }

  lemma WaitingIsClosed(r: Record)
    requires r == OneRecord(1, Pending, 0, NotTried)
    ensures forall k :: !IsOpen(OneProfile(), [r], k) && !IsCleaned(OneProfile(), [r], k)
  {
  }

  // ----- what a lost write can do, and what makes it good

  /** The records tell the same, and the stores differ at one target at most. */
  ghost predicate Agree(s: Saga, t: Saga, target: Target) {
    && s.records == t.records
    && forall n: Stored :: n.target != target ==> (n in s.store <==> n in t.store)
  }

  /** A lost write changes the stores at the target of the record that waits, and nothing else. */
  lemma LostAgrees(profiles: Profiles, s: Saga, write: Write)
    requires Picked(s.records).Some?
    ensures Agree(s, Lost(profiles, s, write),
                  TargetOf(StoredKey(AfterWrite(profiles, Picked(s.records).value, write))))
  {
    hide AfterWrite, StoredKey, Materialized;
    WrittenStore(profiles, s, write);
  }

  lemma AgreeWrites(profiles: Profiles, s: Saga, t: Saga, target: Target, write: Write)
    requires Agree(s, t, target)
    ensures Materialized(profiles, s, write).records == Materialized(profiles, t, write).records
    ensures Agree(Materialized(profiles, s, write), Materialized(profiles, t, write), target)
    ensures Writes(profiles, s, write) &&
              target == TargetOf(StoredKey(AfterWrite(profiles, Picked(s.records).value, write))) ==>
              Materialized(profiles, s, write) == Materialized(profiles, t, write)
  {
    hide AfterWrite, StoredKey, Filter;
    WrittenStore(profiles, s, write);
    WrittenStore(profiles, t, write);
  }

  lemma {:induction false} ProgressAgrees(profiles: Profiles, s: Saga, t: Saga, target: Target, keys: seq<Key>, n: nat)
    requires n <= |keys| && Agree(s, t, target)
    ensures Agree(Progress(profiles, s, keys, n), Progress(profiles, t, keys, n), target)
    decreases n
  {
    hide Mark;
    if n > 0 {
      ProgressAgrees(profiles, s, t, target, keys, n - 1);
    }
  }

  lemma AttemptedAgrees(profiles: Profiles, s: Saga, t: Saga, target: Target, fates: seq<Fate>)
    requires Agree(s, t, target)
    ensures Agree(Attempted(profiles, s, fates), Attempted(profiles, t, fates), target)
  {
    hide Mark, Actual, Progress, OpenKeys, NoTarget;
    var keys := OpenKeys(profiles, s.records);
    ProgressAgrees(profiles, s, t, target, keys, DoneFrom(profiles, s.records, keys, fates, 0));
  }

  lemma DeleteAgrees(profiles: Profiles, s: Saga, t: Saga, target: Target, diesAfter: Option<nat>, fates: seq<Fate>)
    requires Agree(s, t, target)
    ensures Returns(profiles, s, diesAfter, fates) <==> Returns(profiles, t, diesAfter, fates)
    ensures Agree(AfterDelete(profiles, s, diesAfter, fates), AfterDelete(profiles, t, diesAfter, fates), target)
  {
    hide Attempted, Finishes, Remarked, GroupKeys;
    var u, v := AfterRemarks(profiles, s, diesAfter), AfterRemarks(profiles, t, diesAfter);
    assert Agree(u, v, target);
    AttemptedAgrees(profiles, u, v, target, fates);
    SameFinish(profiles, u, v, fates);
  }

  lemma SameFinish(profiles: Profiles, s: Saga, t: Saga, fates: seq<Fate>)
    requires s.records == t.records
    ensures Finishes(profiles, s, fates) <==> Finishes(profiles, t, fates)
  {
  }

  /** The difference a lost write makes stays at its target, whatever follows. */
  lemma StepAgrees(profiles: Profiles, s: Saga, t: Saga, target: Target, e: Event)
    requires Agree(s, t, target)
    ensures Agree(Step(profiles, s, e), Step(profiles, t, e), target)
  {
    hide Materialized, AfterDelete, Returns;
    match e
    case Enqueue(r) =>
    case Materialize(write) => AgreeWrites(profiles, s, t, target, write);
    case Lose(write) => AgreeWrites(profiles, s, t, target, write);
    case Skip(id) =>
    case Delete(diesAfter, fates, commits) => DeleteAgrees(profiles, s, t, target, diesAfter, fates);
    case Drop(commits) =>
  }

  /** The record is written to the target, lost or not. */
  ghost predicate WritesTo(profiles: Profiles, s: Saga, e: Event, target: Target) {
    && (e.Materialize? || e.Lose?)
    && Writes(profiles, s, e.write)
    && target == TargetOf(StoredKey(AfterWrite(profiles, Picked(s.records).value, e.write)))
  }

  lemma WriteEndsDifference(profiles: Profiles, s: Saga, t: Saga, target: Target, e: Event)
    requires Agree(s, t, target) && WritesTo(profiles, s, e, target)
    ensures Step(profiles, s, e) == Step(profiles, t, e)
  {
    hide Materialized, AfterWrite, StoredKey, Writes;
    AgreeWrites(profiles, s, t, target, e.write);
  }

  ghost predicate WrittenAgain(profiles: Profiles, s: Saga, events: seq<Event>, target: Target) {
    events != [] &&
      var init := events[..|events| - 1];
      WrittenAgain(profiles, s, init, target) ||
          WritesTo(profiles, Run(profiles, s, init), events[|events| - 1], target)
  }

  /** Whatever happens after a write was lost, the records are as if it had not been tried, and so are the
      stores except at its target; once that target is written again, the states are the same. */
  lemma {:induction false} LostWriteIsMadeGood(profiles: Profiles, s: Saga, write: Write, events: seq<Event>)
    requires Picked(s.records).Some?
    ensures var target := TargetOf(StoredKey(AfterWrite(profiles, Picked(s.records).value, write)));
            && Agree(Run(profiles, s, events), Run(profiles, Step(profiles, s, Lose(write)), events), target)
            && (WrittenAgain(profiles, s, events, target) ==>
                  Run(profiles, s, events) == Run(profiles, Step(profiles, s, Lose(write)), events))
    decreases |events|
  {
    hide Agree, WritesTo, AfterWrite, StoredKey, Lost;
    var t := Step(profiles, s, Lose(write));
    var target := TargetOf(StoredKey(AfterWrite(profiles, Picked(s.records).value, write)));
    if events == [] {
      LostAgrees(profiles, s, write);
    } else {
      var init, last := events[..|events| - 1], events[|events| - 1];
      LostWriteIsMadeGood(profiles, s, write, init);
      var u, v := Run(profiles, s, init), Run(profiles, t, init);
      hide Step;
      StepAgrees(profiles, u, v, target, last);
      if WritesTo(profiles, u, last, target) {
        WriteEndsDifference(profiles, u, v, target, last);
      }
    }
  }

  /** The record of a lost write still waits, so the next write that succeeds leaves the state that it would
      have left without the lost one. */
  lemma NextWriteRecovers(profiles: Profiles, s: Saga, lost: Write, write: Write)
    requires Writes(profiles, s, lost) && write.Written?
    ensures Step(profiles, Step(profiles, s, Lose(lost)), Materialize(write)) == Step(profiles, s, Materialize(write))
  {
    var r := Picked(s.records).value;
    var target := TargetOf(StoredKey(AfterWrite(profiles, r, lost)));
    assert StoredKey(AfterWrite(profiles, r, write)) == StoredKey(AfterWrite(profiles, r, lost));
    assert Writes(profiles, s, write);
    hide Materialized, AfterWrite, StoredKey, Writes;
    LostAgrees(profiles, s, lost);
    WriteEndsDifference(profiles, s, Lost(profiles, s, lost), target, Materialize(write));
  }

  // ----- retries

  /** The groups for which a delete calls their store. */
  function Sent(profiles: Profiles, s: Saga, diesAfter: Option<nat>, fates: seq<Fate>): seq<Key> {
    if DiesRemarking(profiles, s, diesAfter) then [] else Called(profiles, AfterRemarks(profiles, s, diesAfter), fates)
  }

  function Called(profiles: Profiles, t: Saga, fates: seq<Fate>): seq<Key> {
    var keys := OpenKeys(profiles, t.records);
    var done := DoneFrom(profiles, t.records, keys, fates, 0);
    if done < |keys| && !NoTarget(profiles, t.records, keys[done]) && !FateAt(fates, done).DiesFirst? &&
        !FateAt(fates, done).DiesRunning?
    then keys[..done + 1] else keys[..done]
  }

  /** Only open groups are sent, each at most once in a delete. */
  lemma OnlyOpenIsSent(profiles: Profiles, s: Saga, diesAfter: Option<nat>, fates: seq<Fate>, i: nat)
    requires i < |Sent(profiles, s, diesAfter, fates)|
    ensures IsOpen(profiles, s.records, Sent(profiles, s, diesAfter, fates)[i])
    ensures forall j :: 0 <= j < i ==> Sent(profiles, s, diesAfter, fates)[j] != Sent(profiles, s, diesAfter, fates)[i]
  {
    hide IsOpen, IsCleaned, Succeeds, NoTarget, Remarked, GroupKeys, OpenKeys;
    var t := AfterRemarks(profiles, s, diesAfter);
    RemarkingKeepsGroups(profiles, s.records, GroupKeys(profiles, s.records), Remarks(profiles, s, diesAfter));
    OpenKeysAreOpen(profiles, t.records);
    assert OpenKeys(profiles, t.records)[i] in OpenKeys(profiles, t.records);
  }

  /** A delete that returns has called a store for every group that was open. */
  lemma ReturnedSendsAll(profiles: Profiles, s: Saga, diesAfter: Option<nat>, fates: seq<Fate>, k: Key)
    requires Returns(profiles, s, diesAfter, fates)
    ensures k in Sent(profiles, s, diesAfter, fates) <==> IsOpen(profiles, s.records, k)
  {
    hide IsOpen, IsCleaned, Succeeds, NoTarget, Remarked, GroupKeys, OpenKeys;
    var t := AfterRemarks(profiles, s, diesAfter);
    RemarkingKeepsGroups(profiles, s.records, GroupKeys(profiles, s.records), Remarks(profiles, s, diesAfter));
    OpenKeysAreOpen(profiles, t.records);
    assert OpenKeys(profiles, t.records)[..|OpenKeys(profiles, t.records)|] == OpenKeys(profiles, t.records);
  }

  /** What a delete did to the outside went through a call: a group that it marked cleaned was sent, and so was
      one that reaches whatever left a store. */
  lemma WhatLeavesWasSent(profiles: Profiles, s: Saga, diesAfter: Option<nat>, fates: seq<Fate>)
    ensures var t := AfterDelete(profiles, s, diesAfter, fates); var sent := Sent(profiles, s, diesAfter, fates);
            && (forall k :: IsCleaned(profiles, t.records, k) ==> IsCleaned(profiles, s.records, k) || k in sent)
            && (forall m :: m in s.store && m !in t.store ==> exists k :: k in sent && m.target == TargetOf(k))
            && (forall m :: m in t.store ==> m in s.store)
  {
    hide IsOpen, IsCleaned, Remarked, GroupKeys, Attempted, Called;
    RemarkingKeepsGroups(profiles, s.records, GroupKeys(profiles, s.records), Remarks(profiles, s, diesAfter));
    assert SameGroups(profiles, s.records, AfterRemarks(profiles, s, diesAfter).records);
    AttemptedWasCalled(profiles, AfterRemarks(profiles, s, diesAfter), fates);
  }

  lemma AttemptedWasCalled(profiles: Profiles, s: Saga, fates: seq<Fate>)
    ensures var t := Attempted(profiles, s, fates); var sent := Called(profiles, s, fates);
            && (forall k :: IsCleaned(profiles, t.records, k) ==> IsCleaned(profiles, s.records, k) || k in sent)
            && (forall m :: m in s.store && m !in t.store ==> exists k :: k in sent && m.target == TargetOf(k))
            && (forall m :: m in t.store ==> m in s.store)
  {
    hide IsOpen, IsCleaned, Succeeds, NoTarget, Progress, OpenKeys, Mark;
    var keys := OpenKeys(profiles, s.records);
    var done := DoneFrom(profiles, s.records, keys, fates, 0);
    var t, sent := Attempted(profiles, s, fates), Called(profiles, s, fates);
    DeleteShrinks(profiles, s, fates);
    OpenKeysAreOpen(profiles, s.records);
    ProgressDeletes(profiles, s, keys, done);
    forall j | 0 <= j < done
      ensures keys[j] in sent
    {
      assert sent[j] == keys[j];
    }
    var before := Progress(profiles, s, keys, done);
    forall m | m in s.store && m !in t.store
      ensures exists k :: k in sent && m.target == TargetOf(k)
    {
      if m in before.store {
        assert sent[done] == keys[done] && m.target == TargetOf(keys[done]);
      } else {
        var j :| 0 <= j < done && m.target == TargetOf(keys[j]);
        assert keys[j] in sent;
      }
    }
  }

  /** The event neither writes the target of the group again nor drops the records. */
  ghost predicate LeavesGroup(profiles: Profiles, s: Saga, e: Event, k: Key) {
    match e
    case Enqueue(_) => true
    case Materialize(write) =>
      Writes(profiles, s, write) ==> StoredKey(AfterWrite(profiles, Picked(s.records).value, write)) != k
    case Lose(_) => true
    case Skip(_) => true
    case Delete(diesAfter, fates, commits) => Returns(profiles, s, diesAfter, fates) ==> !commits
    case Drop(commits) => !commits
  }

  /** A group marked cleaned stays cleaned until its target is written again. */
  lemma CleanedStaysCleaned(profiles: Profiles, s: Saga, e: Event, k: Key)
    requires Named(profiles) && AllSound(profiles, s.records) && IsCleaned(profiles, s.records, k)
    requires LeavesGroup(profiles, s, e, k)
    ensures IsCleaned(profiles, Step(profiles, s, e).records, k)
  {
    match e
    case Enqueue(r) =>
      assert forall x :: x in s.records ==> x in s.records + [r];
    case Materialize(write) => WriteLeavesCleaned(profiles, s, write, k);
    case Lose(write) =>
    case Skip(id) => SkipGroups(profiles, s.records, id, k);
    case Delete(diesAfter, fates, commits) => DeleteLeavesCleaned(profiles, s, diesAfter, fates, k);
    case Drop(commits) =>
  }

  lemma DeleteLeavesCleaned(profiles: Profiles, s: Saga, diesAfter: Option<nat>, fates: seq<Fate>, k: Key)
    requires IsCleaned(profiles, s.records, k)
    ensures IsCleaned(profiles, AfterDelete(profiles, s, diesAfter, fates).records, k)
  {
    hide IsOpen, IsCleaned, Succeeds, NoTarget, Remarked, GroupKeys, OpenKeys, Attempted;
    RemarkingKeepsGroups(profiles, s.records, GroupKeys(profiles, s.records), Remarks(profiles, s, diesAfter));
    DeleteShrinks(profiles, AfterRemarks(profiles, s, diesAfter), fates);
  }

  lemma WriteLeavesCleaned(profiles: Profiles, s: Saga, write: Write, k: Key)
    requires Named(profiles) && AllSound(profiles, s.records) && IsCleaned(profiles, s.records, k)
    requires LeavesGroup(profiles, s, Materialize(write), k)
    ensures IsCleaned(profiles, Materialized(profiles, s, write).records, k)
  {
    hide EffectiveKey, NeedsCleanup, StoredKey, AfterWrite, UniqueIds, IsOpen;
    if Writes(profiles, s, write) {
      var i := LastPending(s.records).value;
      var w := AfterWrite(profiles, s.records[i], write);
      WrittenRecord(profiles, s.records[i], write);
      SwapMembers(s.records, i, w);
      var x :| x in s.records && EffectiveKey(profiles, x) == k && x.cleanup.Cleaned?;
      assert Sound(profiles, x);
      assert x in s.records[i := w];
      FilterMembers(s.records[i := w], KeptTest(w), x);
    } else {
      UnwrittenKeepsGroups(profiles, s, write);
      assert SameGroups(profiles, s.records, Materialized(profiles, s, write).records);
    }
  }

  ghost predicate LeftAlone(profiles: Profiles, s: Saga, events: seq<Event>, k: Key) {
    events != [] ==>
      var init := events[..|events| - 1];
      LeftAlone(profiles, s, init, k) && LeavesGroup(profiles, Run(profiles, s, init), events[|events| - 1], k)
  }

  /** Once a group is marked cleaned, no delete sends it again before its target is written again, whatever
      else happens, to this target or another, and wherever it is cut off. */
  lemma {:induction false} CleanedIsNotSentAgain(profiles: Profiles, s: Saga, events: seq<Event>, k: Key,
                                                 diesAfter: Option<nat>, fates: seq<Fate>)
    requires Named(profiles) && AllSound(profiles, s.records) && FreshRun(profiles, s, events)
    requires IsCleaned(profiles, s.records, k) && LeftAlone(profiles, s, events, k)
    ensures IsCleaned(profiles, Run(profiles, s, events).records, k)
    ensures k !in Sent(profiles, Run(profiles, s, events), diesAfter, fates)
    decreases |events|
  {
    hide Fresh, Step, LeavesGroup, IsCleaned, Sent, AllSound, IsOpen;
    if events != [] {
      var init := events[..|events| - 1];
      CleanedIsNotSentAgain(profiles, s, init, k, diesAfter, fates);
      RunIsSound(profiles, s, init);
      CleanedStaysCleaned(profiles, Run(profiles, s, init), events[|events| - 1], k);
    }
    var t := Run(profiles, s, events);
    if IsOpen(profiles, t.records, k) {
      OpenIsNotCleaned(profiles, t.records, k);
    } else {
      ClosedIsNotSent(profiles, t, k, diesAfter, fates);
    }
  }

  lemma ClosedIsNotSent(profiles: Profiles, s: Saga, k: Key, diesAfter: Option<nat>, fates: seq<Fate>)
    requires !IsOpen(profiles, s.records, k)
    ensures k !in Sent(profiles, s, diesAfter, fates)
  {
    hide IsOpen, Sent;
    forall i | 0 <= i < |Sent(profiles, s, diesAfter, fates)|
      ensures Sent(profiles, s, diesAfter, fates)[i] != k
    {
      OnlyOpenIsSent(profiles, s, diesAfter, fates, i);
    }
  }

  // ----- only a write opens a group

  /** The event is no committed write for the group. */
  ghost predicate WritesElsewhere(profiles: Profiles, s: Saga, e: Event, k: Key) {
    e.Materialize? && Writes(profiles, s, e.write) ==>
      StoredKey(AfterWrite(profiles, Picked(s.records).value, e.write)) != k
  }

  /** A group that is not open can be opened only by writing it: not by enqueueing, not by what is lost or
      skipped, not by a delete cut off anywhere, and not by dropping the records. */
  lemma ClosedStaysClosed(profiles: Profiles, s: Saga, e: Event, k: Key)
    requires Named(profiles) && AllSound(profiles, s.records) && (e.Enqueue? ==> Fresh(s.records, e.record))
    requires !IsOpen(profiles, s.records, k) && WritesElsewhere(profiles, s, e, k)
    ensures !IsOpen(profiles, Step(profiles, s, e).records, k)
  {
    hide AllSound, Fresh, Materialized, AfterDelete, Returns, AfterWrite;
    match e
    case Enqueue(r) =>
      EnqueueKeepsGroups(profiles, s.records, r);
      assert SameGroups(profiles, s.records, s.records + [r]);
    case Materialize(write) => WriteLeavesClosed(profiles, s, write, k);
    case Lose(write) =>
    case Skip(id) => SkipGroups(profiles, s.records, id, k);
    case Delete(diesAfter, fates, commits) => DeleteLeavesClosed(profiles, s, diesAfter, fates, k);
    case Drop(commits) =>
  }

  lemma DeleteLeavesClosed(profiles: Profiles, s: Saga, diesAfter: Option<nat>, fates: seq<Fate>, k: Key)
    requires !IsOpen(profiles, s.records, k)
    ensures !IsOpen(profiles, AfterDelete(profiles, s, diesAfter, fates).records, k)
  {
    hide IsOpen, IsCleaned, Succeeds, NoTarget, Remarked, GroupKeys, OpenKeys, Attempted;
    var t := AfterRemarks(profiles, s, diesAfter);
    RemarkingKeepsGroups(profiles, s.records, GroupKeys(profiles, s.records), Remarks(profiles, s, diesAfter));
    DeleteShrinks(profiles, t, fates);
    OpenKeysAreOpen(profiles, t.records);
  }

  lemma WriteLeavesClosed(profiles: Profiles, s: Saga, write: Write, k: Key)
    requires Named(profiles) && AllSound(profiles, s.records) && !IsOpen(profiles, s.records, k)
    requires LeavesGroup(profiles, s, Materialize(write), k)
    ensures !IsOpen(profiles, Materialized(profiles, s, write).records, k)
  {
    hide EffectiveKey, NeedsCleanup, StoredKey, AfterWrite, UniqueIds, Sound;
    if !Writes(profiles, s, write) {
      UnwrittenKeepsGroups(profiles, s, write);
      assert SameGroups(profiles, s.records, Materialized(profiles, s, write).records);
    } else if IsCleaned(profiles, s.records, k) {
      WriteLeavesCleaned(profiles, s, write, k);
    } else {
      var i := LastPending(s.records).value;
      var w := AfterWrite(profiles, s.records[i], write);
      WrittenRecord(profiles, s.records[i], write);
      SwapMembers(s.records, i, w);
      forall x | x in Materialized(profiles, s, write).records && EffectiveKey(profiles, x) == k
        ensures !NeedsCleanup(x)
      {
        FilterMembers(s.records[i := w], KeptTest(w), x);
      }
    }
  }

  ghost predicate WrittenElsewhere(profiles: Profiles, s: Saga, events: seq<Event>, k: Key) {
    events != [] ==>
      var init := events[..|events| - 1];
      && WrittenElsewhere(profiles, s, init, k)
      && WritesElsewhere(profiles, Run(profiles, s, init), events[|events| - 1], k)
  }

  /** A store is called for a group only if that was open from the start or a write was committed for it:
      over every run, and in every delete after it. */
  lemma {:induction false} OnlyWrittenIsSent(profiles: Profiles, s: Saga, events: seq<Event>, k: Key,
                                             diesAfter: Option<nat>, fates: seq<Fate>)
    requires Named(profiles) && AllSound(profiles, s.records) && FreshRun(profiles, s, events)
    requires !IsOpen(profiles, s.records, k) && WrittenElsewhere(profiles, s, events, k)
    ensures !IsOpen(profiles, Run(profiles, s, events).records, k)
    ensures k !in Sent(profiles, Run(profiles, s, events), diesAfter, fates)
    decreases |events|
  {
    hide Fresh, Step, WritesElsewhere, Sent, AllSound, IsOpen;
    if events != [] {
      var init := events[..|events| - 1];
      OnlyWrittenIsSent(profiles, s, init, k, diesAfter, fates);
      RunIsSound(profiles, s, init);
      ClosedStaysClosed(profiles, Run(profiles, s, init), events[|events| - 1], k);
    }
    ClosedIsNotSent(profiles, Run(profiles, s, events), k, diesAfter, fates);
  }

  /** Enqueueing a record just before writing, as indexing does, meets the condition on what is written. */
  lemma FreshRecordIsPicked(profiles: Profiles, s: Saga, r: Record, write: Write)
    requires Allowed(profiles, s, Enqueue(r))
    ensures Picked(Step(profiles, s, Enqueue(r)).records) == Some(r)
    ensures Allowed(profiles, Step(profiles, s, Enqueue(r)), Materialize(write))
  {
    assert (s.records + [r])[|s.records|] == r;
  }

  /** After any run, safe or not, every open group names a target, so a delete returns once all stores
      answer. */
  lemma AnsweringStoresFinish(profiles: Profiles, s: Saga, events: seq<Event>, fates: seq<Fate>)
    requires Named(profiles) && AllSound(profiles, s.records) && FreshRun(profiles, s, events)
    requires forall n :: 0 <= n < |fates| ==> fates[n].Deleted?
    ensures Returns(profiles, Run(profiles, s, events), None, fates)
  {
    hide AllSound, Returns, FreshRun, Run;
    RunIsSound(profiles, s, events);
    SoundFinishes(profiles, Run(profiles, s, events), fates);
  }

  lemma SoundFinishes(profiles: Profiles, s: Saga, fates: seq<Fate>)
    requires AllSound(profiles, s.records) && forall n :: 0 <= n < |fates| ==> fates[n].Deleted?
    ensures Returns(profiles, s, None, fates)
  {
    hide AllSound, IsOpen, Succeeds, Remarked, GroupKeys, OpenKeys;
    var t := AfterRemarks(profiles, s, None);
    RemarksAreSound(profiles, s, None);
    OpenKeysAreOpen(profiles, t.records);
    var keys := OpenKeys(profiles, t.records);
    forall n | 0 <= n < |keys|
      ensures Succeeds(profiles, t.records, keys, fates, n)
    {
      assert keys[n] in keys;
      OpenNamesTarget(profiles, t.records, keys[n]);
      NamedSucceeds(profiles, t.records, keys, fates, n);
    }
  }

  lemma NamedSucceeds(profiles: Profiles, records: seq<Record>, keys: seq<Key>, fates: seq<Fate>, n: nat)
    requires n < |keys| && HasTarget(keys[n]) && FateAt(fates, n).Deleted?
    ensures Succeeds(profiles, records, keys, fates, n)
  {
  }

  lemma OpenNamesTarget(profiles: Profiles, records: seq<Record>, k: Key)
    requires AllSound(profiles, records) && IsOpen(profiles, records, k)
    ensures HasTarget(k)
  {
    hide UniqueIds;
    var r :| r in records && EffectiveKey(profiles, r) == k && NeedsCleanup(r);
    assert Sound(profiles, r);
  }

  /** A delete that does not return but deletes and marks at least one group. */
  ghost predicate GetsOn(profiles: Profiles, s: Saga, e: Event) {
    && e.Delete? && !Returns(profiles, s, e.diesAfter, e.fates) && !DiesRemarking(profiles, s, e.diesAfter)
    && var t := AfterRemarks(profiles, s, e.diesAfter);
       DoneFrom(profiles, t.records, OpenKeys(profiles, t.records), e.fates, 0) > 0
  }

  ghost function OpenSet(profiles: Profiles, records: seq<Record>): set<Key> {
    set k | k in OpenKeys(profiles, records)
  }

  lemma GettingOnShrinks(profiles: Profiles, s: Saga, e: Event)
    requires GetsOn(profiles, s, e)
    ensures |OpenSet(profiles, Step(profiles, s, e).records)| < |OpenSet(profiles, s.records)|
  {
    hide IsOpen, IsCleaned, Attempted, GroupKeys, OpenKeys, Remarked, Succeeds;
    var t := AfterRemarks(profiles, s, e.diesAfter);
    RemarkingKeepsGroups(profiles, s.records, GroupKeys(profiles, s.records), Remarks(profiles, s, e.diesAfter));
    DeleteShrinks(profiles, t, e.fates);
    OpenKeysAreOpen(profiles, s.records);
    OpenKeysAreOpen(profiles, t.records);
    var u := Step(profiles, s, e);
    OpenKeysAreOpen(profiles, u.records);
    var keys := OpenKeys(profiles, t.records);
    var before, after := OpenSet(profiles, s.records), OpenSet(profiles, u.records);
    assert keys[0] in keys;
    assert keys[0] in before && keys[0] !in after;
    assert after <= before;
    SmallerSet(after, before, keys[0]);
  }

  lemma SmallerSet<T>(a: set<T>, b: set<T>, x: T)
    requires a <= b && x in b && x !in a
    ensures |a| < |b|
  {
    assert b == a + (b - a) && x in b - a;
  }

  ghost predicate AllGetOn(profiles: Profiles, s: Saga, events: seq<Event>) {
    events != [] ==>
      var init := events[..|events| - 1];
      AllGetOn(profiles, s, init) && GetsOn(profiles, Run(profiles, s, init), events[|events| - 1])
  }

  /** Retrying ends: as many deletes at most can be cut off after getting on as there were open groups. */
  lemma {:induction false} RetriesEnd(profiles: Profiles, s: Saga, events: seq<Event>)
    requires AllGetOn(profiles, s, events)
    ensures |events| + |OpenSet(profiles, Run(profiles, s, events).records)| <= |OpenSet(profiles, s.records)|
    decreases |events|
  {
    hide GetsOn, OpenSet, Step;
    if events != [] {
      var init := events[..|events| - 1];
      RetriesEnd(profiles, s, init);
      GettingOnShrinks(profiles, Run(profiles, s, init), events[|events| - 1]);
    }
  }
}
