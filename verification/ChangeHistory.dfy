/** The history of guarded changes, merged from this machine and the cloud, and the choice of
    the change that undo goes back to. */
module ChangeHistory {
  import opened Wrappers

  // Identifiers and times are numbers in the order in which their texts sort.
  datatype Record = Record(id: nat, checkpointId: nat, occurredAt: int)

  datatype LocalRecord = LocalRecord(record: Record, synced: bool)

  datatype Entry = Entry(record: Record, inCloud: bool)

  const UNDO_SEARCH_LIMIT := 20

  function FromMachine(local: seq<LocalRecord>): map<nat, Entry> {
    if local == [] then map[]
    else
      var last := local[|local| - 1];
      FromMachine(local[..|local| - 1])[last.record.id := Entry(last.record, last.synced)]
  }

  function WithCloud(byId: map<nat, Entry>, cloud: seq<Record>): map<nat, Entry> {
    if cloud == [] then byId
    else
      var last, before := cloud[|cloud| - 1], WithCloud(byId, cloud[..|cloud| - 1]);
      before[last.id := Entry(if last.id in before then before[last.id].record else last, true)]
  }

  ghost predicate KeyedById(byId: map<nat, Entry>) {
    forall id :: id in byId ==> byId[id].record.id == id
  }

  ghost predicate InCloud(cloud: seq<Record>, id: nat) {
    exists i :: 0 <= i < |cloud| && cloud[i].id == id
  }

  /** A record of this machine is kept as it is; a change known to the cloud is marked so,
      and one known only there is added. */
  lemma {:induction false} CloudAddsAndMarks(byId: map<nat, Entry>, cloud: seq<Record>, id: nat)
    requires KeyedById(byId)
    ensures var all := WithCloud(byId, cloud);
      && KeyedById(all)
      && (id in all <==> id in byId || InCloud(cloud, id))
      && (id in byId ==> all[id] == Entry(byId[id].record, byId[id].inCloud || InCloud(cloud, id)))
      && (id in all && id !in byId ==> all[id].inCloud && all[id].record in cloud)
  {
    if cloud != [] {
      var before, last := cloud[..|cloud| - 1], cloud[|cloud| - 1];
      CloudAddsAndMarks(byId, before, id);
      assert cloud == before + [last];
      InCloudNext(before, last, id);
      CloudAddsAndMarks(byId, before, last.id);
    }
  }

  lemma InCloudNext(cloud: seq<Record>, last: Record, id: nat)
    ensures InCloud(cloud + [last], id) <==> InCloud(cloud, id) || last.id == id
  {
    if InCloud(cloud, id) {
      var i :| 0 <= i < |cloud| && cloud[i].id == id;
      assert (cloud + [last])[i].id == id;
    }
    if last.id == id {
      assert (cloud + [last])[|cloud|].id == id;
    }
  }

  lemma {:induction false} MachineEntries(local: seq<LocalRecord>, r: LocalRecord)
    requires UniqueRecords(local)
    ensures KeyedById(FromMachine(local))
    ensures r in local ==>
              r.record.id in FromMachine(local) && FromMachine(local)[r.record.id] == Entry(r.record, r.synced)
    ensures forall id :: id in FromMachine(local) ==> IsRecorded(local, id)
  {
    if local != [] {
      var init, last := local[..|local| - 1], local[|local| - 1];
      MachineEntries(init, r);
      assert local == init + [last];
      assert FromMachine(local) == FromMachine(init)[last.record.id := Entry(last.record, last.synced)];
      hide FromMachine;
      RecordedMore(init, last);
    }
  }

  ghost predicate IsRecorded(local: seq<LocalRecord>, id: nat) {
    exists i :: 0 <= i < |local| && local[i].record.id == id
  }

  lemma RecordedMore(init: seq<LocalRecord>, last: LocalRecord)
    ensures IsRecorded(init + [last], last.record.id)
    ensures forall id :: IsRecorded(init, id) ==> IsRecorded(init + [last], id)
  {
    assert (init + [last])[|init|].record.id == last.record.id;
    forall id | IsRecorded(init, id) ensures IsRecorded(init + [last], id) {
      var i :| 0 <= i < |init| && init[i].record.id == id;
      assert (init + [last])[i].record.id == id;
    }
  }

  ghost predicate UniqueRecords(local: seq<LocalRecord>) {
    forall i, j :: 0 <= i < j < |local| ==> local[i].record.id != local[j].record.id
  }

  /** Every change other than `last` is older. */
  ghost predicate IsLatestOf(last: Record, all: map<nat, Entry>) {
    && KeyedById(all) && last.id in all && all[last.id].record == last
    && forall id :: id in all && id != last.id ==> all[id].record.occurredAt < last.occurredAt
  }

  /** With increasing times, the change recorded last on this machine is the latest of the
      merged history, also if the cloud knows it already. */
  lemma RecordedLastIsLatest(local: seq<LocalRecord>, cloud: seq<Record>)
    requires local != [] && UniqueRecords(local)
    requires var last := local[|local| - 1].record;
      && (forall i :: 0 <= i < |local| - 1 ==> local[i].record.occurredAt < last.occurredAt)
      && (forall r :: r in cloud ==> r.id == last.id || r.occurredAt < last.occurredAt)
    ensures IsLatestOf(local[|local| - 1].record, WithCloud(FromMachine(local), cloud))
  {
    var last, machine := local[|local| - 1], FromMachine(local);
    var all := WithCloud(machine, cloud);
    MachineEntries(local, last);
    CloudAddsAndMarks(machine, cloud, last.record.id);
    hide FromMachine, WithCloud, InCloud;
    forall id | id in all && id != last.record.id ensures all[id].record.occurredAt < last.record.occurredAt {
      CloudAddsAndMarks(machine, cloud, id);
      if id in machine {
        var i :| 0 <= i < |local| && local[i].record.id == id;
        MachineEntries(local, local[i]);
      }
    }
  }

  // --------------------------------------------------------------------- newest first

  predicate Newer(a: Entry, b: Entry) {
    a.record.occurredAt > b.record.occurredAt
    || (a.record.occurredAt == b.record.occurredAt && a.record.id > b.record.id)
  }

  /** By time, and by identifier where the times are equal. */
  lemma NewerIff(a: Entry, b: Entry)
    ensures a.record.occurredAt > b.record.occurredAt ==> Newer(a, b) && !Newer(b, a)
    ensures a.record.occurredAt == b.record.occurredAt ==> (Newer(a, b) <==> b.record.id < a.record.id)
  {
  }

  ghost predicate NewestFirst(entries: seq<Entry>) {
    forall i, j :: 0 <= i < j < |entries| ==> Newer(entries[i], entries[j])
  }

  /** All entries of the map, each once, newest first. */
  ghost predicate Lists(entries: seq<Entry>, byId: map<nat, Entry>) {
    && NewestFirst(entries) && |entries| == |byId|
    && forall e :: e in entries <==> e.record.id in byId && byId[e.record.id] == e
  }

  method Insert(entries: seq<Entry>, e: Entry) returns (longer: seq<Entry>)
    requires NewestFirst(entries) && forall x :: x in entries ==> x.record.id != e.record.id
    ensures NewestFirst(longer) && |longer| == |entries| + 1
    ensures forall x :: x in longer <==> x in entries || x == e
  {
    var i := 0;
    while i < |entries| && Newer(entries[i], e)
      invariant 0 <= i <= |entries|
      invariant forall k :: 0 <= k < i ==> Newer(entries[k], e)
    {
      i := i + 1;
    }
    longer := entries[..i] + [e] + entries[i..];
    assert entries == entries[..i] + entries[i..];
    InsertedInOrder(entries, i, e);
  }

  lemma InsertedInOrder(entries: seq<Entry>, i: nat, e: Entry)
    requires NewestFirst(entries) && i <= |entries| && forall x :: x in entries ==> x.record.id != e.record.id
    requires forall k :: 0 <= k < i ==> Newer(entries[k], e)
    requires i < |entries| ==> !Newer(entries[i], e)
    ensures NewestFirst(entries[..i] + [e] + entries[i..])
  {
    assert i < |entries| ==> entries[i] in entries && Newer(e, entries[i]);
    assert forall k :: i < k < |entries| ==> Newer(entries[i], entries[k]);
  }

  method SortNewestFirst(byId: map<nat, Entry>) returns (entries: seq<Entry>)
    requires KeyedById(byId)
    ensures Lists(entries, byId)
  {
    entries := [];
    var todo := byId.Keys;
    while todo != {}
      invariant todo <= byId.Keys && NewestFirst(entries) && |entries| + |todo| == |byId|
      invariant forall e :: e in entries <==> e.record.id in byId && e.record.id !in todo && byId[e.record.id] == e
      decreases |todo|
    {
      var id :| id in todo;
      todo := todo - {id};
      entries := Insert(entries, byId[id]);
    }
  }

  ghost function History(local: seq<LocalRecord>, cloud: Option<seq<Record>>): map<nat, Entry> {
    WithCloud(FromMachine(local), cloud.GetOr([]))
  }

  /** The newest changes, at most `limit`: whatever is left out is older than all of them. */
  ghost predicate IsNewest(entries: seq<Entry>, byId: map<nat, Entry>, limit: nat) {
    && NewestFirst(entries) && |entries| == (if |byId| < limit then |byId| else limit)
    && (forall e :: e in entries ==> e.record.id in byId && byId[e.record.id] == e)
    && forall id, e :: id in byId && byId[id] !in entries && e in entries ==> Newer(e, byId[id])
  }

  /** `cloud` is what the cloud lists, or nothing if there is no link or it cannot be
      read. */
  method ReadHistory(local: seq<LocalRecord>, cloud: Option<seq<Record>>, limit: nat) returns (entries: seq<Entry>)
    ensures IsNewest(entries, History(local, cloud), limit)
  {
    var byId: map<nat, Entry> := map[];
    for i := 0 to |local|
      invariant byId == FromMachine(local[..i]) && KeyedById(byId)
    {
      assert local[..i + 1][..i] == local[..i];
      byId := byId[local[i].record.id := Entry(local[i].record, local[i].synced)];
    }
    assert local[..|local|] == local;
    if cloud.Some? {
      var machine := byId;
      for i := 0 to |cloud.value|
        invariant byId == WithCloud(machine, cloud.value[..i]) && KeyedById(byId)
      {
        assert cloud.value[..i + 1][..i] == cloud.value[..i];
        var r := cloud.value[i];
        byId := byId[r.id := Entry(if r.id in byId then byId[r.id].record else r, true)];
      }
      assert cloud.value[..|cloud.value|] == cloud.value;
    }
    var all := SortNewestFirst(byId);
    entries := all[..if |all| < limit then |all| else limit];
    FirstAreNewest(all, byId, limit);
  }

  lemma FirstAreNewest(all: seq<Entry>, byId: map<nat, Entry>, limit: nat)
    requires Lists(all, byId) && KeyedById(byId)
    ensures IsNewest(all[..if |all| < limit then |all| else limit], byId, limit)
  {
    var n := if |all| < limit then |all| else limit;
    forall id, e | id in byId && byId[id] !in all[..n] && e in all[..n] ensures Newer(e, byId[id]) {
      assert byId[id] in all && all == all[..n] + all[n..];
    }
  }

  /** A change that is later than all others comes first. */
  lemma LatestComesFirst(entries: seq<Entry>, byId: map<nat, Entry>, limit: nat, id: nat)
    requires IsNewest(entries, byId, limit) && limit > 0 && id in byId && IsLatestOf(byId[id].record, byId)
    ensures entries != [] && entries[0] == byId[id]
  {
    assert |byId| > 0 by {
      assert id in byId.Keys;
    }
    var first, latest := entries[0], byId[id];
    assert first in entries && first.record.id in byId && byId[first.record.id] == first;
    assert latest !in entries ==> Newer(first, latest);
    assert forall i :: 0 < i < |entries| ==> Newer(first, entries[i]);
    assert first.record.id != id ==> !Newer(first, latest);
  }

  // --------------------------------------------------------------------- undo's target

  datatype Unreadable = NotOnThisMachine | OtherProblem

  datatype Skipped = Skipped(record: Record, reason: Unreadable)

  datatype UndoSearch = UndoSearch(target: Option<Record>, skipped: seq<Skipped>)

  /** `read` says whether a checkpoint can be read and belongs to this database. */
  ghost function SkippedIn(entries: seq<Entry>, read: nat -> Option<Unreadable>): seq<Skipped>
    requires forall e :: e in entries ==> read(e.record.checkpointId).Some?
  {
    seq(|entries|, i requires 0 <= i < |entries| =>
      Skipped(entries[i].record, read(entries[i].record.checkpointId).GetOr(OtherProblem)))
  }

  /** The newest of the first twenty changes whose checkpoint can be read; every newer one
      is reported, with the reason. */
  ghost predicate Finds(entries: seq<Entry>, read: nat -> Option<Unreadable>, search: UndoSearch) {
    var n := |search.skipped|;
    && n <= |entries| && n <= 20
    && (forall e :: e in entries[..n] ==> read(e.record.checkpointId).Some?)
    && search.skipped == SkippedIn(entries[..n], read)
    && if search.target.Some?
       then n < |entries| && n < 20 && search.target.value == entries[n].record
            && read(entries[n].record.checkpointId).None?
       else n == |entries| || n == 20
  }

  lemma ReadableFirstIsFound(entries: seq<Entry>, read: nat -> Option<Unreadable>, search: UndoSearch)
    requires Finds(entries, read, search) && entries != []
    ensures read(entries[0].record.checkpointId).None? <==> search.target.Some? && search.skipped == []
  {
    var n := |search.skipped|;
    assert n > 0 ==> entries[..n][0] == entries[0];
  }

  method FindUndoTarget(entries: seq<Entry>, read: nat -> Option<Unreadable>) returns (search: UndoSearch)
    ensures Finds(entries, read, search)
  {
    var skipped: seq<Skipped> := [];
    var first := entries[..if |entries| < UNDO_SEARCH_LIMIT then |entries| else UNDO_SEARCH_LIMIT];
    for i := 0 to |first|
      invariant |skipped| == i && forall e :: e in entries[..i] ==> read(e.record.checkpointId).Some?
      invariant skipped == SkippedIn(entries[..i], read)
    {
      var record := first[i].record;
      var problem := read(record.checkpointId);
      if problem.None? {
        return UndoSearch(Some(record), skipped);
      }
      assert entries[..i + 1] == entries[..i] + [entries[i]];
      skipped := skipped + [Skipped(record, problem.value)];
    }
    return UndoSearch(None, skipped);
  }
}
