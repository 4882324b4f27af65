/**
 * AuditLogService.cs: queries over the append-only audit log, and the three
 * logging operations that append one entry per user mutation.
 */
module AuditLogs {
  import opened Wrappers
  import opened Entities
  import opened Formatting
  import opened Data

  /** `GetAll`: every stored entry, in store order. */
  function GetAll(entries: seq<AuditLogEntry>): seq<AuditLogEntry> {
    entries
  }

  /** `FilterByAction`: the entries whose action is `action`, in store order. */
  function FilterByAction(entries: seq<AuditLogEntry>, action: AuditLogAction): (r: seq<AuditLogEntry>)
    ensures |r| <= |entries|
    ensures forall e :: e in r <==> e in entries && e.action == action
    decreases |entries|
  {
    if entries == [] then []
    else (if entries[0].action == action then [entries[0]] else []) + FilterByAction(entries[1..], action)
  }

  /** Filtering keeps store order: appending an entry appends it to the one filter it matches. */
  lemma {:induction false} FilterByActionAppend(entries: seq<AuditLogEntry>, e: AuditLogEntry, action: AuditLogAction)
    ensures FilterByAction(entries + [e], action)
         == FilterByAction(entries, action) + (if e.action == action then [e] else [])
    decreases |entries|
  {
    var tail := if e.action == action then [e] else [];
    if entries == [] {
      assert [e][1..] == [];
    } else {
      var head := if entries[0].action == action then [entries[0]] else [];
      assert (entries + [e])[0] == entries[0];
      assert (entries + [e])[1..] == entries[1..] + [e];
      calc {
        FilterByAction(entries + [e], action);
        head + FilterByAction(entries[1..] + [e], action);
        { FilterByActionAppend(entries[1..], e, action); }
        head + (FilterByAction(entries[1..], action) + tail);
        (head + FilterByAction(entries[1..], action)) + tail;
        FilterByAction(entries, action) + tail;
      }
    }
  }

  /** The Create, Update and Delete filters split `GetAll` between them, each entry once. */
  lemma {:induction false} FilterByActionPartition(entries: seq<AuditLogEntry>)
    ensures multiset(FilterByAction(GetAll(entries), Create)) + multiset(FilterByAction(GetAll(entries), Update))
          + multiset(FilterByAction(GetAll(entries), Delete)) == multiset(GetAll(entries))
    decreases |entries|
  {
    if entries != [] {
      var e, rest := entries[0], entries[1..];
      var fc, fu, fd := FilterByAction(rest, Create), FilterByAction(rest, Update), FilterByAction(rest, Delete);
      assert multiset(fc) + multiset(fu) + multiset(fd) == multiset(rest) by {
        FilterByActionPartition(rest);
      }
      assert multiset(FilterByAction(entries, Create)) == FirstMatch(e, Create) + multiset(fc) by {
        FilterByActionFirst(entries, Create);
      }
      assert multiset(FilterByAction(entries, Update)) == FirstMatch(e, Update) + multiset(fu) by {
        FilterByActionFirst(entries, Update);
      }
      assert multiset(FilterByAction(entries, Delete)) == FirstMatch(e, Delete) + multiset(fd) by {
        FilterByActionFirst(entries, Delete);
      }
      assert multiset(entries) == multiset{e} + multiset(rest) by {
        assert entries == [e] + rest;
      }
      AddToPartition(e, FirstMatch(e, Create), FirstMatch(e, Update), FirstMatch(e, Delete),
                     multiset(fc), multiset(fu), multiset(fd), multiset(rest));
    }
  }

  /** The first entry, counted in the filter for `action` when it matches. */
  function FirstMatch(e: AuditLogEntry, action: AuditLogAction): multiset<AuditLogEntry> {
    if e.action == action then multiset{e} else multiset{}
  }

  lemma FilterByActionFirst(entries: seq<AuditLogEntry>, action: AuditLogAction)
    requires entries != []
    ensures multiset(FilterByAction(entries, action))
         == FirstMatch(entries[0], action) + multiset(FilterByAction(entries[1..], action))
  {
  }

  lemma AddToPartition<T>(e: T, hc: multiset<T>, hu: multiset<T>, hd: multiset<T>,
                          fc: multiset<T>, fu: multiset<T>, fd: multiset<T>, rest: multiset<T>)
    requires hc + hu + hd == multiset{e}
    requires fc + fu + fd == rest
    ensures (hc + fc) + (hu + fu) + (hd + fd) == multiset{e} + rest
  {
    assert forall t :: ((hc + fc) + (hu + fu) + (hd + fd))[t] == (multiset{e} + rest)[t];
  }

  /** The position of the first entry with key `id`, or |entries| if there is none. */
  function FirstIndexWithId(entries: seq<AuditLogEntry>, id: int): (k: nat)
    ensures k <= |entries|
    ensures k < |entries| ==> entries[k].id == id
    ensures forall j :: 0 <= j < k ==> entries[j].id != id
    decreases |entries|
  {
    if entries == [] then 0
    else if entries[0].id == id then 0
    else 1 + FirstIndexWithId(entries[1..], id)
  }

  /**
   * `GetAuditLogEntryById`: the first entry with key `id` (its snapshots come
   * with it), or null.
   */
  function GetAuditLogEntryById(entries: seq<AuditLogEntry>, id: int): (r: Option<AuditLogEntry>)
    ensures r.None? <==> forall i :: 0 <= i < |entries| ==> entries[i].id != id
    ensures r.Some? ==> r.value in entries && r.value.id == id
  {
    var k := FirstIndexWithId(entries, id);
    if k < |entries| then Some(entries[k]) else None
  }

  /**
   * In a consistent store an entry's key finds exactly that entry, and the
   * snapshots it carries are the ones stored under their keys (the join).
   */
  lemma GetAuditLogEntryByIdFindsStored(users: map<int, User>, entries: seq<AuditLogEntry>,
                                        snapshots: map<int, Snapshot>,
                                        nextUserId: int, nextEntryId: int, nextSnapshotId: int, i: int)
    requires Consistent(users, entries, snapshots, nextUserId, nextEntryId, nextSnapshotId)
    requires 0 <= i < |entries|
    ensures GetAuditLogEntryById(entries, entries[i].id) == Some(entries[i])
    ensures StoredIn(entries[i].before, snapshots) && StoredIn(entries[i].after, snapshots)
  {
    var k := FirstIndexWithId(entries, entries[i].id);
    assert k == i;
  }

  class AuditLogService {
    const store: DataContext

    constructor(store: DataContext)
      ensures this.store == store
    {
      this.store := store;
    }

    /**
     * `LogCreate`: appends one Create entry for `user` stamped `now`, whose after
     * snapshot copies the user and is stored under the next snapshot key.
     */
    method LogCreate(user: User, now: Instant)
      requires store.Valid()
      modifies store
      ensures store.Valid()
      ensures store.entries == old(store.entries) + [AuditLogEntry(
        old(store.nextEntryId), now, Create, user.id,
        None, Some(SnapshotWithId(user, old(store.nextSnapshotId))),
        LogMessage(Create, user.id))]
      ensures store.snapshots == old(store.snapshots)[
        old(store.nextSnapshotId) := SnapshotWithId(user, old(store.nextSnapshotId))]
      ensures store.nextEntryId == old(store.nextEntryId) + 1
      ensures store.nextSnapshotId == old(store.nextSnapshotId) + 1
      ensures store.users == old(store.users) && store.nextUserId == old(store.nextUserId)
    {
      var entry := AuditLogEntry(0, now, Create, user.id, None, Some(SnapshotOf(user)), LogMessage(Create, user.id));
      var stored := store.CreateEntry(entry);
    }

    /**
     * `LogUpdate`: appends one Update entry for `after.Id` stamped `now`, with a
     * before snapshot of `before` and an after snapshot of `after`.
     */
    method LogUpdate(before: User, after: User, now: Instant)
      requires store.Valid()
      modifies store
      ensures store.Valid()
      ensures store.entries == old(store.entries) + [AuditLogEntry(
        old(store.nextEntryId), now, Update, after.id,
        Some(SnapshotWithId(before, old(store.nextSnapshotId))),
        Some(SnapshotWithId(after, old(store.nextSnapshotId) + 1)),
        LogMessage(Update, after.id))]
      ensures store.snapshots == old(store.snapshots)[
        old(store.nextSnapshotId) := SnapshotWithId(before, old(store.nextSnapshotId))][
        old(store.nextSnapshotId) + 1 := SnapshotWithId(after, old(store.nextSnapshotId) + 1)]
      ensures store.nextEntryId == old(store.nextEntryId) + 1
      ensures store.nextSnapshotId == old(store.nextSnapshotId) + 2
      ensures store.users == old(store.users) && store.nextUserId == old(store.nextUserId)
    {
      var entry := AuditLogEntry(0, now, Update, after.id, Some(SnapshotOf(before)), Some(SnapshotOf(after)),
                                 LogMessage(Update, after.id));
      var stored := store.CreateEntry(entry);
    }

    /**
     * `LogDelete`: appends one Delete entry for `user` stamped `now`, whose
     * before snapshot copies the user and which has no after snapshot.
     */
    method LogDelete(user: User, now: Instant)
      requires store.Valid()
      modifies store
      ensures store.Valid()
      ensures store.entries == old(store.entries) + [AuditLogEntry(
        old(store.nextEntryId), now, Delete, user.id,
        Some(SnapshotWithId(user, old(store.nextSnapshotId))), None,
        LogMessage(Delete, user.id))]
      ensures store.snapshots == old(store.snapshots)[
        old(store.nextSnapshotId) := SnapshotWithId(user, old(store.nextSnapshotId))]
      ensures store.nextEntryId == old(store.nextEntryId) + 1
      ensures store.nextSnapshotId == old(store.nextSnapshotId) + 1
      ensures store.users == old(store.users) && store.nextUserId == old(store.nextUserId)
    {
      var entry := AuditLogEntry(0, now, Delete, user.id, Some(SnapshotOf(user)), None, LogMessage(Delete, user.id));
      var stored := store.CreateEntry(entry);
    }
  }
}
