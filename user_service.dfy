/**
 * UserService.cs: queries over the user table and the three mutations, each of
 * which writes the user table and then appends one audit-log entry.
 */
module Users {
  import opened Wrappers
  import opened Entities
  import opened Formatting
  import opened Data
  import opened AuditLogs

  /** `GetAll`: the stored users. */
  function GetAll(users: map<int, User>): map<int, User> {
    users
  }

  /** `FilterByActive`: the stored users whose IsActive flag is `isActive`. */
  function FilterByActive(users: map<int, User>, isActive: bool): (r: map<int, User>)
    ensures forall id :: id in r <==> id in users && users[id].isActive == isActive
    ensures forall id :: id in r ==> r[id] == users[id]
  {
    map id | id in users && users[id].isActive == isActive :: users[id]
  }

  /** The active and the inactive users split `GetAll` between them. */
  lemma FilterByActivePartition(users: map<int, User>)
    ensures FilterByActive(users, true).Keys !! FilterByActive(users, false).Keys
    ensures FilterByActive(users, true) + FilterByActive(users, false) == GetAll(users)
  {
    var both := FilterByActive(users, true) + FilterByActive(users, false);
    assert both.Keys == users.Keys;
  }

  /** `GetUserById`: the stored user whose Id is `id`, or null. */
  function GetUserById(users: map<int, User>, id: int): (r: Option<User>)
    requires KeyedById(users)
    ensures r.Some? <==> exists k :: k in users && users[k].id == id
    ensures r.Some? ==> r.value in users.Values && r.value.id == id
    ensures r.Some? ==> id in users && r.value == users[id]
  {
    if id in users then Some(users[id]) else None
  }

  /** The position of the latest entry about user `userId`, or -1 if there is none. */
  function LatestIndexFor(entries: seq<AuditLogEntry>, userId: int): (k: int)
    ensures -1 <= k < |entries|
    ensures k >= 0 ==> entries[k].userId == userId
    ensures forall j :: k < j < |entries| ==> entries[j].userId != userId
    decreases |entries|
  {
    if entries == [] then -1
    else if entries[|entries| - 1].userId == userId then |entries| - 1
    else LatestIndexFor(entries[..|entries| - 1], userId)
  }

  /** Appending an entry makes it the latest for its user and changes no other user's latest. */
  lemma LatestIndexForAppend(entries: seq<AuditLogEntry>, e: AuditLogEntry, userId: int)
    ensures LatestIndexFor(entries + [e], userId)
         == if e.userId == userId then |entries| else LatestIndexFor(entries, userId)
  {
    assert (entries + [e])[..|entries|] == entries;
  }

  /**
   * The snapshots an entry carries fit its action (Create has no before, Delete
   * no after, Update both), and its message names its action and its user.
   */
  predicate WellShaped(e: AuditLogEntry) {
    && e.message == LogMessage(e.action, e.userId)
    && match e.action
       case Create => e.before.None? && e.after.Some?
       case Update => e.before.Some? && e.after.Some?
       case Delete => e.before.Some? && e.after.None?
  }

  /** In an audit-consistent log, an entry's message alone tells its action and its user. */
  lemma MessageIdentifiesEntry(users: map<int, User>, entries: seq<AuditLogEntry>, nextUserId: int, i: int, j: int)
    requires AuditConsistent(users, entries, nextUserId)
    requires 0 <= i < |entries| && 0 <= j < |entries|
    requires entries[i].message == entries[j].message
    ensures entries[i].action == entries[j].action && entries[i].userId == entries[j].userId
  {
    assert WellShaped(entries[i]) && WellShaped(entries[j]);
    LogMessageInjective(entries[i].action, entries[i].userId, entries[j].action, entries[j].userId);
  }

  /**
   * The log tells the current state of every user: a stored user's latest
   * entry has an after snapshot of its current fields, and an id with no
   * stored user has no entry or a Delete as its latest.
   */
  ghost predicate HistoryAgrees(users: map<int, User>, entries: seq<AuditLogEntry>) {
    forall id {:trigger LatestIndexFor(entries, id)} ::
      var k := LatestIndexFor(entries, id);
      && (id in users ==> k >= 0 && entries[k].after.Some? && Describes(entries[k].after.value, users[id]))
      && (id !in users ==> k < 0 || entries[k].action == Delete)
  }

  /** The audit invariant of the user store. */
  ghost predicate AuditConsistent(users: map<int, User>, entries: seq<AuditLogEntry>, nextUserId: int) {
    && (forall i :: 0 <= i < |entries| ==> WellShaped(entries[i]) && entries[i].userId < nextUserId)
    && HistoryAgrees(users, entries)
  }

  /** Writing `user` and logging an entry with an after snapshot of it keeps the log in step. */
  lemma HistoryAfterWrite(users: map<int, User>, entries: seq<AuditLogEntry>, user: User, e: AuditLogEntry)
    requires HistoryAgrees(users, entries)
    requires e.userId == user.id && e.after.Some? && Describes(e.after.value, user)
    ensures HistoryAgrees(users[user.id := user], entries + [e])
  {
    forall id
      ensures var k := LatestIndexFor(entries + [e], id);
        && (id in users[user.id := user] ==>
              k >= 0 && (entries + [e])[k].after.Some?
              && Describes((entries + [e])[k].after.value, users[user.id := user][id]))
        && (id !in users[user.id := user] ==> k < 0 || (entries + [e])[k].action == Delete)
    {
      LatestIndexForAppend(entries, e, id);
    }
  }

  /** Removing the user with key `e.userId` and logging a Delete keeps the log in step. */
  lemma HistoryAfterDelete(users: map<int, User>, entries: seq<AuditLogEntry>, e: AuditLogEntry)
    requires HistoryAgrees(users, entries)
    requires e.action == Delete
    ensures HistoryAgrees(users - {e.userId}, entries + [e])
  {
    forall id
      ensures var k := LatestIndexFor(entries + [e], id);
        && (id in users - {e.userId} ==>
              k >= 0 && (entries + [e])[k].after.Some?
              && Describes((entries + [e])[k].after.value, (users - {e.userId})[id]))
        && (id !in users - {e.userId} ==> k < 0 || (entries + [e])[k].action == Delete)
    {
      LatestIndexForAppend(entries, e, id);
    }
  }

  /** Writing `user` and logging a well-shaped entry for it keeps the audit invariant. */
  lemma AuditAfterWrite(users: map<int, User>, entries: seq<AuditLogEntry>, nextUserId: int,
                        user: User, e: AuditLogEntry, newNextUserId: int)
    requires AuditConsistent(users, entries, nextUserId)
    requires WellShaped(e) && e.userId == user.id && e.after.Some? && Describes(e.after.value, user)
    requires nextUserId <= newNextUserId && user.id < newNextUserId
    ensures AuditConsistent(users[user.id := user], entries + [e], newNextUserId)
  {
    HistoryAfterWrite(users, entries, user, e);
    ShapesAfterAppend(entries, e, nextUserId, newNextUserId);
  }

  /** Removing the user with key `e.userId` and logging a well-shaped Delete for it keeps the audit invariant. */
  lemma AuditAfterDelete(users: map<int, User>, entries: seq<AuditLogEntry>, nextUserId: int, e: AuditLogEntry)
    requires AuditConsistent(users, entries, nextUserId)
    requires WellShaped(e) && e.action == Delete && e.userId < nextUserId
    ensures AuditConsistent(users - {e.userId}, entries + [e], nextUserId)
  {
    HistoryAfterDelete(users, entries, e);
    ShapesAfterAppend(entries, e, nextUserId, nextUserId);
  }

  lemma ShapesAfterAppend(entries: seq<AuditLogEntry>, e: AuditLogEntry, nextUserId: int, newNextUserId: int)
    requires forall i :: 0 <= i < |entries| ==> WellShaped(entries[i]) && entries[i].userId < nextUserId
    requires WellShaped(e) && e.userId < newNextUserId && nextUserId <= newNextUserId
    ensures forall i :: 0 <= i < |entries + [e]| ==>
      WellShaped((entries + [e])[i]) && (entries + [e])[i].userId < newNextUserId
  {
    forall i | 0 <= i < |entries + [e]|
      ensures WellShaped((entries + [e])[i]) && (entries + [e])[i].userId < newNextUserId
    {
      if i < |entries| {
        assert (entries + [e])[i] == entries[i];
      }
    }
  }

  /**
   * In an audit-consistent store, `GetUserById` finds a user exactly when the
   * latest log entry about that id has an after snapshot, and that snapshot
   * describes the user found.
   */
  lemma CurrentStateFromHistory(users: map<int, User>, entries: seq<AuditLogEntry>, nextUserId: int, id: int)
    requires KeyedById(users) && AuditConsistent(users, entries, nextUserId)
    ensures var k := LatestIndexFor(entries, id);
      GetUserById(users, id).Some? <==> k >= 0 && entries[k].after.Some?
    ensures var k := LatestIndexFor(entries, id);
      GetUserById(users, id).Some? ==> Describes(entries[k].after.value, GetUserById(users, id).value)
  {
    var k := LatestIndexFor(entries, id);
    if id !in users && k >= 0 {
      assert WellShaped(entries[k]);
    }
  }

  /** The seeded store is audit-consistent: each seeded user's only entry is its Create. */
  lemma SeedAuditConsistent(now: Instant)
    ensures AuditConsistent(SeedTable(SeedUsers()), SeedEntries(SeedUsers(), now), 12)
  {
    var users := SeedUsers();
    var table := SeedTable(users);
    var entries := SeedEntries(users, now);
    SeedEntriesOnePerUser(now);
    forall id
      ensures var k := LatestIndexFor(entries, id);
        && (id in table ==> k >= 0 && entries[k].after.Some? && Describes(entries[k].after.value, table[id]))
        && (id !in table ==> k < 0 || entries[k].action == Delete)
    {
      var k := LatestIndexFor(entries, id);
      if id in table {
        assert entries[id - 1].userId == id;
        assert k == id - 1;
        assert table[(id - 1) + 1] == users[id - 1];
      }
    }
  }

  /** The errors UserService reports: its own exception, or the store's, passed on. */
  datatype UserServiceError =
    | UserMissingFromDataContext(id: int)
    | StoreFailure(cause: StoreError)
  {
    /** The text of the service's own exception; a store fault carries the store's text, not modelled. */
    function Message(): Option<string> {
      match this
      case UserMissingFromDataContext(id) => Some(UserMissingMessage(id))
      case StoreFailure(_) => None
    }
  }

  /** The missing-user exception's message tells which user was missing. */
  lemma MissingUserMessageIdentifiesUser(a: UserServiceError, b: UserServiceError)
    requires a.UserMissingFromDataContext? && b.UserMissingFromDataContext?
    requires a.Message() == b.Message()
    ensures a == b
  {
    UserMissingMessageInjective(a.id, b.id);
  }

  class UserService {
    const store: DataContext
    const auditLog: AuditLogService

    ghost predicate Valid()
      reads store
    {
      && auditLog.store == store
      && store.Valid()
      && AuditConsistent(store.users, store.entries, store.nextUserId)
    }

    constructor(store: DataContext, auditLog: AuditLogService)
      requires auditLog.store == store && store.Valid()
      requires AuditConsistent(store.users, store.entries, store.nextUserId)
      ensures this.store == store && this.auditLog == auditLog
      ensures Valid()
    {
      this.store := store;
      this.auditLog := auditLog;
    }

    /**
     * `CreateUser`: stores the user (the store fills in an unset key) and then
     * appends one Create entry for the stored user. A key already taken fails
     * in the store and nothing is logged.
     */
    method CreateUser(user: User, now: Instant) returns (r: Result<User, UserServiceError>)
      requires Valid()
      modifies store
      ensures Valid()
      ensures r.Failure? <==> user.id != 0 && user.id in old(store.users)
      ensures r.Failure? ==> r.error == StoreFailure(DuplicateKey(user.id)) && unchanged(store)
      ensures r.Success? ==>
        && r.value == (if user.id == 0 then user.(id := old(store.nextUserId)) else user)
        && r.value.id !in old(store.users)
        && store.users == old(store.users)[r.value.id := r.value]
        && store.entries == old(store.entries) + [AuditLogEntry(
             old(store.nextEntryId), now, Create, r.value.id,
             None, Some(SnapshotWithId(r.value, old(store.nextSnapshotId))),
             LogMessage(Create, r.value.id))]
        && store.snapshots == old(store.snapshots)[
             old(store.nextSnapshotId) := SnapshotWithId(r.value, old(store.nextSnapshotId))]
        && store.nextEntryId == old(store.nextEntryId) + 1
        && store.nextSnapshotId == old(store.nextSnapshotId) + 1
        && store.nextUserId == if r.value.id >= old(store.nextUserId) then r.value.id + 1 else old(store.nextUserId)
      ensures r.Success? && user.id == 0 ==>
        forall i :: 0 <= i < |old(store.entries)| ==> store.entries[i].userId != r.value.id
    {
      var created := store.CreateUser(user);
      if created.Failure? {
        return Failure(StoreFailure(created.error));
      }
      var persisted := created.value;
      auditLog.LogCreate(persisted, now);
      AuditAfterWrite(old(store.users), old(store.entries), old(store.nextUserId), persisted,
                      store.entries[|store.entries| - 1], store.nextUserId);
      r := Success(persisted);
    }

    /**
     * `UpdateUser`: reads the stored user with the same key before the write;
     * if there is none it fails and changes nothing. Otherwise it replaces that
     * user and appends one Update entry from the value read to the new one.
     */
    method UpdateUser(user: User, now: Instant) returns (r: Outcome<UserServiceError>)
      requires Valid()
      modifies store
      ensures Valid()
      ensures r.Fail? <==> user.id !in old(store.users)
      ensures r.Fail? ==> r.error == UserMissingFromDataContext(user.id) && unchanged(store)
      ensures r.Fail? ==> r.error.Message() == Some(UserMissingMessage(user.id))
      ensures r.Pass? ==>
        && store.users == old(store.users)[user.id := user]
        && store.entries == old(store.entries) + [AuditLogEntry(
             old(store.nextEntryId), now, Update, user.id,
             Some(SnapshotWithId(old(store.users)[user.id], old(store.nextSnapshotId))),
             Some(SnapshotWithId(user, old(store.nextSnapshotId) + 1)),
             LogMessage(Update, user.id))]
        && store.snapshots == old(store.snapshots)[
             old(store.nextSnapshotId) := SnapshotWithId(old(store.users)[user.id], old(store.nextSnapshotId))][
             old(store.nextSnapshotId) + 1 := SnapshotWithId(user, old(store.nextSnapshotId) + 1)]
        && store.nextEntryId == old(store.nextEntryId) + 1
        && store.nextSnapshotId == old(store.nextSnapshotId) + 2
        && store.nextUserId == old(store.nextUserId)
    {
      var oldUser := GetUserById(store.users, user.id);
      if oldUser.None? {
        return Fail(UserMissingFromDataContext(user.id));
      }
      assert oldUser.value == old(store.users)[user.id];
      var found := store.UpdateUser(user);
      ghost var e := AuditLogEntry(store.nextEntryId, now, Update, user.id,
        Some(SnapshotWithId(oldUser.value, store.nextSnapshotId)),
        Some(SnapshotWithId(user, store.nextSnapshotId + 1)),
        LogMessage(Update, user.id));
      ghost var entries1 := store.entries;
      auditLog.LogUpdate(oldUser.value, user, now);
      assert store.entries == entries1 + [e];
      AuditAfterWrite(old(store.users), old(store.entries), old(store.nextUserId), user, e, store.nextUserId);
      r := Pass;
    }

    /**
     * `DeleteUser`: removes the user with the same key and appends one Delete
     * entry whose before snapshot copies the user given. The caller checks that
     * the user exists.
     */
    method DeleteUser(user: User, now: Instant)
      requires Valid()
      requires user.id in store.users
      modifies store
      ensures Valid()
      ensures store.users == old(store.users) - {user.id}
      ensures store.entries == old(store.entries) + [AuditLogEntry(
        old(store.nextEntryId), now, Delete, user.id,
        Some(SnapshotWithId(user, old(store.nextSnapshotId))), None,
        LogMessage(Delete, user.id))]
      ensures store.snapshots == old(store.snapshots)[
        old(store.nextSnapshotId) := SnapshotWithId(user, old(store.nextSnapshotId))]
      ensures store.nextEntryId == old(store.nextEntryId) + 1
      ensures store.nextSnapshotId == old(store.nextSnapshotId) + 1
      ensures store.nextUserId == old(store.nextUserId)
    {
      var found := store.DeleteUser(user);
      auditLog.LogDelete(user, now);
      AuditAfterDelete(old(store.users), old(store.entries), old(store.nextUserId), store.entries[|store.entries| - 1]);
    }
  }
}
