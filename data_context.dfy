/**
 * DataContext.cs: the seeded store of users, audit-log entries and snapshots,
 * and its generic create/update/delete, written here once per entity kind.
 */
module Data {
  import opened Wrappers
  import opened Entities
  import opened Formatting

  /** The eleven users seeded in OnModelCreating, in declaration order. */
  function SeedUsers(): (users: seq<User>)
    ensures |users| == 11
    ensures forall i :: 0 <= i < |users| ==> users[i].id == i + 1
  {
    [ User(1, "Peter", "Loew", "ploew@example.com", DateOf(1990, 6, 24), true),
      User(2, "Benjamin Franklin", "Gates", "bfgates@example.com", DateOf(1960, 4, 4), true),
      User(3, "Castor", "Troy", "ctroy@example.com", DateOf(1986, 2, 15), false),
      User(4, "Memphis", "Raines", "mraines@example.com", DateOf(1997, 11, 21), true),
      User(5, "Stanley", "Goodspeed", "sgodspeed@example.com", DateOf(1973, 6, 15), true),
      User(6, "H.I.", "McDunnough", "himcdunnough@example.com", DateOf(1978, 10, 17), true),
      User(7, "Cameron", "Poe", "cpoe@example.com", DateOf(1995, 3, 23), false),
      User(8, "Edward", "Malus", "emalus@example.com", DateOf(1955, 11, 5), false),
      User(9, "Damon", "Macready", "dmacready@example.com", DateOf(1963, 12, 25), false),
      User(10, "Johnny", "Blaze", "jblaze@example.com", DateOf(1994, 5, 21), true),
      User(11, "Robin", "Feld", "rfeld@example.com", DateOf(1985, 10, 25), true) ]
  }

  /** `users.Select((u, i) => new AuditLogSnapshot(u, i + 1))`. */
  function SeedSnapshots(users: seq<User>): seq<Snapshot> {
    seq(|users|, i requires 0 <= i < |users| => SnapshotWithId(users[i], i + 1))
  }

  /** `users.Select((u, i) => new AuditLogEntry { ... })`, stamped with the seeding instant. */
  function SeedEntries(users: seq<User>, now: Instant): seq<AuditLogEntry> {
    seq(|users|, i requires 0 <= i < |users| =>
      AuditLogEntry(i + 1, now, Create, users[i].id, None, Some(SnapshotWithId(users[i], i + 1)),
                    LogMessage(Create, users[i].id)))
  }

  /** Row i holds key i+1, as in the seed arrays. */
  predicate NumberedFromOne(users: seq<User>) {
    forall i :: 0 <= i < |users| ==> users[i].id == i + 1
  }

  /**
   * A table after `HasData(rows)`. `HasData` keys each row by its own Id; every
   * seed array has Id i+1 in row i (`NumberedFromOne`, `SeedSnapshots`), so
   * row i is stored under key i+1.
   */
  function SeedTable<T>(rows: seq<T>): (table: map<int, T>)
    ensures forall k :: k in table <==> 1 <= k <= |rows|
    ensures forall i :: 0 <= i < |rows| ==> table[i + 1] == rows[i]
    decreases |rows|
  {
    if rows == [] then map[]
    else SeedTable(rows[..|rows| - 1])[|rows| := rows[|rows| - 1]]
  }

  /** The i-th seeded snapshot has key i+1 and copies the i-th seeded user. */
  lemma SeedSnapshotsCopyUsers()
    ensures |SeedSnapshots(SeedUsers())| == |SeedUsers()|
    ensures forall i :: 0 <= i < |SeedUsers()| ==>
      SeedSnapshots(SeedUsers())[i].id == i + 1 && Describes(SeedSnapshots(SeedUsers())[i], SeedUsers()[i])
  {
  }

  /**
   * The i-th seeded entry is a Create with key i+1 for the i-th user, after
   * snapshot i+1 and no before snapshot; each seeded user has exactly one of them.
   */
  lemma SeedEntriesOnePerUser(now: Instant)
    ensures |SeedEntries(SeedUsers(), now)| == |SeedUsers()|
    ensures forall i :: 0 <= i < |SeedUsers()| ==>
      var e := SeedEntries(SeedUsers(), now)[i];
      && e.id == i + 1 && e.action == Create && e.userId == SeedUsers()[i].id
      && e.before.None? && e.after.Some? && e.after.value.id == i + 1
      && Describes(e.after.value, SeedUsers()[i])
      && e.message == LogMessage(Create, SeedUsers()[i].id)
    ensures forall i, j ::
      (0 <= i < |SeedUsers()| && 0 <= j < |SeedUsers()| &&
       SeedEntries(SeedUsers(), now)[j].userId == SeedUsers()[i].id) ==> i == j
  {
  }

  /** The store's failure when an insert names a key that is already taken. */
  datatype StoreError = DuplicateKey(id: int)

  /**
   * The entry a Create of `e` stores: the entry gets key `entryId`, and its
   * snapshots get the next snapshot keys, the before snapshot first.
   */
  function Persisted(e: AuditLogEntry, entryId: int, snapshotId: int): AuditLogEntry {
    var afterId := if e.before.Some? then snapshotId + 1 else snapshotId;
    e.(id := entryId,
       before := if e.before.Some? then Some(e.before.value.(id := snapshotId)) else None,
       after := if e.after.Some? then Some(e.after.value.(id := afterId)) else None)
  }

  /** The snapshot is absent, or stored under its own key. */
  predicate StoredIn(s: Option<Snapshot>, snapshots: map<int, Snapshot>) {
    s.Some? ==> s.value.id in snapshots && snapshots[s.value.id] == s.value
  }

  /** The snapshot table with `s`, if present, stored under its key. */
  function WithSnapshot(snapshots: map<int, Snapshot>, s: Option<Snapshot>): map<int, Snapshot> {
    if s.Some? then snapshots[s.value.id := s.value] else snapshots
  }

  /** The user table is keyed by each user's id. */
  predicate KeyedById(users: map<int, User>) {
    forall k :: k in users ==> users[k].id == k
  }

  /**
   * The store's consistency: keys match the rows and lie below the identity
   * generators, entries are in key order, and every snapshot an entry refers
   * to is stored under its key.
   */
  ghost predicate Consistent(users: map<int, User>, entries: seq<AuditLogEntry>,
                             snapshots: map<int, Snapshot>,
                             nextUserId: int, nextEntryId: int, nextSnapshotId: int)
  {
    && 1 <= nextUserId && 1 <= nextEntryId && 1 <= nextSnapshotId
    && KeyedById(users)
    && (forall k :: k in users ==> k < nextUserId)
    && (forall k :: k in snapshots ==> snapshots[k].id == k && k < nextSnapshotId)
    && (forall i, j :: 0 <= i < j < |entries| ==> entries[i].id < entries[j].id)
    && (forall i :: 0 <= i < |entries| ==> entries[i].id < nextEntryId)
    && (forall i :: 0 <= i < |entries| ==>
          StoredIn(entries[i].before, snapshots) && StoredIn(entries[i].after, snapshots))
  }

  /** Seeding any array numbered from one yields a consistent store whose generators start past it. */
  lemma {:induction false} SeedConsistent(users: seq<User>, now: Instant)
    requires NumberedFromOne(users)
    ensures Consistent(SeedTable(users), SeedEntries(users, now), SeedTable(SeedSnapshots(users)),
                       |users| + 1, |users| + 1, |users| + 1)
  {
    var table, entries, snapshots := SeedTable(users), SeedEntries(users, now), SeedTable(SeedSnapshots(users));
    assert KeyedById(table) && forall k :: k in snapshots ==> snapshots[k].id == k by {
      SeedTablesKeyed(users);
    }
    forall i | 0 <= i < |entries|
      ensures StoredIn(entries[i].before, snapshots) && StoredIn(entries[i].after, snapshots)
    {
      assert snapshots[i + 1] == SeedSnapshots(users)[i];
    }
  }

  lemma SeedTablesKeyed(users: seq<User>)
    requires NumberedFromOne(users)
    ensures KeyedById(SeedTable(users))
    ensures forall k :: k in SeedTable(SeedSnapshots(users)) ==>
      SeedTable(SeedSnapshots(users))[k].id == k
  {
    var table := SeedTable(users);
    forall k | k in table
      ensures table[k].id == k
    {
      assert table[(k - 1) + 1] == users[k - 1];
    }
    var projected := SeedSnapshots(users);
    var snapshots := SeedTable(projected);
    forall k | k in snapshots
      ensures snapshots[k].id == k
    {
      assert snapshots[(k - 1) + 1] == projected[k - 1];
    }
  }

  /**
   * Storing an entry under the next entry key, with its snapshots under the
   * next snapshot keys, keeps the store consistent.
   */
  lemma ConsistentAfterEntry(users: map<int, User>, entries: seq<AuditLogEntry>,
                             snapshots: map<int, Snapshot>,
                             nextUserId: int, nextEntryId: int, nextSnapshotId: int,
                             entry: AuditLogEntry)
    requires Consistent(users, entries, snapshots, nextUserId, nextEntryId, nextSnapshotId)
    ensures var stored := Persisted(entry, nextEntryId, nextSnapshotId);
      Consistent(users, entries + [stored],
                 WithSnapshot(WithSnapshot(snapshots, stored.before), stored.after),
                 nextUserId, nextEntryId + 1,
                 nextSnapshotId + (if entry.before.Some? then 1 else 0) + (if entry.after.Some? then 1 else 0))
  {
    var stored := Persisted(entry, nextEntryId, nextSnapshotId);
    var grown := WithSnapshot(WithSnapshot(snapshots, stored.before), stored.after);
    var entries' := entries + [stored];
    forall i | 0 <= i < |entries'|
      ensures StoredIn(entries'[i].before, grown) && StoredIn(entries'[i].after, grown)
    {
      if i < |entries| {
        assert entries'[i] == entries[i];
      }
    }
  }

  class DataContext {
    var users: map<int, User>
    var entries: seq<AuditLogEntry>
    var snapshots: map<int, Snapshot>
    /** The keys the identity generators hand out next. */
    var nextUserId: int
    var nextEntryId: int
    var nextSnapshotId: int

    ghost predicate Valid()
      reads this
    {
      Consistent(users, entries, snapshots, nextUserId, nextEntryId, nextSnapshotId)
    }

    /** `new DataContext()`: the store holding the seed of OnModelCreating, stamped at `now`. */
    constructor(now: Instant)
      ensures Valid()
      ensures users == SeedTable(SeedUsers())
      ensures entries == SeedEntries(SeedUsers(), now)
      ensures snapshots == SeedTable(SeedSnapshots(SeedUsers()))
      ensures nextUserId == 12 && nextEntryId == 12 && nextSnapshotId == 12
    {
      SeedConsistent(SeedUsers(), now);
      users := SeedTable(SeedUsers());
      entries := SeedEntries(SeedUsers(), now);
      snapshots := SeedTable(SeedSnapshots(SeedUsers()));
      nextUserId, nextEntryId, nextSnapshotId := 12, 12, 12;
    }

    /**
     * `Create<User>`: a user with unset key (0) gets the next generated key;
     * a user with a key already stored is refused and nothing changes.
     */
    method CreateUser(user: User) returns (r: Result<User, StoreError>)
      requires Valid()
      modifies this
      ensures Valid()
      ensures entries == old(entries) && snapshots == old(snapshots)
      ensures nextEntryId == old(nextEntryId) && nextSnapshotId == old(nextSnapshotId)
      ensures r.Failure? <==> user.id != 0 && user.id in old(users)
      ensures r.Failure? ==> r.error == DuplicateKey(user.id) && unchanged(this)
      ensures r.Success? ==>
        && r.value == (if user.id == 0 then user.(id := old(nextUserId)) else user)
        && r.value.id !in old(users)
        && users == old(users)[r.value.id := r.value]
      ensures nextUserId == if r.Success? && r.value.id >= old(nextUserId) then r.value.id + 1 else old(nextUserId)
    {
      if user.id != 0 && user.id in users {
        return Failure(DuplicateKey(user.id));
      }
      var stored := user;
      if user.id == 0 {
        stored := user.(id := nextUserId);
        nextUserId := nextUserId + 1;
      } else if user.id >= nextUserId {
        nextUserId := user.id + 1;
      }
      users := users[stored.id := stored];
      r := Success(stored);
    }

    /** `UpdateAsync<User>`: replaces the row with the user's key; false if there is none. */
    method UpdateUser(user: User) returns (found: bool)
      requires Valid()
      modifies this
      ensures Valid()
      ensures found <==> user.id in old(users)
      ensures users == if found then old(users)[user.id := user] else old(users)
      ensures entries == old(entries) && snapshots == old(snapshots)
      ensures nextUserId == old(nextUserId) && nextEntryId == old(nextEntryId)
      ensures nextSnapshotId == old(nextSnapshotId)
    {
      found := user.id in users;
      if found {
        users := users[user.id := user];
      }
    }

    /** `Delete<User>`: removes the row with the user's key; false if there is none. */
    method DeleteUser(user: User) returns (found: bool)
      requires Valid()
      modifies this
      ensures Valid()
      ensures found <==> user.id in old(users)
      ensures users == old(users) - {user.id}
      ensures entries == old(entries) && snapshots == old(snapshots)
      ensures nextUserId == old(nextUserId) && nextEntryId == old(nextEntryId)
      ensures nextSnapshotId == old(nextSnapshotId)
    {
      found := user.id in users;
      users := users - {user.id};
    }

    /**
     * `Create<AuditLogEntry>`: stores a new entry and the new snapshots it refers
     * to under freshly generated keys, and appends it to the log.
     */
    method CreateEntry(entry: AuditLogEntry) returns (stored: AuditLogEntry)
      requires Valid()
      requires entry.id == 0
      requires entry.before.Some? ==> entry.before.value.id == 0
      requires entry.after.Some? ==> entry.after.value.id == 0
      modifies this
      ensures Valid()
      ensures stored == Persisted(entry, old(nextEntryId), old(nextSnapshotId))
      ensures entries == old(entries) + [stored]
      ensures stored.before.Some? ==> stored.before.value.id !in old(snapshots)
      ensures stored.after.Some? ==> stored.after.value.id !in old(snapshots)
      ensures snapshots == WithSnapshot(WithSnapshot(old(snapshots), stored.before), stored.after)
      ensures nextEntryId == old(nextEntryId) + 1
      ensures nextSnapshotId == old(nextSnapshotId)
        + (if entry.before.Some? then 1 else 0) + (if entry.after.Some? then 1 else 0)
      ensures users == old(users) && nextUserId == old(nextUserId)
    {
      stored := Persisted(entry, nextEntryId, nextSnapshotId);
      if stored.before.Some? {
        snapshots := WithSnapshot(snapshots, stored.before);
        nextSnapshotId := nextSnapshotId + 1;
      }
      if stored.after.Some? {
        snapshots := WithSnapshot(snapshots, stored.after);
        nextSnapshotId := nextSnapshotId + 1;
      }
      entries := entries + [stored];
      nextEntryId := nextEntryId + 1;
      ConsistentAfterEntry(old(users), old(entries), old(snapshots),
                           old(nextUserId), old(nextEntryId), old(nextSnapshotId), entry);
    }
  }
}
