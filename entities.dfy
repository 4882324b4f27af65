/**
 * The record shapes of the user store: users, audit-log snapshots and audit-log
 * entries, the calendar dates they carry, and the copy of a user's fields into
 * a snapshot.
 */
module Entities {
  import opened Wrappers

  /** A calendar date as a count of days since 0001-01-01, the default DateTime. */
  type Date = nat

  /** `default(DateTime)`: 0001-01-01. */
  const DefaultDate: Date := 0

  /** An instant read from the clock; only its identity matters to the model. */
  type Instant = nat

  predicate IsLeapYear(year: int) {
    year % 4 == 0 && (year % 100 != 0 || year % 400 == 0)
  }

  function DaysInMonth(year: int, month: int): nat
    requires 1 <= month <= 12
  {
    if month == 2 then (if IsLeapYear(year) then 29 else 28)
    else if month == 4 || month == 6 || month == 9 || month == 11 then 30
    else 31
  }

  /** The day number of a proleptic Gregorian date, as `new DateTime(year, month, day)` counts it. */
  function DateOf(year: int, month: int, day: int): (d: Date)
    requires 1 <= year && 1 <= month <= 12 && 1 <= day <= DaysInMonth(year, month)
    ensures d == DefaultDate <==> year == 1 && month == 1 && day == 1
  {
    var y := year - 1;
    var beforeMonth := [0, 31, 59, 90, 120, 151, 181, 212, 243, 273, 304, 334][month - 1];
    var leapDay := if month > 2 && IsLeapYear(year) then 1 else 0;
    365 * y + y / 4 - y / 100 + y / 400 + beforeMonth + leapDay + (day - 1)
  }

  /** User.cs: a user row; `id` is the store key. */
  datatype User = User(
    id: int,
    forename: string,
    surname: string,
    email: string,
    dateOfBirth: Date,
    isActive: bool)

  /** AuditLogSnapshot.cs: a copy of a user's fields, with its own store key. */
  datatype Snapshot = Snapshot(
    id: int,
    forename: string,
    surname: string,
    email: string,
    dateOfBirth: Date,
    isActive: bool)

  /** The three kinds of audited mutation. */
  datatype AuditLogAction = Create | Update | Delete

  /**
   * AuditLogEntry.cs: one audit record. `before` and `after` are the snapshots
   * the entry refers to (absent where the source leaves the navigation unset).
   */
  datatype AuditLogEntry = AuditLogEntry(
    id: int,
    time: Instant,
    action: AuditLogAction,
    userId: int,
    before: Option<Snapshot>,
    after: Option<Snapshot>,
    message: string)

  /** The snapshot `s` holds exactly the five copied fields of `user`. */
  predicate Describes(s: Snapshot, user: User) {
    && s.forename == user.forename
    && s.surname == user.surname
    && s.email == user.email
    && s.dateOfBirth == user.dateOfBirth
    && s.isActive == user.isActive
  }

  /** `new AuditLogSnapshot(user)`: copies the fields and leaves `Id` unset for the store. */
  function SnapshotOf(user: User): (s: Snapshot)
    ensures s.id == 0 && Describes(s, user)
  {
    Snapshot(0, user.forename, user.surname, user.email, user.dateOfBirth, user.isActive)
  }

  /** `new AuditLogSnapshot(user, id)`: the same copy, with the key given. */
  function SnapshotWithId(user: User, id: int): (s: Snapshot)
    ensures s == SnapshotOf(user).(id := id)
  {
    Snapshot(id, user.forename, user.surname, user.email, user.dateOfBirth, user.isActive)
  }

  /** The user a snapshot describes, under the given key (the inverse of the copy). */
  function UserFromSnapshot(s: Snapshot, id: int): User {
    User(id, s.forename, s.surname, s.email, s.dateOfBirth, s.isActive)
  }

  /** Nothing of the user but its key is lost in a snapshot. */
  lemma SnapshotRoundTrip(user: User)
    ensures UserFromSnapshot(SnapshotOf(user), user.id) == user
  {
  }

  /** Two users give equal snapshots exactly when they differ at most in `Id`. */
  lemma SnapshotIgnoresUserId(u: User, v: User)
    ensures SnapshotOf(u) == SnapshotOf(v) <==> u.(id := 0) == v.(id := 0)
  {
    if SnapshotOf(u) == SnapshotOf(v) {
      SnapshotRoundTrip(u);
      SnapshotRoundTrip(v);
    }
  }
}
