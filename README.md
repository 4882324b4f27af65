# User management: the audit-logged user store and the new-user validator

This project models the core of a small user-management application in Dafny
and proves properties of the model. It has two parts.

1. **The audit-logged user store.** The data context holds a user table, an
   append-only log of audit entries, and a table of snapshots that the
   entries refer to. Its seed has eleven users, each with one Create entry
   and one snapshot. `UserService` creates, updates and deletes users. Each
   successful mutation writes the user table and then asks `AuditLogService`
   to append one entry, carrying a before and/or after snapshot of the user's
   fields. Queries filter users by their active flag, look a user up by id,
   filter log entries by action and look an entry up by id.
2. **`CreateUserViewModelValidator`.** It maps a candidate user (forename,
   surname, email, date of birth, active flag) and today's date to the list
   of failed rules, as (property name, message) pairs.

Modules, one per source file:

- `Wrappers`: `Option`, `Result` and `Outcome`. `Option` stands for C#'s null.
- `Entities`: dates as day counts, the `User`, snapshot and audit-entry
  records, and the snapshot copy (`AuditLogSnapshot.cs`).
- `Formatting`: the id-in-quotes messages of the log and of the
  missing-user exception, and decimal rendering of ids.
- `Data`: the seed and the store (`DataContext.cs`). The store is a class
  with the three tables and the three identity generators as fields.
- `AuditLogs`: the log queries, and the class whose methods append entries
  (`AuditLogService.cs`).
- `Users`: the user queries, the audit invariant, and the class whose
  methods mutate the store (`UserService.cs`).
- `Validation`: the four field rules and their composition
  (`CreateUserViewModelValidator.cs`).

Representation:

- A `DateTime` is a `nat` day count from 0001-01-01. So `default(DateTime)` is 0,
  and `DateOf(y, m, d)` computes the count for a calendar date.
- The clock is an explicit `now` or `today` parameter.
- A key of 0 means "not yet assigned". The store hands out keys from its
  generators. After the seed, each generator is past the highest seeded key,
  so the next key is 12.
- An audit entry holds its before and after snapshots as `Option<Snapshot>`.
  Each snapshot carries its own store key. The store invariant says every
  snapshot an entry carries is stored under that key. This plays the role of
  the `Include` joins in `GetAuditLogEntryById`.
- The store invariant is `Data.Consistent`. The user service adds the audit
  invariant `Users.AuditConsistent`:
  - every entry's snapshots fit its action;
  - every logged user id is below the user key generator;
  - every stored user's latest log entry has an after snapshot of its
    current fields;
  - every other id's latest entry is absent or a Delete.

  The seed satisfies both invariants (`Data.SeedConsistent`,
  `Users.SeedAuditConsistent`), and every mutation keeps them.
- The validator's email rule assumes a FluentValidation version whose
  `EmailAddress()` defaults to the ASP.NET-Core-compatible mode. The package
  version is not recorded in the files modelled. In that mode the value passes when it is null,
  or when its first `@` is neither its first nor its last character and is
  also its last `@`. `NotEmpty()` on a string fails for null, empty and
  all-whitespace values, using .NET's Unicode whitespace set. All of a
  property's checks run, so every failure is reported.

## Model

| member | source | states |
|---|---|---|
| Entities.DateOf | UserManagement.Services/Implementations/Validation/CreateUserViewModelValidator.cs:20 | A calendar date's day count is the default date exactly when the date is 0001-01-01, the value of `default(DateTime)` |
| Entities.SnapshotOf | UserManagement.Data/Entities/AuditLogSnapshot.cs:11-18 | The one-argument snapshot copies forename, surname, email, date of birth and active flag exactly, and leaves its key unset (0) for the store |
| Entities.SnapshotWithId | UserManagement.Data/Entities/AuditLogSnapshot.cs:20-28 | The two-argument snapshot is the same copy, with its key set to the id given |
| Entities.SnapshotRoundTrip | UserManagement.Data/Entities/AuditLogSnapshot.cs:11-18 | A snapshot loses nothing of the user but the user's key: rebuilding a user from it under that key gives the user back |
| Entities.SnapshotIgnoresUserId | UserManagement.Data/Entities/AuditLogSnapshot.cs:11-18 | Two users give equal snapshots if and only if they differ at most in their key |
| Formatting.IntRoundTrip | UserManagement.Services/Implementations/AuditLogs/AuditLogService.cs:43 | `IntToString`, the decimal text of an id inside a message, reads back as the same id |
| Formatting.QuotedIdMessageInjective | UserManagement.Services/Implementations/AuditLogs/AuditLogService.cs:36-77 | A message "<prefix>'<id>'" determines its id: two messages with one prefix are equal only for equal ids |
| Formatting.LogMessage | UserManagement.Services/Implementations/AuditLogs/AuditLogService.cs:36-77 | The message of an entry: "User created with ID '<id>'", "User updated …" or "User deleted …" by action; `LogMessageInjective` gives its meaning |
| Formatting.LogMessageInjective | UserManagement.Services/Implementations/AuditLogs/AuditLogService.cs:36-77 | Two log messages are equal only when both their actions and their user ids are equal, so a message names its action and its user |
| Formatting.UserMissingMessageInjective | UserManagement.Services/Exceptions/UserMissingFromDataContextException.cs:7 | The missing-user exception's message determines the id it names |
| Formatting.UserMissingMessage | UserManagement.Services/Exceptions/UserMissingFromDataContextException.cs:7 | The exception's text "User with id '<id>' could not be found in the data context"; `UserMissingMessageInjective` shows it names the id |
| Data.SeedUsers | UserManagement.Data/DataContext.cs:19-32 | The seed has eleven users, and the i-th (from 0) has key i+1, so the keys are distinct and run from 1 to 11 |
| Data.SeedSnapshots | UserManagement.Data/DataContext.cs:47 | Snapshot i copies user i under key i+1; its meaning is stated by `SeedSnapshotsCopyUsers` |
| Data.SeedEntries | UserManagement.Data/DataContext.cs:36-45 | Entry i is user i's Create entry; its fields and the one-entry-per-user property are stated by `SeedEntriesOnePerUser` |
| Data.SeedTable | UserManagement.Data/DataContext.cs:34-52 | Seeding an array of users or snapshots stores row i under key i+1, and the table holds exactly keys 1 to the array's length |
| Data.SeedSnapshotsCopyUsers | UserManagement.Data/DataContext.cs:47 | The i-th seeded snapshot has key i+1 and copies the five fields of the i-th seeded user |
| Data.SeedEntriesOnePerUser | UserManagement.Data/DataContext.cs:36-45 | The i-th seeded entry has key i+1, action Create, the i-th user's key, no before snapshot, after snapshot i+1 copying that user, and message "User created with ID '<id>'"; each seeded user has exactly one seeded entry |
| Data.SeedConsistent | UserManagement.Data/DataContext.cs:17-53 | Seeding any array numbered from 1 gives a consistent store: keys match rows, entries are in key order, every referenced snapshot is stored under its key, and the generators start past the seed |
| Data.DataContext.constructor | UserManagement.Data/DataContext.cs:12-53 | A new context holds exactly the seeded users, entries and snapshots, is consistent, and its generators next hand out key 12 |
| Data.DataContext.CreateUser | UserManagement.Data/DataContext.cs:62-66 | Create fails, changing nothing, exactly when the user's key is set and already taken. Otherwise an unset key gets the next generated key, the stored user is the one returned and is visible in the table, the generator moves past the stored key, and every other user, the log and the snapshots are unchanged |
| Data.DataContext.UpdateUser | UserManagement.Data/DataContext.cs:68-72 | Update reports whether the key was stored; if so it replaces that row with the user, and in every case leaves all other rows, the log and the snapshots untouched |
| Data.DataContext.DeleteUser | UserManagement.Data/DataContext.cs:74-78 | Delete removes the row with the user's key and leaves every other row, the log and the snapshots untouched |
| Data.DataContext.CreateEntry | UserManagement.Data/DataContext.cs:62-66 | Creating an entry appends it under the next entry key; its snapshots are stored under fresh keys (the before snapshot first); nothing already stored changes, and the store stays consistent |
| Data.ConsistentAfterEntry | UserManagement.Data/DataContext.cs:62-66 | Storing an entry under the next entry key, with its snapshots under the next snapshot keys, keeps every consistency condition of the store |
| Data.Persisted | UserManagement.Data/DataContext.cs:62-66 | The keys the store gives an entry and its new snapshots; `DataContext.CreateEntry` states that they are fresh and that the store stays consistent |
| AuditLogs.FilterByAction | UserManagement.Services/Implementations/AuditLogs/AuditLogService.cs:25-27 | An entry is in the result if and only if it is stored and has the given action |
| AuditLogs.GetAll | UserManagement.Services/Implementations/AuditLogs/AuditLogService.cs:23 | Every stored entry in store order; `FilterByActionPartition` shows that the three action filters split it |
| AuditLogs.FilterByActionAppend | UserManagement.Services/Implementations/AuditLogs/AuditLogService.cs:25-27 | The filter keeps store order: a newly appended entry goes at the end of the one filter its action matches, and every other filter is unchanged |
| AuditLogs.FilterByActionPartition | UserManagement.Services/Implementations/AuditLogs/AuditLogService.cs:23-27 | The Create, Update and Delete filters together hold every entry of `GetAll` exactly as often as it is stored |
| AuditLogs.FirstIndexWithId | UserManagement.Services/Implementations/AuditLogs/AuditLogService.cs:29-34 | The position found holds the key, and no earlier entry holds it; past the end means no entry holds it |
| AuditLogs.GetAuditLogEntryById | UserManagement.Services/Implementations/AuditLogs/AuditLogService.cs:29-34 | The lookup is null exactly when no stored entry has the key; otherwise it is a stored entry with that key |
| AuditLogs.GetAuditLogEntryByIdFindsStored | UserManagement.Services/Implementations/AuditLogs/AuditLogService.cs:29-34 | In a consistent store, an entry's key finds that very entry, and the snapshots it carries are the ones stored under their keys |
| AuditLogs.AuditLogService.LogCreate | UserManagement.Services/Implementations/AuditLogs/AuditLogService.cs:36-48 | Appends exactly one entry: action Create, stamped now, the user's key, no before snapshot, an after snapshot copying the user under the next snapshot key, and message "User created with ID '<id>'"; users and earlier entries are unchanged |
| AuditLogs.AuditLogService.LogUpdate | UserManagement.Services/Implementations/AuditLogs/AuditLogService.cs:50-63 | Appends exactly one Update entry with the after user's key, a before snapshot of `before`, an after snapshot of `after`, and message "User updated with ID '<id>'"; users and earlier entries are unchanged |
| AuditLogs.AuditLogService.LogDelete | UserManagement.Services/Implementations/AuditLogs/AuditLogService.cs:65-77 | Appends exactly one Delete entry with the user's key, a before snapshot of the user, no after snapshot, and message "User deleted with ID '<id>'"; users and earlier entries are unchanged |
| AuditLogs.AuditLogService.constructor | UserManagement.Services/Implementations/AuditLogs/AuditLogService.cs:17-21 | The service writes to the store it is given |
| Users.FilterByActive | UserManagement.Services/Implementations/UserService.cs:29-31 | A user is in the result if and only if it is stored and its active flag equals the one asked for, with its stored value |
| Users.FilterByActivePartition | UserManagement.Services/Implementations/UserService.cs:29-33 | The active and the inactive users are disjoint, and together they are `GetAll` |
| Users.GetAll | UserManagement.Services/Implementations/UserService.cs:33 | The stored users unchanged; `FilterByActivePartition` shows the active and inactive filters split it |
| Users.GetUserById | UserManagement.Services/Implementations/UserService.cs:57-59 | The lookup finds a user if and only if some stored user has the id; the user found is stored and has that id |
| Users.LatestIndexForAppend | UserManagement.Services/Implementations/AuditLogs/AuditLogService.cs:36-77 | An appended entry becomes the latest about its user and changes no other user's latest entry |
| Users.HistoryAfterWrite | UserManagement.Services/Implementations/UserService.cs:34-55 | Writing a user and logging an entry whose after snapshot describes it keeps the log in step with the user table |
| Users.HistoryAfterDelete | UserManagement.Services/Implementations/UserService.cs:61-65 | Removing a user and logging a Delete for its key keeps the log in step with the user table |
| Users.CurrentStateFromHistory | UserManagement.Services/Implementations/UserService.cs:57-59 | Under the audit invariant, `GetUserById` finds a user if and only if the latest log entry about that id has an after snapshot, and that snapshot describes the user found |
| Users.SeedAuditConsistent | UserManagement.Data/DataContext.cs:19-52 | The seeded store meets the audit invariant: each seeded user's latest entry is its Create, whose snapshot describes it |
| Users.MessageIdentifiesEntry | UserManagement.Services/Implementations/AuditLogs/AuditLogService.cs:36-77 | In an audit-consistent log, two entries with the same message have the same action and the same user |
| Users.MissingUserMessageIdentifiesUser | UserManagement.Services/Implementations/UserService.cs:48-51 | Two missing-user errors with the same message are the same error, so the message names the missing user |
| Users.UserService.constructor | UserManagement.Services/Implementations/UserService.cs:18-22 | The service uses the store it is given, through a log service writing to that same store, and starts in its invariant |
| Users.UserService.CreateUser | UserManagement.Services/Implementations/UserService.cs:34-38 | Stores the user with the key the store fills in, then appends exactly one Create entry for that stored key and adds exactly its after snapshot under the next snapshot key; the entry and snapshot generators advance by one and the user generator moves past the stored key; a taken key fails in the store and changes nothing; a newly generated key has no earlier entry; the audit invariant is kept |
| Users.UserService.UpdateUser | UserManagement.Services/Implementations/UserService.cs:40-55 | Fails with UserMissingFromDataContext(id), whose message names the id, changing neither users nor log, exactly when the key is not stored. Otherwise it replaces only that user and appends exactly one Update entry, whose before snapshot is the value stored before the write and whose after snapshot is the user given; exactly those two snapshots are added, the entry generator advances by one, the snapshot generator by two, and the user generator stays; the audit invariant is kept |
| Users.UserService.DeleteUser | UserManagement.Services/Implementations/UserService.cs:61-65 | Removes the user's row and appends exactly one Delete entry with a before snapshot of the user, adding exactly that snapshot; the entry and snapshot generators advance by one and the user generator stays; earlier entries, including those about this user, stay as they were; the audit invariant is kept |
| Validation.IndexOf | UserManagement.Services/Implementations/Validation/CreateUserViewModelValidator.cs:18 | The position found holds the character, and no earlier position does; -1 means no position does |
| Validation.LastIndexOf | UserManagement.Services/Implementations/Validation/CreateUserViewModelValidator.cs:18 | The position found holds the character, and no later position does; -1 means no position does |
| Validation.IsEmailAddressMeaning | UserManagement.Services/Implementations/Validation/CreateUserViewModelValidator.cs:18 | The email check accepts a string if and only if it has exactly one '@', with at least one character before it and one after it |
| Validation.IsEmailAddress | UserManagement.Services/Implementations/Validation/CreateUserViewModelValidator.cs:18 | `EmailAddress()` on a present value: the first '@' is neither first nor last and is also the last; `IsEmailAddressMeaning` gives its meaning |
| Validation.NoAtIsNotAddress | UserManagement.Services/Implementations/Validation/CreateUserViewModelValidator.cs:18 | A string with no '@' fails the email check |
| Validation.MisplacedAtIsNotAddress | UserManagement.Services/Implementations/Validation/CreateUserViewModelValidator.cs:18 | A string that starts or ends with '@' fails the email check |
| Validation.IsWhiteSpace | UserManagement.Services/Implementations/Validation/CreateUserViewModelValidator.cs:13 | .NET's `char.IsWhiteSpace`: the Unicode White_Space code points |
| Validation.IsNullOrWhiteSpace | UserManagement.Services/Implementations/Validation/CreateUserViewModelValidator.cs:13 | The test behind `NotEmpty()` on a string: null, or every character whitespace; `BlankTestValuesAreBlank` and the forename and surname rules give its meaning |
| Validation.ForenameRule | UserManagement.Services/Implementations/Validation/CreateUserViewModelValidator.cs:12-13 | Passes exactly when the forename is present and has a non-whitespace character; otherwise reports only "Forename must not be empty or whitespace" |
| Validation.SurnameRule | UserManagement.Services/Implementations/Validation/CreateUserViewModelValidator.cs:14-15 | Passes exactly when the surname is present and has a non-whitespace character; otherwise reports only "Surname must not be empty or whitespace" |
| Validation.EmailRule | UserManagement.Services/Implementations/Validation/CreateUserViewModelValidator.cs:16-18 | Passes exactly when the email is present with one '@' and text on both sides; otherwise reports "Email must be a valid email address" once, although both checks run |
| Validation.DateOfBirthRule | UserManagement.Services/Implementations/Validation/CreateUserViewModelValidator.cs:19-21 | Passes exactly when the date of birth is after the default date and no later than today; otherwise reports at most one date-of-birth failure (see `AtMostOneDateOfBirthError` for which) |
| Validation.Validate | UserManagement.Services/Implementations/Validation/CreateUserViewModelValidator.cs:10-22 | At most four failures are reported, each one of the five declared (property, message) pairs |
| Validation.ValidateEmptyIffValid | UserManagement.Services/Implementations/Validation/CreateUserViewModelValidator.cs:10-22 | No failure is reported if and only if both names are non-blank, the email is present with one '@' and text on both sides, and the date of birth is after the default date and no later than today |
| Validation.FieldErrorsOfValidateFor | UserManagement.Services/Implementations/Validation/CreateUserViewModelValidator.cs:12-21 | The failures reported for a property name are those of the rules for that name, in declaration order |
| Validation.FieldErrorsOfValidate | UserManagement.Services.Tests/Validation/CreateUserViewModelValidatorTests.cs:12-47 | The rules are independent: the failures reported for each property are exactly that property's rule's failures |
| Validation.AtMostOneDateOfBirthError | UserManagement.Services/Implementations/Validation/CreateUserViewModelValidator.cs:19-21 | At most one date-of-birth failure fires: "must be specified" for the default date, "cannot be in the future" after today, none in between |
| Validation.BlankForenameOneError | UserManagement.Services/Implementations/Validation/CreateUserViewModelValidator.cs:12-13 | A null, empty or whitespace-only forename, with the other fields valid, gives exactly the one forename failure |
| Validation.BlankSurnameOneError | UserManagement.Services/Implementations/Validation/CreateUserViewModelValidator.cs:14-15 | A null, empty or whitespace-only surname, with the other fields valid, gives exactly the one surname failure |
| Validation.BadEmailOneError | UserManagement.Services/Implementations/Validation/CreateUserViewModelValidator.cs:16-18 | A null or malformed email, with the other fields valid, gives exactly one "Email must be a valid email address" failure, although both email checks run |
| Validation.RejectedTestEmailsOneError | UserManagement.Services.Tests/Validation/CreateUserViewModelValidatorTests.cs:71-94 | Each of null, "", " ", "   ", "example", "@example.com" and "example@", in an otherwise valid model, gives exactly the one email failure |
| Validation.RejectedTestEmailsInvalid | UserManagement.Services.Tests/Validation/CreateUserViewModelValidatorTests.cs:71-94 | Every email value the tests reject is null or fails the email check |
| Validation.BlankTestValuesAreBlank | UserManagement.Services.Tests/Validation/CreateUserViewModelValidatorTests.cs:27-69 | The blank names the tests use ("", " ", null, "   ") are all null or whitespace, so `BlankForenameOneError` and `BlankSurnameOneError` apply to each |
| Validation.DefaultDateOfBirthOneError | UserManagement.Services.Tests/Validation/CreateUserViewModelValidatorTests.cs:119-135 | A default date of birth, with the other fields valid, gives exactly "Date of Birth must be specified" |
| Validation.FutureDateOfBirthOneError | UserManagement.Services.Tests/Validation/CreateUserViewModelValidatorTests.cs:96-117 | A date of birth after today, with the other fields valid, gives exactly "Date of Birth cannot be in the future" |
| Validation.TestValidModelPasses | UserManagement.Services.Tests/Validation/CreateUserViewModelValidatorTests.cs:12-25 | The valid model (David, NonActive, inactive@example.com, born 1984-12-01), checked on 2023-06-23, has no failures, and neither does a date of birth equal to today |
| Validation.AcceptedTestEmail | UserManagement.Services.Tests/Validation/CreateUserViewModelValidatorTests.cs:12-25 | "inactive@example.com" passes the email check |

## Left out

- The web controllers, views, view models other than the validator's input, and dependency-injection wiring are not modelled. The controllers call `CreateUser` only after validation succeeds and `DeleteUser` only for a user they found.
- Entity Framework's machinery is replaced by maps and a sequence: change tracking, `AsNoTracking`, `Include`, `SaveChangesAsync` and the in-memory provider. The async calls have no real concurrency. They run in program order, including the `Delete` and `Create` calls that `UserService.DeleteUser` and the logging methods do not await.
- The order in which the store enumerates users is not modelled. The user table is a map, so `GetAll` and `FilterByActive` return tables, not sequences. The log, though, is a sequence in store order.
- The clock (`DateTime.Now` in the seed, the current-date provider) is a parameter. Time-of-day is not modelled: a date is a whole number of days.
- Data.SeedEntries: stamps every seeded entry with one instant `now`. The source reads `DateTime.Now` once per entry inside a lazy `Select`, so the seeded times may differ slightly. Nothing in the model depends on them.
- The validator reads today's date once, when it is constructed. The model takes `today` as a parameter to `Validate`.
- FluentValidation's library code is not part of this model. Its `EmailAddress()` and `NotEmpty()` checks are written from the library's documented behaviour.
- `FilterByUserId` is declared on the audit-log service interface but has no implementation here, so it is not modelled.
- Data.DataContext.UpdateUser: when the key is missing it reports `false` and changes nothing. Entity Framework would throw a concurrency exception instead, or insert the entity when its key is unset. `UserService` checks for the key first, so neither path is reached from the service.
- Data.DataContext.DeleteUser: a missing key reports `false` where Entity Framework would throw. `UserService.DeleteUser` requires the key to be stored.
- Data.DataContext.CreateEntry: accepts only entries and snapshots with unset keys, which is how every caller builds them. It gives the before snapshot the lower key, because Entity Framework does not specify that order.
- Users.UserService.DeleteUser: requires the user's key to be stored, because the source does no existence check and relies on the controller.
- Users.UserService.UpdateUser: the store's failure when the stored row vanishes between the read and the write cannot happen in this sequential model, so it is left out.
- Store faults other than a duplicate key (I/O, constraint violations) are not modelled. No faults occur between a user write and its log write, so the inconsistent state such a fault would leave is not modelled either.
- The 64-bit range of keys is not modelled: keys are unbounded integers, and the generators never wrap.
- Users.FilterByActive, Users.GetAll, AuditLogs.GetAll: these are queries over state read at call time. They are modelled as functions of the tables, not as methods of the service classes.
