/** The one-off migration of the legacy JSON data file into the store:
    users first (skipping any whose username or email is taken), then
    submissions (skipping any whose owner cannot be found), then progress
    entries per user key; the data file is backed up last. An error inside
    one record is caught and the run goes on, except where the error
    message itself throws: a `null` user or submission record, whose
    fields the message reads, ends the whole run before the backup, and so
    do a `null` document and a user or submission list that `for...of`
    cannot iterate. */
module Migration {
  import opened Common
  import opened Json
  import opened Database

  /** A user record of the legacy file; a missing field is `Undefined`, and
      a record that is not an object (a number, a character of a string)
      has every field missing. `NullUser` is the record `null`. */
  datatype LegacyUser = LegacyUser(username: Arg, email: Arg, passwordHash: Arg) | NullUser

  /** A submission record of the legacy file; `userId` is `None` when the
      field is missing. `NullSubmission` is the record `null`. */
  datatype LegacySubmission =
    | LegacySubmission(
        userId: Option<int>, title: Arg, kind: Arg, filename: Arg, storedFilename: Arg,
        filepath: Arg, notes: Arg, status: Arg)
    | NullSubmission

  /** `jsonData.users || []`, `jsonData.submissions || []` as the records
      `for...of` visits (`None` for a value it cannot iterate, such as a
      number or a plain object), and the entries of `jsonData.progress || {}`
      in the order `Object.entries` lists them. */
  datatype LegacyData = LegacyData(
    users: Option<seq<LegacyUser>>, submissions: Option<seq<LegacySubmission>>,
    progress: seq<(string, Json)>)

  /** What reading `data.json` gives: no file, a file that does not parse,
      the document `null`, or its contents (an empty file reads as `{}`). */
  datatype DataFile = Missing | Unreadable | NullDocument | Parsed(data: LegacyData)

  /** The counters of the summary lines. */
  datatype MigrationReport = MigrationReport(
    users: nat, usersFound: nat, submissions: nat, submissionsFound: nat, progress: nat)

  /** How `migrateData` ends: it returns early without touching the data,
      its promise rejects (the script exits with status 1), or it completes
      with its summary. */
  datatype MigrationOutcome = Skipped | Aborted | Completed(report: MigrationReport)

  // ---------------------------------------------------------------- users

  /** The number of user records the loop handles before a `null` record
      ends the run: all of them when there is none. */
  function UsersVisited(legacy: seq<LegacyUser>): (n: nat)
    ensures n <= |legacy|
    ensures forall k :: 0 <= k < n ==> legacy[k].LegacyUser?
    ensures n < |legacy| ==> legacy[n].NullUser?
  {
    UntilFirst(legacy, (u: LegacyUser) => u.NullUser?)
  }

  /** Every column of the legacy user has a value. */
  predicate UserComplete(u: LegacyUser) {
    u.LegacyUser? && u.username.Text? && u.email.Text? && u.passwordHash.Text?
  }

  /** `getUserByUsername(user.username) || getUserByEmail(user.email)` finds
      a row. */
  predicate Matches(users: seq<User>, u: LegacyUser) {
    u.LegacyUser? &&
    ((u.username.Text? && exists i :: 0 <= i < |users| && users[i].username == u.username.s)
     || (u.email.Text? && exists i :: 0 <= i < |users| && users[i].email == u.email.s))
  }

  /** The user step has nothing left to do for `u`: it is already stored
      under its username or email, or it lacks a column and cannot be
      inserted. */
  predicate Covered(users: seq<User>, u: LegacyUser) {
    !UserComplete(u) || Matches(users, u)
  }

  lemma CoveredAppend(users: seq<User>, row: User, u: LegacyUser)
    requires Covered(users, u)
    ensures Covered(users + [row], u)
  {
    if u.LegacyUser? && u.username.Text? && exists i :: 0 <= i < |users| && users[i].username == u.username.s {
      var i :| 0 <= i < |users| && users[i].username == u.username.s;
      assert (users + [row])[i] == users[i];
    } else if u.LegacyUser? && u.email.Text? && exists i :: 0 <= i < |users| && users[i].email == u.email.s {
      var i :| 0 <= i < |users| && users[i].email == u.email.s;
      assert (users + [row])[i] == users[i];
    }
  }

  /** The stored row carries the legacy user's columns. */
  predicate FromLegacy(row: User, u: LegacyUser) {
    u.LegacyUser? && u.username == Text(row.username) && u.email == Text(row.email)
    && u.passwordHash == Text(row.passwordHash)
  }

  /** Every row from index `start` on comes from one of the first `i`
      legacy records. */
  predicate RowsFromLegacy(rows: seq<User>, start: nat, legacy: seq<LegacyUser>, i: nat)
    requires i <= |legacy|
  {
    forall j :: start <= j < |rows| ==> exists k :: 0 <= k < i && FromLegacy(rows[j], legacy[k])
  }

  /** The first `i` legacy records are all covered by `rows`. */
  predicate AllCovered(rows: seq<User>, legacy: seq<LegacyUser>, i: nat)
    requires i <= |legacy|
  {
    forall k :: 0 <= k < i ==> Covered(rows, legacy[k])
  }

  /** The user table with the two counters the user step moves: the users
      SERIAL value and the clock that stamps `created_at`. */
  datatype UsersState = UsersState(rows: seq<User>, nextId: nat, clock: nat)

  /** One turn of the user loop, as a function of the table it finds: a
      record whose username or email is already stored is skipped; one
      that lacks a column reaches the INSERT, which takes a SERIAL value
      and fails; any other is appended with the next id and stamp. (A
      `null` record ends the run, so no turn is taken for it.) */
  function UserTurn(s: UsersState, u: LegacyUser): (r: UsersState)
    ensures r.rows == s.rows
      || (|r.rows| == |s.rows| + 1 && r.rows == s.rows + [r.rows[|s.rows|]] && FromLegacy(r.rows[|s.rows|], u))
    ensures |r.rows| > |s.rows| <==> u.LegacyUser? && !Covered(s.rows, u)
    ensures r.clock == s.clock + (|r.rows| - |s.rows|)
    ensures Covered(r.rows, u)
  {
    if u.NullUser? || Matches(s.rows, u) then s
    else if !UserComplete(u) then s.(nextId := s.nextId + 1)
    else UsersState(s.rows + [User(s.nextId, u.username.s, u.email.s, u.passwordHash.s, s.clock)], s.nextId + 1, s.clock + 1)
  }

  /** The state the user loop leaves after the records `legacy`, in file
      order, starting from `s`: each record is checked against the table
      as the records before it left it. */
  function UsersAfter(s: UsersState, legacy: seq<LegacyUser>): (r: UsersState)
    ensures |s.rows| <= |r.rows| <= |s.rows| + |legacy| && r.rows[..|s.rows|] == s.rows
    ensures r.clock == s.clock + (|r.rows| - |s.rows|)
    decreases |legacy|
  {
    if legacy == [] then s
    else UserTurn(UsersAfter(s, legacy[..|legacy| - 1]), legacy[|legacy| - 1])
  }

  /** One more record takes one more turn on the state the earlier ones
      left. */
  lemma UsersAfterSnoc(s: UsersState, legacy: seq<LegacyUser>, i: nat)
    requires i < |legacy|
    ensures UsersAfter(s, legacy[..i + 1]) == UserTurn(UsersAfter(s, legacy[..i]), legacy[i])
  {
    var p := legacy[..i + 1];
    assert p[..|p| - 1] == legacy[..i];
  }

  /** Running the loop over `x` and then over `y` is running it over
      `x + y`. */
  lemma {:induction false} UsersAfterConcat(s: UsersState, x: seq<LegacyUser>, y: seq<LegacyUser>)
    ensures UsersAfter(s, x + y) == UsersAfter(UsersAfter(s, x), y)
    decreases |y|
  {
    if y == [] {
      assert x + y == x;
    } else {
      var y' := y[..|y| - 1];
      UsersAfterConcat(s, x, y');
      assert (x + y)[..|x + y| - 1] == x + y';
    }
  }

  /** The table only grows: what the first `i` records left is a prefix of
      what the first `j` leave. */
  lemma UsersAfterGrows(s: UsersState, legacy: seq<LegacyUser>, i: nat, j: nat)
    requires i <= j <= |legacy|
    ensures |UsersAfter(s, legacy[..i]).rows| <= |UsersAfter(s, legacy[..j]).rows|
    ensures UsersAfter(s, legacy[..j]).rows[..|UsersAfter(s, legacy[..i]).rows|] == UsersAfter(s, legacy[..i]).rows
  {
    assert legacy[..j] == legacy[..i] + legacy[i..j];
    UsersAfterConcat(s, legacy[..i], legacy[i..j]);
  }

  /** The first of two records sharing a username or an email wins: once a
      record is inserted, every later record with its username or its
      email is skipped, whatever its other columns say. */
  lemma LaterDuplicateSkipped(s: UsersState, legacy: seq<LegacyUser>, i: nat, j: nat)
    requires i < j < |legacy|
    requires |UsersAfter(s, legacy[..i + 1]).rows| > |UsersAfter(s, legacy[..i]).rows|
    requires legacy[i].LegacyUser? && legacy[j].LegacyUser?
    requires legacy[j].username == legacy[i].username || legacy[j].email == legacy[i].email
    ensures UsersAfter(s, legacy[..j + 1]) == UsersAfter(s, legacy[..j])
  {
    UsersAfterSnoc(s, legacy, i);
    UsersAfterSnoc(s, legacy, j);
    var a := UsersAfter(s, legacy[..i]).rows;
    var b := UsersAfter(s, legacy[..i + 1]).rows;
    var c := UsersAfter(s, legacy[..j]).rows;
    UsersAfterGrows(s, legacy, i + 1, j);
    assert FromLegacy(b[|a|], legacy[i]);
    assert c[|a|] == b[|a|];
    assert Matches(c, legacy[j]);
  }

  /** Two legacy records with the same username and different emails and
      password hashes: the first is inserted, the second skipped. */
  lemma DuplicateUsernameExample()
    ensures UsersAfter(UsersState([], 1, 0), [LegacyUser(Text("u1"), Text("e1"), Text("h1")),
                                                LegacyUser(Text("u1"), Text("e2"), Text("h2"))]).rows
            == [User(1, "u1", "e1", "h1", 0)]
  {
  }

  /** One turn of the user loop: the record is inserted exactly when no row
      has its username or its email and every column has a value; a failed
      insert is caught and changes nothing but the SERIAL counter. A `null`
      record throws, and so does the catch block that reads its username,
      so the run ends there. */
  method MigrateUser(db: Store, u: LegacyUser) returns (created: bool, aborted: bool)
    requires db.Valid()
    modifies db
    ensures db.Valid()
    ensures db.submissions == old(db.submissions) && db.progress == old(db.progress)
    ensures aborted <==> u.NullUser?
    ensures aborted ==> unchanged(db)
    ensures created <==> !Covered(old(db.users), u)
    ensures created ==> u.LegacyUser? && db.users == old(db.users) + [User(old(db.nextUserId), u.username.s, u.email.s, u.passwordHash.s, old(db.clock))]
    ensures created ==> FromLegacy(db.users[|db.users| - 1], u)
    ensures !created ==> db.users == old(db.users)
    ensures Covered(db.users, u)
    ensures db.nextProgressId == old(db.nextProgressId) && db.clock == old(db.clock) + (if created then 1 else 0)
    ensures UsersState(db.users, db.nextUserId, db.clock) == UserTurn(UsersState(old(db.users), old(db.nextUserId), old(db.clock)), u)
  {
    if u.NullUser? {
      return false, true;
    }
    aborted := false;
    var existing := db.GetUserByUsername(u.username);
    if existing.None? {
      existing := db.GetUserByEmail(u.email);
    }
    if existing.Some? {
      return false, false;
    }
    var r := db.CreateUser(u.username, u.email, u.passwordHash);
    created := r.Ok?;
    if created {
      assert db.users[|db.users| - 1].username == u.username.s;
    }
  }

  /** One turn of the user loop keeps the loop's account of the table. */
  lemma UsersStep(start: nat, before: seq<User>, after: seq<User>, legacy: seq<LegacyUser>, i: nat, created: bool)
    requires i < |legacy|
    requires |before| >= start
    requires RowsFromLegacy(before, start, legacy, i) && AllCovered(before, legacy, i)
    requires created ==> |after| == |before| + 1 && after[..|before|] == before && FromLegacy(after[|before|], legacy[i])
    requires !created ==> after == before
    requires Covered(after, legacy[i])
    ensures |after| >= start && after[..start] == before[..start]
    ensures RowsFromLegacy(after, start, legacy, i + 1) && AllCovered(after, legacy, i + 1)
  {
    if created {
      var row := after[|before|];
      assert after == before + [row];
      forall k | 0 <= k < i ensures Covered(after, legacy[k]) {
        CoveredAppend(before, row, legacy[k]);
      }
      forall j | start <= j < |after| ensures exists k :: 0 <= k < i + 1 && FromLegacy(after[j], legacy[k]) {
        if j < |before| {
          assert after[j] == before[j];
          var k :| 0 <= k < i && FromLegacy(before[j], legacy[k]);
        } else {
          assert FromLegacy(after[j], legacy[i]);
        }
      }
    }
  }

  /** The state the user loop leaves keeps the loop's account: every row
      it added comes from a record it reached, every record reached is
      covered, and nothing is added when every one was covered already. */
  lemma {:induction false} UsersAfterAccount(s: UsersState, legacy: seq<LegacyUser>, i: nat)
    requires i <= |legacy|
    ensures RowsFromLegacy(UsersAfter(s, legacy[..i]).rows, |s.rows|, legacy, i)
    ensures AllCovered(UsersAfter(s, legacy[..i]).rows, legacy, i)
    ensures AllCovered(s.rows, legacy, i) ==> UsersAfter(s, legacy[..i]).rows == s.rows
    decreases i
  {
    if i > 0 {
      UsersAfterAccount(s, legacy, i - 1);
      UsersAfterSnoc(s, legacy, i - 1);
      var before := UsersAfter(s, legacy[..i - 1]).rows;
      var after := UsersAfter(s, legacy[..i]).rows;
      UsersStep(|s.rows|, before, after, legacy, i - 1, |after| > |before|);
      if AllCovered(s.rows, legacy, i) {
        assert AllCovered(s.rows, legacy, i - 1);
        assert Covered(before, legacy[i - 1]);
      }
    }
  }

  /** The user loop, proved against `UsersAfter`: the records it reaches
      are checked in file order against the table as the earlier ones left
      it, so the first of two records sharing a username or an email is
      the one inserted, and the new rows follow the file's order. Every
      legacy user it reaches is covered afterwards, so a second run over
      the same records creates nobody; a `null` record ends the loop and
      the run. */
  method MigrateUsers(db: Store, legacy: seq<LegacyUser>) returns (migrated: nat, aborted: bool)
    requires db.Valid()
    modifies db
    ensures db.Valid()
    ensures db.submissions == old(db.submissions) && db.progress == old(db.progress)
    ensures aborted <==> UsersVisited(legacy) < |legacy|
    ensures migrated <= UsersVisited(legacy)
    ensures UsersState(db.users, db.nextUserId, db.clock)
            == UsersAfter(UsersState(old(db.users), old(db.nextUserId), old(db.clock)), legacy[..UsersVisited(legacy)])
    ensures |db.users| == |old(db.users)| + migrated && db.users[..|old(db.users)|] == old(db.users)
    ensures RowsFromLegacy(db.users, |old(db.users)|, legacy, UsersVisited(legacy))
    ensures AllCovered(db.users, legacy, UsersVisited(legacy))
    ensures AllCovered(old(db.users), legacy, UsersVisited(legacy)) ==> migrated == 0 && db.users == old(db.users)
    ensures db.nextProgressId == old(db.nextProgressId) && db.clock == old(db.clock) + migrated
  {
    ghost var s0 := UsersState(db.users, db.nextUserId, db.clock);
    ghost var n := UsersVisited(legacy);
    migrated, aborted := 0, false;
    var i := 0;
    while i < |legacy|
      invariant 0 <= i <= n
      invariant db.Valid()
      invariant db.submissions == old(db.submissions) && db.progress == old(db.progress)
      invariant db.nextProgressId == old(db.nextProgressId)
      invariant UsersState(db.users, db.nextUserId, db.clock) == UsersAfter(s0, legacy[..i])
      invariant migrated == |db.users| - |s0.rows| <= i
    {
      UsersAfterSnoc(s0, legacy, i);
      var created, stop := MigrateUser(db, legacy[i]);
      if stop {
        aborted := true;
        break;
      }
      if created {
        migrated := migrated + 1;
      }
      i := i + 1;
    }
    assert i == n;
    UsersAfterAccount(s0, legacy, n);
  }

  // ---------------------------------------------------------------- submissions

  /** The number of submission records the loop handles before a `null`
      record ends the run: all of them when there is none. */
  function SubmissionsVisited(legacy: seq<LegacySubmission>): (n: nat)
    ensures n <= |legacy|
    ensures forall k :: 0 <= k < n ==> legacy[k].LegacySubmission?
    ensures n < |legacy| ==> legacy[n].NullSubmission?
  {
    UntilFirst(legacy, (s: LegacySubmission) => s.NullSubmission?)
  }

  /** The object the submission loop passes to `createSubmission`. */
  function LegacySubmissionData(s: LegacySubmission): SubmissionData
    requires s.LegacySubmission?
  {
    SubmissionData(s.title, if Given(s.kind) then s.kind else Text("assignment"), s.filename,
                   s.storedFilename, s.filepath, s.notes, if Given(s.status) then s.status else Text("pending"))
  }

  /** The record's owner is found and the insert succeeds. */
  predicate SubmissionMigratable(users: seq<User>, s: LegacySubmission) {
    s.LegacySubmission? && s.userId.Some? && HasUser(users, s.userId.value)
    && SubmissionComplete(LegacySubmissionData(s))
  }

  /** The records the submission loop inserts, in order. */
  function MigratableOf(users: seq<User>, legacy: seq<LegacySubmission>): seq<LegacySubmission>
    decreases |legacy|
  {
    if legacy == [] then []
    else
      var last := legacy[|legacy| - 1];
      MigratableOf(users, legacy[..|legacy| - 1]) + (if SubmissionMigratable(users, last) then [last] else [])
  }

  /** They are the migratable records of the file, in the file's order. */
  lemma {:induction false} MigratableIsFilter(users: seq<User>, legacy: seq<LegacySubmission>)
    ensures MigratableOf(users, legacy) == Filter(legacy, (s: LegacySubmission) => SubmissionMigratable(users, s))
    decreases |legacy|
  {
    if legacy != [] {
      var init := legacy[..|legacy| - 1];
      MigratableIsFilter(users, init);
      assert legacy == init + [legacy[|legacy| - 1]];
      FilterSnoc(init, legacy[|legacy| - 1], (s: LegacySubmission) => SubmissionMigratable(users, s));
    }
  }

  /** The loop's account grows by the record it visits, when that record
      is migratable. */
  lemma MigratableSnoc(users: seq<User>, legacy: seq<LegacySubmission>, s: LegacySubmission)
    ensures MigratableOf(users, legacy + [s])
         == MigratableOf(users, legacy) + (if SubmissionMigratable(users, s) then [s] else [])
  {
    assert (legacy + [s])[..|legacy|] == legacy;
  }

  /** The stored row carries the legacy submission's owner and columns,
      with the type defaulting to `assignment`, a falsy note stored as NULL
      and the status defaulting to `pending`. */
  predicate SubmissionFromLegacy(row: Submission, s: LegacySubmission) {
    s.LegacySubmission? && s.userId == Some(row.userId as int)
    && s.title == Text(row.title)
    && row.kind == (if Given(s.kind) then s.kind.s else "assignment")
    && s.filename == Text(row.filename) && s.storedFilename == Text(row.storedFilename)
    && s.filepath == Text(row.filepath)
    && row.notes == (if Given(s.notes) then Some(s.notes.s) else None)
    && row.status == (if Given(s.status) then s.status.s else "pending")
  }

  /** One turn of the submission loop: skipped when `getUserById` finds no
      owner, inserted with the type defaulting to `assignment` and the
      status to `pending`; a failed insert is caught. A `null` record
      throws, and so does the catch block that reads its id, so the run
      ends there. */
  method MigrateSubmission(db: Store, s: LegacySubmission) returns (created: bool, aborted: bool)
    requires db.Valid()
    modifies db
    ensures db.Valid()
    ensures db.users == old(db.users) && db.progress == old(db.progress)
    ensures aborted <==> s.NullSubmission?
    ensures aborted ==> unchanged(db)
    ensures created <==> SubmissionMigratable(old(db.users), s)
    ensures !created ==> db.submissions == old(db.submissions)
    ensures created ==>
      |db.submissions| == |old(db.submissions)| + 1
      && db.submissions[..|old(db.submissions)|] == old(db.submissions)
      && SubmissionFromLegacy(db.submissions[|old(db.submissions)|], s)
    ensures db.nextProgressId == old(db.nextProgressId) && db.clock == old(db.clock) + (if created then 1 else 0)
  {
    if s.NullSubmission? {
      return false, true;
    }
    aborted := false;
    if s.userId.None? {
      return false, false;
    }
    var user := db.GetUserById(s.userId.value);
    if user.None? {
      return false, false;
    }
    var r := db.CreateSubmission(user.value.id, LegacySubmissionData(s));
    created := r.Ok?;
    if created {
      assert db.submissions[..|old(db.submissions)|] == old(db.submissions);
    }
  }

  /** The rows from index `start` on are, one for one and in order, the
      rows made from the records `migrated`. */
  predicate RowsMigrated(rows: seq<Submission>, start: nat, migrated: seq<LegacySubmission>) {
    |rows| == start + |migrated|
    && forall k :: 0 <= k < |migrated| ==> SubmissionFromLegacy(rows[start + k], migrated[k])
  }

  /** One turn of the submission loop keeps the loop's account of the
      table. */
  lemma SubmissionsStep(start: nat, before: seq<Submission>, after: seq<Submission>, users: seq<User>,
                        legacy: seq<LegacySubmission>, i: nat, created: bool)
    requires i < |legacy|
    requires |before| >= start && RowsMigrated(before, start, MigratableOf(users, legacy[..i]))
    requires created <==> SubmissionMigratable(users, legacy[i])
    requires created ==> |after| == |before| + 1 && after[..|before|] == before && SubmissionFromLegacy(after[|before|], legacy[i])
    requires !created ==> after == before
    ensures |after| >= start && after[..start] == before[..start]
    ensures |MigratableOf(users, legacy[..i + 1])| == |MigratableOf(users, legacy[..i])| + (if created then 1 else 0)
    ensures RowsMigrated(after, start, MigratableOf(users, legacy[..i + 1]))
  {
    assert legacy[..i + 1] == legacy[..i] + [legacy[i]];
    MigratableSnoc(users, legacy[..i], legacy[i]);
    if created {
      var m := MigratableOf(users, legacy[..i + 1]);
      forall k | 0 <= k < |m| ensures SubmissionFromLegacy(after[start + k], m[k]) {
        if k < |m| - 1 {
          assert after[start + k] == before[start + k];
        }
      }
    }
  }

  /** The submission loop. It looks for no earlier copy, so a second run
      inserts every migratable record again. The rows it appends are the
      migratable records it reaches, one for one and in order. */
  method MigrateSubmissions(db: Store, legacy: seq<LegacySubmission>) returns (migrated: nat, aborted: bool)
    requires db.Valid()
    modifies db
    ensures db.Valid()
    ensures db.users == old(db.users) && db.progress == old(db.progress)
    ensures aborted <==> SubmissionsVisited(legacy) < |legacy|
    ensures migrated == |MigratableOf(db.users, legacy[..SubmissionsVisited(legacy)])|
    ensures RowsMigrated(db.submissions, |old(db.submissions)|, MigratableOf(db.users, legacy[..SubmissionsVisited(legacy)]))
    ensures db.submissions[..|old(db.submissions)|] == old(db.submissions)
    ensures db.nextProgressId == old(db.nextProgressId) && db.clock == old(db.clock) + migrated
  {
    ghost var n := SubmissionsVisited(legacy);
    ghost var start, users := db.submissions, db.users;
    migrated, aborted := 0, false;
    var i := 0;
    while i < |legacy|
      invariant 0 <= i <= n
      invariant db.Valid()
      invariant db.users == users && db.progress == old(db.progress)
      invariant |db.submissions| >= |start| && db.submissions[..|start|] == start
      invariant RowsMigrated(db.submissions, |start|, MigratableOf(users, legacy[..i]))
      invariant migrated == |db.submissions| - |start|
      invariant db.nextProgressId == old(db.nextProgressId) && db.clock == old(db.clock) + migrated
    {
      ghost var before := db.submissions;
      var created, stop := MigrateSubmission(db, legacy[i]);
      if stop {
        aborted := true;
        break;
      }
      SubmissionsStep(|start|, before, db.submissions, users, legacy, i, created);
      if created {
        migrated := migrated + 1;
      }
      i := i + 1;
    }
  }

  // ---------------------------------------------------------------- progress

  /** The values `for (const entry of progressEntries)` visits: an array's
      elements, or a string's characters; anything else throws. */
  function Iterated(entries: Json): (r: Option<seq<Json>>)
    ensures entries.Arr? ==> r == Some(entries.items)
    ensures entries.Str? ==> r == Some(Characters(entries.s))
    ensures !entries.Arr? && !entries.Str? ==> r.None?
  {
    match entries
    case Arr(items) => Some(items)
    case Str(s) => Some(Characters(s))
    case _ => None
  }

  /** The entries one progress key adds: those of a key that parses to the
      id of a stored user and whose value can be iterated, and nothing
      otherwise. */
  function ProgressToAdd(users: seq<User>, key: string, entries: Json, parseInt: string -> Option<int>): seq<Json> {
    var id := parseInt(key);
    if id.Some? && HasUser(users, id.value) && Iterated(entries).Some? then Iterated(entries).value else []
  }

  /** The owner and payload of each row one progress key adds: its entries
      in order, each owned by the stored user the key names. */
  function OwnedEntries(users: seq<User>, key: string, entries: Json, parseInt: string -> Option<int>)
    : (r: seq<(nat, Json)>)
    ensures |r| == |ProgressToAdd(users, key, entries, parseInt)|
    ensures r != [] ==> parseInt(key).Some? && HasUser(users, parseInt(key).value)
    ensures forall k :: 0 <= k < |r| ==>
      r[k] == (parseInt(key).value, ProgressToAdd(users, key, entries, parseInt)[k])
  {
    var add := ProgressToAdd(users, key, entries, parseInt);
    if add == [] then []
    else
      var owner: nat := parseInt(key).value;
      seq(|add|, k requires 0 <= k < |add| => (owner, add[k]))
  }

  /** The owner and payload of every row the progress loop adds, key after
      key in the order `Object.entries` lists the keys. */
  function PendingOf(users: seq<User>, progress: seq<(string, Json)>, parseInt: string -> Option<int>)
    : seq<(nat, Json)>
    decreases |progress|
  {
    if progress == [] then []
    else
      var last := progress[|progress| - 1];
      PendingOf(users, progress[..|progress| - 1], parseInt) + OwnedEntries(users, last.0, last.1, parseInt)
  }

  /** One more key adds its own entries after those of the keys before it. */
  lemma {:induction false} PendingSnoc(users: seq<User>, progress: seq<(string, Json)>,
                                       parseInt: string -> Option<int>, i: nat)
    requires i < |progress|
    ensures PendingOf(users, progress[..i + 1], parseInt)
            == PendingOf(users, progress[..i], parseInt) + OwnedEntries(users, progress[i].0, progress[i].1, parseInt)
  {
    var p := progress[..i + 1];
    assert p[..|p| - 1] == progress[..i];
  }

  /** Every migrated progress row is owned by a stored user. */
  lemma {:induction false} PendingOwned(users: seq<User>, progress: seq<(string, Json)>,
                                        parseInt: string -> Option<int>)
    ensures forall k :: 0 <= k < |PendingOf(users, progress, parseInt)| ==>
      HasUser(users, PendingOf(users, progress, parseInt)[k].0)
    decreases |progress|
  {
    if progress != [] {
      var init := progress[..|progress| - 1];
      var last := progress[|progress| - 1];
      PendingOwned(users, init, parseInt);
      var before := PendingOf(users, init, parseInt);
      var tail := OwnedEntries(users, last.0, last.1, parseInt);
      var all := PendingOf(users, progress, parseInt);
      assert all == before + tail;
      forall k | 0 <= k < |all| ensures HasUser(users, all[k].0) {
        if k < |before| {
          assert all[k] == before[k];
        } else {
          assert all[k] == tail[k - |before|];
        }
      }
    }
  }

  /** The rows inserted one after the other for `pending`, when the SERIAL
      counter stands at `id` and the clock at `stamp`: consecutive ids and
      stamps, in order. */
  function Numbered(pending: seq<(nat, Json)>, id: nat, stamp: nat): (r: seq<ProgressRow>)
    ensures |r| == |pending|
    ensures forall k :: 0 <= k < |pending| ==>
      r[k].id == id + k && r[k].createdAt == stamp + k && r[k].userId == pending[k].0 && r[k].data == pending[k].1
  {
    seq(|pending|, k requires 0 <= k < |pending| => ProgressRow(id + k, pending[k].0, pending[k].1, stamp + k))
  }

  /** Inserting one more pair adds its row with the next id and stamp. */
  lemma NumberedSnoc(pending: seq<(nat, Json)>, n: nat, id: nat, stamp: nat)
    requires n < |pending|
    ensures Numbered(pending[..n + 1], id, stamp)
            == Numbered(pending[..n], id, stamp) + [ProgressRow(id + n, pending[n].0, pending[n].1, stamp + n)]
  {
  }

  /** One insert of the entry loop extends the rows it has added by the
      next pair's row. */
  lemma EntryStep(start: seq<ProgressRow>, before: seq<ProgressRow>, after: seq<ProgressRow>,
                  pending: seq<(nat, Json)>, n: nat, id: nat, stamp: nat, rowId: nat, rowStamp: nat)
    requires n < |pending|
    requires before == start + Numbered(pending[..n], id, stamp)
    requires rowId == id + n && rowStamp == stamp + n
    requires after == before + [ProgressRow(rowId, pending[n].0, pending[n].1, rowStamp)]
    ensures after == start + Numbered(pending[..n + 1], id, stamp)
  {
    NumberedSnoc(pending, n, id, stamp);
    ConcatAssoc(start, Numbered(pending[..n], id, stamp), [ProgressRow(rowId, pending[n].0, pending[n].1, rowStamp)]);
  }

  /** Inserting `a` and then `b` numbers `b` on from where `a` left the
      counters. */
  lemma NumberedConcat(a: seq<(nat, Json)>, b: seq<(nat, Json)>, id: nat, stamp: nat, nextId: nat, nextStamp: nat)
    requires nextId == id + |a| && nextStamp == stamp + |a|
    ensures Numbered(a + b, id, stamp) == Numbered(a, id, stamp) + Numbered(b, nextId, nextStamp)
  {
  }

  /** One turn of the progress loop: a key that does not resolve to a
      stored user is skipped; otherwise one row is created per entry, in
      order, with consecutive ids and stamps, and the counter goes up by
      the same number. A value that cannot be iterated throws before any
      row is created, and the throw is caught. */
  method MigrateProgressFor(db: Store, key: string, entries: Json, parseInt: string -> Option<int>)
    returns (added: nat)
    requires db.Valid()
    modifies db
    ensures db.Valid()
    ensures db.users == old(db.users) && db.submissions == old(db.submissions)
    ensures added == |ProgressToAdd(db.users, key, entries, parseInt)|
    ensures db.progress
            == old(db.progress) + Numbered(OwnedEntries(db.users, key, entries, parseInt), old(db.nextProgressId), old(db.clock))
    ensures db.nextProgressId == old(db.nextProgressId) + added && db.clock == old(db.clock) + added
  {
    var id := parseInt(key);
    if id.None? {
      return 0;
    }
    var user := db.GetUserById(id.value);
    if user.None? {
      return 0;
    }
    var items := Iterated(entries);
    if items.None? {
      return 0;
    }
    ghost var owned := OwnedEntries(db.users, key, entries, parseInt);
    added := 0;
    while added < |items.value|
      invariant 0 <= added <= |items.value| == |owned|
      invariant db.Valid()
      invariant db.users == old(db.users) && db.submissions == old(db.submissions)
      invariant db.progress == old(db.progress) + Numbered(owned[..added], old(db.nextProgressId), old(db.clock))
      invariant db.nextProgressId == old(db.nextProgressId) + added && db.clock == old(db.clock) + added
    {
      ghost var before, rowId, rowStamp := db.progress, db.nextProgressId, db.clock;
      var r := db.CreateProgress(user.value.id, items.value[added]);
      assert r.Ok?;
      EntryStep(old(db.progress), before, db.progress, owned, added, old(db.nextProgressId), old(db.clock), rowId, rowStamp);
      added := added + 1;
    }
    assert owned[..added] == owned;
  }

  /** One turn of the progress loop keeps the loop's account of the table. */
  lemma {:induction false} ProgressStep(start: seq<ProgressRow>, before: seq<ProgressRow>, after: seq<ProgressRow>,
                                        users: seq<User>, progress: seq<(string, Json)>, parseInt: string -> Option<int>,
                                        i: nat, id: nat, stamp: nat, nextId: nat, nextStamp: nat)
    requires i < |progress|
    requires before == start + Numbered(PendingOf(users, progress[..i], parseInt), id, stamp)
    requires nextId == id + |PendingOf(users, progress[..i], parseInt)|
    requires nextStamp == stamp + |PendingOf(users, progress[..i], parseInt)|
    requires after == before + Numbered(OwnedEntries(users, progress[i].0, progress[i].1, parseInt), nextId, nextStamp)
    ensures after == start + Numbered(PendingOf(users, progress[..i + 1], parseInt), id, stamp)
    ensures |PendingOf(users, progress[..i + 1], parseInt)|
            == |PendingOf(users, progress[..i], parseInt)| + |ProgressToAdd(users, progress[i].0, progress[i].1, parseInt)|
  {
    var done := PendingOf(users, progress[..i], parseInt);
    var more := OwnedEntries(users, progress[i].0, progress[i].1, parseInt);
    PendingSnoc(users, progress, parseInt, i);
    NumberedConcat(done, more, id, stamp, nextId, nextStamp);
    ConcatAssoc(start, Numbered(done, id, stamp), Numbered(more, nextId, nextStamp));
  }

  /** The progress loop over the keys of the legacy progress object. */
  method MigrateProgress(db: Store, progress: seq<(string, Json)>, parseInt: string -> Option<int>)
    returns (migrated: nat)
    requires db.Valid()
    modifies db
    ensures db.Valid()
    ensures db.users == old(db.users) && db.submissions == old(db.submissions)
    ensures migrated == |PendingOf(db.users, progress, parseInt)|
    ensures db.progress
            == old(db.progress) + Numbered(PendingOf(db.users, progress, parseInt), old(db.nextProgressId), old(db.clock))
    ensures db.nextProgressId == old(db.nextProgressId) + migrated && db.clock == old(db.clock) + migrated
  {
    ghost var start, id, stamp := db.progress, db.nextProgressId, db.clock;
    migrated := 0;
    var i := 0;
    while i < |progress|
      invariant 0 <= i <= |progress|
      invariant db.Valid()
      invariant db.users == old(db.users) && db.submissions == old(db.submissions)
      invariant migrated == |PendingOf(db.users, progress[..i], parseInt)|
      invariant db.progress == start + Numbered(PendingOf(db.users, progress[..i], parseInt), id, stamp)
      invariant db.nextProgressId == id + migrated && db.clock == stamp + migrated
    {
      ghost var before, nextId, nextStamp := db.progress, db.nextProgressId, db.clock;
      var added := MigrateProgressFor(db, progress[i].0, progress[i].1, parseInt);
      ProgressStep(start, before, db.progress, db.users, progress, parseInt, i, id, stamp, nextId, nextStamp);
      migrated := migrated + added;
      i := i + 1;
    }
    assert progress[..|progress|] == progress;
  }

  // ---------------------------------------------------------------- the run

  /** The run stops before the backup: a list that cannot be iterated, or
      a `null` record in the users or the submissions. */
  predicate RunAborts(data: LegacyData) {
    data.users.None? || UsersVisited(data.users.value) < |data.users.value|
    || data.submissions.None? || SubmissionsVisited(data.submissions.value) < |data.submissions.value|
  }

  /** What the user step leaves in the table, from `users0` with the
      SERIAL value `nextId0` and the clock `clock0`, over the records it
      reaches (all of them, or those before a `null` one): exactly the
      rows `UsersAfter` appends, so the earlier rows unchanged, at most one
      new row per record reached, in file order and the first of two
      colliding records winning, each new row from a reached record, every
      reached record covered, and no new row at all when every reached
      record was covered already. */
  ghost predicate UsersMigrated(legacy: seq<LegacyUser>, users0: seq<User>, nextId0: nat, clock0: nat,
                                users: seq<User>) {
    var n := UsersVisited(legacy);
    users == UsersAfter(UsersState(users0, nextId0, clock0), legacy[..n]).rows
    && |users0| <= |users| <= |users0| + n && users[..|users0|] == users0
    && RowsFromLegacy(users, |users0|, legacy, n) && AllCovered(users, legacy, n)
    && (AllCovered(users0, legacy, n) ==> users == users0)
  }

  /** What the submission step leaves in the table, from `submissions0`:
      the earlier rows unchanged, followed one for one and in order by the
      rows of the migratable records it reaches. */
  ghost predicate SubmissionsMigrated(users: seq<User>, legacy: seq<LegacySubmission>,
                                      submissions0: seq<Submission>, submissions: seq<Submission>) {
    RowsMigrated(submissions, |submissions0|, MigratableOf(users, legacy[..SubmissionsVisited(legacy)]))
    && submissions[..|submissions0|] == submissions0
  }

  /** What the progress step leaves in the table, from `progress0` and the
      SERIAL value `nextId`: the earlier rows followed by the numbered rows
      of every resolvable key, stamped on from the clock `clock0` of the
      start of the run past the `usersTaken` and `submissionsTaken` values
      the two earlier steps took. */
  ghost predicate ProgressMigrated(users: seq<User>, legacy: seq<(string, Json)>, parseInt: string -> Option<int>,
                                   progress0: seq<ProgressRow>, nextId: nat,
                                   clock0: nat, usersTaken: nat, submissionsTaken: nat,
                                   progress: seq<ProgressRow>) {
    progress == progress0 + Numbered(PendingOf(users, legacy, parseInt), nextId, clock0 + usersTaken + submissionsTaken)
  }

  /** What a completed run leaves in the tables, from `users0`,
      `submissions0` and `progress0` and the progress SERIAL value
      `nextProgressId0` and clock `clock0` it started with: every legacy
      user and submission record was reached; the report counts the
      records found and the rows each step appended; the users step covers
      every legacy user, the submissions step appends the migratable
      records in order, and the progress rows are numbered and stamped on
      from where the user and submission steps left the counters. */
  ghost predicate RunCompleted(legacyUsers: seq<LegacyUser>, legacySubmissions: seq<LegacySubmission>,
                               legacyProgress: seq<(string, Json)>, parseInt: string -> Option<int>,
                               report: MigrationReport,
                               users0: seq<User>, submissions0: seq<Submission>, progress0: seq<ProgressRow>,
                               nextUserId0: nat, nextProgressId0: nat, clock0: nat,
                               users: seq<User>, submissions: seq<Submission>, progress: seq<ProgressRow>)
  {
    UsersVisited(legacyUsers) == |legacyUsers|
    && SubmissionsVisited(legacySubmissions) == |legacySubmissions|
    && report.usersFound == |legacyUsers| && report.submissionsFound == |legacySubmissions|
    && |users| == |users0| + report.users && UsersMigrated(legacyUsers, users0, nextUserId0, clock0, users)
    && |submissions| == |submissions0| + report.submissions
    && SubmissionsMigrated(users, legacySubmissions, submissions0, submissions)
    && report.progress == |PendingOf(users, legacyProgress, parseInt)|
    && ProgressMigrated(users, legacyProgress, parseInt, progress0, nextProgressId0,
                        clock0, report.users, report.submissions, progress)
  }

  /** What a rejected run leaves in the tables. No progress row is added.
      A users list that cannot be iterated changes nothing. Otherwise the
      user step has run up to its end or its first `null` record, and the
      submissions are untouched when it stopped there or when the
      submissions list cannot be iterated; otherwise the submission step has
      run up to its first `null` record. */
  ghost predicate RunAborted(data: LegacyData,
                             users0: seq<User>, submissions0: seq<Submission>, progress0: seq<ProgressRow>,
                             nextUserId0: nat, clock0: nat,
                             users: seq<User>, submissions: seq<Submission>, progress: seq<ProgressRow>)
  {
    progress == progress0
    && (data.users.None? ==> users == users0 && submissions == submissions0)
    && (data.users.Some? ==>
          UsersMigrated(data.users.value, users0, nextUserId0, clock0, users)
          && (UsersVisited(data.users.value) < |data.users.value| || data.submissions.None? ==>
                submissions == submissions0)
          && (UsersVisited(data.users.value) == |data.users.value| && data.submissions.Some? ==>
                SubmissionsMigrated(users, data.submissions.value, submissions0, submissions)))
  }

  /** The submission and progress steps of `migrateData`, after a user step
      that took `usersTaken` clock values from `clock0`: a `null` submission
      record rejects the run before the progress step, keeping the rows
      inserted before it; otherwise the progress step runs on. */
  method MigrateRest(db: Store, submissions: seq<LegacySubmission>, progress: seq<(string, Json)>,
                     parseInt: string -> Option<int>, ghost clock0: nat, ghost usersTaken: nat)
    returns (submissionsMigrated: nat, progressMigrated: nat, aborted: bool)
    requires db.Valid() && db.clock == clock0 + usersTaken
    modifies db
    ensures db.Valid()
    ensures db.users == old(db.users)
    ensures aborted <==> SubmissionsVisited(submissions) < |submissions|
    ensures |db.submissions| == |old(db.submissions)| + submissionsMigrated
    ensures SubmissionsMigrated(db.users, submissions, old(db.submissions), db.submissions)
    ensures aborted ==> db.progress == old(db.progress)
    ensures !aborted ==>
      progressMigrated == |PendingOf(db.users, progress, parseInt)|
      && ProgressMigrated(db.users, progress, parseInt, old(db.progress), old(db.nextProgressId),
                          clock0, usersTaken, submissionsMigrated, db.progress)
  {
    submissionsMigrated, aborted := MigrateSubmissions(db, submissions);
    progressMigrated := 0;
    if aborted {
      return;
    }
    ghost var stamp := db.clock;
    progressMigrated := MigrateProgress(db, progress, parseInt);
  }

  /** The three steps of `migrateData` once the users list can be
      iterated: a submissions list that cannot be iterated or a `null`
      record rejects the run, keeping what the steps before it inserted;
      otherwise the run completes. */
  method MigrateTables(db: Store, users: seq<LegacyUser>, submissions: Option<seq<LegacySubmission>>,
                       progress: seq<(string, Json)>, parseInt: string -> Option<int>)
    returns (outcome: MigrationOutcome)
    requires db.Valid()
    modifies db
    ensures db.Valid()
    ensures !outcome.Skipped?
    ensures outcome.Aborted? <==> RunAborts(LegacyData(Some(users), submissions, progress))
    ensures outcome.Aborted? ==>
      RunAborted(LegacyData(Some(users), submissions, progress),
                 old(db.users), old(db.submissions), old(db.progress), old(db.nextUserId), old(db.clock),
                 db.users, db.submissions, db.progress)
    ensures outcome.Completed? ==>
      submissions.Some?
      && RunCompleted(users, submissions.value, progress, parseInt, outcome.report,
                      old(db.users), old(db.submissions), old(db.progress), old(db.nextUserId), old(db.nextProgressId), old(db.clock),
                      db.users, db.submissions, db.progress)
  {
    var usersMigrated, usersAborted := MigrateUsers(db, users);
    if usersAborted || submissions.None? {
      return Aborted;
    }
    var submissionsMigrated, progressMigrated, aborted :=
      MigrateRest(db, submissions.value, progress, parseInt, old(db.clock), usersMigrated);
    if aborted {
      return Aborted;
    }
    outcome := Completed(MigrationReport(usersMigrated, |users|, submissionsMigrated, |submissions.value|,
                                         progressMigrated));
  }

  /** `migrateData`: a missing or unreadable data file changes nothing and
      writes no backup; a `null` document, a list that cannot be iterated
      or a `null` record rejects the run without a backup, keeping what the
      steps before it inserted; otherwise the three steps run in turn and
      the backup is written once they are done. */
  method MigrateData(db: Store, file: DataFile, parseInt: string -> Option<int>)
    returns (outcome: MigrationOutcome, backupWritten: bool)
    requires db.Valid()
    modifies db
    ensures db.Valid()
    ensures outcome.Skipped? <==> file.Missing? || file.Unreadable?
    ensures outcome.Aborted? <==> file.NullDocument? || (file.Parsed? && RunAborts(file.data))
    ensures backupWritten <==> outcome.Completed?
    ensures outcome.Skipped? || file.NullDocument? || (file.Parsed? && file.data.users.None?) ==> unchanged(db)
    ensures outcome.Aborted? && file.Parsed? ==>
      RunAborted(file.data, old(db.users), old(db.submissions), old(db.progress), old(db.nextUserId), old(db.clock),
                 db.users, db.submissions, db.progress)
    ensures outcome.Completed? ==>
      file.Parsed? && file.data.users.Some? && file.data.submissions.Some?
      && RunCompleted(file.data.users.value, file.data.submissions.value, file.data.progress, parseInt, outcome.report,
                      old(db.users), old(db.submissions), old(db.progress), old(db.nextUserId), old(db.nextProgressId), old(db.clock),
                      db.users, db.submissions, db.progress)
  {
    if file.Missing? || file.Unreadable? {
      return Skipped, false;
    }
    if file.NullDocument? {
      return Aborted, false;
    }
    if file.data.users.None? {
      return Aborted, false;
    }
    outcome := MigrateTables(db, file.data.users.value, file.data.submissions, file.data.progress, parseInt);
    backupWritten := outcome.Completed?;
  }
}
