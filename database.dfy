/** The repository layer over an abstract relational store: three tables
    of rows, each with a SERIAL id and a creation timestamp, the NOT NULL,
    UNIQUE and foreign-key constraints the schema declares, and the queries
    the application issues against them. */
module Database {
  import opened Common
  import opened Json

  /** A query parameter as JavaScript passes it: `undefined`, `null` or a
      string. The driver sends `undefined` and `null` alike as SQL NULL. */
  datatype Arg = Undefined | Null | Text(s: string)

  /** JavaScript truthiness of a parameter: a non-empty string. */
  predicate Given(a: Arg) {
    a.Text? && a.s != ""
  }

  datatype User = User(id: nat, username: string, email: string, passwordHash: string, createdAt: nat)

  /** A user row without its password hash, as the listing of all users returns it. */
  datatype UserSummary = UserSummary(id: nat, username: string, email: string, createdAt: nat)

  /** A submission row; `kind` is the `type` column. */
  datatype Submission = Submission(
    id: nat, userId: nat, title: string, kind: string, filename: string,
    storedFilename: string, filepath: string, notes: Option<string>, status: string,
    submittedAt: nat)

  datatype ProgressRow = ProgressRow(id: nat, userId: nat, data: Json, createdAt: nat)

  datatype DbError = NotNullViolation | UniqueViolation | ForeignKeyViolation

  /** The object `createSubmission` destructures. */
  datatype SubmissionData = SubmissionData(
    title: Arg, kind: Arg, filename: Arg, storedFilename: Arg, filepath: Arg,
    notes: Arg, status: Arg)

  datatype UserUpdates = UserUpdates(username: Arg, email: Arg, passwordHash: Arg)

  datatype SubmissionUpdates = SubmissionUpdates(title: Arg, status: Arg, notes: Arg)

  datatype UserStats = UserStats(userExists: bool, submissionCount: nat, progressCount: nat)

  // ---------------------------------------------------------------- table shapes

  /** Ids are positive and below the next SERIAL value, stamps are below the
      clock, both grow along the table, and usernames and emails are unique. */
  ghost predicate UsersWellFormed(users: seq<User>, nextId: nat, clock: nat) {
    (forall i :: 0 <= i < |users| ==> 1 <= users[i].id < nextId && users[i].createdAt < clock)
    && (forall i, j :: 0 <= i < j < |users| ==> UserPair(users[i], users[j]))
  }

  predicate UserPair(a: User, b: User) {
    a.id < b.id && a.createdAt < b.createdAt && a.username != b.username && a.email != b.email
  }

  ghost predicate SubmissionsWellFormed(rows: seq<Submission>, nextId: nat, clock: nat) {
    (forall i :: 0 <= i < |rows| ==> 1 <= rows[i].id < nextId && rows[i].submittedAt < clock)
    && (forall i, j :: 0 <= i < j < |rows| ==> SubmissionPair(rows[i], rows[j]))
  }

  predicate SubmissionPair(a: Submission, b: Submission) {
    a.id < b.id && a.submittedAt < b.submittedAt
  }

  ghost predicate ProgressWellFormed(rows: seq<ProgressRow>, nextId: nat, clock: nat) {
    (forall i :: 0 <= i < |rows| ==> 1 <= rows[i].id < nextId && rows[i].createdAt < clock)
    && (forall i, j :: 0 <= i < j < |rows| ==> ProgressPair(rows[i], rows[j]))
  }

  predicate ProgressPair(a: ProgressRow, b: ProgressRow) {
    a.id < b.id && a.createdAt < b.createdAt
  }

  /** A larger SERIAL value or a later clock keeps a table well formed. */
  lemma UsersLater(users: seq<User>, nextId: nat, clock: nat, nextId': nat, clock': nat)
    requires UsersWellFormed(users, nextId, clock) && nextId <= nextId' && clock <= clock'
    ensures UsersWellFormed(users, nextId', clock')
  {
  }

  /** Appending a row with the current SERIAL value and stamp, whose username
      and email are new, keeps the user table well formed. */
  lemma UsersAppend(users: seq<User>, row: User)
    requires UsersWellFormed(users, row.id, row.createdAt) && row.id >= 1
    requires forall i :: 0 <= i < |users| ==> users[i].username != row.username && users[i].email != row.email
    ensures UsersWellFormed(users + [row], row.id + 1, row.createdAt + 1)
  {
    var t := users + [row];
    forall i, j | 0 <= i < j < |t| ensures UserPair(t[i], t[j]) {
      if j < |users| {
        assert t[i] == users[i] && t[j] == users[j];
      } else {
        assert t[i] == users[i] && t[j] == row;
      }
    }
  }

  lemma SubmissionsLater(rows: seq<Submission>, nextId: nat, clock: nat, nextId': nat, clock': nat)
    requires SubmissionsWellFormed(rows, nextId, clock) && nextId <= nextId' && clock <= clock'
    ensures SubmissionsWellFormed(rows, nextId', clock')
  {
  }

  lemma SubmissionsAppend(rows: seq<Submission>, row: Submission)
    requires SubmissionsWellFormed(rows, row.id, row.submittedAt) && row.id >= 1
    ensures SubmissionsWellFormed(rows + [row], row.id + 1, row.submittedAt + 1)
  {
    var t := rows + [row];
    forall i, j | 0 <= i < j < |t| ensures SubmissionPair(t[i], t[j]) {
      if j < |rows| {
        assert t[i] == rows[i] && t[j] == rows[j];
      } else {
        assert t[i] == rows[i] && t[j] == row;
      }
    }
  }

  lemma ProgressLater(rows: seq<ProgressRow>, nextId: nat, clock: nat, nextId': nat, clock': nat)
    requires ProgressWellFormed(rows, nextId, clock) && nextId <= nextId' && clock <= clock'
    ensures ProgressWellFormed(rows, nextId', clock')
  {
  }

  lemma ProgressAppend(rows: seq<ProgressRow>, row: ProgressRow)
    requires ProgressWellFormed(rows, row.id, row.createdAt) && row.id >= 1
    ensures ProgressWellFormed(rows + [row], row.id + 1, row.createdAt + 1)
  {
    var t := rows + [row];
    forall i, j | 0 <= i < j < |t| ensures ProgressPair(t[i], t[j]) {
      if j < |rows| {
        assert t[i] == rows[i] && t[j] == rows[j];
      } else {
        assert t[i] == rows[i] && t[j] == row;
      }
    }
  }

  /** Some user row has this id. */
  predicate HasUser(users: seq<User>, id: int) {
    exists i :: 0 <= i < |users| && users[i].id == id
  }

  /** The position of the row with this id. */
  function UserIndex(users: seq<User>, id: int): (k: Option<nat>)
    ensures k.Some? ==> k.value < |users| && users[k.value].id == id
    ensures k.None? <==> !HasUser(users, id)
    decreases |users|
  {
    if users == [] then None
    else if users[0].id == id then Some(0)
    else match UserIndex(users[1..], id)
      case None => None
      case Some(k) => Some(k + 1)
  }

  function SubmissionIndex(rows: seq<Submission>, id: int): (k: Option<nat>)
    ensures k.Some? ==> k.value < |rows| && rows[k.value].id == id
    ensures k.None? <==> forall i :: 0 <= i < |rows| ==> rows[i].id != id
    decreases |rows|
  {
    if rows == [] then None
    else if rows[0].id == id then Some(0)
    else match SubmissionIndex(rows[1..], id)
      case None => None
      case Some(k) => Some(k + 1)
  }

  // ---------------------------------------------------------------- update statements

  datatype Column = Username | Email | PasswordHash | Title | Status | Notes

  /** The position of a column in the order the builders test the fields. */
  function ColumnRank(c: Column): nat {
    match c
    case Username => 0
    case Email => 1
    case PasswordHash => 2
    case Title => 0
    case Status => 1
    case Notes => 2
  }

  datatype SqlValue = SqlNull | SqlText(text: string) | SqlInt(n: int)

  /** The value the driver sends for a parameter. */
  function ToSql(a: Arg): (v: SqlValue)
    ensures v.SqlNull? <==> !a.Text?
    ensures a.Text? ==> v == SqlText(a.s)
  {
    if a.Text? then SqlText(a.s) else SqlNull
  }

  /** `column = $placeholder` in a SET list. */
  datatype Assignment = Assignment(column: Column, placeholder: nat)

  /** `UPDATE t SET <sets> WHERE id = $idPlaceholder RETURNING *` with its
      parameter array. */
  datatype UpdateQuery = UpdateQuery(sets: seq<Assignment>, idPlaceholder: nat, values: seq<SqlValue>)

  /** The SET list uses `$1..$k` in order, the id is `$(k+1)`, and the
      parameter array holds exactly k+1 values. */
  predicate WellNumbered(q: UpdateQuery) {
    |q.values| == |q.sets| + 1
    && q.idPlaceholder == |q.sets| + 1
    && forall i :: 0 <= i < |q.sets| ==> q.sets[i].placeholder == i + 1
  }

  /** The columns appear in strictly increasing rank. */
  predicate InColumnOrder(sets: seq<Assignment>) {
    forall i, j :: 0 <= i < j < |sets| ==> ColumnRank(sets[i].column) < ColumnRank(sets[j].column)
  }

  predicate Sets(sets: seq<Assignment>, c: Column) {
    exists i :: 0 <= i < |sets| && sets[i].column == c
  }

  /** The value bound to an assignment's placeholder, if the array has one. */
  function Bound(a: Assignment, values: seq<SqlValue>): Option<SqlValue> {
    if 1 <= a.placeholder <= |values| then Some(values[a.placeholder - 1]) else None
  }

  /** One `column = value` on a user row; None when the statement would fail
      (a NULL into a NOT NULL column, a column the table lacks, a missing
      parameter). */
  function SetUserColumn(u: User, c: Column, v: Option<SqlValue>): Option<User> {
    match (c, v)
    case (Username, Some(SqlText(s))) => Some(u.(username := s))
    case (Email, Some(SqlText(s))) => Some(u.(email := s))
    case (PasswordHash, Some(SqlText(s))) => Some(u.(passwordHash := s))
    case _ => None
  }

  /** One `column = value` on a submission row; `notes` is the one column
      that takes NULL. */
  function SetSubmissionColumn(s: Submission, c: Column, v: Option<SqlValue>): Option<Submission> {
    match (c, v)
    case (Title, Some(SqlText(t))) => Some(s.(title := t))
    case (Status, Some(SqlText(t))) => Some(s.(status := t))
    case (Notes, Some(SqlText(t))) => Some(s.(notes := Some(t)))
    case (Notes, Some(SqlNull)) => Some(s.(notes := None))
    case _ => None
  }

  /** The effect of a SET list on one row, the assignments taken in order;
      None when one of them fails. */
  function ApplySets<R>(row: R, setColumn: (R, Column, Option<SqlValue>) -> Option<R>,
                        sets: seq<Assignment>, values: seq<SqlValue>): Option<R>
    decreases |sets|
  {
    if sets == [] then Some(row)
    else
      var last := sets[|sets| - 1];
      match ApplySets(row, setColumn, sets[..|sets| - 1], values)
      case None => None
      case Some(r) => setColumn(r, last.column, Bound(last, values))
  }

  /** The assignments use `$1..$k` in order and there is one value per assignment. */
  predicate Numbered(sets: seq<Assignment>, values: seq<SqlValue>) {
    |values| == |sets| && forall i :: 0 <= i < |sets| ==> sets[i].placeholder == i + 1
  }

  /** Parameters beyond the last placeholder a SET list uses do not change its effect. */
  lemma {:induction false} ApplySetsExtend<R>(row: R, setColumn: (R, Column, Option<SqlValue>) -> Option<R>,
                                              sets: seq<Assignment>, values: seq<SqlValue>, v: SqlValue)
    requires forall i :: 0 <= i < |sets| ==> 1 <= sets[i].placeholder <= |values|
    ensures ApplySets(row, setColumn, sets, values + [v]) == ApplySets(row, setColumn, sets, values)
    decreases |sets|
  {
    if sets != [] {
      ApplySetsExtend(row, setColumn, sets[..|sets| - 1], values, v);
      var last := sets[|sets| - 1];
      assert Bound(last, values + [v]) == Bound(last, values);
    }
  }

  /** Pushing one assignment and its value applies one more `column = value`. */
  lemma ApplySetsPush<R>(row: R, setColumn: (R, Column, Option<SqlValue>) -> Option<R>,
                         sets: seq<Assignment>, values: seq<SqlValue>, c: Column, v: SqlValue)
    requires Numbered(sets, values)
    ensures Numbered(sets + [Assignment(c, |sets| + 1)], values + [v])
    ensures ApplySets(row, setColumn, sets + [Assignment(c, |sets| + 1)], values + [v])
      == match ApplySets(row, setColumn, sets, values)
         case None => None
         case Some(r) => setColumn(r, c, Some(v))
  {
    var sets' := sets + [Assignment(c, |sets| + 1)];
    assert sets'[..|sets'| - 1] == sets;
    ApplySetsExtend(row, setColumn, sets, values, v);
  }

  /** Which user columns a partial update names: the truthy fields. */
  predicate UserIncluded(up: UserUpdates, c: Column) {
    match c
    case Username => Given(up.username)
    case Email => Given(up.email)
    case PasswordHash => Given(up.passwordHash)
    case _ => false
  }

  /** Which submission columns a partial update names: a truthy title or
      status, and notes whenever it is not `undefined`. */
  predicate SubmissionIncluded(up: SubmissionUpdates, c: Column) {
    match c
    case Title => Given(up.title)
    case Status => Given(up.status)
    case Notes => !up.notes.Undefined?
    case _ => false
  }

  /** The user row a partial update is meant to produce: each truthy field
      replaced, the others kept. */
  function PatchUser(u: User, up: UserUpdates): User {
    u.(username := if Given(up.username) then up.username.s else u.username,
       email := if Given(up.email) then up.email.s else u.email,
       passwordHash := if Given(up.passwordHash) then up.passwordHash.s else u.passwordHash)
  }

  /** The submission row a partial update is meant to produce: a truthy
      title or status replaced, notes replaced whenever given, `null`
      clearing them. */
  function PatchSubmission(s: Submission, up: SubmissionUpdates): Submission {
    s.(title := if Given(up.title) then up.title.s else s.title,
       status := if Given(up.status) then up.status.s else s.status,
       notes := match up.notes
                case Undefined => s.notes
                case Null => None
                case Text(t) => Some(t))
  }

  /** The field of a partial update that feeds a column. */
  function ColumnArgOfUser(up: UserUpdates, c: Column): Arg {
    match c
    case Username => up.username
    case Email => up.email
    case PasswordHash => up.passwordHash
    case _ => Undefined
  }

  function ColumnArgOfSubmission(up: SubmissionUpdates, c: Column): Arg {
    match c
    case Title => up.title
    case Status => up.status
    case Notes => up.notes
    case _ => Undefined
  }

  /** The user row with only the named columns of rank below `r` replaced. */
  function PatchUserBelow(u: User, up: UserUpdates, r: nat): User {
    u.(username := if r > 0 && Given(up.username) then up.username.s else u.username,
       email := if r > 1 && Given(up.email) then up.email.s else u.email,
       passwordHash := if r > 2 && Given(up.passwordHash) then up.passwordHash.s else u.passwordHash)
  }

  function PatchSubmissionBelow(s: Submission, up: SubmissionUpdates, r: nat): Submission {
    s.(title := if r > 0 && Given(up.title) then up.title.s else s.title,
       status := if r > 1 && Given(up.status) then up.status.s else s.status,
       notes := if r > 2 then PatchSubmission(s, up).notes else s.notes)
  }

  /** What the builder has produced once the fields of rank below `r` are
      tested: numbered assignments in column order, exactly for the named
      columns of rank below `r`, each bound to its field's value. */
  ghost predicate UserPrefix(fields: seq<Assignment>, values: seq<SqlValue>, up: UserUpdates, r: nat) {
    Numbered(fields, values)
    && InColumnOrder(fields)
    && (forall i :: 0 <= i < |fields| ==>
          ColumnRank(fields[i].column) < r && values[i] == ToSql(ColumnArgOfUser(up, fields[i].column)))
    && (forall c :: Sets(fields, c) <==> UserIncluded(up, c) && ColumnRank(c) < r)
  }

  lemma UserStart(up: UserUpdates)
    ensures UserPrefix([], [], up, 0)
  {
  }

  /** Testing the field of column `c` and pushing it when it is named. */
  lemma UserStep(fields: seq<Assignment>, values: seq<SqlValue>, up: UserUpdates, c: Column,
                 fields'': seq<Assignment>, values'': seq<SqlValue>)
    requires UserPrefix(fields, values, up, ColumnRank(c)) && c in [Username, Email, PasswordHash]
    requires UserIncluded(up, c) ==>
      fields'' == fields + [Assignment(c, |fields| + 1)] && values'' == values + [ToSql(ColumnArgOfUser(up, c))]
    requires !UserIncluded(up, c) ==> fields'' == fields && values'' == values
    ensures UserPrefix(fields'', values'', up, ColumnRank(c) + 1)
  {
    if UserIncluded(up, c) {
      forall c' ensures Sets(fields'', c') <==> UserIncluded(up, c') && ColumnRank(c') < ColumnRank(c) + 1 {
        if Sets(fields'', c') && c' != c {
          var i :| 0 <= i < |fields''| && fields''[i].column == c';
          assert i < |fields| && fields[i].column == c';
        }
        if c' == c {
          assert fields''[|fields|].column == c;
        } else if UserIncluded(up, c') && ColumnRank(c') < ColumnRank(c) + 1 {
          var i :| 0 <= i < |fields| && fields[i].column == c';
          assert fields''[i].column == c';
        }
      }
    }
  }

  /** Dropping the last assignment of a prefix leaves the prefix for the
      ranks below its column, and no named column lies between that column
      and `r`. */
  lemma UserPrefixInit(fields: seq<Assignment>, values: seq<SqlValue>, up: UserUpdates, r: nat)
    requires UserPrefix(fields, values, up, r) && fields != []
    ensures var n := |fields| - 1; var c := fields[n].column;
      UserPrefix(fields[..n], values[..n], up, ColumnRank(c))
      && UserIncluded(up, c) && ColumnRank(c) < r
      && values[n] == ToSql(ColumnArgOfUser(up, c))
      && forall c' :: UserIncluded(up, c') && ColumnRank(c) < ColumnRank(c') ==> ColumnRank(c') >= r
  {
    var n := |fields| - 1;
    var rl := ColumnRank(fields[n].column);
    var init := fields[..n];
    assert Sets(fields, fields[n].column);
    forall c ensures Sets(init, c) <==> UserIncluded(up, c) && ColumnRank(c) < rl {
      if Sets(init, c) {
        var i :| 0 <= i < n && init[i].column == c;
        assert fields[i].column == c;
        assert Sets(fields, c);
      }
      if UserIncluded(up, c) && ColumnRank(c) < rl {
        assert Sets(fields, c);
        var i :| 0 <= i < |fields| && fields[i].column == c;
        assert init[i].column == c;
      }
    }
    forall c | UserIncluded(up, c) && ColumnRank(c) < r ensures ColumnRank(c) <= rl {
      var i :| 0 <= i < |fields| && fields[i].column == c;
      if i < n {
        assert ColumnRank(fields[i].column) < rl;
      }
    }
  }

  /** Setting a named column moves the patch past it, and past any unnamed
      columns up to `r`. */
  lemma UserBelowStep(u: User, up: UserUpdates, c: Column, r: nat)
    requires UserIncluded(up, c) && ColumnRank(c) < r
    requires forall c' :: UserIncluded(up, c') && ColumnRank(c) < ColumnRank(c') ==> ColumnRank(c') >= r
    ensures SetUserColumn(PatchUserBelow(u, up, ColumnRank(c)), c, Some(ToSql(ColumnArgOfUser(up, c))))
            == Some(PatchUserBelow(u, up, r))
  {
    assert UserIncluded(up, Username) ==> ColumnRank(c) >= 0;
    if c == Username {
      assert UserIncluded(up, Email) ==> r <= 1;
      assert UserIncluded(up, PasswordHash) ==> r <= 2;
    } else if c == Email {
      assert UserIncluded(up, PasswordHash) ==> r <= 2;
    }
  }

  /** A prefix sets exactly what it promises on any row. */
  lemma {:induction false} UserPrefixEffect(u: User, fields: seq<Assignment>, values: seq<SqlValue>,
                                            up: UserUpdates, r: nat)
    requires UserPrefix(fields, values, up, r)
    ensures ApplySets(u, SetUserColumn, fields, values) == Some(PatchUserBelow(u, up, r))
    decreases |fields|
  {
    if fields == [] {
      assert !Sets(fields, Username) && !Sets(fields, Email) && !Sets(fields, PasswordHash);
    } else {
      var n := |fields| - 1;
      var c := fields[n].column;
      UserPrefixInit(fields, values, up, r);
      UserPrefixEffect(u, fields[..n], values[..n], up, ColumnRank(c));
      assert values == values[..n] + [values[n]];
      ApplySetsExtend(u, SetUserColumn, fields[..n], values[..n], values[n]);
      assert Bound(fields[n], values) == Some(values[n]);
      UserBelowStep(u, up, c, r);
    }
  }

  /** Once every field is tested, appending the id gives the statement the
      builder promises. */
  lemma UserFinish(fields: seq<Assignment>, values: seq<SqlValue>, up: UserUpdates, id: int, q: UpdateQuery)
    requires UserPrefix(fields, values, up, 3)
    requires q == UpdateQuery(fields, |fields| + 1, values + [SqlInt(id)])
    ensures fields == [] <==> forall c :: !UserIncluded(up, c)
    ensures WellNumbered(q) && InColumnOrder(q.sets)
    ensures q.values[|q.values| - 1] == SqlInt(id)
    ensures forall c :: Sets(q.sets, c) <==> UserIncluded(up, c)
    ensures forall u :: ApplySets(u, SetUserColumn, q.sets, q.values) == Some(PatchUser(u, up))
  {
    if fields != [] {
      assert Sets(fields, fields[0].column);
    }
    forall u ensures ApplySets(u, SetUserColumn, fields, values + [SqlInt(id)]) == Some(PatchUser(u, up)) {
      UserPrefixEffect(u, fields, values, up, 3);
      ApplySetsExtend(u, SetUserColumn, fields, values, SqlInt(id));
    }
  }

  ghost predicate SubmissionPrefix(fields: seq<Assignment>, values: seq<SqlValue>, up: SubmissionUpdates, r: nat) {
    Numbered(fields, values)
    && InColumnOrder(fields)
    && (forall i :: 0 <= i < |fields| ==>
          ColumnRank(fields[i].column) < r && values[i] == ToSql(ColumnArgOfSubmission(up, fields[i].column)))
    && (forall c :: Sets(fields, c) <==> SubmissionIncluded(up, c) && ColumnRank(c) < r)
  }

  lemma SubmissionStart(up: SubmissionUpdates)
    ensures SubmissionPrefix([], [], up, 0)
  {
  }

  lemma SubmissionStep(fields: seq<Assignment>, values: seq<SqlValue>, up: SubmissionUpdates, c: Column,
                 fields'': seq<Assignment>, values'': seq<SqlValue>)
    requires SubmissionPrefix(fields, values, up, ColumnRank(c)) && c in [Title, Status, Notes]
    requires SubmissionIncluded(up, c) ==>
      fields'' == fields + [Assignment(c, |fields| + 1)] && values'' == values + [ToSql(ColumnArgOfSubmission(up, c))]
    requires !SubmissionIncluded(up, c) ==> fields'' == fields && values'' == values
    ensures SubmissionPrefix(fields'', values'', up, ColumnRank(c) + 1)
  {
    if SubmissionIncluded(up, c) {
      forall c' ensures Sets(fields'', c') <==> SubmissionIncluded(up, c') && ColumnRank(c') < ColumnRank(c) + 1 {
        if Sets(fields'', c') && c' != c {
          var i :| 0 <= i < |fields''| && fields''[i].column == c';
          assert i < |fields| && fields[i].column == c';
        }
        if c' == c {
          assert fields''[|fields|].column == c;
        } else if SubmissionIncluded(up, c') && ColumnRank(c') < ColumnRank(c) + 1 {
          var i :| 0 <= i < |fields| && fields[i].column == c';
          assert fields''[i].column == c';
        }
      }
    }
  }

  lemma SubmissionPrefixInit(fields: seq<Assignment>, values: seq<SqlValue>, up: SubmissionUpdates, r: nat)
    requires SubmissionPrefix(fields, values, up, r) && fields != []
    ensures var n := |fields| - 1; var c := fields[n].column;
      SubmissionPrefix(fields[..n], values[..n], up, ColumnRank(c))
      && SubmissionIncluded(up, c) && ColumnRank(c) < r
      && values[n] == ToSql(ColumnArgOfSubmission(up, c))
      && forall c' :: SubmissionIncluded(up, c') && ColumnRank(c) < ColumnRank(c') ==> ColumnRank(c') >= r
  {
    var n := |fields| - 1;
    var rl := ColumnRank(fields[n].column);
    var init := fields[..n];
    assert Sets(fields, fields[n].column);
    forall c ensures Sets(init, c) <==> SubmissionIncluded(up, c) && ColumnRank(c) < rl {
      if Sets(init, c) {
        var i :| 0 <= i < n && init[i].column == c;
        assert fields[i].column == c;
        assert Sets(fields, c);
      }
      if SubmissionIncluded(up, c) && ColumnRank(c) < rl {
        assert Sets(fields, c);
        var i :| 0 <= i < |fields| && fields[i].column == c;
        assert init[i].column == c;
      }
    }
    forall c | SubmissionIncluded(up, c) && ColumnRank(c) < r ensures ColumnRank(c) <= rl {
      var i :| 0 <= i < |fields| && fields[i].column == c;
      if i < n {
        assert ColumnRank(fields[i].column) < rl;
      }
    }
  }

  lemma SubmissionBelowStep(s: Submission, up: SubmissionUpdates, c: Column, r: nat)
    requires SubmissionIncluded(up, c) && ColumnRank(c) < r
    requires forall c' :: SubmissionIncluded(up, c') && ColumnRank(c) < ColumnRank(c') ==> ColumnRank(c') >= r
    ensures SetSubmissionColumn(PatchSubmissionBelow(s, up, ColumnRank(c)), c, Some(ToSql(ColumnArgOfSubmission(up, c))))
            == Some(PatchSubmissionBelow(s, up, r))
  {
    assert SubmissionIncluded(up, Title) ==> ColumnRank(c) >= 0;
    if c == Title {
      assert SubmissionIncluded(up, Status) ==> r <= 1;
      assert SubmissionIncluded(up, Notes) ==> r <= 2;
    } else if c == Status {
      assert SubmissionIncluded(up, Notes) ==> r <= 2;
    }
  }

  lemma {:induction false} SubmissionPrefixEffect(s: Submission, fields: seq<Assignment>, values: seq<SqlValue>,
                                            up: SubmissionUpdates, r: nat)
    requires SubmissionPrefix(fields, values, up, r)
    ensures ApplySets(s, SetSubmissionColumn, fields, values) == Some(PatchSubmissionBelow(s, up, r))
    decreases |fields|
  {
    if fields == [] {
      assert !Sets(fields, Title) && !Sets(fields, Status) && !Sets(fields, Notes);
    } else {
      var n := |fields| - 1;
      var c := fields[n].column;
      SubmissionPrefixInit(fields, values, up, r);
      SubmissionPrefixEffect(s, fields[..n], values[..n], up, ColumnRank(c));
      assert values == values[..n] + [values[n]];
      ApplySetsExtend(s, SetSubmissionColumn, fields[..n], values[..n], values[n]);
      assert Bound(fields[n], values) == Some(values[n]);
      SubmissionBelowStep(s, up, c, r);
    }
  }

  lemma SubmissionFinish(fields: seq<Assignment>, values: seq<SqlValue>, up: SubmissionUpdates, id: int, q: UpdateQuery)
    requires SubmissionPrefix(fields, values, up, 3)
    requires q == UpdateQuery(fields, |fields| + 1, values + [SqlInt(id)])
    ensures fields == [] <==> forall c :: !SubmissionIncluded(up, c)
    ensures WellNumbered(q) && InColumnOrder(q.sets)
    ensures q.values[|q.values| - 1] == SqlInt(id)
    ensures forall c :: Sets(q.sets, c) <==> SubmissionIncluded(up, c)
    ensures forall s :: ApplySets(s, SetSubmissionColumn, q.sets, q.values) == Some(PatchSubmission(s, up))
  {
    if fields != [] {
      assert Sets(fields, fields[0].column);
    }
    forall s ensures ApplySets(s, SetSubmissionColumn, fields, values + [SqlInt(id)]) == Some(PatchSubmission(s, up)) {
      SubmissionPrefixEffect(s, fields, values, up, 3);
      ApplySetsExtend(s, SetSubmissionColumn, fields, values, SqlInt(id));
    }
  }

  /** One `if (updates.x) { fields.push(...); values.push(...) }` block:
      when the field is named, an assignment with the next placeholder and
      its value are pushed and the counter moves on. */
  method PushField(fields: seq<Assignment>, values: seq<SqlValue>, paramCount: nat,
                   named: bool, c: Column, v: SqlValue)
    returns (fields': seq<Assignment>, values': seq<SqlValue>, paramCount': nat)
    requires paramCount == |fields| + 1
    ensures paramCount' == |fields'| + 1
    ensures named ==>
      fields' == fields + [Assignment(c, paramCount)] && values' == values + [v] && paramCount' == paramCount + 1
    ensures !named ==> fields' == fields && values' == values && paramCount' == paramCount
  {
    fields', values', paramCount' := fields, values, paramCount;
    if named {
      fields' := fields' + [Assignment(c, paramCount')];
      paramCount' := paramCount' + 1;
      values' := values' + [v];
    }
  }

  /** The block of `updateUser` for column `c`: pushed when the update
      names it, which keeps the built prefix in column order. */
  method PushUserField(fields: seq<Assignment>, values: seq<SqlValue>, paramCount: nat,
                       up: UserUpdates, c: Column)
    returns (fields': seq<Assignment>, values': seq<SqlValue>, paramCount': nat)
    requires paramCount == |fields| + 1 && c in [Username, Email, PasswordHash]
    requires UserPrefix(fields, values, up, ColumnRank(c))
    ensures paramCount' == |fields'| + 1
    ensures UserPrefix(fields', values', up, ColumnRank(c) + 1)
  {
    fields', values', paramCount' := PushField(fields, values, paramCount, UserIncluded(up, c),
                                               c, ToSql(ColumnArgOfUser(up, c)));
    UserStep(fields, values, up, c, fields', values');
  }

  /** The block of `updateSubmission` for column `c`. */
  method PushSubmissionField(fields: seq<Assignment>, values: seq<SqlValue>, paramCount: nat,
                             up: SubmissionUpdates, c: Column)
    returns (fields': seq<Assignment>, values': seq<SqlValue>, paramCount': nat)
    requires paramCount == |fields| + 1 && c in [Title, Status, Notes]
    requires SubmissionPrefix(fields, values, up, ColumnRank(c))
    ensures paramCount' == |fields'| + 1
    ensures SubmissionPrefix(fields', values', up, ColumnRank(c) + 1)
  {
    fields', values', paramCount' := PushField(fields, values, paramCount, SubmissionIncluded(up, c),
                                               c, ToSql(ColumnArgOfSubmission(up, c)));
    SubmissionStep(fields, values, up, c, fields', values');
  }

  /** `updateUser`'s statement builder: a SET item and a parameter for each
      truthy field, in the order username, email, password hash, then the
      id as the last parameter. Nothing is built when no field is truthy. */
  method BuildUserUpdate(userId: int, updates: UserUpdates) returns (q: Option<UpdateQuery>)
    ensures q.None? <==> forall c :: !UserIncluded(updates, c)
    ensures q.Some? ==> WellNumbered(q.value) && InColumnOrder(q.value.sets)
    ensures q.Some? ==> q.value.values[|q.value.values| - 1] == SqlInt(userId)
    ensures q.Some? ==> forall c :: Sets(q.value.sets, c) <==> UserIncluded(updates, c)
    ensures q.Some? ==> forall u :: ApplySets(u, SetUserColumn, q.value.sets, q.value.values) == Some(PatchUser(u, updates))
  {
    var fields: seq<Assignment> := [];
    var values: seq<SqlValue> := [];
    var paramCount := 1;
    UserStart(updates);
    fields, values, paramCount := PushUserField(fields, values, paramCount, updates, Username);
    fields, values, paramCount := PushUserField(fields, values, paramCount, updates, Email);
    fields, values, paramCount := PushUserField(fields, values, paramCount, updates, PasswordHash);
    if |fields| == 0 {
      UserFinish(fields, values, updates, userId, UpdateQuery(fields, 1, [SqlInt(userId)]));
      return None;
    }
    values := values + [SqlInt(userId)];
    q := Some(UpdateQuery(fields, paramCount, values));
    UserFinish(fields, values[..|values| - 1], updates, userId, q.value);
  }

  /** `updateSubmission`'s statement builder: a truthy title, a truthy
      status and any notes that are not `undefined`, in that order, then
      the id. Nothing is built when no field is named. */
  method BuildSubmissionUpdate(submissionId: int, updates: SubmissionUpdates) returns (q: Option<UpdateQuery>)
    ensures q.None? <==> forall c :: !SubmissionIncluded(updates, c)
    ensures q.Some? ==> WellNumbered(q.value) && InColumnOrder(q.value.sets)
    ensures q.Some? ==> q.value.values[|q.value.values| - 1] == SqlInt(submissionId)
    ensures q.Some? ==> forall c :: Sets(q.value.sets, c) <==> SubmissionIncluded(updates, c)
    ensures q.Some? ==> forall s :: ApplySets(s, SetSubmissionColumn, q.value.sets, q.value.values)
                                    == Some(PatchSubmission(s, updates))
  {
    var fields: seq<Assignment> := [];
    var values: seq<SqlValue> := [];
    var paramCount := 1;
    SubmissionStart(updates);
    fields, values, paramCount := PushSubmissionField(fields, values, paramCount, updates, Title);
    fields, values, paramCount := PushSubmissionField(fields, values, paramCount, updates, Status);
    fields, values, paramCount := PushSubmissionField(fields, values, paramCount, updates, Notes);
    if |fields| == 0 {
      SubmissionFinish(fields, values, updates, submissionId, UpdateQuery(fields, 1, [SqlInt(submissionId)]));
      return None;
    }
    values := values + [SqlInt(submissionId)];
    q := Some(UpdateQuery(fields, paramCount, values));
    SubmissionFinish(fields, values[..|values| - 1], updates, submissionId, q.value);
  }

  // ---------------------------------------------------------------- the store

  /** The summary of a user row the listing of all users returns. */
  function Summarize(u: User): UserSummary {
    UserSummary(u.id, u.username, u.email, u.createdAt)
  }

  /** Another row than the one at `k` already holds the username or the
      email of `v`. */
  predicate Clash(users: seq<User>, k: nat, v: User) {
    exists i :: 0 <= i < |users| && i != k && (users[i].username == v.username || users[i].email == v.email)
  }

  /** Every NOT NULL column of a submission gets a value. */
  predicate SubmissionComplete(data: SubmissionData) {
    data.title.Text? && data.kind.Text? && data.filename.Text? && data.storedFilename.Text?
    && data.filepath.Text?
  }

  /** The three tables with their SERIAL counters, and the clock the
      timestamp defaults read. */
  class Store {
    var users: seq<User>
    var submissions: seq<Submission>
    var progress: seq<ProgressRow>
    var nextUserId: nat
    var nextSubmissionId: nat
    var nextProgressId: nat
    var clock: nat

    ghost predicate Valid()
      reads this
    {
      nextUserId >= 1 && nextSubmissionId >= 1 && nextProgressId >= 1
      && UsersWellFormed(users, nextUserId, clock)
      && SubmissionsWellFormed(submissions, nextSubmissionId, clock)
      && ProgressWellFormed(progress, nextProgressId, clock)
    }

    /** An empty database. */
    constructor ()
      ensures Valid()
      ensures users == [] && submissions == [] && progress == []
      ensures nextUserId == 1 && nextSubmissionId == 1 && nextProgressId == 1 && clock == 0
    {
      users, submissions, progress := [], [], [];
      nextUserId, nextSubmissionId, nextProgressId := 1, 1, 1;
      clock := 0;
    }

    // ---------------- users

    /** `getUserById`: the row with this id, or null. */
    function GetUserById(id: int): (r: Option<User>)
      reads this
      ensures r.Some? ==> r.value in users && r.value.id == id
      ensures r.None? <==> !HasUser(users, id)
    {
      FirstWhere(users, (u: User) => u.id == id)
    }

    /** `getUserByUsername`: a NULL parameter matches no row. */
    function GetUserByUsername(username: Arg): (r: Option<User>)
      reads this
      ensures r.Some? ==> username.Text? && r.value in users && r.value.username == username.s
      ensures r.None? <==> !username.Text? || forall i :: 0 <= i < |users| ==> users[i].username != username.s
    {
      if username.Text? then
        var name := username.s;
        FirstWhere(users, (u: User) => u.username == name)
      else None
    }

    /** `getUserByEmail`: a NULL parameter matches no row. */
    function GetUserByEmail(email: Arg): (r: Option<User>)
      reads this
      ensures r.Some? ==> email.Text? && r.value in users && r.value.email == email.s
      ensures r.None? <==> !email.Text? || forall i :: 0 <= i < |users| ==> users[i].email != email.s
    {
      if email.Text? then
        var address := email.s;
        FirstWhere(users, (u: User) => u.email == address)
      else None
    }

    /** `getUserByUsernameOrEmail`: a row whose username or email is the
        identifier (the first in table order), or null when there is none. */
    function GetUserByUsernameOrEmail(identifier: string): (r: Option<User>)
      reads this
      ensures r.Some? ==> r.value in users && (r.value.username == identifier || r.value.email == identifier)
      ensures r.None? <==> forall i :: 0 <= i < |users| ==> users[i].username != identifier && users[i].email != identifier
    {
      FirstWhere(users, (u: User) => u.username == identifier || u.email == identifier)
    }

    /** `getAllUsers`: every user without the password hash, newest first. */
    function GetAllUsers(): (r: seq<UserSummary>)
      reads this
      ensures |r| == |users|
      ensures forall i :: 0 <= i < |r| ==> r[i] == Summarize(users[|users| - 1 - i])
    {
      var all := users;
      Reverse(seq(|all|, (i: int) requires 0 <= i < |all| => Summarize(all[i])))
    }

    /** `createUser`: the INSERT takes a SERIAL value whether or not it
        succeeds; it fails on a NULL column or a username or email already
        taken, and otherwise appends the row stamped with the clock. */
    method CreateUser(username: Arg, email: Arg, passwordHash: Arg) returns (r: Result<User, DbError>)
      requires Valid()
      modifies this
      ensures Valid()
      ensures submissions == old(submissions) && progress == old(progress)
      ensures nextSubmissionId == old(nextSubmissionId) && nextProgressId == old(nextProgressId)
      ensures nextUserId == old(nextUserId) + 1
      ensures r.Err? <==>
        !(username.Text? && email.Text? && passwordHash.Text?)
        || old(GetUserByUsername(username)).Some? || old(GetUserByEmail(email)).Some?
      ensures r.Err? ==> users == old(users) && clock == old(clock)
      ensures r.Err? ==> (r.error == NotNullViolation <==> !(username.Text? && email.Text? && passwordHash.Text?))
      ensures r.Err? ==> r.error != ForeignKeyViolation
      ensures r.Ok? ==> r.value == User(old(nextUserId), username.s, email.s, passwordHash.s, old(clock))
      ensures r.Ok? ==> users == old(users) + [r.value] && clock == old(clock) + 1
      ensures r.Ok? ==> GetUserByUsername(username) == Some(r.value) && GetUserByEmail(email) == Some(r.value)
    {
      var id := nextUserId;
      nextUserId := nextUserId + 1;
      UsersLater(users, id, clock, nextUserId, clock);
      if !(username.Text? && email.Text? && passwordHash.Text?) {
        return Err(NotNullViolation);
      }
      if GetUserByUsername(username).Some? || GetUserByEmail(email).Some? {
        return Err(UniqueViolation);
      }
      var row := User(id, username.s, email.s, passwordHash.s, clock);
      AppendUser(row);
      r := Ok(row);
    }

    /** The successful INSERT: a row with the SERIAL value just taken, the
        current stamp, and a username and email no row has yet. */
    method AppendUser(row: User)
      requires Valid() && row.id >= 1 && row.id + 1 == nextUserId && row.createdAt == clock
      requires UsersWellFormed(users, row.id, clock)
      requires forall i :: 0 <= i < |users| ==> users[i].username != row.username && users[i].email != row.email
      modifies this
      ensures Valid()
      ensures users == old(users) + [row] && clock == old(clock) + 1
      ensures submissions == old(submissions) && progress == old(progress)
      ensures nextUserId == old(nextUserId)
      ensures nextSubmissionId == old(nextSubmissionId) && nextProgressId == old(nextProgressId)
      ensures GetUserByUsername(Text(row.username)) == Some(row) && GetUserByEmail(Text(row.email)) == Some(row)
    {
      UsersAppend(users, row);
      UsersLater(users + [row], row.id + 1, clock + 1, nextUserId, clock + 1);
      SubmissionsLater(submissions, nextSubmissionId, clock, nextSubmissionId, clock + 1);
      ProgressLater(progress, nextProgressId, clock, nextProgressId, clock + 1);
      users := users + [row];
      clock := clock + 1;
      LastUserFound(Text(row.username), Text(row.email));
    }

    /** Usernames and emails are unique, so looking up those of the newest
        row finds that row. */
    lemma LastUserFound(username: Arg, email: Arg)
      requires Valid() && |users| > 0
      requires username.Text? && users[|users| - 1].username == username.s
      requires email.Text? && users[|users| - 1].email == email.s
      ensures GetUserByUsername(username) == Some(users[|users| - 1])
      ensures GetUserByEmail(email) == Some(users[|users| - 1])
    {
      var last := |users| - 1;
      forall k | 0 <= k < last
        ensures users[k].username != username.s && users[k].email != email.s
      {
        assert UserPair(users[k], users[last]);
      }
    }

    /** `updateUser`: nothing is run when no field is truthy; otherwise the
        built statement patches the row with that id, if any, and fails
        without a change when the new username or email is taken. */
    method UpdateUser(userId: int, updates: UserUpdates) returns (r: Result<Option<User>, DbError>)
      requires Valid()
      modifies this
      ensures Valid()
      ensures submissions == old(submissions) && progress == old(progress)
      ensures nextUserId == old(nextUserId) && nextSubmissionId == old(nextSubmissionId)
      ensures nextProgressId == old(nextProgressId) && clock == old(clock)
      ensures (forall c :: !UserIncluded(updates, c)) ==> r == Ok(None) && users == old(users)
      ensures !HasUser(old(users), userId) ==> r == Ok(None) && users == old(users)
      ensures r.Err? ==> r.error == UniqueViolation && users == old(users)
      ensures r.Err? ==>
        UserIndex(old(users), userId).Some?
        && Clash(old(users), UserIndex(old(users), userId).value, PatchUser(old(users)[UserIndex(old(users), userId).value], updates))
      ensures r.Ok? && r.value.Some? ==>
        UserIndex(old(users), userId).Some?
        && r.value.value == PatchUser(old(users)[UserIndex(old(users), userId).value], updates)
        && users == old(users)[UserIndex(old(users), userId).value := r.value.value]
      ensures r == Ok(None) ==> users == old(users)
      ensures (exists c :: UserIncluded(updates, c)) && UserIndex(old(users), userId).Some? ==>
        var k := UserIndex(old(users), userId).value;
        var patched := PatchUser(old(users)[k], updates);
        if Clash(old(users), k, patched) then r == Err(UniqueViolation) else r == Ok(Some(patched))
    {
      var q := BuildUserUpdate(userId, updates);
      if q.None? {
        return Ok(None);
      }
      var k := UserIndex(users, userId);
      if k.None? {
        return Ok(None);
      }
      var row := users[k.value];
      var patched := ApplySets(row, SetUserColumn, q.value.sets, q.value.values);
      if Clash(users, k.value, patched.value) {
        return Err(UniqueViolation);
      }
      users := users[k.value := patched.value];
      r := Ok(Some(patched.value));
    }

    /** `deleteUser`: removes the user row only; that user's submissions
        and progress rows stay behind. */
    method DeleteUser(userId: int) returns (ok: bool)
      requires Valid()
      modifies this
      ensures Valid() && ok
      ensures users == Filter(old(users), (u: User) => u.id != userId)
      ensures !HasUser(users, userId)
      ensures submissions == old(submissions) && progress == old(progress)
      ensures nextUserId == old(nextUserId) && nextSubmissionId == old(nextSubmissionId)
      ensures nextProgressId == old(nextProgressId) && clock == old(clock)
    {
      FilterPairwise(users, (u: User) => u.id != userId, UserPair);
      users := Filter(users, (u: User) => u.id != userId);
      ok := true;
    }

    /** `ORDER BY created_at DESC` of the user listing. */
    lemma UsersNewestFirst()
      requires Valid()
      ensures forall i, j :: 0 <= i < j < |GetAllUsers()| ==> GetAllUsers()[i].createdAt > GetAllUsers()[j].createdAt
    {
      var r := GetAllUsers();
      forall i, j | 0 <= i < j < |r| ensures r[i].createdAt > r[j].createdAt {
        assert UserPair(users[|users| - 1 - j], users[|users| - 1 - i]);
      }
    }

    // ---------------- submissions

    /** `getSubmissionById`. */
    function GetSubmissionById(id: int): (r: Option<Submission>)
      reads this
      ensures r.Some? ==> r.value in submissions && r.value.id == id
      ensures r.None? <==> forall i :: 0 <= i < |submissions| ==> submissions[i].id != id
    {
      FirstWhere(submissions, (s: Submission) => s.id == id)
    }

    /** `getSubmissionsByUserId`: that user's rows, newest first. */
    function GetSubmissionsByUserId(userId: int): (rows: seq<Submission>)
      reads this
      ensures forall i :: 0 <= i < |rows| ==> rows[i] in submissions && rows[i].userId == userId
      ensures forall i :: 0 <= i < |submissions| && submissions[i].userId == userId ==> submissions[i] in rows
    {
      var owned := Filter(submissions, (s: Submission) => s.userId == userId);
      ReverseHas(owned);
      Reverse(owned)
    }

    /** `ORDER BY submitted_at DESC`: a user's submissions, newest first. */
    lemma SubmissionsNewestFirst(userId: int)
      requires Valid()
      ensures forall i, j :: 0 <= i < j < |GetSubmissionsByUserId(userId)| ==>
        GetSubmissionsByUserId(userId)[i].submittedAt > GetSubmissionsByUserId(userId)[j].submittedAt
    {
      var owned := Filter(submissions, (s: Submission) => s.userId == userId);
      FilterPairwise(submissions, (s: Submission) => s.userId == userId, SubmissionPair);
      var r := GetSubmissionsByUserId(userId);
      assert r == Reverse(owned);
      forall i, j | 0 <= i < j < |r| ensures r[i].submittedAt > r[j].submittedAt {
        assert SubmissionPair(owned[|owned| - 1 - j], owned[|owned| - 1 - i]);
      }
    }

    /** `createSubmission`: `notes || null` and `status || 'pending'`; the
        INSERT fails on a NULL column, then on an owner that does not exist. */
    method CreateSubmission(userId: nat, data: SubmissionData) returns (r: Result<Submission, DbError>)
      requires Valid()
      modifies this
      ensures Valid()
      ensures users == old(users) && progress == old(progress)
      ensures nextUserId == old(nextUserId) && nextProgressId == old(nextProgressId)
      ensures nextSubmissionId == old(nextSubmissionId) + 1
      ensures r.Ok? <==> SubmissionComplete(data) && HasUser(old(users), userId)
      ensures r.Err? ==> submissions == old(submissions) && clock == old(clock)
      ensures r.Err? ==> (r.error == NotNullViolation <==> !SubmissionComplete(data))
      ensures r.Err? ==> r.error != UniqueViolation
      ensures r.Ok? ==> r.value == Submission(
        old(nextSubmissionId), userId, data.title.s, data.kind.s, data.filename.s,
        data.storedFilename.s, data.filepath.s,
        if Given(data.notes) then Some(data.notes.s) else None,
        if Given(data.status) then data.status.s else "pending",
        old(clock))
      ensures r.Ok? ==> submissions == old(submissions) + [r.value] && clock == old(clock) + 1
    {
      var id := nextSubmissionId;
      nextSubmissionId := nextSubmissionId + 1;
      SubmissionsLater(submissions, id, clock, nextSubmissionId, clock);
      var notes := if Given(data.notes) then Some(data.notes.s) else None;
      var status := if Given(data.status) then data.status.s else "pending";
      if !SubmissionComplete(data) {
        return Err(NotNullViolation);
      }
      if GetUserById(userId).None? {
        return Err(ForeignKeyViolation);
      }
      var row := Submission(id, userId, data.title.s, data.kind.s, data.filename.s,
                            data.storedFilename.s, data.filepath.s, notes, status, clock);
      AppendSubmission(row);
      r := Ok(row);
    }

    /** The successful INSERT of a submission with the SERIAL value just
        taken and the current stamp. */
    method AppendSubmission(row: Submission)
      requires Valid() && row.id >= 1 && row.id + 1 == nextSubmissionId && row.submittedAt == clock
      requires SubmissionsWellFormed(submissions, row.id, clock)
      modifies this
      ensures Valid()
      ensures submissions == old(submissions) + [row] && clock == old(clock) + 1
      ensures users == old(users) && progress == old(progress)
      ensures nextUserId == old(nextUserId) && nextSubmissionId == old(nextSubmissionId)
      ensures nextProgressId == old(nextProgressId)
    {
      SubmissionsAppend(submissions, row);
      UsersLater(users, nextUserId, clock, nextUserId, clock + 1);
      ProgressLater(progress, nextProgressId, clock, nextProgressId, clock + 1);
      SubmissionsLater(submissions + [row], row.id + 1, clock + 1, nextSubmissionId, clock + 1);
      submissions := submissions + [row];
      clock := clock + 1;
    }

    /** `updateSubmission`: nothing is run when no field is named;
        otherwise the built statement patches the row with that id, if any. */
    method UpdateSubmission(submissionId: int, updates: SubmissionUpdates) returns (r: Option<Submission>)
      requires Valid()
      modifies this
      ensures Valid()
      ensures users == old(users) && progress == old(progress)
      ensures nextUserId == old(nextUserId) && nextSubmissionId == old(nextSubmissionId)
      ensures nextProgressId == old(nextProgressId) && clock == old(clock)
      ensures (forall c :: !SubmissionIncluded(updates, c)) ==> r.None? && submissions == old(submissions)
      ensures SubmissionIndex(old(submissions), submissionId).None? ==> r.None? && submissions == old(submissions)
      ensures r.Some? ==>
        SubmissionIndex(old(submissions), submissionId).Some?
        && r.value == PatchSubmission(old(submissions)[SubmissionIndex(old(submissions), submissionId).value], updates)
        && submissions == old(submissions)[SubmissionIndex(old(submissions), submissionId).value := r.value]
      ensures r.None? ==> submissions == old(submissions)
      ensures (exists c :: SubmissionIncluded(updates, c)) && SubmissionIndex(old(submissions), submissionId).Some? ==>
        r == Some(PatchSubmission(old(submissions)[SubmissionIndex(old(submissions), submissionId).value], updates))
    {
      var q := BuildSubmissionUpdate(submissionId, updates);
      if q.None? {
        return None;
      }
      var k := SubmissionIndex(submissions, submissionId);
      if k.None? {
        return None;
      }
      var patched := ApplySets(submissions[k.value], SetSubmissionColumn, q.value.sets, q.value.values);
      submissions := submissions[k.value := patched.value];
      r := Some(patched.value);
    }

    /** `deleteSubmission`. */
    method DeleteSubmission(submissionId: int) returns (ok: bool)
      requires Valid()
      modifies this
      ensures Valid() && ok
      ensures submissions == Filter(old(submissions), (s: Submission) => s.id != submissionId)
      ensures users == old(users) && progress == old(progress)
      ensures nextUserId == old(nextUserId) && nextSubmissionId == old(nextSubmissionId)
      ensures nextProgressId == old(nextProgressId) && clock == old(clock)
    {
      FilterPairwise(submissions, (s: Submission) => s.id != submissionId, SubmissionPair);
      submissions := Filter(submissions, (s: Submission) => s.id != submissionId);
      ok := true;
    }

    // ---------------- progress

    /** `getProgressByUserId`: that user's rows, newest first. */
    function GetProgressByUserId(userId: int): (rows: seq<ProgressRow>)
      reads this
      ensures forall i :: 0 <= i < |rows| ==> rows[i] in progress && rows[i].userId == userId
      ensures forall i :: 0 <= i < |progress| && progress[i].userId == userId ==> progress[i] in rows
    {
      var owned := Filter(progress, (p: ProgressRow) => p.userId == userId);
      ReverseHas(owned);
      Reverse(owned)
    }

    /** `ORDER BY created_at DESC`: a user's progress rows, newest first. */
    lemma ProgressNewestFirst(userId: int)
      requires Valid()
      ensures forall i, j :: 0 <= i < j < |GetProgressByUserId(userId)| ==>
        GetProgressByUserId(userId)[i].createdAt > GetProgressByUserId(userId)[j].createdAt
    {
      var owned := Filter(progress, (p: ProgressRow) => p.userId == userId);
      FilterPairwise(progress, (p: ProgressRow) => p.userId == userId, ProgressPair);
      var r := GetProgressByUserId(userId);
      assert r == Reverse(owned);
      forall i, j | 0 <= i < j < |r| ensures r[i].createdAt > r[j].createdAt {
        assert ProgressPair(owned[|owned| - 1 - j], owned[|owned| - 1 - i]);
      }
    }

    /** `getAllProgress`: the rows whose owner exists (the inner join with
        users), newest first. */
    function GetAllProgress(): (rows: seq<ProgressRow>)
      reads this
      ensures forall i :: 0 <= i < |rows| ==> rows[i] in progress && HasUser(users, rows[i].userId)
      ensures forall i :: 0 <= i < |progress| && HasUser(users, progress[i].userId) ==> progress[i] in rows
    {
      var all := users;
      var joined := Filter(progress, (p: ProgressRow) => HasUser(all, p.userId));
      ReverseHas(joined);
      Reverse(joined)
    }

    lemma AllProgressNewestFirst()
      requires Valid()
      ensures forall i, j :: 0 <= i < j < |GetAllProgress()| ==> GetAllProgress()[i].createdAt > GetAllProgress()[j].createdAt
    {
      var all := users;
      var joined := Filter(progress, (p: ProgressRow) => HasUser(all, p.userId));
      FilterPairwise(progress, (p: ProgressRow) => HasUser(all, p.userId), ProgressPair);
      var r := GetAllProgress();
      assert r == Reverse(joined);
      forall i, j | 0 <= i < j < |r| ensures r[i].createdAt > r[j].createdAt {
        assert ProgressPair(joined[|joined| - 1 - j], joined[|joined| - 1 - i]);
      }
    }

    /** `createProgress`: the payload is stored as given; the INSERT fails
        on an owner that does not exist. */
    method CreateProgress(userId: nat, data: Json) returns (r: Result<ProgressRow, DbError>)
      requires Valid()
      modifies this
      ensures Valid()
      ensures users == old(users) && submissions == old(submissions)
      ensures nextUserId == old(nextUserId) && nextSubmissionId == old(nextSubmissionId)
      ensures nextProgressId == old(nextProgressId) + 1
      ensures r.Ok? <==> HasUser(old(users), userId)
      ensures r.Err? ==> r.error == ForeignKeyViolation && progress == old(progress) && clock == old(clock)
      ensures r.Ok? ==> r.value == ProgressRow(old(nextProgressId), userId, data, old(clock))
      ensures r.Ok? ==> progress == old(progress) + [r.value] && clock == old(clock) + 1
    {
      var id := nextProgressId;
      nextProgressId := nextProgressId + 1;
      ProgressLater(progress, id, clock, nextProgressId, clock);
      if GetUserById(userId).None? {
        return Err(ForeignKeyViolation);
      }
      var row := ProgressRow(id, userId, data, clock);
      AppendProgress(row);
      r := Ok(row);
    }

    /** The successful INSERT of a progress entry with the SERIAL value just
        taken and the current stamp. */
    method AppendProgress(row: ProgressRow)
      requires Valid() && row.id >= 1 && row.id + 1 == nextProgressId && row.createdAt == clock
      requires ProgressWellFormed(progress, row.id, clock)
      modifies this
      ensures Valid()
      ensures progress == old(progress) + [row] && clock == old(clock) + 1
      ensures users == old(users) && submissions == old(submissions)
      ensures nextUserId == old(nextUserId) && nextSubmissionId == old(nextSubmissionId)
      ensures nextProgressId == old(nextProgressId)
    {
      ProgressAppend(progress, row);
      UsersLater(users, nextUserId, clock, nextUserId, clock + 1);
      SubmissionsLater(submissions, nextSubmissionId, clock, nextSubmissionId, clock + 1);
      ProgressLater(progress + [row], row.id + 1, clock + 1, nextProgressId, clock + 1);
      progress := progress + [row];
      clock := clock + 1;
    }

    // ---------------- statistics

    /** `getUserStats`: the three COUNT queries. */
    function GetUserStats(userId: int): (r: UserStats)
      reads this
      ensures r.userExists <==> GetUserById(userId).Some?
      ensures r.submissionCount == |GetSubmissionsByUserId(userId)|
      ensures r.progressCount == |GetProgressByUserId(userId)|
    {
      var isUser := (u: User) => u.id == userId;
      var ownsSubmission := (s: Submission) => s.userId == userId;
      var ownsProgress := (p: ProgressRow) => p.userId == userId;
      CountPositive(users, isUser);
      CountIsFilterLength(submissions, ownsSubmission);
      CountIsFilterLength(progress, ownsProgress);
      UserStats(Count(users, isUser) > 0, Count(submissions, ownsSubmission), Count(progress, ownsProgress))
    }
  }
}
