/** `/api/progress`: saving a progress payload stamped with the time it
    arrived, and reading a user's saved payloads back. */
module ProgressApi {
  import opened Common
  import opened Json
  import opened Database
  import opened Auth

  /** `Object.assign({ at: now }, payload)`: the payload's own properties
      over an `at` holding the arrival time, so that a payload `at` wins. */
  function Stamped(now: string, payload: Json): (data: Json)
    ensures data.Obj?
    ensures data.fields.Keys == {"at"} + Spread(payload).Keys
    ensures Get(data, "at") == if "at" in Spread(payload) then Some(Spread(payload)["at"]) else Some(Str(now))
    ensures forall k :: k in Spread(payload) ==> Get(data, k) == Some(Spread(payload)[k])
  {
    Obj(map["at" := Str(now)] + Spread(payload))
  }

  /** One row as the GET answers it: `{ ...entry.data, at: entry.created_at }`. */
  function Shown(row: ProgressRow): (j: Json)
    ensures j.Obj? && Get(j, "at") == Some(Num(row.createdAt))
    ensures forall k :: k in Spread(row.data) && k != "at" ==> Get(j, k) == Some(Spread(row.data)[k])
    ensures j.fields.Keys == Spread(row.data).Keys + {"at"}
  {
    Obj(Spread(row.data)["at" := Num(row.createdAt)])
  }

  /** `GET /api/progress`: nothing without a logged-in session, otherwise
      the user's rows, newest first, each shown with its stored time. */
  function GetProgress(db: Store, userId: Option<nat>): (entries: seq<Json>)
    reads db
    ensures !(userId.Some? && userId.value != 0) ==> entries == []
    ensures userId.Some? && userId.value != 0 ==>
      |entries| == |db.GetProgressByUserId(userId.value)|
      && forall i :: 0 <= i < |entries| ==> entries[i] == Shown(db.GetProgressByUserId(userId.value)[i])
  {
    if userId.Some? && userId.value != 0 then
      var rows := db.GetProgressByUserId(userId.value);
      seq(|rows|, (i: int) requires 0 <= i < |rows| => Shown(rows[i]))
    else []
  }

  datatype PostOutcome = Unauthorized | Saved | Failed

  /** A user's newest row, after appending one of theirs, is that row. */
  lemma NewestAfterAppend(rows: seq<ProgressRow>, row: ProgressRow)
    ensures Reverse(Filter(rows + [row], (p: ProgressRow) => p.userId == row.userId))
      == [row] + Reverse(Filter(rows, (p: ProgressRow) => p.userId == row.userId))
  {
    FilterSnoc(rows, row, (p: ProgressRow) => p.userId == row.userId);
    ReverseSnoc(Filter(rows, (p: ProgressRow) => p.userId == row.userId), row);
  }

  /** `POST /api/progress`: without a logged-in session nothing is stored;
      otherwise the stamped payload is appended for that user (which fails
      if the user no longer exists), and the next GET shows it first, with
      every payload property other than `at` as sent. */
  method PostProgress(db: Store, session: Session, now: string, payload: Json) returns (out: PostOutcome)
    requires db.Valid()
    modifies db
    ensures db.Valid()
    ensures db.users == old(db.users) && db.submissions == old(db.submissions)
    ensures !(session.userId.Some? && session.userId.value != 0) ==> out == Unauthorized && unchanged(db)
    ensures out == Saved <==> session.userId.Some? && session.userId.value != 0 && HasUser(old(db.users), session.userId.value)
    ensures out != Saved ==> db.progress == old(db.progress)
    ensures out == Saved ==>
      db.progress == old(db.progress) + [ProgressRow(old(db.nextProgressId), session.userId.value, Stamped(now, payload), old(db.clock))]
    ensures out == Saved ==>
      |GetProgress(db, session.userId)| > 0
      && GetProgress(db, session.userId)[0] == Shown(db.progress[|db.progress| - 1])
      && forall k :: k in Spread(payload) && k != "at" ==> Get(GetProgress(db, session.userId)[0], k) == Some(Spread(payload)[k])
  {
    if !(session.userId.Some? && session.userId.value != 0) {
      return Unauthorized;
    }
    var userId := session.userId.value;
    var created := db.CreateProgress(userId, Stamped(now, payload));
    if created.Err? {
      return Failed;
    }
    NewestAfterAppend(old(db.progress), created.value);
    out := Saved;
  }
}
