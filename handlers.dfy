/** What each route handler of the exercise tracker answers and how it leaves
    the store, as functions of the store before the request and the request's
    fields: POST /api/users, POST /api/users/:_id/exercises and
    GET /api/users/:_id/logs. The imperative handlers in module Tracker are
    proved to agree with these. */
module Handlers {
  import opened Js
  import opened Store

  /** The `error` text of a failed reply: one the handler writes itself, or
      the `err.message` of a store exception (whose wording is not modelled). */
  datatype ErrorText = Says(text: string) | StoreMessage

  /** An HTTP reply: a 200 JSON body, `{ error }` with a status, or no reply at
      all (an exception thrown inside a catch block of an async handler). */
  datatype Reply<T> = Ok(body: T) | Err(status: nat, error: ErrorText) | NoReply

  datatype UserView = UserView(username: string, id: Id)
  datatype ExerciseView = ExerciseView(id: Id, username: string, description: string, duration: int, date: string)
  datatype LogEntry = LogEntry(description: string, duration: int, date: string)
  datatype LogView = LogView(id: Id, username: string, count: nat, log: seq<LogEntry>)

  const UsernameRequired := Says("username is required")
  const DescriptionRequired := Says("description is required")
  const DurationRequired := Says("duration is required and must be a number")
  const DateInvalid := Says("date must be a valid date string")
  const UserNotFound := Says("User not found")

  // ---------------------------------------------------------------- POST /api/users

  /** POST /api/users with body field `username`. A blank or non-string name is
      refused; otherwise the trimmed name is saved under a fresh id, unless the
      unique index refuses it, in which case the user found by the name as
      sent is returned (and when none is found the handler never replies). */
  function CreateUserResult(db: Db, username: Value): (out: (Reply<UserView>, Db))
    ensures out.0.Err? <==> !NonBlankString(username)
    ensures out.0.Err? ==> out.0 == Err(400, UsernameRequired)
    ensures out.1 != db ==>
      && NonBlankString(username) && !Taken(db.users, Trim(username.s))
      && out.1 == db.(users := db.users + [User(db.nextId, Trim(username.s))], nextId := db.nextId + 1)
    ensures out.0.Ok? ==> User(out.0.body.id, out.0.body.username) in out.1.users
  {
    if !NonBlankString(username) then (Err(400, UsernameRequired), db)
    else
      var name := Trim(username.s);
      if Taken(db.users, name) then
        match UserByName(db.users, username.s)
        case None => (NoReply, db)
        case Some(u) => (Ok(UserView(u.username, u.id)), db)
      else
        var u := User(db.nextId, name);
        (Ok(UserView(u.username, u.id)), db.(users := db.users + [u], nextId := db.nextId + 1))
  }

  /** A name not yet stored is saved trimmed under the next id, and that is
      what the reply carries. */
  lemma CreateUserStoresTrimmed(db: Db, username: Value)
    requires NonBlankString(username) && !Taken(db.users, Trim(username.s))
    ensures var (r, db') := CreateUserResult(db, username);
      && r == Ok(UserView(Trim(username.s), db.nextId))
      && db'.users == db.users + [User(db.nextId, Trim(username.s))]
      && db'.exercises == db.exercises
  {
  }

  /** Sending a name that is already stored, with no whitespace around it,
      returns the stored user and writes nothing. */
  lemma {:induction false} CreateUserExisting(db: Db, name: string, u: User)
    requires Valid(db) && u in db.users && u.username == name
    ensures CreateUserResult(db, Str(name)) == (Ok(UserView(name, u.id)), db)
  {
    TrimTrimmed(name);
    var i :| 0 <= i < |db.users| && db.users[i] == u;
    var found := UserByName(db.users, name);
    var j :| 0 <= j < |db.users| && db.users[j] == found.value;
    assert i == j;
  }

  /** Creating the same unpadded name twice gives the same reply both times
      and the second request writes nothing. */
  lemma {:induction false} CreateUserIdempotent(db: Db, name: string)
    requires Valid(db) && IsTrimmed(name) && name != ""
    ensures var (r1, db1) := CreateUserResult(db, Str(name));
      && r1.Ok?
      && CreateUserResult(db1, Str(name)) == (r1, db1)
  {
    TrimTrimmed(name);
    var (r1, db1) := CreateUserResult(db, Str(name));
    CreateUserKeepsValid(db, Str(name));
    if Taken(db.users, name) {
      var u :| u in db.users && u.username == name;
      CreateUserExisting(db, name, u);
    } else {
      var u := User(db.nextId, name);
      assert u in db1.users;
      CreateUserExisting(db1, name, u);
    }
  }

  /** A name sent with whitespace around it that, trimmed, is already stored:
      the lookup by the untrimmed name finds nobody, so there is no reply. */
  lemma CreateUserPaddedDuplicate(db: Db, raw: string)
    requires Valid(db) && !IsTrimmed(raw) && Taken(db.users, Trim(raw))
    ensures CreateUserResult(db, Str(raw)) == (NoReply, db)
  {
    TrimSlice(raw);
    assert raw != "";
    TrimEmptyIffAllSpace(raw);
    assert Trim(raw) != "";
  }

  lemma CreateUserKeepsValid(db: Db, username: Value)
    requires Valid(db)
    ensures Valid(CreateUserResult(db, username).1)
  {
    var (r, db') := CreateUserResult(db, username);
    if db' != db {
      var name := Trim(username.s);
      TrimSlice(username.s);
      var u := User(db.nextId, name);
      assert db'.users == db.users + [u];
      forall e | e in db'.exercises ensures UserById(db'.users, e.userId).Some? {
        var v := UserById(db.users, e.userId).value;
        assert v in db'.users;
      }
    }
  }

  // ------------------------------------------------- POST /api/users/:_id/exercises

  predicate DurationGiven(host: Host, v: Value) {
    !(!Truthy(v) || host.isNaN(v))
  }

  /** A date that is sent must parse; an absent or empty one means "now". */
  predicate DateAcceptable(host: Host, v: Value) {
    !(Truthy(v) && host.parseDate(v).NaN?)
  }

  predicate InputValid(host: Host, description: Value, duration: Value, date: Value) {
    NonBlankString(description) && DurationGiven(host, duration) && DateAcceptable(host, date)
  }

  /** POST /api/users/:_id/exercises. `userId` is None when the path segment is
      not a well-formed id (the store's cast of it throws). `now` is the clock
      reading used when no date is sent. */
  function AddExerciseResult(db: Db, host: Host, now: int, userId: Option<Id>,
                             description: Value, duration: Value, date: Value): (out: (Reply<ExerciseView>, Db))
    // the checks run in this order and the first failure decides the reply
    ensures !NonBlankString(description) ==> out.0 == Err(400, DescriptionRequired)
    ensures NonBlankString(description) && !DurationGiven(host, duration) ==> out.0 == Err(400, DurationRequired)
    ensures NonBlankString(description) && DurationGiven(host, duration) && !DateAcceptable(host, date) ==>
      out.0 == Err(400, DateInvalid)
    ensures InputValid(host, description, duration, date) && userId.None? ==> out.0 == Err(400, StoreMessage)
    ensures InputValid(host, description, duration, date) && userId.Some? && UserById(db.users, userId.value).None? ==>
      out.0 == Err(404, UserNotFound)
    // nothing is written unless the reply is a success
    ensures !out.0.Ok? ==> out.1 == db
    ensures out.0.Ok? <==>
      && InputValid(host, description, duration, date) && userId.Some?
      && UserById(db.users, userId.value).Some? && host.parseInt(duration).Int?
  {
    if !NonBlankString(description) then (Err(400, DescriptionRequired), db)
    else if !DurationGiven(host, duration) then (Err(400, DurationRequired), db)
    else
      var minutes := host.parseInt(duration);
      if !DateAcceptable(host, date) then (Err(400, DateInvalid), db)
      else if userId.None? then (Err(400, StoreMessage), db)
      else match UserById(db.users, userId.value)
        case None => (Err(404, UserNotFound), db)
        case Some(u) =>
          if minutes.NaN? then (Err(400, StoreMessage), db)
          else
            var when := if Truthy(date) then host.parseDate(date).n else now;
            var e := Exercise(db.nextId, userId.value, Trim(description.s), minutes.n, when);
            (Ok(ExerciseView(u.id, u.username, e.description, e.duration, host.dateString(e.date))),
             db.(exercises := db.exercises + [e], nextId := db.nextId + 1))
  }

  /** A successful add stores exactly one exercise, owned by the requested
      user, with the trimmed description, the parsed duration and the parsed
      date (or `now`); the reply echoes the owner's id and name, which is not
      the new exercise's id, with the stored fields and the date rendered. */
  lemma AddExerciseStores(db: Db, host: Host, now: int, userId: Option<Id>,
                          description: Value, duration: Value, date: Value)
    requires Valid(db)
    requires AddExerciseResult(db, host, now, userId, description, duration, date).0.Ok?
    ensures var (r, db') := AddExerciseResult(db, host, now, userId, description, duration, date);
      var u := UserById(db.users, userId.value).value;
      var e := db'.exercises[|db.exercises|];
      && db'.users == db.users
      && db'.exercises == db.exercises + [e]
      && e.userId == u.id && e.id != u.id
      && e.description == Trim(description.s) && IsTrimmed(e.description) && e.description != ""
      && e.duration == host.parseInt(duration).n
      && e.date == (if Truthy(date) then host.parseDate(date).n else now)
      && r.body == ExerciseView(u.id, u.username, e.description, e.duration, host.dateString(e.date))
  {
    TrimSlice(description.s);
    TrimEmptyIffAllSpace(description.s);
  }

  /** Appending an exercise under the next id, with a trimmed non-empty
      description and a stored owner, keeps the store invariant. */
  lemma AppendExerciseKeepsValid(db: Db, e: Exercise)
    requires Valid(db)
    requires e.id == db.nextId && e.description != [] && IsTrimmed(e.description)
    requires UserById(db.users, e.userId).Some?
    ensures Valid(db.(exercises := db.exercises + [e], nextId := db.nextId + 1))
  {
    var db' := db.(exercises := db.exercises + [e], nextId := db.nextId + 1);
    forall i, j | 0 <= i < j < |db'.exercises| ensures db'.exercises[i].id != db'.exercises[j].id {
      if j == |db.exercises| {
        assert db'.exercises[i] in db.exercises;
      }
    }
  }

  lemma AddExerciseKeepsValid(db: Db, host: Host, now: int, userId: Option<Id>,
                              description: Value, duration: Value, date: Value)
    requires Valid(db)
    ensures Valid(AddExerciseResult(db, host, now, userId, description, duration, date).1)
  {
    var (r, db') := AddExerciseResult(db, host, now, userId, description, duration, date);
    if r.Ok? {
      AddExerciseStores(db, host, now, userId, description, duration, date);
      var e := db'.exercises[|db.exercises|];
      assert db' == db.(exercises := db.exercises + [e], nextId := db.nextId + 1);
      AppendExerciseKeepsValid(db, e);
    }
  }

  // ------------------------------------------------------ GET /api/users/:_id/logs

  /** A `from` or `to` bound takes part in the query when it is sent and parses. */
  predicate BoundGiven(host: Host, v: Value) {
    Truthy(v) && host.parseDate(v).Int?
  }

  /** The query the log handler builds. When `from` or `to` is sent, a date
      condition is installed, holding `$gte` / `$lte` only for the bounds that
      parse. */
  function LogQuery(host: Host, userId: Id, from: Value, to: Value): (q: Query)
    ensures forall e :: Matches(e, q) <==>
      && e.userId == userId
      && (BoundGiven(host, from) ==> e.date >= host.parseDate(from).n)
      && (BoundGiven(host, to) ==> e.date <= host.parseDate(to).n)
  {
    if Truthy(from) || Truthy(to) then
      Query(userId, Some(DateCondition(
        if BoundGiven(host, from) then Some(host.parseDate(from).n) else None,
        if BoundGiven(host, to) then Some(host.parseDate(to).n) else None)))
    else Query(userId, None)
  }

  /** The argument of `.limit(...)`: `parseInt(limit)` when it is sent and
      numeric, otherwise 0 (no limit). */
  function LogLimit(host: Host, limit: Value): Num {
    if Truthy(limit) && !host.isNaN(limit) then host.parseInt(limit) else Int(0)
  }

  function Entry(host: Host, e: Exercise): LogEntry {
    LogEntry(e.description, e.duration, host.dateString(e.date))
  }

  /** The `map` that shapes found exercises into log entries. */
  function Shape(host: Host, docs: seq<Exercise>): (log: seq<LogEntry>)
    ensures |log| == |docs|
    ensures forall i :: 0 <= i < |docs| ==> log[i] == Entry(host, docs[i])
  {
    if docs == [] then [] else [Entry(host, docs[0])] + Shape(host, docs[1..])
  }

  /** GET /api/users/:_id/logs?from&to&limit. `userId` is None when the path
      segment is not a well-formed id. */
  function LogResult(db: Db, host: Host, userId: Option<Id>, from: Value, to: Value, limit: Value): (r: Reply<LogView>)
    ensures userId.None? ==> r == Err(500, StoreMessage)
    ensures userId.Some? && UserById(db.users, userId.value).None? ==> r == Err(404, UserNotFound)
    ensures r.Ok? <==> userId.Some? && UserById(db.users, userId.value).Some?
    ensures r.Ok? ==>
      && User(r.body.id, r.body.username) in db.users && r.body.id == userId.value
      && r.body.count == |r.body.log|
  {
    if userId.None? then Err(500, StoreMessage)
    else match UserById(db.users, userId.value)
      case None => Err(404, UserNotFound)
      case Some(u) =>
        var log := Shape(host, Find(db.exercises, LogQuery(host, userId.value, from, to), LogLimit(host, limit)));
        Ok(LogView(u.id, u.username, |log|, log))
  }

  /** The log of a known user is the shaped result of one find: exercises of
      that user, inside every bound that parses, ascending by date, a prefix of
      all such exercises sorted, cut to |n| entries when a non-zero numeric
      limit is sent and complete otherwise. */
  lemma LogSelects(db: Db, host: Host, id: Id, from: Value, to: Value, limit: Value)
    requires UserById(db.users, id).Some?
    ensures var r := LogResult(db, host, Some(id), from, to, limit);
      var docs := Find(db.exercises, LogQuery(host, id, from, to), LogLimit(host, limit));
      var all := SortByDate(Matching(db.exercises, LogQuery(host, id, from, to)));
      && r.Ok? && r.body.log == Shape(host, docs) && r.body.count == |docs|
      && SortedByDate(docs) && docs <= all
      && (forall e :: e in docs ==>
            && e in db.exercises && e.userId == id
            && (BoundGiven(host, from) ==> e.date >= host.parseDate(from).n)
            && (BoundGiven(host, to) ==> e.date <= host.parseDate(to).n))
      && (LogLimit(host, limit) == Int(0) || LogLimit(host, limit).NaN? ==> |docs| == |all|)
      && (LogLimit(host, limit).Int? && LogLimit(host, limit).n != 0 ==>
            |docs| == if Abs(LogLimit(host, limit).n) < |all| then Abs(LogLimit(host, limit).n) else |all|)
  {
    var q := LogQuery(host, id, from, to);
    FindSelects(db.exercises, q, LogLimit(host, limit));
    var docs := Find(db.exercises, q, LogLimit(host, limit));
    var all := SortByDate(Matching(db.exercises, q));
    assert |all| == |multiset(all)| == |multiset(Matching(db.exercises, q))| == |Matching(db.exercises, q)|;
    if LogLimit(host, limit) == Int(0) || LogLimit(host, limit).NaN? {
      assert |docs| == |multiset(docs)| == |multiset(Matching(db.exercises, q))|;
    }
  }

  /** A limit that passes the numeric guard but that `parseInt` turns into
      NaN (such as " ", which `isNaN` reads as 0) reaches `.limit` as NaN and
      gives the same log as sending no limit. */
  lemma NaNLimitIgnored(db: Db, host: Host, userId: Option<Id>, from: Value, to: Value, limit: Value)
    requires Truthy(limit) && !host.isNaN(limit) && host.parseInt(limit).NaN?
    ensures LogLimit(host, limit) == NaN
    ensures LogResult(db, host, userId, from, to, limit) == LogResult(db, host, userId, from, to, Absent)
  {
  }

  /** An unparsable `from` is ignored: the log is the one returned without
      `from`, and when `to` is sent the query itself is the same. */
  lemma UnparsableFromIgnored(db: Db, host: Host, userId: Option<Id>, from: Value, to: Value, limit: Value)
    requires !BoundGiven(host, from)
    ensures Truthy(to) ==> forall id :: LogQuery(host, id, from, to) == LogQuery(host, id, Absent, to)
    ensures LogResult(db, host, userId, from, to, limit) == LogResult(db, host, userId, Absent, to, limit)
  {
    if userId.Some? {
      MatchingSameFilter(db.exercises, LogQuery(host, userId.value, from, to), LogQuery(host, userId.value, Absent, to));
    }
  }

  /** A known user with no exercises gets `{ count: 0, log: [] }`. */
  lemma EmptyLog(db: Db, host: Host, id: Id, from: Value, to: Value, limit: Value)
    requires UserById(db.users, id).Some?
    requires forall e :: e in db.exercises ==> e.userId != id
    ensures LogResult(db, host, Some(id), from, to, limit).Ok?
    ensures LogResult(db, host, Some(id), from, to, limit).body.count == 0
    ensures LogResult(db, host, Some(id), from, to, limit).body.log == []
  {
    var m := Matching(db.exercises, LogQuery(host, id, from, to));
    MatchingSelects(db.exercises, LogQuery(host, id, from, to));
  }

  /** Every stored exercise of a known user shows up, rendered, in that
      user's log when no bound and no limit is sent. */
  lemma StoredExerciseInLog(db: Db, host: Host, e: Exercise)
    requires e in db.exercises && UserById(db.users, e.userId).Some?
    ensures var log := LogResult(db, host, Some(e.userId), Absent, Absent, Absent);
      log.Ok? && Entry(host, e) in log.body.log
  {
    var q := LogQuery(host, e.userId, Absent, Absent);
    var docs := Find(db.exercises, q, Int(0));
    assert e in docs by {
      assert Matches(e, q);
      MatchingSelects(db.exercises, q);
      FindSelects(db.exercises, q, Int(0));
      assert e in multiset(Matching(db.exercises, q));
    }
    var k :| 0 <= k < |docs| && docs[k] == e;
    assert Shape(host, docs)[k] == Entry(host, e);
    assert LogResult(db, host, Some(e.userId), Absent, Absent, Absent).body.log == Shape(host, docs);
  }

  /** An exercise just added shows up, rendered as the add reply rendered it,
      in its owner's log when no bound and no limit is sent. */
  lemma AddedExerciseInLog(db: Db, host: Host, now: int, id: Id,
                           description: Value, duration: Value, date: Value)
    requires Valid(db)
    requires AddExerciseResult(db, host, now, Some(id), description, duration, date).0.Ok?
    ensures var (r, db') := AddExerciseResult(db, host, now, Some(id), description, duration, date);
      var log := LogResult(db', host, Some(id), Absent, Absent, Absent);
      && log.Ok?
      && LogEntry(r.body.description, r.body.duration, r.body.date) in log.body.log
  {
    AddExerciseStores(db, host, now, Some(id), description, duration, date);
    var (r, db') := AddExerciseResult(db, host, now, Some(id), description, duration, date);
    var e := db'.exercises[|db.exercises|];
    StoredExerciseInLog(db', host, e);
  }
}
