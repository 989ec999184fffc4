/** The route handlers as they run: step by step, with early returns, over an
    in-memory store whose two collections are fields that the saving methods
    reassign. Each handler is proved to reply and to leave the store exactly
    as the matching function of module Handlers says, and to keep the store
    invariant. */
module Tracker {
  import opened Js
  import opened Store
  import opened Handlers

  class ExerciseTracker {
    var users: seq<User>
    var exercises: seq<Exercise>
    var nextId: nat

    ghost function State(): Db
      reads this
    {
      Db(users, exercises, nextId)
    }

    ghost predicate Valid()
      reads this
    {
      Store.Valid(State())
    }

    constructor ()
      ensures Valid() && State() == Db([], [], 0)
    {
      users, exercises, nextId := [], [], 0;
    }

    // ------------------------------------------------------------ store operations

    /** `User.findById(id)`. */
    method FindById(id: Id) returns (found: Option<User>)
      ensures found == UserById(users, id)
    {
      var i := 0;
      while i < |users|
        invariant 0 <= i <= |users|
        invariant UserById(users[i..], id) == UserById(users, id)
      {
        if users[i].id == id {
          return Some(users[i]);
        }
        assert users[i..][1..] == users[i + 1..];
        i := i + 1;
      }
      return None;
    }

    /** `User.findOne({ username: name })`. */
    method FindOne(name: string) returns (found: Option<User>)
      ensures found == UserByName(users, name)
    {
      var i := 0;
      while i < |users|
        invariant 0 <= i <= |users|
        invariant UserByName(users[i..], name) == UserByName(users, name)
      {
        if users[i].username == name {
          return Some(users[i]);
        }
        assert users[i..][1..] == users[i + 1..];
        i := i + 1;
      }
      return None;
    }

    /** `new User({ username: name }).save()`: refused by the unique index on
        username when `name` is already stored, else stored under the next id. */
    method SaveUser(name: string) returns (saved: Option<User>)
      modifies this
      ensures saved.None? <==> Taken(old(users), name)
      ensures saved.None? ==> State() == old(State())
      ensures saved.Some? ==>
        && saved.value == User(old(nextId), name)
        && users == old(users) + [saved.value]
        && exercises == old(exercises) && nextId == old(nextId) + 1
    {
      var i := 0;
      while i < |users|
        invariant 0 <= i <= |users|
        invariant forall k :: 0 <= k < i ==> users[k].username != name
      {
        if users[i].username == name {
          return None;
        }
        i := i + 1;
      }
      var u := User(nextId, name);
      users, nextId := users + [u], nextId + 1;
      return Some(u);
    }

    /** `new Exercise({ ... }).save()` for an exercise that casts cleanly. */
    method SaveExercise(userId: Id, description: string, duration: int, date: int) returns (saved: Exercise)
      modifies this
      ensures saved == Exercise(old(nextId), userId, description, duration, date)
      ensures exercises == old(exercises) + [saved]
      ensures users == old(users) && nextId == old(nextId) + 1
    {
      saved := Exercise(nextId, userId, description, duration, date);
      exercises, nextId := exercises + [saved], nextId + 1;
    }

    // ------------------------------------------------------------------- handlers

    /** POST /api/users. */
    method CreateUser(username: Value) returns (r: Reply<UserView>)
      requires Valid()
      modifies this
      ensures Valid()
      ensures (r, State()) == CreateUserResult(old(State()), username)
    {
      CreateUserKeepsValid(State(), username);
      if !Truthy(username) || !username.Str? || Trim(username.s) == "" {
        return Err(400, UsernameRequired);
      }
      var saved := SaveUser(Trim(username.s));
      if saved.Some? {
        return Ok(UserView(saved.value.username, saved.value.id));
      }
      // duplicate key: look the user up by the name exactly as it was sent
      var existing := FindOne(username.s);
      if existing.None? {
        return NoReply;
      }
      r := Ok(UserView(existing.value.username, existing.value.id));
    }

    /** POST /api/users/:_id/exercises; `now` is the clock reading. */
    method AddExercise(host: Host, now: int, userId: Option<Id>,
                       description: Value, duration: Value, date: Value) returns (r: Reply<ExerciseView>)
      requires Valid()
      modifies this
      ensures Valid()
      ensures (r, State()) == AddExerciseResult(old(State()), host, now, userId, description, duration, date)
    {
      ghost var out := AddExerciseResult(State(), host, now, userId, description, duration, date);
      AddExerciseKeepsValid(State(), host, now, userId, description, duration, date);
      if !Truthy(description) || !description.Str? || Trim(description.s) == "" {
        return Err(400, DescriptionRequired);
      }
      if !Truthy(duration) || host.isNaN(duration) {
        return Err(400, DurationRequired);
      }
      var minutes := host.parseInt(duration);
      if Truthy(date) && host.parseDate(date).NaN? {
        return Err(400, DateInvalid);
      }
      if userId.None? {
        // the store cannot cast the path segment to an id
        return Err(400, StoreMessage);
      }
      var user := FindById(userId.value);
      if user.None? {
        return Err(404, UserNotFound);
      }
      var when := if Truthy(date) then host.parseDate(date).n else now;
      if minutes.NaN? {
        // the store cannot cast a NaN duration
        return Err(400, StoreMessage);
      }
      var saved := SaveExercise(userId.value, Trim(description.s), minutes.n, when);
      assert State() == out.1;
      r := Ok(ExerciseView(user.value.id, user.value.username, saved.description, saved.duration,
                           host.dateString(saved.date)));
    }

    /** The filter of the log handler: the owner, then a date condition when
        `from` or `to` is sent, filled in with the bounds that parse. */
    static method BuildQuery(host: Host, userId: Id, from: Value, to: Value) returns (query: Query)
      ensures query == LogQuery(host, userId, from, to)
    {
      query := Query(userId, None);
      if Truthy(from) || Truthy(to) {
        query := query.(date := Some(DateCondition(None, None)));
        if Truthy(from) && host.parseDate(from).Int? {
          query := query.(date := Some(query.date.value.(gte := Some(host.parseDate(from).n))));
        }
        if Truthy(to) && host.parseDate(to).Int? {
          query := query.(date := Some(query.date.value.(lte := Some(host.parseDate(to).n))));
        }
      }
    }

    /** GET /api/users/:_id/logs. */
    method GetLog(host: Host, userId: Option<Id>, from: Value, to: Value, limit: Value) returns (r: Reply<LogView>)
      ensures r == LogResult(State(), host, userId, from, to, limit)
    {
      if userId.None? {
        return Err(500, StoreMessage);
      }
      var user := FindById(userId.value);
      if user.None? {
        return Err(404, UserNotFound);
      }
      var query := BuildQuery(host, userId.value, from, to);
      var docs := Find(exercises, query, if Truthy(limit) && !host.isNaN(limit) then host.parseInt(limit) else Int(0));
      var log := Shape(host, docs);
      r := Ok(LogView(user.value.id, user.value.username, |log|, log));
    }
  }
}
