/** The two collections the handlers use (users and exercises) as values, the
    invariant the handlers keep on them, and the store queries the handlers
    issue: `findById`, `findOne({username})`, and `find(query).sort({date: 1})
    .limit(n)` on exercises. */
module Store {
  import opened Js

  /** A document id, handed out by the store from one counter. */
  type Id = nat

  datatype Option<T> = None | Some(value: T)

  datatype User = User(id: Id, username: string)

  /** `date` is a millisecond timestamp; `duration` is in minutes. */
  datatype Exercise = Exercise(id: Id, userId: Id, description: string, duration: int, date: int)

  /** Both collections in insertion order, and the next id the store assigns. */
  datatype Db = Db(users: seq<User>, exercises: seq<Exercise>, nextId: nat)

  /** `User.findById(id)`: the user with that id, or null. */
  function UserById(users: seq<User>, id: Id): (r: Option<User>)
    ensures r.Some? ==> r.value in users && r.value.id == id
    ensures r.None? ==> forall u :: u in users ==> u.id != id
  {
    if users == [] then None
    else if users[0].id == id then Some(users[0])
    else UserById(users[1..], id)
  }

  /** `User.findOne({ username: name })`: the first user with that name, or null. */
  function UserByName(users: seq<User>, name: string): (r: Option<User>)
    ensures r.Some? ==> r.value in users && r.value.username == name
    ensures r.None? ==> forall u :: u in users ==> u.username != name
  {
    if users == [] then None
    else if users[0].username == name then Some(users[0])
    else UserByName(users[1..], name)
  }

  /** The store's unique index on `username`: saving `name` would violate it. */
  predicate Taken(users: seq<User>, name: string) {
    exists u :: u in users && u.username == name
  }

  /** What the handlers keep true of the store: ids below the counter and
      distinct, usernames and descriptions non-empty and trimmed, usernames
      distinct, and every exercise owned by a stored user. */
  ghost predicate Valid(db: Db) {
    && (forall u :: u in db.users ==> u.id < db.nextId && u.username != [] && IsTrimmed(u.username))
    && (forall i, j :: 0 <= i < j < |db.users| ==>
          db.users[i].id != db.users[j].id && db.users[i].username != db.users[j].username)
    && (forall e :: e in db.exercises ==>
          e.id < db.nextId && e.description != [] && IsTrimmed(e.description)
          && UserById(db.users, e.userId).Some?)
    && (forall i, j :: 0 <= i < j < |db.exercises| ==> db.exercises[i].id != db.exercises[j].id)
  }

  /** The `date` part of an exercise query: `{}` with optional `$gte` and `$lte`. */
  datatype DateCondition = DateCondition(gte: Option<int>, lte: Option<int>)

  /** `{ userId, date? }` as the log handler builds it. */
  datatype Query = Query(userId: Id, date: Option<DateCondition>)

  predicate Matches(e: Exercise, q: Query) {
    && e.userId == q.userId
    && (q.date.Some? && q.date.value.gte.Some? ==> e.date >= q.date.value.gte.value)
    && (q.date.Some? && q.date.value.lte.Some? ==> e.date <= q.date.value.lte.value)
  }

  /** The exercises a query selects, in insertion order. */
  function Matching(exs: seq<Exercise>, q: Query): seq<Exercise> {
    if exs == [] then []
    else (if Matches(exs[0], q) then [exs[0]] else []) + Matching(exs[1..], q)
  }

  /** The selection holds exactly the stored exercises that match, each at
      most as often as it is stored. */
  lemma {:induction false} MatchingSelects(exs: seq<Exercise>, q: Query)
    ensures forall e :: e in Matching(exs, q) <==> e in exs && Matches(e, q)
    ensures multiset(Matching(exs, q)) <= multiset(exs)
  {
    if exs != [] {
      MatchingSelects(exs[1..], q);
      assert exs == [exs[0]] + exs[1..];
    }
  }

  /** Two queries that accept the same exercises select the same sequence. */
  lemma {:induction false} MatchingSameFilter(exs: seq<Exercise>, q1: Query, q2: Query)
    requires forall e :: Matches(e, q1) <==> Matches(e, q2)
    ensures Matching(exs, q1) == Matching(exs, q2)
  {
    if exs != [] {
      MatchingSameFilter(exs[1..], q1, q2);
    }
  }

  predicate SortedByDate(s: seq<Exercise>) {
    forall i, j :: 0 <= i < j < |s| ==> s[i].date <= s[j].date
  }

  /** Insert `e` into a date-sorted sequence, before every later-or-equal entry. */
  function Insert(e: Exercise, s: seq<Exercise>): (r: seq<Exercise>)
    ensures |r| == |s| + 1 && (r[0] == e || (s != [] && r[0] == s[0]))
    ensures multiset(r) == multiset(s) + multiset{e}
  {
    if s == [] || e.date <= s[0].date then [e] + s
    else
      assert s == [s[0]] + s[1..];
      [s[0]] + Insert(e, s[1..])
  }

  /** Inserting into a date-sorted sequence keeps it sorted. */
  lemma {:induction false} InsertSorted(e: Exercise, s: seq<Exercise>)
    requires SortedByDate(s)
    ensures SortedByDate(Insert(e, s))
  {
    if s != [] && e.date > s[0].date {
      InsertSorted(e, s[1..]);
      var t := Insert(e, s[1..]);
      assert Insert(e, s) == [s[0]] + t;
      forall j | 0 < j < |t| + 1 ensures s[0].date <= ([s[0]] + t)[j].date {
        assert t[j - 1].date >= t[0].date;
      }
    }
  }

  /** `.sort({ date: 1 })`: ascending by date; equal dates keep insertion order. */
  function SortByDate(s: seq<Exercise>): (r: seq<Exercise>)
    ensures SortedByDate(r)
    ensures multiset(r) == multiset(s)
  {
    if s == [] then []
    else
      assert s == [s[0]] + s[1..];
      var t := SortByDate(s[1..]);
      InsertSorted(s[0], t);
      Insert(s[0], t)
  }

  function Abs(n: int): nat {
    if n < 0 then -n else n
  }

  /** `.limit(n)`: 0 is no limit, a negative n returns at most |n| documents
      (as MongoDB does), and NaN is read as no limit. */
  function Take(s: seq<Exercise>, limit: Num): seq<Exercise> {
    if limit.Int? && limit.n != 0 && Abs(limit.n) < |s| then s[..Abs(limit.n)] else s
  }

  /** `Exercise.find(q).sort({ date: 1 }).limit(limit)`. */
  function Find(exs: seq<Exercise>, q: Query, limit: Num): seq<Exercise> {
    Take(SortByDate(Matching(exs, q)), limit)
  }

  /** What a find returns: exercises of the store that match the query, in
      non-decreasing date order, forming a prefix of all matches sorted;
      with no limit (absent, 0 or NaN) it is all of them, with a limit n it is
      the first |n| of them, or all when fewer match. */
  lemma FindSelects(exs: seq<Exercise>, q: Query, limit: Num)
    ensures var r := Find(exs, q, limit);
      && SortedByDate(r)
      && (forall e :: e in r ==> e in exs && Matches(e, q))
      && r <= SortByDate(Matching(exs, q))
      && (limit == Int(0) || limit.NaN? ==> multiset(r) == multiset(Matching(exs, q)))
      && (limit.Int? && limit.n != 0 ==> |r| == if Abs(limit.n) < |Matching(exs, q)| then Abs(limit.n) else |Matching(exs, q)|)
  {
    var m := Matching(exs, q);
    var sorted := SortByDate(m);
    var r := Find(exs, q, limit);
    MatchingSelects(exs, q);
    assert r <= sorted;
    forall e | e in r ensures e in exs && Matches(e, q) {
      assert e in multiset(sorted);
      assert e in multiset(m);
    }
  }
}
