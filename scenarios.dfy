/** Worked requests against a small store: one user with exercises on three
    dates (say 2020-01-01, 2020-06-01 and 2021-01-01), stored out of date
    order, asked for a log from a date between the first two (say
    2020-03-01) and for a log with `limit=1`. */
module Scenarios {
  import opened Js
  import opened Store
  import opened Handlers

  /** The store of the examples: user `u` owning `late`, `early` and `middle`,
      stored in that order, with early < middle < late by date. */
  predicate SampleStore(db: Db, u: User, late: Exercise, early: Exercise, middle: Exercise) {
    && db.users == [u]
    && db.exercises == [late, early, middle]
    && late.userId == u.id && early.userId == u.id && middle.userId == u.id
    && early.date < middle.date < late.date
  }

  lemma SortTwo(a: Exercise, b: Exercise)
    requires b.date < a.date
    ensures SortByDate([a, b]) == [b, a]
  {
    assert [a, b][1..] == [b] && [b][1..] == [];
    assert Insert(a, [b]) == [b] + Insert(a, []);
  }

  lemma InOrderTwo(a: Exercise, b: Exercise)
    requires a.date <= b.date
    ensures SortByDate([a, b]) == [a, b]
  {
    assert [a, b][1..] == [b] && [b][1..] == [];
    assert SortByDate([b]) == [b];
  }

  lemma InsertAfterTwo(e: Exercise, a: Exercise, b: Exercise)
    requires a.date < e.date && b.date < e.date
    ensures Insert(e, [a, b]) == [a, b, e]
  {
    assert [a, b][1..] == [b] && [b][1..] == [];
    assert Insert(e, [b]) == [b] + Insert(e, []);
  }

  lemma {:induction false} SortThree(late: Exercise, early: Exercise, middle: Exercise)
    requires early.date < middle.date < late.date
    ensures SortByDate([late, early, middle]) == [early, middle, late]
  {
    assert [late, early, middle][1..] == [early, middle];
    InOrderTwo(early, middle);
    InsertAfterTwo(late, early, middle);
  }

  lemma {:induction false} MatchingThree(q: Query, a: Exercise, b: Exercise, c: Exercise)
    ensures Matching([a, b, c], q) == Matching([a], q) + Matching([b], q) + Matching([c], q)
  {
    assert [a, b, c][1..] == [b, c] && [b, c][1..] == [c] && [c][1..] == [];
    assert [a][1..] == [] && [b][1..] == [];
  }

  /** A `from` bound after the earliest exercise and no later than the middle
      one selects the middle and the late exercise, and sorting puts the middle
      one first. */
  lemma {:induction false} FromSorted(db: Db, u: User, late: Exercise, early: Exercise, middle: Exercise,
                                      q: Query, t: int)
    requires SampleStore(db, u, late, early, middle)
    requires q == Query(u.id, Some(DateCondition(Some(t), None)))
    requires early.date < t <= middle.date
    ensures SortByDate(Matching(db.exercises, q)) == [middle, late]
  {
    MatchingThree(q, late, early, middle);
    assert Matching([late], q) == [late];
    assert Matching([early], q) == [];
    assert Matching([middle], q) == [middle];
    SortTwo(late, middle);
  }

  /** A `from` bound that parses to a time after the earliest exercise and no
      later than the middle one returns exactly the two later exercises, in
      ascending date order. */
  lemma {:induction false} FromBoundExample(db: Db, host: Host, u: User, late: Exercise, early: Exercise, middle: Exercise,
                                            from: Value)
    requires SampleStore(db, u, late, early, middle)
    requires Truthy(from) && host.parseDate(from).Int?
    requires early.date < host.parseDate(from).n <= middle.date
    ensures LogResult(db, host, Some(u.id), from, Absent, Absent)
         == Ok(LogView(u.id, u.username, 2, [Entry(host, middle), Entry(host, late)]))
  {
    var q := LogQuery(host, u.id, from, Absent);
    assert LogLimit(host, Absent) == Int(0);
    assert Find(db.exercises, q, Int(0)) == [middle, late] by {
      FromSorted(db, u, late, early, middle, q, host.parseDate(from).n);
    }
    assert Shape(host, [middle, late]) == [Entry(host, middle), Entry(host, late)] by {
      assert [middle, late][1..] == [late] && [late][1..] == [];
    }
    assert UserById(db.users, u.id) == Some(u);
  }

  /** With no bounds, the query selects all three exercises of the sample
      store, and sorting puts them in date order. */
  lemma {:induction false} AllSorted(db: Db, u: User, late: Exercise, early: Exercise, middle: Exercise, q: Query)
    requires SampleStore(db, u, late, early, middle)
    requires q == Query(u.id, None)
    ensures SortByDate(Matching(db.exercises, q)) == [early, middle, late]
  {
    MatchingThree(q, late, early, middle);
    assert Matching([late], q) == [late];
    assert Matching([early], q) == [early];
    assert Matching([middle], q) == [middle];
    SortThree(late, early, middle);
  }

  /** `limit` parsing to 1 returns exactly the earliest exercise. */
  lemma {:induction false} LimitExample(db: Db, host: Host, u: User, late: Exercise, early: Exercise, middle: Exercise,
                                        limit: Value)
    requires SampleStore(db, u, late, early, middle)
    requires Truthy(limit) && !host.isNaN(limit) && host.parseInt(limit) == Int(1)
    ensures LogResult(db, host, Some(u.id), Absent, Absent, limit)
         == Ok(LogView(u.id, u.username, 1, [Entry(host, early)]))
  {
    var q := LogQuery(host, u.id, Absent, Absent);
    assert LogLimit(host, limit) == Int(1);
    assert Find(db.exercises, q, Int(1)) == [early] by {
      AllSorted(db, u, late, early, middle, q);
    }
    assert Shape(host, [early]) == [Entry(host, early)] by {
      assert [early][1..] == [];
    }
    assert UserById(db.users, u.id) == Some(u);
  }
}
