# Exercise tracker: a verified model of the three route handlers

The exercise tracker is an Express/Mongoose service with two collections,
users and exercises. This project models its three handlers that hold
decision logic:

- `POST /api/users` creates a user. It validates the username, stores it
  trimmed, and answers a duplicate by looking up the existing user.
- `POST /api/users/:_id/exercises` adds an exercise. It runs a fixed-order
  validation chain (description, duration, date, user exists), then does a
  single insert and shapes the reply.
- `GET /api/users/:_id/logs` returns a user's exercise log. It filters by an
  optional date range in which unparsable bounds are dropped, sorts
  ascending by date, applies an optional limit and shapes the entries.

The model runs over an in-memory store. Dates are integer millisecond
timestamps.

Files:

- `js.dfy` (module `Js`) covers the JavaScript the handlers rely on:
  - what a request field can hold, and when it is truthy;
  - `String.prototype.trim`, modelled on the ECMAScript whitespace and
    line-terminator set;
  - a `Host` value that carries `isNaN`, `parseInt`, `Date.parse` and
    `toDateString` as parameters.
- `store.dfy` (module `Store`) covers the store:
  - the user and exercise records;
  - the invariant the handlers keep (`Valid`);
  - the store queries as functions: `findById`, `findOne`, and
    `find(query).sort({date: 1}).limit(n)`.
- `handlers.dfy` (module `Handlers`) states what each handler replies and
  how it leaves the store, as a function of the store before the request.
  The properties of these functions are lemmas in the same module.
- `tracker.dfy` (module `Tracker`) runs the handlers step by step, with
  early returns, as methods of the class `ExerciseTracker`:
  - the class's fields are the two collections and the id counter;
  - `save` reassigns the collection fields;
  - the log query object is built in place.

  Each handler method is proved to give exactly the reply and the new store
  that the matching `Handlers` function gives, and to keep `Valid`.
- `scenarios.dfy` (module `Scenarios`) works two log requests through
  symbolically, on one user with exercises on three dates.

Reply shapes:

- `Err(status, error)` is `{ error }` with a status.
- `StoreMessage` stands for an `err.message` that the store produced.
- `NoReply` is a request that the handler itself never answers. This
  happens when an exception is thrown inside a `catch` block of the async
  handler. What the runtime then does is not modelled (see "## Left out").

The `:_id` path segment reaches the model as `Option<Id>`. `None` stands for
a segment that the store cannot cast to an id.

## Model

| member | source | states |
|---|---|---|
| Js.Truthy | index.js:31 | JavaScript truthiness of a request field, as tested by every guard (index.js:31, 63, 66, 70, 106, 108-109 and 113): `undefined` and `""` are falsy, any other string is truthy, and any other value carries its own truthiness |
| Js.IsSpace | index.js:31 | the characters `trim()` removes at index.js:31, 34, 63 and 79: ECMAScript WhiteSpace (tab, vertical tab, form feed, space, no-break space, byte order mark and the Unicode space separators) and LineTerminator (line feed, carriage return, line and paragraph separators) |
| Js.LeadingSpaces | index.js:31 | the count of trimmable characters at the start: all of them are whitespace and the next one is not |
| Js.TrailingSpaces | index.js:31 | the count of trimmable characters at the end: all of them are whitespace and the one before them is not |
| Js.Trim | index.js:31-34 | `String.prototype.trim`, used at index.js:31, 34, 63 and 79; what it returns is stated by `TrimSlice`, `TrimTrimmed` and `TrimEmptyIffAllSpace` |
| Js.NonBlankString | index.js:31 | the guard on a required text field, shared by the username check at index.js:31 and the description check at index.js:63: a truthy string that is not blank once trimmed |
| Js.TrimSlice | index.js:34 | `trim()` returns a contiguous middle slice with no whitespace at either end, and everything it cut off is whitespace |
| Js.TrimTrimmed | index.js:79 | trimming a string with no whitespace at either end returns it unchanged |
| Js.TrimIdempotent | index.js:34 | trimming twice gives the same result as trimming once |
| Js.TrimEmptyIffAllSpace | index.js:31 | `s.trim() === ''` holds exactly when every character of `s` is whitespace |
| Store.Taken | index.js:35-39 | the duplicate-key case: the unique index on `username` refuses `save()` (the error the code catches as `err.code === 11000`) exactly when some stored user already has that name |
| Store.UserById | index.js:73 | `findById` gives a stored user with that id, or null only when no stored user has that id |
| Store.UserByName | index.js:40 | `findOne({username})` gives a stored user with that name, or null only when no stored user has that name |
| Store.Matches | index.js:105-111 | how the store tests the query: it accepts an exercise with the query's userId whose date meets each `$gte`/`$lte` present; an empty `date` condition accepts everything (see Handlers.LogQuery under "## Left out") |
| Store.Matching | index.js:111 | the filter of `Exercise.find(query)`, in insertion order; its result is stated by `MatchingSelects` |
| Store.MatchingSelects | index.js:111 | `find(query)` returns exactly the stored exercises the query accepts, each no more often than it is stored |
| Store.MatchingSameFilter | index.js:105-111 | two queries that accept the same exercises return the same documents |
| Store.Insert | index.js:112 | one insertion step of the sort adds exactly the new element to the multiset |
| Store.InsertSorted | index.js:112 | inserting into a date-sorted sequence keeps it sorted |
| Store.SortByDate | index.js:112 | `.sort({date: 1})` returns a permutation of its input in non-decreasing date order |
| Store.Take | index.js:113 | `.limit(n)`: the first \|n\| documents for a numeric n other than 0, all of them for 0 or NaN; stated by `FindSelects` |
| Store.Find | index.js:111-113 | `Exercise.find(query).sort({date: 1}).limit(n)`; stated by `FindSelects` |
| Store.FindSelects | index.js:111-113 | find/sort/limit returns matching stored exercises, sorted, as a prefix of all matches sorted; it returns all matches for limit 0 or NaN, and min(\|n\|, matches) documents for a limit n that is not 0 |
| Handlers.CreateUserResult | index.js:28-45 | a missing, non-string or blank username gives exactly 400 "username is required" and only then an error; the store changes only by appending the trimmed, not-yet-taken name under the next id; a 200 reply names a user that is in the resulting store |
| Handlers.CreateUserStoresTrimmed | index.js:34-36 | a new name is stored trimmed under the next id, the reply carries that name and id, and exercises are untouched |
| Handlers.CreateUserExisting | index.js:39-41 | sending an already stored, unpadded name returns the stored user's name and id and writes nothing |
| Handlers.CreateUserIdempotent | index.js:34-41 | for a non-empty trimmed name, a second identical request gives the same reply as the first and writes nothing |
| Handlers.CreateUserPaddedDuplicate | index.js:38-42 | a whitespace-padded name whose trimmed form is taken gets no reply and writes nothing |
| Handlers.CreateUserKeepsValid | index.js:34-35 | create-user keeps the store invariant: ids distinct and below the counter, usernames non-empty, trimmed and distinct, every exercise owned by a stored user |
| Handlers.DurationGiven | index.js:66 | the duration guard: truthy and not NaN by `isNaN` |
| Handlers.DateAcceptable | index.js:70 | the date guard: a date that is sent must parse with `Date.parse` |
| Handlers.AddExerciseResult | index.js:58-94 | the checks run in order (description 400, duration 400, date 400, malformed id 400, unknown user 404) and the first failure decides the reply; nothing is written unless the reply is 200; the reply is 200 exactly when the input is valid, the user exists and `parseInt` gives a number |
| Handlers.AddExerciseStores | index.js:69-90 | a successful add appends one exercise: owned by the user, with the trimmed non-empty description, `parseInt(duration)`, and the parsed date or now; the reply echoes the owner's id and name, which differ from the exercise's id, together with the stored fields and the rendered date |
| Handlers.AppendExerciseKeepsValid | index.js:77-83 | saving an exercise with the next id, a trimmed non-empty description and a stored owner keeps the store invariant |
| Handlers.AddExerciseKeepsValid | index.js:58-94 | add-exercise keeps the store invariant on every path |
| Handlers.BoundGiven | index.js:108-109 | a `from` or `to` bound takes part in the query when it is truthy and `Date.parse` gives a number |
| Handlers.LogQuery | index.js:105-110 | the built query accepts an exercise exactly when it belongs to the user, is at or after `from` when `from` parses, and is at or before `to` when `to` parses |
| Handlers.LogLimit | index.js:113 | the argument of `.limit`: `parseInt(limit)` when `limit` is truthy and `isNaN` says it is numeric, else 0; its effect is stated by `LogSelects` and `NaNLimitIgnored` |
| Handlers.Entry | index.js:116-118 | one log entry: the exercise's description, duration and rendered date |
| Handlers.Shape | index.js:115-119 | the log has one entry per found exercise, in the same order, each with its description, duration and rendered date |
| Handlers.LogResult | index.js:97-130 | a malformed id gives 500 and an unknown user gives 404; the reply is 200 exactly when the user exists, and then it names that user and its count equals the log's length |
| Handlers.LogSelects | index.js:101-124 | for a known user, the log is the shaped result of one find: the user's exercises inside every bound that parses, in non-decreasing date order, a prefix of all such exercises sorted; it is complete when no limit, 0 or a NaN limit is sent, and has min(\|n\|, matches) entries for a numeric limit n other than 0 |
| Handlers.NaNLimitIgnored | index.js:113 | a limit that passes the numeric guard but that `parseInt` turns into NaN (such as `limit=' '`) reaches `.limit` as NaN and gives the same log as no limit |
| Handlers.UnparsableFromIgnored | index.js:106-109 | when `to` is sent, a `from` that is absent, falsy or unparsable gives the same query, and so the same log, as no `from`; when `to` is absent, the log is the same only under the empty-condition reading under "## Left out" |
| Handlers.EmptyLog | index.js:111-126 | a known user with no exercises gets count 0 and an empty log, whatever bounds and limit are sent |
| Handlers.StoredExerciseInLog | index.js:111-125 | every stored exercise of a known user appears, rendered, in that user's log when no bound and no limit is sent |
| Handlers.AddedExerciseInLog | index.js:84-90 | an exercise just added appears in its owner's log, with the description, duration and date string that the add reply showed |
| Tracker.ExerciseTracker.FindById | index.js:73 | the loop returns the first stored user with the id, as `UserById` does |
| Tracker.ExerciseTracker.FindOne | index.js:40 | the loop returns the first stored user with the name, as `UserByName` does |
| Tracker.ExerciseTracker.SaveUser | index.js:34-35 | the unique index refuses a name exactly when it is already stored; otherwise the user is appended under the next id and nothing else changes |
| Tracker.ExerciseTracker.SaveExercise | index.js:77-83 | the exercise is appended under the next id and nothing else changes |
| Tracker.ExerciseTracker.CreateUser | index.js:28-45 | the method's reply and new store equal `CreateUserResult` on the old store, and `Valid` is kept |
| Tracker.ExerciseTracker.AddExercise | index.js:58-94 | the method's reply and new store equal `AddExerciseResult` on the old store, and `Valid` is kept |
| Tracker.ExerciseTracker.BuildQuery | index.js:105-110 | the query built in place equals `LogQuery` |
| Tracker.ExerciseTracker.GetLog | index.js:97-130 | the method's reply equals `LogResult` on the current store |
| Scenarios.FromBoundExample | index.js:105-126 | with exercises stored late, early, middle, a `from` between the early and the middle date returns exactly the middle and late exercises, in that order, with count 2 |
| Scenarios.LimitExample | index.js:111-126 | on the same store, a `limit` that parses to 1 returns exactly the earliest exercise, with count 1 |

## Left out

- Express setup, CORS, body parsing, the static `/` route, the database
  connection and `app.listen` (index.js:1-25, 132-134) are I/O and process
  plumbing.
- `GET /api/users` (index.js:48-55) is a single store read with no logic of
  its own.
- The JavaScript coercions `isNaN`, `parseInt`, `Date.parse`, `new Date(v)`
  and `toDateString` are parameters of the `Host` datatype, not character-level
  definitions. Some consequences:
  - the time value of `new Date(v)` is taken to be `Date.parse(v)`;
  - calendar formatting is not modelled;
  - a non-numeric duration such as "12abc" is refused only through what the
    supplied `isNaN` says;
  - `Num` holds NaN or an integer only. `parseInt` of a digit string longer
    than about 309 digits gives `Infinity`, which the model cannot express.
- The clock is the parameter `now` of the add-exercise handler.
- models/User and models/Exercise are not part of this model. The unique
  index on `username` is assumed, and so is a numeric `duration` field, which
  makes the store refuse a `parseInt` result of NaN with a 400 and save
  nothing.
- The handlers do not see the wording of a store exception. It is the
  abstract `StoreMessage`. The only store failures modelled are these:
  - the unique index refusing a name;
  - a malformed `:_id` (400 when adding an exercise, 500 for the log);
  - a NaN duration.
- Other store and network failures are not modelled. These are the generic
  `catch` branches at index.js:43, 92 and 128.
- Concurrency is left out. The check-then-write of each handler is not
  atomic, and interleavings of requests are not modelled.
- Handlers.LogQuery: the same `date: {}` condition that index.js:107 installs
  when `from` or `to` is sent but neither parses counts here as no
  constraint. What MongoDB does with an empty condition on a date field is
  not modelled. Mongoose may instead cast `{}` as an equality on a Date
  field; that cast would fail, and the handler would reply 500 at
  index.js:128.
- Store.Take: a negative limit returns at most \|n\| documents, as MongoDB
  does. A NaN limit is read as no limit. The guard at index.js:113 lets one
  through, for example for `limit=' '`: `isNaN(' ')` is false but
  `parseInt(' ')` is NaN. What the store does with `limit(NaN)` is not
  modelled.
- Store.SortByDate: exercises with equal dates keep insertion order. MongoDB
  does not promise any order among equal sort keys, so the model picks one.
- The `Array.isArray` fallback at index.js:115 is not modelled: the find
  result is always a sequence.
- Ids are natural numbers handed out from one counter. ObjectId structure
  and its string form (`toString()` at index.js:122) are not modelled.
- Handlers.CreateUserPaddedDuplicate and `NoReply`: the model assumes that
  models/User gives `username` no setter such as `trim` or `lowercase`. Under
  that assumption `findOne` at index.js:40 compares the name exactly as sent.
  Mongoose applies a path's setters when it casts a query filter, so with
  `trim: true` a padded duplicate would get the existing user back, as in
  `Handlers.CreateUserExisting`.

  When the lookup finds nobody, the model says only that the handler does not
  answer and the store is unchanged. The throw inside the
  `catch` block at index.js:40-41 leaves a rejected promise. What happens next
  depends on the Express and Node versions, which no file here fixes:
  - Express 4 ignores the rejection. On Node 15 or later the unhandled
    rejection ends the process, so no later request is served either.
  - Express 5 catches it and its default error handler replies 500.

  The model assumes Express 4 on a runtime that keeps running. It does not
  model a process exit or a 500 reply.
- Behaviour a caller might not expect, which the model follows as written:
  - A duplicate username is not idempotent when it is sent padded with
    whitespace. The lookup at index.js:40 uses the untrimmed name, finds
    nobody under the assumption above, and reading `user.username` throws inside the `catch` block
    (`Handlers.CreateUserPaddedDuplicate`).
  - An unparsable `from` changes the query when `to` is absent: it installs
    an empty date condition. The log is the same as without `from` only
    because of the reading of that condition described above.
  - Equal dates are allowed in the log's order: it is non-decreasing, not
    strictly ascending.
