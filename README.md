# ClickSkip game room, in Dafny

ClickSkip is a multiplayer "quick-click" game served by one Node.js process
(`index.js`). Players join a single room. A started game runs in rounds: each
round opens with an elimination check and a countdown. If exactly one player
clicked during the countdown, each resolve step charges that player
`1/(number of players)` points.
Then every client sees the status, and a sync barrier waits until enough
clients have acknowledged the round before the next one starts. A player whose
points are exactly 0 at the start of a round is announced as the loser.

This project models the room's state machine. The source keeps that state in
four SQLite tables, `users(user, userid)`, `clicks(user, click)`,
`points(user, point)` and `sync(count)`, and in three module variables:
`playerjoin`, `points` (the starting value) and `syncInterval`. In the model
the state is one class, `Server.Room`:

- the tables are sequences of rows kept in insertion order;
- `sync` is a `nat`;
- the variables are `joinOpen`, `startPoints` and `syncFlag`.

Each socket handler, and each timed step of a round, is one atomic method. A
method takes the caller's connection id where the handler uses `socket.id`. It
returns the events it emits, in order, each marked as a broadcast (`io.emit`)
or as a reply to the caller (`socket.emit`).

Modules:

- `Tables` (tables.dfy): the row types and the queries and updates run on
  them, such as counting a name, splitting `users` by connection, setting or
  clearing clicks, charging a clicker, the zero-point rows and the per-player
  views.
- `Rules` (rules.dfy): the pure decisions. These are the admission order, the
  sole-clicker rule with its resolution, and the sync barrier.
- `Chat` (chat.dfy): the `Point <n>` command. It covers JavaScript's `trim`, a
  decimal `parseInt`, the `> 0` test and the decimal text of the announcement.
- `Events` (events.dfy): the emitted events.
- `Server` (room.dfy): the `Room` class and the resolve loop `TallyClicks`.
- `Scenarios` (scenarios.dfy): client methods that replay whole exchanges
  using only the methods' contracts:
  - two players start, a sole click costs 1/2;
  - a lone player cannot start;
  - a duplicate name is refused;
  - `Point n` sets the next start, and `Point <word>` is chat when the word starts
    with neither a digit nor a sign (`Point abc`, `Point Abc`);
  - of three players, one leaves and the game goes on, then another leaves and
    the game ends (`DeparturesEndGame`).

The `Room` invariant (`Valid`) holds after every method:

- at most 10 users;
- no two users share a name;
- `clicks` and `points` rows exist only while at least two users remain;
- the starting value is positive.

The invariant also keeps the `1/userCount` of the resolve step well defined.

Behaviours of the code that the model keeps:

- `startgame` does not check whether a game is already running. It appends a
  fresh row per user, so a second start duplicates every user's rows
  (`PointsOfAppend`, `NewRowsPerPlayer`). After a duplicate start, one click
  marks two rows, and `TallyClicks` then counts two clickers, so no one is
  charged.
- `Point n` is honoured at any time, not only before a game.
- `disconnect` removes every `users` row of the connection. Admission never
  checks whether the connection already owns a name. It emits `endgame`
  whenever fewer than 2 users remain, even if no game is running.
- Points are never clamped. Elimination tests `point == 0` exactly, so the
  model does not claim non-negativity.
- The acknowledgement step only ever raises `syncInterval`. Only the next
  `loop` lowers it.
- The `loop` handler is per socket, and the first `loop` is broadcast to every
  client (index.js:192, 200, 280). Each resolve step charges `1/userCount`,
  where `userCount` counts users, not sockets. So k resolve steps over the same
  clicks charge `k/userCount` (`Rules.ResolvedTimesCharge`). That is 1 per round
  only if every connected socket relays `loop`, owns exactly one user, and
  tallies the click before any release clears it. The client code and the
  timers that decide this are not part of this model.
  `Rules.EveryConnectionResolving` states the case of `userCount` steps. The
  barrier counts acknowledgements the same way (`Rules.AckTimesFromReset`).

## Model

| member | source | states |
|---|---|---|
| `Server.Room.constructor` | index.js:50-77 | Empty `users`, `clicks` and `points`, a sync count of 0, joining open, 3 starting points and the sync flag down. |
| `Server.Room.Connect` | index.js:80-82 | A new connection receives one `addplayer` per user row, in row order, and nothing else. |
| `Rules.Admit` | index.js:87-118 | `addplayer` checks in this order: a full room (≥ 10 users), then the join lock, then a taken name. Each outcome holds exactly under its own condition. |
| `Rules.JoinKeepsRoster` | index.js:83-121 | If the roster has at most 10 distinct names and the name is admitted, appending `(name, connId)` keeps at most 10 distinct names. |
| `Tables.CountNameZero` | index.js:89-93 | `COUNT(*) WHERE user = name` is 0 exactly when no `users` row has that name. |
| `Server.Room.Join` | index.js:83-121 | If admitted, exactly one `(name, connId)` row is appended and `addplayer(name)` is broadcast. Otherwise `users` is unchanged and the caller gets `noexec(<reason text>, "login")`. The invariant (≤ 10 users, distinct names) is kept. |
| `Tables.WithConn` | index.js:123-129 | The rows announced on disconnect are exactly the `users` rows with that connection id. |
| `Tables.WithoutConn` | index.js:130 | The rows left after the delete are exactly the `users` rows with a different connection id. |
| `Tables.ConnSplit` | index.js:123-130 | The announced rows and the kept rows split the table: together they add up to its size. |
| `Tables.WithoutConnDistinct` | index.js:130 | Deleting a connection's rows keeps names distinct. |
| `Server.Room.Disconnect` | index.js:122-141 | Removes exactly that connection's `users` rows and broadcasts `removeplayer` for each. If fewer than 2 users remain, it also empties `points` and `clicks` and broadcasts `endgame`. Otherwise the game tables stay as they were. |
| `Server.Room.ToggleJoin` | index.js:142-148 | `"on"` opens joining, `"off"` closes it, and any other value leaves it unchanged. |
| `Chat.TrimStart` | index.js:151 | Returns the suffix that starts at the first non-space character. Everything it drops is JavaScript white space. |
| `Chat.TrimEnd` | index.js:151 | Returns the prefix that ends at the last non-space character. Everything it drops is JavaScript white space. |
| `Chat.Trim` | index.js:151 | The input is the result with only white space before and after it, and the result neither starts nor ends with white space. An all-white-space input trims to the empty string. |
| `Chat.TrimPadded` | index.js:151 | Trimming a word padded with white space gives back the word. |
| `Chat.TrimWord` | index.js:151 | A word with no white space at either end trims to itself. |
| `Chat.DigitPrefix` | index.js:151 | Returns the longest prefix of decimal digits: every character in it is a digit, and the next one is not. |
| `Chat.ParseInt` | index.js:151-152 | `parseInt` is `NaN` exactly when no digit follows the optional sign. |
| `Chat.DecimalString` | index.js:154 | The text of `${points}` is a non-empty run of decimal digits, and it starts with `0` only for 0. |
| `Chat.DecimalRoundTrip` | index.js:151-154 | Reading the digits of `${n}` gives back `n`. |
| `Chat.ParseDigits` | index.js:151 | `parseInt` reads a run of digits, leading zeros included, as its decimal value, whatever non-digit text follows. |
| `Chat.ParsePlusDigits` | index.js:151 | The same after a `+` sign. |
| `Chat.ParseMinusDigits` | index.js:151 | After a `-` sign, the value is negated. |
| `Chat.ParseDecimal` | index.js:151 | `parseInt` reads a rendered number back whatever non-digit text follows it. |
| `Chat.ParseNegative` | index.js:151 | `parseInt("-" + digits of n)` is `-n`. |
| `Chat.PointSetting` | index.js:150-152 | An accepted command starts with `"Point "` and sets a positive value. |
| `Chat.PointCommandAccepted` | index.js:150-154 | `"Point "` followed by a positive `n`, padded with white space on either side, is accepted with value `n`. |
| `Chat.NotACommand` | index.js:150 | A line that does not start with `"Point "` is never a command. |
| `Chat.NoDigitsIsChat` | index.js:150-152 | `"Point "` followed by text with no digit after the optional sign is plain chat. |
| `Chat.NegativeIsChat` | index.js:152 | A negative number is refused by the `> 0` test and is plain chat. |
| `Chat.ZeroIsChat` | index.js:152 | Zero is refused by the `> 0` test and is plain chat. |
| `Server.Room.PostChat` | index.js:149-165 | An accepted `Point n` sets the starting value to `n` and broadcasts `"Starting points set to <digits of n>"` from `"Server"`. Any other line leaves the starting value unchanged and is broadcast once under each name the sender's connection owns. |
| `Tables.NewPointRows` | index.js:179-184 | `startgame` inserts as many `points` rows as there are users. |
| `Tables.NewClickRows` | index.js:185-188 | `startgame` inserts as many `clicks` rows as there are users. |
| `Tables.NewRowsPerPlayer` | index.js:179-189 | With distinct names, a listed player gets exactly one `points` row at the starting value and one unclicked `clicks` row. Any other name gets none. |
| `Tables.PointsOfAppend` | index.js:179-184 | A player's `points` rows after an insert are the old ones followed by the new ones. So a second `startgame` gives each player two rows. |
| `Tables.ClicksOfAppend` | index.js:185-188 | The same holds for `clicks` rows. |
| `Server.Room.Start` | index.js:166-197 | With fewer than 2 users, only `noexec("Not enough players... (min 2 players)", "start")` goes to the caller and no table changes. Otherwise each user gets one points row at the starting value and one unclicked clicks row, appended after the existing rows. `startgame` and then `loop` are broadcast. |
| `Tables.LosersSpec` | index.js:203-208 | A name gets a `result` exactly when one of its `points` rows is exactly 0. |
| `Tables.NoLosers` | index.js:203-209 | The round goes on exactly when no `points` row is 0. |
| `Server.Room.CheckElimination` | index.js:200-210 | Always lowers the sync flag. If any points row is 0, it broadcasts `result(user)` for each such row, in row order, and the round stops. Otherwise it sends `countdown(5)` to the caller and the round goes on. |
| `Server.TallyClicks` | index.js:212-222 | The loop over `clicks` counts the clicked rows and keeps the user of the last one. With one clicked row, that user is the sole clicker. |
| `Tables.ClickersCount` | index.js:212-222 | The resolve loop counts one clicker per clicked row. |
| `Tables.ClickersSingle` | index.js:212-223 | When only row `k` is clicked, its user is the only clicker. |
| `Rules.SoleClickerIff` | index.js:212-223 | There is a sole clicker `u` exactly when exactly one `clicks` row is clicked and that row is `u`'s. Both directions are proved. |
| `Tables.ChargeClick` | index.js:233-237 | Each of the charged user's `points` rows drops by the amount. Every other row is unchanged. |
| `Rules.ResolvedPoints` | index.js:223-238 | Resolution keeps the number of `points` rows. |
| `Rules.SoleClickerCharged` | index.js:223-238 | With exactly one clicked row, each `points` row of its user falls by exactly 1/userCount. All other rows are unchanged. |
| `Rules.NoSoleClickerNoCharge` | index.js:223 | With zero clicked rows, or two or more, no `points` row changes. |
| `Server.Room.ResolveClicks` | index.js:211-239 | `points` becomes the resolution of the old points over the current clicks and user count. The caller gets `countdown(5)`. |
| `Rules.ResolvedTimes` | index.js:200-238 | Repeated resolution keeps the number of `points` rows. |
| `Rules.ResolvedTimesCharge` | index.js:200-238 | After `k` resolve steps over the same clicks, the sole clicker's rows have lost `k/userCount`. Other rows are unchanged. |
| `Rules.EveryConnectionResolving` | index.js:200-238 | If `userCount` resolve steps run over the same clicks, the sole clicker loses exactly 1 point. |
| `Server.StatusOnePerPlayer` | index.js:240-261 | When every user has one row in each game table, the status report holds exactly one `showstatus` per user, in roster order, carrying that user's click and points. |
| `Server.Room.Status` | index.js:240-261 | The status phase reads the tables, changes nothing, and reports one event per user when every user has one row in each table. |
| `Rules.Ack` | index.js:264-272 | An acknowledgement adds 1 to the count and never lowers a raised flag. |
| `Rules.AckTimesFromReset` | index.js:264-272 | From a reset barrier, `k` acknowledgements leave the count at `k`. The flag is up exactly when `k > 0` and `k >= userCount`. |
| `Server.Room.Acknowledge` | index.js:264-274 | The count goes up by 1. The flag is raised if it was up or the new count is at least the number of users. |
| `Tables.ClearClicks` | index.js:278 | Every `clicks` row is reset to unclicked, and users and order are kept. |
| `Server.Room.Release` | index.js:275-283 | While the flag is down, a poll changes nothing and emits nothing. Once it is up, the caller gets `hidestatus` and then `loop`, every click is reset, and the count goes to 0. |
| `Tables.SetClick` | index.js:288 | Only rows of that name become clicked, and every other row is unchanged. |
| `Tables.ClickIdempotent` | index.js:288 | Clicking twice equals clicking once. |
| `Tables.ClickUnknownName` | index.js:288 | A click under a name with no `clicks` row changes nothing. |
| `Server.Room.Click` | index.js:287-289 | `clicks` becomes the old table with that name's rows clicked. |
| `Server.Room.End` | index.js:290-296 | Empties `points` and `clicks`, keeps `users`, and broadcasts `endgame`. |
| `Scenarios.AliceBobRows` | index.js:179-189 | Starting a game with Alice and Bob gives the rows `[Alice: s, Bob: s]` and two unclicked rows. |
| `Scenarios.AliceChargedHalf` | index.js:212-238 | With two players and only Alice's row clicked, her 3 points become 2.5 and Bob keeps 3. |
| `Scenarios.TwoPlayerRoom` | index.js:83-121 | Alice then Bob both join a fresh room, in that order. |
| `Scenarios.PointFiveAccepted` | index.js:150-153 | `"Point 5"` sets the starting value to 5. |
| `Scenarios.PointWordIsChat` | index.js:150-152 | `"Point "` followed by a word that starts with neither a digit nor a sign nor white space, such as `"Point abc"` or `"Point Abc"`, is not a command. |
| `Scenarios.BobLeaves` | index.js:123-130 | From Alice, Bob and Carol, Bob's disconnect announces Bob and keeps Alice and Carol, in order. |
| `Scenarios.CarolLeaves` | index.js:123-130 | From Alice and Carol, Carol's disconnect announces Carol and keeps Alice. |
| `Scenarios.DepartureKeepsGame` | index.js:122-141 | With Alice, Bob and Carol in a game, Bob's disconnect announces Bob, leaves Alice and Carol, and keeps the three rows of each game table. |
| `Scenarios.DepartureEndsGame` | index.js:122-141 | With Alice and Carol left in a game, Carol's disconnect announces Carol, then `endgame`, leaves Alice and clears both game tables. |
| `Scenarios.DeparturesEndGame` | index.js:122-141 | From Alice, Bob and Carol in a game, Bob's and then Carol's disconnects emit Bob's removal, Carol's removal and `endgame`, in that order, and leave Alice with empty game tables. |

## Left out

- The HTTP server, static files and the `/` route (index.js:63-73, 299-301) are I/O plumbing.
- socket.io is not modelled. A handler becomes a method that takes the
  connection id and returns the emitted events.
- SQLite is not modelled. Tables are in-memory sequences, and a `SELECT`
  without `ORDER BY` is assumed to return rows in insertion order.
- The `async` callback nesting of `db.each` and `db.run`, and interleaving
  between handlers, are concurrency. Each method runs atomically.
- Timers are not modelled: the 500 ms start delay, the two 5-second phases,
  the 50 ms deferred decrement, the 100 ms status delay and the 100 ms release
  interval. Their cancellation by `clearTimeout` is left out too. Each timed
  phase is an explicit step method, and `loop` is an emitted event after which
  the client's reply is a call to `CheckElimination`. Nothing enforces the
  order of the steps; callers choose it.
- Server.Room.Release: models one poll of the `setInterval`. The interval
  repeating until the flag is up, and never being cleared if the flag stays
  down, are not modelled.
- Server.Room.ResolveClicks: charges exactly `1/userCount` in real arithmetic.
  The source subtracts an IEEE-754 double, which rounds, so a balance may never
  reach exactly 0.
- Rules.ResolvedPoints: also uses real arithmetic rather than IEEE-754 doubles.
- The source reads `playerClicked` and `userCount` before its deferred
  decrement and applies the decrement 50 ms later. Here both happen in one step.
- Chat.ParseInt: only handles an optional sign followed by decimal digits. A
  `0x` hexadecimal prefix and precision loss above 2^53 are not modelled. Nor
  is overflow: a run of more than about 309 digits makes `parseInt` return
  `Infinity`, which passes the `> 0` test, so the source stores `Infinity` as
  the starting value. The model stores the exact integer.
- Chat.DecimalString: renders every value as plain digits. The source switches
  to exponent notation at 10^21, and renders an overflowed value as
  `"Infinity"`.
- Handler payloads are assumed to be strings. The handlers never check the
  type. A `null` name binds SQL NULL, `user = NULL` never matches, so the
  taken-name count is always 0 and every null join is admitted, leaving
  duplicate (NULL) names in `users`; the model's `Valid` (distinct names) does
  not cover that. A non-string chat payload throws at `msg.startsWith`
  (index.js:150) and nothing is broadcast; the model has no such case.
- The `clicks.click` column only ever holds 0 or 1, so it is modelled as a
  boolean.

