# rsbeat collection core in Dafny

rsbeat is a Beat (an Elastic shipper) that samples the slow log of one or
more Redis servers. This project models the core of `beater/rsbeat.go`
and proves properties about it:

- **Entry normalisation** (`Normalize`, with `Text`, `Json` and `UtcTime`).
  One decoded `SLOWLOG GET` entry becomes one event:
  - `cmd` is the first argument and `key` the second.
  - `args` is the JSON array of the remaining arguments.
  - The client address is split on every `:` into `clientip` and `clientport`.
  - The log timestamp is the entry's unix seconds read in UTC.
  - The id, duration, client name and backend address are copied through.
- **The collection cycle** (`Collect`). `redisc` pipelines `SLOWLOG GET` and
  `SLOWLOG RESET`, reads both replies and publishes one event per entry, in
  reply order. At the end it closes the connection, which for a connection
  taken from the pool hands it back to the pool.
- **The connection setup** (`Pool`). This is the `Dial` closure of
  `poolInit`:
  - `AUTH` is sent only when a password is set. A refused AUTH closes the
    connection.
  - A `MULTI` … `EXEC` transaction follows. It holds the two `CONFIG SET`s
    (only when `slowerThan > 0`, with `slowlog-max-len` 500) and
    `SLOWLOG RESET`.
- **The connection** (`Redis`). This module models the redigo calls the code
  makes (`Send`, `Flush`, `Receive`, `Do`, `Close`):
  - A `Conn` records every operation in a `trace`.
  - It reads replies from a `script`, which is what the server will answer.
  - The publisher is an append-only list of events.

Behaviour of the code that the model keeps as it is:

- **Client address.** The address is split on every `:`, and the second
  piece is indexed without a check (`s[1]`, beater/rsbeat.go:132). An
  address with no `:`, the empty one included, is therefore a run-time
  panic, not an event; `Normalize.Normalize` returns
  `Err(IndexOutOfRange(1, 1))` for it. The cycle stops at that entry, after
  publishing the events of the entries before it, and the deferred `Close`
  still runs. Nothing recovers the panic in its goroutine, so it then ends
  the whole process, not only the cycle. An address with more than one `:`
  gives its first two pieces.
- **GET reply that is not an array.** A status, an error reply or a failed
  read publishes nothing and raises no error.
- **Array reply of something other than slow-log records.** `redis.Values`
  accepts it, but no element decodes as a record, so every element leaves
  an empty client address and the first one panics at `s[1]`.
- **Failed `EXEC`.** The dial returns the error without closing the
  connection (`Pool.Dial` leaves `closed` false).
- **Overlapping cycles.** Nothing keeps two cycles on one backend apart,
  and nothing of the kind is modelled.

## Model

| member | source | states |
|---|---|---|
| `Text.Split` | beater/rsbeat.go:120 | `strings.Split` on `:` yields one more piece than there are separators, so an address without `:` (the empty one included) gives a single piece |
| `Text.SplitPieces` | beater/rsbeat.go:120 | the pieces join back to the input with `:` between them, and no piece contains the separator |
| `Text.SplitJoin` | beater/rsbeat.go:120 | Split inverts Join on separator-free pieces, so it is the only such decomposition of the address |
| `Text.FirstPieces` | beater/rsbeat.go:120 | when the address holds a `:`, the first piece is the text before the first `:` and the second runs from there to the next `:` or the end |
| `Json.EscapeChar` | beater/rsbeat.go:114 | a character is written behind a backslash exactly when `encoding/json` escapes it (`"`, `\`, control characters, `<`, `>`, `&`, U+2028, U+2029) |
| `Json.ArrayRoundTrip` | beater/rsbeat.go:113-116 | the JSON array text of the arguments decodes back to exactly those strings, in the same order and number |
| `UtcTime.FromUnix` | beater/rsbeat.go:118 | reading unix seconds in UTC gives a valid day and time of day that denote exactly those seconds (zero offset) |
| `UtcTime.ReadingRoundTrip` | beater/rsbeat.go:118 | a valid UTC reading is determined by the instant it denotes |
| `Normalize.Normalize` | beater/rsbeat.go:101-134 | an entry yields an event exactly when its client address contains `:`; otherwise it yields the out-of-range fault of `s[1]` on a one-piece split |
| `Normalize.CommandKeyArgs` | beater/rsbeat.go:106-116 | `cmd` is `args[0]` or empty; `key` is `args[1]` or empty; `args` is empty exactly below three arguments and otherwise decodes to `args[2:]` |
| `Normalize.ClientAddress` | beater/rsbeat.go:120-132 | `clientip` is the text before the first `:` of the address and `clientport` the text after it up to the next `:` or the end; neither contains `:` |
| `Normalize.CopiedFields` | beater/rsbeat.go:118-133 | `slow_id`, `duration`, `clientname`, `ip_port`, `type` and `@timestamp` are copied unchanged; `@log_timestamp` denotes the entry's unix seconds |
| `Normalize.IpPortRoundTrip` | beater/rsbeat.go:120-132 | an address `ip:port` whose parts hold no `:` is published with exactly that ip and that port |
| `Normalize.ExampleClient` | beater/rsbeat.go:120-132 | the entry `SET k1 v1 EX` from `10.0.0.5:5555` gives ip `10.0.0.5` and port `5555` |
| `Normalize.ExampleCommand` | beater/rsbeat.go:106-118 | the same entry gives cmd `SET`, key `k1`, args `["v1","EX"]`, its duration, and a log time denoting its timestamp |
| `Redis.Conn.Send` | beater/rsbeat.go:91-92 | a sent command is appended to the trace and owes one more reply; nothing is read |
| `Redis.Conn.Flush` | beater/rsbeat.go:95 | flushing is recorded and changes nothing else |
| `Redis.Conn.Receive` | beater/rsbeat.go:96-97 | reads the next reply of the script (a read error once it is exhausted) and records it |
| `Redis.Conn.ReadPending` | beater/rsbeat.go:163 | reads, in order, the replies of every command still owed, records each read, and leaves nothing owed |
| `Redis.Conn.Do` | beater/rsbeat.go:152-153 | sends, flushes and reads every reply still owed, the command's own last; fails exactly when one of them is an error |
| `Redis.AnyErrorAt` | beater/rsbeat.go:152-153 | the failure test of `Do` holds exactly when some reply read is an error reply or a read error |
| `Redis.Conn.Close` | beater/rsbeat.go:88 | closing (for a pooled connection, releasing it to the pool) is recorded last and marks the connection closed |
| `Collect.Publisher.PublishEvent` | beater/rsbeat.go:136 | publishing appends the event to the publish log |
| `Collect.GetEntries` | beater/rsbeat.go:96-105 | `redis.Values` on the GET reply succeeds exactly on an array reply; an entry array gives its records, any other array one record per element, each with an empty client address |
| `Collect.ForeignArrayGet` | beater/rsbeat.go:96-132 | an array reply of anything but slow-log records publishes nothing, and panics at its first element unless it is empty |
| `Collect.FirstFault` | beater/rsbeat.go:120-132 | the least index from which an entry has no `:` in its client address, or the number of entries |
| `Collect.OutcomeAtFault` | beater/rsbeat.go:120-132 | the loop over the entries from a given index panics exactly when one of them has no `:` in its client address, and completes otherwise |
| `Collect.PublishEntries` | beater/rsbeat.go:101-137 | the loop publishes exactly the events the function `PublishedFrom` gives, and ends in a panic exactly when some entry has no client port |
| `Collect.Redisc` | beater/rsbeat.go:87-138 | a cycle sends GET then RESET, flushes, reads exactly two replies, publishes the events of the GET reply and releases the connection, leaving no reply owed, whatever the replies |
| `Collect.PublishedPrefix` | beater/rsbeat.go:101-137 | the published events are one per entry before the first faulting entry, each the normalisation of its entry, in reply order |
| `Collect.OneEventPerEntry` | beater/rsbeat.go:101-137 | when every entry has a client port, exactly one event is published per entry, in reply order, and the cycle completes |
| `Collect.FaultStopsPublishing` | beater/rsbeat.go:101-137 | an entry without a client port ends the cycle in the panic after exactly the events of the entries before it |
| `Collect.UndecodableGetPublishesNothing` | beater/rsbeat.go:96-101 | a GET reply that is not an array (a status, an error reply, a failed read) publishes no event and completes |
| `Collect.CycleShape` | beater/rsbeat.go:91-97 | the cycle's commands are GET then RESET, exactly two replies are read, and the connection is closed last |
| `Pool.ApplySettings` | beater/rsbeat.go:157-163 | queues MULTI, the CONFIG SETs when the threshold is positive and SLOWLOG RESET, runs EXEC, leaves no reply owed, and fails exactly when a reply of the transaction is an error |
| `Pool.Dial` | beater/rsbeat.go:145-171 | no connection means a dial failure; a refused AUTH closes the connection and fails after reading one reply; otherwise the transaction runs, its outcome decides the dial, and the connection handed back has read exactly AUTH's reply (if sent) and the transaction's, with no reply owed |
| `Pool.AuthFirstIffPassword` | beater/rsbeat.go:151-156 | AUTH is among the setup commands exactly when a password is set, and then it is the first |
| `Pool.ConfigIffPositive` | beater/rsbeat.go:158-161 | CONFIG commands are sent exactly when the threshold is positive, and then they set that threshold and a maximum length of 500 |
| `Pool.ResetInsideTransaction` | beater/rsbeat.go:157-163 | SLOWLOG RESET is always queued after MULTI and before the final EXEC |
| `Pool.DialSends` | beater/rsbeat.go:151-171 | a refused AUTH is the only command sent and is followed by the close; otherwise exactly the setup commands are sent, in order |

## Left out

- `Run`'s ticker loop, the goroutine per backend per tick, and `Stop` with its `done` channel (beater/rsbeat.go:51-74). They are about concurrency and timing. One cycle is modelled as one sequential call.
- The pool mechanics of redigo: `MaxIdle`, `MaxActive`, `IdleTimeout`, the `TestOnBorrow` PING, and the dial and read timeouts (beater/rsbeat.go:141-146, 173-177). They are library behaviour. A failed `redis.Dial` is modelled as a missing connection.
- `New` (beater/rsbeat.go:27-49). It unpacks the config and builds the map of pools, which is configuration plumbing. main.go is not part of this model.
- `redis.Values` and `redis.Scan` on each entry (beater/rsbeat.go:102, 105). An entry arrives already decoded as `SlowEntry`, with Go's zero values for missing fields. How the library treats short or ill-typed entries is not modelled.
- All `logp` logging, `lastIndexTime`, and the unused `init` parameter of `redisc`.
- `Normalize.Normalize`: `@timestamp` comes from a clock parameter (`clock(j)` for the j-th entry of a cycle) instead of `time.Now()`.
- `Json.EscapeChar`: Go strings are bytes, and `encoding/json` replaces invalid UTF-8 with U+FFFD. The model works on characters, so that case does not arise.
- `Json.ArrayRoundTrip`: the reference decoder reads only what `encoding/json` writes here (no white space, no surrogate pairs). It is not a full JSON parser.
- `UtcTime.FromUnix`: the day number is not turned into a calendar date. That is the time library's formatting.
- `Redis.Conn.Do`: redigo's `Do` stops at the first failed read. The model keeps reading the script instead, so the trace of a dead connection is longer than the real one. The outcome (failed or not) is the same.
- Integer widths: ids, timestamps, durations and the threshold are unbounded integers. The source uses Go `int`/`int64`; for realistic values nothing overflows on this path.
- `UtcTime.FromUnix`: `time.Unix` keeps `sec + 62135596800` in an int64, which wraps for `sec > 2^63 - 1 - 62135596800`; the model reads every timestamp exactly.
- `Collect.GetEntries`: every element of an array reply other than an entry array is read as the all-zero record. An element that is itself an array may have some leading fields filled by `redis.Scan` before it fails; the model does not capture that partial record.
