# Robotling telemetry to SQLite: a Dafny model

This project models the ingestion core of `mqtt_to_sqlite.py`. The program subscribes to a
robot's telemetry topic on an MQTT broker. It keeps the newest payload in a single-slot
mailbox. A polling loop decodes that payload into a nested mapping and flattens the mapping
depth-first into key chains. Each key chain becomes a topic under the configured root. Topics
are filtered through an eight-entry whitelist. The two list-valued topics (motor loads,
distances) are expanded into their elements. The result is inserted as one row of the
eleven-column status table.

Modules, leaf first:

- `Wrappers` (`wrappers.dfy`): the `Option` returned by the payload parser.
- `Snapshot` (`snapshot.dfy`): the payload tree (`Obj` holds an ordered sequence of
  key/child pairs, `Leaf` holds a scalar or a list). `Flatten` is the recursive generator
  `parseRawMsg`, written as a function that returns a sequence of `Field(keys, leaf)` items.
- `Topics` (`topics.dfy`): the topic built from a key chain. `BuildTopic` is the string-growing
  loop; `TopicOf` and `Join` specify it, and `Split` is its inverse for keys that hold no slash.
  This module also holds the
  whitelist, written as the literal strings of the source.
- `Row` (`row.dfy`): per-topic expansion (`Expand`), the row of a run of fields (`Status`,
  specified recursively), and the loop that builds it (`BuildStatus`). It also holds the table's
  column list (`Schema`) and which columns each whitelisted topic feeds (`ColumnsOf`).
- `Bridge` (`bridge.dfy`): the status table (`StatusTable`, an append-only sequence of rows)
  and the `Bridge` class. `Bridge` holds the program's global state `lastMsg`, `isNewMsg` and
  `isConnected`, with one method per callback and per branch of the main loop.

Behaviour of the code that the model keeps:

- The code never checks the row length before inserting. A row of the wrong length reaches the
  insert, and SQLite rejects it there. The model states this as the precondition `|status| == |Schema|` on `StatusTable.CreateStatus`. `Bridge.Consume`
  passes that requirement on to its callers through `Ready`.
- Row positions follow encounter (flatten) order. A snapshot that meets the whitelisted
  topics in whitelist order puts each value under its own column (`Row.WhitelistOrderRow`).
- The connection state is a single boolean flag.
- The consume step runs only when the mailbox is fresh and `lastMsg` is non-empty. A fresh but
  empty payload therefore leaves `isNewMsg` set.
- The whitelist names the root `robotling_30aea42664a8`, but topics are built from the `--guid`
  argument. `ForeignRootAcceptsNothing` and `ForeignRootEmptyRow` prove that under any other
  slash-free root no field is accepted and every row is empty.

## Model

| member | source | states |
|---|---|---|
| Snapshot.Flatten | mqtt_to_sqlite.py:68-74 | every yielded item has a non-empty key chain (the chain of keys followed by the leaf) |
| Snapshot.FlattenCount | mqtt_to_sqlite.py:68-74 | exactly one item per leaf that is not a mapping, lists included; an empty mapping yields nothing |
| Snapshot.FlattenExact | mqtt_to_sqlite.py:68-74 | an item (keys, v) is yielded if and only if following keys from the top reaches a leaf holding v |
| Snapshot.FlattenAppend | mqtt_to_sqlite.py:69-72 | depth-first order: the items of a run of members are those of the first members followed by those of the rest |
| Snapshot.NestedMember | mqtt_to_sqlite.py:69-72 | a nested mapping member at any position yields all its items, each prefixed by its key, after the items of the members before it and before those of the members after it: a block of as many items as it has leaves, starting after the leaves of the members before it |
| Snapshot.EmptyMember | mqtt_to_sqlite.py:69-72 | a member holding an empty mapping, at any position, contributes no item: the items are those of the other members |
| Snapshot.TwoLevelExample | mqtt_to_sqlite.py:68-74 | `{"a": {"b": 1, "c": 2}}` yields `[a, b] -> 1` then `[a, c] -> 2` |
| Topics.BuildTopic | mqtt_to_sqlite.py:160-165 | the loop's topic equals root, a slash, and the keys joined with slashes |
| Topics.JoinSnoc | mqtt_to_sqlite.py:162-165 | appending one more key adds exactly one separator, before that key |
| Topics.SplitJoin | mqtt_to_sqlite.py:162-165 | splitting the joined slash-free keys at slashes gives the keys back, so separators stand only between consecutive keys |
| Topics.TopicSegments | mqtt_to_sqlite.py:160-165 | for keys that hold no slash, the segments of a built topic are the root's segments followed by the keys, one segment per key |
| Topics.WhitelistUnderHardcodedRoot | mqtt_to_sqlite.py:26-35 | every whitelisted topic starts with the hard-coded root and a slash |
| Topics.ForeignRootAcceptsNothing | mqtt_to_sqlite.py:26-35 | under a slash-free root other than the hard-coded one, no built topic is whitelisted |
| Row.ColumnsOfWidth | mqtt_to_sqlite.py:99 | a topic feeds at least one column if and only if it is whitelisted: 2 for motor load, 3 for distance, 1 for the other six |
| Row.Expand | mqtt_to_sqlite.py:169-182 | a whitelisted field yields as many scalars as its topic has columns; the list topics keep the leading elements in list order; every other topic yields its leaf's text |
| Row.AppendValues | mqtt_to_sqlite.py:169-182 | appends exactly the field's expansion (`Expand`) to the row built so far |
| Row.BuildStatus | mqtt_to_sqlite.py:158-182 | the status-building loop computes exactly the row `Status` specifies for the flattened snapshot |
| Row.StatusAppend | mqtt_to_sqlite.py:159-182 | the row of two runs of fields is the first run's row followed by the second's (encounter order) |
| Row.UnlistedAddsNothing | mqtt_to_sqlite.py:166 | a field whose topic is not whitelisted contributes nothing to the row, whatever its value |
| Row.StatusWidth | mqtt_to_sqlite.py:166-182 | the row is exactly as long as the columns of the accepted topics, in encounter order |
| Row.ColumnsCount | mqtt_to_sqlite.py:169-182 | the columns of whitelisted topics number one per topic, plus one per motor-load and two per distance topic |
| Row.WhitelistFillsSchema | mqtt_to_sqlite.py:99 | the whitelisted topics in declaration order feed exactly the eleven columns of the insert, in order |
| Row.FullSnapshotRow | mqtt_to_sqlite.py:158-184 | a flattened snapshot with each whitelisted topic exactly once, in any order, gives an 11-value row |
| Row.RowPlacement | mqtt_to_sqlite.py:159-182 | the t-th value a field contributes stands right after the values of the fields before it, at the position where the accepted topics' columns hold the t-th column of that field's topic |
| Row.WhitelistOrderRow | mqtt_to_sqlite.py:158-184 | when the whitelisted topics are met in whitelist order, each value stands at the position of the insert column its topic is meant for |
| Row.MissingTopicShortRow | mqtt_to_sqlite.py:158-184 | a flattened snapshot lacking some whitelisted topics and repeating none gives a row shorter than 11 |
| Row.ForeignRootEmptyRow | mqtt_to_sqlite.py:158-166 | under a slash-free root other than the hard-coded one, every row built is empty |
| Bridge.StatusTable.CreateStatus | mqtt_to_sqlite.py:91-102 | inserting an 11-value row appends exactly that row to the table |
| Bridge.Bridge.constructor | mqtt_to_sqlite.py:107-111 | the bridge starts disconnected with an empty, stale mailbox |
| Bridge.Bridge.OnMessage | mqtt_to_sqlite.py:52-59 | the payload overwrites the mailbox whatever it held, and the mailbox is marked fresh |
| Bridge.Bridge.OnConnect | mqtt_to_sqlite.py:37-45 | return code 0 sets the connected flag; any other code leaves it unchanged |
| Bridge.Bridge.OnDisconnect | mqtt_to_sqlite.py:47-50 | the connected flag becomes false; the mailbox is untouched |
| Bridge.Bridge.TryConnect | mqtt_to_sqlite.py:130-139 | a successful connect sets the flag; a refused one leaves it as it was |
| Bridge.Bridge.Consume | mqtt_to_sqlite.py:142-184 | a fresh non-empty payload is claimed and the flag cleared whether or not it decodes; at most one row, the claimed payload's, is inserted; nothing is inserted for a stale mailbox, a decode failure or an empty mapping |
| Bridge.Bridge.Step | mqtt_to_sqlite.py:129-187 | one loop pass: while disconnected it only attempts to connect, which succeeds unless refused, and inserts nothing; while connected it stays connected and consumes, storing the waiting payload's row exactly when the mailbox is fresh, non-empty and the payload gives a row; only a pass made while connected needs the waiting payload to be storable |
| Bridge.Bridge.Run | mqtt_to_sqlite.py:129-187 | over a sequence of deliveries, callbacks and loop passes: the final connection flag, freshness flag and mailbox are the ones the events determine (`ConnectedAt`, `PendingAt`, `MailboxAt`); each added row was stored by a pass that claimed the mailbox and is the row of the newest payload delivered before that pass (`LastDelivered`), or of the one waiting at the start; every claiming pass whose payload gives a row stores it; the payload indices strictly increase, so no payload is stored twice; the rows added never outnumber the deliveries plus the payload waiting at the start; only a payload some pass actually claims has to be storable |
| Bridge.Bridge.ClaimAsWritten | mqtt_to_sqlite.py:143-153 | a fresh non-empty payload is decoded, anything else yields no data; the flag is not touched |
| Bridge.Bridge.ClearFresh | mqtt_to_sqlite.py:154 | the freshness flag is cleared and nothing else changes |
| Bridge.LateDeliveryLostAsWritten | mqtt_to_sqlite.py:143-156 | with a delivery between lines 153 and 154, only the first payload's row is stored; the second stays in the mailbox and the next pass stores nothing |
| Bridge.LateDeliveryKept | mqtt_to_sqlite.py:143-156 | with the flag cleared together with the read, the same late delivery is stored by the next pass |
| Bridge.NewestWins | mqtt_to_sqlite.py:52-59 | two deliveries before one pass store only the second payload's row, and a further pass stores nothing |

## Left out

- The paho MQTT client is a foreign network library and is not modelled: `connect`, `subscribe`, `loop_start`, `loop_stop`, `disconnect`. The callbacks are plain methods. The outcome of a connect attempt is the parameter `refused`: either it succeeds or it raises `ConnectionRefusedError`.
- Any other connect failure (a timeout, an unreachable host, a name that does not resolve) is not modelled. Line 138 catches only `ConnectionRefusedError`, and line 189 catches only `KeyboardInterrupt`, so such an error ends the process without reaching the shutdown at lines 194-195.
- The `threading.Lock` is left out because it concerns concurrency. `OnMessage` and `Consume` are atomic steps, and `Bridge.Run` takes an interleaving as a sequence of events. `Consume` clears the freshness flag in the same step as the read. The source clears it only after releasing the lock (lines 153-154), so a delivery can land between the read and the clear. `Run` does not cover that window; it is shown separately under "## Findings".
- SQLite is foreign storage. `create_connection`, the cursor, `execute` and `commit` become appending to `StatusTable.rows`. A failed database open, and the undefined `Error` name in its handler, are not modelled.
- `json.loads` is the abstract `Parser` parameter, which returns the members of a top-level JSON object or nothing. A top-level JSON value that is not an object is not modelled; the source would crash on `.items()` or skip it when falsy.
- The UTF-8 decode of the payload is foreign: payloads are already text.
- `eval` on the list-valued leaves is not modelled. Such a leaf is already a list (`Items`), whether it arrived as a JSON array or as a string holding a list literal.
- Leaf text is abstract. Both `Scalar(text)` and `Items(text, elems)` carry Python's `str()` of the leaf as `text`, which is what a scalar topic stores. For a list this is the `repr` form, such as `['a', 'b']`. For a string that holds a list literal it is the string unchanged. The row's cells are texts, including the list elements the source stores as numbers.
- Row.Expand: requires the motor-load leaf to be a list of at least 2 elements and the distance leaf a list of at least 3. The source raises an exception there (`IndexError`, `TypeError`, or from `eval` on a leaf that is not a literal, such as a motor load of `"abc"`, `NameError` or `SyntaxError`) and the process stops. That crash is not modelled.
- Bridge.Bridge.Consume: requires (through `Ready`) that a claimed payload that decodes to a non-empty mapping be storable: expandable and giving 11 values. Otherwise SQLite rejects the insert and the process stops; that crash is not modelled. `Step` asks this only while connected, and `Run` only of the payloads its passes claim.
- Topics.SplitJoin: requires keys that hold no slash. The source does not escape a slash inside a key, so such a key gives a topic whose segments differ from the keys, and `Split` does not give the keys back.
- Command-line parsing (`parseCmdLn`) is left out as configuration. The root is the `Bridge.root` constant.
- `print` logging, the `time.sleep` back-off and poll interval, and `KeyboardInterrupt` shutdown are left out as I/O and timing.

## Findings

| source | as written | input that shows it | evidently intended | confidence | as-written member | corrected member |
|---|---|---|---|---|---|---|
| mqtt_to_sqlite.py:143-154 | `isNewMsg = False` runs after `Lock.release()`, outside the lock | payload A is delivered and the loop reads and decodes it; payload B is delivered between lines 153 and 154 | the flag is cleared while the lock is held, so B stays fresh and the next pass stores it | not executed | Bridge.LateDeliveryLostAsWritten | Bridge.LateDeliveryKept |
