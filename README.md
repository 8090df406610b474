# im: connection registry and message dispatch, modelled in Dafny

`im` is a small WebSocket instant-messaging broker in Go. It comes in two
versions.

- **v0** (`v0/im.go`): one process-wide manager holds a two-level map
  `users[userID].devices[device] -> connection`. Each connection has a read
  loop that stamps every decoded message with its device and user ID. One
  dispatcher writes every message to every registered connection except the
  one it came from.
- **v1** (`v1/im.go`): users are spread over `numPools` shards by a 32-bit
  FNV-1a hash of the user ID, taken modulo the pool count. Each shard holds a
  copy-on-write snapshot `userID+device -> connection`. The read loop sends
  each message to the shard of every receiver, in order, and then to the
  sender's own shard. Each shard's dispatcher writes the message to every
  connection in its snapshot except the originating key, until a write
  fails (see "## Findings").

This project models the sequential behaviour of both registries and the
rule that decides which connections receive a message.

Connections are opaque IDs (`Websocket.ConnId`). Every `Close()` is appended
to a ghost log (`Websocket.Transport.closed`), so the contracts can say
which connection was closed, how many times, and that nothing else was
closed. Websocket writes and channel sends are not effects here. They are
returned as sequences: the writes of a dispatcher (with the failed ones, or
in v1 a flag saying the run ended the process), the shard list from a read
step.

Files:

- `websocket.dfy`: connection IDs and the close log.
- `wire.dfy`: the `Message` record, Go's `int64` and bytes, and one JSON
  read as a payload whose fields may be absent.
- `fnv.dfy`: the UTF-8 bytes of a string and the FNV-1a 32-bit hash
  (offset basis 2166136261, prime 16777619; XOR each octet in, then
  multiply modulo 2^32), as defined in section 2 of the IETF draft
  draft-eastlake-fnv.
- `seqs.dfy`: sequences without repetitions and their multisets.
- `im_v0.dfy`: the v0 registry as a value (`ImV0.Joined`, `ImV0.Left`), the
  `User` and `WebsocketMgr` classes, and the dispatcher loop.
- `im_v1.dfy`: `hashIndex`, registry keys, snapshot updates, the
  `UserPool` class with its copy loops, its dispatcher as written and as
  evidently intended, its read step, and routing.
- `im_v1_mgr.dfy`: the v1 manager (pool creation, admission into the
  user's shard) and the end-to-end fan-out of one message over the shards,
  with its delivery counts.

### Where the code differs from what one might expect

- The shard hash is FNV-1a. It depends on the order of the bytes
  (`Fnv.OrderSensitive`), not only on which bytes occur.
- Routing does not deduplicate. A message is sent `|Receivers| + 1` times,
  even when several sends go to the same shard (`ImV1.SharedShardSentTwice`).
- A shard's dispatcher writes to every connection in its snapshot except
  `Sender+Device`. It ignores `Receivers`, so users that are not receivers
  but share a routed shard also get the message
  (`ImV1Mgr.ShardWideBroadcast`). A receiver in the sender's shard gets it
  at least twice (`ImV1Mgr.DuplicateDelivery`). These delivery facts are
  about `ImV1Mgr.FanOut`, the writes `Deliver` makes when no write fails.
- v0's dispatcher also ignores `Receivers`. It broadcasts to every device
  of every user except the originating one.
- `putMessageToPool` clears `At`, `Sender`, `MBytes` and `Receivers`. It
  keeps `Device`.
- v1 keys are the plain concatenation `userID+device`. So ("ab", "c") and
  ("a", "bc") share one slot when "ab" and "a" hash to the same shard, and
  then each can replace and close the other's connection
  (`ImV1.CollidingPairsShareSlot`). Whatever the pool count, the collision
  also hides a message: one from "a" on "bc" to receiver "ab" goes to the
  shard of "ab", whose dispatcher skips key "abc", so "ab" on "c" never gets
  it (`ImV1Mgr.CollidingReceiverSkipped`).
- A reconnect of the same user and device is undone by the old
  connection's cleanup. The join closes the old connection, so its read
  loop fails. Its deferred leave then removes by user and device, not by
  connection, so it closes the new connection and unregisters the pair
  (`ImV0.StaleCleanupAfterReconnect`, `ImV1.StaleCleanupAfterReconnect`).
- In v1 a failed websocket write ends the whole process. `wsMgr.log` is
  never set (v1/im.go:42-47), so the `Error` call at v1/im.go:160 runs on a
  nil `*slog.Logger` and panics in a dispatcher goroutine, where nothing
  recovers it (`ImV1.UserPool.MessageDispatcher`,
  `ImV1Mgr.WebsocketMgr.Deliver`, and "## Findings").
- When a v0 device leaves and its user has no device left, the manager
  deletes whatever record is then stored under that user ID. That record
  may not be the one the read loop belonged to. `ImV0.User.DeviceLeft`
  states both cases.

## Model

| member | source | states |
|---|---|---|
| Websocket.Transport.Close | v0/im.go:77-79 | closing a connection appends exactly that connection to the close log |
| Wire.Message.constructor | v0/im.go:48 | the pool's `New` yields a zero-valued message: `At` 0, empty strings, no payload, no receivers |
| Wire.Message.Decode | v0/im.go:110 | `ReadJSON` into a reused message overwrites exactly the fields present in the JSON object and leaves the others as they were |
| Fnv.EncodeRune | v1/im.go:83 | a character becomes 1 to 4 UTF-8 bytes, the length fixed by its value range; an ASCII character is its own byte; longer encodings start with the 110xxxxx, 1110xxxx or 11110xxx marker and continue with 10xxxxxx bytes |
| Fnv.Utf8 | v1/im.go:83 | `[]byte(id)` has at least one and at most four bytes per character |
| Fnv.Utf8Ascii | v1/im.go:83 | an ASCII string's bytes are its characters, one for one |
| Fnv.Utf8Append | v1/im.go:83 | the bytes of a concatenation are the concatenation of the bytes |
| Fnv.Round | v1/im.go:83 | the lowest bit of a round's result is the lowest bit of the state XOR the octet, because the FNV prime is odd |
| Fnv.Sum32 | v1/im.go:82-84 | `New32a`, `Write` and `Sum32`, with `Write`'s loop over the octets, compute `Fnv1a32` of the data |
| Fnv.FoldSnoc | v1/im.go:82-84 | hashing one more octet is one more XOR-then-multiply round applied to the previous state |
| Fnv.FoldAppend | v1/im.go:82-84 | writing the bytes in two pieces gives the same hash state as writing them at once |
| Fnv.TestVectors | v1/im.go:82-84 | the fold yields the published FNV-1a 32-bit values for "" (0x811c9dc5) and "a" (0xe40c292c) |
| Fnv.OrderSensitive | v1/im.go:82-84 | the hash of "ab" differs from the hash of "ba" |
| ImV0.Joined | v0/im.go:124-133 | after a join of (u, d, c), u is registered with c under d; u's other devices and every other user are unchanged; an unknown u gets a record holding only d |
| ImV0.Displaced | v0/im.go:77-79 | a join or leave closes at most one connection: the one registered for (u, d), exactly when there is one |
| ImV0.Left | v0/im.go:86-98 | after a leave of (u, d), a remaining record of u lacks d and is not empty; every other user is kept |
| ImV0.LeftSpec | v0/im.go:86-98 | a leave removes only device d of u; u's record is deleted exactly when d was its last device; every other user is unchanged |
| ImV0.JoinedWellFormed | v0/im.go:124-133 | a join never leaves a user record without devices |
| ImV0.LeftWellFormed | v0/im.go:96-98 | a leave never leaves a user record without devices |
| ImV0.JoinThenLeave | v0/im.go:86-98 | a join followed by a leave of a previously unregistered pair restores the registry, including deleting a record the join created |
| ImV0.JoinTwice | v0/im.go:77-80 | a second join of the same pair keeps only the second connection, and closes exactly the first |
| ImV0.ReconnectTargetsNewConnection | v0/im.go:162-170 | right after a reconnect, messages from other devices reach the new connection and never the replaced one |
| ImV0.StaleCleanupAfterReconnect | v0/im.go:102-105 | after a reconnect, the replaced connection's cleanup closes the new connection and unregisters the pair, leaving the registry as after a plain leave, with neither connection reachable |
| ImV0.LeaveAfterJoin | v0/im.go:86-98 | a leave of (u, d) after a join of (u, d) gives the registry the leave alone would give |
| ImV0.LeftDeviceNotTargeted | v0/im.go:162-170 | after a device leaves, the dispatcher never writes to it; the user's other devices, except the originating one, are still written |
| ImV0.EchoSuppression | v0/im.go:164-166 | the originating device is never written; every other registered device of every user is, whatever `Receivers` says |
| ImV0.ScenarioTwoUsers | v0/im.go:162-170 | u1 on web and mobile and u2 on web: a message from u1/web reaches u2/web and u1/mobile, not u1/web |
| ImV0.User.constructor | v0/im.go:127 | a new user record has the given ID and no devices |
| ImV0.User.DeviceJoin | v0/im.go:73-80 | the device now maps to the new connection and the other devices are kept; the old connection of the device, if any, is closed once, and nothing else is closed |
| ImV0.User.DeviceLeft | v0/im.go:86-98 | the device is removed and its connection, if any, closed once; when no device is left the user ID is deleted from the manager; the registry changes as `Left` when this record is the registered one; a registry without empty records stays so |
| ImV0.RegistryAfterDeviceLeft | v0/im.go:86-98 | the registry after deviceLeft is `Left` of the one before when the record was registered; otherwise it differs only by the deleted ID |
| ImV0.RegistryAfterJoin | v0/im.go:124-133 | the registry after userDeviceJoin is `Joined` of the one before |
| ImV0.User.ReadStep | v0/im.go:102-120 | a failed read runs deviceLeft and forwards nothing: the device is removed and closed, the user ID goes when no device is left, and the registry becomes `Left`, keeping a registry without empty records so; a successful one decodes, stamps `Device` and `Sender` with the registered device and user ID, and forwards the message |
| ImV0.WebsocketMgr.constructor | v0/im.go:43-49 | the manager starts with no users |
| ImV0.WebsocketMgr.UserDeviceJoin | v0/im.go:124-133 | a record is created only for an unknown user ID and an existing one is kept; only that record and the users map change; the registry becomes `Joined`, and a registry without empty records stays so; exactly the displaced connection is closed |
| ImV0.WebsocketMgr.UserLeft | v0/im.go:137-141 | the user ID is deleted and nothing else changes; every record stays under its own ID |
| ImV0.WebsocketMgr.PutMessageToPool | v0/im.go:149-155 | `At` becomes 0, `Sender` empty, `MBytes` and `Receivers` nil; `Device` is kept |
| ImV0.WebsocketMgr.MessageDispatcher | v0/im.go:158-171 | the writes are exactly the registered connections other than the sender's originating device, each once; failed writes are dropped and the walk goes on |
| ImV1.HashIndex | v1/im.go:81-85 | the shard index is below the pool count for every ID |
| ImV1.HashIndexOfBytes | v1/im.go:81-85 | the index depends only on the UTF-8 bytes of the ID, and hashing a longer ID continues the fold of its prefix |
| ImV1.HashIndexEdges | v1/im.go:81-85 | with one pool every ID maps to shard 0; the empty ID maps to 2166136261 modulo the pool count |
| ImV1.Key | v1/im.go:92 | the registry key is the user ID followed by the device |
| ImV1.KeyCollision | v1/im.go:92-99 | ("ab", "c") and ("a", "bc") have the same key |
| ImV1.Left | v1/im.go:130-144 | the stored snapshot lacks the key and keeps every other key |
| ImV1.Joined | v1/im.go:87-101 | the stored snapshot maps the key to the new connection and keeps every other key |
| ImV1.Displaced | v1/im.go:91-95 | the copy loop closes at most one connection: the one stored under the key, exactly when there is one |
| ImV1.LeftIsRemoval | v1/im.go:133-143 | the leave snapshot equals the old map minus the key, with every other value kept |
| ImV1.JoinIsUpdate | v1/im.go:90-101 | the join snapshot equals the old map updated at the key, with every other value kept |
| ImV1.JoinThenLeave | v1/im.go:87-144 | a join then a leave of a previously free key restores the snapshot |
| ImV1.JoinTwice | v1/im.go:87-101 | a second join of a key keeps only the second connection and closes exactly the first |
| ImV1.LeaveTwice | v1/im.go:130-144 | a second leave changes nothing and closes nothing |
| ImV1.StaleCleanupAfterReconnect | v1/im.go:106-109 | after a reconnect, the replaced connection's cleanup closes the new connection and removes the key, leaving the snapshot as after a plain leave |
| ImV1.CollidingPairsShareSlot | v1/im.go:92-99 | within one pool's snapshot, which both users share when "ab" and "a" hash to the same shard, user "a" joining from "bc" closes and replaces user "ab"'s connection on "c", and "a"/"bc" leaving removes it |
| ImV1.TargetsAreLeft | v1/im.go:154-162 | a shard's writes are its snapshot without the originating key: every other connection of the shard, never the originating one |
| ImV1.Routes | v1/im.go:122-126 | there are `len(Receivers)+1` sends, each to a valid shard |
| ImV1.RoutesInOrder | v1/im.go:122-126 | send i goes to receiver i's shard; the last send goes to the sender's shard |
| ImV1.SharedShardSentTwice | v1/im.go:122-126 | a receiver hashed to the sender's shard makes that shard receive the message at least twice |
| ImV1.Route | v1/im.go:122-126 | the sends of handleConnection are exactly `Routes`, in order |
| ImV1.UserPool.constructor | v1/im.go:55-57 | a new pool stores an empty map |
| ImV1.UserPool.UserDeviceJoin | v1/im.go:87-101 | the stored snapshot becomes `Joined`; exactly the displaced connection is closed |
| ImV1.UserPool.UserDeviceLeft | v1/im.go:130-144 | the stored snapshot becomes `Left`; exactly the displaced connection is closed |
| ImV1.UserPool.CopyWithout | v1/im.go:133-141 | the copy holds every entry of the loaded map except the key, in any walk order; only the key's connection is closed, once |
| ImV1.UserPool.MessageDispatcher | v1/im.go:150-162 | the writes are distinct targets of the shard; the run ends the process exactly when some target's write fails, and then the failed write is the last one and the only failed one; otherwise every target is written once |
| ImV1.CrashSkipsTargets | v1/im.go:155-161 | when two targets' writes would fail, a run of the dispatcher as written never writes both, whatever the map order |
| ImV1.UserPool.LoggingDispatcher | v1/im.go:150-162 | with a working logger, the writes are exactly the shard's targets, each once, and the failed ones are those to broken connections |
| ImV1.UserPool.ReadStep | v1/im.go:106-127 | a failed read runs userDeviceLeft and sends nothing; a successful one decodes, stamps `Device` and `Sender`, and sends to `Routes` of the stamped message |
| ImV1Mgr.DeliveryCount | v1/im.go:122-162 | in `FanOut` (the writes `Deliver` makes when no write fails), each target connection of shard p gets the message exactly as often as p was sent it; other connections get none |
| ImV1Mgr.ReceiverReached | v1/im.go:122-123 | in `FanOut`, a receiver's device registered in its user's shard gets the message at least once, unless its key equals Sender+Device |
| ImV1Mgr.SenderDevicesSynced | v1/im.go:126 | in `FanOut`, the sender's other devices get the message at least once; the originating device gets it never |
| ImV1Mgr.ShardWideBroadcast | v1/im.go:154-162 | in `FanOut`, every connection of a routed shard, other than the originating key, gets the message, receiver or not |
| ImV1Mgr.DuplicateDelivery | v1/im.go:122-126 | in `FanOut`, when a receiver shares the sender's shard, every target there gets the message at least twice |
| ImV1Mgr.CollidingReceiverSkipped | v1/im.go:154-158 | for any pool count, a message from "a" on device "bc" to receiver "ab" is never written to "ab" on device "c" in the shard of "ab": its key is the skipped Sender+Device |
| ImV1Mgr.EchoSuppressed | v1/im.go:156-158 | no shard ever writes to the originating key |
| ImV1Mgr.WebsocketMgr.constructor | v1/im.go:50-61 | there are exactly `numPools` distinct pools, each with an empty snapshot |
| ImV1Mgr.WebsocketMgr.Admit | v1/im.go:72-77 | a connection joins the pool its user ID hashes to, whose snapshot becomes `Joined`; every other pool is unchanged |
| ImV1Mgr.AnyBrokenSpec | v1/im.go:159-160 | the run over the routed shards meets a failing write exactly when one of those shards holds a target whose write fails |
| ImV1Mgr.WebsocketMgr.Deliver | v1/im.go:150-162 | the writes are never more than `FanOut`; the process ends exactly when a routed shard holds a failing target, and then the failed write is the last and only failed one; otherwise the writes are exactly `FanOut`, with their multiplicities |
| ImV1Mgr.WebsocketMgr.DeliverLogged | v1/im.go:150-162 | with a working logger, the routed shards' dispatchers make exactly the writes of `FanOut`, whichever connections are broken |

## Left out

- Transport: the HTTP upgrade in `HandleWebSocket`, the deferred `conn.Close()` after the handler returns, and gorilla/websocket itself. A connection is an opaque ID, and `Close` only appends to the log.
- JSON: `ReadJSON` is a parameter that either fails or yields the fields present in the object; `WriteJSON` is a returned write record, with a given set of broken connections whose writes fail. Encoding details, and JSON `null` clearing a field, are not modelled.
- Logging: in v0 the `slog` calls only log. In v1 they run on a nil logger and panic. In the dispatcher that ends the process (modelled as `crashed`). On the read path (v1/im.go:115) the deferred `userDeviceLeft` still runs and the HTTP server recovers the handler's goroutine, so `ImV1.UserPool.ReadStep` has the right state. The upgrade failure at v1/im.go:67 is not modelled.
- Concurrency: goroutines, channels, `select` on `done`, and `Quit`. In v0 `done` is never created, so `Quit` would close a nil channel. The model runs one step at a time, and a send to a shard is handled by that shard's dispatcher against the snapshot current at the time.
- Locking: the `RWMutex` fields, including the read locks taken around writes in v0, are not modelled. So are the data races they permit.
- `atomic.Value`: the load and store of a pool's snapshot are a plain read and assignment of `UserPool.users`.
- `sync.Pool`: its free list is not modelled. `getMessageFromPool` therefore always yields a fresh zero message (`Wire.Message.constructor`). v0's `putMessageToPool` is modelled even though nothing calls it, and v1 has no reset.
- Runtime sizing: `2 * runtime.NumCPU()` is the parameter `numPools`.
- ImV1.HashIndex: requires `0 < numPools < 2^32`, so `uint32(numPools)` never truncates (a zero count would make Go divide by zero).
- Blocking join: `deviceJoin`/`userDeviceJoin` run the read loop before they return. The model splits this into the join step and one read-loop iteration (`ReadStep`), which the caller repeats. The loop ends after the first failed read.
- Strings: Dafny strings hold Unicode scalar values. A Go string holding invalid UTF-8 has no counterpart here, and `Fnv.Utf8` encodes well-formed text only.
- Timestamps: `At` is never stamped by the broker. It keeps whatever the client sent, which is the source's own behaviour.
- The example server (`exmaple/server.go`) only registers routes and starts listening, so it is not part of this model.
- ImV1Mgr.WebsocketMgr.Deliver: after a crash the model stops; what the other goroutines were doing at that moment is not modelled.

## Findings

| source | as written | input that shows it | evidently intended | confidence | as-written member | corrected member |
|---|---|---|---|---|---|---|
| v1/im.go:42-47, 159-160 | `wsMgr.log` is never set, so a failed `WriteJSON` calls `Error` on a nil `*slog.Logger`; the panic is not recovered in the dispatcher goroutine and ends the process, and no later write is made in any shard | a message routed to a shard whose snapshot holds a target, other than the originating key, whose connection fails to write | log the failure and go on writing, as v0 does with `slog.Default()` (v0/im.go:44) | high; not executed | ImV1.UserPool.MessageDispatcher, ImV1.CrashSkipsTargets, ImV1Mgr.WebsocketMgr.Deliver | ImV1.UserPool.LoggingDispatcher, ImV1Mgr.WebsocketMgr.DeliverLogged |
