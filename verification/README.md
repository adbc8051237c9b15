# ToyDistributedKeyValue — a Dafny model of the replicated key-value layer

ToyDistributedKeyValue is a small Go key-value store replicated with Raft. Each node keeps
its data in RocksDB and runs a hashicorp/raft engine, and a fiber HTTP server answers
`POST /key`, `GET /key/:key` and `GET /healthcheck`. The repository's own logic is a thin
set of deterministic decisions on top of those libraries. This project models those
decisions as pure Dafny functions and proves what they promise:

- **Store** (`KVStore`): the RocksDB store as an immutable `map<string, string>`. Whether
  each RocksDB call succeeds is an input (`Disk`). `Get` returns the Go pair
  `(value, error)` and tells an absent key (`"key not found"`) apart from a stored empty
  value. `Get` returns no store, so a read cannot change the store.
- **FSM** (`StateMachine`): a `Command` is decoded from a log entry's data, and only when
  its operation is exactly `SET` does the FSM write one key. The JSON codec is an abstract
  `Codec`, a pair of functions. The only assumption made about it is `Faithful`: unmarshal
  undoes marshal. `FormCodec` is a concrete codec proved `Faithful`, so the assumption can
  be met. Replaying a log is the fold of `Apply`. It is proved equal to a reference
  definition (each key holds the value of the last entry that wrote it). From that follow
  idempotent replay and determinism: the result depends only on the writes the log
  performs.
- **Node wiring** (`Node`): what `NewRaftNode` decides. That is whether to bootstrap, which
  servers go in the bootstrap configuration (self first, then the peers), which
  `AddVoter` calls are made, and how each failing step ends construction. `ProposeSet`
  only ever submits a `SET` command. Every call into Raft or BoltDB is an input
  (`Environment`, `raftReply`).
- **Handlers** (`Handlers`): `SetKeyValue`, `GetKeyValue` and `HealthCheck` as decision
  tables. Their inputs are the node's role, the leader address, and the replies of the
  proposal, the forwarded POST and the store. The forwarding target is modelled exactly:
  the leader's host name, the configured API port, and the key and value escaped by
  `url.QueryEscape`. That escaping (`Form`, over `Utf8`) is proved to decode back to the
  client's key and value.

Where the code's behaviour is easy to misread, the model follows the code:

- a failed proposal on the leader answers 500, not 503;
- a failed forward answers 500, not 503;
- a forwarded write answers with status 200 and the leader's body, whatever status the
  leader answered with;
- a read of an absent key answers 500 (see Findings).

## Model

| member | source | states |
|---|---|---|
| `Errors.WrapInjective` | raft/raft.go:76 | an error wrapped by `fmt.Errorf` with a fixed prefix is never the store's "key not found", its text starts with the prefix, and two wrapped errors are equal iff the wrapped errors' texts are equal, so the wrapped text determines the original message |
| `KVStore.Set` | kvstore/store.go:38-43 | a successful Put binds the key to the value, returns nil and leaves every other key as it was; a failed Put changes nothing and returns RocksDB's error |
| `KVStore.Get` | kvstore/store.go:46-59 | errors always come with `""`; a read error is returned as is; on a working disk there is no error exactly when the key is present, the stored value comes back, and an absent key gives "key not found" |
| `KVStore.SetThenGet` | kvstore/store.go:38-59 | after `Set(k, v)`, `Get(k)` returns `(v, nil)` |
| `KVStore.SetLeavesOtherKeys` | kvstore/store.go:42 | `Set(k, v)` leaves the `Get` result of every other key unchanged, whether or not the Put succeeds |
| `KVStore.LastWriteWins` | kvstore/store.go:42 | after `Set(k, v1); Set(k, v2)`, `Get(k)` returns `v2` |
| `KVStore.SetIdempotent` | kvstore/store.go:42 | `Set(k, v)` twice gives the same store and result as once |
| `KVStore.EmptyValueIsNotAbsent` | kvstore/store.go:54-59 | a key stored with `""` reads `("", nil)`, an absent key reads `("", key not found)`, and the two differ |
| `StateMachine.StoreOfNewFSM` | kvstore/fsm.go:38-58 | `Store()` returns exactly the store given to `NewFSM` |
| `StateMachine.Apply` | kvstore/fsm.go:43-54 | undecodable data returns the decode error and changes nothing; an operation other than exactly `SET` returns nil and changes nothing; a `SET` returns the Put's result, binds its key to its value and leaves all other keys alone |
| `StateMachine.ApplyIdempotent` | kvstore/fsm.go:50-51 | applying the same entry twice leaves the same store as applying it once |
| `StateMachine.ReplayIsLastWrite` | kvstore/fsm.go:43-54 | after replaying a log, each key holds the value of the last entry that wrote it, or its initial value if none did |
| `StateMachine.ReplayTwice` | kvstore/fsm.go:43-54 | replaying a log again on the state it produced changes nothing |
| `StateMachine.ReplayAppend` | kvstore/fsm.go:43-54 | replaying `log1 + log2` equals replaying `log1` and then `log2` |
| `StateMachine.ReplayIsWrites` | kvstore/fsm.go:43-54 | the replayed store is the initial store updated by the log's successful `SET` writes in order; other entries leave no trace |
| `StateMachine.ReplayDeterministic` | kvstore/fsm.go:43-54 | two logs that perform the same writes, replayed from the same store, give the same store |
| `FormCodec.FormCommandCodecFaithful` | kvstore/fsm.go:15-21 | a concrete codec exists for which unmarshal recovers the operation, key and value of every marshalled command |
| `Node.PeerServers` | raft/raft.go:65-70 | one server per peer, in input order, with ID = Address = the peer string |
| `Node.BootstrapServers` | raft/raft.go:57-70 | the bootstrap configuration has one server more than there are peers: `(nodeID, addr)` first, then each peer in order |
| `Node.AddVoterRequests` | raft/raft.go:82-87 | exactly one `AddVoter` request to the node's own Raft per peer, in order, with ID = Address = the peer |
| `Node.Membership` | raft/raft.go:51-89 | once the configuration is read: bootstrap iff it is empty and `bootstrapCluster` is set, with self first then the peers; a failed bootstrap returns the wrapped error with no node; otherwise a node is built after exactly the bootstrap request (if any) followed by one `AddVoter` per peer on its own Raft (if not bootstrapping); never an `AddVoter` when bootstrapping |
| `Node.NewRaftNode` | raft/raft.go:21-90 | a failing log store, transport (wrapped) or `raft.NewRaft` returns that error with no node and no request issued; a configuration error ends the process; bootstrap is attempted iff the configuration is empty and `bootstrapCluster` is set, and the only bootstrap configuration ever requested is self then the peers; a failed bootstrap returns the wrapped error and no node; in every other case a node is built after exactly the bootstrap request (if any) followed by one `AddVoter` per peer (if not bootstrapping); the node's store is the FSM's store |
| `Node.VoterRepliesIgnored` | raft/raft.go:85 | the outcome of `AddVoter` does not influence the result |
| `Node.NoDoubleBootstrap` | raft/raft.go:52-54 | a node whose configuration already has servers never bootstraps |
| `Node.ProposeSet` | raft/raft.go:93-104 | a marshal failure returns that error and submits nothing; otherwise the encoded command is submitted and Raft's reply returned; with a faithful codec the submitted data decodes to `SET` with the given key and value |
| `Node.ProposedEntryWritesKey` | raft/raft.go:94-98 | the entry `ProposeSet` submits, when applied by an FSM, writes the value under the key on a working disk and touches no other key |
| `Form.QueryEscape` | handlers/handlers.go:113-114 | `url.QueryEscape` output contains only unreserved characters, `+` and `%`, so never `&`, `=` or a space |
| `Form.QueryRoundTrip` | handlers/handlers.go:113-114 | unescaping a `url.QueryEscape` result gives the original string back |
| `Form.FormRoundTrip` | handlers/handlers.go:112-114 | decoding the `&`-joined, escaped `name=value` pairs gives the pairs back in order |
| `Text.Split` | handlers/handlers.go:111 | `strings.Split` gives at least one piece, no piece contains the separator, the pieces joined by it give the input, and there is one piece iff the separator is absent |
| `Handlers.LeaderHostname` | handlers/handlers.go:111 | the host name is the prefix of the leader address up to the first `:`, or the whole address if it has none, and contains no `:` |
| `Handlers.ForwardQueryIsForm` | handlers/handlers.go:112-114 | the formatted query `key=…&value=…` is the form encoding of the pairs `key` and `value` |
| `Form.FormEncodeIsFormText` | handlers/handlers.go:112-114 | a form query is written only in unreserved characters, `+`, `%`, `=` and `&`, so it holds no `#`, space or `?` a URL parser would stop at |
| `Handlers.ForwardTarget` | handlers/handlers.go:106-114 | the forward goes to the leader's host name with the configured API port and path `/key`; its query is exactly the form encoding of the escaped key and value, holds no `#` or space, and decodes to exactly the client's key and value; so the target is one whose parts the URL keeps apart |
| `Text.DecimalRoundTrip` | handlers/handlers.go:112 | the `%d` rendering of the port reads back as the same number |
| `Handlers.UrlRoundTrip` | handlers/handlers.go:112-114 | the URL handed to `http.Post` determines the host, port, path and query it was formatted from, whenever the host has no `:`, the path is non-empty, has no `?` and does not start with a digit, and the query has no `#` |
| `Handlers.SetKeyValue` | handlers/handlers.go:30-69 | 400 iff key or value is empty; 503 iff a follower knows no leader; no call in those cases; at most one call; a proposal iff leader, always of the client's key and value; a follower with a known leader forwards once, answering 500 on failure and 200 with the leader's body verbatim on success; the leader answers 500 on a proposal error and otherwise 200 with the JSON message "Key-value pair set successfully" |
| `Handlers.ForwardedWriteIsSameWrite` | handlers/handlers.go:53-57 | a follower's forward carries the client's key and value, and the leader given them proposes exactly that write |
| `Handlers.GetKeyValue` | handlers/handlers.go:72-89 | 500 iff the store returned an error; 404 iff it returned `""` without error; otherwise 200 with key and value |
| `Handlers.AbsentKeyAnswers500` | handlers/handlers.go:76-79 | as written, an absent key answers 500 "Failed to get value: key not found" |
| `Handlers.NotFoundUnreachable` | handlers/handlers.go:80-82 | as written, no store whose values are all non-empty ever answers 404 |
| `Handlers.AcceptedWriteKeepsValuesNonEmpty` | handlers/handlers.go:36-40 | applying the entry of a write the handler accepts (non-empty value) to a store whose values are all non-empty, on any disk, leaves every value non-empty: each accepted write keeps every value non-empty |
| `Handlers.AcceptedLogKeepsValuesNonEmpty` | handlers/handlers.go:36-40 | replaying the log of the entries the leader's proposals submit for any sequence of accepted writes, on any disks, from a store whose values are all non-empty, leaves every value non-empty; so stores built from accepted writes never answer 404 |
| `Handlers.GetKeyValueIntended` | handlers/handlers.go:76-88 | intended read mapping: 404 iff the key is not found, 500 iff another store error, 200 with key and value otherwise |
| `Handlers.IntendedReadMatchesStore` | handlers/handlers.go:76-88 | with the intended mapping, a read on a working disk answers 404 exactly for absent keys, 200 with the stored value otherwise, and a disk fault answers 500 |
| `Handlers.ReadAfterWrite` | handlers/handlers.go:58-68 | once the entry the leader's `ProposeSet(key, value)` submitted is applied, the corrected read `ReadKey` of the key answers 200 with that value |
| `Handlers.ReadAfterWriteAsWritten` | handlers/handlers.go:58-88 | with the handler as written, once the entry of an accepted write (non-empty value) is applied on a healthy disk, `GET` of the key answers 200 with that value |
| `Handlers.HealthCheck` | handlers/handlers.go:91-103 | 500 iff the node is not installed, 200 iff it is |
| `Handlers.InitRaftNode` | handlers/handlers.go:19-27 | when `NewRaftNode` fails, no node is installed and its error is returned wrapped as "failed to initialize Raft: …"; when it builds a node, exactly that node is installed and nil returned; when it ends the process, so does initialization; a node is installed iff no error is returned, and its store is the FSM's |
| `Handlers.HealthReflectsInit` | handlers/handlers.go:91-103 | after `InitRaftNode`, the health check answers 200 exactly when `NewRaftNode` built a node, which is exactly when initialization returned nil |

## Findings

| source | as written | input that shows it | evidently intended | confidence | as-written member | corrected member |
|---|---|---|---|---|---|---|
| handlers/handlers.go:76-82 | any error from `Store.Get` answers 500, and `Get` reports an absent key as the error "key not found"; 404 is answered only for a stored empty value, which `SetKeyValue` never lets a client write | `GET /key/missing` on a store without `missing` answers 500 "Failed to get value: key not found" | an absent key answers 404 "Key not found"; only storage faults answer 500 | medium; not executed | `Handlers.AbsentKeyAnswers500` | `Handlers.GetKeyValueIntended` |

`Handlers.GetKeyValue` keeps the code as written. `Handlers.NotFoundUnreachable` and
`Handlers.AcceptedLogKeepsValuesNonEmpty` together show that its 404 branch cannot be
reached through the HTTP API from a store that starts with no empty value. `Handlers.ReadAfterWriteAsWritten` shows that reads of
written keys are unaffected by the defect. `Handlers.ReadKey`, the read used
by `Handlers.ReadAfterWrite`, uses the corrected mapping. `Handlers.IntendedReadMatchesStore`
proves the corrected mapping answers 404 exactly for absent keys.

## Left out

- Leader election, log replication, quorum commit and terms. They live inside
  hashicorp/raft. `State()`, `LeaderWithID()`, `Apply(...).Error()`, `BootstrapCluster`,
  `GetConfiguration` and `AddVoter` appear only as input values.
- `FSM.Snapshot` and `FSM.Restore`. They are `panic("implement me")` stubs with no behaviour.
- `NewKVStore` and `CloseDB` (RocksDB options, open and close). These are foreign I/O.
  When the open fails, the source logs it and still returns a store with no database and a
  nil error. That path is not modelled.
- The BoltDB log store, the TCP transport and the in-memory snapshot store. Only whether
  each was created is an input.
- JSON encoding internals. The codec is abstract, and the concrete `FormCodec` is a
  stand-in that shows the round-trip assumption can be met. It is not encoding/json's
  format.
- fiber request and response plumbing, `http.Post` and `io.ReadAll`. Only their outcome
  is an input: the forwarded reply is one `Result` covering both calls.
- `log.Println`/`log.Printf` output, and `main.go`: environment variables, `MkdirAll`,
  route registration and `Listen`.
- Concurrency, the package-level `raftNode` variable (modelled as the installed
  `Option<RaftNode>`), and the 10-second Raft timeout, which is wall-clock behaviour.
- `StateMachine.StoreOfNewFSM`: states that the store value round-trips. In the source,
  `Apply` also mutates the same `*KVStore` the FSM was built with; that pointer identity
  cannot be stated for values.
- `KVStore.Set`: assumes a failed RocksDB Put leaves the data unchanged. That guarantee
  comes from RocksDB, not from this code.
- `Node.NewRaftNode`: `log.Fatalf` on a configuration error is the outcome `Exited`; the
  process exit itself is not modelled.
- `Handlers.ForwardTarget`: `config.HttpApiPort` is a natural-number parameter, because
  the `config` package is not part of this model.
- Strings that are not valid UTF-8. Keys, values and every other string are Dafny strings,
  sequences of Unicode scalar values, whereas a Go string is any byte sequence. A key
  posted as `%FF` is such a string and is outside the model; `Form.QueryRoundTrip` and
  `Handlers.ForwardTarget` hold for valid UTF-8 text only.
- `Form.QueryRoundTrip`: the unescaper is a reference decoder that refuses non-ASCII
  characters in escaped text, which `url.QueryEscape` never produces. It is not Go's
  `url.QueryUnescape`.
