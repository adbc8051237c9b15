/** The Raft finite-state machine of `kvstore/fsm.go`: a `Command` decoded
    from a log entry's data and, when it is a `SET`, written to the store.
    Replaying the committed log is the fold of `Apply` over its entries. */
module StateMachine {
  import opened Wrappers
  import opened Errors
  import opened KVStore
  import opened Utf8

  /** The one operation the FSM acts on; the comparison is case-sensitive. */
  const SetOperation: string := "SET"

  datatype Command = Command(operation: string, key: string, value: string)

  /** `Command.Marshal` / `Command.Unmarshal` (encoding/json), kept abstract:
      any pair of functions of these types. */
  datatype Codec = Codec(marshal: Command -> Result<Bytes, Error>, unmarshal: Bytes -> Result<Command, Error>)

  /** What the model assumes of the JSON codec: whatever `Marshal` produces,
      `Unmarshal` turns back into the same command. */
  ghost predicate Faithful(codec: Codec)
  {
    forall c :: codec.marshal(c).Success? ==> codec.unmarshal(codec.marshal(c).value) == Success(c)
  }

  /** The FSM holds the store it was built with. */
  datatype FSM = FSM(store: Store)

  /** `NewFSM`. */
  function NewFSM(store: Store): FSM
  {
    FSM(store)
  }

  /** `FSM.Store()`. */
  function StoreOf(fsm: FSM): Store
  {
    fsm.store
  }

  /** `Store()` hands back exactly the store `NewFSM` was given. */
  lemma StoreOfNewFSM(store: Store)
    ensures StoreOf(NewFSM(store)) == store
  {
  }

  /** The FSM after an entry and the value `Apply` returns (`nil` is `Pass`). */
  datatype Applied = Applied(fsm: FSM, result: Outcome<Error>)

  /** The write an entry performs on the store: its key and value when it
      decodes to a `SET` command and the disk takes the Put, otherwise none. */
  function Effect(codec: Codec, data: Bytes, disk: Disk): Option<(string, string)>
  {
    match codec.unmarshal(data)
    case Failure(_) => None
    case Success(cmd) => if cmd.operation == SetOperation && disk.Healthy? then Some((cmd.key, cmd.value)) else None
  }

  /** `Apply`: undecodable data returns the decode error and changes nothing;
      a command whose operation is not exactly `SET` changes nothing and
      returns nil; a `SET` writes its key and returns the store's error. */
  function Apply(fsm: FSM, codec: Codec, data: Bytes, disk: Disk): (r: Applied)
    ensures codec.unmarshal(data).Failure? ==> r == Applied(fsm, Fail(codec.unmarshal(data).error))
    ensures codec.unmarshal(data).Success? && codec.unmarshal(data).value.operation != SetOperation ==>
      r == Applied(fsm, Pass)
    ensures codec.unmarshal(data).Success? && codec.unmarshal(data).value.operation == SetOperation ==>
      r.result == (if disk.Healthy? then Pass else Fail(Opaque(disk.reason)))
    ensures Effect(codec, data, disk).None? ==> r.fsm == fsm
    ensures Effect(codec, data, disk).Some? ==>
      var (key, value) := Effect(codec, data, disk).value;
      && Find(r.fsm.store, key) == Some(value)
      && forall k :: k != key ==> Find(r.fsm.store, k) == Find(fsm.store, k)
  {
    match codec.unmarshal(data)
    case Failure(e) => Applied(fsm, Fail(e))
    case Success(cmd) =>
      if cmd.operation == SetOperation then
        var step := Set(fsm.store, cmd.key, cmd.value, disk);
        Applied(FSM(step.store), step.result)
      else
        Applied(fsm, Pass)
  }

  /** Applying the same entry a second time leaves the store as one application did. */
  lemma ApplyIdempotent(fsm: FSM, codec: Codec, data: Bytes, disk: Disk)
    ensures Apply(Apply(fsm, codec, data, disk).fsm, codec, data, disk).fsm == Apply(fsm, codec, data, disk).fsm
  {
  }

  /** A committed log entry as the FSM receives it, with the behaviour of the
      disk at the moment it is applied. */
  datatype Delivery = Delivery(data: Bytes, disk: Disk)

  /** Applying a log, entry by entry in log order. */
  function Replay(fsm: FSM, codec: Codec, log: seq<Delivery>): FSM
  {
    if |log| == 0 then fsm
    else
      var last := log[|log| - 1];
      Apply(Replay(fsm, codec, log[..|log| - 1]), codec, last.data, last.disk).fsm
  }

  /** Reference definition: the value of the last entry of `log` that wrote `key`. */
  function LastWrite(codec: Codec, log: seq<Delivery>, key: string): Option<string>
  {
    if |log| == 0 then None
    else
      var last := log[|log| - 1];
      match Effect(codec, last.data, last.disk)
      case Some((k, v)) => if k == key then Some(v) else LastWrite(codec, log[..|log| - 1], key)
      case None => LastWrite(codec, log[..|log| - 1], key)
  }

  /** What `key` holds after `log` according to the reference definition. */
  function Expected(s: Store, codec: Codec, log: seq<Delivery>, key: string): Option<string>
  {
    match LastWrite(codec, log, key)
    case Some(v) => Some(v)
    case None => Find(s, key)
  }

  /** Replay agrees with the reference: every key ends with the value of the
      last entry that wrote it, or keeps its initial value if none did. */
  lemma {:induction false} ReplayIsLastWrite(fsm: FSM, codec: Codec, log: seq<Delivery>)
    ensures forall k :: Find(Replay(fsm, codec, log).store, k) == Expected(fsm.store, codec, log, k)
  {
    if |log| > 0 {
      ReplayIsLastWrite(fsm, codec, log[..|log| - 1]);
    }
  }

  /** Replaying a log a second time, on the state the first replay produced,
      changes nothing: replay after restart is harmless. */
  lemma ReplayTwice(fsm: FSM, codec: Codec, log: seq<Delivery>)
    ensures Replay(Replay(fsm, codec, log), codec, log) == Replay(fsm, codec, log)
  {
    var once := Replay(fsm, codec, log);
    var twice := Replay(once, codec, log);
    ReplayIsLastWrite(fsm, codec, log);
    ReplayIsLastWrite(once, codec, log);
    forall k ensures Find(twice.store, k) == Find(once.store, k) {
    }
    StoreExtensionality(twice.store, once.store);
  }

  /** Replaying a concatenation is replaying the first part and then the second. */
  lemma {:induction false} ReplayAppend(fsm: FSM, codec: Codec, log1: seq<Delivery>, log2: seq<Delivery>)
    ensures Replay(fsm, codec, log1 + log2) == Replay(Replay(fsm, codec, log1), codec, log2)
    decreases |log2|
  {
    if |log2| == 0 {
      assert log1 + log2 == log1;
    } else {
      var whole := log1 + log2;
      assert whole[..|whole| - 1] == log1 + log2[..|log2| - 1];
      assert whole[|whole| - 1] == log2[|log2| - 1];
      ReplayAppend(fsm, codec, log1, log2[..|log2| - 1]);
    }
  }

  /** The writes a log performs, in order. */
  function Writes(codec: Codec, log: seq<Delivery>): seq<(string, string)>
  {
    if |log| == 0 then []
    else
      var last := log[|log| - 1];
      var prior := Writes(codec, log[..|log| - 1]);
      match Effect(codec, last.data, last.disk)
      case Some(w) => prior + [w]
      case None => prior
  }

  /** The store after a sequence of plain map writes. */
  function ApplyWrites(s: Store, ws: seq<(string, string)>): Store
  {
    if |ws| == 0 then s else ApplyWrites(s, ws[..|ws| - 1])[ws[|ws| - 1].0 := ws[|ws| - 1].1]
  }

  /** Replay is a function of the initial store and the writes alone:
      undecodable entries, non-`SET` commands and failed Puts leave no trace. */
  lemma {:induction false} ReplayIsWrites(fsm: FSM, codec: Codec, log: seq<Delivery>)
    ensures Replay(fsm, codec, log).store == ApplyWrites(fsm.store, Writes(codec, log))
  {
    if |log| > 0 {
      var prior := Writes(codec, log[..|log| - 1]);
      ReplayIsWrites(fsm, codec, log[..|log| - 1]);
      var last := log[|log| - 1];
      match Effect(codec, last.data, last.disk)
      case Some(w) =>
        assert (prior + [w])[..|prior|] == prior;
      case None =>
    }
  }

  /** Determinism: two logs that perform the same writes, replayed from the
      same store, end in the same store, however their other entries differ. */
  lemma ReplayDeterministic(fsm: FSM, codec: Codec, log1: seq<Delivery>, log2: seq<Delivery>)
    requires Writes(codec, log1) == Writes(codec, log2)
    ensures Replay(fsm, codec, log1) == Replay(fsm, codec, log2)
  {
    ReplayIsWrites(fsm, codec, log1);
    ReplayIsWrites(fsm, codec, log2);
  }
}
