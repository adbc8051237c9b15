/** The HTTP handlers of `handlers/handlers.go` as decision tables. Every
    foreign value a handler consults (the node's Raft role and leader
    address, the reply of `ProposeSet`, of the forwarded POST, of the store
    lookup) is an input; each handler returns the response it sends and the
    calls it makes. */
module Handlers {
  import opened Wrappers
  import opened Errors
  import opened Utf8
  import opened Text
  import opened Form
  import opened KVStore
  import opened StateMachine
  import opened Node

  const StatusOK := 200
  const StatusBadRequest := 400
  const StatusNotFound := 404
  const StatusInternalServerError := 500
  const StatusServiceUnavailable := 503

  /** A response body: a JSON object (fields in the order encoding/json
      writes them), plain text, or bytes relayed unchanged. */
  datatype Body = Json(fields: seq<(string, string)>) | Plain(text: string) | Raw(data: Bytes)

  datatype Response = Response(status: int, body: Body)

  /** Where a forwarded write goes: `http://host:port/key?query`. */
  datatype Target = Target(host: string, port: nat, path: string, query: string)

  /** A call a write handler makes: a Raft proposal, or a POST to the leader. */
  datatype Call = Propose(key: string, value: string) | Forward(target: Target)

  datatype Handled = Handled(calls: seq<Call>, response: Response)

  /** What the node knows of consensus when the request arrives: whether
      `Raft.State()` is `Leader`, and the address `LeaderWithID` reports
      (empty when no leader is known). */
  datatype RaftView = RaftView(isLeader: bool, leaderAddr: string)

  /** The host part of a Raft address: everything before the first `:`. */
  function LeaderHostname(leaderAddr: string): (host: string)
    ensures ':' !in host
    ensures host <= leaderAddr
    ensures |host| < |leaderAddr| ==> leaderAddr[|host|] == ':'
    ensures ':' !in leaderAddr ==> host == leaderAddr
  {
    SplitHead(leaderAddr, ':');
    Split(leaderAddr, ':')[0]
  }

  /** The URL `http.Post` is given. */
  function Url(t: Target): string
  {
    "http://" + t.host + ":" + Decimal(t.port) + t.path + "?" + t.query
  }

  /** A target whose parts `Url` keeps apart: a host without `:`, a
      non-empty path without `?` that does not start with a digit, and a
      query without the `#` at which a URL parser ends the query. */
  predicate WellFormed(t: Target)
  {
    ':' !in t.host && '?' !in t.path && |t.path| > 0 && !IsDigit(t.path[0]) && '#' !in t.query
  }

  /** Reference reader of the `port/path?query` part of a URL: the decimal
      port, the path up to the first `?`, and the rest. */
  function ParsePortPath(after: string): Option<(nat, string, string)>
  {
    var n := DigitRun(after);
    if n == 0 then None
    else
      var tail := after[n..];
      SplitHead(tail, '?');
      var path := Split(tail, '?')[0];
      if |path| == |tail| then None
      else Some((DecimalValue(after[..n]), path, tail[|path| + 1..]))
  }

  /** Reference reader of an `http://host:port/path?query` URL: the host up to
      the first `:`, then the port, path and query. */
  function ParseUrl(u: string): Option<Target>
  {
    if |u| < 7 || u[..7] != "http://" then None
    else
      var rest := u[7..];
      SplitHead(rest, ':');
      var host := Split(rest, ':')[0];
      if |host| == |rest| then None
      else match ParsePortPath(rest[|host| + 1..])
        case None => None
        case Some((port, path, query)) => Some(Target(host, port, path, query))
  }

  lemma {:induction false} PortPathRoundTrip(port: nat, path: string, query: string)
    requires '?' !in path && |path| > 0 && !IsDigit(path[0])
    ensures ParsePortPath(Decimal(port) + path + "?" + query) == Some((port, path, query))
  {
    var digits := Decimal(port);
    var tail := path + "?" + query;
    var after := digits + tail;
    assert digits + path + "?" + query == after;
    DigitRunOf(digits, tail);
    assert after[..|digits|] == digits && after[|digits|..] == tail;
    DecimalRoundTrip(port);
    assert tail == path + ['?'] + query;
    SplitCons(path, '?', query);
    assert tail[|path| + 1..] == query;
  }

  /** The URL of a well-formed target determines its host, port, path and query. */
  lemma {:induction false} UrlRoundTrip(t: Target)
    requires WellFormed(t)
    ensures ParseUrl(Url(t)) == Some(t)
  {
    var after := Decimal(t.port) + t.path + "?" + t.query;
    var rest := t.host + [':'] + after;
    assert Url(t) == "http://" + rest;
    assert Url(t)[..7] == "http://" && Url(t)[7..] == rest;
    assert Split(rest, ':')[0] == t.host by { SplitCons(t.host, ':', after); }
    assert rest[|t.host| + 1..] == after;
    assert ParsePortPath(after) == Some((t.port, t.path, t.query)) by {
      PortPathRoundTrip(t.port, t.path, t.query);
    }
  }

  /** The POST `forwardToLeader` makes: the leader's host name, the HTTP API
      port, path `/key`, and the key and value as escaped query parameters,
      which decode back to exactly the client's key and value. */
  function ForwardTarget(leaderAddr: string, apiPort: nat, key: string, value: string): (t: Target)
    ensures t.host == LeaderHostname(leaderAddr) && ':' !in t.host
    ensures t.port == apiPort && t.path == "/key" && WellFormed(t)
    ensures t.query == FormEncode([("key", key), ("value", value)])
    ensures IsFormText(t.query) && '#' !in t.query && ' ' !in t.query
    ensures FormDecode(t.query) == Some([("key", key), ("value", value)])
  {
    var query := "key=" + QueryEscape(key) + "&value=" + QueryEscape(value);
    ForwardQueryDecodes(key, value);
    Target(LeaderHostname(leaderAddr), apiPort, "/key", query)
  }

  /** The forwarded query is a form query in form text, and it decodes to the
      client's key and value. */
  lemma ForwardQueryDecodes(key: string, value: string)
    ensures var q := "key=" + QueryEscape(key) + "&value=" + QueryEscape(value);
      && q == FormEncode([("key", key), ("value", value)])
      && IsFormText(q) && '#' !in q && ' ' !in q
      && FormDecode(q) == Some([("key", key), ("value", value)])
  {
    var ps := [("key", key), ("value", value)];
    var q := "key=" + QueryEscape(key) + "&value=" + QueryEscape(value);
    assert q == FormEncode(ps) by { ForwardQueryIsForm(key, value); }
    assert FormDecode(q) == Some(ps) by { FormRoundTrip(ps); }
    assert IsFormText(q) by { FormEncodeIsFormText(ps); }
    FormTextExcludes(q);
  }


  /** The query `forwardToLeader` formats is the form encoding of the two pairs. */
  lemma ForwardQueryIsForm(key: string, value: string)
    ensures "key=" + QueryEscape(key) + "&value=" + QueryEscape(value) == FormEncode([("key", key), ("value", value)])
  {
    NamedPair("key", key);
    NamedPair("value", value);
    FormEncodeTwo(("key", key), ("value", value));
    Regroup(QueryEscape(key), QueryEscape(value));
  }

  /** The query as formatted, regrouped as two pairs around one `&`. */
  lemma Regroup(a: string, b: string)
    ensures "key=" + a + "&value=" + b == ("key" + "=" + a) + "&" + ("value" + "=" + b)
  {
    assert "&" + ("value=" + b) == "&value=" + b;
  }

  /** A pair whose name needs no escaping encodes as `name=` and the escaped value. */
  lemma NamedPair(name: string, value: string)
    requires name == "key" || name == "value"
    ensures EncodePair((name, value)) == name + "=" + QueryEscape(value)
  {
    QueryEscapeUnreserved(name);
  }

  /** The form encoding of two pairs is their encodings joined by one `&`. */
  lemma FormEncodeTwo(p: (string, string), q: (string, string))
    ensures FormEncode([p, q]) == EncodePair(p) + "&" + EncodePair(q)
  {
    var pieces := EncodePairs([p, q]);
    assert pieces == [EncodePair(p), EncodePair(q)];
    assert pieces[1..] == [EncodePair(q)];
    assert Join(pieces[1..], '&') == EncodePair(q);
    assert Join(pieces, '&') == EncodePair(p) + ['&'] + EncodePair(q);
  }

  /** `SetKeyValue`: reject an empty key or value; on a follower forward to
      the known leader (or answer 503 when none is known); on the leader
      propose the write. */
  function SetKeyValue(key: string, value: string, view: RaftView, apiPort: nat,
                       proposeReply: Outcome<Error>, forwardReply: Result<Bytes, Error>): (r: Handled)
    ensures r.response.status == StatusBadRequest <==> key == "" || value == ""
    ensures r.response.status == StatusServiceUnavailable <==> key != "" && value != "" && !view.isLeader && view.leaderAddr == ""
    ensures |r.calls| <= 1
    ensures r.calls == [] <==> key == "" || value == "" || (!view.isLeader && view.leaderAddr == "")
    ensures forall c :: c in r.calls ==> (c.Propose? <==> view.isLeader)
    ensures forall c :: c in r.calls && c.Propose? ==> c == Propose(key, value) && key != "" && value != ""
    ensures forall c :: c in r.calls && c.Forward? ==> c.target == ForwardTarget(view.leaderAddr, apiPort, key, value)
    ensures r.calls == [Forward(ForwardTarget(view.leaderAddr, apiPort, key, value))] ==>
      (forwardReply.Failure? ==> r.response.status == StatusInternalServerError) &&
      (forwardReply.Success? ==> r.response == Response(StatusOK, Raw(forwardReply.value)))
    ensures r.calls == [Propose(key, value)] ==>
      (proposeReply.Fail? ==> r.response.status == StatusInternalServerError) &&
      (proposeReply.Pass? ==> r.response == Response(StatusOK, Json([("message", "Key-value pair set successfully")])))
  {
    if key == "" || value == "" then
      Handled([], Response(StatusBadRequest, Json([("error", "Key and value are required")])))
    else if !view.isLeader then
      if view.leaderAddr == "" then
        Handled([], Response(StatusServiceUnavailable, Plain("No leader available")))
      else
        var call := Forward(ForwardTarget(view.leaderAddr, apiPort, key, value));
        match forwardReply
        case Failure(_) => Handled([call], Response(StatusInternalServerError, Plain("Failed to forward request to leader")))
        case Success(body) => Handled([call], Response(StatusOK, Raw(body)))
    else
      match proposeReply
      case Fail(e) => Handled([Propose(key, value)], Response(StatusInternalServerError, Plain("Failed to set value: " + Message(e))))
      case Pass => Handled([Propose(key, value)], Response(StatusOK, Json([("message", "Key-value pair set successfully")])))
  }

  /** A forwarded write is the same write: the query the follower sends
      decodes to the client's key and value, and the leader, given them,
      proposes exactly that key and value. */
  lemma ForwardedWriteIsSameWrite(key: string, value: string, view: RaftView, apiPort: nat,
                                  proposeReply: Outcome<Error>, forwardReply: Result<Bytes, Error>)
    requires key != "" && value != "" && !view.isLeader && view.leaderAddr != ""
    ensures var r := SetKeyValue(key, value, view, apiPort, proposeReply, forwardReply);
      && |r.calls| == 1 && r.calls[0].Forward?
      && FormDecode(r.calls[0].target.query) == Some([("key", key), ("value", value)])
      && SetKeyValue(key, value, RaftView(true, ""), apiPort, proposeReply, forwardReply).calls == [Propose(key, value)]
  {
  }

  /** `GetKeyValue` as written: any store error is a 500, an empty value a 404,
      anything else a 200 with the key and value. */
  function GetKeyValue(key: string, lookup: Lookup): (r: Response)
    ensures r.status == StatusInternalServerError <==> lookup.err.Some?
    ensures r.status == StatusNotFound <==> lookup.err.None? && lookup.value == ""
    ensures r.status == StatusOK <==> lookup.err.None? && lookup.value != ""
    ensures r.status == StatusOK ==> r.body == Json([("key", key), ("value", lookup.value)])
  {
    if lookup.err.Some? then
      Response(StatusInternalServerError, Plain("Failed to get value: " + Message(lookup.err.value)))
    else if lookup.value == "" then
      Response(StatusNotFound, Plain("Key not found"))
    else
      Response(StatusOK, Json([("key", key), ("value", lookup.value)]))
  }

  /** As written, a key that was never set is answered 500 "Failed to get
      value: key not found", not 404. */
  lemma AbsentKeyAnswers500(s: Store, key: string)
    requires key !in s
    ensures GetKeyValue(key, Get(s, key, Healthy)) == Response(StatusInternalServerError, Plain("Failed to get value: key not found"))
  {
    assert "Failed to get value: " + Message(KeyNotFound) == "Failed to get value: key not found";
  }

  /** Every value in the store is non-empty. */
  predicate NonEmptyValues(s: Store)
  {
    forall k :: k in s ==> s[k] != ""
  }

  /** As written, 404 is unreachable for any store whose values are all
      non-empty; `AcceptedLogKeepsValuesNonEmpty` shows those include every
      store built from writes `SetKeyValue` accepts. */
  lemma NotFoundUnreachable(s: Store, key: string, disk: Disk)
    requires NonEmptyValues(s)
    ensures GetKeyValue(key, Get(s, key, disk)).status != StatusNotFound
  {
  }

  /** The read mapping the handler evidently intends: an absent key is 404,
      any other store error 500, a present key 200 with its value. */
  function GetKeyValueIntended(key: string, lookup: Lookup): (r: Response)
    ensures r.status == StatusNotFound <==> lookup.err == Some(KeyNotFound)
    ensures r.status == StatusInternalServerError <==> lookup.err.Some? && lookup.err != Some(KeyNotFound)
    ensures r.status == StatusOK <==> lookup.err.None?
    ensures r.status == StatusOK ==> r.body == Json([("key", key), ("value", lookup.value)])
  {
    match lookup.err
    case Some(KeyNotFound) => Response(StatusNotFound, Plain("Key not found"))
    case Some(e) => Response(StatusInternalServerError, Plain("Failed to get value: " + Message(e)))
    case None => Response(StatusOK, Json([("key", key), ("value", lookup.value)]))
  }

  /** A read served from the node's own store, without consulting Raft,
      with the intended status mapping. */
  function ReadKey(s: Store, key: string, disk: Disk): Response
  {
    GetKeyValueIntended(key, Get(s, key, disk))
  }

  /** With the intended mapping, a read on a healthy disk is 404 exactly for
      absent keys and otherwise returns the stored value; a disk fault is 500. */
  lemma IntendedReadMatchesStore(s: Store, key: string, disk: Disk)
    ensures var r := ReadKey(s, key, disk);
      && (disk.Faulty? ==> r.status == StatusInternalServerError)
      && (disk.Healthy? ==> (r.status == StatusNotFound <==> key !in s))
      && (disk.Healthy? && key in s ==> r == Response(StatusOK, Json([("key", key), ("value", s[key])])))
  {
  }

  /** Read after write on the leader: once the entry `ProposeSet(key, value)`
      submitted is applied on a healthy disk, reading `key` answers 200 with
      `value`. */
  lemma ReadAfterWrite(codec: Codec, key: string, value: string, fsm: FSM)
    requires Faithful(codec)
    requires ProposeSet(codec, key, value, Pass).submitted.Some?
    ensures var data := ProposeSet(codec, key, value, Pass).submitted.value;
      ReadKey(Apply(fsm, codec, data, Healthy).fsm.store, key, Healthy) == Response(StatusOK, Json([("key", key), ("value", value)]))
  {
    ProposedEntryWritesKey(codec, key, value, Pass, fsm, Healthy);
  }

  /** Read after write through the handler as written: the value `SetKeyValue`
      accepted is non-empty, so the 404 branch does not catch it and the read
      answers 200 with it. */
  lemma ReadAfterWriteAsWritten(codec: Codec, key: string, value: string, fsm: FSM)
    requires Faithful(codec) && value != ""
    requires ProposeSet(codec, key, value, Pass).submitted.Some?
    ensures var data := ProposeSet(codec, key, value, Pass).submitted.value;
      GetKeyValue(key, Get(Apply(fsm, codec, data, Healthy).fsm.store, key, Healthy))
        == Response(StatusOK, Json([("key", key), ("value", value)]))
  {
    ProposedEntryWritesKey(codec, key, value, Pass, fsm, Healthy);
  }

  /** Applying the entry of a write `SetKeyValue` accepts (a non-empty value)
      keeps every value of the store non-empty, on any disk. */
  lemma AcceptedWriteKeepsValuesNonEmpty(codec: Codec, key: string, value: string, fsm: FSM, disk: Disk)
    requires Faithful(codec) && value != ""
    requires ProposeSet(codec, key, value, Pass).submitted.Some?
    requires NonEmptyValues(fsm.store)
    ensures NonEmptyValues(Apply(fsm, codec, ProposeSet(codec, key, value, Pass).submitted.value, disk).fsm.store)
  {
    var data := ProposeSet(codec, key, value, Pass).submitted.value;
    var s := Apply(fsm, codec, data, disk).fsm.store;
    ProposedEntryWritesKey(codec, key, value, Pass, fsm, disk);
    forall k | k in s
      ensures s[k] != ""
    {
      if k != key {
        assert Find(s, k) == Find(fsm.store, k);
      } else if disk.Faulty? {
        assert Find(s, k) == Find(fsm.store, k) by { assert s == fsm.store; }
      }
    }
  }

  /** The log the leader's proposals build: for each write `(key, value, disk)`
      in order, the entry `ProposeSet` submitted (if marshalling succeeded),
      delivered to a node whose disk behaves as `disk`. */
  function SubmittedLog(codec: Codec, writes: seq<(string, string, Disk)>): (log: seq<Delivery>)
    ensures |log| <= |writes|
  {
    if |writes| == 0 then []
    else
      var w := writes[|writes| - 1];
      var prefix := SubmittedLog(codec, writes[..|writes| - 1]);
      match ProposeSet(codec, w.0, w.1, Pass).submitted
      case None => prefix
      case Some(data) => prefix + [Delivery(data, w.2)]
  }

  /** Replaying any log of accepted writes (non-empty values) on a store whose
      values are all non-empty keeps them all non-empty; with
      `NotFoundUnreachable`, such a store never answers 404. */
  lemma {:induction false} AcceptedLogKeepsValuesNonEmpty(codec: Codec, fsm: FSM, writes: seq<(string, string, Disk)>)
    requires Faithful(codec)
    requires forall i :: 0 <= i < |writes| ==> writes[i].1 != ""
    requires NonEmptyValues(fsm.store)
    ensures NonEmptyValues(Replay(fsm, codec, SubmittedLog(codec, writes)).store)
  {
    if |writes| > 0 {
      var w := writes[|writes| - 1];
      var prefix := SubmittedLog(codec, writes[..|writes| - 1]);
      var earlier := writes[..|writes| - 1];
      assert forall i :: 0 <= i < |earlier| ==> earlier[i] == writes[i];
      AcceptedLogKeepsValuesNonEmpty(codec, fsm, earlier);
      var before := Replay(fsm, codec, prefix);
      match ProposeSet(codec, w.0, w.1, Pass).submitted
      case None =>
        assert SubmittedLog(codec, writes) == prefix;
      case Some(data) =>
        var log := prefix + [Delivery(data, w.2)];
        assert log[..|log| - 1] == prefix;
        AcceptedWriteKeepsValuesNonEmpty(codec, w.0, w.1, before, w.2);
    }
  }

  /** `HealthCheck`: 500 exactly when no node is installed, 200 otherwise. */
  function HealthCheck(node: Option<RaftNode>): (r: Response)
    ensures r.status == StatusInternalServerError <==> node.None?
    ensures r.status == StatusOK <==> node.Some?
  {
    if node.None? then Response(StatusInternalServerError, Json([("error", "Raft node is not initialized")]))
    else Response(StatusOK, Json([("message", "Database is alive")]))
  }

  /** The package-level node after `InitRaftNode`, and the error it returned;
      or the process ended inside `NewRaftNode`. */
  datatype Init = Init(installed: Option<RaftNode>, result: Outcome<Error>) | ProcessExited(reason: Error)

  /** `InitRaftNode`: install the node `NewRaftNode` built, or nothing and a
      wrapped error. */
  function InitRaftNode(nodeID: string, addr: string, fsm: FSM, peers: seq<string>, bootstrapCluster: bool, env: Environment): (r: Init)
    ensures r.Init? ==> (r.installed.Some? <==> r.result.Pass?)
    ensures r.ProcessExited? <==> NewRaftNode(nodeID, addr, fsm, peers, bootstrapCluster, env).Exited?
    ensures r.Init? && r.result.Fail? ==>
      NewRaftNode(nodeID, addr, fsm, peers, bootstrapCluster, env).Failed? &&
      r.result.error == Wrap("failed to initialize Raft: ", NewRaftNode(nodeID, addr, fsm, peers, bootstrapCluster, env).error)
    ensures r.Init? && r.installed.Some? ==> r.installed.value.store == StoreOf(fsm)
    ensures NewRaftNode(nodeID, addr, fsm, peers, bootstrapCluster, env).Failed? ==>
      r == Init(None, Fail(Wrap("failed to initialize Raft: ", NewRaftNode(nodeID, addr, fsm, peers, bootstrapCluster, env).error)))
    ensures NewRaftNode(nodeID, addr, fsm, peers, bootstrapCluster, env).Running? ==>
      r == Init(Some(NewRaftNode(nodeID, addr, fsm, peers, bootstrapCluster, env).node), Pass)
  {
    match NewRaftNode(nodeID, addr, fsm, peers, bootstrapCluster, env)
    case Running(node, _) => Init(Some(node), Pass)
    case Failed(e, _) => Init(None, Fail(Wrap("failed to initialize Raft: ", e)))
    case Exited(reason) => ProcessExited(reason)
  }

  /** The health check reports 200 exactly when `NewRaftNode` built a node,
      which is exactly when initialization returned no error. */
  lemma HealthReflectsInit(nodeID: string, addr: string, fsm: FSM, peers: seq<string>, bootstrapCluster: bool, env: Environment)
    ensures var r := InitRaftNode(nodeID, addr, fsm, peers, bootstrapCluster, env);
      && (r.Init? ==> (HealthCheck(r.installed).status == StatusOK <==> NewRaftNode(nodeID, addr, fsm, peers, bootstrapCluster, env).Running?))
      && (r.Init? ==> (HealthCheck(r.installed).status == StatusOK <==> r.result.Pass?))
  {
  }
}
