/** Node wiring of `raft/raft.go`: the decisions `NewRaftNode` takes on top of
    hashicorp/raft (whether to bootstrap, with which servers, and which
    voters to add) and the command
    `ProposeSet` submits. The consensus engine is an oracle: the outcome of
    each call into it is an input. */
module Node {
  import opened Wrappers
  import opened Errors
  import opened KVStore
  import opened StateMachine
  import opened Utf8

  /** `raft.Server`: a voter's identity and transport address. */
  datatype Server = Server(id: string, address: string)

  /** A cluster-membership request `NewRaftNode` issues to the consensus engine. */
  datatype Action = BootstrapCluster(servers: seq<Server>) | AddVoter(server: Server)

  /** The consensus engine handle, known by the identity and address it was started with. */
  datatype Raft = Raft(localId: string, address: string)

  /** `RaftNode`: the consensus engine and the store the FSM writes to. */
  datatype RaftNode = RaftNode(raft: Raft, store: Store)

  /** Outcomes of the foreign calls `NewRaftNode` makes. */
  datatype Environment = Environment(
    logStore: Outcome<Error>,                  // raftboltdb.NewBoltStore
    transport: Outcome<Error>,                 // raft.NewTCPTransport
    newRaft: Outcome<Error>,                   // raft.NewRaft
    configuration: Result<seq<Server>, Error>, // GetConfiguration(): its error, or its servers
    bootstrapReply: Outcome<Error>,            // BootstrapCluster(...).Error()
    voterReplies: seq<Outcome<Error>>)         // what each AddVoter returned

  /** How `NewRaftNode` ends: a node, a returned error, or `log.Fatalf`
      ending the process. `issued` lists the membership requests made on the way. */
  datatype Startup =
    | Running(node: RaftNode, issued: seq<Action>)
    | Failed(error: Error, issued: seq<Action>)
    | Exited(reason: Error)

  function Issued(r: Startup): seq<Action>
  {
    if r.Exited? then [] else r.issued
  }

  /** One server per peer, in input order, whose identity and address are both the peer string. */
  function PeerServers(peers: seq<string>): (r: seq<Server>)
    ensures |r| == |peers|
    ensures forall i :: 0 <= i < |peers| ==> r[i] == Server(peers[i], peers[i])
  {
    if |peers| == 0 then [] else PeerServers(peers[..|peers| - 1]) + [Server(peers[|peers| - 1], peers[|peers| - 1])]
  }

  /** The configuration a bootstrapping node proposes: itself first, then the peers. */
  function BootstrapServers(nodeID: string, addr: string, peers: seq<string>): (r: seq<Server>)
    ensures |r| == 1 + |peers|
    ensures r[0] == Server(nodeID, addr)
    ensures forall i :: 0 <= i < |peers| ==> r[i + 1] == Server(peers[i], peers[i])
  {
    [Server(nodeID, addr)] + PeerServers(peers)
  }

  /** The requests a node that does not bootstrap makes of its own Raft: one
      `AddVoter` per peer, in input order, with identity and address the peer string. */
  function AddVoterRequests(peers: seq<string>): (r: seq<Action>)
    ensures |r| == |peers|
    ensures forall i :: 0 <= i < |peers| ==> r[i] == AddVoter(Server(peers[i], peers[i]))
  {
    if |peers| == 0 then [] else AddVoterRequests(peers[..|peers| - 1]) + [AddVoter(Server(peers[|peers| - 1], peers[|peers| - 1]))]
  }

  /** The three construction steps before the configuration is read all succeeded. */
  predicate Constructed(env: Environment)
  {
    env.logStore.Pass? && env.transport.Pass? && env.newRaft.Pass?
  }

  /** What `NewRaftNode` does once Raft is built and its configuration read:
      bootstrap a fresh cluster when asked to (failing if that fails), or, when
      not bootstrapping, ask its own Raft to add each peer as a voter; the
      replies to those requests are discarded. */
  function Membership(nodeID: string, addr: string, fsm: FSM, peers: seq<string>, bootstrapCluster: bool,
                      configured: seq<Server>, bootstrapReply: Outcome<Error>): (r: Startup)
    ensures !r.Exited?
    ensures BootstrapCluster(BootstrapServers(nodeID, addr, peers)) in r.issued <==> |configured| == 0 && bootstrapCluster
    ensures |configured| == 0 && bootstrapCluster && bootstrapReply.Fail? ==>
      r == Failed(Wrap("failed to bootstrap cluster: ", bootstrapReply.error), [BootstrapCluster(BootstrapServers(nodeID, addr, peers))])
    ensures !(|configured| == 0 && bootstrapCluster && bootstrapReply.Fail?) ==>
      r == Running(RaftNode(Raft(nodeID, addr), StoreOf(fsm)),
                   (if |configured| == 0 && bootstrapCluster
                    then [BootstrapCluster(BootstrapServers(nodeID, addr, peers))] else [])
                   + (if !bootstrapCluster then AddVoterRequests(peers) else []))
    ensures bootstrapCluster ==> forall a :: a in r.issued ==> !a.AddVoter?
    ensures forall a :: a in r.issued && a.BootstrapCluster? ==> a == BootstrapCluster(BootstrapServers(nodeID, addr, peers))
  {
    var bootstrap :=
      if |configured| == 0 && bootstrapCluster
      then [BootstrapCluster(BootstrapServers(nodeID, addr, peers))] else [];
    if bootstrap != [] && bootstrapReply.Fail? then
      Failed(Wrap("failed to bootstrap cluster: ", bootstrapReply.error), bootstrap)
    else
      var voters := if !bootstrapCluster then AddVoterRequests(peers) else [];
      assert forall a :: a in voters ==> a.AddVoter?;
      Running(RaftNode(Raft(nodeID, addr), StoreOf(fsm)), bootstrap + voters)
  }

  /** `NewRaftNode(nodeID, addr, fsm, peers, bootstrapCluster)`. */
  function NewRaftNode(nodeID: string, addr: string, fsm: FSM, peers: seq<string>, bootstrapCluster: bool, env: Environment): (r: Startup)
    ensures env.logStore.Fail? ==> r == Failed(env.logStore.error, [])
    ensures env.logStore.Pass? && env.transport.Fail? ==>
      r == Failed(Wrap("failed to create transport: ", env.transport.error), [])
    ensures env.logStore.Pass? && env.transport.Pass? && env.newRaft.Fail? ==> r == Failed(env.newRaft.error, [])
    ensures Constructed(env) && env.configuration.Failure? ==> r == Exited(env.configuration.error)
    ensures Constructed(env) && env.configuration.Success? ==>
      (BootstrapCluster(BootstrapServers(nodeID, addr, peers)) in Issued(r) <==>
       |env.configuration.value| == 0 && bootstrapCluster)
    ensures (Constructed(env) && env.configuration.Success? && |env.configuration.value| == 0 && bootstrapCluster &&
             env.bootstrapReply.Fail?) ==>
      r.Failed? && r.error == Wrap("failed to bootstrap cluster: ", env.bootstrapReply.error)
    ensures bootstrapCluster ==> forall a :: a in Issued(r) ==> !a.AddVoter?
    ensures !bootstrapCluster && Constructed(env) && env.configuration.Success? ==>
      r.Running? && r.issued == AddVoterRequests(peers)
    ensures (Constructed(env) && env.configuration.Success? &&
             !(|env.configuration.value| == 0 && bootstrapCluster && env.bootstrapReply.Fail?)) ==>
      && r.Running?
      && r.issued ==
           (if |env.configuration.value| == 0 && bootstrapCluster
            then [BootstrapCluster(BootstrapServers(nodeID, addr, peers))] else [])
           + (if !bootstrapCluster then AddVoterRequests(peers) else [])
    ensures forall a :: a in Issued(r) && a.BootstrapCluster? ==> a == BootstrapCluster(BootstrapServers(nodeID, addr, peers))
    ensures r.Running? ==> r.node == RaftNode(Raft(nodeID, addr), StoreOf(fsm))
  {
    if env.logStore.Fail? then Failed(env.logStore.error, [])
    else if env.transport.Fail? then Failed(Wrap("failed to create transport: ", env.transport.error), [])
    else if env.newRaft.Fail? then Failed(env.newRaft.error, [])
    else if env.configuration.Failure? then Exited(env.configuration.error)
    else Membership(nodeID, addr, fsm, peers, bootstrapCluster, env.configuration.value, env.bootstrapReply)
  }

  /** What `AddVoter` returns has no influence on the node that is built.
      hashicorp/raft accepts `AddVoter` only on the leader, and a node that did
      not bootstrap is not normally one, so these requests can fail; their
      errors are discarded and nothing records them. */
  lemma VoterRepliesIgnored(nodeID: string, addr: string, fsm: FSM, peers: seq<string>, bootstrapCluster: bool,
                            env: Environment, replies: seq<Outcome<Error>>)
    ensures NewRaftNode(nodeID, addr, fsm, peers, bootstrapCluster, env.(voterReplies := replies))
         == NewRaftNode(nodeID, addr, fsm, peers, bootstrapCluster, env)
  {
  }

  /** A node that already belongs to a configured cluster never bootstraps again. */
  lemma NoDoubleBootstrap(nodeID: string, addr: string, fsm: FSM, peers: seq<string>, bootstrapCluster: bool, env: Environment)
    requires env.configuration.Success? && |env.configuration.value| > 0
    ensures forall a :: a in Issued(NewRaftNode(nodeID, addr, fsm, peers, bootstrapCluster, env)) ==> !a.BootstrapCluster?
  {
  }

  /** The command `ProposeSet` submits to the log (if any) and what it returns. */
  datatype Proposal = Proposal(submitted: Option<Bytes>, result: Outcome<Error>)

  /** `ProposeSet(key, value)`: marshal a `SET` command and hand it to Raft;
      `raftReply` is what `Raft.Apply(...).Error()` returns. */
  function ProposeSet(codec: Codec, key: string, value: string, raftReply: Outcome<Error>): (r: Proposal)
    ensures codec.marshal(Command(SetOperation, key, value)).Failure? ==>
      r == Proposal(None, Fail(codec.marshal(Command(SetOperation, key, value)).error))
    ensures codec.marshal(Command(SetOperation, key, value)).Success? ==>
      r.submitted.Some? && r.result == raftReply
    ensures Faithful(codec) && r.submitted.Some? ==>
      codec.unmarshal(r.submitted.value) == Success(Command(SetOperation, key, value))
  {
    var command := Command(SetOperation, key, value);
    match codec.marshal(command)
    case Failure(e) => Proposal(None, Fail(e))
    case Success(data) => Proposal(Some(data), raftReply)
  }

  /** End to end: the entry `ProposeSet(key, value)` submits, once committed and
      applied by any node's FSM, writes `value` under `key` and nothing else. */
  lemma ProposedEntryWritesKey(codec: Codec, key: string, value: string, raftReply: Outcome<Error>, fsm: FSM, disk: Disk)
    requires Faithful(codec)
    requires ProposeSet(codec, key, value, raftReply).submitted.Some?
    ensures var data := ProposeSet(codec, key, value, raftReply).submitted.value;
      && Effect(codec, data, disk) == (if disk.Healthy? then Some((key, value)) else None)
      && (disk.Healthy? ==> Find(Apply(fsm, codec, data, disk).fsm.store, key) == Some(value))
      && forall k :: k != key ==> Find(Apply(fsm, codec, data, disk).fsm.store, k) == Find(fsm.store, k)
  {
  }
}
