/** Unboundedly many interleaved handshakes on a network the attacker owns.

    Any bytes may arrive at any session at any time, so messages can be
    dropped, reordered, replayed and invented at will.  Identity keys outside
    `honest` belong to the attacker.  Primitives are ideal: a signature that
    verifies under an honest key was made by its owner, and decapsulation
    undoes encapsulation.  An honest key may run servers and clients and sign
    audit entries, all at once. */
module HandshakeRuns {
  import opened Bytes
  import opened Wrappers
  import opened Signing
  import opened Payload
  import opened Handshake

  datatype ServerPhase = AwaitFinish | ServerDone(clientPk: Bytes, keys: Keys)

  datatype Server = Server(id: Bytes, policy: set<Bytes>, kemPk: Bytes, ct: Bytes, shared: Bytes, phase: ServerPhase)

  /** A client signs, sends CLIENT_FINISH and only then derives its keys; the
      bytes may leave although the write is reported as failed, so a client
      can stay at `ClientSigned` for ever. */
  datatype ClientPhase =
    | AwaitHello
    | ClientSigned(serverPk: Bytes, ct: Bytes, serverSig: Bytes, shared: Bytes)
    | ClientDone(serverPk: Bytes, ct: Bytes, serverSig: Bytes, shared: Bytes, keys: Keys)

  datatype Client = Client(id: Bytes, policy: set<Bytes>, kemPk: Bytes, sk: Bytes, phase: ClientPhase)

  /** `signed` holds what honest keys have signed; `hashed` every transcript
      input an honest session has hashed. */
  datatype World = World(
    honest: set<Bytes>, servers: seq<Server>, clients: seq<Client>,
    signed: set<(Bytes, Bytes)>, hashed: set<Bytes>)

  datatype Step =
    | StartClient(id: Bytes, policy: set<Bytes>, kemPk: Bytes, sk: Bytes)
    | Respond(id: Bytes, policy: set<Bytes>, input: Bytes, ct: Bytes, shared: Bytes)
    | SignClient(client: nat, input: Bytes)
    | FinishClient(client: nat)
    | FinishServer(server: nat, input: Bytes)
    | SignAuditEntry(id: Bytes, logId: LogId, index: nat, prevRoot: Digest, eventHash: Digest, newRoot: Digest)

  /** Ideal signatures: what verifies under an honest key was signed by it. */
  ghost predicate NotForged(w: World, pk: Bytes, msg: Bytes)
  {
    pk in w.honest ==> (pk, msg) in w.signed
  }

  ghost predicate AcceptsServerHello(w: World, c: Client, input: Bytes)
  {
    && ReadServerHello(input, c.kemPk, c.policy).Ok?
    && var (ct, serverPk, _) := ReadServerHello(input, c.kemPk, c.policy).value;
       Decaps(c.sk, ct).Some? && NotForged(w, serverPk, ServerTranscript(c.kemPk, ct, serverPk))
  }

  ghost predicate AcceptsClientFinish(w: World, s: Server, input: Bytes)
  {
    && ReadClientFinish(input, s.kemPk, s.ct, s.id, s.policy).Ok?
    && var (clientPk, _) := ReadClientFinish(input, s.kemPk, s.ct, s.id, s.policy).value;
       NotForged(w, clientPk, Transcript(s.kemPk, s.ct, s.id, clientPk))
  }

  ghost predicate Enabled(w: World, step: Step)
  {
    match step
    case StartClient(id, policy, kemPk, sk) =>
      // key generation is fresh
      && id in w.honest && |id| == PUBLIC_KEY_LEN && policy != {}
      && |kemPk| == EK_LEN && KemPair(kemPk, sk)
      && forall c | c in w.clients :: c.kemPk != kemPk
    case Respond(id, policy, input, ct, shared) =>
      // encapsulation is correct and fresh
      && id in w.honest && |id| == PUBLIC_KEY_LEN && policy != {}
      && ReadClientHello(input).Ok?
      && Encapsulates(ReadClientHello(input).value, ct, shared)
      && forall s | s in w.servers :: s.ct != ct
    case SignClient(i, input) =>
      i < |w.clients| && w.clients[i].phase.AwaitHello? && AcceptsServerHello(w, w.clients[i], input)
    case FinishClient(i) =>
      i < |w.clients| && w.clients[i].phase.ClientSigned?
    case FinishServer(j, input) =>
      j < |w.servers| && w.servers[j].phase.AwaitFinish? && AcceptsClientFinish(w, w.servers[j], input)
    case SignAuditEntry(id, _, _, _, _, _) => id in w.honest
  }

  /** The keys a client that has signed derives. */
  function ClientKeys(c: Client): Keys
    requires !c.phase.AwaitHello?
  {
    DeriveKeys(c.phase.shared, Transcript(c.kemPk, c.phase.ct, c.phase.serverPk, c.id))
  }

  ghost function Next(w: World, step: Step): World
    requires Enabled(w, step)
  {
    match step
    case StartClient(id, policy, kemPk, sk) =>
      w.(clients := w.clients + [Client(id, policy, kemPk, sk, AwaitHello)])
    case Respond(id, policy, input, ct, shared) =>
      var kemPk := ReadClientHello(input).value;
      w.(servers := w.servers + [Server(id, policy, kemPk, ct, shared, AwaitFinish)],
         signed := w.signed + {(id, ServerTranscript(kemPk, ct, id))},
         hashed := w.hashed + {ServerInput(kemPk, ct, id)})
    case SignClient(i, input) =>
      var c := w.clients[i];
      var (ct, serverPk, sig) := ReadServerHello(input, c.kemPk, c.policy).value;
      w.(clients := w.clients[i := c.(phase := ClientSigned(serverPk, ct, sig, Decaps(c.sk, ct).value))],
         signed := w.signed + {(c.id, Transcript(c.kemPk, ct, serverPk, c.id))},
         hashed := w.hashed + {ServerInput(c.kemPk, ct, serverPk), FinalInput(c.kemPk, ct, serverPk, c.id)})
    case FinishClient(i) =>
      var c := w.clients[i];
      var p := c.phase;
      w.(clients := w.clients[i := c.(phase := ClientDone(p.serverPk, p.ct, p.serverSig, p.shared, ClientKeys(c)))])
    case FinishServer(j, input) =>
      var s := w.servers[j];
      var (clientPk, _) := ReadClientFinish(input, s.kemPk, s.ct, s.id, s.policy).value;
      w.(servers := w.servers[j := s.(phase := ServerDone(clientPk,
           DeriveKeys(s.shared, Transcript(s.kemPk, s.ct, s.id, clientPk))))],
         hashed := w.hashed + {FinalInput(s.kemPk, s.ct, s.id, clientPk)})
    case SignAuditEntry(id, logId, index, prevRoot, eventHash, newRoot) =>
      w.(signed := w.signed + {(id, PayloadBytes(logId, index, prevRoot, eventHash, newRoot))})
  }

  ghost predicate Run(w: World, steps: seq<Step>, v: World)
    decreases |steps|
  {
    if steps == [] then w == v else Enabled(w, steps[0]) && Run(Next(w, steps[0]), steps[1..], v)
  }

  ghost predicate Init(w: World)
  {
    w.servers == [] && w.clients == [] && w.signed == {} && w.hashed == {}
  }

  // ----- the invariant ------------------------------------------------------

  ghost predicate ServerFacts(w: World, s: Server)
  {
    && |s.id| == PUBLIC_KEY_LEN && |s.kemPk| == EK_LEN && Encapsulates(s.kemPk, s.ct, s.shared)
    && ServerInput(s.kemPk, s.ct, s.id) in w.hashed
    && (s.phase.ServerDone? ==>
          var t := Transcript(s.kemPk, s.ct, s.id, s.phase.clientPk);
          && |s.phase.clientPk| == PUBLIC_KEY_LEN && s.phase.clientPk in s.policy
          && s.phase.keys == DeriveKeys(s.shared, t)
          && FinalInput(s.kemPk, s.ct, s.id, s.phase.clientPk) in w.hashed
          && NotForged(w, s.phase.clientPk, t))
  }

  ghost predicate ClientFacts(w: World, c: Client)
  {
    && |c.id| == PUBLIC_KEY_LEN && |c.kemPk| == EK_LEN && KemPair(c.kemPk, c.sk)
    && (c.phase.ClientDone? ==> c.phase.keys == ClientKeys(c))
    && (!c.phase.AwaitHello? ==>
          var p := c.phase;
          && Sized(c.kemPk, p.ct, p.serverPk) && p.serverPk in c.policy
          && Verifies(p.serverPk, ServerTranscript(c.kemPk, p.ct, p.serverPk), p.serverSig)
          && NotForged(w, p.serverPk, ServerTranscript(c.kemPk, p.ct, p.serverPk))
          && Decaps(c.sk, p.ct) == Some(p.shared)
          && ServerInput(c.kemPk, p.ct, p.serverPk) in w.hashed
          && FinalInput(c.kemPk, p.ct, p.serverPk, c.id) in w.hashed)
  }

  /** Why an honest key signed a message. */
  ghost predicate SignedAsServer(w: World, pk: Bytes, msg: Bytes, j: nat)
  {
    j < |w.servers| && var s := w.servers[j]; s.id == pk && msg == ServerTranscript(s.kemPk, s.ct, s.id)
  }

  ghost predicate SignedAsClient(w: World, pk: Bytes, msg: Bytes, i: nat)
  {
    && i < |w.clients|
    && var c := w.clients[i];
       c.id == pk && !c.phase.AwaitHello? && msg == Transcript(c.kemPk, c.phase.ct, c.phase.serverPk, c.id)
  }

  ghost predicate Explained(w: World, pk: Bytes, msg: Bytes)
  {
    || |msg| >= 164
    || (exists j :: SignedAsServer(w, pk, msg, j))
    || (exists i :: SignedAsClient(w, pk, msg, i))
  }

  ghost predicate Inv(w: World)
  {
    && (forall s | s in w.servers :: ServerFacts(w, s))
    && (forall c | c in w.clients :: ClientFacts(w, c))
    && (forall x | x in w.signed :: Explained(w, x.0, x.1))
    && (forall i, j | 0 <= i < j < |w.servers| :: w.servers[i].ct != w.servers[j].ct)
    && (forall i, j | 0 <= i < j < |w.clients| :: w.clients[i].kemPk != w.clients[j].kemPk)
  }

  /** d is c, perhaps further on: what c has signed, d has signed. */
  ghost predicate SameClient(c: Client, d: Client)
  {
    && d.id == c.id
    && (c.phase.AwaitHello? || (&& !d.phase.AwaitHello? && d.kemPk == c.kemPk
                                && d.phase.ct == c.phase.ct && d.phase.serverPk == c.phase.serverPk))
  }

  /** v has everything w has. */
  ghost predicate Grows(w: World, v: World)
  {
    && v.honest == w.honest && w.signed <= v.signed && w.hashed <= v.hashed
    && |w.servers| <= |v.servers| && |w.clients| <= |v.clients|
    && (forall j | 0 <= j < |w.servers| ::
          v.servers[j].id == w.servers[j].id && v.servers[j].kemPk == w.servers[j].kemPk && v.servers[j].ct == w.servers[j].ct)
    && (forall i | 0 <= i < |w.clients| ::
          SameClient(w.clients[i], v.clients[i]))
  }

  lemma {:induction false} FactsGrow(w: World, v: World)
    requires Grows(w, v)
    ensures forall s | ServerFacts(w, s) :: ServerFacts(v, s)
    ensures forall c | ClientFacts(w, c) :: ClientFacts(v, c)
  {
    hide ServerInput, FinalInput, ServerTranscript, Transcript, Encapsulates, Verifies;
  }

  lemma {:induction false} ExplainedGrows(w: World, v: World, pk: Bytes, msg: Bytes)
    requires Grows(w, v) && Explained(w, pk, msg)
    ensures Explained(v, pk, msg)
  {
    hide ServerTranscript, Transcript;
    if |msg| < 164 {
      if j: nat :| SignedAsServer(w, pk, msg, j) {
        assert SignedAsServer(v, pk, msg, j);
      } else {
        var i :| SignedAsClient(w, pk, msg, i);
        assert SignedAsClient(v, pk, msg, i);
      }
    }
  }

  // ----- what the readers guarantee -----------------------------------------

  lemma {:induction false} ServerHelloFacts(sh: Bytes, kemPk: Bytes, policy: set<Bytes>)
    requires ReadServerHello(sh, kemPk, policy).Ok?
    ensures var (ct, serverPk, sig) := ReadServerHello(sh, kemPk, policy).value;
            && |ct| == CT_LEN && |serverPk| == PUBLIC_KEY_LEN && serverPk in policy
            && Verifies(serverPk, ServerTranscript(kemPk, ct, serverPk), sig)
  {
    hide ServerTranscript;
  }

  lemma {:induction false} ClientFinishFacts(cf: Bytes, s: Server)
    requires ReadClientFinish(cf, s.kemPk, s.ct, s.id, s.policy).Ok?
    ensures var (clientPk, _) := ReadClientFinish(cf, s.kemPk, s.ct, s.id, s.policy).value;
            |clientPk| == PUBLIC_KEY_LEN && clientPk in s.policy
  {
    hide Transcript;
  }

  lemma {:induction false} ClientHelloFacts(ch: Bytes)
    requires ReadClientHello(ch).Ok?
    ensures |ReadClientHello(ch).value| == EK_LEN
  {
  }

  // ----- every step keeps the invariant -------------------------------------

  lemma {:induction false} StepGrows(w: World, step: Step)
    requires Enabled(w, step)
    ensures Grows(w, Next(w, step))
  {
    hide ServerInput, FinalInput, ServerTranscript, Transcript, Encapsulates, ReadClientHello, ReadServerHello,
         ReadClientFinish, PayloadBytes, DeriveKeys;
  }

  /** Whatever a step signs is explained by the world after it. */
  lemma {:induction false} StepExplains(w: World, step: Step, x: (Bytes, Bytes))
    requires Inv(w) && Enabled(w, step) && x in Next(w, step).signed
    ensures Explained(Next(w, step), x.0, x.1)
  {
    hide ServerInput, FinalInput, ServerTranscript, Transcript, Encapsulates, ReadClientHello, ReadServerHello,
         ReadClientFinish, DeriveKeys, ServerFacts, ClientFacts;
    var v := Next(w, step);
    StepGrows(w, step);
    if x in w.signed {
      ExplainedGrows(w, v, x.0, x.1);
    } else {
      match step
      case Respond(id, policy, input, ct, shared) =>
        assert SignedAsServer(v, x.0, x.1, |w.servers|);
      case SignClient(i, input) =>
        assert SignedAsClient(v, x.0, x.1, i);
      case SignAuditEntry(id, logId, index, prevRoot, eventHash, newRoot) =>
        assert x.1 == PayloadBytes(logId, index, prevRoot, eventHash, newRoot);
      case _ =>
    }
  }

  lemma {:induction false} StepKeepsServers(w: World, step: Step)
    requires Inv(w) && Enabled(w, step)
    ensures forall s | s in Next(w, step).servers :: ServerFacts(Next(w, step), s)
  {
    hide ServerInput, FinalInput, ServerTranscript, Transcript, Encapsulates, ReadClientHello, ReadServerHello,
         ReadClientFinish, DeriveKeys, PayloadBytes, ClientFacts, Explained;
    var v := Next(w, step);
    StepGrows(w, step);
    FactsGrow(w, v);
    match step
    case Respond(id, policy, input, ct, shared) =>
      ClientHelloFacts(input);
      assert ServerFacts(v, v.servers[|w.servers|]);
    case FinishServer(j, input) =>
      ClientFinishFacts(input, w.servers[j]);
      assert ServerFacts(w, w.servers[j]);
      assert ServerFacts(v, v.servers[j]);
    case _ =>
  }

  lemma {:induction false} StepKeepsClients(w: World, step: Step)
    requires Inv(w) && Enabled(w, step)
    ensures forall c | c in Next(w, step).clients :: ClientFacts(Next(w, step), c)
  {
    hide ServerInput, FinalInput, ServerTranscript, Transcript, Encapsulates, ReadClientHello, ReadServerHello,
         ReadClientFinish, DeriveKeys, PayloadBytes, ServerFacts, Explained, Verifies;
    var v := Next(w, step);
    StepGrows(w, step);
    FactsGrow(w, v);
    match step
    case StartClient(id, policy, kemPk, sk) =>
      assert ClientFacts(v, v.clients[|w.clients|]);
    case SignClient(i, input) =>
      ServerHelloFacts(input, w.clients[i].kemPk, w.clients[i].policy);
      assert ClientFacts(w, w.clients[i]);
      assert ClientFacts(v, v.clients[i]);
    case FinishClient(i) =>
      assert ClientFacts(w, w.clients[i]);
      assert ClientFacts(v, w.clients[i]);
      assert ClientFacts(v, v.clients[i]);
    case _ =>
  }

  lemma {:induction false} StepKeepsFresh(w: World, step: Step)
    requires Inv(w) && Enabled(w, step)
    ensures var v := Next(w, step);
            && (forall i, j | 0 <= i < j < |v.servers| :: v.servers[i].ct != v.servers[j].ct)
            && (forall i, j | 0 <= i < j < |v.clients| :: v.clients[i].kemPk != v.clients[j].kemPk)
  {
    hide ServerInput, FinalInput, ServerTranscript, Transcript, Encapsulates, ReadClientHello, ReadServerHello,
         ReadClientFinish, DeriveKeys, PayloadBytes, ServerFacts, ClientFacts, Explained;
  }

  lemma {:induction false} RunKeepsInv(w: World, steps: seq<Step>, v: World)
    requires Inv(w) && Run(w, steps, v)
    ensures Inv(v)
    decreases |steps|
  {
    hide Enabled, Next, ServerFacts, ClientFacts, Explained;
    if steps != [] {
      var u := Next(w, steps[0]);
      StepKeepsServers(w, steps[0]);
      StepKeepsClients(w, steps[0]);
      StepKeepsFresh(w, steps[0]);
      forall x | x in u.signed ensures Explained(u, x.0, x.1) {
        StepExplains(w, steps[0], x);
      }
      RunKeepsInv(u, steps[1..], v);
    }
  }

  // ----- agreement ----------------------------------------------------------

  /** Two inputs of honest sessions with the same hash are the same. */
  lemma {:induction false} SameHashSameInput(w: World, x: Bytes, y: Bytes)
    requires CollisionFreeOn(w.hashed) && x in w.hashed && y in w.hashed
    requires Blake3(x).bytes == Blake3(y).bytes
    ensures x == y
  {
    assert Blake3(x) == Blake3(y);
  }

  lemma {:induction false} InputLengths(k: Bytes, ct: Bytes, s: Bytes, k': Bytes, ct': Bytes, s': Bytes, p: Bytes)
    requires Sized(k, ct, s) && Sized(k', ct', s') && |p| == PUBLIC_KEY_LEN
    ensures |ServerInput(k, ct, s)| < |FinalInput(k', ct', s', p)|
  {
  }

  /** Client i signed the handshake that server j is in: same client and server
      keys, same KEM key and ciphertext, the server's signature on them
      checked, and the two directional keys the client derives, or has
      derived, are the server's: the key derivation from the encapsulated
      secret and the full transcript. */
  ghost predicate Agree(w: World, i: nat, j: nat)
  {
    && i < |w.clients| && j < |w.servers|
    && var c, s := w.clients[i], w.servers[j];
       && !c.phase.AwaitHello? && s.phase.ServerDone?
       && c.id == s.phase.clientPk && c.phase.serverPk == s.id
       && c.kemPk == s.kemPk && c.phase.ct == s.ct
       && s.id in c.policy && c.id in s.policy
       && Verifies(s.id, ServerTranscript(c.kemPk, c.phase.ct, s.id), c.phase.serverSig)
       && c.phase.shared == s.shared && ClientKeys(c) == s.phase.keys
       && (s.phase.keys.c2s, s.phase.keys.s2c) == Hkdf(s.shared, Transcript(s.kemPk, s.ct, s.id, c.id))
       && (c.phase.ClientDone? ==> c.phase.keys == s.phase.keys)
  }

  /** An honest key never signs a final transcript except as a client that
      signed for exactly those fields. */
  lemma {:induction false} FinalTranscriptSigner(w: World, pk: Bytes, k: Bytes, ct: Bytes, serverPk: Bytes) returns (i: nat)
    requires Inv(w) && CollisionFreeOn(w.hashed) && Sized(k, ct, serverPk) && |pk| == PUBLIC_KEY_LEN
    requires FinalInput(k, ct, serverPk, pk) in w.hashed
    requires (pk, Transcript(k, ct, serverPk, pk)) in w.signed
    ensures i < |w.clients| && w.clients[i].id == pk && !w.clients[i].phase.AwaitHello?
    ensures w.clients[i].kemPk == k && w.clients[i].phase.ct == ct && w.clients[i].phase.serverPk == serverPk
  {
    hide PayloadBytes;
    var msg := Transcript(k, ct, serverPk, pk);
    assert Explained(w, pk, msg);
    if j: nat :| SignedAsServer(w, pk, msg, j) {
      var s := w.servers[j];
      assert ServerFacts(w, s);
      InputLengths(s.kemPk, s.ct, s.id, k, ct, serverPk, pk);
      SameHashSameInput(w, FinalInput(k, ct, serverPk, pk), ServerInput(s.kemPk, s.ct, s.id));
      assert false;
    }
    i :| SignedAsClient(w, pk, msg, i);
    var c := w.clients[i];
    assert ClientFacts(w, c);
    SameHashSameInput(w, FinalInput(k, ct, serverPk, pk), FinalInput(c.kemPk, c.phase.ct, c.phase.serverPk, c.id));
    FinalInputInjective(k, ct, serverPk, pk, c.kemPk, c.phase.ct, c.phase.serverPk, c.id);
  }

  /** Agreement, server side.  In every state of every run, if a server has
      accepted an honest client key, some session of that client signed the
      very same handshake, after checking this server's signature, and both
      ends derive the same keys.  That session need not have finished: its
      write may have been reported as failed after the bytes had left. */
  lemma {:induction false} ServerAgreement(init: World, steps: seq<Step>, w: World, j: nat) returns (i: nat)
    requires Init(init) && Run(init, steps, w) && CollisionFreeOn(w.hashed)
    requires j < |w.servers| && w.servers[j].phase.ServerDone? && w.servers[j].phase.clientPk in w.honest
    ensures Agree(w, i, j)
  {
    hide Run, ServerInput, FinalInput, ServerTranscript, Transcript, Explained, Verifies;
    RunKeepsInv(init, steps, w);
    var s := w.servers[j];
    assert ServerFacts(w, s);
    i := FinalTranscriptSigner(w, s.phase.clientPk, s.kemPk, s.ct, s.id);
    var c := w.clients[i];
    assert ClientFacts(w, c);
    assert Decaps(c.sk, s.ct) == Some(s.shared);
  }

  lemma {:induction false} RunSnoc(w: World, steps: seq<Step>, v: World, step: Step)
    requires Run(w, steps, v) && Enabled(v, step)
    ensures Run(w, steps + [step], Next(v, step))
    decreases |steps|
  {
    hide Enabled, Next;
    var all := steps + [step];
    if steps == [] {
      assert all[0] == step && all[1..] == [];
      assert Run(Next(v, step), [], Next(v, step));
    } else {
      RunSnoc(Next(w, steps[0]), steps[1..], v, step);
      assert all[0] == steps[0] && all[1..] == steps[1..] + [step];
    }
  }

  /** The agreement theorems speak of something: honest, mutually trusting keys
      have a run in which client and server finish and agree. */
  lemma {:induction false} HonestRunAgrees(
      honest: set<Bytes>, clientPk: Bytes, serverPk: Bytes, clientPolicy: set<Bytes>, serverPolicy: set<Bytes>,
      kemPk: Bytes, sk: Bytes, ct: Bytes, shared: Bytes, serverSig: Bytes, clientSig: Bytes)
    returns (init: World, steps: seq<Step>, w: World)
    requires {clientPk, serverPk} <= honest && |clientPk| == PUBLIC_KEY_LEN && |serverPk| == PUBLIC_KEY_LEN
    requires serverPk in clientPolicy && clientPk in serverPolicy
    requires |kemPk| == EK_LEN && KemKeyParses(kemPk) && KemPair(kemPk, sk) && Encapsulates(kemPk, ct, shared)
    requires Verifies(serverPk, ServerTranscript(kemPk, ct, serverPk), serverSig)
    requires Verifies(clientPk, Transcript(kemPk, ct, serverPk, clientPk), clientSig)
    ensures Init(init) && init.honest == honest && Run(init, steps, w)
    ensures Agree(w, 0, 0) && w.clients[0].phase.ClientDone?
  {
    hide ServerInput, FinalInput, ServerTranscript, Transcript, ReadClientHello, ReadServerHello, ReadClientFinish, Run,
         ClientHello, ServerHello, ClientFinish, Encapsulates;
    init := World(honest, [], [], {}, {});
    ReadsClientHello(kemPk);
    var a := Next(init, StartClient(clientPk, clientPolicy, kemPk, sk));
    var respond := Respond(serverPk, serverPolicy, ClientHello(kemPk), ct, shared);
    var b := Next(a, respond);
    EncapsulatedParses(kemPk, sk, ct, shared);
    ReadsServerHello(ct, serverPk, serverSig, kemPk, clientPolicy);
    var sign := SignClient(0, ServerHello(ct, serverPk, serverSig));
    var c := Next(b, sign);
    var d := Next(c, FinishClient(0));
    ReadsClientFinish(clientPk, clientSig, kemPk, ct, serverPk, serverPolicy);
    var finish := FinishServer(0, ClientFinish(clientPk, clientSig));
    w := Next(d, finish);
    EmptyRun(init);
    RunSnoc(init, [], init, StartClient(clientPk, clientPolicy, kemPk, sk));
    steps := [] + [StartClient(clientPk, clientPolicy, kemPk, sk)];
    RunSnoc(init, steps, a, respond);
    steps := steps + [respond];
    RunSnoc(init, steps, b, sign);
    steps := steps + [sign];
    RunSnoc(init, steps, c, FinishClient(0));
    steps := steps + [FinishClient(0)];
    RunSnoc(init, steps, d, finish);
    steps := steps + [finish];
  }

  lemma {:induction false} EmptyRun(w: World)
    ensures Run(w, [], w)
  {
  }

  lemma {:induction false} EncapsulatedParses(kemPk: Bytes, sk: Bytes, ct: Bytes, shared: Bytes)
    requires KemPair(kemPk, sk) && Encapsulates(kemPk, ct, shared)
    ensures |ct| == CT_LEN && CiphertextParses(ct) && Decaps(sk, ct) == Some(shared)
  {
  }

  /** The match is one to one: a client session agrees with at most one server
      session, and a server session with at most one client session. */
  lemma {:induction false} AgreementIsInjective(init: World, steps: seq<Step>, w: World, i: nat, j: nat, i': nat, j': nat)
    requires Init(init) && Run(init, steps, w)
    requires Agree(w, i, j) && Agree(w, i', j')
    ensures i == i' <==> j == j'
  {
    hide Run, ServerTranscript, Explained, Verifies, ServerFacts, ClientFacts;
    RunKeepsInv(init, steps, w);
  }

  /** Agreement, client side.  If a client has signed for an honest server
      key, some session of that server answered this client's KEM key with
      this ciphertext, and holds the secret the client decapsulated. */
  lemma {:induction false} ClientAgreement(init: World, steps: seq<Step>, w: World, i: nat) returns (j: nat)
    requires Init(init) && Run(init, steps, w) && CollisionFreeOn(w.hashed)
    requires i < |w.clients| && !w.clients[i].phase.AwaitHello? && w.clients[i].phase.serverPk in w.honest
    ensures j < |w.servers| && w.servers[j].id == w.clients[i].phase.serverPk
    ensures w.servers[j].kemPk == w.clients[i].kemPk && w.servers[j].ct == w.clients[i].phase.ct
    ensures w.servers[j].shared == w.clients[i].phase.shared
  {
    hide Run, Verifies;
    RunKeepsInv(init, steps, w);
    var c := w.clients[i];
    assert ClientFacts(w, c);
    j := ServerTranscriptSigner(w, c.phase.serverPk, c.kemPk, c.phase.ct);
    assert ServerFacts(w, w.servers[j]);
  }

  /** An honest key never signs a server transcript except as a server. */
  lemma {:induction false} ServerTranscriptSigner(w: World, pk: Bytes, k: Bytes, ct: Bytes) returns (j: nat)
    requires Inv(w) && CollisionFreeOn(w.hashed) && Sized(k, ct, pk)
    requires ServerInput(k, ct, pk) in w.hashed
    requires (pk, ServerTranscript(k, ct, pk)) in w.signed
    ensures j < |w.servers| && w.servers[j].id == pk && w.servers[j].kemPk == k && w.servers[j].ct == ct
  {
    hide Encapsulates, PayloadBytes;
    var msg := ServerTranscript(k, ct, pk);
    assert Explained(w, pk, msg);
    if i: nat :| SignedAsClient(w, pk, msg, i) {
      var c := w.clients[i];
      assert ClientFacts(w, c);
      InputLengths(k, ct, pk, c.kemPk, c.phase.ct, c.phase.serverPk, c.id);
      SameHashSameInput(w, ServerInput(k, ct, pk), FinalInput(c.kemPk, c.phase.ct, c.phase.serverPk, c.id));
      assert false;
    }
    j :| SignedAsServer(w, pk, msg, j);
    var s := w.servers[j];
    assert ServerFacts(w, s);
    SameHashSameInput(w, ServerInput(k, ct, pk), ServerInput(s.kemPk, s.ct, s.id));
    ServerInputInjective(k, ct, pk, s.kemPk, s.ct, s.id);
  }

  /** What a finished session fed to the key derivation. */
  function ClientKeyInput(c: Client): (Bytes, Bytes)
    requires c.phase.ClientDone?
  {
    (c.phase.shared, Transcript(c.kemPk, c.phase.ct, c.phase.serverPk, c.id))
  }

  function ServerKeyInput(s: Server): (Bytes, Bytes)
    requires s.phase.ServerDone?
  {
    (s.shared, Transcript(s.kemPk, s.ct, s.id, s.phase.clientPk))
  }

  /** The inputs of all finished sessions. */
  ghost predicate KeyInput(w: World, x: (Bytes, Bytes))
  {
    || (exists c | c in w.clients :: c.phase.ClientDone? && x == ClientKeyInput(c))
    || (exists s | s in w.servers :: s.phase.ServerDone? && x == ServerKeyInput(s))
  }

  /** The key derivation separates the inputs of finished sessions. */
  ghost predicate HkdfSeparates(w: World)
  {
    forall x, y | KeyInput(w, x) && KeyInput(w, y) && Hkdf(x.0, x.1) == Hkdf(y.0, y.1) :: x == y
  }

  ghost predicate HkdfOf(keys: Keys, x: (Bytes, Bytes)) { (keys.c2s, keys.s2c) == Hkdf(x.0, x.1) }

  /** Every finished session's keys are the key derivation of its own input. */
  lemma {:induction false} KeysAreDerived(w: World)
    requires Inv(w)
    ensures forall c | c in w.clients && c.phase.ClientDone? :: HkdfOf(c.phase.keys, ClientKeyInput(c))
    ensures forall s | s in w.servers && s.phase.ServerDone? :: HkdfOf(s.phase.keys, ServerKeyInput(s))
  {
    hide ServerTranscript, Transcript, Explained, Verifies, Encapsulates, ServerInput, FinalInput;
    forall c | c in w.clients && c.phase.ClientDone? ensures HkdfOf(c.phase.keys, ClientKeyInput(c)) {
      assert ClientFacts(w, c);
    }
    forall s | s in w.servers && s.phase.ServerDone? ensures HkdfOf(s.phase.keys, ServerKeyInput(s)) {
      assert ServerFacts(w, s);
    }
  }

  /** Keys identify the handshake.  With a hash and a key derivation that
      separate what was fed to them, a finished client and a finished server
      hold the same keys if and only if they are the two ends of one
      handshake: same identities, same KEM key, same ciphertext. */
  lemma {:induction false} SameKeysIffSameHandshake(init: World, steps: seq<Step>, w: World, i: nat, j: nat)
    requires Init(init) && Run(init, steps, w) && CollisionFreeOn(w.hashed) && HkdfSeparates(w)
    requires i < |w.clients| && w.clients[i].phase.ClientDone?
    requires j < |w.servers| && w.servers[j].phase.ServerDone?
    ensures var c, s := w.clients[i], w.servers[j];
            c.phase.keys == s.phase.keys <==>
            (c.id == s.phase.clientPk && c.phase.serverPk == s.id && c.kemPk == s.kemPk && c.phase.ct == s.ct)
  {
    hide Run, ServerTranscript, ServerInput, FinalInput, Explained, Verifies, HkdfSeparates;
    RunKeepsInv(init, steps, w);
    KeysAreDerived(w);
    var c, s := w.clients[i], w.servers[j];
    assert ClientFacts(w, c) && ServerFacts(w, s);
    if c.phase.keys == s.phase.keys {
      SeparateInputs(w, ClientKeyInput(c), ServerKeyInput(s), c.phase.keys);
      SameHashSameInput(w, FinalInput(c.kemPk, c.phase.ct, c.phase.serverPk, c.id),
                        FinalInput(s.kemPk, s.ct, s.id, s.phase.clientPk));
      FinalInputInjective(c.kemPk, c.phase.ct, c.phase.serverPk, c.id, s.kemPk, s.ct, s.id, s.phase.clientPk);
    }
  }

  lemma {:induction false} SeparateInputs(w: World, x: (Bytes, Bytes), y: (Bytes, Bytes), keys: Keys)
    requires HkdfSeparates(w) && KeyInput(w, x) && KeyInput(w, y) && HkdfOf(keys, x) && HkdfOf(keys, y)
    ensures x == y
  {
    hide KeyInput;
  }

  /** No two finished server sessions share keys. */
  lemma {:induction false} ServerKeysDiffer(init: World, steps: seq<Step>, w: World, j: nat, j': nat)
    requires Init(init) && Run(init, steps, w) && CollisionFreeOn(w.hashed) && HkdfSeparates(w)
    requires j < |w.servers| && j' < |w.servers| && w.servers[j].phase.ServerDone? && w.servers[j'].phase.ServerDone?
    ensures w.servers[j].phase.keys == w.servers[j'].phase.keys <==> j == j'
  {
    hide Run, ServerTranscript, ServerInput, FinalInput, Explained, Verifies, HkdfSeparates, ClientFacts;
    RunKeepsInv(init, steps, w);
    KeysAreDerived(w);
    var s, t := w.servers[j], w.servers[j'];
    assert ServerFacts(w, s) && ServerFacts(w, t);
    if s.phase.keys == t.phase.keys {
      SeparateInputs(w, ServerKeyInput(s), ServerKeyInput(t), s.phase.keys);
      SameHashSameInput(w, FinalInput(s.kemPk, s.ct, s.id, s.phase.clientPk), FinalInput(t.kemPk, t.ct, t.id, t.phase.clientPk));
      FinalInputInjective(s.kemPk, s.ct, s.id, s.phase.clientPk, t.kemPk, t.ct, t.id, t.phase.clientPk);
    }
  }

  /** No two finished client sessions share keys. */
  lemma {:induction false} ClientKeysDiffer(init: World, steps: seq<Step>, w: World, i: nat, i': nat)
    requires Init(init) && Run(init, steps, w) && CollisionFreeOn(w.hashed) && HkdfSeparates(w)
    requires i < |w.clients| && i' < |w.clients| && w.clients[i].phase.ClientDone? && w.clients[i'].phase.ClientDone?
    ensures w.clients[i].phase.keys == w.clients[i'].phase.keys <==> i == i'
  {
    hide Run, ServerTranscript, ServerInput, FinalInput, Explained, Verifies, HkdfSeparates, ServerFacts;
    RunKeepsInv(init, steps, w);
    KeysAreDerived(w);
    var c, d := w.clients[i], w.clients[i'];
    assert ClientFacts(w, c) && ClientFacts(w, d);
    if c.phase.keys == d.phase.keys {
      SeparateInputs(w, ClientKeyInput(c), ClientKeyInput(d), c.phase.keys);
      SameHashSameInput(w, FinalInput(c.kemPk, c.phase.ct, c.phase.serverPk, c.id),
                        FinalInput(d.kemPk, d.phase.ct, d.phase.serverPk, d.id));
      FinalInputInjective(c.kemPk, c.phase.ct, c.phase.serverPk, c.id, d.kemPk, d.phase.ct, d.phase.serverPk, d.id);
    }
  }

  /** The two directions of a session use different keys whenever the two
      halves of the key derivation differ on its input. */
  lemma {:induction false} DirectionsDiffer(init: World, steps: seq<Step>, w: World)
    requires Init(init) && Run(init, steps, w)
    ensures forall c | c in w.clients && c.phase.ClientDone? ::
              var x := ClientKeyInput(c); c.phase.keys.c2s != c.phase.keys.s2c <==> Hkdf(x.0, x.1).0 != Hkdf(x.0, x.1).1
    ensures forall s | s in w.servers && s.phase.ServerDone? ::
              var x := ServerKeyInput(s); s.phase.keys.c2s != s.phase.keys.s2c <==> Hkdf(x.0, x.1).0 != Hkdf(x.0, x.1).1
  {
    hide Run, ClientKeyInput, ServerKeyInput, Explained, ClientFacts, ServerFacts;
    RunKeepsInv(init, steps, w);
    KeysAreDerived(w);
    forall c | c in w.clients && c.phase.ClientDone?
      ensures var x := ClientKeyInput(c); c.phase.keys.c2s != c.phase.keys.s2c <==> Hkdf(x.0, x.1).0 != Hkdf(x.0, x.1).1
    {
      assert HkdfOf(c.phase.keys, ClientKeyInput(c));
    }
    forall s | s in w.servers && s.phase.ServerDone?
      ensures var x := ServerKeyInput(s); s.phase.keys.c2s != s.phase.keys.s2c <==> Hkdf(x.0, x.1).0 != Hkdf(x.0, x.1).1
    {
      assert HkdfOf(s.phase.keys, ServerKeyInput(s));
    }
  }

  /** The three kinds of message one key may sign under the shared context
      string never coincide. */
  lemma {:induction false} SignedMessagesDisjoint(
      k: Bytes, ct: Bytes, s: Bytes, k': Bytes, ct': Bytes, s': Bytes, p: Bytes,
      logId: LogId, index: nat, prevRoot: Digest, eventHash: Digest, newRoot: Digest, hashed: set<Bytes>)
    requires Sized(k, ct, s) && Sized(k', ct', s') && |p| == PUBLIC_KEY_LEN
    requires CollisionFreeOn(hashed) && {ServerInput(k, ct, s), FinalInput(k', ct', s', p)} <= hashed
    ensures ServerTranscript(k, ct, s) != Transcript(k', ct', s', p)
    ensures ServerTranscript(k, ct, s) != PayloadBytes(logId, index, prevRoot, eventHash, newRoot)
    ensures Transcript(k', ct', s', p) != PayloadBytes(logId, index, prevRoot, eventHash, newRoot)
  {
    hide PayloadBytes;
    InputLengths(k, ct, s, k', ct', s', p);
    assert ServerTranscript(k, ct, s) == Transcript(k', ct', s', p) ==>
           Blake3(ServerInput(k, ct, s)) == Blake3(FinalInput(k', ct', s', p));
  }
}
