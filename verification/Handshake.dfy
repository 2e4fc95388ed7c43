/** The three-message CSPQ handshake: messages and checks byte for byte,
    primitives ideal. */
module Handshake {
  import opened Bytes
  import opened Wrappers
  import opened Signing
  import opened Framing

  const SUITE_ID: nat := 0x0001
  const SUITE_BYTES: Bytes := [0x00, 0x01]
  const EK_LEN: nat := 1568
  const CT_LEN: nat := 1568
  const MSG_CLIENT_HELLO: Byte := 1
  const MSG_SERVER_HELLO: Byte := 2
  const MSG_CLIENT_FINISH: Byte := 3
  const HELLO_CAP: nat := 4096
  const REPLY_CAP: nat := 16 * 1024

  // ML-KEM-1024, uninterpreted: which key pairs key generation makes, which
  // byte strings parse, and decapsulation.
  const KemPair: (Bytes, Bytes) -> bool
  const KemKeyParses: Bytes -> bool
  const CiphertextParses: Bytes -> bool
  const Decaps: (Bytes, Bytes) -> Option<Bytes>

  /** HKDF with the fixed salt: (shared secret, info) to 64 bytes. */
  const Hkdf: (Bytes, Bytes) -> (Bytes32, Bytes32)

  datatype Keys = Keys(c2s: Bytes32, s2c: Bytes32)

  datatype HandshakeError =
    | EmptyPolicy
    | BadSize
    | BadMessageType
    | UnsupportedSuite(suite: nat)
    | Malformed
    | UntrustedPeer
    | BadPeerSignature
    | CryptoFailure

  // ----- transcripts --------------------------------------------------------

  /** What the server signs the hash of. */
  function ServerInput(kemPk: Bytes, ct: Bytes, serverPk: Bytes): Bytes
  {
    SUITE_BYTES + kemPk + ct + serverPk
  }

  /** What the client signs the hash of, and what the keys are bound to. */
  function FinalInput(kemPk: Bytes, ct: Bytes, serverPk: Bytes, clientPk: Bytes): Bytes
  {
    ServerInput(kemPk, ct, serverPk) + clientPk
  }

  function ServerTranscript(kemPk: Bytes, ct: Bytes, serverPk: Bytes): Bytes
  {
    Blake3(ServerInput(kemPk, ct, serverPk)).bytes
  }

  function Transcript(kemPk: Bytes, ct: Bytes, serverPk: Bytes, clientPk: Bytes): Bytes
  {
    Blake3(FinalInput(kemPk, ct, serverPk, clientPk)).bytes
  }

  function DeriveKeys(shared: Bytes, transcript: Bytes): Keys
  {
    var (a, b) := Hkdf(shared, transcript);
    Keys(a, b)
  }

  predicate Sized(kemPk: Bytes, ct: Bytes, serverPk: Bytes)
  {
    |kemPk| == EK_LEN && |ct| == CT_LEN && |serverPk| == PUBLIC_KEY_LEN
  }

  /** Fixed field lengths make the server's input unambiguous. */
  lemma {:induction false} ServerInputInjective(k: Bytes, c: Bytes, s: Bytes, k': Bytes, c': Bytes, s': Bytes)
    requires Sized(k, c, s) && Sized(k', c', s') && ServerInput(k, c, s) == ServerInput(k', c', s')
    ensures k == k' && c == c' && s == s'
  {
    SplitEqual(SUITE_BYTES + k + c, s, SUITE_BYTES + k' + c', s');
    SplitEqual(SUITE_BYTES + k, c, SUITE_BYTES + k', c');
    SplitEqual(SUITE_BYTES, k, SUITE_BYTES, k');
  }

  lemma {:induction false} FinalInputInjective(k: Bytes, c: Bytes, s: Bytes, p: Bytes, k': Bytes, c': Bytes, s': Bytes, p': Bytes)
    requires Sized(k, c, s) && Sized(k', c', s') && FinalInput(k, c, s, p) == FinalInput(k', c', s', p')
    ensures k == k' && c == c' && s == s' && p == p'
  {
    SplitEqual(ServerInput(k, c, s), p, ServerInput(k', c', s'), p');
    ServerInputInjective(k, c, s, k', c', s');
  }

  // ----- messages -----------------------------------------------------------

  function ClientHello(kemPk: Bytes): Bytes { [MSG_CLIENT_HELLO] + SUITE_BYTES + kemPk }

  function ServerHello(ct: Bytes, serverPk: Bytes, sig: Bytes): Bytes { [MSG_SERVER_HELLO] + ct + serverPk + sig }

  function ClientFinish(clientPk: Bytes, sig: Bytes): Bytes { [MSG_CLIENT_FINISH] + clientPk + sig }

  /** The server's reading of CLIENT_HELLO: the client's KEM key. */
  function ReadClientHello(ch: Bytes): Result<Bytes, HandshakeError>
  {
    if |ch| != 1 + 2 + EK_LEN then Err(BadSize)
    else if ch[0] != MSG_CLIENT_HELLO then Err(BadMessageType)
    else if ch[1..3] != SUITE_BYTES then Err(UnsupportedSuite(256 * ch[1] as nat + ch[2] as nat))
    else if !KemKeyParses(ch[3..]) then Err(Malformed)
    else Ok(ch[3..])
  }

  /** The client's reading of SERVER_HELLO up to decapsulation: ciphertext,
      server key and signature, all checked. */
  function ReadServerHello(sh: Bytes, kemPk: Bytes, policy: set<Bytes>): Result<(Bytes, Bytes, Bytes), HandshakeError>
  {
    if |sh| != 1 + CT_LEN + PUBLIC_KEY_LEN + SIGNATURE_LEN then Err(BadSize)
    else if sh[0] != MSG_SERVER_HELLO then Err(BadMessageType)
    else
      var ct := sh[1..1 + CT_LEN];
      var serverPk := sh[1 + CT_LEN..1 + CT_LEN + PUBLIC_KEY_LEN];
      var sig := sh[1 + CT_LEN + PUBLIC_KEY_LEN..];
      if serverPk !in policy then Err(UntrustedPeer)
      else if !Verifies(serverPk, ServerTranscript(kemPk, ct, serverPk), sig) then Err(BadPeerSignature)
      else if !CiphertextParses(ct) then Err(Malformed)
      else Ok((ct, serverPk, sig))
  }

  /** The server's reading of CLIENT_FINISH: client key and signature. */
  function ReadClientFinish(cf: Bytes, kemPk: Bytes, ct: Bytes, serverPk: Bytes, policy: set<Bytes>):
    Result<(Bytes, Bytes), HandshakeError>
  {
    if |cf| != 1 + PUBLIC_KEY_LEN + SIGNATURE_LEN then Err(BadSize)
    else if cf[0] != MSG_CLIENT_FINISH then Err(BadMessageType)
    else
      var clientPk := cf[1..1 + PUBLIC_KEY_LEN];
      var sig := cf[1 + PUBLIC_KEY_LEN..];
      if clientPk !in policy then Err(UntrustedPeer)
      else if !Verifies(clientPk, Transcript(kemPk, ct, serverPk, clientPk), sig) then Err(BadPeerSignature)
      else Ok((clientPk, sig))
  }

  // ----- what is on the wire ------------------------------------------------

  /** Message types, suite and field order on the wire, and what is hashed for
      the two signatures and the keys. */
  lemma {:induction false} WireLayout(kemPk: Bytes, ct: Bytes, serverPk: Bytes, clientPk: Bytes, sig: Bytes)
    requires Sized(kemPk, ct, serverPk) && |clientPk| == PUBLIC_KEY_LEN && |sig| == SIGNATURE_LEN
    ensures ClientHello(kemPk)[..3] == [1, 0, 1] && ClientHello(kemPk)[3..] == kemPk
    ensures var sh := ServerHello(ct, serverPk, sig);
            sh[0] == 2 && sh[1..1569] == ct && sh[1569..4161] == serverPk && sh[4161..8788] == sig && |sh| == 8788
    ensures var cf := ClientFinish(clientPk, sig);
            cf[0] == 3 && cf[1..2593] == clientPk && cf[2593..7220] == sig && |cf| == 7220
    ensures var h := FinalInput(kemPk, ct, serverPk, clientPk);
            && h[..2] == [0, 1] && h[2..1570] == kemPk && h[1570..3138] == ct && h[3138..5730] == serverPk
            && h[5730..] == clientPk && ServerInput(kemPk, ct, serverPk) == h[..5730]
  {
    var h, s := FinalInput(kemPk, ct, serverPk, clientPk), ServerInput(kemPk, ct, serverPk);
    assert s == h[..5730];
    assert s[2..1570] == kemPk && s[1570..3138] == ct && s[3138..5730] == serverPk;
    assert h[2..1570] == s[2..1570] && h[1570..3138] == s[1570..3138] && h[3138..5730] == s[3138..5730];
  }

  /** The server's reader takes exactly the encodings of usable KEM keys. */
  lemma {:induction false} ReadClientHelloIff(ch: Bytes, kemPk: Bytes)
    ensures ReadClientHello(ch) == Ok(kemPk) <==> ch == ClientHello(kemPk) && |kemPk| == EK_LEN && KemKeyParses(kemPk)
  {
    if ReadClientHello(ch) == Ok(kemPk) {
      assert ch == [ch[0]] + ch[1..3] + ch[3..];
    }
    if ch == ClientHello(kemPk) && |kemPk| == EK_LEN && KemKeyParses(kemPk) {
      ReadsClientHello(kemPk);
    }
  }

  /** The client's reader takes exactly the encodings of a parsing ciphertext
      with a trusted key's verifying signature over this handshake. */
  lemma {:induction false} ReadServerHelloIff(sh: Bytes, kemPk: Bytes, policy: set<Bytes>, ct: Bytes, serverPk: Bytes, sig: Bytes)
    ensures ReadServerHello(sh, kemPk, policy) == Ok((ct, serverPk, sig)) <==>
            && sh == ServerHello(ct, serverPk, sig) && |ct| == CT_LEN && CiphertextParses(ct)
            && serverPk in policy && Verifies(serverPk, ServerTranscript(kemPk, ct, serverPk), sig)
  {
    hide ServerTranscript;
    if ReadServerHello(sh, kemPk, policy) == Ok((ct, serverPk, sig)) {
      var k, l := 1 + CT_LEN, 1 + CT_LEN + PUBLIC_KEY_LEN;
      assert sh == [sh[0]] + sh[1..k] + sh[k..l] + sh[l..];
    }
    if && sh == ServerHello(ct, serverPk, sig) && |ct| == CT_LEN && CiphertextParses(ct)
       && serverPk in policy && Verifies(serverPk, ServerTranscript(kemPk, ct, serverPk), sig) {
      ReadsServerHello(ct, serverPk, sig, kemPk, policy);
    }
  }

  /** The server's second reader, likewise. */
  lemma {:induction false} ReadClientFinishIff(cf: Bytes, kemPk: Bytes, ct: Bytes, serverPk: Bytes, policy: set<Bytes>,
                                               clientPk: Bytes, sig: Bytes)
    ensures ReadClientFinish(cf, kemPk, ct, serverPk, policy) == Ok((clientPk, sig)) <==>
            && cf == ClientFinish(clientPk, sig) && clientPk in policy
            && Verifies(clientPk, Transcript(kemPk, ct, serverPk, clientPk), sig)
  {
    hide Transcript;
    if ReadClientFinish(cf, kemPk, ct, serverPk, policy) == Ok((clientPk, sig)) {
      assert cf == [cf[0]] + cf[1..1 + PUBLIC_KEY_LEN] + cf[1 + PUBLIC_KEY_LEN..];
    }
    if && cf == ClientFinish(clientPk, sig) && clientPk in policy
       && Verifies(clientPk, Transcript(kemPk, ct, serverPk, clientPk), sig) {
      ReadsClientFinish(clientPk, sig, kemPk, ct, serverPk, policy);
    }
  }

  // ----- honest completion --------------------------------------------------

  /** Encapsulation against `kemPk` gave (ct, shared): every matching secret
      key decapsulates to it. */
  ghost predicate Encapsulates(kemPk: Bytes, ct: Bytes, shared: Bytes)
  {
    |ct| == CT_LEN && CiphertextParses(ct) && forall sk | KemPair(kemPk, sk) :: Decaps(sk, ct) == Some(shared)
  }

  lemma {:induction false} ReadsClientHello(kemPk: Bytes)
    requires |kemPk| == EK_LEN && KemKeyParses(kemPk)
    ensures ReadClientHello(ClientHello(kemPk)) == Ok(kemPk)
  {
    var ch := ClientHello(kemPk);
    assert ch[1..3] == SUITE_BYTES && ch[3..] == kemPk;
  }

  lemma {:induction false} ReadsServerHello(ct: Bytes, serverPk: Bytes, sig: Bytes, kemPk: Bytes, policy: set<Bytes>)
    requires |ct| == CT_LEN && CiphertextParses(ct) && serverPk in policy
    requires Verifies(serverPk, ServerTranscript(kemPk, ct, serverPk), sig)
    ensures ReadServerHello(ServerHello(ct, serverPk, sig), kemPk, policy) == Ok((ct, serverPk, sig))
  {
    hide ServerTranscript;
    var sh := ServerHello(ct, serverPk, sig);
    assert sh[1..1 + CT_LEN] == ct;
    assert sh[1 + CT_LEN..1 + CT_LEN + PUBLIC_KEY_LEN] == serverPk;
    assert sh[1 + CT_LEN + PUBLIC_KEY_LEN..] == sig;
  }

  lemma {:induction false} ReadsClientFinish(clientPk: Bytes, sig: Bytes, kemPk: Bytes, ct: Bytes, serverPk: Bytes, policy: set<Bytes>)
    requires clientPk in policy && Verifies(clientPk, Transcript(kemPk, ct, serverPk, clientPk), sig)
    ensures ReadClientFinish(ClientFinish(clientPk, sig), kemPk, ct, serverPk, policy) == Ok((clientPk, sig))
  {
    hide Transcript;
    var cf := ClientFinish(clientPk, sig);
    assert cf[1..1 + PUBLIC_KEY_LEN] == clientPk && cf[1 + PUBLIC_KEY_LEN..] == sig;
  }

  // ----- the two ends over a stream -----------------------------------------

  /** The client's opening: one framed CLIENT_HELLO. */
  method ConnectHello(out: Pipe, kemPk: Bytes, policy: set<Bytes>) returns (r: Option<HandshakeError>)
    requires |kemPk| == EK_LEN
    modifies out
    ensures r == if policy == {} then Some(EmptyPolicy) else None
    ensures out.data == if r.None? then old(out.data) + FrameBytes(ClientHello(kemPk)) else old(out.data)
  {
    if policy == {} {
      return Some(EmptyPolicy);
    }
    var e := out.WriteFrame(ClientHello(kemPk));
    return None;
  }

  /** The server's half up to SERVER_HELLO: read, encapsulate, sign, answer.
      Encapsulation and signing may fail, and then nothing is sent.  The
      result is the client's KEM key, the ciphertext and the secret. */
  method AcceptHello(input: Pipe, out: Pipe, policy: set<Bytes>, serverPk: Bytes,
                     encaps: Bytes -> Option<(Bytes, Bytes)>, sign: Bytes -> Option<Bytes>)
    returns (r: Result<(Bytes, Bytes, Bytes), HandshakeError>)
    requires input != out && |serverPk| == PUBLIC_KEY_LEN
    requires forall k | encaps(k).Some? :: |encaps(k).value.0| == CT_LEN
    requires forall m | sign(m).Some? :: |sign(m).value| == SIGNATURE_LEN
    modifies input, out
    ensures r.Err? ==> out.data == old(out.data)
    ensures policy == {} ==> r == Err(EmptyPolicy) && input.data == old(input.data)
    ensures policy != {} ==>
              match ParseFrame(old(input.data), 4096)
              case Err(_) => r == Err(Malformed)
              case Ok((body, rest)) =>
                && input.data == rest
                && match ReadClientHello(body)
                   case Err(e) => r == Err(e)
                   case Ok(kemPk) =>
                     if encaps(kemPk).None? then r == Err(CryptoFailure)
                     else
                       var (ct, shared) := encaps(kemPk).value;
                       var sig := sign(ServerTranscript(kemPk, ct, serverPk));
                       if sig.None? then r == Err(CryptoFailure)
                       else && r == Ok((kemPk, ct, shared))
                            && out.data == old(out.data) + FrameBytes(ServerHello(ct, serverPk, sig.value))
  {
    hide ParseFrame, ReadClientHello, ServerTranscript;
    if policy == {} {
      return Err(EmptyPolicy);
    }
    var frame := input.ReadFrame(HELLO_CAP);
    if frame.Err? {
      return Err(Malformed);
    }
    var hello := ReadClientHello(frame.value);
    if hello.Err? {
      return Err(hello.error);
    }
    var kemPk := hello.value;
    var encapsulated := encaps(kemPk);
    if encapsulated.None? {
      return Err(CryptoFailure);
    }
    var (ct, shared) := encapsulated.value;
    var sig := sign(ServerTranscript(kemPk, ct, serverPk));
    if sig.None? {
      return Err(CryptoFailure);
    }
    var e := out.WriteFrame(ServerHello(ct, serverPk, sig.value));
    return Ok((kemPk, ct, shared));
  }

  /** The client's half from SERVER_HELLO on: check, decapsulate, sign, send
      CLIENT_FINISH, derive.  Decapsulation and signing may fail, and then
      nothing is sent. */
  method ConnectFinish(input: Pipe, out: Pipe, policy: set<Bytes>, clientPk: Bytes, kemPk: Bytes, sk: Bytes,
                       sign: Bytes -> Option<Bytes>)
    returns (r: Result<(Bytes, Keys), HandshakeError>)
    requires input != out && |clientPk| == PUBLIC_KEY_LEN
    requires forall m | sign(m).Some? :: |sign(m).value| == SIGNATURE_LEN
    modifies input, out
    ensures r.Err? ==> out.data == old(out.data)
    ensures match ParseFrame(old(input.data), 16384)
            case Err(_) => r == Err(Malformed)
            case Ok((body, rest)) =>
              && input.data == rest
              && match ReadServerHello(body, kemPk, policy)
                 case Err(e) => r == Err(e)
                 case Ok((ct, serverPk, _)) =>
                   var t := Transcript(kemPk, ct, serverPk, clientPk);
                   if Decaps(sk, ct).None? || sign(t).None? then r == Err(CryptoFailure)
                   else && r.Ok? && r.value.0 == serverPk
                        && (r.value.1.c2s, r.value.1.s2c) == Hkdf(Decaps(sk, ct).value, t)
                        && out.data == old(out.data) + FrameBytes(ClientFinish(clientPk, sign(t).value))
  {
    hide ParseFrame, ReadServerHello, Transcript;
    var frame := input.ReadFrame(REPLY_CAP);
    if frame.Err? {
      return Err(Malformed);
    }
    var sh := ReadServerHello(frame.value, kemPk, policy);
    if sh.Err? {
      return Err(sh.error);
    }
    var (ct, serverPk, _) := sh.value;
    var shared := Decaps(sk, ct);
    if shared.None? {
      return Err(CryptoFailure);
    }
    var t := Transcript(kemPk, ct, serverPk, clientPk);
    var sig := sign(t);
    if sig.None? {
      return Err(CryptoFailure);
    }
    var e := out.WriteFrame(ClientFinish(clientPk, sig.value));
    return Ok((serverPk, DeriveKeys(shared.value, t)));
  }

  /** The server's half from CLIENT_FINISH on. */
  method AcceptFinish(input: Pipe, policy: set<Bytes>, serverPk: Bytes, kemPk: Bytes, ct: Bytes, shared: Bytes)
    returns (r: Result<(Bytes, Keys), HandshakeError>)
    modifies input
    ensures match ParseFrame(old(input.data), 16384)
            case Err(_) => r == Err(Malformed)
            case Ok((body, rest)) =>
              && input.data == rest
              && match ReadClientFinish(body, kemPk, ct, serverPk, policy)
                 case Err(e) => r == Err(e)
                 case Ok((clientPk, _)) =>
                   && r.Ok? && r.value.0 == clientPk
                   && (r.value.1.c2s, r.value.1.s2c) == Hkdf(shared, Transcript(kemPk, ct, serverPk, clientPk))
  {
    hide ParseFrame, ReadClientFinish, Transcript;
    var frame := input.ReadFrame(REPLY_CAP);
    if frame.Err? {
      return Err(Malformed);
    }
    var cf := ReadClientFinish(frame.value, kemPk, ct, serverPk, policy);
    if cf.Err? {
      return Err(cf.error);
    }
    var (clientPk, _) := cf.value;
    return Ok((clientPk, DeriveKeys(shared, Transcript(kemPk, ct, serverPk, clientPk))));
  }

  lemma {:induction false} TranscriptText(kemPk: Bytes, ct: Bytes, serverPk: Bytes, clientPk: Bytes)
    ensures Transcript(kemPk, ct, serverPk, clientPk) == Blake3([0x00, 0x01] + kemPk + ct + serverPk + clientPk).bytes
  {
  }

  lemma {:induction false} FrameAlone(body: Bytes, max: nat)
    requires |body| <= max && |body| <= MAX_FRAME
    ensures ParseFrame(FrameBytes(body), max) == Ok((body, []))
  {
    FrameRoundTrip(body, [], max);
    assert FrameBytes(body) + [] == FrameBytes(body);
  }

  /** Every honest, mutually trusting pair completes on a faithful connection:
      each message fits the reader's cap and is read back as sent, and both
      ends finish with the other's identity and the same two keys, which are
      the two halves of the key derivation from the encapsulated secret and
      the hash of suite, KEM key, ciphertext and both identities. */
  method HonestPairCompletes(
      clientPk: Bytes, serverPk: Bytes, clientPolicy: set<Bytes>, serverPolicy: set<Bytes>,
      kemPk: Bytes, sk: Bytes, encaps: Bytes -> Option<(Bytes, Bytes)>,
      clientSign: Bytes -> Option<Bytes>, serverSign: Bytes -> Option<Bytes>)
    returns (client: Result<(Bytes, Keys), HandshakeError>, server: Result<(Bytes, Keys), HandshakeError>)
    requires |kemPk| == EK_LEN && KemKeyParses(kemPk) && KemPair(kemPk, sk)
    requires forall k :: encaps(k).Some? && Encapsulates(k, encaps(k).value.0, encaps(k).value.1)
    requires serverPk in clientPolicy && clientPk in serverPolicy
    requires |clientPk| == PUBLIC_KEY_LEN && |serverPk| == PUBLIC_KEY_LEN
    requires forall m :: clientSign(m).Some? && Verifies(clientPk, m, clientSign(m).value)
    requires forall m :: serverSign(m).Some? && Verifies(serverPk, m, serverSign(m).value)
    ensures client.Ok? && server.Ok?
    ensures client.value.0 == serverPk && server.value.0 == clientPk
    ensures client.value.1 == server.value.1
    ensures var (ct, shared) := encaps(kemPk).value;
            var t := Blake3([0x00, 0x01] + kemPk + ct + serverPk + clientPk).bytes;
            (client.value.1.c2s, client.value.1.s2c) == Hkdf(shared, t)
  {
    hide ParseFrame, FrameBytes, ReadClientHello, ReadServerHello, ReadClientFinish, ServerTranscript, Transcript;
    var up := new Pipe();
    var down := new Pipe();
    var e := ConnectHello(up, kemPk, clientPolicy);
    assert up.data == [] + FrameBytes(ClientHello(kemPk)) == FrameBytes(ClientHello(kemPk));
    FrameAlone(ClientHello(kemPk), HELLO_CAP);
    ReadsClientHello(kemPk);
    var hello := AcceptHello(up, down, serverPolicy, serverPk, encaps, serverSign);
    var (ct, shared) := encaps(kemPk).value;
    assert Encapsulates(kemPk, ct, shared);
    var serverSig := serverSign(ServerTranscript(kemPk, ct, serverPk)).value;
    assert Verifies(serverPk, ServerTranscript(kemPk, ct, serverPk), serverSig);
    assert down.data == [] + FrameBytes(ServerHello(ct, serverPk, serverSig)) == FrameBytes(ServerHello(ct, serverPk, serverSig));
    FrameAlone(ServerHello(ct, serverPk, serverSig), REPLY_CAP);
    ReadsServerHello(ct, serverPk, serverSig, kemPk, clientPolicy);
    client := ConnectFinish(down, up, clientPolicy, clientPk, kemPk, sk, clientSign);
    var t := Transcript(kemPk, ct, serverPk, clientPk);
    assert Verifies(clientPk, t, clientSign(t).value);
    assert up.data == [] + FrameBytes(ClientFinish(clientPk, clientSign(t).value)) == FrameBytes(ClientFinish(clientPk, clientSign(t).value));
    FrameAlone(ClientFinish(clientPk, clientSign(t).value), REPLY_CAP);
    ReadsClientFinish(clientPk, clientSign(t).value, kemPk, ct, serverPk, serverPolicy);
    TranscriptText(kemPk, ct, serverPk, clientPk);
    server := AcceptFinish(up, serverPolicy, serverPk, kemPk, ct, shared);
  }
}
