/** The audit log as a value: header, signed entries, and what it means for a
    log to be accepted by verification. */
module LogModel {
  import opened Bytes
  import opened Wrappers
  import opened Merkle
  import opened Payload
  import opened Signing

  const WIRE_VERSION: nat := 1
  const SUITE_ID: string := "cspq-2026"

  type Time = int

  datatype Event = Event(
    schema: nat, timestamp: Time, actor: string, action: string,
    resource: string, outcome: string, metadata: map<string, string>)

  /** The canonical CBOR encoding of an event; uninterpreted. */
  const EventCbor: Event -> Bytes

  function ContentHash(e: Event): Digest { Blake3(EventCbor(e)) }

  datatype LogHeader = LogHeader(
    wireVersion: nat, suite: string, createdAt: Time, logId: LogId,
    pubkey: Bytes, logLabel: string, prevLogId: Option<LogId>, prevLogFinalRoot: Option<Digest>)

  datatype LogEntry = LogEntry(
    index: nat, appendedAt: Time, event: Event,
    prevRoot: Digest, newRoot: Digest, signature: Bytes)

  datatype Log = Log(header: LogHeader, entries: seq<LogEntry>)

  datatype LogError =
    | VersionMismatch(found: nat)
    | BadHeader
    | BadKey
    | InvalidEntry(index: nat)
    | ChainBroken(index: nat)
    | BadSignature(index: nat)
    | ReadOnly
    | SigningFailed
    | BadLogId
    | UnexpectedEof
    | BadCbor

  // ----- header and entry checks, in the order verification makes them ------

  function HeaderFault(h: LogHeader): Option<LogError>
  {
    if h.wireVersion != WIRE_VERSION then Some(VersionMismatch(h.wireVersion))
    else if h.suite != SUITE_ID then Some(BadHeader)
    else if |h.pubkey| != PUBLIC_KEY_LEN then Some(BadKey)
    else None
  }

  predicate ValidHeader(h: LogHeader)
  {
    h.wireVersion == WIRE_VERSION && h.suite == SUITE_ID && |h.pubkey| == PUBLIC_KEY_LEN
  }

  function EventHashes(entries: seq<LogEntry>): (d: seq<Digest>)
    ensures |d| == |entries|
    ensures forall i | 0 <= i < |entries| :: d[i] == ContentHash(entries[i].event)
  {
    if entries == [] then [] else [ContentHash(entries[0].event)] + EventHashes(entries[1..])
  }

  /** The Merkle root of a log: the tree hash over its event hashes. */
  function RootOfLog(entries: seq<LogEntry>): Digest { RootOf(EventHashes(entries)) }

  function EntryPayload(logId: LogId, e: LogEntry): Bytes
  {
    PayloadBytes(logId, e.index, e.prevRoot, ContentHash(e.event), e.newRoot)
  }

  /** Entry i sits at its own position, links the root before it to the root
      after it, and is signed. */
  predicate EntryOk(log: Log, i: nat)
    requires i < |log.entries|
  {
    var e := log.entries[i];
    && e.index == i
    && e.prevRoot == RootOfLog(log.entries[..i])
    && e.newRoot == RootOfLog(log.entries[..i + 1])
    && Verifies(log.header.pubkey, EntryPayload(log.header.logId, e), e.signature)
  }

  /** The declarative meaning of acceptance. */
  ghost predicate Accepted(log: Log)
  {
    ValidHeader(log.header) && forall i | 0 <= i < |log.entries| :: EntryOk(log, i)
  }

  /** What signature verification reports: lengths first, then the key, then
      the signature itself. */
  function SignatureFault(pk: Bytes, msg: Bytes, sig: Bytes, index: nat): (f: Option<LogError>)
    ensures f.None? <==> Verifies(pk, msg, sig)
  {
    if |pk| != PUBLIC_KEY_LEN then Some(BadKey)
    else if |sig| != SIGNATURE_LEN then Some(BadSignature(index))
    else if !MlDsaKeyParses(pk) then Some(BadKey)
    else if !MlDsaVerify(pk, msg, sig) then Some(BadSignature(index))
    else None
  }

  /** The first check that entry e at position i fails, given the roots before
      and after it. */
  function EntryFault(h: LogHeader, e: LogEntry, i: nat, before: Digest, after: Digest): Option<LogError>
  {
    if e.index != i then Some(InvalidEntry(i))
    else if e.prevRoot != before then Some(ChainBroken(e.index))
    else if after != e.newRoot then Some(ChainBroken(e.index))
    else SignatureFault(h.pubkey, EntryPayload(h.logId, e), e.signature, e.index)
  }

  /** The first fault at or after entry i. */
  ghost function FaultFrom(log: Log, i: nat): Option<LogError>
    requires i <= |log.entries|
    decreases |log.entries| - i
  {
    if i == |log.entries| then None
    else
      var f := EntryFault(log.header, log.entries[i], i, RootOfLog(log.entries[..i]), RootOfLog(log.entries[..i + 1]));
      if f.Some? then f else FaultFrom(log, i + 1)
  }

  /** What verification reports. */
  ghost function FirstFault(log: Log): Option<LogError>
  {
    var h := HeaderFault(log.header);
    if h.Some? then h else FaultFrom(log, 0)
  }

  lemma {:induction false} NoFaultFromIffOk(log: Log, i: nat)
    requires i <= |log.entries|
    ensures FaultFrom(log, i).None? <==> forall j | i <= j < |log.entries| :: EntryOk(log, j)
    decreases |log.entries| - i
  {
    hide PayloadBytes, RootOf;
    if i < |log.entries| {
      NoFaultFromIffOk(log, i + 1);
      var f := EntryFault(log.header, log.entries[i], i, RootOfLog(log.entries[..i]), RootOfLog(log.entries[..i + 1]));
      assert f.None? <==> EntryOk(log, i);
    }
  }

  /** Verification reports no fault exactly on the accepted logs. */
  lemma {:induction false} NoFaultIffAccepted(log: Log)
    ensures FirstFault(log).None? <==> Accepted(log)
  {
    NoFaultFromIffOk(log, 0);
  }

  // ----- consequences of acceptance -----------------------------------------

  function Prefix(log: Log, n: nat): Log
    requires n <= |log.entries|
  {
    log.(entries := log.entries[..n])
  }

  lemma {:induction false} EntryOkInPrefix(log: Log, n: nat, i: nat)
    requires i < n <= |log.entries|
    ensures EntryOk(Prefix(log, n), i) <==> EntryOk(log, i)
  {
    assert log.entries[..n][..i] == log.entries[..i];
    assert log.entries[..n][..i + 1] == log.entries[..i + 1];
  }

  /** Acceptance is prefix-closed. */
  lemma {:induction false} AcceptedPrefix(log: Log, n: nat)
    requires Accepted(log) && n <= |log.entries|
    ensures Accepted(Prefix(log, n))
  {
    forall i | 0 <= i < n ensures EntryOk(Prefix(log, n), i) {
      EntryOkInPrefix(log, n, i);
    }
  }

  lemma {:induction false} AcceptedHasValidHeader(log: Log)
    requires Accepted(log)
    ensures ValidHeader(log.header)
  {
  }

  /** The last entry of an accepted log commits to the root of the whole. */
  lemma {:induction false} LastRoot(log: Log)
    requires Accepted(log) && log.entries != []
    ensures log.entries[|log.entries| - 1].newRoot == RootOfLog(log.entries)
  {
    hide PayloadBytes, RootOf;
    var n := |log.entries| - 1;
    assert EntryOk(log, n);
    assert log.entries[..n + 1] == log.entries;
  }

  /** The root a log claims at its end: that of its last entry, or zero. */
  function FinalRoot(log: Log): Digest
  {
    if log.entries == [] then ZERO_DIGEST else log.entries[|log.entries| - 1].newRoot
  }

  /** Acceptance means the library verified every entry's own signature, of the
      right length, under the header's key, on that entry's payload. */
  lemma {:induction false} EverySignatureChecked(log: Log, i: nat)
    requires Accepted(log) && i < |log.entries|
    ensures |log.header.pubkey| == 2592 && |log.entries[i].signature| == 4627
    ensures MlDsaKeyParses(log.header.pubkey)
    ensures MlDsaVerify(log.header.pubkey, EntryPayload(log.header.logId, log.entries[i]), log.entries[i].signature)
  {
    hide PayloadBytes, RootOfLog, EntryPayload;
    assert EntryOk(log, i);
  }

  /** Equal event hashes mean equal encoded events, as long as the hash has no
      collision on the encodings that were hashed. */
  lemma {:induction false} EventHashesBind(a: seq<LogEntry>, b: seq<LogEntry>, inputs: set<Bytes>)
    requires EventHashes(a) == EventHashes(b) && CollisionFreeOn(inputs)
    requires forall e | e in a + b :: EventCbor(e.event) in inputs
    ensures |a| == |b| && forall i | 0 <= i < |a| :: EventCbor(a[i].event) == EventCbor(b[i].event)
  {
    hide EventHashes;
    forall i | 0 <= i < |a| ensures |a| == |b| && EventCbor(a[i].event) == EventCbor(b[i].event) {
      assert EventHashes(a)[i] == EventHashes(b)[i];
      assert a[i] in a + b && b[i] in a + b;
    }
  }

  /** Two accepted logs with equal final roots have equal event-hash sequences,
      of equal length. */
  lemma {:induction false} EqualRootsEqualHistories(a: Log, b: Log, inputs: set<Bytes>)
    requires Accepted(a) && Accepted(b) && FinalRoot(a) == FinalRoot(b)
    requires CollisionFreeOn(inputs) && NeverZeroOn(inputs)
    requires HashedIn(EventHashes(a.entries), inputs) && HashedIn(EventHashes(b.entries), inputs)
    ensures EventHashes(a.entries) == EventHashes(b.entries)
  {
    hide Accepted, HashedIn, TreeHash;
    FinalRootIsRoot(a);
    FinalRootIsRoot(b);
    RootsBind(EventHashes(a.entries), EventHashes(b.entries), inputs);
  }

  lemma {:induction false} FinalRootIsRoot(log: Log)
    requires Accepted(log)
    ensures FinalRoot(log) == RootOf(EventHashes(log.entries))
  {
    hide Accepted;
    if log.entries != [] {
      LastRoot(log);
    }
  }

  // ----- which fault an edit gives ------------------------------------------

  /** The log with entry i replaced. */
  function Edited(log: Log, i: nat, e: LogEntry): Log
    requires i < |log.entries|
  {
    log.(entries := log.entries[i := e])
  }

  lemma {:induction false} FaultSkips(log: Log, i: nat, j: nat)
    requires i <= j <= |log.entries| && forall k | i <= k < j :: EntryOk(log, k)
    ensures FaultFrom(log, i) == FaultFrom(log, j)
    decreases j - i
  {
    hide RootOfLog, EntryPayload, EntryFault;
    if i < j {
      assert EntryOk(log, i);
      OkHasNoFault(log, i);
      FaultSkips(log, i + 1, j);
    }
  }

  lemma {:induction false} OkHasNoFault(log: Log, i: nat)
    requires i < |log.entries| && EntryOk(log, i)
    ensures EntryFault(log.header, log.entries[i], i, RootOfLog(log.entries[..i]), RootOfLog(log.entries[..i + 1])).None?
  {
    hide RootOfLog, EntryPayload, MlDsaVerify;
  }

  /** Everything before an edit still verifies, so the first fault is found at
      the edited entry or after it. */
  lemma {:induction false} FirstFaultAtEdit(log: Log, i: nat, e: LogEntry)
    requires Accepted(log) && i < |log.entries|
    ensures FirstFault(Edited(log, i, e)) == FaultFrom(Edited(log, i, e), i)
  {
    hide FaultFrom, EntryOk;
    var after := Edited(log, i, e);
    forall k | 0 <= k < i ensures EntryOk(after, k) {
      assert EntryOk(log, k);
      EntryOkInPrefix(log, i, k);
      EntryOkInPrefix(after, i, k);
      assert Prefix(after, i) == Prefix(log, i);
    }
    FaultSkips(after, 0, i);
  }

  /** Which edit of an accepted log is reported as what: a moved entry as an
      invalid entry, a changed root as a broken chain, a changed event as a
      broken chain unless the roots collide, a signature that does not verify
      as a bad signature, each at the edited entry. */
  lemma {:induction false} EditIsReported(log: Log, i: nat, e: LogEntry)
    requires Accepted(log) && i < |log.entries|
    ensures var old_, fault := log.entries[i], FirstFault(Edited(log, i, e));
            && (e.index != i ==> fault == Some(InvalidEntry(i)))
            && (e.index == i && e.prevRoot != old_.prevRoot ==> fault == Some(ChainBroken(i)))
            && (e == old_.(newRoot := e.newRoot) && e != old_ ==> fault == Some(ChainBroken(i)))
            && (e == old_.(event := e.event) && RootOf(EventHashes(log.entries[..i]) + [ContentHash(e.event)]) != old_.newRoot
                ==> fault == Some(ChainBroken(i)))
            && (e == old_.(signature := e.signature) &&
                !Verifies(log.header.pubkey, EntryPayload(log.header.logId, old_), e.signature)
                ==> fault == Some(BadSignature(i)))
            && (e == old_.(appendedAt := e.appendedAt) ==> fault.None?)
  {
    hide PayloadBytes, RootOf, Accepted, FirstFault;
    var after := Edited(log, i, e);
    FirstFaultAtEdit(log, i, e);
    AcceptedEntry(log, i);
    assert after.entries[..i] == log.entries[..i];
    assert after.entries[..i + 1] == log.entries[..i] + [e];
    EventHashesConcat(log.entries[..i], [e]);
    assert EventHashes([e]) == [ContentHash(e.event)];
    assert log.entries[..i + 1] == log.entries[..i] + [log.entries[i]];
    EventHashesConcat(log.entries[..i], [log.entries[i]]);
    if e == log.entries[i].(appendedAt := e.appendedAt) {
      StampUnsigned(log, i, e);
    }
  }

  lemma {:induction false} AcceptedEntry(log: Log, i: nat)
    requires Accepted(log) && i < |log.entries|
    ensures EntryOk(log, i)
  {
    hide EntryOk;
  }

  /** The append time is not signed: changing it goes unnoticed. */
  lemma {:induction false} StampUnsigned(log: Log, i: nat, e: LogEntry)
    requires Accepted(log) && i < |log.entries| && e == log.entries[i].(appendedAt := e.appendedAt)
    ensures Accepted(Edited(log, i, e)) && FirstFault(Edited(log, i, e)).None?
  {
    hide PayloadBytes, RootOf, FirstFault, EventHashes;
    var after := Edited(log, i, e);
    forall k | 0 <= k <= |log.entries| ensures EventHashes(after.entries[..k]) == EventHashes(log.entries[..k]) {
      SameEventsSameHashes(after.entries[..k], log.entries[..k]);
    }
    forall k | 0 <= k < |after.entries| ensures EntryOk(after, k) {
      assert EntryOk(log, k);
    }
    NoFaultIffAccepted(after);
  }

  lemma {:induction false} SameEventsSameHashes(a: seq<LogEntry>, b: seq<LogEntry>)
    requires |a| == |b| && forall k | 0 <= k < |a| :: a[k].event == b[k].event
    ensures EventHashes(a) == EventHashes(b)
  {
  }

  /** Which header is reported as what. */
  lemma {:induction false} HeaderReported(log: Log)
    ensures log.header.wireVersion != 1 ==> FirstFault(log) == Some(VersionMismatch(log.header.wireVersion))
    ensures log.header.wireVersion == 1 && log.header.suite != "cspq-2026" ==> FirstFault(log) == Some(BadHeader)
    ensures log.header.wireVersion == 1 && log.header.suite == "cspq-2026" && |log.header.pubkey| != 2592 ==>
              FirstFault(log) == Some(BadKey)
    ensures Accepted(log) ==> log.header.wireVersion == 1 && log.header.suite == "cspq-2026" && |log.header.pubkey| == 2592
  {
  }

  // ----- extending a log ----------------------------------------------------

  /** The payload the next entry for `event` must be signed over. */
  function NextPayload(log: Log, event: Event): Bytes
  {
    PayloadBytes(log.header.logId, |log.entries|, RootOfLog(log.entries), ContentHash(event),
                 RootOf(EventHashes(log.entries) + [ContentHash(event)]))
  }

  /** The log with one more signed entry. */
  function Appended(log: Log, event: Event, at: Time, sig: Bytes): Log
  {
    log.(entries := log.entries + [LogEntry(
      |log.entries|, at, event, RootOfLog(log.entries),
      RootOf(EventHashes(log.entries) + [ContentHash(event)]), sig)])
  }

  lemma {:induction false} EventHashesConcat(a: seq<LogEntry>, b: seq<LogEntry>)
    ensures EventHashes(a + b) == EventHashes(a) + EventHashes(b)
  {
  }

  lemma {:induction false} AppendedHashes(log: Log, event: Event, at: Time, sig: Bytes)
    ensures EventHashes(Appended(log, event, at, sig).entries) == EventHashes(log.entries) + [ContentHash(event)]
  {
  }

  /** Appending under a verifying signature keeps a log accepted; under any
      other signature it does not. */
  lemma {:induction false} AppendedAccepted(log: Log, event: Event, at: Time, sig: Bytes)
    requires Accepted(log)
    ensures Accepted(Appended(log, event, at, sig)) <==> Verifies(log.header.pubkey, NextPayload(log, event), sig)
  {
    hide PayloadBytes, RootOf;
    var next := Appended(log, event, at, sig);
    var n := |log.entries|;
    assert next.entries[..n] == log.entries;
    forall i | 0 <= i < n ensures EntryOk(next, i) {
      EntryOkInPrefix(next, n, i);
    }
    AppendedHashes(log, event, at, sig);
    assert next.entries[..n + 1] == next.entries;
    assert EntryOk(next, n) <==> Verifies(log.header.pubkey, NextPayload(log, event), sig);
  }
}
