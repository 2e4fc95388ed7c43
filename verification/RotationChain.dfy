/** Sealing a log, opening its successor, and verifying a multi-file chain. */
module RotationChain {
  import opened Bytes
  import opened Wrappers
  import opened Merkle
  import opened Payload
  import opened Signing
  import opened LogModel

  const ROTATION_CLOSE: string := "audit.rotation_close"
  const ROTATION_OPEN: string := "audit.rotation_open"

  function IdHex(id: LogId): string { HexEncode(id.bytes) }

  /** Two ids with the same hex text are the same. */
  lemma {:induction false} IdHexInjective(a: LogId, b: LogId)
    requires IdHex(a) == IdHex(b)
    ensures a == b
  {
    hide HexEncode, HexDecode;
    HexRoundTrip(a.bytes);
    HexRoundTrip(b.bytes);
  }

  // ----- rotating one log ---------------------------------------------------

  /** The clock readings of one rotation. */
  datatype Times = Times(closeBuilt: Time, closeAppended: Time, created: Time, openBuilt: Time, openAppended: Time)

  /** What a rotation is told: the new log's id, label, key, and the clock. */
  datatype Rotation = Rotation(newId: LogId, newLabel: string, newKey: Bytes, times: Times)

  function SentinelEvent(action: string, id: LogId, at: Time, metadata: map<string, string>): Event
  {
    Event(1, at, "system:qaudit", action, "log:" + IdHex(id), "ok", metadata)
  }

  function CloseEvent(log: Log, r: Rotation): Event
  {
    SentinelEvent(ROTATION_CLOSE, log.header.logId, r.times.closeBuilt,
                  map["new_log_id" := IdHex(r.newId), "new_log_label" := r.newLabel])
  }

  /** The old log with its closing sentinel. */
  function SealedLog(log: Log, r: Rotation, sig: Bytes): Log
  {
    Appended(log, CloseEvent(log, r), r.times.closeAppended, sig)
  }

  function SuccessorHeader(sealed: Log, r: Rotation): LogHeader
  {
    LogHeader(WIRE_VERSION, SUITE_ID, r.times.created, r.newId, r.newKey, r.newLabel,
              Some(sealed.header.logId), Some(RootOfLog(sealed.entries)))
  }

  function OpenEvent(sealed: Log, r: Rotation): Event
  {
    SentinelEvent(ROTATION_OPEN, r.newId, r.times.openBuilt,
                  map["prev_log_id" := IdHex(sealed.header.logId),
                      "prev_log_final_root" := HexEncode(RootOfLog(sealed.entries).bytes),
                      "prev_log_label" := sealed.header.logLabel])
  }

  function EmptySuccessor(sealed: Log, r: Rotation): Log { Log(SuccessorHeader(sealed, r), []) }

  /** The new log, holding its opening sentinel. */
  function SuccessorLog(sealed: Log, r: Rotation, sig: Bytes): Log
  {
    Appended(EmptySuccessor(sealed, r), OpenEvent(sealed, r), r.times.openAppended, sig)
  }

  // ----- verifying a chain --------------------------------------------------

  predicate IsChainRoot(log: Log)
  {
    log.header.prevLogId.None? && log.header.prevLogFinalRoot.None?
  }

  function LastEvent(log: Log): Event
    requires log.entries != []
  {
    log.entries[|log.entries| - 1].event
  }

  /** The checks on two neighbouring files. */
  predicate Linked(prev: Log, next: Log)
  {
    && prev.entries != []
    && LastEvent(prev).action == ROTATION_CLOSE
    && "new_log_id" in LastEvent(prev).metadata
    && LastEvent(prev).metadata["new_log_id"] == IdHex(next.header.logId)
    && next.header.prevLogId == Some(prev.header.logId)
    && next.header.prevLogFinalRoot == Some(RootOfLog(prev.entries))
    && next.entries != []
    && next.entries[0].event.action == ROTATION_OPEN
    && "prev_log_id" in next.entries[0].event.metadata
    && next.entries[0].event.metadata["prev_log_id"] == IdHex(prev.header.logId)
  }

  /** Log i verifies and continues the one before it. */
  ghost predicate LinkedAt(logs: seq<Log>, i: int)
    requires 0 < i < |logs|
  {
    Accepted(logs[i]) && Linked(logs[i - 1], logs[i])
  }

  /** What chain verification accepts. */
  ghost predicate ChainOk(logs: seq<Log>)
  {
    && logs != []
    && Accepted(logs[0]) && IsChainRoot(logs[0])
    && forall i | 0 < i < |logs| :: LinkedAt(logs, i)
  }

  ghost predicate DistinctIds(logs: seq<Log>)
  {
    forall i, j | 0 <= i < j < |logs| :: logs[i].header.logId != logs[j].header.logId
  }

  /** A sealed log names its successor: whatever verifies as its continuation
      carries one and the same log id. */
  lemma {:induction false} SealNamesOneSuccessor(sealed: Log, a: Log, b: Log)
    requires Linked(sealed, a) && Linked(sealed, b)
    ensures a.header.logId == b.header.logId
  {
    hide IdHex, RootOfLog;
    IdHexInjective(a.header.logId, b.header.logId);
  }

  /** And a successor names its past: whatever verifies as its predecessor has
      one log id and one sequence of event hashes. */
  lemma {:induction false} SuccessorNamesOneHistory(a: Log, b: Log, next: Log, inputs: set<Bytes>)
    requires Linked(a, next) && Linked(b, next)
    requires CollisionFreeOn(inputs) && NeverZeroOn(inputs)
    requires HashedIn(EventHashes(a.entries), inputs) && HashedIn(EventHashes(b.entries), inputs)
    ensures a.header.logId == b.header.logId && EventHashes(a.entries) == EventHashes(b.entries)
  {
    hide IdHex, HashedIn, CollisionFreeOn, NeverZeroOn, RootOf;
    RootsBind(EventHashes(a.entries), EventHashes(b.entries), inputs);
  }

  /** The signed part fixes the past by itself: whatever is written into the
      unsigned header of a successor, its entries link it to one predecessor
      id only. */
  lemma {:induction false} SignedStartNamesPredecessor(a: Log, b: Log, next: Log, next': Log)
    requires next.entries == next'.entries && Linked(a, next) && Linked(b, next')
    ensures a.header.logId == b.header.logId
  {
    hide IdHex, RootOfLog;
    IdHexInjective(a.header.logId, b.header.logId);
  }

  /** Chain verification rejects a successor whose first signed entry is not
      the opening sentinel for this predecessor, whatever its header says. */
  lemma {:induction false} ForgedHeaderRejected(prev: Log, next: Log, fake: LogHeader)
    requires next.entries != []
    requires var first := next.entries[0].event;
             || first.action != "audit.rotation_open"
             || "prev_log_id" !in first.metadata
             || first.metadata["prev_log_id"] != IdHex(prev.header.logId)
    ensures !Linked(prev, next.(header := fake))
    ensures !ChainOk([prev, next.(header := fake)])
  {
    hide IdHex, RootOfLog, Accepted;
    var logs := [prev, next.(header := fake)];
    assert ChainOk(logs) ==> LinkedAt(logs, 1);
  }

  /** What the two sentinels of a rotation say, read off the two files. */
  lemma {:induction false} SentinelsCrossReference(log: Log, r: Rotation, closeSig: Bytes, openSig: Bytes)
    ensures var sealed := SealedLog(log, r, closeSig);
            var next := SuccessorLog(sealed, r, openSig);
            && sealed.header == log.header && |sealed.entries| == |log.entries| + 1
            && sealed.entries[..|log.entries|] == log.entries && |next.entries| == 1
            && next.header == LogHeader(1, "cspq-2026", r.times.created, r.newId, r.newKey, r.newLabel,
                                        Some(log.header.logId), Some(RootOfLog(sealed.entries)))
            && LastEvent(sealed) == Event(1, r.times.closeBuilt, "system:qaudit", "audit.rotation_close",
                 "log:" + IdHex(sealed.header.logId), "ok",
                 map["new_log_id" := IdHex(next.header.logId), "new_log_label" := next.header.logLabel])
            && var open := next.entries[0].event;
               && open == Event(1, r.times.openBuilt, "system:qaudit", "audit.rotation_open",
                    "log:" + IdHex(next.header.logId), "ok", open.metadata)
               && open.metadata.Keys == {"prev_log_id", "prev_log_final_root", "prev_log_label"}
               && HexDecode(open.metadata["prev_log_id"]) == Some(sealed.header.logId.bytes)
               && HexDecode(open.metadata["prev_log_final_root"]) == Some(RootOfLog(sealed.entries).bytes)
               && open.metadata["prev_log_label"] == sealed.header.logLabel
  {
    hide RootOfLog, HexEncode, HexDecode, EventHashes, RootOf;
    HexRoundTrip(log.header.logId.bytes);
    HexRoundTrip(RootOfLog(SealedLog(log, r, closeSig).entries).bytes);
  }

  /** What it means for a list to be a chain, spelled out on the files. */
  lemma {:induction false} ChainHeaders(logs: seq<Log>, i: nat)
    requires ChainOk(logs) && i < |logs|
    ensures Accepted(logs[i])
    ensures i == 0 ==> logs[i].header.prevLogId.None? && logs[i].header.prevLogFinalRoot.None?
    ensures i > 0 ==>
              && logs[i].header.prevLogId == Some(logs[i - 1].header.logId)
              && logs[i].header.prevLogFinalRoot == Some(RootOfLog(logs[i - 1].entries))
              && logs[i].entries != [] && logs[i].entries[0].event.action == "audit.rotation_open"
    ensures i + 1 < |logs| ==> logs[i].entries != [] && LastEvent(logs[i]).action == "audit.rotation_close"
  {
    hide Accepted, RootOfLog, IdHex;
    assert i > 0 ==> LinkedAt(logs, i);
    assert i + 1 < |logs| ==> LinkedAt(logs, i + 1);
  }

  /** Rotating an accepted log under verifying signatures leaves two accepted
      logs that are linked. */
  lemma {:induction false} RotationLinks(log: Log, r: Rotation, closeSig: Bytes, openSig: Bytes)
    requires Accepted(log) && |r.newKey| == PUBLIC_KEY_LEN
    requires Verifies(log.header.pubkey, NextPayload(log, CloseEvent(log, r)), closeSig)
    requires var sealed := SealedLog(log, r, closeSig);
             Verifies(r.newKey, NextPayload(EmptySuccessor(sealed, r), OpenEvent(sealed, r)), openSig)
    ensures var sealed := SealedLog(log, r, closeSig);
            var next := SuccessorLog(sealed, r, openSig);
            Accepted(sealed) && Accepted(next) && Linked(sealed, next)
  {
    hide NextPayload, RootOfLog, Accepted, HexEncode;
    var sealed := SealedLog(log, r, closeSig);
    AppendedAccepted(log, CloseEvent(log, r), r.times.closeAppended, closeSig);
    var empty := EmptySuccessor(sealed, r);
    EmptyAccepted(empty);
    AppendedAccepted(empty, OpenEvent(sealed, r), r.times.openAppended, openSig);
  }

  lemma {:induction false} EmptyAccepted(log: Log)
    requires ValidHeader(log.header) && log.entries == []
    ensures Accepted(log)
  {
  }

  // ----- chains built by appends and rotations ------------------------------

  /** One operation on the live end of a chain.  `None` is a signer that
      failed.  A failed append changes nothing; a failed rotation consumes the
      log in memory, and the chain is then what the caller still has on file. */
  datatype ChainOp =
    | Extend(event: Event, at: Time, sig: Option<Bytes>)
    | Rotate(rotation: Rotation, closeSig: Option<Bytes>, openSig: Option<Bytes>)

  /** Whatever signature was handed out verifies. */
  ghost predicate HonestOp(chain: seq<Log>, op: ChainOp)
    requires chain != []
  {
    var live := chain[|chain| - 1];
    match op
    case Extend(event, _, sig) => sig.Some? ==> Verifies(live.header.pubkey, NextPayload(live, event), sig.value)
    case Rotate(r, closeSig, openSig) =>
      && |r.newKey| == PUBLIC_KEY_LEN
      && (closeSig.Some? ==> Verifies(live.header.pubkey, NextPayload(live, CloseEvent(live, r)), closeSig.value))
      && (closeSig.Some? && openSig.Some? ==>
          var sealed := SealedLog(live, r, closeSig.value);
          Verifies(r.newKey, NextPayload(EmptySuccessor(sealed, r), OpenEvent(sealed, r)), openSig.value))
  }

  function Apply(chain: seq<Log>, op: ChainOp): (next: seq<Log>)
    requires chain != []
    ensures next != []
  {
    var n := |chain| - 1;
    match op
    case Extend(event, at, sig) =>
      if sig.None? then chain else chain[..n] + [Appended(chain[n], event, at, sig.value)]
    case Rotate(r, closeSig, openSig) =>
      if closeSig.None? || openSig.None? then chain
      else
        var sealed := SealedLog(chain[n], r, closeSig.value);
        chain[..n] + [sealed, SuccessorLog(sealed, r, openSig.value)]
  }

  function ApplyAll(chain: seq<Log>, ops: seq<ChainOp>): (next: seq<Log>)
    requires chain != []
    ensures next != []
    decreases |ops|
  {
    if ops == [] then chain else ApplyAll(Apply(chain, ops[0]), ops[1..])
  }

  ghost predicate HonestRun(chain: seq<Log>, ops: seq<ChainOp>)
    requires chain != []
    decreases |ops|
  {
    ops == [] || (HonestOp(chain, ops[0]) && HonestRun(Apply(chain, ops[0]), ops[1..]))
  }

  /** Replacing the live end of a chain by an extension of itself keeps every
      link: links look at a log's first entry and header, never at its end. */
  lemma {:induction false} ExtendKeepsChain(chain: seq<Log>, event: Event, at: Time, sig: Bytes)
    requires ChainOk(chain)
    requires var live := chain[|chain| - 1]; Verifies(live.header.pubkey, NextPayload(live, event), sig)
    ensures ChainOk(chain[..|chain| - 1] + [Appended(chain[|chain| - 1], event, at, sig)])
  {
    hide NextPayload, RootOfLog, Accepted, HexEncode;
    var n := |chain| - 1;
    LiveAccepted(chain);
    AppendedAccepted(chain[n], event, at, sig);
    var next := chain[..n] + [Appended(chain[n], event, at, sig)];
    forall i | 0 < i < |next| ensures LinkedAt(next, i) {
      assert LinkedAt(chain, i);
      assert next[i - 1] == chain[i - 1];
    }
  }

  lemma {:induction false} SnocKeepsChain(chain: seq<Log>, next: Log)
    requires ChainOk(chain) && Accepted(next) && Linked(chain[|chain| - 1], next)
    ensures ChainOk(chain + [next])
  {
    hide Accepted, Linked;
    var all := chain + [next];
    forall i | 0 < i < |all| ensures LinkedAt(all, i) {
      if i < |chain| {
        assert LinkedAt(chain, i);
      }
    }
  }

  lemma {:induction false} ApplyKeepsChain(chain: seq<Log>, op: ChainOp)
    requires chain != [] && ChainOk(chain) && HonestOp(chain, op)
    ensures ChainOk(Apply(chain, op))
  {
    hide NextPayload, RootOfLog, HexEncode, Linked, ChainOk, Accepted;
    var n := |chain| - 1;
    match op
    case Extend(event, at, sig) =>
      if sig.Some? {
        ExtendKeepsChain(chain, event, at, sig.value);
      }
    case Rotate(r, closeSig, openSig) =>
      if closeSig.Some? && openSig.Some? {
        var sealed := SealedLog(chain[n], r, closeSig.value);
        var next := SuccessorLog(sealed, r, openSig.value);
        LiveAccepted(chain);
        RotationLinks(chain[n], r, closeSig.value, openSig.value);
        ExtendKeepsChain(chain, CloseEvent(chain[n], r), r.times.closeAppended, closeSig.value);
        SnocKeepsChain(chain[..n] + [sealed], next);
        assert chain[..n] + [sealed] + [next] == chain[..n] + [sealed, next];
      }
  }

  lemma {:induction false} LiveAccepted(chain: seq<Log>)
    requires ChainOk(chain)
    ensures Accepted(chain[|chain| - 1])
  {
    hide Accepted, Linked;
    assert |chain| > 1 ==> LinkedAt(chain, |chain| - 1);
  }

  /** Every chain that starts at a fresh root log and grows by any number of
      appends and rotations, with any key per segment and signers failing at
      any point, passes chain verification. */
  lemma {:induction false} EveryRunVerifies(chain: seq<Log>, ops: seq<ChainOp>)
    requires chain != [] && ChainOk(chain) && HonestRun(chain, ops)
    ensures ChainOk(ApplyAll(chain, ops))
    decreases |ops|
  {
    hide HonestOp, Apply, ChainOk;
    if ops != [] {
      ApplyKeepsChain(chain, ops[0]);
      EveryRunVerifies(Apply(chain, ops[0]), ops[1..]);
    }
  }

  // ----- exactly the prefixes -----------------------------------------------

  lemma {:induction false} ChainPrefixOk(chain: seq<Log>, n: nat)
    requires ChainOk(chain) && 0 < n <= |chain|
    ensures ChainOk(chain[..n])
  {
    hide Accepted, Linked;
    forall i | 0 < i < n ensures LinkedAt(chain[..n], i) {
      assert LinkedAt(chain, i);
    }
  }

  /** Only the log that follows chain[k] can follow it in an accepted list. */
  lemma {:induction false} OnlySuccessorLinks(chain: seq<Log>, k: nat, next: Log)
    requires ChainOk(chain) && DistinctIds(chain)
    requires k < |chain| && next in chain && Linked(chain[k], next)
    ensures k + 1 < |chain| && next == chain[k + 1]
  {
    hide Accepted, IdHex, RootOfLog;
    var j :| 0 <= j < |chain| && chain[j] == next;
    assert next.header.prevLogId == Some(chain[k].header.logId);
    if j > 0 {
      assert LinkedAt(chain, j);
      assert chain[j - 1].header.logId == chain[k].header.logId;
      assert j - 1 == k;
    }
  }

  lemma {:induction false} AcceptedListIsPrefix(chain: seq<Log>, list: seq<Log>)
    requires ChainOk(chain) && DistinctIds(chain)
    requires forall l | l in list :: l in chain
    requires ChainOk(list)
    ensures list <= chain
    decreases |list|
  {
    hide Accepted, Linked;
    var n := |list| - 1;
    if n == 0 {
      assert list[0] in list && list[0] in chain;
      var j :| 0 <= j < |chain| && chain[j] == list[0];
      RootIsFirst(chain, j);
    } else {
      ChainPrefixOk(list, n);
      AcceptedListIsPrefix(chain, list[..n]);
      assert list[n] in list && list[n] in chain && LinkedAt(list, n);
      assert list[..n][n - 1] == chain[n - 1];
      OnlySuccessorLinks(chain, n - 1, list[n]);
      assert list == list[..n] + [list[n]];
    }
  }

  lemma {:induction false} RootIsFirst(chain: seq<Log>, j: nat)
    requires ChainOk(chain) && j < |chain| && IsChainRoot(chain[j])
    ensures j == 0
  {
    hide Accepted, IdHex, RootOfLog;
    assert j > 0 ==> LinkedAt(chain, j);
  }

  /** The lists drawn from a chain with distinct ids that chain verification
      accepts are exactly the chain's nonempty prefixes: nothing can be
      dropped from the middle, reordered, repeated or spliced. */
  lemma {:induction false} AcceptedListsArePrefixes(chain: seq<Log>, list: seq<Log>)
    requires ChainOk(chain) && DistinctIds(chain)
    requires forall l | l in list :: l in chain
    ensures ChainOk(list) <==> (list != [] && list <= chain)
  {
    if ChainOk(list) {
      AcceptedListIsPrefix(chain, list);
    }
    if list != [] && list <= chain {
      ChainPrefixOk(chain, |list|);
      assert chain[..|list|] == list;
    }
  }

  /** The same, for every chain that can be built. */
  lemma {:induction false} BuiltChainsVerifyByPrefix(root: Log, ops: seq<ChainOp>, list: seq<Log>)
    requires ValidHeader(root.header) && IsChainRoot(root) && root.entries == []
    requires HonestRun([root], ops) && DistinctIds(ApplyAll([root], ops))
    requires forall l | l in list :: l in ApplyAll([root], ops)
    ensures ChainOk(list) <==> (list != [] && list <= ApplyAll([root], ops))
  {
    hide HonestRun, ApplyAll;
    EmptyAccepted(root);
    EveryRunVerifies([root], ops);
    AcceptedListsArePrefixes(ApplyAll([root], ops), list);
  }
}
