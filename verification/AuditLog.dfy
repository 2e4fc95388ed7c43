/** The stateful audit log: header, entries, Merkle frontier and, when open for
    writing, a signer. */
module AuditLogs {
  import opened Bytes
  import opened Wrappers
  import opened Merkle
  import opened Payload
  import opened Signing
  import opened LogModel
  import opened LogFile
  import opened RotationChain

  /** The id of the new log: the caller's hex text, or a random id for "". */
  function ResolveId(hex: string, random: LogId): Result<LogId, LogError>
  {
    if hex == "" then Ok(random)
    else match HexDecode(hex)
      case None => Err(BadLogId)
      case Some(b) => if |b| == 16 then Ok(LogId(b)) else Err(BadLogId)
  }

  /** Exactly the hex texts of 16 bytes name a log id, in either case of
      letters; the empty text asks for the random one. */
  lemma {:induction false} ResolvesNamedId(id: LogId, random: LogId, hex: string)
    ensures ResolveId(HexEncode(id.bytes), random) == Ok(id)
    ensures ResolveId("", random) == Ok(random)
    ensures hex != "" ==> (ResolveId(hex, random).Ok? <==> |hex| == 32 && HexDecode(hex).Some?)
    ensures hex != "" && ResolveId(hex, random).Err? ==> ResolveId(hex, random) == Err(BadLogId)
  {
    hide HexEncode, HexDecode;
    HexRoundTrip(id.bytes);
    assert |HexEncode(id.bytes)| == 32;
  }

  /** Rebuild the tree from the entries. */
  method ReplayTree(es: seq<LogEntry>) returns (t: MerkleTree)
    ensures fresh(t) && t.Valid() && t.leaves == EventHashes(es)
  {
    hide Frontier, LeafHashes, RootOf, EventHashes;
    t := new MerkleTree();
    EmptyRoot(es);
    for i := 0 to |es|
      invariant t.Valid() && fresh(t)
      invariant t.leaves == EventHashes(es[..i])
    {
      HashesStep(es, i);
      var _ := t.Append(ContentHash(es[i].event));
    }
    assert es[..|es|] == es;
  }

  class AuditLog {
    var header: LogHeader
    var entries: seq<LogEntry>
    var tree: MerkleTree
    var signer: Option<Signer>

    ghost function Contents(): Log
      reads this
    {
      Log(header, entries)
    }

    /** What holds of every log the program can reach: the tree is the replay
        of the entries, and a log open for writing has an honest signer for
        its own key and passes verification. */
    ghost predicate Valid()
      reads this, tree
    {
      && tree.Valid()
      && tree.leaves == EventHashes(entries)
      && (signer.Some? ==>
            Honest(signer.value) && signer.value.pk == header.pubkey && Accepted(Contents()))
    }

    constructor Create(s: Signer, title: string, id: LogId, now: Time)
      requires Honest(s)
      ensures Valid() && fresh(tree) && signer == Some(s)
      ensures Contents() == Log(LogHeader(WIRE_VERSION, SUITE_ID, now, id, s.pk, title, None, None), [])
    {
      header := LogHeader(WIRE_VERSION, SUITE_ID, now, id, s.pk, title, None, None);
      entries := [];
      tree := new MerkleTree();
      signer := Some(s);
    }

    /** A log from its parts; the tree is replayed from the entries. */
    constructor Replay(h: LogHeader, es: seq<LogEntry>)
      ensures Valid() && fresh(tree) && signer == None && Contents() == Log(h, es)
    {
      hide Frontier, LeafHashes, EventHashes;
      header, entries, signer := h, es, None;
      var t := ReplayTree(es);
      tree := t;
    }

    /** Append one event: all or nothing. */
    method Append(event: Event, at: Time, call: nat) returns (r: Result<LogEntry, LogError>)
      requires Valid()
      modifies this
      ensures Valid() && header == old(header) && signer == old(signer)
      ensures r.Err? ==> entries == old(entries) && tree == old(tree)
      ensures old(signer).None? ==> r == Err(ReadOnly)
      ensures old(signer).Some? ==>
                var sig := signer.value.sign(call, NextPayload(old(Contents()), event));
                && (sig.None? ==> r == Err(SigningFailed))
                && (sig.Some? ==> r.Ok? && fresh(tree)
                                  && Contents() == Appended(old(Contents()), event, at, sig.value))
      ensures r.Ok? ==>
                && entries == old(entries) + [r.value]
                && r.value.index == |old(entries)| && r.value.event == event && r.value.appendedAt == at
                && r.value.prevRoot == RootOfLog(old(entries)) && r.value.newRoot == RootOfLog(entries)
    {
      hide RootOf, PayloadBytes, Accepted, Frontier, LeafHashes, EventHashes;
      if signer.None? {
        return Err(ReadOnly);
      }
      var prevRoot := tree.Root();
      var eventHash := ContentHash(event);
      var nextTree := new MerkleTree.Clone(tree);
      var newRoot := nextTree.Append(eventHash);
      var index := |entries|;
      var payload := PayloadBytes(header.logId, index, prevRoot, eventHash, newRoot);
      var signature := signer.value.sign(call, payload);
      if signature.None? {
        return Err(SigningFailed);
      }
      var entry := LogEntry(index, at, event, prevRoot, newRoot, signature.value);
      AppendedAccepted(Contents(), event, at, signature.value);
      AppendedHashes(Contents(), event, at, signature.value);
      tree := nextTree;
      entries := entries + [entry];
      assert entries[|entries| - 1] == entry;
      return Ok(entry);
    }

    /** Replay the whole log; the answer is the first fault, if any. */
    method Verify() returns (r: Option<LogError>)
      ensures r == FirstFault(Contents())
    {
      hide RootOf, PayloadBytes, EventHashes, Frontier, LeafHashes;
      r := HeaderFault(header);
      if r.Some? {
        return;
      }
      var t := new MerkleTree();
      var expectedPrev := ZERO_DIGEST;
      EmptyRoot(entries);
      for i := 0 to |entries|
        invariant t.Valid() && fresh(t)
        invariant t.leaves == EventHashes(entries[..i])
        invariant expectedPrev == RootOfLog(entries[..i])
        invariant FirstFault(Contents()) == FaultFrom(Contents(), i)
      {
        var e := entries[i];
        HashesStep(entries, i);
        if e.index != i {
          return Some(InvalidEntry(i));
        }
        if e.prevRoot != expectedPrev {
          return Some(ChainBroken(e.index));
        }
        var eventHash := ContentHash(e.event);
        var newRoot := t.Append(eventHash);
        if newRoot != e.newRoot {
          return Some(ChainBroken(e.index));
        }
        var payload := PayloadBytes(header.logId, e.index, e.prevRoot, eventHash, e.newRoot);
        var sigFault := SignatureFault(header.pubkey, payload, e.signature, e.index);
        if sigFault.Some? {
          return sigFault;
        }
        expectedPrev := newRoot;
      }
      assert entries[..|entries|] == entries;
      return None;
    }

    /** Attach a signer to a log that was loaded read-only; its key must be the
        header's and the history must verify first. */
    method BindSigner(s: Signer) returns (r: Option<LogError>)
      requires Valid() && Honest(s)
      modifies this`signer
      ensures Valid()
      ensures r == if s.pk != header.pubkey then Some(BadKey) else FirstFault(Contents())
      ensures signer == if r.None? then Some(s) else old(signer)
    {
      hide Accepted, FirstFault;
      if s.pk != header.pubkey {
        return Some(BadKey);
      }
      r := Verify();
      NoFaultIffAccepted(Contents());
      if r.None? {
        signer := Some(s);
      }
    }

    /** Write the log in the file format. */
    method SaveTo() returns (out: Bytes)
      ensures out == FileBytes(Contents())
    {
      hide EntriesBytes;
      out := MAGIC;
      out := out + HeaderCbor.enc(header);
      EntriesBytesEmpty(entries);
      for i := 0 to |entries|
        invariant out == HeaderBytes(header) + EntriesBytes(entries[..i])
      {
        EntriesBytesSnoc(entries, i);
        out := out + EntryCbor.enc(entries[i]);
      }
      assert entries[..|entries|] == entries;
    }

    /** Parse a whole file; the result has its tree replayed and no signer. */
    static method ReadFrom(input: Bytes) returns (r: Result<AuditLog, LogError>)
      ensures match ParseFile(input)
              case Err(f) => r == Err(f)
              case Ok(log) => r.Ok? && fresh(r.value) && fresh(r.value.tree) && r.value.Valid()
                              && r.value.signer.None? && r.value.Contents() == log
    {
      hide ParseEntries;
      if |input| < |MAGIC| {
        return Err(UnexpectedEof);
      }
      if input[..|MAGIC|] != MAGIC {
        return Err(BadHeader);
      }
      var item := HeaderCbor.dec(input[|MAGIC|..]);
      if item.None? || item.value.1 > |input| - |MAGIC| {
        return Err(BadCbor);
      }
      var h := item.value.0;
      var fault := HeaderFault(h);
      if fault.Some? {
        return Err(fault.value);
      }
      var es := ReadEntries(input, |MAGIC| + item.value.1);
      if es.Err? {
        return Err(es.error);
      }
      var log := new AuditLog.Replay(h, es.value);
      return Ok(log);
    }

    static method ReadEntries(input: Bytes, start: nat) returns (r: Result<seq<LogEntry>, LogError>)
      requires start <= |input|
      ensures r == ParseEntries(input[start..])
    {
      hide ParseEntries;
      var pos := start;
      var es: seq<LogEntry> := [];
      assert forall more: seq<LogEntry> :: es + more == more;
      while pos < |input|
        invariant start <= pos <= |input|
        invariant ParseEntries(input[start..]) ==
                  match ParseEntries(input[pos..]) case Err(f) => Err(f) case Ok(more) => Ok(es + more)
      {
        ParseEntriesStep(input, pos);
        var item := EntryCbor.dec(input[pos..]);
        if item.None? || item.value.1 == 0 || item.value.1 > |input| - pos {
          return Err(BadCbor);
        }
        ghost var before := es;
        es := es + [item.value.0];
        pos := pos + item.value.1;
        assert forall more: seq<LogEntry> :: before + ([item.value.0] + more) == es + more;
      }
      ParseEntriesEnd(input);
      assert es + [] == es;
      return Ok(es);
    }

    /** Seal this log and open its successor.  `calls` numbers the two signing
        calls.  The receiver is consumed: on error the caller has no log. */
    method RotateTo(newSigner: Signer, newLabel: string, newIdHex: string, random: LogId, times: Times, calls: (nat, nat))
      returns (r: Result<AuditLog, LogError>)
      requires Valid() && Honest(newSigner)
      modifies this
      ensures Valid()
      ensures old(signer).None? ==> r == Err(ReadOnly)
      ensures old(signer).Some? && ResolveId(newIdHex, random).Err? ==> r == Err(BadLogId)
      ensures old(signer).Some? && ResolveId(newIdHex, random).Ok? ==>
                var rot := Rotation(ResolveId(newIdHex, random).value, newLabel, newSigner.pk, times);
                var before := old(Contents());
                var closeSig := old(signer).value.sign(calls.0, NextPayload(before, CloseEvent(before, rot)));
                if closeSig.None? then r == Err(SigningFailed) else
                  var sealed := SealedLog(before, rot, closeSig.value);
                  var openSig := newSigner.sign(calls.1, NextPayload(EmptySuccessor(sealed, rot), OpenEvent(sealed, rot)));
                  if openSig.None? then r == Err(SigningFailed) else
                    && r.Ok?
                    && Contents() == sealed && signer.None?
                    && fresh(r.value) && fresh(r.value.tree) && r.value.Valid() && r.value.signer == Some(newSigner)
                    && r.value.Contents() == SuccessorLog(sealed, rot, openSig.value)
                    && Accepted(sealed) && Accepted(r.value.Contents()) && Linked(sealed, r.value.Contents())
    {
      hide RootOf, PayloadBytes, Accepted, HexEncode, HexDecode, Linked, Frontier, LeafHashes, EventHashes, NextPayload;
      if signer.None? {
        return Err(ReadOnly);
      }
      var id := ResolveId(newIdHex, random);
      if id.Err? {
        return Err(BadLogId);
      }
      var rot := Rotation(id.value, newLabel, newSigner.pk, times);
      ghost var before := Contents();
      var closeEvent := SentinelEvent(ROTATION_CLOSE, header.logId, times.closeBuilt,
                                      map["new_log_id" := IdHex(rot.newId), "new_log_label" := newLabel]);
      var closed := Append(closeEvent, times.closeAppended, calls.0);
      if closed.Err? {
        return Err(closed.error);
      }
      ghost var sealed := Contents();
      assert closeEvent == CloseEvent(before, rot);
      r := OpenSuccessor(newSigner, rot, calls.1);
      if r.Ok? {
        RotationLinks(before, rot, sealed.entries[|sealed.entries| - 1].signature,
                      r.value.entries[|r.value.entries| - 1].signature);
        signer := None;
      }
    }

    /** Create the log that continues this sealed one and append its opening
        sentinel. */
    method OpenSuccessor(newSigner: Signer, rot: Rotation, call: nat) returns (r: Result<AuditLog, LogError>)
      requires Valid() && Honest(newSigner) && rot.newKey == newSigner.pk
      ensures var sealed := Contents();
              var openSig := newSigner.sign(call, NextPayload(EmptySuccessor(sealed, rot), OpenEvent(sealed, rot)));
              if openSig.None? then r == Err(SigningFailed) else
                && r.Ok? && fresh(r.value) && fresh(r.value.tree) && r.value.Valid() && r.value.signer == Some(newSigner)
                && r.value.Contents() == SuccessorLog(sealed, rot, openSig.value)
    {
      hide RootOf, PayloadBytes, Accepted, HexEncode, Frontier, LeafHashes, EventHashes, NextPayload;
      ghost var sealed := Contents();
      var prevFinalRoot := tree.Root();
      var next := new AuditLog.Open(newSigner, LogHeader(
        WIRE_VERSION, SUITE_ID, rot.times.created, rot.newId, newSigner.pk, rot.newLabel,
        Some(header.logId), Some(prevFinalRoot)));
      assert next.Contents() == EmptySuccessor(sealed, rot);
      var openEvent := SentinelEvent(ROTATION_OPEN, rot.newId, rot.times.openBuilt,
                                     map["prev_log_id" := IdHex(header.logId),
                                         "prev_log_final_root" := HexEncode(prevFinalRoot.bytes),
                                         "prev_log_label" := header.logLabel]);
      assert openEvent == OpenEvent(sealed, rot);
      var started := next.Append(openEvent, rot.times.openAppended, call);
      if started.Err? {
        return Err(started.error);
      }
      return Ok(next);
    }

    /** An empty log under a given header, open for writing. */
    constructor Open(s: Signer, h: LogHeader)
      requires Honest(s) && ValidHeader(h) && h.pubkey == s.pk
      ensures Valid() && fresh(tree) && signer == Some(s) && Contents() == Log(h, [])
    {
      header, entries, signer := h, [], Some(s);
      tree := new MerkleTree();
    }
  }

  lemma {:induction false} EmptyRoot(entries: seq<LogEntry>)
    ensures EventHashes(entries[..0]) == [] && RootOfLog(entries[..0]) == ZERO_DIGEST
  {
  }

  lemma {:induction false} HashesStep(entries: seq<LogEntry>, i: nat)
    requires i < |entries|
    ensures EventHashes(entries[..i + 1]) == EventHashes(entries[..i]) + [ContentHash(entries[i].event)]
  {
    assert entries[..i + 1] == entries[..i] + [entries[i]];
    EventHashesConcat(entries[..i], [entries[i]]);
  }

  lemma {:induction false} EntriesBytesEmpty(entries: seq<LogEntry>)
    ensures EntriesBytes(entries[..0]) == []
  {
  }

  lemma {:induction false} ParseEntriesStep(input: Bytes, pos: nat)
    requires pos < |input|
    ensures ParseEntries(input[pos..]) ==
            match EntryCbor.dec(input[pos..])
            case None => Err(BadCbor)
            case Some((e, n)) =>
              if n == 0 || n > |input| - pos then Err(BadCbor)
              else match ParseEntries(input[pos + n..]) case Err(f) => Err(f) case Ok(more) => Ok([e] + more)
  {
    var b := input[pos..];
    assert forall n | 0 <= n <= |b| :: b[n..] == input[pos + n..];
  }

  lemma {:induction false} ParseEntriesEnd(input: Bytes)
    ensures ParseEntries(input[|input|..]) == Ok([])
  {
  }

  // ----- many logs ----------------------------------------------------------

  ghost function AllContents(logs: seq<AuditLog>): (c: seq<Log>)
    reads logs
    ensures |c| == |logs|
    ensures forall i | 0 <= i < |logs| :: c[i] == logs[i].Contents()
  {
    if logs == [] then [] else [logs[0].Contents()] + AllContents(logs[1..])
  }

  /** Verify a multi-file chain: the first log is a root, every log verifies,
      and every neighbouring pair is linked both ways. */
  method VerifyChain(logs: seq<AuditLog>) returns (ok: bool)
    requires forall l | l in logs :: l.Valid()
    ensures ok <==> ChainOk(AllContents(logs))
  {
    hide Accepted, Linked, FirstFault, EventHashes, Frontier, LeafHashes;
    ghost var all := AllContents(logs);
    if logs == [] {
      return false;
    }
    var first := logs[0];
    var fault := first.Verify();
    NoFaultIffAccepted(all[0]);
    if fault.Some? || first.header.prevLogId.Some? || first.header.prevLogFinalRoot.Some? {
      return false;
    }
    for i := 1 to |logs|
      invariant forall j | 0 < j < i :: LinkedAt(all, j)
    {
      ok := VerifyNext(logs[i - 1], logs[i]);
      assert all[i - 1] == logs[i - 1].Contents() && all[i] == logs[i].Contents();
      assert ok <==> LinkedAt(all, i);
      if !ok {
        return;
      }
    }
    return true;
  }

  /** One turn of the loop: the next log verifies and continues the previous. */
  method VerifyNext(prev: AuditLog, next: AuditLog) returns (ok: bool)
    requires prev.Valid()
    ensures ok <==> Accepted(next.Contents()) && Linked(prev.Contents(), next.Contents())
  {
    hide Accepted, Linked, FirstFault, EventHashes, Frontier, LeafHashes;
    var fault := next.Verify();
    NoFaultIffAccepted(next.Contents());
    if fault.Some? {
      return false;
    }
    ok := CheckLink(prev, next);
  }

  method CheckLink(prev: AuditLog, next: AuditLog) returns (ok: bool)
    requires prev.Valid()
    ensures ok <==> Linked(prev.Contents(), next.Contents())
  {
    hide RootOf, Accepted, HexEncode, EventHashes, Frontier, LeafHashes;
    if prev.entries == [] {
      return false;
    }
    var last := prev.entries[|prev.entries| - 1].event;
    if last.action != ROTATION_CLOSE || "new_log_id" !in last.metadata {
      return false;
    }
    if last.metadata["new_log_id"] != IdHex(next.header.logId) {
      return false;
    }
    if next.header.prevLogId != Some(prev.header.logId) {
      return false;
    }
    var expectedRoot := prev.tree.Root();
    if next.header.prevLogFinalRoot != Some(expectedRoot) {
      return false;
    }
    if next.entries == [] {
      return false;
    }
    var firstEvent := next.entries[0].event;
    if firstEvent.action != ROTATION_OPEN || "prev_log_id" !in firstEvent.metadata {
      return false;
    }
    return firstEvent.metadata["prev_log_id"] == IdHex(prev.header.logId);
  }
}
