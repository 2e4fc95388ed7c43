/** What the signatures of the audit log are worth, over any number of lives of
    the writer.

    The only assumption on signatures is that what verifies under a key was
    signed with it.  What was signed is not assumed but tracked: the writer's
    flushes, both sentinels of every rotation however far it got, and anything
    at all that the keys sign elsewhere, short of entries of these very logs.

    The result is not that an accepted log is a prefix of the recorded one.  A
    rotation signs its closing sentinel on a snapshot and can then fail, and
    the live log goes on from where the snapshot was taken; a crash can lose
    signed entries that were never saved, and the next life goes on from the
    file.  What was signed verifies for ever.  So the signer leaves branches
    behind, and an accepted log is a prefix of one of them and nothing else. */
module TamperEvidence {
  import opened Bytes
  import opened Wrappers
  import opened Merkle
  import opened Payload
  import opened Signing
  import opened LogModel
  import opened LogFile
  import opened RotationChain
  import opened AuditWriter

  // ----- log ids in signed messages -----------------------------------------

  lemma {:induction false} PayloadCarriesId(id: LogId, i: nat, p: Digest, e: Digest, n: Digest)
    ensures CarriesId(PayloadBytes(id, i, p, e, n), id)
  {
    hide PayloadBytes;
  }

  lemma {:induction false} PayloadStart(id: LogId, i: nat, p: Digest, e: Digest, n: Digest)
    ensures PayloadBytes(id, i, p, e, n)[..31] == Prologue(id)
  {
    hide Prologue, Uint, Epilogue;
    var front, rest := Prologue(id), Uint(i) + Epilogue(p, e, n);
    assert PayloadBytes(id, i, p, e, n) == front + rest;
  }

  /** A message carries at most one log id. */
  lemma {:induction false} OneId(msg: Bytes, a: LogId, b: LogId)
    requires CarriesId(msg, a) && CarriesId(msg, b)
    ensures a == b
  {
    hide PayloadBytes;
    var i: nat, p, e, n :| msg == PayloadBytes(a, i, p, e, n);
    var i': nat, p', e', n' :| msg == PayloadBytes(b, i', p', e', n');
    PayloadStart(a, i, p, e, n);
    PayloadStart(b, i', p', e', n');
    PrologueInjective(a, b);
  }

  // ----- what was signed under a log's key and id ---------------------------

  /** The message is that of one of the log's own entries. */
  ghost predicate Records(log: Log, msg: Bytes)
  {
    exists j | 0 <= j < |log.entries| :: msg == EntryPayload(log.header.logId, log.entries[j])
  }

  /** A branch of the log: the log itself, or an abandoned one with the very
      same header. */
  ghost predicate BranchOf(f: Log, log: Log, abandoned: set<Log>)
  {
    f == log || (f in abandoned && f.header == log.header && Accepted(f))
  }

  /** Everything the log's key signed under the log's id is an entry of one of
      its branches. */
  ghost predicate Authored(log: Log, signed: set<(Bytes, Bytes)>, abandoned: set<Log>)
  {
    forall msg | (log.header.pubkey, msg) in signed && CarriesId(msg, log.header.logId) ::
      exists f :: BranchOf(f, log, abandoned) && Records(f, msg)
  }

  /** All messages signed carry other ids. */
  ghost predicate Unused(id: LogId, signed: set<(Bytes, Bytes)>)
  {
    forall m | m in signed :: !CarriesId(m.1, id)
  }

  ghost predicate Tracked(s: State)
  {
    && DistinctIds(OwnLogs(s))
    && forall log | log in OwnLogs(s) :: Authored(log, s.signed, s.abandoned)
  }

  // ----- how authorship carries over ----------------------------------------

  lemma {:induction false} RecordsGrow(log: Log, next: Log, msg: Bytes)
    requires next.header == log.header && log.entries <= next.entries && Records(log, msg)
    ensures Records(next, msg)
  {
    hide EntryPayload;
    var j :| 0 <= j < |log.entries| && msg == EntryPayload(log.header.logId, log.entries[j]);
    assert next.entries[j] == log.entries[j];
  }

  /** The log grows, and whatever else gets signed under its id is an entry of
      one of its branches afterwards. */
  lemma {:induction false} AuthoredGrows(log: Log, next: Log, signed: set<(Bytes, Bytes)>, abandoned: set<Log>,
                                         more: set<(Bytes, Bytes)>, left: set<Log>)
    requires Authored(log, signed, abandoned) && next.header == log.header && log.entries <= next.entries
    requires forall m | m in more && CarriesId(m.1, log.header.logId) ::
               exists f :: BranchOf(f, next, abandoned + left) && Records(f, m.1)
    ensures Authored(next, signed + more, abandoned + left)
  {
    hide Records, CarriesId, Accepted;
    forall msg | (next.header.pubkey, msg) in signed + more && CarriesId(msg, next.header.logId)
      ensures exists f :: BranchOf(f, next, abandoned + left) && Records(f, msg)
    {
      if (next.header.pubkey, msg) in signed {
        var f :| BranchOf(f, log, abandoned) && Records(f, msg);
        if f == log {
          RecordsGrow(log, next, msg);
          assert BranchOf(next, next, abandoned + left);
        } else {
          assert BranchOf(f, next, abandoned + left);
        }
      } else {
        var m := (next.header.pubkey, msg);
        assert m in more && m.1 == msg;
      }
    }
  }

  /** Signatures under other ids do not concern the log. */
  lemma {:induction false} AuthoredElsewhere(log: Log, signed: set<(Bytes, Bytes)>, abandoned: set<Log>,
                                             more: set<(Bytes, Bytes)>, left: set<Log>)
    requires Authored(log, signed, abandoned) && Unused(log.header.logId, more)
    ensures Authored(log, signed + more, abandoned + left)
  {
    hide Authored, CarriesId;
    AuthoredGrows(log, log, signed, abandoned, more, left);
  }

  /** The log is left behind for another one with its header. */
  lemma {:induction false} AuthoredLeftBehind(log: Log, next: Log, signed: set<(Bytes, Bytes)>, abandoned: set<Log>)
    requires Authored(log, signed, abandoned) && Accepted(log) && next.header == log.header
    ensures Authored(next, signed, abandoned + {log})
  {
    hide Records, CarriesId, Accepted;
    forall msg | (next.header.pubkey, msg) in signed && CarriesId(msg, next.header.logId)
      ensures exists f :: BranchOf(f, next, abandoned + {log}) && Records(f, msg)
    {
      var f :| BranchOf(f, log, abandoned) && Records(f, msg);
      assert BranchOf(f, next, abandoned + {log});
    }
  }

  // ----- distinct ids -------------------------------------------------------

  lemma {:induction false} SameIdsDistinct(a: seq<Log>, b: seq<Log>)
    requires DistinctIds(a) && |b| <= |a| && forall i | 0 <= i < |b| :: b[i].header.logId == a[i].header.logId
    ensures DistinctIds(b)
  {
    forall i, j | 0 <= i < j < |b| ensures b[i].header.logId != b[j].header.logId {
      assert a[i].header.logId != a[j].header.logId;
    }
  }

  lemma {:induction false} SnocDistinct(logs: seq<Log>, next: Log)
    requires DistinctIds(logs) && forall log | log in logs :: log.header.logId != next.header.logId
    ensures DistinctIds(logs + [next])
  {
    var all := logs + [next];
    forall i, j | 0 <= i < j < |all| ensures all[i].header.logId != all[j].header.logId {
      assert all[i] == logs[i] && logs[i] in logs;
    }
  }

  lemma {:induction false} LiveIsOwn(s: State)
    ensures s.live in OwnLogs(s) && forall log | log in s.archives :: log in OwnLogs(s)
  {
    assert OwnLogs(s)[|s.archives|] == s.live;
    forall log | log in s.archives ensures log in OwnLogs(s) {
      var i :| 0 <= i < |s.archives| && s.archives[i] == log;
      assert OwnLogs(s)[i] == log;
    }
  }

  /** No other log of the task has the live log's id. */
  lemma {:induction false} OthersDiffer(s: State, log: Log)
    requires DistinctIds(OwnLogs(s))
    requires log in s.archives || (s.durable.Switched? && log == s.durable.next)
    ensures log in OwnLogs(s) && log.header.logId != s.live.header.logId
  {
    var all := OwnLogs(s);
    assert all[|s.archives|] == s.live;
    if log in s.archives {
      var i :| 0 <= i < |s.archives| && s.archives[i] == log;
      assert all[i] == log;
    } else {
      assert all[|s.archives| + 1] == log;
    }
  }

  // ----- a flush ------------------------------------------------------------

  lemma {:induction false} NextPayloadRecorded(log: Log, event: Event, at: Time, sig: Bytes)
    ensures Records(Appended(log, event, at, sig), NextPayload(log, event))
    ensures CarriesId(NextPayload(log, event), log.header.logId)
  {
    hide PayloadBytes, RootOfLog, RootOf, EventHashes, CarriesId;
    var next := Appended(log, event, at, sig);
    assert EntryPayload(log.header.logId, next.entries[|log.entries|]) == NextPayload(log, event);
    PayloadCarriesId(log.header.logId, |log.entries|, RootOfLog(log.entries), ContentHash(event),
                     RootOf(EventHashes(log.entries) + [ContentHash(event)]));
  }

  /** What a batch signs, the log records. */
  lemma {:induction false} BatchRecorded(log: Log, events: seq<Event>, stamps: seq<Stamp>, m: (Bytes, Bytes))
    requires |stamps| <= |events| && m in SignedBy(log, events, stamps)
    ensures Records(AppendAll(log, events, stamps), m.1) && CarriesId(m.1, log.header.logId)
    decreases |stamps|
  {
    hide Records, CarriesId, NextPayload, RootOfLog, EventHashes;
    var one := Appended(log, events[0], stamps[0].at, stamps[0].sig);
    AppendAllExtends(one, events[1..], stamps[1..]);
    if m == (log.header.pubkey, NextPayload(log, events[0])) {
      NextPayloadRecorded(log, events[0], stamps[0].at, stamps[0].sig);
      RecordsGrow(one, AppendAll(log, events, stamps), m.1);
    } else {
      BatchRecorded(one, events[1..], stamps[1..], m);
    }
  }

  lemma {:induction false} OtherIdUnused(more: set<(Bytes, Bytes)>, id: LogId, other: LogId)
    requires forall m | m in more :: CarriesId(m.1, id)
    requires id != other
    ensures Unused(other, more)
  {
    hide CarriesId;
    forall m | m in more ensures !CarriesId(m.1, other) {
      if CarriesId(m.1, other) {
        OneId(m.1, id, other);
      }
    }
  }

  lemma {:induction false} FlushKeepsTrack(s: State, o: FlushOutcome)
    requires Tracked(s) && |o.stamps| <= |s.pending|
    ensures Tracked(Flush(s, o))
  {
    hide Authored, CarriesId, Records, SignedBy, AppendAll, Range, DistinctIds, FileBytes, Accepted;
    if s.pending != [] {
      var t := Flush(s, o);
      var more := SignedBy(s.live, s.pending, o.stamps);
      AppendAllExtends(s.live, s.pending, o.stamps);
      forall m | m in more ensures Records(t.live, m.1) && CarriesId(m.1, s.live.header.logId) {
        BatchRecorded(s.live, s.pending, o.stamps, m);
      }
      LiveIsOwn(s);
      assert s.abandoned + {} == s.abandoned;
      assert BranchOf(t.live, t.live, s.abandoned);
      AuthoredGrows(s.live, t.live, s.signed, s.abandoned, more, {});
      forall log | log in OwnLogs(t) && log != t.live ensures Authored(log, t.signed, t.abandoned) {
        OthersDiffer(s, log);
        OtherIdUnused(more, s.live.header.logId, log.header.logId);
        AuthoredElsewhere(log, s.signed, s.abandoned, more, {});
      }
      SameIdsDistinct(OwnLogs(s), OwnLogs(t));
    }
  }

  // ----- a rotation ---------------------------------------------------------

  /** A rotation draws an id nothing has been signed under. */
  ghost predicate FreshId(s: State, id: LogId)
  {
    Unused(id, s.signed) && forall log | log in OwnLogs(s) :: log.header.logId != id
  }

  lemma {:induction false} SealRecordsClose(live: Log, p: Prepared)
    requires Accepted(live) && HonestClose(live, p)
    ensures Accepted(SealedBy(live, p)) && Records(SealedBy(live, p), CloseMessage(live, p.rotation).1)
    ensures CarriesId(CloseMessage(live, p.rotation).1, live.header.logId)
    ensures SealedBy(live, p).header == live.header && live.entries <= SealedBy(live, p).entries
  {
    hide NextPayload, Accepted, RootOfLog, EventHashes, IdHex, CarriesId, Records;
    var close := CloseEvent(live, p.rotation);
    AppendedAccepted(live, close, p.rotation.times.closeAppended, p.closeSig);
    NextPayloadRecorded(live, close, p.rotation.times.closeAppended, p.closeSig);
  }

  lemma {:induction false} OpenCarriesNewId(sealed: Log, r: Rotation, sig: Bytes)
    ensures CarriesId(OpenMessage(sealed, r).1, r.newId)
    ensures Records(SuccessorLog(sealed, r, sig), OpenMessage(sealed, r).1)
    ensures SuccessorLog(sealed, r, sig).header.logId == r.newId
  {
    hide NextPayload, CarriesId, Records, RootOfLog, OpenEvent;
    NextPayloadRecorded(EmptySuccessor(sealed, r), OpenEvent(sealed, r), r.times.openAppended, sig);
  }

  /** Of the two sentinels one carries the live id, the other the new one. */
  lemma {:induction false} SentinelIds(live: Log, o: RotationOutcome, m: (Bytes, Bytes), id: LogId)
    requires !o.Refused? && Accepted(live) && HonestClose(live, o.p)
    requires m in RotationSigns(live, o) && CarriesId(m.1, id)
    ensures id == live.header.logId || id == o.p.rotation.newId
    ensures id == live.header.logId && id != o.p.rotation.newId ==> m == CloseMessage(live, o.p.rotation)
    ensures id == o.p.rotation.newId && id != live.header.logId ==>
              m == OpenMessage(SealedBy(live, o.p), o.p.rotation)
  {
    hide CarriesId, Records, CloseMessage, OpenMessage, SealedBy, Accepted, HonestClose, SuccessorLog;
    SealRecordsClose(live, o.p);
    OpenCarriesNewId(SealedBy(live, o.p), o.p.rotation, []);
    if m == CloseMessage(live, o.p.rotation) {
      OneId(m.1, id, live.header.logId);
    } else {
      OneId(m.1, id, o.p.rotation.newId);
    }
  }

  /** Neither sentinel concerns a log with another id. */
  lemma {:induction false} SentinelsElsewhere(live: Log, o: RotationOutcome, id: LogId)
    requires !o.Refused? && Accepted(live) && HonestClose(live, o.p)
    requires id != live.header.logId && id != o.p.rotation.newId
    ensures Unused(id, RotationSigns(live, o))
  {
    hide CarriesId, RotationSigns, Accepted, HonestClose;
    forall m | m in RotationSigns(live, o) ensures !CarriesId(m.1, id) {
      if CarriesId(m.1, id) {
        SentinelIds(live, o, m, id);
      }
    }
  }

  /** The successor of a rotation starts with everything signed under its fresh
      id on record. */
  lemma {:induction false} SuccessorAuthored(s: State, o: RotationOutcome, abandoned: set<Log>)
    requires !o.Refused? && Accepted(s.live) && HonestClose(s.live, o.p) && FreshId(s, o.p.rotation.newId)
    ensures Authored(NextBy(s.live, o.p), s.signed + RotationSigns(s.live, o), abandoned)
  {
    hide CarriesId, Records, RotationSigns, OpenMessage, CloseMessage, SealedBy, SuccessorLog, Accepted, HonestClose;
    var next, id := NextBy(s.live, o.p), o.p.rotation.newId;
    OpenCarriesNewId(SealedBy(s.live, o.p), o.p.rotation, o.p.openSig);
    LiveIsOwn(s);
    forall msg | (next.header.pubkey, msg) in s.signed + RotationSigns(s.live, o) && CarriesId(msg, id)
      ensures BranchOf(next, next, abandoned) && Records(next, msg)
    {
      var m := (next.header.pubkey, msg);
      assert m in s.signed ==> !CarriesId(m.1, id);
      SentinelIds(s.live, o, m, id);
    }
  }

  /** The live log, or its seal, after the rotation. */
  lemma {:induction false} LiveStaysAuthored(s: State, o: RotationOutcome, next: Log, left: set<Log>)
    requires Tracked(s) && !o.Refused? && Accepted(s.live) && HonestClose(s.live, o.p) && FreshId(s, o.p.rotation.newId)
    requires next == SealedBy(s.live, o.p) || (next == s.live && SealedBy(s.live, o.p) in left)
    ensures Authored(next, s.signed + RotationSigns(s.live, o), s.abandoned + left)
  {
    hide CarriesId, Records, RotationSigns, CloseMessage, SealedBy, Authored, Accepted, HonestClose, Unused, DistinctIds;
    LiveIsOwn(s);
    SealRecordsClose(s.live, o.p);
    var sealed, more := SealedBy(s.live, o.p), RotationSigns(s.live, o);
    assert BranchOf(sealed, next, s.abandoned + left);
    forall m | m in more && CarriesId(m.1, s.live.header.logId) ensures Records(sealed, m.1) {
      SentinelIds(s.live, o, m, s.live.header.logId);
    }
    AuthoredGrows(s.live, next, s.signed, s.abandoned, more, left);
  }

  lemma {:induction false} OthersStayAuthored(s: State, o: RotationOutcome, log: Log, left: set<Log>)
    requires Tracked(s) && !o.Refused? && Accepted(s.live) && HonestClose(s.live, o.p) && FreshId(s, o.p.rotation.newId)
    requires log in s.archives || (s.durable.Switched? && log == s.durable.next)
    ensures Authored(log, s.signed + RotationSigns(s.live, o), s.abandoned + left)
  {
    hide Authored, Accepted, HonestClose, SealedBy, RotationSigns, DistinctIds, Unused;
    OthersDiffer(s, log);
    SentinelsElsewhere(s.live, o, log.header.logId);
    AuthoredElsewhere(log, s.signed, s.abandoned, RotationSigns(s.live, o), left);
  }

  /** Archives, live end and, perhaps, a successor: all with distinct ids. */
  lemma {:induction false} RotationKeepsDistinct(s: State, end: Log, next: Log)
    requires DistinctIds(OwnLogs(s)) && FreshId(s, next.header.logId) && end.header.logId == s.live.header.logId
    ensures DistinctIds(s.archives + [end] + [next])
  {
    hide DistinctIds, Unused;
    LiveIsOwn(s);
    SameIdsDistinct(OwnLogs(s), s.archives + [end]);
    SnocDistinct(s.archives + [end], next);
  }

  lemma {:induction false} NextHasNewId(live: Log, p: Prepared)
    ensures NextBy(live, p).header.logId == p.rotation.newId
  {
    hide RootOfLog, SealedBy, OpenEvent;
  }

  /** What a signing rotation does to the task's logs. */
  lemma {:induction false} RotationOwnLogs(s: State, req: Request, o: RotationOutcome)
    requires !o.Refused?
    ensures var t := PerformRotation(s, req, o);
            && t.signed == s.signed + RotationSigns(s.live, o)
            && t.abandoned == s.abandoned + (if o.Committed? then {} else {SealedBy(s.live, o.p)})
            && OwnLogs(t) == (match o
                              case Committed(p) => s.archives + [SealedBy(s.live, p)] + [NextBy(s.live, p)]
                              case SwitchReportedFailed(p) => s.archives + [s.live] + [NextBy(s.live, p)]
                              case _ => OwnLogs(s))
            && (t.durable.Switched? ==>
                  t.durable == s.durable || (o.SwitchReportedFailed? && t.durable.sealed == SealedBy(s.live, o.p)))
  {
    hide SealedBy, NextBy, RotatedDisk, RotationSigns;
  }

  /** A rotation that got as far as the switch: the successor joins the logs. */
  lemma {:induction false} SwitchKeepsTrack(s: State, req: Request, o: RotationOutcome)
    requires o.Committed? || o.SwitchReportedFailed?
    requires Tracked(s) && Accepted(s.live) && HonestClose(s.live, o.p) && FreshId(s, o.p.rotation.newId)
    ensures Tracked(PerformRotation(s, req, o))
  {
    hide Authored, Accepted, HonestClose, RotationSigns, DistinctIds, FreshId, SealedBy, NextBy, PerformRotation, OwnLogs;
    var t := PerformRotation(s, req, o);
    RotationOwnLogs(s, req, o);
    var sealed, next := SealedBy(s.live, o.p), NextBy(s.live, o.p);
    var end := if o.Committed? then sealed else s.live;
    var left := if o.Committed? then {} else {sealed};
    assert OwnLogs(t) == s.archives + [end] + [next] && t.abandoned == s.abandoned + left;
    SealRecordsClose(s.live, o.p);
    LiveStaysAuthored(s, o, end, left);
    forall log | log in s.archives ensures Authored(log, t.signed, t.abandoned) {
      OthersStayAuthored(s, o, log, left);
    }
    NextHasNewId(s.live, o.p);
    SuccessorAuthored(s, o, t.abandoned);
    RotationKeepsDistinct(s, end, next);
  }

  /** A rotation that failed before the switch leaves a seal behind. */
  lemma {:induction false} FailureKeepsTrack(s: State, req: Request, o: RotationOutcome)
    requires o.Unpublished? || o.PublishedOnly?
    requires Tracked(s) && Accepted(s.live) && HonestClose(s.live, o.p) && FreshId(s, o.p.rotation.newId)
    ensures Tracked(PerformRotation(s, req, o))
  {
    hide Authored, Accepted, HonestClose, RotationSigns, DistinctIds, FreshId, SealedBy, NextBy, PerformRotation;
    var t := PerformRotation(s, req, o);
    var left := {SealedBy(s.live, o.p)};
    RotationOwnLogs(s, req, o);
    LiveStaysAuthored(s, o, s.live, left);
    forall log | log in OwnLogs(s) && log != s.live ensures Authored(log, t.signed, t.abandoned) {
      OthersStayAuthored(s, o, log, left);
    }
  }

  /** The ids of all rotations along a run are fresh. */
  ghost predicate FreshIds(s: State, steps: seq<Step>)
    decreases |steps|
  {
    steps == [] ||
    (&& Enabled(s, steps[0])
     && (steps[0].RunRotation? && !steps[0].rotation.Refused? ==> FreshId(s, steps[0].rotation.p.rotation.newId))
     && FreshIds(Next(s, steps[0]), steps[1..]))
  }

  lemma {:induction false} HonestOutcomeCloses(live: Log, o: RotationOutcome)
    requires !o.Refused? && HonestOutcome(live, o)
    ensures HonestClose(live, o.p)
  {
  }

  lemma {:induction false} TrackedFrame(s: State, t: State)
    requires Tracked(s) && t.archives == s.archives && t.live == s.live && t.durable == s.durable
    requires t.signed == s.signed && t.abandoned == s.abandoned
    ensures Tracked(t)
  {
    hide Authored;
    assert OwnLogs(t) == OwnLogs(s);
  }

  lemma {:induction false} RefusedChangesNothing(s: State, req: Request)
    ensures PerformRotation(s, req, Refused) == s
  {
    hide SealedBy, NextBy, FileBytes;
    assert s.signed + {} == s.signed && s.abandoned + {} == s.abandoned;
  }

  lemma {:induction false} RotationKeepsTrack(s: State, req: Request, o: RotationOutcome)
    requires Inv(s) && Tracked(s) && HonestOutcome(s.live, o)
    requires !o.Refused? ==> FreshId(s, o.p.rotation.newId)
    ensures Tracked(PerformRotation(s, req, o))
  {
    hide Tracked, Accepted, HonestOutcome, HonestClose, FreshId, ChainOk, Accounted, OnDisk, PerformRotation;
    if o.Refused? {
      RefusedChangesNothing(s, req);
    } else {
      LiveAccepted(s.archives + [s.live]);
      HonestOutcomeCloses(s.live, o);
      if o.Committed? || o.SwitchReportedFailed? {
        SwitchKeepsTrack(s, req, o);
      } else {
        FailureKeepsTrack(s, req, o);
      }
    }
  }

  // ----- every step, every life ---------------------------------------------

  lemma {:induction false} ElsewhereKeepsTrack(s: State, key: Bytes, msg: Bytes)
    requires Tracked(s) && Enabled(s, SignElsewhere(key, msg))
    ensures Tracked(Next(s, SignElsewhere(key, msg)))
  {
    hide Authored, CarriesId, DistinctIds;
    var t := Next(s, SignElsewhere(key, msg));
    assert OwnLogs(t) == OwnLogs(s) && s.abandoned + {} == s.abandoned;
    forall log | log in OwnLogs(s) ensures Authored(log, s.signed + {(key, msg)}, s.abandoned) {
      AuthoredElsewhere(log, s.signed, s.abandoned, {(key, msg)}, {});
    }
  }

  lemma {:induction false} StepKeepsTrack(s: State, step: Step)
    requires Inv(s) && Tracked(s) && Enabled(s, step)
    requires step.RunRotation? && !step.rotation.Refused? ==> FreshId(s, step.rotation.p.rotation.newId)
    ensures Tracked(Next(s, step))
  {
    hide Inv, Tracked, FreshId, HonestStamps, HonestOutcome, Flush, PerformRotation, CarriesId;
    var t := Next(s, step);
    match step
    case RunFlush(o) =>
      if s.pc.FlushIfFull? && |s.pending| < s.batchSize {
        TrackedFrame(s, t);
      } else {
        FlushKeepsTrack(s, o);
        TrackedFrame(Flush(s, o), t);
      }
    case RunRotation(o) =>
      RotationKeepsTrack(s, s.pc.req, o);
      TrackedFrame(PerformRotation(s, s.pc.req, o), t);
    case SignElsewhere(key, msg) => ElsewhereKeepsTrack(s, key, msg);
    case _ => TrackedFrame(s, t);
  }

  lemma {:induction false} RunKeepsTrack(s: State, steps: seq<Step>, t: State)
    requires Inv(s) && Tracked(s) && Run(s, steps, t) && FreshIds(s, steps)
    ensures Inv(t) && Tracked(t)
    decreases |steps|
  {
    hide Inv, Tracked, Enabled, Next, FreshId;
    if steps != [] {
      StepKeepsInv(s, steps[0]);
      StepKeepsTrack(s, steps[0]);
      RunKeepsTrack(Next(s, steps[0]), steps[1..], t);
    }
  }

  /** The task is killed and goes on from its file; the log it had in memory
      becomes a branch. */
  lemma {:induction false} RestartKeepsTrack(s: State)
    requires Inv(s) && Tracked(s)
    ensures Tracked(Restarted(s))
  {
    hide Authored, DistinctIds, ChainOk, Accounted, ArchivesOnDisk, Recorded, FileBytes, Body, Accepted;
    var t := Restarted(s);
    LiveIsOwn(s);
    LiveAccepted(s.archives + [s.live]);
    assert s.signed + {} == s.signed;
    forall log | log in s.archives || (s.durable.Switched? && log == s.durable.next)
      ensures Authored(log, s.signed, t.abandoned)
    {
      OthersDiffer(s, log);
      AuthoredElsewhere(log, s.signed, s.abandoned, {}, {s.live});
    }
    var end := if s.durable.Switched? then s.durable.sealed else t.live;
    AuthoredLeftBehind(s.live, end, s.signed, s.abandoned);
    SameIdsDistinct(OwnLogs(s), OwnLogs(t));
  }

  /** One life of the task: the steps it took, and the state it died in. */
  datatype Life = Life(steps: seq<Step>, end: State)

  /** Any number of lives, each but the last ended by a crash. */
  ghost predicate Lives(s: State, lives: seq<Life>, t: State)
    decreases |lives|
  {
    && lives != []
    && Run(s, lives[0].steps, lives[0].end)
    && (if |lives| == 1 then t == lives[0].end
        else OnDisk(lives[0].end) && Lives(Restarted(lives[0].end), lives[1..], t))
  }

  ghost predicate FreshLives(s: State, lives: seq<Life>)
    decreases |lives|
  {
    lives == [] ||
    (&& FreshIds(s, lives[0].steps)
     && (|lives| > 1 ==> OnDisk(lives[0].end) && FreshLives(Restarted(lives[0].end), lives[1..])))
  }

  lemma {:induction false} LivesKeepTrack(s: State, lives: seq<Life>, t: State)
    requires Init(s) && Tracked(s) && Lives(s, lives, t) && FreshLives(s, lives)
    ensures Inv(t) && Tracked(t)
    decreases |lives|
  {
    hide Init, Inv, Tracked, Run, FreshIds, OnDisk, Restarted;
    var u := lives[0].end;
    InitInv(s);
    RunKeepsTrack(s, lives[0].steps, u);
    if |lives| > 1 {
      RestartRecovers(u);
      RestartKeepsTrack(u);
      LivesKeepTrack(Restarted(u), lives[1..], t);
    }
  }

  // ----- everything that is recorded was signed -----------------------------

  /** Every entry of the log is among what its key signed. */
  ghost predicate EntriesSigned(log: Log, signed: set<(Bytes, Bytes)>)
  {
    forall i | 0 <= i < |log.entries| :: (log.header.pubkey, EntryPayload(log.header.logId, log.entries[i])) in signed
  }

  /** The task's logs and all it has left behind hold signed entries only: what
      is tracked as signed misses nothing that verifies there. */
  ghost predicate AllSigned(s: State)
  {
    && (forall log | log in OwnLogs(s) :: EntriesSigned(log, s.signed))
    && (forall log | log in s.abandoned :: EntriesSigned(log, s.signed))
    && (s.durable.Switched? ==> s.durable.sealed in s.abandoned)
  }

  lemma {:induction false} SignedGrows(log: Log, signed: set<(Bytes, Bytes)>, more: set<(Bytes, Bytes)>)
    requires EntriesSigned(log, signed) && signed <= more
    ensures EntriesSigned(log, more)
  {
    hide EntryPayload;
  }

  lemma {:induction false} AppendedSigned(log: Log, event: Event, at: Time, sig: Bytes, signed: set<(Bytes, Bytes)>)
    requires EntriesSigned(log, signed) && (log.header.pubkey, NextPayload(log, event)) in signed
    ensures EntriesSigned(Appended(log, event, at, sig), signed)
  {
    hide PayloadBytes, RootOfLog, RootOf, EventHashes;
    var next := Appended(log, event, at, sig);
    forall i | 0 <= i < |next.entries|
      ensures (next.header.pubkey, EntryPayload(next.header.logId, next.entries[i])) in signed
    {
      if i < |log.entries| {
        assert next.entries[i] == log.entries[i];
      }
    }
  }

  lemma {:induction false} BatchSigned(log: Log, events: seq<Event>, stamps: seq<Stamp>, signed: set<(Bytes, Bytes)>)
    requires |stamps| <= |events| && EntriesSigned(log, signed) && SignedBy(log, events, stamps) <= signed
    ensures EntriesSigned(AppendAll(log, events, stamps), signed)
    decreases |stamps|
  {
    hide EntriesSigned, Appended, NextPayload;
    if stamps != [] {
      AppendedSigned(log, events[0], stamps[0].at, stamps[0].sig, signed);
      BatchSigned(Appended(log, events[0], stamps[0].at, stamps[0].sig), events[1..], stamps[1..], signed);
    }
  }

  lemma {:induction false} OldStaySigned(s: State, t: State)
    requires AllSigned(s) && s.signed <= t.signed
    ensures forall log | log in OwnLogs(s) || log in s.abandoned :: EntriesSigned(log, t.signed)
  {
    hide EntriesSigned, OwnLogs;
    forall log | log in OwnLogs(s) || log in s.abandoned ensures EntriesSigned(log, t.signed) {
      SignedGrows(log, s.signed, t.signed);
    }
  }

  lemma {:induction false} FlushKeepsSigned(s: State, o: FlushOutcome)
    requires AllSigned(s) && |o.stamps| <= |s.pending|
    ensures AllSigned(Flush(s, o))
  {
    hide EntriesSigned, SignedBy, AppendAll, Range, FileBytes;
    if s.pending != [] {
      var t := Flush(s, o);
      OldStaySigned(s, t);
      LiveIsOwn(s);
      BatchSigned(s.live, s.pending, o.stamps, t.signed);
      forall log | log in OwnLogs(t) && log != t.live ensures log in OwnLogs(s) {
        if log in s.archives {
        } else {
          assert OwnLogs(s)[|s.archives| + 1] == s.durable.next;
        }
      }
    }
  }

  lemma {:induction false} SentinelsSigned(live: Log, p: Prepared, signed: set<(Bytes, Bytes)>)
    requires EntriesSigned(live, signed) && CloseMessage(live, p.rotation) in signed
    ensures EntriesSigned(SealedBy(live, p), signed)
    ensures OpenMessage(SealedBy(live, p), p.rotation) in signed ==> EntriesSigned(NextBy(live, p), signed)
  {
    hide NextPayload, RootOfLog, Appended;
    AppendedSigned(live, CloseEvent(live, p.rotation), p.rotation.times.closeAppended, p.closeSig, signed);
    var sealed := SealedBy(live, p);
    var empty := EmptySuccessor(sealed, p.rotation);
    if OpenMessage(sealed, p.rotation) in signed {
      AppendedSigned(empty, OpenEvent(sealed, p.rotation), p.rotation.times.openAppended, p.openSig, signed);
    }
  }

  lemma {:induction false} RotationKeepsSigned(s: State, req: Request, o: RotationOutcome)
    requires AllSigned(s)
    ensures AllSigned(PerformRotation(s, req, o))
  {
    hide EntriesSigned, PerformRotation, SealedBy, NextBy, CloseMessage, OpenMessage;
    if o.Refused? {
      RefusedChangesNothing(s, req);
    } else {
      var t := PerformRotation(s, req, o);
      RotationOwnLogs(s, req, o);
      OldStaySigned(s, t);
      LiveIsOwn(s);
      SentinelsSigned(s.live, o.p, t.signed);
    }
  }

  lemma {:induction false} StepKeepsSigned(s: State, step: Step)
    requires AllSigned(s) && Enabled(s, step)
    ensures AllSigned(Next(s, step))
  {
    hide EntriesSigned, HonestStamps, HonestOutcome, Flush, PerformRotation, CarriesId;
    var t := Next(s, step);
    match step
    case RunFlush(o) =>
      if !(s.pc.FlushIfFull? && |s.pending| < s.batchSize) {
        FlushKeepsSigned(s, o);
      }
    case RunRotation(o) => RotationKeepsSigned(s, s.pc.req, o);
    case SignElsewhere(_, _) => OldStaySigned(s, t);
    case _ =>
  }

  lemma {:induction false} RunKeepsSigned(s: State, steps: seq<Step>, t: State)
    requires AllSigned(s) && Run(s, steps, t)
    ensures AllSigned(t)
    decreases |steps|
  {
    hide AllSigned, Enabled, Next;
    if steps != [] {
      StepKeepsSigned(s, steps[0]);
      RunKeepsSigned(Next(s, steps[0]), steps[1..], t);
    }
  }

  lemma {:induction false} RestartKeepsSigned(s: State)
    requires OnDisk(s) && AllSigned(s)
    ensures AllSigned(Restarted(s))
  {
    hide ChainOk, ArchivesOnDisk, Recorded, FileBytes, Body, EntryPayload;
    LiveIsOwn(s);
    if s.durable.Switched? {
      assert OwnLogs(s)[|s.archives| + 1] == s.durable.next;
    }
  }

  lemma {:induction false} LivesKeepSigned(s: State, lives: seq<Life>, t: State)
    requires AllSigned(s) && Lives(s, lives, t)
    ensures AllSigned(t)
    decreases |lives|
  {
    hide AllSigned, Run, OnDisk, Restarted;
    var u := lives[0].end;
    RunKeepsSigned(s, lives[0].steps, u);
    if |lives| > 1 {
      RestartKeepsSigned(u);
      LivesKeepSigned(Restarted(u), lives[1..], t);
    }
  }

  /** Over any number of lives, everything in the task's logs, archived or live,
      and in everything it leaves behind was signed: the assumption that
      nothing is forged never speaks against the task's own entries. */
  lemma {:induction false} EverythingRecordedWasSigned(s: State, lives: seq<Life>, t: State, log: Log, i: nat)
    requires AllSigned(s) && Lives(s, lives, t)
    requires (log in t.archives || log == t.live || log in t.abandoned) && i < |log.entries|
    ensures (log.header.pubkey, EntryPayload(log.header.logId, log.entries[i])) in t.signed
  {
    hide Lives, EntryPayload;
    LivesKeepSigned(s, lives, t);
    LiveIsOwn(t);
    assert EntriesSigned(log, t.signed);
  }

  // ----- what an accepted log can be ----------------------------------------

  /** Unforgeability, and nothing more. */
  ghost predicate NotForged(pk: Bytes, signed: set<(Bytes, Bytes)>)
  {
    forall msg, sig | Verifies(pk, msg, sig) :: (pk, msg) in signed
  }

  /** The hash separates the histories the signer itself has hashed: those of
      every branch after each entry. */
  ghost predicate SeparatesHistories(log: Log, abandoned: set<Log>, inputs: set<Bytes>)
  {
    && CollisionFreeOn(inputs) && NeverZeroOn(inputs)
    && forall f, k | BranchOf(f, log, abandoned) && 0 <= k <= |f.entries| :: HashedIn(EventHashes(f.entries[..k]), inputs)
  }

  /** Entry indices fit the 64 bits they are signed with. */
  ghost predicate IndicesFit(log: Log, abandoned: set<Log>)
  {
    forall f | BranchOf(f, log, abandoned) :: |f.entries| <= U64_LIMIT
  }

  ghost predicate SameIdentity(a: Log, b: Log)
  {
    a.header.logId == b.header.logId && a.header.pubkey == b.header.pubkey
  }

  /** `claim` records a prefix of what `log` records. */
  ghost predicate IsPrefix(claim: Log, log: Log) { EventHashes(claim.entries) <= EventHashes(log.entries) }

  ghost predicate OnABranch(claim: Log, log: Log, abandoned: set<Log>)
  {
    exists f :: BranchOf(f, log, abandoned) && IsPrefix(claim, f)
  }

  lemma {:induction false} HashesOfPrefix(entries: seq<LogEntry>, n: nat)
    requires n <= |entries|
    ensures EventHashes(entries[..n]) == EventHashes(entries)[..n]
  {
  }

  function LastPayload(log: Log): Bytes
    requires log.entries != []
  {
    EntryPayload(log.header.logId, log.entries[|log.entries| - 1])
  }

  lemma {:induction false} LastIsSigned(claim: Log, log: Log, signed: set<(Bytes, Bytes)>)
    requires Accepted(claim) && claim.entries != [] && SameIdentity(claim, log) && NotForged(log.header.pubkey, signed)
    ensures (log.header.pubkey, LastPayload(claim)) in signed && CarriesId(LastPayload(claim), log.header.logId)
  {
    hide PayloadBytes, RootOfLog, CarriesId;
    var n := |claim.entries| - 1;
    assert EntryOk(claim, n);
    var e := claim.entries[n];
    PayloadCarriesId(log.header.logId, e.index, e.prevRoot, ContentHash(e.event), e.newRoot);
  }

  /** The last entry of an accepted log, matched with an entry that carries the
      same message. */
  lemma {:induction false} SameMessage(claim: Log, other: Log, j: nat)
    requires Accepted(claim) && claim.entries != [] && |claim.entries| <= U64_LIMIT
    requires Accepted(other) && j < |other.entries| <= U64_LIMIT && claim.header.logId == other.header.logId
    requires LastPayload(claim) == EntryPayload(other.header.logId, other.entries[j])
    ensures j == |claim.entries| - 1
    ensures ContentHash(claim.entries[j].event) == ContentHash(other.entries[j].event)
    ensures RootOfLog(claim.entries[..j]) == RootOfLog(other.entries[..j])
  {
    hide PayloadBytes, RootOfLog;
    var n := |claim.entries| - 1;
    assert EntryOk(claim, n) && EntryOk(other, j);
    var e, t := claim.entries[n], other.entries[j];
    PayloadInjective(claim.header.logId, e.index, e.prevRoot, ContentHash(e.event), e.newRoot,
                     other.header.logId, t.index, t.prevRoot, ContentHash(t.event), t.newRoot);
  }

  /** What agrees up to its last entry, and there, is a prefix. */
  lemma {:induction false} OneMoreAgrees(claim: Log, f: Log, n: nat)
    requires |claim.entries| == n + 1 && n < |f.entries|
    requires EventHashes(claim.entries[..n]) == EventHashes(f.entries[..n])
    requires ContentHash(claim.entries[n].event) == ContentHash(f.entries[n].event)
    ensures IsPrefix(claim, f)
  {
    hide EventHashes, ContentHash;
    HashesOfPrefix(claim.entries, n);
    HashesOfPrefix(f.entries, n);
    var c, d := EventHashes(claim.entries), EventHashes(f.entries);
    assert c[..n] == d[..n] && c[n] == d[n];
    assert c == c[..n] + [c[n]] && d[..n + 1] == d[..n] + [d[n]];
  }

  /** What came before the last entry is what its branch held there, even if it
      was first matched with another branch. */
  lemma {:induction false} PastAgrees(past: Log, g: Log, f: Log, log: Log, abandoned: set<Log>, inputs: set<Bytes>)
    requires |past.entries| <= |f.entries| && RootOfLog(past.entries) == RootOfLog(f.entries[..|past.entries|])
    requires BranchOf(g, log, abandoned) && BranchOf(f, log, abandoned) && IsPrefix(past, g)
    requires abandoned == {} || SeparatesHistories(log, abandoned, inputs)
    ensures EventHashes(past.entries) == EventHashes(f.entries[..|past.entries|])
  {
    hide EventHashes, HashedIn, RootOf, CollisionFreeOn, NeverZeroOn, Accepted;
    var n := |past.entries|;
    HashesOfPrefix(g.entries, n);
    assert EventHashes(past.entries) == EventHashes(g.entries[..n]);
    if f != g {
      assert HashedIn(EventHashes(g.entries[..n]), inputs) && HashedIn(EventHashes(f.entries[..n]), inputs);
      RootsBind(EventHashes(g.entries[..n]), EventHashes(f.entries[..n]), inputs);
    }
  }

  lemma {:induction false} NoHashes(claim: Log, log: Log)
    requires claim.entries == []
    ensures IsPrefix(claim, log)
  {
  }

  /** Tamper evidence for one log.  Whatever is done to the files, a log that is
      accepted under the signer's key and log id records a prefix of one of
      the signer's own branches.  No reordering, edit, insertion or splice
      survives, within a branch or between branches. */
  lemma {:induction false} AcceptedIsOnABranch(claim: Log, log: Log, signed: set<(Bytes, Bytes)>, abandoned: set<Log>, inputs: set<Bytes>)
    requires Accepted(claim) && SameIdentity(claim, log) && |claim.entries| <= U64_LIMIT
    requires Accepted(log) && IndicesFit(log, abandoned)
    requires Authored(log, signed, abandoned) && NotForged(log.header.pubkey, signed)
    requires abandoned == {} || SeparatesHistories(log, abandoned, inputs)
    ensures OnABranch(claim, log, abandoned)
    decreases |claim.entries|
  {
    hide Accepted, SeparatesHistories, EventHashes, RootOfLog, EntryPayload, PayloadBytes, IsPrefix;
    if claim.entries == [] {
      NoHashes(claim, log);
      assert BranchOf(log, log, abandoned);
    } else {
      var n := |claim.entries| - 1;
      var past := Prefix(claim, n);
      AcceptedPrefix(claim, n);
      AcceptedIsOnABranch(past, log, signed, abandoned, inputs);
      var g :| BranchOf(g, log, abandoned) && IsPrefix(past, g);
      LastIsSigned(claim, log, signed);
      var f :| BranchOf(f, log, abandoned) && Records(f, LastPayload(claim));
      var j :| 0 <= j < |f.entries| && LastPayload(claim) == EntryPayload(f.header.logId, f.entries[j]);
      SameMessage(claim, f, j);
      PastAgrees(past, g, f, log, abandoned, inputs);
      OneMoreAgrees(claim, f, n);
    }
  }

  // ----- over whole runs and lives ------------------------------------------

  lemma {:induction false} ChainMemberAccepted(logs: seq<Log>, log: Log)
    requires ChainOk(logs) && log in logs
    ensures Accepted(log)
  {
    hide Accepted, Linked;
    var i :| 0 <= i < |logs| && logs[i] == log;
    assert i > 0 ==> LinkedAt(logs, i);
  }

  lemma {:induction false} ChainIsOwn(s: State, log: Log)
    requires log in s.archives + [s.live]
    ensures log in OwnLogs(s)
  {
    LiveIsOwn(s);
  }

  /** Tamper evidence over any number of lives.  Take any state the writer can
      reach, with flushes and rotations failing anywhere, crashes anywhere, and
      the keys signing anything else elsewhere, and any of its logs, archived
      or live.  Whatever verifies under that log's key and id records a prefix
      of that log or of a branch its signer left behind. */
  lemma {:induction false} EveryAcceptedLogIsOnABranch(s: State, lives: seq<Life>, t: State, log: Log, claim: Log, inputs: set<Bytes>)
    requires Init(s) && Tracked(s) && Lives(s, lives, t) && FreshLives(s, lives)
    requires log in t.archives + [t.live] && IndicesFit(log, t.abandoned)
    requires NotForged(log.header.pubkey, t.signed)
    requires t.abandoned == {} || SeparatesHistories(log, t.abandoned, inputs)
    requires Accepted(claim) && SameIdentity(claim, log) && |claim.entries| <= U64_LIMIT
    ensures OnABranch(claim, log, t.abandoned)
  {
    hide Init, Lives, FreshLives, Accepted, Authored, NotForged, SeparatesHistories, OnABranch, ChainOk, Accounted, OnDisk,
         DistinctIds, OwnLogs, IndicesFit;
    LivesKeepTrack(s, lives, t);
    ChainMemberAccepted(t.archives + [t.live], log);
    ChainIsOwn(t, log);
    AcceptedIsOnABranch(claim, log, t.signed, t.abandoned, inputs);
  }

  /** Everything that verifies is a prefix of the log. */
  ghost predicate OnlyPrefixesVerify(log: Log)
  {
    forall claim | Accepted(claim) && SameIdentity(claim, log) && |claim.entries| <= U64_LIMIT :: IsPrefix(claim, log)
  }

  lemma {:induction false} PrefixOfPrefix(a: Log, b: Log, c: Log)
    requires IsPrefix(a, b) && IsPrefix(b, c)
    ensures IsPrefix(a, c)
  {
  }

  lemma {:induction false} PrefixOfItself(a: Log)
    ensures IsPrefix(a, a)
  {
  }

  /** When the plain statement holds: everything that verifies under a log's key
      and id is a prefix of the log, if and only if the log has gone on to
      record every branch that was left behind. */
  lemma {:induction false} OnlyPrefixesIff(s: State, lives: seq<Life>, t: State, log: Log, inputs: set<Bytes>)
    requires Init(s) && Tracked(s) && Lives(s, lives, t) && FreshLives(s, lives)
    requires log in t.archives + [t.live] && IndicesFit(log, t.abandoned)
    requires NotForged(log.header.pubkey, t.signed)
    requires t.abandoned == {} || SeparatesHistories(log, t.abandoned, inputs)
    ensures OnlyPrefixesVerify(log) <==> forall f | BranchOf(f, log, t.abandoned) :: IsPrefix(f, log)
  {
    hide Init, Lives, FreshLives, Tracked, Accepted, NotForged, SeparatesHistories, IsPrefix;
    if OnlyPrefixesVerify(log) {
      forall f | BranchOf(f, log, t.abandoned) ensures IsPrefix(f, log) {
        PrefixOfItself(log);
        assert f != log ==> Accepted(f) && SameIdentity(f, log) && |f.entries| <= U64_LIMIT;
      }
    }
    if forall f | BranchOf(f, log, t.abandoned) :: IsPrefix(f, log) {
      forall claim | Accepted(claim) && SameIdentity(claim, log) && |claim.entries| <= U64_LIMIT
        ensures IsPrefix(claim, log)
      {
        EveryAcceptedLogIsOnABranch(s, lives, t, log, claim, inputs);
        var f :| BranchOf(f, log, t.abandoned) && IsPrefix(claim, f);
        PrefixOfPrefix(claim, f, log);
      }
    }
  }

  // ----- within one life: prefixes and seals --------------------------------

  /** f is the log as it stood after some number of entries, sealed. */
  ghost predicate SealOf(f: Log, log: Log)
  {
    && f.header == log.header && f.entries != [] && LastEvent(f).action == ROTATION_CLOSE
    && |f.entries| - 1 <= |log.entries|
    && f.entries[..|f.entries| - 1] == log.entries[..|f.entries| - 1]
  }

  ghost predicate SealIn(f: Log, logs: seq<Log>) { exists log :: log in logs && SealOf(f, log) }

  /** The only branches left behind are seals of rotations that failed. */
  ghost predicate OnlySeals(s: State)
  {
    forall f | f in s.abandoned :: SealIn(f, s.archives + [s.live])
  }

  lemma {:induction false} SealGrows(f: Log, archives: seq<Log>, live: Log, next: Log, more: seq<Log>)
    requires SealIn(f, archives + [live]) && next.header == live.header && live.entries <= next.entries
    ensures SealIn(f, archives + [next] + more)
  {
    var log :| log in archives + [live] && SealOf(f, log);
    if log in archives {
      assert log in archives + [next] + more;
    } else {
      assert next.entries[..|f.entries| - 1] == live.entries[..|f.entries| - 1];
      assert SealOf(f, next) && next in archives + [next] + more;
    }
  }

  lemma {:induction false} FlushLeavesSeals(s: State, o: FlushOutcome)
    requires OnlySeals(s) && |o.stamps| <= |s.pending|
    ensures OnlySeals(Flush(s, o))
  {
    hide SealIn, SignedBy, AppendAll, Range, FileBytes;
    var t := Flush(s, o);
    AppendAllExtends(s.live, s.pending, o.stamps);
    forall f | f in t.abandoned ensures SealIn(f, t.archives + [t.live]) {
      SealGrows(f, s.archives, s.live, AppendAll(s.live, s.pending, o.stamps), []);
      assert t.archives + [t.live] + [] == t.archives + [t.live];
      assert s.pending != [] ==> t.live == AppendAll(s.live, s.pending, o.stamps);
    }
  }

  lemma {:induction false} SealIsSeal(live: Log, p: Prepared)
    ensures SealOf(SealedBy(live, p), live) && SealedBy(live, p).header == live.header
    ensures live.entries <= SealedBy(live, p).entries
  {
    hide RootOfLog, EventHashes, IdHex;
    assert SealedBy(live, p).entries[..|live.entries|] == live.entries[..|live.entries|];
  }

  lemma {:induction false} RotationLeavesSeals(s: State, req: Request, o: RotationOutcome)
    requires OnlySeals(s)
    ensures OnlySeals(PerformRotation(s, req, o))
  {
    hide SealIn, PerformRotation, SealedBy, NextBy, RotationSigns;
    if o.Refused? {
      RefusedChangesNothing(s, req);
    } else {
      var t := PerformRotation(s, req, o);
      RotationFrame(s, req, o);
      RotationOwnLogs(s, req, o);
      SealIsSeal(s.live, o.p);
      forall f | f in t.abandoned ensures SealIn(f, t.archives + [t.live]) {
        if f in s.abandoned {
          if o.Committed? {
            SealGrows(f, s.archives, s.live, SealedBy(s.live, o.p), [t.live]);
          }
        } else {
          NewSeal(s.archives, s.live, f);
        }
      }
    }
  }

  lemma {:induction false} NewSeal(archives: seq<Log>, live: Log, f: Log)
    requires SealOf(f, live)
    ensures SealIn(f, archives + [live])
  {
    assert live in archives + [live];
  }

  lemma {:induction false} StepLeavesSeals(s: State, step: Step)
    requires OnlySeals(s) && Enabled(s, step)
    ensures OnlySeals(Next(s, step))
  {
    hide SealIn, HonestStamps, HonestOutcome, Flush, PerformRotation, CarriesId;
    match step
    case RunFlush(o) => FlushLeavesSeals(s, o);
    case RunRotation(o) => RotationLeavesSeals(s, s.pc.req, o);
    case _ =>
  }

  lemma {:induction false} RunLeavesSeals(s: State, steps: seq<Step>, t: State)
    requires OnlySeals(s) && Run(s, steps, t)
    ensures OnlySeals(t)
    decreases |steps|
  {
    hide OnlySeals, Enabled, Next;
    if steps != [] {
      StepLeavesSeals(s, steps[0]);
      RunLeavesSeals(Next(s, steps[0]), steps[1..], t);
    }
  }

  /** A branch among seals is the log itself or a seal of it. */
  lemma {:induction false} BranchIsSeal(t: State, log: Log, f: Log)
    requires OnlySeals(t) && DistinctIds(OwnLogs(t)) && log in t.archives + [t.live]
    requires BranchOf(f, log, t.abandoned) && f != log
    ensures SealOf(f, log)
  {
    hide Accepted;
    var chain := t.archives + [t.live];
    var owner :| owner in chain && SealOf(f, owner);
    var i :| 0 <= i < |chain| && chain[i] == owner;
    var j :| 0 <= j < |chain| && chain[j] == log;
    assert OwnLogs(t)[i] == owner && OwnLogs(t)[j] == log;
  }

  lemma {:induction false} PrefixOfSeal(claim: Log, f: Log, log: Log)
    requires SealOf(f, log) && IsPrefix(claim, f)
    ensures IsPrefix(claim, log) || EventHashes(claim.entries) == EventHashes(f.entries)
  {
    var n := |f.entries| - 1;
    forall i | 0 <= i < n ensures EventHashes(f.entries)[i] == EventHashes(log.entries)[i] {
      assert f.entries[i] == f.entries[..n][i] == log.entries[..n][i] == log.entries[i];
    }
  }

  /** Within one life, then: whatever verifies under a log's key and id records
      a prefix of the log, or exactly such a prefix and the closing sentinel
      of a rotation that was signed and abandoned. */
  lemma {:induction false} PrefixOrAbandonedSeal(s: State, steps: seq<Step>, t: State, log: Log, claim: Log, inputs: set<Bytes>)
    requires Init(s) && Tracked(s) && OnlySeals(s) && Run(s, steps, t) && FreshIds(s, steps)
    requires log in t.archives + [t.live] && IndicesFit(log, t.abandoned)
    requires NotForged(log.header.pubkey, t.signed)
    requires t.abandoned == {} || SeparatesHistories(log, t.abandoned, inputs)
    requires Accepted(claim) && SameIdentity(claim, log) && |claim.entries| <= U64_LIMIT
    ensures || IsPrefix(claim, log)
            || exists f :: f in t.abandoned && SealOf(f, log) && EventHashes(claim.entries) == EventHashes(f.entries)
  {
    hide Init, Run, FreshIds, Accepted, NotForged, SeparatesHistories, IsPrefix, SealOf, OnlySeals, Authored, DistinctIds,
         OwnLogs, Inv, IndicesFit;
    OneLife(s, steps, t);
    EveryAcceptedLogIsOnABranch(s, [Life(steps, t)], t, log, claim, inputs);
    var f :| BranchOf(f, log, t.abandoned) && IsPrefix(claim, f);
    if f != log {
      InitInv(s);
      RunKeepsTrack(s, steps, t);
      RunLeavesSeals(s, steps, t);
      BranchIsSeal(t, log, f);
      PrefixOfSeal(claim, f, log);
    }
  }

  lemma {:induction false} OneLife(s: State, steps: seq<Step>, t: State)
    requires Run(s, steps, t) && FreshIds(s, steps)
    ensures Lives(s, [Life(steps, t)], t) && FreshLives(s, [Life(steps, t)])
  {
    hide Run, FreshIds, OnDisk, Restarted;
  }

  /** The step leaves no seal behind. */
  predicate LeavesNoSeal(step: Step)
  {
    step.RunRotation? ==> step.rotation.Refused? || step.rotation.Committed?
  }

  lemma {:induction false} StepLeavesNoSeal(s: State, step: Step)
    requires s.abandoned == {} && Enabled(s, step) && LeavesNoSeal(step)
    ensures Next(s, step).abandoned == {}
  {
    hide HonestStamps, HonestOutcome, AppendAll, SealedBy, NextBy, RotatedDisk, RotationSigns, SignedBy, CarriesId, Range,
         FileBytes;
  }

  lemma {:induction false} NoSealsLeft(s: State, steps: seq<Step>, t: State)
    requires s.abandoned == {} && Run(s, steps, t) && forall i | 0 <= i < |steps| :: LeavesNoSeal(steps[i])
    ensures t.abandoned == {}
    decreases |steps|
  {
    hide Enabled, Next;
    if steps != [] {
      StepLeavesNoSeal(s, steps[0]);
      NoSealsLeft(Next(s, steps[0]), steps[1..], t);
    }
  }

  /** In particular, in a life in which no rotation fails after signing,
      everything that verifies is a prefix, with no assumption on the hash. */
  lemma {:induction false} OnlyPrefixesWithoutFailedRotations(s: State, steps: seq<Step>, t: State, log: Log, claim: Log)
    requires Init(s) && Tracked(s) && Run(s, steps, t) && FreshIds(s, steps)
    requires s.abandoned == {} && forall i | 0 <= i < |steps| :: LeavesNoSeal(steps[i])
    requires log in t.archives + [t.live] && |log.entries| <= U64_LIMIT
    requires NotForged(log.header.pubkey, t.signed)
    requires Accepted(claim) && SameIdentity(claim, log) && |claim.entries| <= U64_LIMIT
    ensures EventHashes(claim.entries) <= EventHashes(log.entries)
  {
    hide Init, Run, FreshIds, Tracked, Accepted, NotForged, SeparatesHistories, Lives, FreshLives;
    NoSealsLeft(s, steps, t);
    OneLife(s, steps, t);
    EveryAcceptedLogIsOnABranch(s, [Life(steps, t)], t, log, claim, {});
  }

  // ----- the failing inputs -------------------------------------------------

  lemma {:induction false} Diverge(a: Log, b: Log, n: nat)
    requires n < |a.entries| && n < |b.entries| && ContentHash(a.entries[n].event) != ContentHash(b.entries[n].event)
    ensures !IsPrefix(a, b) && !IsPrefix(b, a)
  {
    assert EventHashes(a.entries)[n] != EventHashes(b.entries)[n];
  }

  /** A rotation publishes its archive and the switch fails; the live log then
      records any other event.  The archive on disk and the live log are both
      accepted, with the same header, and neither records a prefix of the
      other. */
  lemma {:induction false} AbandonedRotationForks(s: State, req: Request, p: Prepared, event: Event, at: Time, sig: Bytes)
    returns (t: State, fork: Log, live: Log)
    requires CborIsSelfDelimiting() && Inv(s) && HonestPrepared(s.live, p) && req.archivePath !in s.disk
    requires Verifies(s.live.header.pubkey, NextPayload(s.live, event), sig)
    requires ContentHash(event) != ContentHash(CloseEvent(s.live, p.rotation))
    ensures t == PerformRotation(s, req, PublishedOnly(p)) && live == Appended(t.live, event, at, sig)
    ensures req.archivePath in t.disk && ParseFile(t.disk[req.archivePath]) == Ok(fork) && fork in t.abandoned
    ensures Accepted(fork) && Accepted(live) && fork.header == live.header
    ensures !IsPrefix(fork, live) && !IsPrefix(live, fork)
  {
    hide Accepted, ChainOk, Accounted, OnDisk, FileBytes, ParseFile, CborIsSelfDelimiting, NextPayload, RootOfLog, CloseEvent,
         OpenMessage, EventHashes, IsPrefix;
    t := PerformRotation(s, req, PublishedOnly(p));
    fork, live := SealedBy(s.live, p), Appended(s.live, event, at, sig);
    LiveAccepted(s.archives + [s.live]);
    AppendedAccepted(s.live, CloseEvent(s.live, p.rotation), p.rotation.times.closeAppended, p.closeSig);
    AppendedAccepted(s.live, event, at, sig);
    Diverge(fork, live, |s.live.entries|);
    AcceptedHasValidHeader(fork);
    ReadAfterSave(fork);
  }

  /** Entries are signed and not saved, the task dies, and its next life records
      another event in their place: the log that was lost and the new one are
      both accepted, with the same header, and neither records a prefix of
      the other. */
  lemma {:induction false} LostEntriesFork(s: State, event: Event, at: Time, sig: Bytes) returns (t: State, live: Log)
    requires Inv(s) && s.durable.AtPath? && s.durable.n < |s.live.entries|
    requires Verifies(s.live.header.pubkey, NextPayload(Prefix(s.live, s.durable.n), event), sig)
    requires ContentHash(event) != ContentHash(s.live.entries[s.durable.n].event)
    ensures t == Restarted(s) && live == Appended(t.live, event, at, sig) && s.live in t.abandoned
    ensures Accepted(s.live) && Accepted(live) && s.live.header == live.header
    ensures !IsPrefix(s.live, live) && !IsPrefix(live, s.live)
  {
    hide Accepted, ChainOk, Accounted, FileBytes, NextPayload, RootOfLog, EventHashes, IsPrefix, Recorded;
    t := Restarted(s);
    live := Appended(t.live, event, at, sig);
    LiveAccepted(s.archives + [s.live]);
    AcceptedPrefix(s.live, s.durable.n);
    AppendedAccepted(t.live, event, at, sig);
    Diverge(s.live, live, s.durable.n);
  }

  // ----- where tracking starts, and what it gives the chain -----------------

  /** The premises can be met: a fresh log, under an id nothing was signed
      under, starts a tracked life, whatever else its key has signed. */
  lemma {:induction false} FreshLogIsTracked(s: State)
    requires s.archives == [] && s.durable.AtPath? && Unused(s.live.header.logId, s.signed)
    ensures Tracked(s)
  {
    hide CarriesId, Records, BranchOf;
    assert OwnLogs(s) == [s.live];
    forall msg | (s.live.header.pubkey, msg) in s.signed ensures !CarriesId(msg, s.live.header.logId) {
      var m := (s.live.header.pubkey, msg);
      assert m in s.signed && m.1 == msg;
    }
  }

  /** Fresh ids make the ids of all lives distinct, so of the lists drawn from
      the task's logs chain verification accepts exactly the nonempty
      prefixes. */
  lemma {:induction false} LivesVerifyByPrefix(s: State, lives: seq<Life>, t: State, list: seq<Log>)
    requires Init(s) && Tracked(s) && Lives(s, lives, t) && FreshLives(s, lives)
    requires forall l | l in list :: l in t.archives + [t.live]
    ensures ChainOk(list) <==> (list != [] && list <= t.archives + [t.live])
  {
    hide Init, Lives, FreshLives, Authored, ChainOk, Accounted, OnDisk, DistinctIds;
    LivesKeepTrack(s, lives, t);
    SameIdsDistinct(OwnLogs(t), t.archives + [t.live]);
    AcceptedListsArePrefixes(t.archives + [t.live], list);
  }
}
