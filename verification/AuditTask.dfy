/** The two routines of the writer task that touch the live log and the disk,
    proved to take exactly the flush and rotation steps of the state machine. */
module AuditTask {
  import opened Bytes
  import opened Wrappers
  import opened Signing
  import opened Merkle
  import opened Payload
  import opened LogModel
  import opened LogFile
  import opened RotationChain
  import opened AuditLogs
  import opened AuditWriter

  /** Files by path.  Each operation is told how the file system behaves. */
  class Disk {
    var files: map<Path, Bytes>

    constructor (f: map<Path, Bytes>)
      ensures files == f
    {
      files := f;
    }

    /** Atomic replacement; the directory sync can fail after the rename. */
    method Save(log: AuditLog, path: Path, outcome: SaveOutcome) returns (ok: bool)
      requires log.Valid()
      modifies this
      ensures files == AuditWriter.SaveTo(old(files), path, log.Contents(), outcome)
      ensures ok <==> outcome.Installed?
    {
      hide FileBytes, Accepted;
      var bytes := log.SaveTo();
      if outcome.NotInstalled? {
        return false;
      }
      files := files[path := bytes];
      return outcome.Installed?;
    }

    /** Publish a staged file unless the path has appeared meanwhile. */
    method PublishNoClobber(bytes: Bytes, path: Path, staged: bool) returns (ok: bool)
      modifies this
      ensures ok <==> staged && path !in old(files)
      ensures files == if ok then old(files)[path := bytes] else old(files)
    {
      if !staged || path in files {
        return false;
      }
      files := files[path := bytes];
      return true;
    }
  }

  /** Clock readings, signing calls and the save outcome of one flush. */
  datatype FlushEnv = FlushEnv(at: nat -> Time, call: nat -> nat, save: SaveOutcome)

  lemma {:induction false} AppendAllSnoc(log: Log, events: seq<Event>, stamps: seq<Stamp>, st: Stamp)
    requires |stamps| < |events|
    ensures AppendAll(log, events, stamps + [st]) ==
            Appended(AppendAll(log, events, stamps), events[|stamps|], st.at, st.sig)
    ensures HonestStamps(log, events, stamps + [st]) <==>
            var end := AppendAll(log, events, stamps);
            HonestStamps(log, events, stamps) && Verifies(end.header.pubkey, NextPayload(end, events[|stamps|]), st.sig)
    decreases |stamps|
  {
    hide Appended, NextPayload, Verifies;
    if stamps != [] {
      assert (stamps + [st])[1..] == stamps[1..] + [st];
      AppendAllSnoc(Appended(log, events[0], stamps[0].at, stamps[0].sig), events[1..], stamps[1..], st);
    } else {
      assert (stamps + [st])[1..] == [];
    }
  }

  /** The routine did to the log and the disk what the state machine's flush
      does, in whatever state it was called. */
  ghost predicate TakesFlushStep(before: Log, files: map<Path, Bytes>, logPath: Path, pending: seq<Event>, o: FlushOutcome,
                                 after: Log, filesAfter: map<Path, Bytes>)
    requires |o.stamps| <= |pending|
  {
    forall s: State | s.live == before && s.disk == files && s.logPath == logPath && s.pending == pending ::
      AuditWriter.Flush(s, o).live == after && AuditWriter.Flush(s, o).disk == filesAfter
  }

  lemma {:induction false} FlushStepTaken(before: Log, files: map<Path, Bytes>, logPath: Path, pending: seq<Event>, o: FlushOutcome)
    requires |o.stamps| <= |pending|
    ensures var after := AppendAll(before, pending, o.stamps);
            TakesFlushStep(before, files, logPath, pending, o, after,
                           if pending == [] || |o.stamps| < |pending| then files
                           else AuditWriter.SaveTo(files, logPath, after, o.save))
  {
    hide SignedBy, Range, FileBytes;
  }

  /** The i-th append of a flush succeeded with the signer's own answer at the
      i-th clock reading. */
  ghost predicate StampedAt(log: Log, signer: Option<Signer>, event: Event, env: FlushEnv, i: nat, st: Stamp)
  {
    && st.at == env.at(i)
    && signer.Some? && signer.value.sign(env.call(i), NextPayload(log, event)) == Some(st.sig)
  }

  /** Every stamp of a flush is the answer to its own append. */
  ghost predicate StampedBy(start: Log, signer: Option<Signer>, pending: seq<Event>, env: FlushEnv, stamps: seq<Stamp>)
    requires |stamps| <= |pending|
  {
    forall i | 0 <= i < |stamps| ::
      StampedAt(AppendAll(start, pending, stamps[..i]), signer, pending[i], env, i, stamps[i])
  }

  lemma {:induction false} StampedBySnoc(start: Log, signer: Option<Signer>, pending: seq<Event>, env: FlushEnv, stamps: seq<Stamp>, st: Stamp)
    requires |stamps| < |pending| && StampedBy(start, signer, pending, env, stamps)
    requires StampedAt(AppendAll(start, pending, stamps), signer, pending[|stamps|], env, |stamps|, st)
    ensures StampedBy(start, signer, pending, env, stamps + [st])
  {
    hide AppendAll, StampedAt;
    var all := stamps + [st];
    forall i | 0 <= i < |all| ensures StampedAt(AppendAll(start, pending, all[..i]), signer, pending[i], env, i, all[i]) {
      assert all[..i] == stamps[..i];
      assert stamps[..|stamps|] == stamps;
    }
  }

  /** The i-th append fails: nobody to sign, or the signer does not answer. */
  ghost predicate FailsAt(log: Log, signer: Option<Signer>, event: Event, env: FlushEnv, i: nat)
  {
    signer.None? || signer.value.sign(env.call(i), NextPayload(log, event)).None?
  }

  ghost predicate NeverFails(signer: Option<Signer>)
  {
    signer.Some? && forall call, msg :: signer.value.sign(call, msg).Some?
  }

  lemma {:induction false} AppendedEvents(log: Log, event: Event, at: Time, sig: Bytes)
    ensures EventsOf(Appended(log, event, at, sig).entries) == EventsOf(log.entries) + [event]
  {
    hide EventsOf, RootOfLog, EventHashes;
    EventsOfSnoc(log.entries, Appended(log, event, at, sig).entries[|log.entries|]);
  }

  lemma {:induction false} AppendAllEvents(log: Log, events: seq<Event>, stamps: seq<Stamp>)
    requires |stamps| <= |events|
    ensures EventsOf(AppendAll(log, events, stamps).entries) == EventsOf(log.entries) + events[..|stamps|]
    decreases |stamps|
  {
    hide EventsOf, Appended;
    if stamps == [] {
      assert events[..0] == [];
    } else {
      AppendedEvents(log, events[0], stamps[0].at, stamps[0].sig);
      AppendAllEvents(Appended(log, events[0], stamps[0].at, stamps[0].sig), events[1..], stamps[1..]);
      assert events[..|stamps|] == [events[0]] + events[1..][..|stamps| - 1];
      Regroup(EventsOf(log.entries), [events[0]], events[1..][..|stamps| - 1]);
    }
  }

  /** Append the batch one by one, stop at the first failure, then save. */
  method Flush(log: AuditLog, disk: Disk, logPath: Path, pending: seq<Event>, env: FlushEnv)
    returns (ok: bool, ghost o: FlushOutcome)
    requires log.Valid()
    modifies log, disk
    ensures log.Valid() && log.signer == old(log.signer)
    ensures |o.stamps| <= |pending|
    ensures HonestStamps(old(log.Contents()), pending, o.stamps)
    ensures log.Contents() == AppendAll(old(log.Contents()), pending, o.stamps)
    ensures TakesFlushStep(old(log.Contents()), old(disk.files), logPath, pending, o, log.Contents(), disk.files)
    ensures o.save == env.save
    ensures StampedBy(old(log.Contents()), old(log.signer), pending, env, o.stamps)
    ensures |o.stamps| < |pending| ==>
              FailsAt(log.Contents(), old(log.signer), pending[|o.stamps|], env, |o.stamps|)
    ensures EventsOf(log.entries) == EventsOf(old(log.entries)) + pending[..|o.stamps|]
    ensures NeverFails(old(log.signer)) && env.save.Installed? && pending != [] ==>
              && ok && EventsOf(log.entries) == EventsOf(old(log.entries)) + pending
              && disk.files == old(disk.files)[logPath := FileBytes(log.Contents())]
    ensures ok <==> pending == [] || (|o.stamps| == |pending| && o.save.Installed?)
  {
    hide Appended, NextPayload, Accepted, AppendAll, FileBytes, HonestStamps, TakesFlushStep, EventsOf, EventHashes,
         StampedBy, Frontier, LeafHashes;
    ghost var start, files := log.Contents(), disk.files;
    o := FlushOutcome([], env.save);
    NoStamps(start, pending);
    NothingStamped(start, log.signer, pending, env);
    if pending == [] {
      FlushStepTaken(start, files, logPath, pending, o);
      AppendAllEvents(start, pending, o.stamps);
      return true, o;
    }
    for i := 0 to |pending|
      invariant log.Valid() && log.signer == old(log.signer) && disk.files == old(disk.files)
      invariant |o.stamps| == i && o.save == env.save
      invariant log.Contents() == AppendAll(start, pending, o.stamps)
      invariant HonestStamps(start, pending, o.stamps)
      invariant StampedBy(start, old(log.signer), pending, env, o.stamps)
    {
      ghost var before := log.Contents();
      var r := log.Append(pending[i], env.at(i), env.call(i));
      if r.Err? {
        FlushStepTaken(start, files, logPath, pending, o);
        AppendAllEvents(start, pending, o.stamps);
        return false, o;
      }
      ghost var st := Stamp(env.at(i), log.signer.value.sign(env.call(i), NextPayload(before, pending[i])).value);
      AppendAllSnoc(start, pending, o.stamps, st);
      StampedBySnoc(start, old(log.signer), pending, env, o.stamps, st);
      o := FlushOutcome(o.stamps + [st], env.save);
    }
    ok := disk.Save(log, logPath, env.save);
    FlushStepTaken(start, files, logPath, pending, o);
    AppendAllEvents(start, pending, o.stamps);
    assert pending[..|pending|] == pending;
  }

  lemma {:induction false} NothingStamped(start: Log, signer: Option<Signer>, pending: seq<Event>, env: FlushEnv)
    ensures StampedBy(start, signer, pending, env, [])
  {
  }

  lemma {:induction false} NoStamps(log: Log, events: seq<Event>)
    ensures AppendAll(log, events, []) == log && HonestStamps(log, events, [])
  {
  }

  /** What the outside world answers during one rotation: the signers the
      factory mints (if there is one), the random id, the clock, the signing
      calls, and which file operations succeed. */
  datatype RotationEnv = RotationEnv(
    newSigner: Option<Signer>, snapshotSigner: Option<Signer>, random: LogId, times: Times, calls: (nat, nat),
    staged: bool, dirSynced: bool, save: SaveOutcome)

  ghost predicate HonestEnv(env: RotationEnv)
  {
    && (env.newSigner.Some? ==> Honest(env.newSigner.value))
    && (env.snapshotSigner.Some? ==> Honest(env.snapshotSigner.value))
  }

  /** The rotation a request asks for. */
  function Asked(newLabel: string, env: RotationEnv): Rotation
    requires env.newSigner.Some?
  {
    Rotation(env.random, newLabel, env.newSigner.value.pk, env.times)
  }

  ghost function CloseAnswer(before: Log, newLabel: string, env: RotationEnv): Option<Bytes>
    requires env.newSigner.Some? && env.snapshotSigner.Some?
  {
    env.snapshotSigner.value.sign(env.calls.0, NextPayload(before, CloseEvent(before, Asked(newLabel, env))))
  }

  ghost function OpenAnswer(sealed: Log, newLabel: string, env: RotationEnv): Option<Bytes>
    requires env.newSigner.Some?
  {
    var r := Asked(newLabel, env);
    env.newSigner.value.sign(env.calls.1, NextPayload(EmptySuccessor(sealed, r), OpenEvent(sealed, r)))
  }

  /** The closing sentinel gets signed: the factory mints both signers, the
      second has the log's own key, the log verifies, and it answers. */
  ghost predicate ClosesFor(before: Log, newLabel: string, env: RotationEnv)
  {
    && env.newSigner.Some? && env.snapshotSigner.Some?
    && env.snapshotSigner.value.pk == before.header.pubkey && Accepted(before)
    && CloseAnswer(before, newLabel, env).Some?
  }

  /** Both sentinels get signed. */
  ghost predicate OpensFor(before: Log, newLabel: string, env: RotationEnv)
  {
    && ClosesFor(before, newLabel, env)
    && var sealed := SealedLog(before, Asked(newLabel, env), CloseAnswer(before, newLabel, env).value);
       OpenAnswer(sealed, newLabel, env).Some?
  }

  /** Which outcome the world's answers lead to: every one has its condition,
      and the prepared rotation is the one asked for. */
  ghost predicate OutcomeFits(o: RotationOutcome, free: bool, before: Log, newLabel: string, env: RotationEnv)
  {
    var closes, opens := ClosesFor(before, newLabel, env), OpensFor(before, newLabel, env);
    && (o.Refused? <==> !free || !closes)
    && (o.Unpublished? <==> free && closes && (!opens || !env.staged))
    && (o.Unpublished? ==> (o.openSigned <==> opens))
    && (o.PublishedOnly? <==> free && opens && env.staged && (!env.dirSynced || env.save.NotInstalled?))
    && (o.SwitchReportedFailed? <==> free && opens && env.staged && env.dirSynced && env.save.InstalledWithError?)
    && (o.Committed? <==> free && opens && env.staged && env.dirSynced && env.save.Installed?)
  }

  lemma {:induction false} OpensImpliesCloses(before: Log, newLabel: string, env: RotationEnv)
    ensures OpensFor(before, newLabel, env) ==> ClosesFor(before, newLabel, env)
    ensures ClosesFor(before, newLabel, env) ==> env.newSigner.Some?
  {
    hide ClosesFor, CloseAnswer, OpenAnswer, SealedLog;
    ClosesNeedsSigner(before, newLabel, env);
  }

  lemma {:induction false} ClosesNeedsSigner(before: Log, newLabel: string, env: RotationEnv)
    ensures ClosesFor(before, newLabel, env) ==> env.newSigner.Some?
  {
    hide CloseAnswer, Accepted;
  }

  /** Rotate on a snapshot and switch only once both segments are on disk.
      The rotation is a transaction: unless it reports success, the live log
      is the very object it was, with its entries and signer, and no file
      other than a fresh archive and (when the switch reached the disk) the
      log's own path has changed. */
  method PerformRotation(log: AuditLog, disk: Disk, logPath: Path, req: Request, env: RotationEnv)
    returns (live: AuditLog, ok: bool, ghost o: RotationOutcome)
    requires log.Valid() && HonestEnv(env) && CborIsSelfDelimiting()
    modifies disk
    ensures live.Valid() && (ok <==> o.Committed?)
    ensures !ok ==> live == log
    ensures live.Contents() == RotatedLive(log.Contents(), o)
    ensures disk.files == RotatedDisk(old(disk.files), logPath, req.archivePath, log.Contents(), o)
    ensures HonestOutcome(log.Contents(), o) && (!o.Refused? ==> req.archivePath !in old(disk.files))
    ensures !o.Refused? ==>
              env.newSigner.Some? && o.p.rotation == Rotation(env.random, req.newLabel, env.newSigner.value.pk, env.times)
    ensures OutcomeFits(o, req.archivePath !in old(disk.files), log.Contents(), req.newLabel, env)
    ensures ok ==> fresh(live) && live.signer == env.newSigner && |live.entries| == 1
                   && Linked(SealedBy(log.Contents(), o.p), live.Contents())
  {
    hide NextPayload, Accepted, FileBytes, CborIsSelfDelimiting, HonestPrepared, HonestClose, Linked, SealedBy, NextBy,
         EventHashes, Honest, HonestEnv, Frontier, LeafHashes, ClosesFor, OpensFor;
    live, ok, o := log, false, Refused;
    OpensImpliesCloses(log.Contents(), req.newLabel, env);
    if req.archivePath in disk.files || env.newSigner.None? {
      return;
    }
    ghost var before := log.Contents();
    var prepared, candidate, next, closed, p := Prepare(log, req.newLabel, env);
    if !prepared {
      o := if closed then Unpublished(p, false) else Refused;
      return;
    }
    var archive := candidate.SaveTo();
    var published := disk.PublishNoClobber(archive, req.archivePath, env.staged);
    if !published {
      o := Unpublished(p, true);
      return;
    }
    if !env.dirSynced {
      o := PublishedOnly(p);
      return;
    }
    var saved := disk.Save(next, logPath, env.save);
    if saved {
      live, ok, o := next, true, Committed(p);
    } else {
      o := if env.save.NotInstalled? then PublishedOnly(p) else SwitchReportedFailed(p);
    }
  }

  lemma {:induction false} SuccessorStartsWithOne(sealed: Log, rot: Rotation, sig: Bytes)
    ensures |SuccessorLog(sealed, rot, sig).entries| == 1
  {
  }

  /** The two segments are those of the prepared rotation p. */
  ghost predicate Prepares(before: Log, p: Prepared, sealed: Log, next: Log, newLabel: string)
  {
    && HonestPrepared(before, p) && p.rotation.newLabel == newLabel
    && sealed == SealedBy(before, p) && next == NextBy(before, p) && Linked(sealed, next)
  }

  /** A copy of the log, read back from its own bytes, with the factory's
      signer bound: possible exactly when there is one, it has the log's key,
      and the log verifies. */
  method Snapshot(log: AuditLog, env: RotationEnv) returns (ok: bool, candidate: AuditLog)
    requires log.Valid() && HonestEnv(env) && CborIsSelfDelimiting()
    ensures ok <==> env.snapshotSigner.Some? && env.snapshotSigner.value.pk == log.header.pubkey && Accepted(log.Contents())
    ensures ok ==> fresh(candidate) && candidate.Valid() && candidate.signer == env.snapshotSigner
                   && candidate.Contents() == log.Contents()
  {
    hide Accepted, FileBytes, CborIsSelfDelimiting, FirstFault, EventHashes, HeaderFault, Frontier, LeafHashes, ParseFile;
    ok, candidate := false, log;
    ghost var before := log.Contents();
    NoFaultIffAccepted(before);
    ReadAfterSave(before);
    if !ValidHeader(before.header) && Accepted(before) {
      AcceptedHasValidHeader(before);
    }
    var snapshot := log.SaveTo();
    var read := AuditLog.ReadFrom(snapshot);
    if read.Err? || env.snapshotSigner.None? {
      return;
    }
    candidate := read.value;
    var fault := candidate.BindSigner(env.snapshotSigner.value);
    ok := fault.None?;
  }

  /** Snapshot and rotate: everything that happens before the disk is touched.
      `closed` tells a failure after the closing sentinel was signed from one
      before. */
  method Prepare(log: AuditLog, newLabel: string, env: RotationEnv)
    returns (ok: bool, candidate: AuditLog, next: AuditLog, ghost closed: bool, ghost p: Prepared)
    requires log.Valid() && HonestEnv(env) && CborIsSelfDelimiting() && env.newSigner.Some?
    ensures closed ==> HonestClose(log.Contents(), p)
    ensures p.rotation == Rotation(env.random, newLabel, env.newSigner.value.pk, env.times)
    ensures closed <==> ClosesFor(log.Contents(), newLabel, env)
    ensures ok <==> OpensFor(log.Contents(), newLabel, env)
    ensures ok ==>
      && fresh(candidate) && candidate.Valid()
      && fresh(next) && next.Valid() && next.signer == env.newSigner && |next.entries| == 1
      && Prepares(log.Contents(), p, candidate.Contents(), next.Contents(), newLabel)
  {
    hide NextPayload, Accepted, CborIsSelfDelimiting, Linked, RootOfLog, EventHashes,
         Frontier, LeafHashes, SealedLog, SuccessorLog, EmptySuccessor, OpenEvent, CloseEvent, HexDecode, Verifies;
    next, closed := log, false;
    p := Prepared(Rotation(env.random, newLabel, env.newSigner.value.pk, env.times), [], []);
    ghost var before := log.Contents();
    ok, candidate := Snapshot(log, env);
    if !ok {
      return;
    }
    ghost var closeSig := CloseAnswer(before, newLabel, env);
    var rotated := candidate.RotateTo(env.newSigner.value, newLabel, "", env.random, env.times, env.calls);
    ok := rotated.Ok?;
    if closeSig.Some? {
      p := p.(closeSig := closeSig.value);
      closed := true;
      ghost var sealed := SealedLog(before, p.rotation, closeSig.value);
      ghost var openSig := OpenAnswer(sealed, newLabel, env);
      if openSig.Some? {
        p := p.(openSig := openSig.value);
        SuccessorStartsWithOne(sealed, p.rotation, openSig.value);
      }
    }
    if ok {
      next := rotated.value;
    }
  }
}
