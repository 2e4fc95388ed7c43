/** The audit writer task as a state machine: a bounded event queue fed by any
    number of emitters, a one-slot rotation queue, a pending batch, the live
    log and the disk.

    Every `try_recv`, flush and rotation is its own step, so emitters and
    rotation requests interleave with the writer at every point where the
    writer can be overtaken. */
module AuditWriter {
  import opened Bytes
  import opened Wrappers
  import opened Signing
  import opened Payload
  import opened LogModel
  import opened LogFile
  import opened RotationChain

  type Path = string

  datatype Request = Request(archivePath: Path, newLabel: string)

  /** Where the writer task stands. */
  datatype Pc =
    | Select
    | RotDrain(req: Request)
    | RotFlush(req: Request)
    | RotPerform(req: Request)
    | TimerFlush
    | Fill
    | FlushIfFull
    | FinalFlush
    | Done

  /** What the file at the log path holds: the live log as it was after n
      entries, or the successor of a rotation that reached the disk and was
      then reported as failed. */
  datatype Durable =
    | AtPath(n: nat)
    | Switched(archive: Path, sealed: Log, next: Log)

  /** The last two lines are history: `signed` holds every message signed so
      far with its key, here or elsewhere; `abandoned` every sealed log a
      rotation signed and then did not commit. */
  datatype State = State(
    capacity: nat, batchSize: nat, logPath: Path,
    queue: seq<Event>, closed: bool, rotQueue: Option<Request>,
    pc: Pc, pending: seq<Event>, live: Log, disk: map<Path, Bytes>,
    base: seq<Event>, accepted: seq<Event>, lost: set<nat>, archives: seq<Log>, archivePaths: seq<Path>,
    durable: Durable, signed: set<(Bytes, Bytes)>, abandoned: set<Log>)

  // ----- flush --------------------------------------------------------------

  /** One successful append: when, and under which signature. */
  datatype Stamp = Stamp(at: Time, sig: Bytes)

  datatype SaveOutcome = NotInstalled | InstalledWithError | Installed

  /** How a flush ends: `stamps` are the appends that succeeded; if they do not
      cover the batch the next append failed and nothing was saved. */
  datatype FlushOutcome = FlushOutcome(stamps: seq<Stamp>, save: SaveOutcome)

  function AppendAll(log: Log, events: seq<Event>, stamps: seq<Stamp>): Log
    requires |stamps| <= |events|
    decreases |stamps|
  {
    if stamps == [] then log
    else AppendAll(Appended(log, events[0], stamps[0].at, stamps[0].sig), events[1..], stamps[1..])
  }

  ghost predicate HonestStamps(log: Log, events: seq<Event>, stamps: seq<Stamp>)
    requires |stamps| <= |events|
    decreases |stamps|
  {
    stamps == [] ||
    (&& Verifies(log.header.pubkey, NextPayload(log, events[0]), stamps[0].sig)
     && HonestStamps(Appended(log, events[0], stamps[0].at, stamps[0].sig), events[1..], stamps[1..]))
  }

  /** What appending a batch signs. */
  ghost function SignedBy(log: Log, events: seq<Event>, stamps: seq<Stamp>): set<(Bytes, Bytes)>
    requires |stamps| <= |events|
    decreases |stamps|
  {
    if stamps == [] then {}
    else {(log.header.pubkey, NextPayload(log, events[0]))} +
         SignedBy(Appended(log, events[0], stamps[0].at, stamps[0].sig), events[1..], stamps[1..])
  }

  function SaveTo(disk: map<Path, Bytes>, path: Path, log: Log, save: SaveOutcome): map<Path, Bytes>
  {
    if save.NotInstalled? then disk else disk[path := FileBytes(log)]
  }

  /** The number of accepted events the writer has taken out of its batch. */
  function Settled(s: State): int { |s.accepted| - |s.pending| - |s.queue| }

  function Range(lo: int, hi: int): (r: set<nat>)
    ensures forall i: nat :: i in r <==> lo <= i < hi
    decreases hi - lo
  {
    if lo >= hi || hi <= 0 then {} else Range(lo, hi - 1) + {hi - 1}
  }

  /** Flush the pending batch.  An append that fails drops the rest of the
      batch; an empty batch is not even saved. */
  ghost function Flush(s: State, o: FlushOutcome): State
    requires |o.stamps| <= |s.pending|
  {
    if s.pending == [] then s
    else
      var log := AppendAll(s.live, s.pending, o.stamps);
      var t := s.(pending := [], live := log, signed := s.signed + SignedBy(s.live, s.pending, o.stamps));
      if |o.stamps| < |s.pending| then
        t.(lost := s.lost + Range(Settled(s) + |o.stamps|, Settled(s) + |s.pending|))
      else
        t.(disk := SaveTo(s.disk, s.logPath, log, o.save),
           durable := if o.save.NotInstalled? then s.durable else AtPath(|log.entries|))
  }

  // ----- rotation -----------------------------------------------------------

  /** A prepared rotation: its parameters and the two sentinel signatures. */
  datatype Prepared = Prepared(rotation: Rotation, closeSig: Bytes, openSig: Bytes)

  /** How far a rotation got.  It can be refused before anything is signed;
      the closing sentinel can be signed on the snapshot and the rotation fail
      before the archive is published, with or without the opening sentinel
      signed (`p.openSig` counts only if `openSigned`); publishing can succeed and
      the switch fail; the switch can be on disk and still be reported as
      failed. */
  datatype RotationOutcome =
    | Refused
    | Unpublished(p: Prepared, openSigned: bool)
    | PublishedOnly(p: Prepared)
    | SwitchReportedFailed(p: Prepared)
    | Committed(p: Prepared)

  function SealedBy(live: Log, p: Prepared): Log { SealedLog(live, p.rotation, p.closeSig) }

  function NextBy(live: Log, p: Prepared): Log { SuccessorLog(SealedBy(live, p), p.rotation, p.openSig) }

  /** The message under the closing sentinel, and the one under the opening. */
  function CloseMessage(live: Log, r: Rotation): (Bytes, Bytes)
  {
    (live.header.pubkey, NextPayload(live, CloseEvent(live, r)))
  }

  function OpenMessage(sealed: Log, r: Rotation): (Bytes, Bytes)
  {
    (r.newKey, NextPayload(EmptySuccessor(sealed, r), OpenEvent(sealed, r)))
  }

  ghost predicate HonestClose(live: Log, p: Prepared)
  {
    var (pk, msg) := CloseMessage(live, p.rotation);
    |p.rotation.newKey| == PUBLIC_KEY_LEN && Verifies(pk, msg, p.closeSig)
  }

  ghost predicate HonestPrepared(live: Log, p: Prepared)
  {
    && HonestClose(live, p)
    && var (pk, msg) := OpenMessage(SealedBy(live, p), p.rotation);
       Verifies(pk, msg, p.openSig)
  }

  ghost predicate HonestOutcome(live: Log, o: RotationOutcome)
  {
    match o
    case Refused => true
    case Unpublished(p, openSigned) => if openSigned then HonestPrepared(live, p) else HonestClose(live, p)
    case _ => HonestPrepared(live, o.p)
  }

  /** What a rotation signs, and what it leaves sealed and uncommitted. */
  ghost function RotationSigns(live: Log, o: RotationOutcome): set<(Bytes, Bytes)>
  {
    if o.Refused? then {}
    else {CloseMessage(live, o.p.rotation)} +
         if o.Unpublished? && !o.openSigned then {} else {OpenMessage(SealedBy(live, o.p), o.p.rotation)}
  }

  ghost function RotationAbandons(live: Log, o: RotationOutcome): set<Log>
  {
    if o.Refused? || o.Committed? then {} else {SealedBy(live, o.p)}
  }

  /** The archive is published without clobbering, before the switch. */
  function RotatedDisk(disk: map<Path, Bytes>, logPath: Path, archive: Path, live: Log, o: RotationOutcome): map<Path, Bytes>
  {
    match o
    case Refused => disk
    case Unpublished(_, _) => disk
    case PublishedOnly(p) => disk[archive := FileBytes(SealedBy(live, p))]
    case SwitchReportedFailed(p) => disk[archive := FileBytes(SealedBy(live, p))][logPath := FileBytes(NextBy(live, p))]
    case Committed(p) => disk[archive := FileBytes(SealedBy(live, p))][logPath := FileBytes(NextBy(live, p))]
  }

  function RotatedLive(live: Log, o: RotationOutcome): Log
  {
    if o.Committed? then NextBy(live, o.p) else live
  }

  ghost function PerformRotation(s: State, req: Request, o: RotationOutcome): State
  {
    var t := s.(disk := RotatedDisk(s.disk, s.logPath, req.archivePath, s.live, o), live := RotatedLive(s.live, o),
                signed := s.signed + RotationSigns(s.live, o), abandoned := s.abandoned + RotationAbandons(s.live, o));
    match o
    case SwitchReportedFailed(p) => t.(durable := Switched(req.archivePath, SealedBy(s.live, p), NextBy(s.live, p)))
    case Committed(p) =>
      t.(archives := s.archives + [SealedBy(s.live, p)], archivePaths := s.archivePaths + [req.archivePath],
         durable := AtPath(1))
    case _ => t
  }

  // ----- steps --------------------------------------------------------------

  datatype Step =
    | Emit(event: Event)
    | CloseSenders
    | RequestRotation(req: Request)
    | TakeRotation
    | TakeEvent
    | TakeTimer
    | TakeClosed
    | DrainOne
    | DrainDone
    | FillOne
    | FillDone
    | RunFlush(flush: FlushOutcome)
    | RunRotation(rotation: RotationOutcome)
    | SignElsewhere(key: Bytes, msg: Bytes)

  /** The message is an audit payload under the given log id. */
  ghost predicate CarriesId(msg: Bytes, id: LogId)
  {
    exists i: nat, p, e, n :: msg == PayloadBytes(id, i, p, e, n)
  }

  /** The logs that are this task's own: its archives, its live log, and the
      successor of a rotation that reached the disk and was reported failed. */
  function OwnLogs(s: State): seq<Log>
  {
    s.archives + [s.live] + if s.durable.Switched? then [s.durable.next] else []
  }

  /** Is the step possible?  The biased select is modelled as a free choice
      among the ready arms, which includes every order the source can take.
      The keys may sign anything elsewhere (other logs, handshakes) except
      entries of this task's own logs. */
  ghost predicate Enabled(s: State, step: Step)
  {
    match step
    case Emit(_) => !s.closed
    case CloseSenders => true
    case RequestRotation(_) => true
    case TakeRotation => s.pc.Select? && s.rotQueue.Some?
    case TakeEvent => s.pc.Select? && s.queue != []
    case TakeTimer => s.pc.Select? && s.pending != []
    case TakeClosed => s.pc.Select? && s.closed && s.queue == []
    case DrainOne => s.pc.RotDrain? && s.queue != []
    case DrainDone => s.pc.RotDrain? && s.queue == []
    case FillOne => s.pc.Fill? && |s.pending| < s.batchSize && s.queue != []
    case FillDone => s.pc.Fill? && (|s.pending| >= s.batchSize || s.queue == [])
    case RunFlush(o) =>
      && (s.pc.RotFlush? || s.pc.TimerFlush? || s.pc.FlushIfFull? || s.pc.FinalFlush?)
      && |o.stamps| <= |s.pending| && HonestStamps(s.live, s.pending, o.stamps)
    case RunRotation(o) =>
      && s.pc.RotPerform?
      && HonestOutcome(s.live, o)
      && (!o.Refused? ==> s.pc.req.archivePath !in s.disk)
    case SignElsewhere(_, msg) => forall log | log in OwnLogs(s) :: !CarriesId(msg, log.header.logId)
  }

  function Receive(s: State): State
    requires s.queue != []
  {
    s.(queue := s.queue[1..], pending := s.pending + [s.queue[0]])
  }

  ghost function AfterFlush(s: State): Pc
  {
    match s.pc
    case RotFlush(req) => RotPerform(req)
    case TimerFlush => Fill
    case FinalFlush => Done
    case _ => Select
  }

  ghost function Next(s: State, step: Step): State
    requires Enabled(s, step)
  {
    match step
    case Emit(e) =>
      if s.pc.Done? || |s.queue| >= s.capacity then s
      else s.(queue := s.queue + [e], accepted := s.accepted + [e])
    case CloseSenders => s.(closed := true)
    case RequestRotation(req) => if s.rotQueue.Some? then s else s.(rotQueue := Some(req))
    case TakeRotation => s.(rotQueue := None, pc := RotDrain(s.rotQueue.value))
    case TakeEvent => Receive(s).(pc := Fill)
    case TakeTimer => s.(pc := TimerFlush)
    case TakeClosed => s.(pc := FinalFlush)
    case DrainOne => Receive(s)
    case DrainDone => s.(pc := RotFlush(s.pc.req))
    case FillOne => Receive(s)
    case FillDone => s.(pc := FlushIfFull)
    case RunFlush(o) =>
      // the batch-size test guards only the flush at the end of an iteration
      (if s.pc.FlushIfFull? && |s.pending| < s.batchSize then s else Flush(s, o)).(pc := AfterFlush(s))
    case RunRotation(o) => PerformRotation(s, s.pc.req, o).(pc := Select)
    case SignElsewhere(key, msg) => s.(signed := s.signed + {(key, msg)})
  }

  ghost predicate Run(s: State, steps: seq<Step>, t: State)
    decreases |steps|
  {
    if steps == [] then s == t else Enabled(s, steps[0]) && Run(Next(s, steps[0]), steps[1..], t)
  }

  // ----- what the logs record -----------------------------------------------

  function EventsOf(entries: seq<LogEntry>): (e: seq<Event>)
    ensures |e| == |entries|
    ensures forall i | 0 <= i < |entries| :: e[i] == entries[i].event
  {
    if entries == [] then [] else [entries[0].event] + EventsOf(entries[1..])
  }

  /** The events of one segment without its rotation sentinels: a continued
      log drops its first entry, a sealed one its last. */
  function Body(log: Log, sealed: bool): seq<Event>
  {
    var lo := if log.header.prevLogId.Some? then 1 else 0;
    var hi := |log.entries| - if sealed then 1 else 0;
    if lo <= hi then EventsOf(log.entries)[lo..hi] else []
  }

  function SealedEvents(archives: seq<Log>): seq<Event>
    decreases |archives|
  {
    if archives == [] then []
    else SealedEvents(archives[..|archives| - 1]) + Body(archives[|archives| - 1], true)
  }

  /** Everything a chain of segments records, oldest first. */
  function Recorded(logs: seq<Log>): seq<Event>
    requires logs != []
  {
    SealedEvents(logs[..|logs| - 1]) + Body(logs[|logs| - 1], false)
  }

  /** The members of s whose positions are not in `lost`, in order. */
  ghost function Survivors(s: seq<Event>, lost: set<nat>): seq<Event>
    decreases |s|
  {
    if s == [] then []
    else Survivors(s[..|s| - 1], lost) + if |s| - 1 in lost then [] else [s[|s| - 1]]
  }

  // ----- the invariant ------------------------------------------------------

  /** The file at the path, which is not the log's own, is that log. */
  ghost predicate FileIs(s: State, path: Path, log: Log)
  {
    path != s.logPath && path in s.disk && s.disk[path] == FileBytes(log)
  }

  ghost predicate ArchivesOnDisk(s: State)
  {
    && |s.archivePaths| == |s.archives|
    && forall i | 0 <= i < |s.archives| :: FileIs(s, s.archivePaths[i], s.archives[i])
  }

  ghost predicate LiveOnDisk(s: State)
  {
    && s.logPath in s.disk
    && match s.durable
       case AtPath(n) =>
         && n <= |s.live.entries| && (s.live.header.prevLogId.Some? ==> n >= 1)
         && s.disk[s.logPath] == FileBytes(Prefix(s.live, n))
       case Switched(archive, sealed, next) =>
         && FileIs(s, archive, sealed) && sealed.header == s.live.header
         && s.disk[s.logPath] == FileBytes(next)
         && ChainOk(s.archives + [sealed, next])
         && Body(sealed, true) <= Body(s.live, false) && Body(next, false) == []
  }

  /** The disk holds every committed archive, and the live log as `durable`
      says. */
  ghost predicate OnDisk(s: State) { ArchivesOnDisk(s) && LiveOnDisk(s) }

  /** The disk is not behind the live log. */
  ghost predicate UpToDate(s: State)
  {
    match s.durable
    case AtPath(n) => n == |s.live.entries|
    case Switched(_, sealed, _) => Body(sealed, true) == Body(s.live, false)
  }

  /** Every accepted event is recorded, lost, pending or queued, in order. */
  ghost predicate Accounted(s: State)
  {
    && 0 <= Settled(s)
    && s.accepted[Settled(s)..] == s.pending + s.queue
    && (forall i | i in s.lost :: i < Settled(s))
    && Recorded(s.archives + [s.live]) == s.base + Survivors(s.accepted[..Settled(s)], s.lost)
  }

  ghost predicate Inv(s: State)
  {
    && |s.queue| <= s.capacity
    && ChainOk(s.archives + [s.live])
    && Accounted(s)
    && OnDisk(s)
    && (s.pc.FinalFlush? || s.pc.Done? ==> s.closed && s.queue == [])
    && (s.pc.Done? ==> s.pending == [])
  }

  /** The writer starts on a log that is on disk at its path and continues the
      archives already there. */
  ghost predicate Init(s: State)
  {
    && s.queue == [] && s.pending == [] && s.accepted == [] && s.lost == {}
    && !s.closed && s.rotQueue.None? && s.pc.Select?
    && ChainOk(s.archives + [s.live])
    && s.base == Recorded(s.archives + [s.live])
    && s.durable == AtPath(|s.live.entries|) && OnDisk(s)
  }

  lemma {:induction false} InitInv(s: State)
    requires Init(s)
    ensures Inv(s)
  {
    hide ChainOk, Recorded, FileBytes, Body;
    assert s.accepted[0..] == [] && s.accepted[..0] == [];
    assert s.base + [] == s.base;
  }

  // ----- recorded events ----------------------------------------------------

  lemma {:induction false} RecordedSnoc(archives: seq<Log>, live: Log)
    ensures Recorded(archives + [live]) == SealedEvents(archives) + Body(live, false)
  {
    assert (archives + [live])[..|archives|] == archives;
  }

  /** In a chain, a continued log has its opening sentinel. */
  lemma {:induction false} ContinuedHasOpening(archives: seq<Log>, live: Log)
    requires ChainOk(archives + [live])
    ensures live.header.prevLogId.Some? ==> live.entries != []
  {
    hide Accepted, RootOfLog, IdHex;
    var all := archives + [live];
    if archives != [] {
      assert LinkedAt(all, |archives|);
    } else {
      assert all[0] == live;
    }
  }

  lemma {:induction false} EventsOfSnoc(entries: seq<LogEntry>, e: LogEntry)
    ensures EventsOf(entries + [e]) == EventsOf(entries) + [e.event]
  {
  }

  lemma {:induction false} BodyOfAppended(log: Log, event: Event, at: Time, sig: Bytes)
    requires log.header.prevLogId.Some? ==> log.entries != []
    ensures Body(Appended(log, event, at, sig), false) == Body(log, false) + [event]
    ensures Body(Appended(log, event, at, sig), true) == Body(log, false)
  {
    hide EventsOf, RootOfLog, EventHashes;
    var next := Appended(log, event, at, sig);
    EventsOfSnoc(log.entries, next.entries[|log.entries|]);
    var events := EventsOf(log.entries);
    var lo := if log.header.prevLogId.Some? then 1 else 0;
    assert (events + [event])[lo..|events|] == events[lo..|events|];
    assert (events + [event])[lo..|events| + 1] == events[lo..|events|] + [event];
  }

  lemma {:induction false} BodyOfSuccessor(sealed: Log, r: Rotation, sig: Bytes)
    ensures Body(SuccessorLog(sealed, r, sig), false) == []
  {
  }

  /** A rotation moves the live body into a sealed one and starts empty. */
  lemma {:induction false} RotationRecords(archives: seq<Log>, live: Log, p: Prepared)
    requires live.header.prevLogId.Some? ==> live.entries != []
    ensures Body(SealedBy(live, p), true) == Body(live, false)
    ensures Body(NextBy(live, p), false) == []
    ensures Recorded(archives + [SealedBy(live, p)] + [NextBy(live, p)]) == Recorded(archives + [live])
  {
    hide Body, NextBy;
    var sealed := SealedBy(live, p);
    BodyOfAppended(live, CloseEvent(live, p.rotation), p.rotation.times.closeAppended, p.closeSig);
    NextBodyEmpty(live, p);
    RecordedSnoc(archives, live);
    RecordedSnoc(archives + [sealed], NextBy(live, p));
    assert (archives + [sealed])[..|archives|] == archives;
  }

  lemma {:induction false} NextBodyEmpty(live: Log, p: Prepared)
    ensures Body(NextBy(live, p), false) == []
  {
    hide Body;
    BodyOfSuccessor(SealedBy(live, p), p.rotation, p.openSig);
  }

  /** A prepared rotation of the live end of a chain gives a longer chain. */
  lemma {:induction false} RotationExtendsChain(archives: seq<Log>, live: Log, p: Prepared)
    requires ChainOk(archives + [live]) && HonestPrepared(live, p)
    ensures ChainOk(archives + [SealedBy(live, p), NextBy(live, p)])
  {
    hide ChainOk, NextPayload, CloseEvent, OpenEvent, SealedLog, SuccessorLog;
    var chain := archives + [live];
    var op := Rotate(p.rotation, Some(p.closeSig), Some(p.openSig));
    assert chain[|archives|] == live && chain[..|archives|] == archives;
    assert HonestOp(chain, op);
    ApplyKeepsChain(chain, op);
  }

  /** What `Recorded` leaves out of a chain is rotation sentinels and nothing
      else: each segment is its opening sentinel, if it continues another, its
      body, and its closing sentinel, if it is not the last. */
  lemma {:induction false} OnlySentinelsDropped(logs: seq<Log>, i: nat) returns (opening: seq<Event>, closing: seq<Event>)
    requires ChainOk(logs) && i < |logs|
    ensures EventsOf(logs[i].entries) == opening + Body(logs[i], i + 1 < |logs|) + closing
    ensures |opening| == (if i == 0 then 0 else 1) && forall e | e in opening :: e.action == "audit.rotation_open"
    ensures |closing| == (if i + 1 == |logs| then 0 else 1) && forall e | e in closing :: e.action == "audit.rotation_close"
  {
    hide ChainOk, EventsOf, Body;
    ChainHeaders(logs, i);
    var log, sealed := logs[i], i + 1 < |logs|;
    var events := EventsOf(log.entries);
    if i > 0 && sealed {
      ActionsDiffer(events[0], events[|events| - 1]);
    }
    var lo := if i == 0 then 0 else 1;
    var hi := if sealed then |events| - 1 else |events|;
    BodyIs(log, sealed, lo, hi);
    opening, closing := events[..lo], events[hi..];
    Rejoin3(events, lo, hi);
  }

  lemma {:induction false} ActionsDiffer(a: Event, b: Event)
    requires a.action == "audit.rotation_open" && b.action == "audit.rotation_close"
    ensures a != b
  {
    assert |a.action| != |b.action|;
  }

  lemma {:induction false} BodyIs(log: Log, sealed: bool, lo: nat, hi: nat)
    requires lo == (if log.header.prevLogId.Some? then 1 else 0) && hi == |log.entries| - (if sealed then 1 else 0)
    requires lo <= hi
    ensures Body(log, sealed) == EventsOf(log.entries)[lo..hi]
  {
    hide EventsOf;
  }

  lemma {:induction false} Rejoin3(s: seq<Event>, lo: nat, hi: nat)
    requires lo <= hi <= |s|
    ensures s == s[..lo] + s[lo..hi] + s[hi..]
  {
  }

  // ----- flush keeps everything ---------------------------------------------

  /** Appending a batch keeps the chain, extends the body by exactly the
      appended events, and leaves the header alone. */
  lemma {:induction false} AppendAllRecords(archives: seq<Log>, live: Log, events: seq<Event>, stamps: seq<Stamp>)
    requires |stamps| <= |events|
    requires ChainOk(archives + [live]) && HonestStamps(live, events, stamps)
    ensures ChainOk(archives + [AppendAll(live, events, stamps)])
    ensures Body(AppendAll(live, events, stamps), false) == Body(live, false) + events[..|stamps|]
    decreases |stamps|
  {
    hide ChainOk, NextPayload, Body, Appended;
    if stamps != [] {
      var one := Appended(live, events[0], stamps[0].at, stamps[0].sig);
      ContinuedHasOpening(archives, live);
      var chain := archives + [live];
      assert chain[|archives|] == live && chain[..|archives|] == archives;
      var op := Extend(events[0], stamps[0].at, Some(stamps[0].sig));
      assert HonestOp(chain, op);
      ApplyKeepsChain(chain, op);
      BodyOfAppended(live, events[0], stamps[0].at, stamps[0].sig);
      AppendAllRecords(archives, one, events[1..], stamps[1..]);
      assert events[..|stamps|] == [events[0]] + events[1..][..|stamps| - 1];
    } else {
      assert events[..0] == [];
    }
  }

  lemma {:induction false} SurvivorsAll(s: seq<Event>, lost: set<nat>, k: nat)
    requires k <= |s| && forall i | i in lost :: i < k
    ensures Survivors(s, lost) == Survivors(s[..k], lost) + s[k..]
    decreases |s|
  {
    if k == |s| {
      assert s[..k] == s && s[k..] == [];
    } else {
      var n := |s| - 1;
      SurvivorsAll(s[..n], lost, k);
      assert s[..n][..k] == s[..k];
      assert s[k..] == s[..n][k..] + [s[n]];
    }
  }

  /** Dropping a run at the end leaves what was kept before it. */
  lemma {:induction false} SurvivorsDrop(s: seq<Event>, lost: set<nat>, k: nat, hi: int)
    requires k <= |s| <= hi && forall i | i in lost :: i < k
    ensures Survivors(s, lost + Range(k, hi)) == Survivors(s[..k], lost)
    decreases |s|
  {
    if k == |s| {
      assert s[..k] == s;
      SurvivorsAgree(s, lost, lost + Range(k, hi));
    } else {
      var n := |s| - 1;
      SurvivorsDrop(s[..n], lost, k, hi);
      assert s[..n][..k] == s[..k];
      assert n in lost + Range(k, hi);
    }
  }

  lemma {:induction false} SurvivorsAgree(s: seq<Event>, a: set<nat>, b: set<nat>)
    requires forall i: nat | i < |s| :: i in a <==> i in b
    ensures Survivors(s, a) == Survivors(s, b)
    decreases |s|
  {
    if s != [] {
      SurvivorsAgree(s[..|s| - 1], a, b);
    }
  }

  /** What a flush does to the accounts: the first n of the batch are recorded
      and the rest are lost. */
  lemma {:induction false} FlushAccounts(acc: seq<Event>, lost: set<nat>, k: nat, batch: seq<Event>, n: nat)
    requires n <= |batch| && k + |batch| <= |acc| && acc[k..k + |batch|] == batch
    requires forall i | i in lost :: i < k
    ensures Survivors(acc[..k + |batch|], lost + Range(k + n, k + |batch|)) ==
            Survivors(acc[..k], lost) + batch[..n]
  {
    hide Survivors;
    var s := acc[..k + |batch|];
    SurvivorsDrop(s, lost, k + n, k + |batch|);
    SurvivorsAll(s[..k + n], lost, k);
    assert s[..k + n][..k] == acc[..k];
    assert s[..k + n][k..] == batch[..n];
  }

  lemma {:induction false} Regroup(a: seq<Event>, b: seq<Event>, c: seq<Event>)
    ensures a + (b + c) == a + b + c
  {
  }

  lemma {:induction false} FlushKeepsAccounts(s: State, o: FlushOutcome)
    requires Inv(s) && |o.stamps| <= |s.pending| && HonestStamps(s.live, s.pending, o.stamps)
    ensures Accounted(Flush(s, o)) && ChainOk(s.archives + [Flush(s, o).live])
  {
    hide ChainOk, Recorded, Body, HonestStamps, AppendAll, Survivors, Range, OnDisk, Flush;
    FlushFrame(s, o);
    AppendAllRecords(s.archives, s.live, s.pending, o.stamps);
    var t := Flush(s, o);
    var n, k := |o.stamps|, Settled(s);
    assert 0 <= k && s.accepted[k..] == s.pending + s.queue;
    RecordedSnoc(s.archives, s.live);
    RecordedSnoc(s.archives, t.live);
    assert s.accepted[k..k + |s.pending|] == s.pending by {
      assert s.accepted[k..][..|s.pending|] == s.pending;
    }
    FlushAccounts(s.accepted, s.lost, k, s.pending, n);
    RangeFacts(s, n, t);
    assert Settled(t) == k + |s.pending|;
    assert t.accepted[Settled(t)..] == s.accepted[k..][|s.pending|..] == s.queue;
    assert t.pending + t.queue == s.queue;
    Regroup(SealedEvents(s.archives), Body(s.live, false), s.pending[..n]);
    Regroup(s.base, Survivors(s.accepted[..k], s.lost), s.pending[..n]);
  }

  lemma {:induction false} AppendAllExtends(log: Log, events: seq<Event>, stamps: seq<Stamp>)
    requires |stamps| <= |events|
    ensures AppendAll(log, events, stamps).header == log.header
    ensures log.entries <= AppendAll(log, events, stamps).entries
    decreases |stamps|
  {
    hide RootOfLog, EventHashes;
    if stamps != [] {
      var one := Appended(log, events[0], stamps[0].at, stamps[0].sig);
      AppendAllExtends(one, events[1..], stamps[1..]);
      assert log.entries <= one.entries;
    }
  }

  lemma {:induction false} WholePrefix(log: Log)
    ensures Prefix(log, |log.entries|) == log
  {
  }

  lemma {:induction false} FlushKeepsDisk(s: State, o: FlushOutcome)
    requires Inv(s) && |o.stamps| <= |s.pending| && HonestStamps(s.live, s.pending, o.stamps)
    ensures OnDisk(Flush(s, o))
  {
    hide ChainOk, Body, FileBytes, Range, AppendAll, HonestStamps, Accounted, SignedBy;
    ContinuedHasOpening(s.archives, s.live);
    AppendAllExtends(s.live, s.pending, o.stamps);
    AppendAllRecords(s.archives, s.live, s.pending, o.stamps);
    WholePrefix(AppendAll(s.live, s.pending, o.stamps));
    if s.durable.AtPath? {
      assert Prefix(AppendAll(s.live, s.pending, o.stamps), s.durable.n) == Prefix(s.live, s.durable.n);
    }
  }

  lemma {:induction false} RangeFacts(s: State, n: nat, t: State)
    requires n <= |s.pending| && 0 <= Settled(s)
    requires t.lost == s.lost + Range(Settled(s) + n, Settled(s) + |s.pending|)
             || (n == |s.pending| && t.lost == s.lost)
    requires forall i | i in s.lost :: i < Settled(s)
    ensures t.lost == s.lost + Range(Settled(s) + n, Settled(s) + |s.pending|)
    ensures forall i | i in t.lost :: i < Settled(s) + |s.pending|
  {
  }

  // ----- every step ---------------------------------------------------------

  lemma {:induction false} EmitKeepsInv(s: State, e: Event)
    requires Inv(s) && !s.closed
    ensures Inv(Next(s, Emit(e)))
  {
    hide ChainOk, Recorded, Body, FileBytes, Survivors, OnDisk;
    var t := Next(s, Emit(e));
    if t != s {
      var k := Settled(s);
      assert t.accepted[k..] == s.accepted[k..] + [e];
      assert t.accepted[..k] == s.accepted[..k];
      OnDiskFrame(s, t);
    }
  }

  /** Taking an event off the queue only moves it within the accounts. */
  lemma {:induction false} ReceiveKeepsAccounts(s: State)
    requires Accounted(s) && s.queue != []
    ensures Accounted(Receive(s))
  {
    hide Recorded, Survivors;
    assert Receive(s).pending + Receive(s).queue == s.pending + s.queue;
  }

  /** The disk condition looks at logs, archives and disk only. */
  lemma {:induction false} OnDiskFrame(s: State, t: State)
    requires OnDisk(s)
    requires t.logPath == s.logPath && t.disk == s.disk && t.live == s.live && t.durable == s.durable
    requires t.archives == s.archives && t.archivePaths == s.archivePaths
    ensures OnDisk(t)
  {
    hide ChainOk, Body, FileBytes;
  }

  lemma {:induction false} RotationKeepsAccounts(s: State, req: Request, o: RotationOutcome)
    requires Accounted(s) && ChainOk(s.archives + [s.live]) && HonestOutcome(s.live, o)
    ensures var t := PerformRotation(s, req, o);
            Accounted(t) && ChainOk(t.archives + [t.live])
  {
    hide ChainOk, Recorded, Body, Survivors, SealedBy, NextBy, HonestPrepared, HonestClose, PerformRotation;
    RotationFrame(s, req, o);
    if o.Committed? {
      ContinuedHasOpening(s.archives, s.live);
      RotationRecords(s.archives, s.live, o.p);
      RotationExtendsChain(s.archives, s.live, o.p);
      var sealed, next := SealedBy(s.live, o.p), NextBy(s.live, o.p);
      assert s.archives + [sealed] + [next] == s.archives + [sealed, next];
    }
  }

  lemma {:induction false} RotationKeepsArchives(s: State, req: Request, o: RotationOutcome)
    requires OnDisk(s) && (!o.Refused? ==> req.archivePath !in s.disk)
    ensures ArchivesOnDisk(PerformRotation(s, req, o))
  {
    hide ChainOk, Body, FileBytes, SealedBy, NextBy, RotationSigns, RotationAbandons;
    var t := PerformRotation(s, req, o);
    forall i | 0 <= i < |t.archives| ensures FileIs(t, t.archivePaths[i], t.archives[i]) {
      assert i < |s.archives| ==> FileIs(s, s.archivePaths[i], s.archives[i]);
    }
  }

  /** A rotation that neither switched nor committed leaves the log's own file
      and every other existing file alone. */
  lemma {:induction false} FailedRotationKeepsLive(s: State, req: Request, o: RotationOutcome)
    requires LiveOnDisk(s) && (!o.Refused? ==> req.archivePath !in s.disk)
    requires !o.SwitchReportedFailed? && !o.Committed?
    ensures LiveOnDisk(PerformRotation(s, req, o))
  {
    hide ChainOk, Body, FileBytes, SealedBy, RotationSigns, RotationAbandons;
  }

  lemma {:induction false} SwitchedRotationKeepsLive(s: State, req: Request, o: RotationOutcome)
    requires o.SwitchReportedFailed? || o.Committed?
    requires Inv(s) && HonestPrepared(s.live, o.p) && req.archivePath !in s.disk
    ensures LiveOnDisk(PerformRotation(s, req, o))
  {
    hide ChainOk, Recorded, Body, FileBytes, Accounted, ArchivesOnDisk, SealedBy, NextBy, HonestPrepared, RotationSigns,
         RotationAbandons;
    ContinuedHasOpening(s.archives, s.live);
    RotationRecords(s.archives, s.live, o.p);
    RotationExtendsChain(s.archives, s.live, o.p);
    SuccessorIsOneEntry(s.live, o.p);
  }

  lemma {:induction false} RotationKeepsDisk(s: State, req: Request, o: RotationOutcome)
    requires Inv(s) && HonestOutcome(s.live, o) && (!o.Refused? ==> req.archivePath !in s.disk)
    ensures OnDisk(PerformRotation(s, req, o))
  {
    hide ArchivesOnDisk, LiveOnDisk, PerformRotation, HonestPrepared, HonestClose, Accounted, ChainOk;
    RotationKeepsArchives(s, req, o);
    if o.SwitchReportedFailed? || o.Committed? {
      SwitchedRotationKeepsLive(s, req, o);
    } else {
      FailedRotationKeepsLive(s, req, o);
    }
  }

  lemma {:induction false} SuccessorIsOneEntry(live: Log, p: Prepared)
    ensures |NextBy(live, p).entries| == 1 && Prefix(NextBy(live, p), 1) == NextBy(live, p)
    ensures SealedBy(live, p).header == live.header
  {
    hide RootOfLog, EventHashes;
  }

  lemma {:induction false} FlushStepKeepsInv(s: State, o: FlushOutcome)
    requires Inv(s) && Enabled(s, RunFlush(o))
    ensures Inv(Next(s, RunFlush(o)))
  {
    hide ChainOk, Accounted, OnDisk, HonestStamps, AppendAll, Range, Flush, Settled;
    var t := Next(s, RunFlush(o));
    if s.pc.FlushIfFull? && |s.pending| < s.batchSize {
      SameAccounts(s, t);
      OnDiskFrame(s, t);
    } else {
      FlushKeepsAccounts(s, o);
      FlushKeepsDisk(s, o);
      FlushFrame(s, o);
      SameAccounts(Flush(s, o), t);
      OnDiskFrame(Flush(s, o), t);
    }
  }

  lemma {:induction false} RotationStepKeepsInv(s: State, o: RotationOutcome)
    requires Inv(s) && Enabled(s, RunRotation(o))
    ensures Inv(Next(s, RunRotation(o)))
  {
    hide ChainOk, Accounted, OnDisk, HonestOutcome, PerformRotation, SealedBy, NextBy;
    var t, u := Next(s, RunRotation(o)), PerformRotation(s, s.pc.req, o);
    RotationKeepsAccounts(s, s.pc.req, o);
    RotationKeepsDisk(s, s.pc.req, o);
    RotationFrame(s, s.pc.req, o);
    SameAccounts(u, t);
    OnDiskFrame(u, t);
  }

  lemma {:induction false} ReceiveStepKeepsInv(s: State, step: Step)
    requires Inv(s) && Enabled(s, step) && (step.TakeEvent? || step.DrainOne? || step.FillOne?)
    ensures Inv(Next(s, step))
  {
    hide ChainOk, Accounted, OnDisk;
    var t := Next(s, step);
    ReceiveKeepsAccounts(s);
    SameAccounts(Receive(s), t);
    OnDiskFrame(s, t);
  }

  lemma {:induction false} StepKeepsInv(s: State, step: Step)
    requires Inv(s) && Enabled(s, step)
    ensures Inv(Next(s, step))
  {
    hide ChainOk, OnDisk, Accounted, HonestStamps, HonestOutcome, Flush, PerformRotation, CarriesId;
    match step
    case Emit(e) => EmitKeepsInv(s, e);
    case RunFlush(o) => FlushStepKeepsInv(s, o);
    case RunRotation(o) => RotationStepKeepsInv(s, o);
    case TakeEvent => ReceiveStepKeepsInv(s, step);
    case DrainOne => ReceiveStepKeepsInv(s, step);
    case FillOne => ReceiveStepKeepsInv(s, step);
    case _ =>
      SameAccounts(s, Next(s, step));
      OnDiskFrame(s, Next(s, step));
  }

  /** What a flush touches, an empty batch included. */
  lemma {:induction false} FlushFrame(s: State, o: FlushOutcome)
    requires |o.stamps| <= |s.pending|
    ensures var t := Flush(s, o);
            && t.pending == [] && t.queue == s.queue && t.capacity == s.capacity && t.closed == s.closed
            && t.archives == s.archives && t.base == s.base && t.accepted == s.accepted && t.logPath == s.logPath
            && t.live == AppendAll(s.live, s.pending, o.stamps)
            && (t.lost == s.lost + Range(Settled(s) + |o.stamps|, Settled(s) + |s.pending|)
                || (|o.stamps| == |s.pending| && t.lost == s.lost))
  {
    hide Range, SignedBy;
  }

  /** What a rotation touches. */
  lemma {:induction false} RotationFrame(s: State, req: Request, o: RotationOutcome)
    ensures var t := PerformRotation(s, req, o);
            && t.pending == s.pending && t.queue == s.queue && t.capacity == s.capacity && t.closed == s.closed
            && t.base == s.base && t.accepted == s.accepted && t.logPath == s.logPath && t.lost == s.lost
            && (if o.Committed? then t.archives == s.archives + [SealedBy(s.live, o.p)] && t.live == NextBy(s.live, o.p)
                else t.archives == s.archives && t.live == s.live)
  {
    hide SealedBy, NextBy, RotatedDisk, RotationSigns, RotationAbandons;
  }

  lemma {:induction false} SameAccounts(s: State, t: State)
    requires Accounted(s)
    requires t.accepted == s.accepted && t.pending == s.pending && t.queue == s.queue && t.lost == s.lost
    requires t.archives == s.archives && t.live == s.live && t.base == s.base
    ensures Accounted(t)
  {
    hide Recorded, Survivors;
  }

  /** The invariant holds in every state of every run. */
  lemma {:induction false} RunKeepsInv(s: State, steps: seq<Step>, t: State)
    requires Inv(s) && Run(s, steps, t)
    ensures Inv(t)
    decreases |steps|
  {
    hide Inv, Enabled, Next;
    if steps != [] {
      StepKeepsInv(s, steps[0]);
      RunKeepsInv(Next(s, steps[0]), steps[1..], t);
    }
  }

  // ----- what it means for whole runs ---------------------------------------

  /** Every append and every save of a flush succeeded. */
  ghost predicate FlushesSucceed(s: State, steps: seq<Step>)
    decreases |steps|
  {
    steps == [] ||
    (&& Enabled(s, steps[0])
     && (steps[0].RunFlush? ==> |steps[0].flush.stamps| == |s.pending| && !steps[0].flush.save.NotInstalled?)
     && FlushesSucceed(Next(s, steps[0]), steps[1..]))
  }

  ghost predicate NothingLost(s: State) { s.lost == {} && UpToDate(s) }

  lemma {:induction false} RotationLosesNothing(s: State, req: Request, o: RotationOutcome)
    requires ChainOk(s.archives + [s.live]) && NothingLost(s)
    ensures NothingLost(PerformRotation(s, req, o))
  {
    hide ChainOk, Body, SealedBy, NextBy, RotatedDisk, RotationSigns, RotationAbandons;
    if !o.Refused? {
      ContinuedHasOpening(s.archives, s.live);
      RotationRecords(s.archives, s.live, o.p);
      SuccessorIsOneEntry(s.live, o.p);
    }
  }

  lemma {:induction false} GoodFlushLosesNothing(s: State, o: FlushOutcome)
    requires NothingLost(s) && |o.stamps| == |s.pending| && !o.save.NotInstalled?
    ensures NothingLost(Flush(s, o))
  {
    hide Body, AppendAll, SignedBy, Range, FileBytes;
  }

  lemma {:induction false} GoodStepLosesNothing(s: State, step: Step)
    requires Inv(s) && NothingLost(s) && Enabled(s, step)
    requires step.RunFlush? ==> |step.flush.stamps| == |s.pending| && !step.flush.save.NotInstalled?
    ensures NothingLost(Next(s, step))
  {
    hide ChainOk, Body, OnDisk, Accounted, HonestStamps, HonestOutcome, Flush, PerformRotation, CarriesId;
    match step
    case RunFlush(o) => GoodFlushLosesNothing(s, o);
    case RunRotation(o) => RotationLosesNothing(s, s.pc.req, o);
    case _ =>
  }

  lemma {:induction false} GoodRunLosesNothing(s: State, steps: seq<Step>, t: State)
    requires Inv(s) && NothingLost(s) && Run(s, steps, t) && FlushesSucceed(s, steps)
    ensures NothingLost(t)
    decreases |steps|
  {
    hide NothingLost, Enabled, Next, Inv;
    if steps != [] {
      GoodStepLosesNothing(s, steps[0]);
      StepKeepsInv(s, steps[0]);
      GoodRunLosesNothing(Next(s, steps[0]), steps[1..], t);
    }
  }

  lemma {:induction false} SurvivorsOfNone(s: seq<Event>)
    ensures Survivors(s, {}) == s
    decreases |s|
  {
    if s != [] {
      SurvivorsOfNone(s[..|s| - 1]);
      assert s == s[..|s| - 1] + [s[|s| - 1]];
    }
  }

  /** Over every interleaving of emits, batch and timer flushes, rotations that
      succeed or fail anywhere, and shutdown, with flushes succeeding: the
      accepted events appear exactly once and in acceptance order in the
      committed archives and the live log, followed by what is still pending
      and queued, and those logs pass chain verification. */
  lemma {:induction false} AcceptedEventsRecordedInOrder(s: State, steps: seq<Step>, t: State)
    requires Init(s) && Run(s, steps, t) && FlushesSucceed(s, steps)
    ensures Recorded(t.archives + [t.live]) + t.pending + t.queue == t.base + t.accepted
    ensures ChainOk(t.archives + [t.live])
  {
    hide Recorded, ChainOk, Accounted, OnDisk, Run, FlushesSucceed, Body;
    InitInv(s);
    RunKeepsInv(s, steps, t);
    GoodRunLosesNothing(s, steps, t);
    NoneMissing(t);
  }

  lemma {:induction false} NoneMissing(t: State)
    requires Accounted(t) && t.lost == {}
    ensures Recorded(t.archives + [t.live]) + t.pending + t.queue == t.base + t.accepted
  {
    hide Recorded, Survivors;
    var k := Settled(t);
    SurvivorsOfNone(t.accepted[..k]);
    Rejoined(t.base, t.accepted, k, t.pending, t.queue);
  }

  lemma {:induction false} Rejoined(base: seq<Event>, all: seq<Event>, k: nat, a: seq<Event>, b: seq<Event>)
    requires k <= |all| && all[k..] == a + b
    ensures base + all[..k] + a + b == base + all
  {
    assert all == all[..k] + (a + b);
  }

  /** Without the assumption on flushes: whatever fails, every accepted event
      is in exactly one place.  The logs hold, in acceptance order, all
      accepted events that have left the batch except the recorded losses. */
  lemma {:induction false} EveryEventAccountedFor(s: State, steps: seq<Step>, t: State)
    requires Init(s) && Run(s, steps, t)
    ensures 0 <= Settled(t) && t.accepted[Settled(t)..] == t.pending + t.queue
    ensures forall i | i in t.lost :: i < Settled(t)
    ensures Recorded(t.archives + [t.live]) == t.base + Survivors(t.accepted[..Settled(t)], t.lost)
    ensures ChainOk(t.archives + [t.live]) && |t.queue| <= t.capacity
  {
    hide Recorded, ChainOk, Survivors, OnDisk, Run;
    InitInv(s);
    RunKeepsInv(s, steps, t);
  }

  /** The files at `paths` read back as `logs`. */
  ghost predicate ReadsBack(disk: map<Path, Bytes>, paths: seq<Path>, logs: seq<Log>)
  {
    && |paths| == |logs|
    && forall i | 0 <= i < |paths| :: paths[i] in disk && ParseFile(disk[paths[i]]) == Ok(logs[i])
  }

  lemma {:induction false} ChainFilesReadBack(disk: map<Path, Bytes>, paths: seq<Path>, logs: seq<Log>)
    requires CborIsSelfDelimiting() && ChainOk(logs) && |paths| == |logs|
    requires forall i | 0 <= i < |paths| :: paths[i] in disk && disk[paths[i]] == FileBytes(logs[i])
    ensures ReadsBack(disk, paths, logs)
  {
    hide FileBytes, ParseFile, CborIsSelfDelimiting, Linked;
    forall i | 0 <= i < |paths| ensures ParseFile(disk[paths[i]]) == Ok(logs[i]) {
      assert i > 0 ==> LinkedAt(logs, i);
      ReadAfterSave(logs[i]);
    }
  }

  /** A chain whose live end is cut back to n entries is a chain, as long as a
      continued log keeps its opening sentinel. */
  lemma {:induction false} CutLiveKeepsChain(archives: seq<Log>, live: Log, n: nat)
    requires ChainOk(archives + [live]) && n <= |live.entries| && (live.header.prevLogId.Some? ==> n >= 1)
    ensures ChainOk(archives + [Prefix(live, n)])
    ensures Recorded(archives + [Prefix(live, n)]) <= Recorded(archives + [live])
  {
    hide RootOfLog, IdHex, Body, Accepted;
    var all, cut := archives + [live], archives + [Prefix(live, n)];
    LiveAccepted(all);
    AcceptedPrefix(live, n);
    forall i | 0 < i < |cut| ensures LinkedAt(cut, i) {
      assert LinkedAt(all, i);
    }
    if archives == [] {
      assert all[0] == live && cut[0] == Prefix(live, n);
    } else {
      assert all[0] == cut[0];
    }
    RecordedSnoc(archives, live);
    RecordedSnoc(archives, Prefix(live, n));
    BodyOfPrefix(live, n);
  }

  lemma {:induction false} BodyOfPrefix(log: Log, n: nat)
    requires n <= |log.entries| && (log.header.prevLogId.Some? ==> n >= 1)
    ensures Body(Prefix(log, n), false) <= Body(log, false)
  {
    hide EventsOf;
    assert EventsOf(log.entries[..n]) == EventsOf(log.entries)[..n];
  }

  /** The task killed and started again: everything in memory is gone, and the
      log is what its file holds.  The log that was live is left behind. */
  ghost function Restarted(s: State): State
    requires OnDisk(s)
  {
    var t := s.(queue := [], closed := false, rotQueue := None, pc := Select, pending := [], accepted := [], lost := {},
                abandoned := s.abandoned + {s.live});
    match s.durable
    case AtPath(n) =>
      t.(live := Prefix(s.live, n), base := Recorded(s.archives + [Prefix(s.live, n)]))
    case Switched(archive, sealed, next) =>
      t.(archives := s.archives + [sealed], archivePaths := s.archivePaths + [archive], live := next,
         base := Recorded(s.archives + [sealed] + [next]), durable := AtPath(|next.entries|))
  }

  lemma {:induction false} RestartReadsFile(s: State)
    requires OnDisk(s) && ChainOk(s.archives + [s.live])
    ensures OnDisk(Restarted(s))
  {
    hide Recorded, ChainOk, FileBytes, Body;
    var t := Restarted(s);
    match s.durable
    case AtPath(n) =>
      WholePrefix(t.live);
    case Switched(archive, sealed, next) =>
      assert s.archives + [sealed, next] == s.archives + [sealed] + [next];
      ContinuedHasOpening(s.archives + [sealed], next);
      WholePrefix(next);
    forall i | 0 <= i < |t.archives| ensures FileIs(t, t.archivePaths[i], t.archives[i]) {
      assert i < |s.archives| ==> FileIs(s, s.archivePaths[i], s.archives[i]);
    }
  }

  /** Crash anywhere, start again: the task is in a state it may start from,
      and it has a prefix of what it had recorded, all of it when the disk was
      up to date. */
  lemma {:induction false} RestartRecovers(s: State)
    requires Inv(s)
    ensures var t := Restarted(s);
            && Init(t) && t.logPath == s.logPath && t.disk == s.disk
            && Recorded(t.archives + [t.live]) <= Recorded(s.archives + [s.live])
            && (UpToDate(s) ==> Recorded(t.archives + [t.live]) == Recorded(s.archives + [s.live]))
  {
    hide Recorded, ChainOk, FileBytes, Body, Accounted, ArchivesOnDisk;
    RestartReadsFile(s);
    match s.durable
    case AtPath(n) =>
      CutLiveKeepsChain(s.archives, s.live, n);
      WholePrefix(s.live);
    case Switched(archive, sealed, next) =>
      assert s.archives + [sealed, next] == s.archives + [sealed] + [next];
      SwitchedRecord(s.archives, sealed, next, s.live);
  }

  /** The files that hold the record: a list ending at the log path that reads
      back as a chain passing verification and recording a prefix of what the
      logs in memory record, all of it when the disk is up to date. */
  lemma {:induction false} DiskHoldsRecord(t: State) returns (paths: seq<Path>, logs: seq<Log>)
    requires CborIsSelfDelimiting() && Inv(t)
    ensures paths != [] && paths[|paths| - 1] == t.logPath && ReadsBack(t.disk, paths, logs)
    ensures ChainOk(logs) && Recorded(logs) <= Recorded(t.archives + [t.live])
    ensures UpToDate(t) ==> Recorded(logs) == Recorded(t.archives + [t.live])
  {
    hide Recorded, ChainOk, FileBytes, ParseFile, CborIsSelfDelimiting, Accounted, Restarted, UpToDate;
    RestartRecovers(t);
    var r := Restarted(t);
    paths, logs := r.archivePaths + [r.logPath], r.archives + [r.live];
    WholePrefix(r.live);
    forall i | 0 <= i < |paths| ensures paths[i] in t.disk && t.disk[paths[i]] == FileBytes(logs[i]) {
      assert i < |r.archives| ==> FileIs(r, r.archivePaths[i], r.archives[i]);
    }
    ChainFilesReadBack(t.disk, paths, logs);
  }

  lemma {:induction false} SwitchedRecord(archives: seq<Log>, sealed: Log, next: Log, live: Log)
    requires Body(sealed, true) <= Body(live, false) && Body(next, false) == []
    ensures Recorded(archives + [sealed, next]) <= Recorded(archives + [live])
    ensures Body(sealed, true) == Body(live, false) ==> Recorded(archives + [sealed, next]) == Recorded(archives + [live])
  {
    hide Recorded, Body;
    assert archives + [sealed, next] == archives + [sealed] + [next];
    RecordedSnoc(archives + [sealed], next);
    RecordedSnoc(archives, live);
    assert (archives + [sealed])[..|archives|] == archives;
  }

  /** Crash consistency.  In every state of every run, whatever appends, saves
      and rotations have failed, the files on disk read back as a chain that
      passes verification and records a prefix of what the logs in memory
      record. */
  lemma {:induction false} AlwaysRecoverable(s: State, steps: seq<Step>, t: State)
    returns (paths: seq<Path>, logs: seq<Log>)
    requires CborIsSelfDelimiting() && Init(s) && Run(s, steps, t)
    ensures paths != [] && paths[|paths| - 1] == t.logPath && ReadsBack(t.disk, paths, logs)
    ensures ChainOk(logs) && Recorded(logs) <= Recorded(t.archives + [t.live])
  {
    hide Recorded, ChainOk, Run, CborIsSelfDelimiting, Inv, Init, ReadsBack;
    InitInv(s);
    RunKeepsInv(s, steps, t);
    paths, logs := DiskHoldsRecord(t);
  }

  /** After a clean shutdown nothing accepted is missing from disk: there is a
      list of files ending at the log path that read back as a chain passing
      verification and recording every accepted event in order.  This covers
      a shutdown right after a rotation whose switch reached the disk but was
      reported as failed. */
  lemma {:induction false} NothingMissingAfterShutdown(s: State, steps: seq<Step>, t: State)
    returns (paths: seq<Path>, logs: seq<Log>)
    requires CborIsSelfDelimiting()
    requires Init(s) && Run(s, steps, t) && FlushesSucceed(s, steps) && t.pc.Done?
    ensures paths != [] && paths[|paths| - 1] == t.logPath && ReadsBack(t.disk, paths, logs)
    ensures ChainOk(logs) && Recorded(logs) == t.base + t.accepted
  {
    hide Recorded, ChainOk, Run, FlushesSucceed, CborIsSelfDelimiting, Accounted, OnDisk, ReadsBack, Body;
    InitInv(s);
    RunKeepsInv(s, steps, t);
    GoodRunLosesNothing(s, steps, t);
    AcceptedEventsRecordedInOrder(s, steps, t);
    assert Recorded(t.archives + [t.live]) + [] + [] == Recorded(t.archives + [t.live]);
    paths, logs := DiskHoldsRecord(t);
  }

  lemma {:induction false} FlushOverwritesNothingElse(s: State, o: FlushOutcome, path: Path)
    requires |o.stamps| <= |s.pending| && path in s.disk && path != s.logPath
    ensures var t := Flush(s, o);
            path in t.disk && t.disk[path] == s.disk[path] && t.logPath == s.logPath
  {
    hide FileBytes, AppendAll, Range, SignedBy;
  }

  lemma {:induction false} RotationOverwritesNothingElse(s: State, req: Request, o: RotationOutcome, path: Path)
    requires !o.Refused? ==> req.archivePath !in s.disk
    requires path in s.disk && path != s.logPath
    ensures var t := PerformRotation(s, req, o);
            path in t.disk && t.disk[path] == s.disk[path] && t.logPath == s.logPath
  {
    hide FileBytes, SealedBy, NextBy, RotationSigns, RotationAbandons;
  }

  lemma {:induction false} StepOverwritesNothingElse(s: State, step: Step, path: Path)
    requires Enabled(s, step) && path in s.disk && path != s.logPath
    ensures var t := Next(s, step);
            path in t.disk && t.disk[path] == s.disk[path] && t.logPath == s.logPath
  {
    hide HonestStamps, HonestOutcome, Flush, PerformRotation, CarriesId;
    match step
    case RunFlush(o) => FlushOverwritesNothingElse(s, o, path);
    case RunRotation(o) => RotationOverwritesNothingElse(s, s.pc.req, o, path);
    case _ =>
  }

  /** Nothing on disk other than the live log's own path is ever overwritten
      or removed, in any run, whatever fails. */
  lemma {:induction false} NothingElseOverwritten(s: State, steps: seq<Step>, t: State, path: Path)
    requires Run(s, steps, t) && path in s.disk && path != s.logPath
    ensures path in t.disk && t.disk[path] == s.disk[path] && t.logPath == s.logPath
    decreases |steps|
  {
    hide Enabled, Next;
    if steps != [] {
      StepOverwritesNothingElse(s, steps[0], path);
      NothingElseOverwritten(Next(s, steps[0]), steps[1..], t, path);
    }
  }

  // ----- shutdown comes to an end -------------------------------------------

  /** A step of the writer itself. */
  predicate WriterStep(step: Step)
  {
    !step.Emit? && !step.CloseSenders? && !step.RequestRotation? && !step.SignElsewhere?
  }

  /** In every reachable state of a closed channel the writer can go on until it
      is done, also when flushes and rotations fail. */
  lemma {:induction false} WriterNeverStuck(s: State) returns (step: Step)
    requires s.closed && !s.pc.Done?
    ensures WriterStep(step) && Enabled(s, step)
  {
    match s.pc
    case Select => step := if s.queue == [] then TakeClosed else TakeEvent;
    case RotDrain(_) => step := if s.queue == [] then DrainDone else DrainOne;
    case Fill => step := if s.queue != [] && |s.pending| < s.batchSize then FillOne else FillDone;
    case RotPerform(_) => step := RunRotation(Refused);
    case _ => step := RunFlush(FlushOutcome([], NotInstalled));
  }

  function Rank(pc: Pc): nat
  {
    match pc
    case RotDrain(_) => 14
    case RotFlush(_) => 13
    case RotPerform(_) => 12
    case Fill => 9
    case FlushIfFull => 8
    case Select => 7
    case TimerFlush => 6
    case FinalFlush => 1
    case Done => 0
  }

  /** What is left to do on a closed channel. */
  function Work(s: State): nat
  {
    40 * |s.queue| + (if s.pending != [] then 15 else 0) + (if s.rotQueue.Some? then 30 else 0) + Rank(s.pc)
  }

  /** The timer only fires on a nonempty batch. */
  ghost predicate TimerHasBatch(s: State) { s.pc.TimerFlush? ==> s.pending != [] }

  lemma {:induction false} RoutinesKeepQueues(s: State)
    ensures forall o: FlushOutcome | |o.stamps| <= |s.pending| ::
              var t := Flush(s, o); t.pending == [] && t.queue == s.queue && t.rotQueue == s.rotQueue && t.closed == s.closed
    ensures forall req, o ::
              var t := PerformRotation(s, req, o);
              t.pending == s.pending && t.queue == s.queue && t.rotQueue == s.rotQueue && t.closed == s.closed
  {
    hide AppendAll, RotatedDisk, RotatedLive, SealedBy, NextBy, FileBytes, Range, SignedBy, RotationSigns, RotationAbandons;
  }

  lemma {:induction false} WriterStepWorks(s: State, step: Step)
    requires Enabled(s, step) && WriterStep(step) && TimerHasBatch(s)
    ensures Work(Next(s, step)) < Work(s)
    ensures TimerHasBatch(Next(s, step)) && Next(s, step).closed == s.closed
  {
    hide HonestStamps, HonestOutcome, CarriesId, Flush, PerformRotation;
    RoutinesKeepQueues(s);
  }

  /** Once the senders are gone and no rotation is requested, the writer takes at
      most Work(s) more steps, and it stops nowhere but at Done. */
  lemma {:induction false} ShutdownTerminates(s: State, steps: seq<Step>, t: State)
    requires s.closed && TimerHasBatch(s) && Run(s, steps, t)
    requires forall i | 0 <= i < |steps| :: WriterStep(steps[i])
    ensures |steps| + Work(t) <= Work(s)
    ensures t.pc.Done? || exists step :: WriterStep(step) && Enabled(t, step)
    decreases |steps|
  {
    hide Enabled, Next, Work;
    if steps == [] {
      if !t.pc.Done? {
        var step := WriterNeverStuck(t);
      }
    } else {
      WriterStepWorks(s, steps[0]);
      ShutdownTerminates(Next(s, steps[0]), steps[1..], t);
    }
  }

  /** The premises of the run theorems can be met: any accepted root log, on
      disk at its path, starts a writer that can be closed and shut down. */
  lemma {:induction false} IdleTaskShutsDown(live: Log, path: Path, capacity: nat, batchSize: nat)
    returns (s: State, steps: seq<Step>, t: State)
    requires Accepted(live) && IsChainRoot(live)
    ensures s.live == live && s.logPath == path && s.capacity == capacity && s.batchSize == batchSize
    ensures Init(s) && Run(s, steps, t) && FlushesSucceed(s, steps) && t.pc.Done?
  {
    hide Accepted, Recorded, FileBytes, Enabled, Next, Run, FlushesSucceed, Init;
    s := State(capacity, batchSize, path, [], false, None, Select, [], live, map[path := FileBytes(live)],
               Recorded([live]), [], {}, [], [], AtPath(|live.entries|), {}, {});
    IdleInit(s);
    var flush := RunFlush(FlushOutcome([], Installed));
    var a := s.(closed := true);
    var b := a.(pc := FinalFlush);
    t := b.(pc := Done);
    IdleSteps(s);
    RunNothing(t);
    RunCons(b, flush, [], t);
    RunCons(a, TakeClosed, [flush] + [], t);
    RunCons(s, CloseSenders, [TakeClosed] + ([flush] + []), t);
    steps := [CloseSenders] + ([TakeClosed] + ([flush] + []));
  }

  lemma {:induction false} RunNothing(t: State)
    ensures Run(t, [], t) && FlushesSucceed(t, [])
  {
  }

  lemma {:induction false} RunCons(s: State, step: Step, steps: seq<Step>, t: State)
    requires Enabled(s, step) && Run(Next(s, step), steps, t) && FlushesSucceed(Next(s, step), steps)
    requires step.RunFlush? ==> |step.flush.stamps| == |s.pending| && !step.flush.save.NotInstalled?
    ensures Run(s, [step] + steps, t) && FlushesSucceed(s, [step] + steps)
  {
    hide Enabled, Next;
    assert ([step] + steps)[0] == step && ([step] + steps)[1..] == steps;
  }

  lemma {:induction false} IdleInit(s: State)
    requires Accepted(s.live) && IsChainRoot(s.live) && s.archives == [] && s.archivePaths == []
    requires s.queue == [] && s.pending == [] && s.accepted == [] && s.lost == {}
    requires !s.closed && s.rotQueue.None? && s.pc.Select? && s.base == Recorded([s.live])
    requires s.disk == map[s.logPath := FileBytes(s.live)] && s.durable == AtPath(|s.live.entries|)
    ensures Init(s)
  {
    hide Accepted, Recorded, FileBytes;
    assert s.archives + [s.live] == [s.live];
    WholePrefix(s.live);
  }

  lemma {:induction false} IdleSteps(s: State)
    requires s.queue == [] && s.pending == [] && s.pc.Select?
    ensures var a := s.(closed := true);
            var b := a.(pc := FinalFlush);
            var flush := RunFlush(FlushOutcome([], Installed));
            && Enabled(s, CloseSenders) && Next(s, CloseSenders) == a
            && Enabled(a, TakeClosed) && Next(a, TakeClosed) == b
            && Enabled(b, flush) && Next(b, flush) == b.(pc := Done)
  {
    NoStampsHonest(s.live);
  }

  lemma {:induction false} NoStampsHonest(log: Log)
    ensures HonestStamps(log, [], [])
  {
  }
}
