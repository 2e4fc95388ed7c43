/** Runs of the audit writer seen from outside: which emits are accepted, which
    rotation requests are served, how large a batch gets, and where the events
    that precede a rotation end up. */
module WriterTraces {
  import opened Wrappers
  import opened LogModel
  import LogFile
  import opened RotationChain
  import opened AuditWriter

  // ----- emits --------------------------------------------------------------

  ghost predicate HasRoom(s: State) { !s.pc.Done? && |s.queue| < s.capacity }

  /** The events of a run that were emitted while the queue had room and the
      task was there to receive them. */
  ghost function EmittedWithRoom(s: State, steps: seq<Step>): seq<Event>
    decreases |steps|
  {
    if steps == [] || !Enabled(s, steps[0]) then []
    else (if steps[0].Emit? && HasRoom(s) then [steps[0].event] else []) +
         EmittedWithRoom(Next(s, steps[0]), steps[1..])
  }

  lemma {:induction false} StepAccepts(s: State, step: Step)
    requires Enabled(s, step)
    ensures Next(s, step).accepted == s.accepted + if step.Emit? && HasRoom(s) then [step.event] else []
  {
    hide HonestStamps, HonestOutcome, CarriesId, Flush, PerformRotation;
    match step
    case RunFlush(o) => FlushFrame(s, o);
    case RunRotation(o) => RotationFrame(s, s.pc.req, o);
    case _ =>
  }

  /** Every emitted event is accepted unless the queue was full or the task was
      done, and nothing else is. */
  lemma {:induction false} EmitsAccepted(s: State, steps: seq<Step>, t: State)
    requires Run(s, steps, t)
    ensures t.accepted == s.accepted + EmittedWithRoom(s, steps)
    decreases |steps|
  {
    hide Enabled, Next, HasRoom;
    if steps == [] {
      assert s.accepted + [] == s.accepted;
    } else {
      StepAccepts(s, steps[0]);
      var u := Next(s, steps[0]);
      EmitsAccepted(u, steps[1..], t);
      Regroup(s.accepted, if steps[0].Emit? && HasRoom(s) then [steps[0].event] else [], EmittedWithRoom(u, steps[1..]));
    }
  }

  // ----- rotation requests --------------------------------------------------

  /** What one step does to requests: taken in because the slot was empty,
      performed, committed. */
  ghost function TakenIn(s: State, step: Step): seq<Request>
  {
    if step.RequestRotation? && s.rotQueue.None? then [step.req] else []
  }

  ghost function PerformedBy(s: State, step: Step): seq<Request>
    requires Enabled(s, step)
  {
    if step.RunRotation? then [s.pc.req] else []
  }

  ghost function CommittedBy(s: State, step: Step): seq<Path>
    requires Enabled(s, step)
  {
    if step.RunRotation? && step.rotation.Committed? then [s.pc.req.archivePath] else []
  }

  /** The same over a run. */
  ghost function RequestsTaken(s: State, steps: seq<Step>): seq<Request>
    decreases |steps|
  {
    if steps == [] || !Enabled(s, steps[0]) then []
    else TakenIn(s, steps[0]) + RequestsTaken(Next(s, steps[0]), steps[1..])
  }

  ghost function Performed(s: State, steps: seq<Step>): seq<Request>
    decreases |steps|
  {
    if steps == [] || !Enabled(s, steps[0]) then []
    else PerformedBy(s, steps[0]) + Performed(Next(s, steps[0]), steps[1..])
  }

  ghost function CommittedPaths(s: State, steps: seq<Step>): seq<Path>
    decreases |steps|
  {
    if steps == [] || !Enabled(s, steps[0]) then []
    else CommittedBy(s, steps[0]) + CommittedPaths(Next(s, steps[0]), steps[1..])
  }

  /** The request in the writer's hands, then the one in the slot. */
  ghost function Outstanding(s: State): seq<Request>
  {
    (if s.pc.RotDrain? || s.pc.RotFlush? || s.pc.RotPerform? then [s.pc.req] else []) +
    (if s.rotQueue.Some? then [s.rotQueue.value] else [])
  }

  lemma {:induction false} RoutinesKeepSlot(s: State)
    ensures forall o: FlushOutcome | |o.stamps| <= |s.pending| ::
              Flush(s, o).rotQueue == s.rotQueue && Flush(s, o).archivePaths == s.archivePaths
    ensures forall req: Request, o ::
              var t := PerformRotation(s, req, o);
              && t.rotQueue == s.rotQueue
              && t.archivePaths == s.archivePaths + if o.Committed? then [req.archivePath] else []
  {
    hide AppendAll, RotatedDisk, RotatedLive, SealedBy, NextBy, LogFile.FileBytes, Range, SignedBy, RotationSigns, RotationAbandons;
  }

  lemma {:induction false} StepServes(s: State, step: Step)
    requires Enabled(s, step)
    ensures var t := Next(s, step);
            && Outstanding(s) + TakenIn(s, step) == PerformedBy(s, step) + Outstanding(t)
            && t.archivePaths == s.archivePaths + CommittedBy(s, step)
  {
    hide HonestStamps, HonestOutcome, CarriesId, Flush, PerformRotation;
    RoutinesKeepSlot(s);
  }

  lemma {:induction false} Chain4<T>(a: seq<T>, b: seq<T>, c: seq<T>, d: seq<T>, e: seq<T>, f: seq<T>, g: seq<T>)
    requires a + b == c + d && d + e == f + g
    ensures a + (b + e) == (c + f) + g
  {
    assert a + (b + e) == (a + b) + e == (c + d) + e == c + (d + e) == c + (f + g);
  }

  lemma {:induction false} Join3<T>(a: seq<T>, b: seq<T>, c: seq<T>)
    ensures a + b + c == a + (b + c)
  {
  }

  /** Rotation requests are served in order, none lost, none invented: those
      taken in are those performed, then the one in hand and the one in the
      slot.  The archives committed are those of the requests, in order. */
  lemma {:induction false} RequestsServedInOrder(s: State, steps: seq<Step>, t: State)
    requires Run(s, steps, t)
    ensures Outstanding(s) + RequestsTaken(s, steps) == Performed(s, steps) + Outstanding(t)
    ensures t.archivePaths == s.archivePaths + CommittedPaths(s, steps)
    decreases |steps|
  {
    hide Enabled, Next, Outstanding, TakenIn, PerformedBy, CommittedBy;
    if steps == [] {
      assert Outstanding(s) + [] == [] + Outstanding(s) && s.archivePaths + [] == s.archivePaths;
    } else {
      var step, u := steps[0], Next(s, steps[0]);
      StepServes(s, step);
      RequestsServedInOrder(u, steps[1..], t);
      Chain4(Outstanding(s), TakenIn(s, step), PerformedBy(s, step), Outstanding(u),
             RequestsTaken(u, steps[1..]), Performed(u, steps[1..]), Outstanding(t));
      Join3(s.archivePaths, CommittedBy(s, step), CommittedPaths(u, steps[1..]));
    }
  }

  // ----- batches ------------------------------------------------------------

  function Limit(s: State): nat { if s.batchSize == 0 then 1 else s.batchSize }

  /** How much can be pending where: a full batch does not survive the end of
      the iteration that filled it, and nothing is pending when a rotation
      runs. */
  ghost predicate BatchBound(s: State)
  {
    match s.pc
    case Fill => |s.pending| <= Limit(s)
    case FlushIfFull => |s.pending| <= Limit(s)
    case RotDrain(_) => true
    case RotFlush(_) => true
    case RotPerform(_) => s.pending == []
    case Done => s.pending == []
    case _ => |s.pending| < Limit(s)
  }

  lemma {:induction false} RoutinesKeepLimit(s: State)
    ensures forall o: FlushOutcome | |o.stamps| <= |s.pending| ::
              Flush(s, o).pending == [] && Flush(s, o).batchSize == s.batchSize
    ensures forall req: Request, o ::
              PerformRotation(s, req, o).pending == s.pending && PerformRotation(s, req, o).batchSize == s.batchSize
  {
    hide AppendAll, RotatedDisk, RotatedLive, SealedBy, NextBy, LogFile.FileBytes, Range, SignedBy, RotationSigns, RotationAbandons;
  }

  lemma {:induction false} StepKeepsBatchBound(s: State, step: Step)
    requires BatchBound(s) && Enabled(s, step)
    ensures BatchBound(Next(s, step)) && Next(s, step).batchSize == s.batchSize
  {
    hide HonestStamps, HonestOutcome, CarriesId, Flush, PerformRotation;
    RoutinesKeepLimit(s);
  }

  /** Batches are written when they are full: whenever the writer waits for
      something to do, less than a batch is pending. */
  lemma {:induction false} BatchesWrittenWhenFull(s: State, steps: seq<Step>, t: State)
    requires BatchBound(s) && Run(s, steps, t)
    ensures BatchBound(t) && t.batchSize == s.batchSize
    decreases |steps|
  {
    hide BatchBound, Enabled, Next;
    if steps != [] {
      StepKeepsBatchBound(s, steps[0]);
      BatchesWrittenWhenFull(Next(s, steps[0]), steps[1..], t);
    }
  }

  // ----- what a rotation seals ----------------------------------------------

  /** While a rotation request is being served, the first `cut` accepted events
      are on their way into the log that it will seal. */
  ghost predicate OnTheirWay(s: State, cut: nat)
  {
    && cut <= |s.accepted|
    && match s.pc
       case RotDrain(_) => true
       case RotFlush(_) => cut <= |s.accepted| - |s.queue|
       case RotPerform(_) => s.pending == [] && cut <= |s.accepted| - |s.queue|
       case _ => false
  }

  lemma {:induction false} StepKeepsOnTheirWay(s: State, step: Step, cut: nat)
    requires OnTheirWay(s, cut) && Enabled(s, step) && !step.RunRotation?
    ensures OnTheirWay(Next(s, step), cut)
  {
    hide HonestStamps, CarriesId, Flush;
    if step.RunFlush? {
      FlushFrame(s, step.flush);
    }
  }

  lemma {:induction false} RunKeepsOnTheirWay(s: State, steps: seq<Step>, t: State, cut: nat)
    requires OnTheirWay(s, cut) && Run(s, steps, t) && forall i | 0 <= i < |steps| :: !steps[i].RunRotation?
    ensures OnTheirWay(t, cut)
    decreases |steps|
  {
    hide OnTheirWay, Enabled, Next;
    if steps != [] {
      StepKeepsOnTheirWay(s, steps[0], cut);
      RunKeepsOnTheirWay(Next(s, steps[0]), steps[1..], t, cut);
    }
  }

  /** Events accepted before the writer takes up a rotation request belong to
      the old log: when the rotation commits, with flushes succeeding, they
      are all in the sealed archives, in order. */
  lemma {:induction false} RotationSealsWhatCameBefore(s: State, steps: seq<Step>, u: State, o: RotationOutcome)
    requires Inv(s) && NothingLost(s) && Enabled(s, TakeRotation)
    requires Run(Next(s, TakeRotation), steps, u) && FlushesSucceed(Next(s, TakeRotation), steps)
    requires forall i | 0 <= i < |steps| :: !steps[i].RunRotation?
    requires u.pc.RotPerform? && o.Committed? && Enabled(u, RunRotation(o))
    ensures u.base + s.accepted <= SealedEvents(Next(u, RunRotation(o)).archives)
  {
    hide Run, FlushesSucceed, Body, Recorded, ChainOk, OnDisk, Accounted, HonestOutcome, EmittedWithRoom, PerformRotation,
         SealedEvents;
    var r, cut := Next(s, TakeRotation), |s.accepted|;
    StepKeepsInv(s, TakeRotation);
    GoodStepLosesNothing(s, TakeRotation);
    RunKeepsInv(r, steps, u);
    GoodRunLosesNothing(r, steps, u);
    RunKeepsOnTheirWay(r, steps, u, cut);
    EmitsAccepted(r, steps, u);
    var t := Next(u, RunRotation(o));
    StepKeepsInv(u, RunRotation(o));
    SealedByRotation(u, o);
    assert t.archives == PerformRotation(u, u.pc.req, o).archives;
    SettledRecorded(u);
    assert u.accepted[..cut] == s.accepted;
    assert u.accepted[..Settled(u)][..cut] == s.accepted;
  }

  lemma {:induction false} SettledRecorded(u: State)
    requires Accounted(u) && u.lost == {}
    ensures Recorded(u.archives + [u.live]) == u.base + u.accepted[..Settled(u)] && 0 <= Settled(u)
  {
    hide Recorded, Survivors;
    SurvivorsOfNone(u.accepted[..Settled(u)]);
  }

  lemma {:induction false} SealedByRotation(u: State, o: RotationOutcome)
    requires Inv(u) && u.pc.RotPerform? && o.Committed? && HonestOutcome(u.live, o)
    ensures SealedEvents(PerformRotation(u, u.pc.req, o).archives) == Recorded(u.archives + [u.live])
  {
    hide ChainOk, Accounted, OnDisk, Body, SealedBy, NextBy, Recorded, PerformRotation, HonestPrepared, SealedEvents;
    RotationFrame(u, u.pc.req, o);
    ContinuedHasOpening(u.archives, u.live);
    RotationRecords(u.archives, u.live, o.p);
    var sealed, next := SealedBy(u.live, o.p), NextBy(u.live, o.p);
    RecordedSnoc(u.archives + [sealed], next);
    assert SealedEvents(u.archives + [sealed]) + [] == SealedEvents(u.archives + [sealed]);
  }

  // ----- the select ---------------------------------------------------------

  /** The arms of the select: a request in the slot, an event in the queue, the
      timer over a nonempty batch, and the end of a closed, drained channel. */
  lemma {:induction false} SelectArms(s: State)
    ensures s.pc.Select? ==>
              && (Enabled(s, TakeRotation) <==> s.rotQueue.Some?)
              && (Enabled(s, TakeEvent) <==> s.queue != [])
              && (Enabled(s, TakeTimer) <==> s.pending != [])
              && (Enabled(s, TakeClosed) <==> s.closed && s.queue == [])
    ensures !s.pc.Select? ==>
              !Enabled(s, TakeRotation) && !Enabled(s, TakeEvent) && !Enabled(s, TakeTimer) && !Enabled(s, TakeClosed)
  {
  }

  /** What is pending does not have to wait for a full batch: the timer can fire
      and, if every append and the save succeed, all of it is recorded and on
      disk. */
  lemma {:induction false} TimerWritesPending(s: State, stamps: seq<Stamp>) returns (t: State)
    requires Inv(s) && NothingLost(s) && s.pc.Select? && s.pending != []
    requires |stamps| == |s.pending| && HonestStamps(s.live, s.pending, stamps)
    ensures Run(s, [TakeTimer, RunFlush(FlushOutcome(stamps, Installed))], t)
    ensures t.pending == [] && t.queue == s.queue && NothingLost(t)
    ensures Recorded(t.archives + [t.live]) == Recorded(s.archives + [s.live]) + s.pending
  {
    hide Recorded, Inv, NothingLost, HonestStamps, Flush, CarriesId, AppendAll, Run;
    var o := FlushOutcome(stamps, Installed);
    var a := Next(s, TakeTimer);
    t := Next(a, RunFlush(o));
    TwoSteps(s, TakeTimer, RunFlush(o));
    StepKeepsInv(s, TakeTimer);
    GoodStepLosesNothing(s, TakeTimer);
    FlushFrame(a, o);
    GoodStepLosesNothing(a, RunFlush(o));
    BatchRecorded(s, stamps);
  }

  lemma {:induction false} TwoSteps(s: State, x: Step, y: Step)
    requires Enabled(s, x) && Enabled(Next(s, x), y)
    ensures Run(s, [x, y], Next(Next(s, x), y))
  {
    hide Enabled, Next;
    var a, steps := Next(s, x), [x, y];
    var t := Next(a, y);
    assert steps[1..] == [y] && [y][1..] == [];
    assert Run(t, [], t) && Run(a, [y], t);
  }

  lemma {:induction false} BatchRecorded(s: State, stamps: seq<Stamp>)
    requires Inv(s) && |stamps| == |s.pending| && HonestStamps(s.live, s.pending, stamps)
    ensures Recorded(s.archives + [AppendAll(s.live, s.pending, stamps)]) == Recorded(s.archives + [s.live]) + s.pending
  {
    hide Recorded, ChainOk, Accounted, OnDisk, HonestStamps, AppendAll, Body;
    AppendAllRecords(s.archives, s.live, s.pending, stamps);
    RecordedSnoc(s.archives, s.live);
    RecordedSnoc(s.archives, AppendAll(s.live, s.pending, stamps));
    assert s.pending[..|stamps|] == s.pending;
    Regroup(SealedEvents(s.archives), Body(s.live, false), s.pending);
  }
}
