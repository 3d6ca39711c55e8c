/** The handshake between the producer's begin_frame / end_frame and the frame worker, one step per
    critical section. Every flag keeps its source name; the logs are history. */
module FrameWorker {

  datatype Phase = Sealed | Done

  /** Where the worker stands in its cycle. */
  datatype WorkerAt =
    | Waiting              // for stop or a job
    | Sealing              // under the renderer mutex
    | EncodingLocked       // still under it: this cycle does not overlap
    | PublishingFirst
    | AwaitingPermission   // for stop or prepareAllowed
    | Preparing            // begin_frame_impl
    | StoringSealed
    | StoringReady         // second store of the same critical section
    | Encoding             // mutex-free, beside the producer
    | Publishing
    | RestartingImGui      // under the renderer mutex
    | StoringDone
    | Leaving
    | Exited

  /** Where the producer stands. `InFrame(begun)` carries what begin_frame returned. */
  datatype ProducerAt =
    | BetweenFrames
    | BeginLook(surfaceChanging: bool)
    | BeginJoin
    | BeginLookAgain
    | PreparingHere        // begin_frame_impl
    | StoringHere(prepared: bool)
    | InFrame(begun: bool)
    | Joining(phase: Phase, begun: bool)
    | Recording(begun: bool)  // touches the recorded passes, under the renderer mutex
    | EndJoin
    | EndDraining
    | EndClearingSealed
    | EndClearingReady     // second store of the same critical section
    | StopJoin
    | Stopped

  datatype Flags = Flags(
    stop: bool, jobPending: bool, sealed: bool, ready: bool, framePrepared: bool, prepareAllowed: bool)

  /** The worker's own cycle: the latched overlap mode, slots still to encode, ImGui's debt. */
  datatype Cycle = Cycle(overlap: bool, slotsLeft: nat, imguiOwed: bool, prepared: bool)

  /** History: end_frame calls, and the frames sealed, encoded and published, in order. */
  datatype Log = Log(ended: nat, sealed: seq<int>, encoded: seq<int>, published: seq<int>)

  datatype State = State(producer: ProducerAt, worker: WorkerAt, flags: Flags, cycle: Cycle, log: Log)

  const MAX_INTERPOLATED_FRAMES := 3

  const INITIAL := State(BetweenFrames, Waiting, Flags(false, false, true, true, false, false),
                         Cycle(false, 0, false, false), Log(0, [], [], []))

  /** What the environment and the callers decide. */
  datatype Choice =
    | Proceed
    | Begin(surfaceChanging: bool)
    | Join(phase: Phase)
    | Record
    | End
    | Stop
    | Prepare(reachedRenderState: bool, succeeded: bool)
    | Seal(interpolatedFrames: nat, overlapRequested: bool)

  datatype Action = Producer(choice: Choice) | Worker(choice: Choice)

  predicate PhaseReached(s: State, phase: Phase) {
    if phase.Sealed? then s.flags.sealed else s.flags.ready
  }

  predicate WorkerHoldsLock(s: State) {
    s.worker.StoringReady?
  }

  predicate ProducerHoldsLock(s: State) {
    s.producer.EndClearingReady?
  }

  predicate ProducerHoldsRendererMutex(s: State) {
    s.producer.Recording?
  }

  // ---- Producer -------------------------------------------------------------------------------

  predicate ProducerEnabled(s: State, c: Choice) {
    match s.producer
    case BetweenFrames => c.Begin? || c.Stop?
    case InFrame(begun) =>
      (c.Begin? && !begun) || c.Join? || (c.Record? && begun && s.flags.sealed) || c.End? || c.Stop?
    case BeginLook(_) => c.Proceed? && !WorkerHoldsLock(s)
    case BeginJoin => c.Proceed? && s.flags.ready && !WorkerHoldsLock(s)
    case BeginLookAgain => c.Proceed? && !WorkerHoldsLock(s)
    case PreparingHere => c.Prepare? && (c.succeeded ==> c.reachedRenderState)
    case StoringHere(_) => c.Proceed? && !WorkerHoldsLock(s)
    case Joining(phase, _) => c.Proceed? && PhaseReached(s, phase)
    case Recording(_) => c.Proceed?
    case EndJoin => c.Proceed? && s.flags.ready
    case EndDraining => c.Proceed?
    case EndClearingSealed => c.Proceed? && !WorkerHoldsLock(s)
    case EndClearingReady => c.Proceed?
    case StopJoin => c.Proceed? && s.worker.Exited?
    case Stopped => false
  }

  function ProducerStep(s: State, c: Choice): State
    requires ProducerEnabled(s, c)
  {
    var f := s.flags;
    match s.producer
    case BetweenFrames => LeaveFrame(s, c, false)
    case InFrame(begun) => LeaveFrame(s, c, begun)
    case BeginLook(surfaceChanging) =>
      s.(flags := f.(prepareAllowed := f.prepareAllowed || !f.ready),
         producer := if f.ready && !f.framePrepared then BeginLookAgain
                     else if !f.ready && surfaceChanging then BeginJoin
                     else InFrame(true))
    case BeginJoin => s.(producer := InFrame(f.framePrepared))
    case BeginLookAgain => s.(producer := if f.framePrepared then InFrame(true) else PreparingHere)
    case PreparingHere => s.(producer := StoringHere(c.succeeded))
    case StoringHere(prepared) => s.(flags := f.(framePrepared := prepared), producer := InFrame(prepared))
    case Joining(_, begun) => s.(producer := InFrame(begun))
    case Recording(begun) => s.(producer := InFrame(begun))
    case EndJoin => s.(producer := EndDraining)
    case EndDraining => s.(producer := EndClearingSealed)
    case EndClearingSealed =>
      s.(flags := f.(framePrepared := false, sealed := false), producer := EndClearingReady)
    case EndClearingReady =>
      s.(flags := f.(ready := false, jobPending := true, prepareAllowed := false),
         log := s.log.(ended := s.log.ended + 1), producer := BetweenFrames)
    case StopJoin => s.(flags := f.(framePrepared := false), producer := Stopped)
    case Stopped => s
  }

  function LeaveFrame(s: State, c: Choice, begun: bool): State {
    s.(flags := if c.Stop? then s.flags.(stop := true, prepareAllowed := true) else s.flags,
       producer := match c
                   case Begin(changing) => BeginLook(changing)
                   case Join(phase) => Joining(phase, begun)
                   case Record => Recording(begun)
                   case Stop => StopJoin
                   case _ => EndJoin)
  }

  // ---- Worker -----------------------------------------------------------------------------------

  predicate WorkerEnabled(s: State, c: Choice) {
    match s.worker
    case Waiting => c.Proceed? && !ProducerHoldsLock(s) && (s.flags.stop || s.flags.jobPending)
    case Sealing =>
      c.Seal? && c.interpolatedFrames <= MAX_INTERPOLATED_FRAMES && !ProducerHoldsRendererMutex(s)
    case EncodingLocked => c.Proceed?
    case PublishingFirst => c.Proceed?
    case AwaitingPermission => c.Proceed? && !ProducerHoldsLock(s) && (s.flags.stop || s.flags.prepareAllowed)
    case Preparing =>
      c.Prepare? && (c.succeeded ==> c.reachedRenderState) && !ProducerHoldsRendererMutex(s)
    case StoringSealed => c.Proceed? && !ProducerHoldsLock(s)
    case StoringReady => c.Proceed?
    case Encoding => c.Proceed?
    case Publishing => c.Proceed?
    case RestartingImGui => c.Proceed? && !ProducerHoldsRendererMutex(s)
    case StoringDone => c.Proceed? && !ProducerHoldsLock(s)
    case Leaving => c.Proceed? && !ProducerHoldsLock(s)
    case Exited => false
  }

  function WorkerStep(s: State, c: Choice): State
    requires WorkerEnabled(s, c)
  {
    var f, y, frame := s.flags, s.cycle, s.log.ended - 1;
    match s.worker
    case Waiting =>
      s.(flags := f.(jobPending := f.jobPending && f.stop), worker := if f.stop then Leaving else Sealing)
    case Sealing =>
      var overlap := c.interpolatedFrames != 0 || c.overlapRequested;
      s.(cycle := Cycle(overlap, c.interpolatedFrames + 1, false, false),
         log := s.log.(sealed := s.log.sealed + [frame]),
         worker := if overlap then AwaitingPermission else EncodingLocked)
    case EncodingLocked => EncodeSlot(s, PublishingFirst)
    case PublishingFirst =>
      s.(log := s.log.(published := s.log.published + [frame]), worker := AwaitingPermission)
    case AwaitingPermission =>
      s.(flags := f.(prepareAllowed := f.stop && f.prepareAllowed), worker := if f.stop then Leaving else Preparing)
    case Preparing =>
      s.(cycle := y.(prepared := c.succeeded, imguiOwed := y.overlap && c.reachedRenderState), worker := StoringSealed)
    case StoringSealed =>
      s.(flags := f.(framePrepared := y.prepared, sealed := true),
         worker := if y.overlap then Encoding else StoringReady)
    case StoringReady => s.(flags := f.(ready := true), worker := Waiting)
    case Encoding => EncodeSlot(s, Publishing)
    case Publishing =>
      s.(log := s.log.(published := s.log.published + [frame]),
         worker := if y.imguiOwed then RestartingImGui else StoringDone)
    case RestartingImGui => s.(cycle := y.(imguiOwed := false), worker := StoringDone)
    case StoringDone => s.(flags := f.(ready := true), worker := Waiting)
    case Leaving => s.(flags := f.(sealed := true, ready := true), worker := Exited)
    case Exited => s
  }

  /** One presentation slot; the last one completes the frame's encode. */
  function EncodeSlot(s: State, next: WorkerAt): State {
    var last := s.cycle.slotsLeft <= 1;
    s.(cycle := s.cycle.(slotsLeft := if last then 0 else s.cycle.slotsLeft - 1),
       log := if last then s.log.(encoded := s.log.encoded + [s.log.ended - 1]) else s.log,
       worker := if last then next else s.worker)
  }

  // ---- Runs ---------------------------------------------------------------------------------------

  predicate Enabled(s: State, a: Action) {
    match a case Producer(c) => ProducerEnabled(s, c) case Worker(c) => WorkerEnabled(s, c)
  }

  function Step(s: State, a: Action): State
    requires Enabled(s, a)
  {
    match a case Producer(c) => ProducerStep(s, c) case Worker(c) => WorkerStep(s, c)
  }

  predicate Executable(s: State, run: seq<Action>)
    decreases |run|
  {
    run == [] || (Enabled(s, run[0]) && Executable(Step(s, run[0]), run[1..]))
  }

  function After(s: State, run: seq<Action>): State
    requires Executable(s, run)
    decreases |run|
  {
    if run == [] then s else After(Step(s, run[0]), run[1..])
  }

  ghost predicate Reachable(s: State) {
    exists run :: Executable(INITIAL, run) && After(INITIAL, run) == s
  }

  // ---- The invariant ------------------------------------------------------------------------------

  /** Frames 0 to n - 1, each once, in order. */
  function Frames(n: nat): seq<int> {
    seq(n, i => i)
  }

  /** After SEALED the worker is in these places only: none of them touches producer-shared state,
      except ImGui's restart, which holds the renderer mutex. */
  predicate PastSealed(w: WorkerAt) {
    w.StoringReady? || w.Encoding? || w.Publishing? || w.RestartingImGui? || w.StoringDone?
  }

  predicate BeforeSealed(w: WorkerAt) {
    BeforePermission(w) || w.Preparing? || w.StoringSealed?
  }

  predicate BeforePermission(w: WorkerAt) {
    w.Sealing? || w.EncodingLocked? || w.PublishingFirst? || w.AwaitingPermission?
  }

  predicate ProducerBegan(p: ProducerAt) {
    p.InFrame? || p.Joining? || p.Recording? || p.BeginJoin? || p.EndJoin?
  }

  predicate ProducerNeedsIdleWorker(p: ProducerAt) {
    || p.BeginLookAgain? || p.PreparingHere? || p.StoringHere?
    || p.EndDraining? || p.EndClearingSealed? || p.EndClearingReady?
  }

  ghost predicate FlagsAgree(s: State) {
    && (s.producer.EndClearingReady? ==> s.flags.ready && !s.flags.sealed)
    && (s.flags.ready && !s.producer.EndClearingReady? ==> s.flags.sealed)
    && (s.flags.ready ==> s.worker.Waiting? || s.worker.Leaving? || s.worker.Exited?)
    && (s.worker.Waiting? ==> (s.flags.ready <==> !s.flags.jobPending))
    && (s.flags.jobPending ==> s.worker.Waiting? || s.worker.Leaving? || s.worker.Exited?)
    && (BeforeSealed(s.worker) ==> !s.flags.sealed && !s.flags.ready)
    && (PastSealed(s.worker) ==> s.flags.sealed && !s.flags.ready && !s.flags.jobPending)
    && (s.worker.StoringReady? ==> !s.cycle.overlap)
    && (s.worker.Exited? ==> s.flags.sealed && s.flags.ready)
    && (s.flags.stop <==> s.producer.StopJoin? || s.producer.Stopped?)
    && (s.worker.Leaving? || s.worker.Exited? ==> s.flags.stop)
    && (s.flags.sealed && !s.flags.ready ==> PastSealed(s.worker))
  }

  ghost predicate ProducerAgrees(s: State) {
    && (ProducerNeedsIdleWorker(s.producer) ==> s.flags.ready && s.worker.Waiting?)
    && (s.producer.Recording? ==> s.flags.sealed)
    // begin_frame has given permission for the cycle the next end_frame will wait for
    && (ProducerBegan(s.producer) && !s.flags.sealed && !s.worker.Preparing? && !s.worker.StoringSealed?
        ==> s.flags.prepareAllowed)
    // end_frame withdrew the permission and handed over an idle worker
    && (s.producer.BetweenFrames? ==>
          !s.flags.prepareAllowed && (s.worker.Waiting? || BeforePermission(s.worker)))
  }

  ghost predicate SlotsAgree(s: State) {
    && s.cycle.slotsLeft <= MAX_INTERPOLATED_FRAMES + 1
    && (s.worker.EncodingLocked? || s.worker.Encoding? ==> s.cycle.slotsLeft > 0)
    && (s.worker.Waiting? || s.worker.Sealing? || s.worker.PublishingFirst? || s.worker.StoringReady?
        || s.worker.Publishing? || s.worker.RestartingImGui? || s.worker.StoringDone?
        ==> s.cycle.slotsLeft == 0)
    && (s.worker.AwaitingPermission? || s.worker.Preparing? || s.worker.StoringSealed?
        ==> (s.cycle.overlap <==> s.cycle.slotsLeft > 0))
    && (s.worker.Encoding? || s.worker.Publishing? || s.worker.RestartingImGui? ==> s.cycle.overlap)
    && (s.worker.EncodingLocked? || s.worker.PublishingFirst? ==> !s.cycle.overlap)
  }

  /** How many frames have passed each stage. */
  ghost predicate LogsAgree(s: State) {
    match s.worker
    case Waiting =>
      var n := if s.flags.jobPending then s.log.ended - 1 else s.log.ended;
      n >= 0 && s.log.sealed == s.log.encoded == s.log.published == Frames(n)
    case Sealing =>
      s.log.ended > 0 && s.log.sealed == s.log.encoded == s.log.published == Frames(s.log.ended - 1)
    case EncodingLocked => LogsAt(s, false, false)
    case PublishingFirst => LogsAt(s, true, false)
    case AwaitingPermission => LogsAt(s, !s.cycle.overlap, !s.cycle.overlap)
    case Preparing => LogsAt(s, !s.cycle.overlap, !s.cycle.overlap)
    case StoringSealed => LogsAt(s, !s.cycle.overlap, !s.cycle.overlap)
    case StoringReady => LogsAt(s, true, true)
    case Encoding => LogsAt(s, false, false)
    case Publishing => LogsAt(s, true, false)
    case RestartingImGui => LogsAt(s, true, true)
    case StoringDone => LogsAt(s, true, true)
    case Leaving => LogsArePrefixes(s)
    case Exited => LogsArePrefixes(s)
  }

  ghost predicate LogsAt(s: State, encoded: bool, published: bool) {
    && s.log.ended > 0
    && s.log.sealed == Frames(s.log.ended)
    && s.log.encoded == Frames(if encoded then s.log.ended else s.log.ended - 1)
    && s.log.published == Frames(if published then s.log.ended else s.log.ended - 1)
  }

  ghost predicate LogsArePrefixes(s: State) {
    && |s.log.published| <= |s.log.encoded| <= |s.log.sealed| <= s.log.ended <= |s.log.published| + 1
    && s.log.sealed == Frames(|s.log.sealed|)
    && s.log.encoded == Frames(|s.log.encoded|)
    && s.log.published == Frames(|s.log.published|)
  }

  ghost predicate Inv(s: State) {
    FlagsAgree(s) && ProducerAgrees(s) && SlotsAgree(s) && LogsAgree(s)
  }

  lemma AnotherFrame(n: nat)
    ensures Frames(n) + [n] == Frames(n + 1)
  {}

  lemma ProducerKeepsFlags(s: State, c: Choice)
    requires FlagsAgree(s) && ProducerAgrees(s) && ProducerEnabled(s, c)
    ensures FlagsAgree(ProducerStep(s, c)) && ProducerAgrees(ProducerStep(s, c))
  {}

  /** Only end_frame adds to the log, and it finds the worker idle. */
  lemma ProducerKeepsLogs(s: State, c: Choice)
    requires FlagsAgree(s) && ProducerAgrees(s) && LogsAgree(s) && ProducerEnabled(s, c)
    ensures LogsAgree(ProducerStep(s, c))
  {
    if s.producer.EndClearingReady? {
      assert s.worker.Waiting? && !s.flags.jobPending;
    } else {
      assert SameLog(s.log, ProducerStep(s, c).log);
    }
  }

  ghost predicate SameLog(a: Log, b: Log) {
    a.ended == b.ended && a.sealed == b.sealed && a.encoded == b.encoded && a.published == b.published
  }

  lemma ProducerKeepsSlots(s: State, c: Choice)
    requires SlotsAgree(s) && ProducerEnabled(s, c)
    ensures SlotsAgree(ProducerStep(s, c))
  {}

  lemma WorkerKeepsFlags(s: State, c: Choice)
    requires FlagsAgree(s) && ProducerAgrees(s) && SlotsAgree(s) && WorkerEnabled(s, c)
    ensures FlagsAgree(WorkerStep(s, c)) && ProducerAgrees(WorkerStep(s, c))
  {}

  lemma WorkerKeepsLogs(s: State, c: Choice)
    requires FlagsAgree(s) && SlotsAgree(s) && LogsAgree(s) && WorkerEnabled(s, c)
    ensures SlotsAgree(WorkerStep(s, c)) && LogsAgree(WorkerStep(s, c))
  {
    if s.log.ended > 0 {
      AnotherFrame(s.log.ended - 1);
    }
  }

  lemma StepKeepsInv(s: State, a: Action)
    requires Inv(s) && Enabled(s, a)
    ensures Inv(Step(s, a))
  {
    match a {
      case Producer(c) =>
        ProducerKeepsFlags(s, c);
        ProducerKeepsLogs(s, c);
        ProducerKeepsSlots(s, c);
      case Worker(c) =>
        WorkerKeepsFlags(s, c);
        WorkerKeepsLogs(s, c);
    }
  }

  lemma {:induction false} RunsKeepInv(s: State, run: seq<Action>)
    requires Inv(s) && Executable(s, run)
    ensures Inv(After(s, run))
    decreases |run|
  {
    if run != [] {
      StepKeepsInv(s, run[0]);
      RunsKeepInv(Step(s, run[0]), run[1..]);
    }
  }
}
