/** What every interleaving of the frame-worker handshake guarantees: order, exclusion and progress. */
module FrameWorkerTheorems {
  import opened FrameWorker

  lemma {:induction false} EveryRunKeepsInv(run: seq<Action>)
    requires Executable(INITIAL, run)
    ensures Inv(After(INITIAL, run))
  {
    assert Frames(0) == [];
    RunsKeepInv(INITIAL, run);
  }

  // ---- Order ------------------------------------------------------------------------------------

  /** Each end_frame is sealed, encoded and published once, in order; nothing is left over when the
      worker is idle, and never more than one frame is in flight. */
  lemma {:induction false} FramesInOrder(run: seq<Action>)
    requires Executable(INITIAL, run)
    ensures var s := After(INITIAL, run);
            && s.log.published <= s.log.encoded <= s.log.sealed <= Frames(s.log.ended)
            && s.log.ended <= |s.log.published| + 1
            && (s.flags.ready && !s.flags.stop ==> s.log.published == Frames(s.log.ended))
  {
    EveryRunKeepsInv(run);
  }

  // ---- Slots ------------------------------------------------------------------------------------

  /** One worker cycle as seen from outside: what its sealing step decided on, and the worker steps taken
      since in an encode phase, under the renderer mutex or beside the producer. */
  datatype Encode = Encode(interpolatedFrames: nat, overlapRequested: bool, locked: nat, beside: nat)

  function Observe(cycles: seq<Encode>, s: State, a: Action): seq<Encode>
    requires Enabled(s, a)
  {
    if a.Producer? then cycles
    else if s.worker.Sealing? then cycles + [Encode(a.choice.interpolatedFrames, a.choice.overlapRequested, 0, 0)]
    else if cycles == [] then cycles
    else
      var last := |cycles| - 1;
      if s.worker.EncodingLocked? then cycles[last := cycles[last].(locked := cycles[last].locked + 1)]
      else if s.worker.Encoding? then cycles[last := cycles[last].(beside := cycles[last].beside + 1)]
      else cycles
  }

  /** The worker's cycles over a run, read off its actions. */
  function Cycles(s: State, run: seq<Action>, before: seq<Encode>): seq<Encode>
    requires Executable(s, run)
    decreases |run|
  {
    if run == [] then before else Cycles(Step(s, run[0]), run[1..], Observe(before, s, run[0]))
  }

  /** An interpolating cycle always overlaps the producer's next frame. */
  predicate Overlaps(e: Encode) {
    e.interpolatedFrames != 0 || e.overlapRequested
  }

  /** All slots are encoded - one for each interpolated frame and the frame itself - and on the right side
      of the SEALED store. */
  predicate Complete(e: Encode) {
    if Overlaps(e) then e.beside == e.interpolatedFrames + 1 && e.locked == 0 else e.locked == 1 && e.beside == 0
  }

  ghost predicate CyclesAgree(s: State, cycles: seq<Encode>) {
    && |cycles| == |s.log.sealed| <= |s.log.encoded| + 1
    && |s.log.encoded| <= |cycles|
    && (forall k | 0 <= k < |s.log.encoded| :: Complete(cycles[k]))
    && (|cycles| > |s.log.encoded| ==>
          var last := cycles[|cycles| - 1];
          && s.cycle.slotsLeft > 0 && s.cycle.overlap == Overlaps(last)
          && last.locked + last.beside + s.cycle.slotsLeft == last.interpolatedFrames + 1
          && if Overlaps(last) then last.locked == 0 else last.beside == 0)
  }

  lemma StepKeepsCycles(s: State, a: Action, cycles: seq<Encode>)
    requires Inv(s) && Enabled(s, a) && CyclesAgree(s, cycles)
    ensures CyclesAgree(Step(s, a), Observe(cycles, s, a))
  {}

  lemma {:induction false} RunsKeepCycles(s: State, run: seq<Action>, cycles: seq<Encode>)
    requires Inv(s) && Executable(s, run) && CyclesAgree(s, cycles)
    ensures CyclesAgree(After(s, run), Cycles(s, run, cycles))
    decreases |run|
  {
    if run != [] {
      StepKeepsInv(s, run[0]);
      StepKeepsCycles(s, run[0], cycles);
      RunsKeepCycles(Step(s, run[0]), run[1..], Observe(cycles, s, run[0]));
    }
  }

  /** Every cycle seals one frame, and a frame counts as encoded only after exactly one step for each
      interpolated frame of its own cycle and one for the frame itself, all of them beside the producer
      when the cycle overlaps and under the mutex when not; it is published only then. */
  lemma {:induction false} EverySlotIsEncoded(run: seq<Action>)
    requires Executable(INITIAL, run)
    ensures var s, cycles := After(INITIAL, run), Cycles(INITIAL, run, []);
            && |cycles| == |s.log.sealed| && |s.log.published| <= |s.log.encoded| <= |cycles|
            && (forall k | 0 <= k < |cycles| :: k < |s.log.encoded| <==> Complete(cycles[k]))
  {
    EveryRunKeepsInv(run);
    assert Frames(0) == [];
    RunsKeepCycles(INITIAL, run, []);
  }

  // ---- ImGui ------------------------------------------------------------------------------------

  /** ImGui's next frame starts in begin_frame_impl once it reaches the render state, unless the worker
      runs it in an overlapping cycle; then it starts after the cycle is published. */
  predicate StartsImGui(s: State, a: Action) {
    match a
    case Producer(c) => s.producer.PreparingHere? && c.Prepare? && c.reachedRenderState
    case Worker(c) =>
      s.worker.RestartingImGui? || (s.worker.Preparing? && !s.cycle.overlap && c.Prepare? && c.reachedRenderState)
  }

  /** It starts only once every slot of every ended frame is encoded. */
  lemma {:induction false} ImGuiWaitsForEncode(run: seq<Action>, a: Action)
    requires Executable(INITIAL, run) && Enabled(After(INITIAL, run), a) && StartsImGui(After(INITIAL, run), a)
    ensures var s, cycles := After(INITIAL, run), Cycles(INITIAL, run, []);
            |cycles| == s.log.ended && forall k | 0 <= k < |cycles| :: Complete(cycles[k])
  {
    EveryRunKeepsInv(run);
    EverySlotIsEncoded(run);
  }

  predicate ReachesRenderState(s: State, a: Action) {
    match a
    case Producer(c) => s.producer.PreparingHere? && c.Prepare? && c.reachedRenderState
    case Worker(c) => s.worker.Preparing? && c.Prepare? && c.reachedRenderState
  }

  /** How often a kind of step is taken in a run. */
  function Count(s: State, run: seq<Action>, kind: (State, Action) -> bool): nat
    requires Executable(s, run)
    decreases |run|
  {
    if run == [] then 0 else (if kind(s, run[0]) then 1 else 0) + Count(Step(s, run[0]), run[1..], kind)
  }

  ghost predicate DebtAgrees(s: State) {
    && (s.worker.RestartingImGui? ==> s.cycle.imguiOwed)
    && (s.cycle.imguiOwed ==> s.cycle.overlap)
    && (s.cycle.imguiOwed ==>
          s.worker.StoringSealed? || s.worker.Encoding? || s.worker.Publishing? || s.worker.RestartingImGui?)
  }

  function Owed(s: State): nat {
    if s.cycle.imguiOwed then 1 else 0
  }

  lemma {:induction false} RunsKeepDebt(s: State, run: seq<Action>)
    requires Inv(s) && DebtAgrees(s) && Executable(s, run)
    ensures DebtAgrees(After(s, run))
    ensures Count(s, run, StartsImGui) + Owed(After(s, run)) == Count(s, run, ReachesRenderState) + Owed(s)
    decreases |run|
  {
    if run != [] {
      StepKeepsInv(s, run[0]);
      StepKeepsDebt(s, run[0]);
      RunsKeepDebt(Step(s, run[0]), run[1..]);
    }
  }

  lemma StepKeepsDebt(s: State, a: Action)
    requires Inv(s) && DebtAgrees(s) && Enabled(s, a)
    ensures DebtAgrees(Step(s, a))
    ensures (if StartsImGui(s, a) then 1 else 0) + Owed(Step(s, a))
            == (if ReachesRenderState(s, a) then 1 else 0) + Owed(s)
  {}

  /** No ImGui frame is lost or started twice: one for every begin_frame_impl that reached the render
      state, the last one owed until a running overlapping cycle is published. */
  lemma {:induction false} ImGuiStartsOnce(run: seq<Action>)
    requires Executable(INITIAL, run)
    ensures Count(INITIAL, run, StartsImGui) + Owed(After(INITIAL, run)) == Count(INITIAL, run, ReachesRenderState)
    ensures DebtAgrees(After(INITIAL, run))
  {
    assert Frames(0) == [];
    RunsKeepDebt(INITIAL, run);
  }

  // ---- Preparation --------------------------------------------------------------------------------

  /** Whether begin_frame_impl last succeeded, since the last end_frame handed its frame over. */
  function LastPrepared(s: State, run: seq<Action>, was: bool): bool
    requires Executable(s, run)
    decreases |run|
  {
    if run == [] then was else LastPrepared(Step(s, run[0]), run[1..], PreparedAfter(s, run[0], was))
  }

  function PreparedAfter(s: State, a: Action, was: bool): bool {
    match a
    case Producer(c) =>
      if s.producer.PreparingHere? && c.Prepare? then c.succeeded
      else was && !s.producer.EndClearingSealed? && !s.producer.StopJoin?
    case Worker(c) => if s.worker.Preparing? && c.Prepare? then c.succeeded else was
  }

  ghost predicate PreparedAgrees(s: State, last: bool) {
    if s.producer.StoringHere? then s.producer.prepared == last
    else if s.worker.StoringSealed? then s.cycle.prepared == last
    else s.flags.framePrepared == last
  }

  lemma {:induction false} RunsKeepPrepared(s: State, run: seq<Action>, last: bool)
    requires Inv(s) && PreparedAgrees(s, last) && Executable(s, run)
    ensures PreparedAgrees(After(s, run), LastPrepared(s, run, last))
    decreases |run|
  {
    if run != [] {
      StepKeepsInv(s, run[0]);
      StepKeepsPrepared(s, run[0], last);
      RunsKeepPrepared(Step(s, run[0]), run[1..], PreparedAfter(s, run[0], last));
    }
  }

  lemma StepKeepsPrepared(s: State, a: Action, last: bool)
    requires Inv(s) && PreparedAgrees(s, last) && Enabled(s, a)
    ensures PreparedAgrees(Step(s, a), PreparedAfter(s, a, last))
  {}

  predicate Beginning(p: ProducerAt) {
    p.BeginLook? || p.BeginJoin? || p.BeginLookAgain? || p.StoringHere?
  }

  /** begin_frame's first look decides at once exactly when the worker is busy and the surface is not
      changing, or when the worker is done and has prepared the frame. */
  lemma {:induction false} BeginDecidesAtOnce(run: seq<Action>, c: Choice)
    requires Executable(INITIAL, run) && ProducerEnabled(After(INITIAL, run), c)
    requires After(INITIAL, run).producer.BeginLook?
    ensures var s := After(INITIAL, run);
            ProducerStep(s, c).producer.InFrame?
            <==> if s.flags.ready then LastPrepared(INITIAL, run, false) else !s.producer.surfaceChanging
  {
    EveryRunKeepsInv(run);
    assert Frames(0) == [];
    RunsKeepPrepared(INITIAL, run, false);
  }

  /** begin_frame answers true without waiting exactly when the worker is still busy and the surface is
      not changing, and then it has given the worker its permission; otherwise it answers whether
      begin_frame_impl, on whichever thread it ran, succeeded. */
  lemma {:induction false} BeginReportsPreparation(run: seq<Action>, a: Action)
    requires Executable(INITIAL, run) && Enabled(After(INITIAL, run), a) && a.Producer?
    requires Beginning(After(INITIAL, run).producer) && Step(After(INITIAL, run), a).producer.InFrame?
    ensures var s, s' := After(INITIAL, run), Step(After(INITIAL, run), a);
            if s.producer.BeginLook? && !s.flags.ready
            then s'.producer.begun && !s.producer.surfaceChanging && s'.flags.prepareAllowed
            else s'.producer.begun == LastPrepared(INITIAL, run, false)
  {
    EveryRunKeepsInv(run);
    assert Frames(0) == [];
    RunsKeepPrepared(INITIAL, run, false);
  }

  // ---- Exclusion ----------------------------------------------------------------------------------

  predicate ProducerPrepares(p: ProducerAt) {
    p.PreparingHere? || p.StoringHere?
  }

  /** READY means sealed and an idle worker, begin_frame_impl runs on one thread at a time, and the
      producer records only beside a worker that has left the shared renderer state alone. READY
      outlives SEALED exactly between the two stores of end_frame. */
  lemma {:induction false} Exclusion(run: seq<Action>)
    requires Executable(INITIAL, run)
    ensures var s := After(INITIAL, run);
            && (s.flags.ready && !s.flags.sealed <==> s.producer.EndClearingReady?)
            && (s.flags.ready ==> (s.worker.Waiting? && !s.flags.jobPending) || s.worker.Leaving? || s.worker.Exited?)
            && !(ProducerPrepares(s.producer) && s.worker.Preparing?)
            && (ProducerHoldsRendererMutex(s) ==> !BeforeSealed(s.worker))
            && (s.flags.sealed && !s.flags.ready ==> PastSealed(s.worker))
  {
    EveryRunKeepsInv(run);
  }

  /** A join for SEALED returns exactly when the worker has left the shared renderer state alone, one for
      DONE exactly when it is idle or gone with every frame published. */
  lemma {:induction false} JoinsMean(run: seq<Action>, phase: Phase)
    requires Executable(INITIAL, run) && After(INITIAL, run).producer == Joining(phase, true)
    ensures var s := After(INITIAL, run);
            && (ProducerEnabled(s, Proceed) <==> if phase == Sealed then s.flags.sealed else s.flags.ready)
            && (ProducerEnabled(s, Proceed) ==> !BeforeSealed(s.worker))
            && (ProducerEnabled(s, Proceed) && phase == Done ==>
                  s.worker.Waiting? && s.log.published == Frames(s.log.ended))
  {
    EveryRunKeepsInv(run);
  }

  predicate TakesWorkerLock(w: WorkerAt) {
    w.Waiting? || w.AwaitingPermission? || w.StoringSealed? || w.StoringDone? || w.Leaving?
  }

  /** Neither thread steps into a critical section while the other is between its two stores, nor into a
      renderer section while the producer records; outside the callers' and the environment's choices
      there is only one way to go on. */
  lemma {:induction false} SectionsExclude(s: State, c: Choice)
    ensures s.worker.StoringReady? && (Beginning(s.producer) || s.producer.EndClearingSealed?)
            ==> !ProducerEnabled(s, c)
    ensures s.producer.EndClearingReady? && TakesWorkerLock(s.worker) ==> !WorkerEnabled(s, c)
    ensures s.producer.Recording? && (s.worker.Sealing? || s.worker.Preparing? || s.worker.RestartingImGui?)
            ==> !WorkerEnabled(s, c)
    ensures ProducerEnabled(s, c) && !s.producer.BetweenFrames? && !s.producer.InFrame? && !s.producer.PreparingHere?
            ==> c == Proceed
    ensures WorkerEnabled(s, c) && !s.worker.Sealing? && !s.worker.Preparing? ==> c == Proceed
    ensures s.worker.Sealing? && !s.producer.Recording? && c.Seal?
            ==> (WorkerEnabled(s, c) <==> c.interpolatedFrames <= 3)
    ensures s.producer == InFrame(false) ==> ProducerEnabled(s, Begin(true)) && ProducerEnabled(s, Begin(false))
  {}

  // ---- Progress -------------------------------------------------------------------------------------

  /** The producer waits: whatever its environment chooses, it cannot take a step. */
  ghost predicate Blocked(s: State) {
    !s.producer.Stopped? && forall c :: !ProducerEnabled(s, c)
  }

  /** An upper bound on the worker's remaining steps in its cycle. */
  function Rank(s: State): nat {
    match s.worker
    case Exited => 0
    case Leaving => 1
    case Waiting => if s.flags.jobPending then 40 else 2
    case StoringDone => 3
    case RestartingImGui => 4
    case Publishing => 5
    case Encoding => 5 + s.cycle.slotsLeft
    case StoringReady => 10
    case StoringSealed => 16
    case Preparing => 17
    case AwaitingPermission => 18
    case PublishingFirst => 20
    case EncodingLocked => 20 + s.cycle.slotsLeft
    case Sealing => 39
  }

  function SomeChoice(w: WorkerAt): Choice {
    match w
    case Sealing => Seal(0, false)
    case Preparing => Prepare(true, true)
    case _ => Proceed
  }

  /** A waiting producer waits for a phase or the exit, or for a lock the worker is about to release. */
  lemma BlockedMeans(s: State)
    requires Blocked(s)
    ensures match s.producer
            case Joining(phase, _) => !PhaseReached(s, phase)
            case BeginJoin => !s.flags.ready || WorkerHoldsLock(s)
            case EndJoin => !s.flags.ready
            case StopJoin => !s.worker.Exited?
            case BetweenFrames => false
            case InFrame(_) => false
            case PreparingHere => false
            case _ => WorkerHoldsLock(s)
  {
    assert !ProducerEnabled(s, Proceed) && !ProducerEnabled(s, Begin(false)) && !ProducerEnabled(s, Stop);
    assert !ProducerEnabled(s, Prepare(true, true));
  }

  lemma WorkerCanMove(s: State)
    requires Inv(s) && Blocked(s)
    ensures WorkerEnabled(s, SomeChoice(s.worker))
  {
    BlockedMeans(s);
  }

  lemma WorkerStepsRankDown(s: State, c: Choice)
    requires Inv(s) && WorkerEnabled(s, c)
    ensures Rank(WorkerStep(s, c)) < Rank(s)
  {}

  function WorkerRun(choices: seq<Choice>): seq<Action> {
    seq(|choices|, i requires 0 <= i < |choices| => Worker(choices[i]))
  }

  lemma {:induction false} FirstWorkerStep(s: State, choices: seq<Choice>)
    requires Inv(s) && choices != [] && Executable(s, WorkerRun(choices))
    ensures WorkerEnabled(s, choices[0]) && Inv(WorkerStep(s, choices[0]))
    ensures Executable(WorkerStep(s, choices[0]), WorkerRun(choices[1..]))
    ensures After(s, WorkerRun(choices)) == After(WorkerStep(s, choices[0]), WorkerRun(choices[1..]))
  {
    var run := WorkerRun(choices);
    assert run[0] == Worker(choices[0]) && run[1..] == WorkerRun(choices[1..]);
    WorkerKeepsFlags(s, choices[0]);
    WorkerKeepsLogs(s, choices[0]);
  }

  /** No join hangs. Whatever the worker does while the producer waits, it can always go on, and
      after at most Rank(s) steps the producer is free. It covers both phases, both overlap modes,
      begin_frame's surface join, end_frame and stop_frame_worker. */
  lemma {:induction false} WaitsEnd(s: State, choices: seq<Choice>)
    requires Inv(s) && Executable(s, WorkerRun(choices))
    ensures Inv(After(s, WorkerRun(choices)))
    ensures |choices| <= Rank(s)
    ensures Blocked(After(s, WorkerRun(choices))) ==>
              exists c :: WorkerEnabled(After(s, WorkerRun(choices)), c)
    decreases |choices|
  {
    if choices == [] {
      if Blocked(s) {
        WorkerCanMove(s);
      }
    } else {
      FirstWorkerStep(s, choices);
      WorkerStepsRankDown(s, choices[0]);
      WaitsEnd(WorkerStep(s, choices[0]), choices[1..]);
    }
  }

  /** After stop_frame_worker returns both phases are released and the worker is gone. */
  lemma {:induction false} StopReleasesEveryone(run: seq<Action>)
    requires Executable(INITIAL, run) && After(INITIAL, run).producer.StopJoin?
    requires ProducerEnabled(After(INITIAL, run), Proceed)
    ensures var s := ProducerStep(After(INITIAL, run), Proceed);
            && s.producer.Stopped? && s.worker.Exited?
            && s.flags.sealed && s.flags.ready && !s.flags.framePrepared
            && forall a :: !Enabled(s, a)
  {
    EveryRunKeepsInv(run);
  }

  /** After a stop request the worker takes no new job and starts no new frame. */
  lemma {:induction false} StopStartsNothing(s: State, c: Choice)
    requires s.flags.stop && WorkerEnabled(s, c)
    ensures var w := WorkerStep(s, c).worker; w != s.worker ==> !w.Sealing? && !w.Preparing?
    ensures s.worker.Waiting? || s.worker.AwaitingPermission? ==> WorkerStep(s, c).worker.Leaving?
  {}

  // ---- The circular wait ------------------------------------------------------------------------------

  /** Between end_frame and begin_frame a join on either phase returns exactly when the worker is
      already done: otherwise no number of worker steps publishes anything, and the worker ends up
      waiting for the permission only begin_frame gives. */
  lemma {:induction false} JoinBetweenFrames(s: State, choices: seq<Choice>)
    requires Inv(s) && s.producer.BetweenFrames? && Executable(s, WorkerRun(choices))
    ensures var s' := After(s, WorkerRun(choices));
            && s'.producer.BetweenFrames?
            && (s'.flags.sealed <==> s.flags.ready) && (s'.flags.ready <==> s.flags.ready)
            && (!s.flags.ready && !WorkerEnabled(s', SomeChoice(s'.worker)) ==> s'.worker.AwaitingPermission?)
    decreases |choices|
  {
    if choices != [] {
      FirstWorkerStep(s, choices);
      JoinBetweenFrames(WorkerStep(s, choices[0]), choices[1..]);
    }
  }

  lemma {:induction false} Append(s: State, run: seq<Action>, a: Action)
    requires Executable(s, run) && Enabled(After(s, run), a)
    ensures Executable(s, run + [a]) && After(s, run + [a]) == Step(After(s, run), a)
    decreases |run|
  {
    if run == [] {
      assert run + [a] == [a];
      assert Executable(Step(s, a), []);
    } else {
      assert (run + [a])[0] == run[0] && (run + [a])[1..] == run[1..] + [a];
      Append(Step(s, run[0]), run[1..], a);
    }
  }

  lemma ReachableStep(s: State, a: Action)
    requires Reachable(s) && Enabled(s, a)
    ensures Reachable(Step(s, a))
  {
    var run :| Executable(INITIAL, run) && After(INITIAL, run) == s;
    Append(INITIAL, run, a);
  }

  const BEGUN := State(InFrame(true), Waiting, Flags(false, false, true, true, true, false),
                       Cycle(false, 0, false, false), Log(0, [], [], []))

  const CLEARING := State(EndClearingReady, Waiting, Flags(false, false, false, true, false, false),
                          Cycle(false, 0, false, false), Log(0, [], [], []))

  const ENDED := State(BetweenFrames, Waiting, Flags(false, true, false, false, false, false),
                       Cycle(false, 0, false, false), Log(1, [], [], []))

  lemma FirstBegin()
    ensures Reachable(BEGUN)
  {
    assert Executable(INITIAL, []) && After(INITIAL, []) == INITIAL;
    ReachableStep(INITIAL, Producer(Begin(false)));
    var s := INITIAL.(producer := BeginLook(false));
    ReachableStep(s, Producer(Proceed));
    s := s.(producer := BeginLookAgain);
    ReachableStep(s, Producer(Proceed));
    s := s.(producer := PreparingHere);
    ReachableStep(s, Producer(Prepare(true, true)));
    s := ProducerStep(s, Prepare(true, true));
    ReachableStep(s, Producer(Proceed));
  }

  /** That moment is reached: the first end_frame passes through it. */
  lemma ReadyOutlivesSealed()
    ensures exists s :: Reachable(s) && s.flags.ready && !s.flags.sealed
  {
    FirstClearing();
    assert Reachable(CLEARING) && CLEARING.flags.ready && !CLEARING.flags.sealed;
  }

  lemma FirstClearing()
    ensures Reachable(CLEARING)
  {
    FirstBegin();
    ReachableStep(BEGUN, Producer(End));
    var s := BEGUN.(producer := EndJoin);
    ReachableStep(s, Producer(Proceed));
    s := s.(producer := EndDraining);
    ReachableStep(s, Producer(Proceed));
    s := s.(producer := EndClearingSealed);
    ReachableStep(s, Producer(Proceed));
  }

  lemma FirstEnd()
    ensures Reachable(ENDED)
  {
    FirstClearing();
    ReachableStep(CLEARING, Producer(Proceed));
  }

  /** That circular wait is real: one begun and ended frame leads to it. */
  lemma CircularWaitHappens()
    ensures exists s :: Reachable(s) && s.producer.BetweenFrames? && s.worker.AwaitingPermission?
                        && !s.flags.sealed && !s.flags.ready && forall c :: !WorkerEnabled(s, c)
  {
    FirstEnd();
    ReachableStep(ENDED, Worker(Proceed));
    var s := WorkerStep(ENDED, Proceed);
    ReachableStep(s, Worker(Seal(0, true)));
    s := WorkerStep(s, Seal(0, true));
    assert Reachable(s) && s.worker.AwaitingPermission?;
  }
}
