/** The presentation queue between encode and the presenter thread, one step per critical section,
    and the pools of images its jobs refer to. */
module Presenter {

  const MAX_INTERPOLATED_FRAMES := 3

  /** What is left of an enqueued job: it was handed to Present, or dropped as stale. */
  datatype Fate<Job> = Attempted(job: Job) | Dropped(job: Job)

  /** `settled` is the history of jobs that left the queue, in order; `enqueued` of all that entered. */
  datatype State<Job> = State(
    started: bool, stop: bool, exited: bool, presenting: bool, jobs: seq<Job>,
    enqueued: seq<Job>, settled: seq<Fate<Job>>)

  datatype Action<Job> = Enqueue(group: seq<Job>) | Take | Finish | RequestStop | Exit | Join

  predicate Enabled<Job>(s: State<Job>, a: Action<Job>) {
    match a
    case Enqueue(_) => true
    case Take => s.started && !s.exited && !s.presenting && s.jobs != []
    case Finish => s.presenting
    case RequestStop => s.started
    case Exit => s.started && !s.exited && !s.presenting && s.stop && s.jobs == []
    case Join => s.exited && s.stop
  }

  function Bound(group: nat): nat {
    if 2 * (MAX_INTERPOLATED_FRAMES + 1) >= 3 * group then 2 * (MAX_INTERPOLATED_FRAMES + 1) else 3 * group
  }

  function AllDropped<Job>(jobs: seq<Job>): seq<Fate<Job>> {
    seq(|jobs|, i requires 0 <= i < |jobs| => Dropped(jobs[i]))
  }

  /** The producer hands over a group: it starts the presenter, is ignored once a stop is requested,
      and clears stale jobs first when the queue would pass its bound. */
  function Enqueued<Job>(s: State<Job>, group: seq<Job>): State<Job> {
    var begun := if s.started then s else s.(started := true, stop := false, exited := false, presenting := false);
    if begun.stop then begun
    else
      var full := |begun.jobs| + |group| > Bound(|group|);
      begun.(jobs := (if full then [] else begun.jobs) + group, enqueued := begun.enqueued + group,
             settled := if full then begun.settled + AllDropped(begun.jobs) else begun.settled)
  }

  function Step<Job>(s: State<Job>, a: Action<Job>): State<Job>
    requires Enabled(s, a)
  {
    match a
    case Enqueue(group) => Enqueued(s, group)
    case Take => s.(jobs := s.jobs[1..], settled := s.settled + [Attempted(s.jobs[0])], presenting := true)
    case Finish => s.(presenting := false)
    case RequestStop => s.(stop := true)
    case Exit => s.(exited := true)
    case Join => s.(jobs := [], started := false, presenting := false)
  }

  predicate Executable<Job>(s: State<Job>, run: seq<Action<Job>>)
    decreases |run|
  {
    run == [] || (Enabled(s, run[0]) && Executable(Step(s, run[0]), run[1..]))
  }

  function After<Job>(s: State<Job>, run: seq<Action<Job>>): State<Job>
    requires Executable(s, run)
    decreases |run|
  {
    if run == [] then s else After(Step(s, run[0]), run[1..])
  }

  lemma {:induction false} OneMoreStep<Job>(s: State<Job>, run: seq<Action<Job>>, a: Action<Job>)
    requires Executable(s, run) && Enabled(After(s, run), a)
    ensures Executable(s, run + [a]) && After(s, run + [a]) == Step(After(s, run), a)
    decreases |run|
  {
    if run == [] {
      assert run + [a] == [a] && Executable(Step(s, a), []);
    } else {
      assert (run + [a])[0] == run[0] && (run + [a])[1..] == run[1..] + [a];
      OneMoreStep(Step(s, run[0]), run[1..], a);
    }
  }

  function Initial<Job>(): State<Job> {
    State(false, false, false, false, [], [], [])
  }

  // ---- Conservation ---------------------------------------------------------------------------------------

  function JobsOf<Job>(fates: seq<Fate<Job>>): (r: seq<Job>)
    ensures |r| == |fates|
  {
    seq(|fates|, i requires 0 <= i < |fates| => fates[i].job)
  }

  function AttemptedOf<Job>(fates: seq<Fate<Job>>): seq<Job> {
    if fates == [] then []
    else
      var last := fates[|fates| - 1];
      AttemptedOf(fates[..|fates| - 1]) + if last.Attempted? then [last.job] else []
  }

  function DroppedCount<Job>(fates: seq<Fate<Job>>): nat {
    if fates == [] then 0 else DroppedCount(fates[..|fates| - 1]) + if fates[|fates| - 1].Dropped? then 1 else 0
  }

  predicate Inv<Job(==)>(s: State<Job>) {
    && s.enqueued == JobsOf(s.settled) + s.jobs
    && (s.presenting ==> s.started && !s.exited)
    && (s.exited && s.started ==> s.stop && s.jobs == [])
    && (!s.started ==> s.jobs == [])
  }

  lemma StepKeepsInv<Job>(s: State<Job>, a: Action<Job>)
    requires Inv(s) && Enabled(s, a)
    ensures Inv(Step(s, a))
  {
    match a {
      case Enqueue(group) =>
        assert JobsOf(s.settled + AllDropped(s.jobs)) == JobsOf(s.settled) + s.jobs;
        assert (JobsOf(s.settled) + s.jobs) + group == JobsOf(s.settled) + (s.jobs + group);
        assert [] + group == group;
      case Take =>
        assert JobsOf(s.settled + [Attempted(s.jobs[0])]) == JobsOf(s.settled) + [s.jobs[0]];
        assert s.jobs == [s.jobs[0]] + s.jobs[1..];
      case _ =>
    }
  }

  lemma {:induction false} RunKeepsInv<Job>(s: State<Job>, run: seq<Action<Job>>)
    requires Inv(s) && Executable(s, run)
    ensures Inv(After(s, run))
    decreases |run|
  {
    if run != [] {
      StepKeepsInv(s, run[0]);
      RunKeepsInv(Step(s, run[0]), run[1..]);
    }
  }

  lemma {:induction false} FatesAddUp<Job>(fates: seq<Fate<Job>>)
    ensures |AttemptedOf(fates)| + DroppedCount(fates) == |fates|
  {
    if fates != [] {
      FatesAddUp(fates[..|fates| - 1]);
    }
  }

  /** Over every run each enqueued job was attempted, dropped, or is still queued, and they were
      settled in the order they came. */
  lemma {:induction false} Conservation<Job>(run: seq<Action<Job>>)
    requires Executable(Initial(), run)
    ensures var s := After(Initial(), run);
            && s.enqueued == JobsOf(s.settled) + s.jobs
            && |s.enqueued| == |AttemptedOf(s.settled)| + DroppedCount(s.settled) + |s.jobs|
  {
    RunKeepsInv(Initial<Job>(), run);
    FatesAddUp(After(Initial(), run).settled);
  }

  /** Strictly increasing positions of `sub` in `all`. */
  ghost predicate Embeds<Job>(sub: seq<Job>, all: seq<Job>, at: seq<nat>) {
    && |at| == |sub|
    && (forall i | 0 <= i < |sub| :: at[i] < |all| && all[at[i]] == sub[i])
    && (forall i, j | 0 <= i < j < |at| :: at[i] < at[j])
  }

  ghost predicate InOrderOf<Job>(sub: seq<Job>, all: seq<Job>) {
    exists at: seq<nat> :: Embeds(sub, all, at)
  }

  lemma {:induction false} AttemptsEmbed<Job>(fates: seq<Fate<Job>>) returns (at: seq<nat>)
    ensures Embeds(AttemptedOf(fates), JobsOf(fates), at)
  {
    if fates == [] {
      return [];
    }
    var earlier := fates[..|fates| - 1];
    at := AttemptsEmbed(earlier);
    assert JobsOf(fates)[..|fates| - 1] == JobsOf(earlier);
    if fates[|fates| - 1].Attempted? {
      at := at + [|fates| - 1];
    }
  }

  /** Jobs reach Present in the order they were enqueued, none twice. */
  lemma {:induction false} AttemptsAreInOrder<Job>(run: seq<Action<Job>>)
    requires Executable(Initial(), run)
    ensures InOrderOf(AttemptedOf(After(Initial(), run).settled), After(Initial(), run).enqueued)
  {
    RunKeepsInv(Initial<Job>(), run);
    var s := After(Initial(), run);
    var at := AttemptsEmbed(s.settled);
    forall i | 0 <= i < |at| ensures at[i] < |s.enqueued| && s.enqueued[at[i]] == AttemptedOf(s.settled)[i] {
      assert JobsOf(s.settled)[at[i]] == s.enqueued[at[i]];
    }
    assert Embeds(AttemptedOf(s.settled), s.enqueued, at);
  }

  // ---- Bound and whole groups --------------------------------------------------------------------------------

  /** An accepted group is queued whole; stale jobs are dropped, all of them, only when keeping them
      would pass the larger of eight jobs and three groups; and the queue then never exceeds that. */
  lemma GroupsStayWhole<Job>(s: State<Job>, group: seq<Job>)
    requires Inv(s)
    ensures var now := Enqueued(s, group);
            var fits := |s.jobs| + |group| <= 8 || |s.jobs| + |group| <= 3 * |group|;
            if s.started && s.stop then now == s
            else && now.jobs == (if fits then s.jobs else []) + group
                 && now.settled == s.settled + (if fits then [] else AllDropped(s.jobs))
                 && (|now.jobs| <= 8 || |now.jobs| <= 3 * |group|)
                 && now.started && !now.stop && (!s.started ==> !now.exited && !now.presenting)
  {
    assert s.settled + [] == s.settled;
  }

  /** The largest group a run hands over. */
  function Largest<Job>(run: seq<Action<Job>>): nat {
    if run == [] then 0
    else
      var rest := Largest(run[1..]);
      if run[0].Enqueue? && |run[0].group| > rest then |run[0].group| else rest
  }

  lemma BoundMono(a: nat, b: nat)
    requires a <= b
    ensures Bound(a) <= Bound(b)
  {}

  lemma {:induction false} RunStaysBounded<Job>(s: State<Job>, run: seq<Action<Job>>, largest: nat)
    requires Inv(s) && Executable(s, run) && Largest(run) <= largest && |s.jobs| <= Bound(largest)
    ensures |After(s, run).jobs| <= Bound(largest)
    decreases |run|
  {
    if run != [] {
      if run[0].Enqueue? {
        GroupsStayWhole(s, run[0].group);
        BoundMono(|run[0].group|, largest);
      }
      StepKeepsInv(s, run[0]);
      RunStaysBounded(Step(s, run[0]), run[1..], largest);
    }
  }

  /** Over every run the queue never holds more than the bound of the largest group handed over, and an
      accepted group is its whole last stretch. */
  lemma {:induction false} QueueStaysBounded<Job>(run: seq<Action<Job>>, group: seq<Job>)
    requires Executable(Initial(), run)
    ensures var s := After(Initial(), run);
            && (|s.jobs| <= 8 || |s.jobs| <= 3 * Largest(run))
            && (!(s.started && s.stop) ==>
                  var jobs := Enqueued(s, group).jobs;
                  |group| <= |jobs| && jobs[|jobs| - |group|..] == group)
  {
    RunKeepsInv(Initial<Job>(), run);
    RunStaysBounded(Initial<Job>(), run, Largest(run));
    GroupsStayWhole(After(Initial(), run), group);
  }

  // ---- Stopping -----------------------------------------------------------------------------------------------

  lemma {:induction false} AttemptedAfter<Job>(a: seq<Fate<Job>>, job: Job)
    ensures AttemptedOf(a + [Attempted(job)]) == AttemptedOf(a) + [job]
  {
    assert (a + [Attempted(job)])[..|a|] == a;
  }

  /** Once a stop is requested nothing is dropped: until the presenter has exited and been joined, the
      jobs that were queued are attempted one after another, and it exits only when none is left. */
  lemma {:induction false} StopDrains<Job>(s: State<Job>, run: seq<Action<Job>>)
    requires Inv(s) && s.started && s.stop && Executable(s, run) && Join !in run
    ensures var t := After(s, run);
            && t.started && t.stop && |t.jobs| <= |s.jobs|
            && AttemptedOf(t.settled) + t.jobs == AttemptedOf(s.settled) + s.jobs
            && (t.exited ==> AttemptedOf(t.settled) == AttemptedOf(s.settled) + s.jobs)
    decreases |run|
  {
    if run != [] {
      StepKeepsInv(s, run[0]);
      assert Join !in run[1..];
      if run[0].Take? {
        AttemptedAfter(s.settled, s.jobs[0]);
        assert AttemptedOf(s.settled) + s.jobs == AttemptedOf(s.settled) + [s.jobs[0]] + s.jobs[1..];
      }
      StopDrains(Step(s, run[0]), run[1..]);
    }
    RunKeepsInv(s, run);
  }

  /** A stopping presenter is never stuck: it has an image on screen, a job to take, or it exits. */
  lemma StopProgresses<Job>(s: State<Job>)
    requires Inv(s) && s.started && s.stop && !s.exited
    ensures Enabled(s, Finish) || Enabled(s, Take) || Enabled(s, Exit)
  {}

  predicate PresenterStep<Job>(a: Action<Job>) {
    a.Take? || a.Finish? || a.Exit?
  }

  /** So a stop request's join comes to an end: within two steps of the presenter for each queued job, one
      for the image on screen and one to leave, every queued job has been attempted and the join returns,
      leaving no presenter behind. */
  lemma {:induction false} StopEnds<Job>(s: State<Job>) returns (run: seq<Action<Job>>)
    requires Inv(s) && s.started && s.stop
    ensures Executable(s, run) && |run| <= 2 * |s.jobs| + (if s.presenting then 2 else 1)
    ensures (s.exited ==> run == []) && forall a | a in run :: PresenterStep(a)
    ensures Enabled(After(s, run), Join) && AttemptedOf(After(s, run).settled) == AttemptedOf(s.settled) + s.jobs
    ensures var t := Step(After(s, run), Join);
            !t.started && !t.presenting && t.jobs == [] && t.settled == After(s, run).settled
    decreases |s.jobs|, s.presenting, !s.exited
  {
    if s.exited {
      run := [];
      assert s.jobs == [] && AttemptedOf(s.settled) + s.jobs == AttemptedOf(s.settled);
      return;
    }
    StopProgresses(s);
    var a: Action<Job> := if s.presenting then Finish else if s.jobs != [] then Take else Exit;
    StepKeepsInv(s, a);
    var s' := Step(s, a);
    if a.Take? {
      AttemptedAfter(s.settled, s.jobs[0]);
      assert AttemptedOf(s.settled) + s.jobs == AttemptedOf(s.settled) + [s.jobs[0]] + s.jobs[1..];
    }
    assert AttemptedOf(s'.settled) + s'.jobs == AttemptedOf(s.settled) + s.jobs;
    var rest := StopEnds(s');
    run := [a] + rest;
    assert run[0] == a && run[1..] == rest;
    assert After(s, run) == After(s', rest);
  }

  // ---- The queue as it runs --------------------------------------------------------------------------------------

  /** The presenter's shared state; each method is one critical section. */
  class Queue<Job(==)> {
    var started: bool
    var stop: bool
    var presenting: bool
    var jobs: seq<Job>
    ghost var model: State<Job>

    ghost predicate Valid()
      reads this
    {
      && Inv(model) && model.started == started && model.stop == stop && model.presenting == presenting
      && model.jobs == jobs
    }

    constructor ()
      ensures Valid() && model == Initial()
    {
      started, stop, presenting, jobs, model := false, false, false, [], Initial();
    }

    method Enqueue(group: seq<Job>)
      requires Valid()
      modifies this
      ensures Valid() && model == Step(old(model), Action.Enqueue(group))
    {
      StepKeepsInv(model, Action.Enqueue(group));
      model := Step(model, Action.Enqueue(group));
      if !started {
        started, stop, presenting := true, false, false;
      }
      var maximumQueuedJobs := Bound(|group|);
      if stop {
        return;
      }
      if |jobs| + |group| > maximumQueuedJobs {
        jobs := [];
      }
      ghost var kept := jobs;
      for i := 0 to |group|
        invariant jobs == kept + group[..i] && started && !stop && presenting == model.presenting && model.started
        invariant Inv(model) && model.jobs == kept + group && !model.stop && model == Step(old(model), Action.Enqueue(group))
      {
        jobs := jobs + [group[i]];
      }
      assert group[..|group|] == group;
    }

    /** The presenter takes the oldest job; None means it exits. */
    method TakeNext() returns (job: seq<Job>)
      requires Valid() && started && !model.exited && !presenting && (stop || jobs != [])
      modifies this
      ensures Valid()
      ensures if old(jobs) == [] then job == [] && model == Step(old(model), Exit)
              else job == [old(jobs)[0]] && model == Step(old(model), Take)
    {
      if stop && jobs == [] {
        StepKeepsInv(model, Exit);
        model := Step(model, Exit);
        return [];
      }
      StepKeepsInv(model, Take);
      model := Step(model, Take);
      job := [jobs[0]];
      jobs := jobs[1..];
      presenting := true;
    }

    method FinishPresent()
      requires Valid() && presenting
      modifies this
      ensures Valid() && model == Step(old(model), Finish)
    {
      StepKeepsInv(model, Finish);
      model := Step(model, Finish);
      presenting := false;
    }

    method RequestStop()
      requires Valid() && started
      modifies this
      ensures Valid() && model == Step(old(model), Action.RequestStop)
    {
      StepKeepsInv(model, Action.RequestStop);
      model := Step(model, Action.RequestStop);
      stop := true;
    }
  }
}
