/** Images and jobs together: the frame worker encodes a group into pooled images, hands it to the
    presentation queue, and the presenter shows and releases it. Every step of either thread is an
    action; who holds a job holds a reference to its image. */
module Presentation {
  import opened ImagePool
  import opened Presenter

  const SLOTS := MAX_INTERPOLATED_FRAMES + 1

  datatype Job = Job(slot: nat, image: Image)

  /** `encoding` is the group being encoded, `held` the job the presenter has taken and not yet let go. */
  datatype System = System(pools: seq<PoolState>, encoding: seq<Job>, held: seq<Job>, queue: State<Job>)

  datatype Event =
    | Encode(slot: nat, width: nat, height: nat) | HandOver | TakeJob | FinishJob | ReleaseJob
    | StopPresenter | ExitPresenter | JoinPresenter

  function Started(): System {
    System(seq(SLOTS, _ => PoolState([], 0)), [], [], Initial())
  }

  predicate InSlot(jobs: seq<Job>, slot: nat) {
    exists i :: 0 <= i < |jobs| && jobs[i].slot == slot
  }

  predicate Possible(s: System, e: Event) {
    match e
    case Encode(slot, _, _) => slot < SLOTS == |s.pools| && !InSlot(s.encoding, slot)
    case HandOver => true
    case TakeJob => Enabled(s.queue, Take) && s.held == []
    case FinishJob => Enabled(s.queue, Finish)
    case ReleaseJob => !s.queue.presenting
    case StopPresenter => Enabled(s.queue, RequestStop)
    case ExitPresenter => Enabled(s.queue, Exit) && s.held == []
    case JoinPresenter => Enabled(s.queue, Join)
  }

  function IdsHeld(jobs: seq<Job>, slot: nat): set<nat> {
    set i | 0 <= i < |jobs| && jobs[i].slot == slot :: jobs[i].image.id
  }

  /** The images of a slot that some job refers to: a use count above the pool's own. */
  function Referenced(s: System, slot: nat): set<nat> {
    IdsHeld(s.encoding, slot) + IdsHeld(s.held, slot) + IdsHeld(s.queue.jobs, slot)
  }

  function Happen(s: System, e: Event): System
    requires Possible(s, e)
  {
    match e
    case Encode(slot, width, height) =>
      var (pool, image) := Acquired(s.pools[slot], width, height, Referenced(s, slot));
      s.(pools := s.pools[slot := pool], encoding := s.encoding + [Job(slot, image)])
    case HandOver => s.(encoding := [], queue := Enqueued(s.queue, s.encoding))
    case TakeJob => s.(held := [s.queue.jobs[0]], queue := Step(s.queue, Take))
    case FinishJob => s.(queue := Step(s.queue, Finish))
    case ReleaseJob => s.(held := [])
    case StopPresenter => s.(queue := Step(s.queue, RequestStop))
    case ExitPresenter => s.(queue := Step(s.queue, Exit))
    case JoinPresenter => s.(queue := Step(s.queue, Join))
  }

  predicate Happens(s: System, run: seq<Event>)
    decreases |run|
  {
    run == [] || (Possible(s, run[0]) && Happens(Happen(s, run[0]), run[1..]))
  }

  function Result(s: System, run: seq<Event>): System
    requires Happens(s, run)
    decreases |run|
  {
    if run == [] then s else Result(Happen(s, run[0]), run[1..])
  }

  // ---- The invariant ------------------------------------------------------------------------------------------

  /** Every job that has been acquired and not yet let go, with its multiplicity. */
  function Outstanding(s: System): multiset<Job> {
    multiset(s.encoding) + multiset(s.held) + multiset(s.queue.jobs)
  }

  ghost predicate Pooled(s: System, j: Job) {
    j.slot < SLOTS == |s.pools| && j.image in s.pools[j.slot].images
  }

  ghost predicate SystemInv(s: System) {
    && (s.queue.presenting ==> |s.held| == 1) && |s.held| <= 1
    && |s.pools| == SLOTS && (forall slot | 0 <= slot < SLOTS :: Valid(s.pools[slot]))
    && (forall j | j in Outstanding(s) :: Outstanding(s)[j] == 1 && Pooled(s, j))
  }

  lemma ReferencedIs(s: System, j: Job)
    requires j in Outstanding(s)
    ensures j.image.id in Referenced(s, j.slot)
  {
    if j in s.encoding {
      var i :| 0 <= i < |s.encoding| && s.encoding[i] == j;
    } else if j in s.held {
      var i :| 0 <= i < |s.held| && s.held[i] == j;
    } else {
      var i :| 0 <= i < |s.queue.jobs| && s.queue.jobs[i] == j;
    }
  }

  lemma ReferencedIsPooled(s: System, slot: nat)
    requires SystemInv(s) && slot < SLOTS
    ensures forall id | id in Referenced(s, slot) :: id < s.pools[slot].created
  {
    forall id | id in Referenced(s, slot) ensures id < s.pools[slot].created {
      var j: Job :| j in s.encoding + s.held + s.queue.jobs && j.slot == slot && j.image.id == id;
      assert j in Outstanding(s) && Pooled(s, j);
    }
  }

  lemma EncodeKeeps(s: System, slot: nat, width: nat, height: nat)
    requires SystemInv(s) && Possible(s, Encode(slot, width, height))
    ensures SystemInv(Happen(s, Encode(slot, width, height)))
  {
    var s' := Happen(s, Encode(slot, width, height));
    var (pool, image) := Acquired(s.pools[slot], width, height, Referenced(s, slot));
    ReferencedIsPooled(s, slot);
    AcquiredIsFree(s.pools[slot], width, height, Referenced(s, slot));
    var added := Job(slot, image);
    assert Outstanding(s') == Outstanding(s) + multiset{added};
    forall j | j in Outstanding(s) ensures j != added && Pooled(s', j) {
      ReferencedIs(s, j);
      assert Pooled(s, j);
    }
  }

  lemma HandOverAddsNothing(q: State<Job>, group: seq<Job>)
    ensures multiset(Enqueued(q, group).jobs) <= multiset(q.jobs) + multiset(group)
  {
    assert multiset(q.jobs + group) == multiset(q.jobs) + multiset(group);
    assert [] + group == group;
  }

  lemma TakeMoves(q: State<Job>)
    requires Enabled(q, Take)
    ensures multiset([q.jobs[0]]) + multiset(Step(q, Take).jobs) == multiset(q.jobs)
  {
    assert q.jobs == [q.jobs[0]] + q.jobs[1..];
  }

  /** No other step adds a reference or touches a pool. */
  lemma OtherStepsKeep(s: System, e: Event)
    requires Possible(s, e) && !e.Encode?
    ensures Happen(s, e).pools == s.pools && Outstanding(Happen(s, e)) <= Outstanding(s)
  {
    match e {
      case HandOver => HandOverAddsNothing(s.queue, s.encoding);
      case TakeJob => TakeMoves(s.queue);
      case _ =>
    }
  }

  lemma StepKeeps(s: System, e: Event)
    requires SystemInv(s) && Possible(s, e)
    ensures SystemInv(Happen(s, e))
  {
    if e.Encode? {
      EncodeKeeps(s, e.slot, e.width, e.height);
    } else {
      OtherStepsKeep(s, e);
      forall j | j in Outstanding(Happen(s, e)) ensures Outstanding(Happen(s, e))[j] == 1 && Pooled(Happen(s, e), j) {
        assert Outstanding(s)[j] == 1 && Pooled(s, j);
      }
    }
  }

  lemma {:induction false} RunKeeps(s: System, run: seq<Event>)
    requires SystemInv(s) && Happens(s, run)
    ensures SystemInv(Result(s, run))
    decreases |run|
  {
    if run != [] {
      StepKeeps(s, run[0]);
      RunKeeps(Happen(s, run[0]), run[1..]);
    }
  }

  // ---- Over every run -----------------------------------------------------------------------------------------

  lemma {:induction false} OneMoreEvent(s: System, run: seq<Event>, e: Event)
    requires Happens(s, run) && Possible(Result(s, run), e)
    ensures Happens(s, run + [e]) && Result(s, run + [e]) == Happen(Result(s, run), e)
    decreases |run|
  {
    if run == [] {
      assert run + [e] == [e] && Happens(Happen(s, e), []);
    } else {
      assert (run + [e])[0] == run[0] && (run + [e])[1..] == run[1..] + [e];
      OneMoreEvent(Happen(s, run[0]), run[1..], e);
    }
  }

  /** After any run the job on screen is held until it is presented, the frame worker can hand over its
      group, and a presenter with anything to do can do it. */
  lemma {:induction false} PresenterGoesOn(run: seq<Event>)
    requires Happens(Started(), run)
    ensures var s := Result(Started(), run);
            && |s.held| <= 1 && (s.queue.presenting ==> |s.held| == 1)
            && Possible(s, HandOver)
            && (s.queue.presenting <==> Possible(s, FinishJob)) && (s.queue.presenting <==> !Possible(s, ReleaseJob))
            && (s.queue.started && !s.queue.exited && !s.queue.presenting && s.held == [] ==>
                  && (Possible(s, TakeJob) <==> s.queue.jobs != [])
                  && (Possible(s, ExitPresenter) <==> s.queue.stop && s.queue.jobs == []))
            && (s.held != [] ==> !Possible(s, TakeJob) && !Possible(s, ExitPresenter))
  {
    RunKeeps(Started(), run);
  }

  /** Over every run, whatever is queued, dropped, presented or stopped: no two outstanding jobs of a slot
      share an image, every outstanding job's image is still pooled, and an image acquired next has the
      requested size and is none of theirs. */
  lemma {:induction false} ImagesAreNeverShared(run: seq<Event>, slot: nat, width: nat, height: nat)
    requires Happens(Started(), run) && slot < SLOTS
    ensures var s := Result(Started(), run);
            && |s.pools| == SLOTS
            && (forall j | j in Outstanding(s) :: Outstanding(s)[j] == 1 && Pooled(s, j))
            && (forall j, k | j in Outstanding(s) && k in Outstanding(s) && j.slot == k.slot && j.image.id == k.image.id :: j == k)
            && var (_, image) := Acquired(s.pools[slot], width, height, Referenced(s, slot));
               Fits(image, width, height) && forall j | j in Outstanding(s) && j.slot == slot :: j.image.id != image.id
  {
    var s := Result(Started(), run);
    RunKeeps(Started(), run);
    forall j, k | j in Outstanding(s) && k in Outstanding(s) && j.slot == k.slot && j.image.id == k.image.id ensures j == k {
      assert Pooled(s, j) && Pooled(s, k);
    }
    ReferencedIsPooled(s, slot);
    AcquiredIsFree(s.pools[slot], width, height, Referenced(s, slot));
    forall j | j in Outstanding(s) && j.slot == slot ensures j.image.id in Referenced(s, slot) {
      ReferencedIs(s, j);
    }
  }

  function CountIn(jobs: seq<Job>, slot: nat): nat {
    if jobs == [] then 0 else CountIn(jobs[..|jobs| - 1], slot) + if jobs[|jobs| - 1].slot == slot then 1 else 0
  }

  /** Jobs of a slot that are queued or at the presenter. */
  function Waiting(s: System, slot: nat): nat {
    CountIn(s.held, slot) + CountIn(s.queue.jobs, slot)
  }

  /** The most jobs of a slot that were queued or at the presenter at once, at any point of a run. */
  function Peak(s: System, run: seq<Event>, slot: nat): (n: nat)
    requires Happens(s, run)
    ensures n >= Waiting(s, slot)
    decreases |run|
  {
    if run == [] then Waiting(s, slot)
    else
      var later := Peak(Happen(s, run[0]), run[1..], slot);
      if later > Waiting(s, slot) then later else Waiting(s, slot)
  }

  lemma {:induction false} FewIds(jobs: seq<Job>, slot: nat)
    ensures |IdsHeld(jobs, slot)| <= CountIn(jobs, slot)
  {
    if jobs != [] {
      var earlier, last := jobs[..|jobs| - 1], jobs[|jobs| - 1];
      FewIds(earlier, slot);
      assert IdsHeld(jobs, slot) == IdsHeld(earlier, slot) + if last.slot == slot then {last.image.id} else {};
    }
  }

  lemma FewReferenced(s: System, slot: nat)
    requires !InSlot(s.encoding, slot)
    ensures |Referenced(s, slot)| <= Waiting(s, slot)
  {
    FewIds(s.held, slot);
    FewIds(s.queue.jobs, slot);
    assert IdsHeld(s.encoding, slot) == {};
    assert Referenced(s, slot) == IdsHeld(s.held, slot) + IdsHeld(s.queue.jobs, slot);
  }

  lemma {:induction false} PoolGrows(s: System, run: seq<Event>, slot: nat, bound: nat)
    requires SystemInv(s) && Happens(s, run) && slot < SLOTS
    requires |s.pools[slot].images| <= bound + 1 && Peak(s, run, slot) <= bound
    ensures |Result(s, run).pools| == SLOTS && |Result(s, run).pools[slot].images| <= bound + 1
    decreases |run|
  {
    if run != [] {
      var e := run[0];
      StepKeeps(s, e);
      if e.Encode? {
        ReferencedIsPooled(s, e.slot);
        AcquiredIsFree(s.pools[e.slot], e.width, e.height, Referenced(s, e.slot));
        FewReferenced(s, e.slot);
      } else {
        OtherStepsKeep(s, e);
      }
      PoolGrows(Happen(s, e), run[1..], slot, bound);
    }
  }

  /** Over every run a slot's pool never holds more than one image beyond the most jobs of that slot ever
      queued or at the presenter at once. */
  lemma {:induction false} PoolsStaySmall(run: seq<Event>, slot: nat)
    requires Happens(Started(), run) && slot < SLOTS
    ensures |Result(Started(), run).pools| == SLOTS
    ensures |Result(Started(), run).pools[slot].images| <= Peak(Started(), run, slot) + 1
  {
    PoolGrows(Started(), run, slot, Peak(Started(), run, slot));
  }
}
