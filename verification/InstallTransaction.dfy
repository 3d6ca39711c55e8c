/** The journaled install transaction over a volume whose every durable step may fail or be the
    last one before the process dies. */
module InstallTransaction {
  import opened FileTree
  import opened TransactionPlan
  import opened Wrappers
  import opened Volumes

  class Transaction {
    const volume: Volume
    var journal: Journal
    var finished: bool

    constructor (volume: Volume, journal: Journal)
      ensures this.volume == volume && this.journal == journal && !finished
    {
      this.volume := volume;
      this.journal := journal;
      finished := false;
    }

    /** Not finished, and the durable journal still asks for a rollback. */
    ghost predicate Active(plan: Plan)
      reads this, volume
    {
      && !finished
      && volume.Recoverable(plan)
      && plan.Describes(journal)
      && volume.journal.Some?
      && (volume.journal.value.state == Prepared || volume.journal.value.state == Published)
      && (volume.journal.value.configPlanned ==> journal.configPlanned)
    }

    /** Rename with the destination's parents created first. */
    method Move(src: Path, dst: Path, kind: Kind) returns (o: Outcome)
      requires WellFormed(volume.tree) && Apart(src, dst) && dst != []
      modifies volume`tree, volume`faults
      ensures WellFormed(volume.tree) && !o.Refused?
      ensures (Tree(volume.tree, dst) == Tree(old(volume.tree), dst)
               && Tree(volume.tree, src) == Tree(old(volume.tree), src))
              || (Tree(volume.tree, dst) == Tree(old(volume.tree), src) && Tree(volume.tree, src) == map[])
      ensures o == Done ==> Tree(volume.tree, dst) == Tree(old(volume.tree), src)
      ensures o == Done ==> Tree(volume.tree, src) == map[]
      ensures o != Done && old(Creatable(volume.tree, Parent(dst)) && Exists(volume.tree, src, kind) && dst !in volume.tree)
              ==> Troubles(volume.faults) < Troubles(old(volume.faults))
      ensures Troubles(volume.faults) <= Troubles(old(volume.faults))
      ensures forall k | k in old(volume.tree) && !(src <= k) ::
                k in volume.tree && volume.tree[k] == old(volume.tree)[k]
      ensures forall k | k in volume.tree && !(dst <= k) ::
                (k in old(volume.tree) && volume.tree[k] == old(volume.tree)[k]) || volume.tree[k].DirectoryNode?
      ensures forall r {:trigger Tree(volume.tree, r)} | Apart(src, r) && Apart(dst, r) ::
                Tree(volume.tree, r) == Tree(old(volume.tree), r)
    {
      assert !(dst <= Parent(dst));
      assert !(src <= Parent(dst)) by {
        assert src <= Parent(dst) ==> src <= dst;
      }
      forall r | Apart(dst, r) ensures !(r <= Parent(dst)) {
        assert r <= Parent(dst) ==> r <= dst;
      }
      ghost var was := volume.tree;
      TreeEmpty(was, dst);
      o := volume.MakeDirectory(Parent(dst));
      TreeEmpty(volume.tree, dst);
      if o == Done {
        o := volume.Rename(src, dst, kind);
      }
    }

    /** Puts one entry back; the throws of a lost backup and an ambiguous pair are dead code here. */
    method RollBackEntry(e: Entry, ghost plan: Plan, ghost i: nat) returns (o: Outcome)
      requires WellFormed(volume.tree) && plan.Valid() && i < |plan.entries| && e == plan.entries[i]
      requires plan.Restorable(volume.tree, i)
      modifies volume`tree, volume`faults
      ensures WellFormed(volume.tree) && !o.Refused?
      ensures plan.Restorable(volume.tree, i)
      ensures o == Done ==> plan.RestoredAt(volume.tree, i)
      ensures OthersKept(plan, old(volume.tree), volume.tree, i)
      ensures o != Done ==> Troubles(volume.faults) < Troubles(old(volume.faults))
      ensures Troubles(volume.faults) <= Troubles(old(volume.faults))
    {
      TreeEmpty(volume.tree, e.destination);
      TreeEmpty(volume.tree, e.backup);
      TreeEmpty(volume.tree, e.prepared);
      assert plan.EntryValid(i);
      KeptReflexive(plan, volume.tree, i);
      var destinationExists := Exists(volume.tree, e.destination, e.kind);
      if Exists(volume.tree, e.backup, e.kind) {
        o := RestoreBackup(e, destinationExists, plan, i);
      } else if e.originalExisted {
        if !destinationExists {
          return Refused(BackupMissing);
        }
        o := Done;
      } else if destinationExists && Exists(volume.tree, e.prepared, e.kind) {
        return Refused(RecoveryAmbiguous);
      } else if destinationExists {
        o := DeleteDestination(e, plan, i);
      } else {
        o := Done;
      }
    }

    method DeleteDestination(e: Entry, ghost plan: Plan, ghost i: nat) returns (o: Outcome)
      requires WellFormed(volume.tree) && plan.Valid() && i < |plan.entries| && e == plan.entries[i]
      requires HomeReady(volume.tree, e)
      modifies volume`tree, volume`faults
      ensures WellFormed(volume.tree) && !o.Refused?
      ensures HomeReady(volume.tree, e)
      ensures Tree(volume.tree, e.backup) == Tree(old(volume.tree), e.backup)
      ensures Tree(volume.tree, e.prepared) == Tree(old(volume.tree), e.prepared)
      ensures OfKind(Tree(old(volume.tree), e.destination), e.kind) ==> OfKind(Tree(volume.tree, e.destination), e.kind)
      ensures o == Done ==> Tree(volume.tree, e.destination) == map[] && e.destination !in volume.tree
      ensures OthersKept(plan, old(volume.tree), volume.tree, i)
      ensures o != Done ==> Troubles(volume.faults) < Troubles(old(volume.faults))
      ensures Troubles(volume.faults) <= Troubles(old(volume.faults))
    {
      TreeEmpty(volume.tree, e.destination);
      assert plan.Separate(i, i);
      ghost var was := volume.tree;
      o := volume.Delete(e.destination);
      TreeEmpty(volume.tree, e.destination);
      OthersAreKept(plan, i, was, volume.tree);
    }

    method RestoreBackup(e: Entry, destinationExists: bool, ghost plan: Plan, ghost i: nat) returns (o: Outcome)
      requires WellFormed(volume.tree) && plan.Valid() && i < |plan.entries| && e == plan.entries[i]
      requires plan.Restorable(volume.tree, i)
      requires Exists(volume.tree, e.backup, e.kind)
      requires destinationExists <==> e.destination in volume.tree
      modifies volume`tree, volume`faults
      ensures WellFormed(volume.tree) && !o.Refused?
      ensures plan.Restorable(volume.tree, i)
      ensures o == Done ==> plan.RestoredAt(volume.tree, i)
      ensures OthersKept(plan, old(volume.tree), volume.tree, i)
      ensures o != Done ==> Troubles(volume.faults) < Troubles(old(volume.faults))
      ensures Troubles(volume.faults) <= Troubles(old(volume.faults))
    {
      TreeEmpty(volume.tree, e.backup);
      TreeEmpty(volume.tree, e.destination);
      ghost var was := volume.tree;
      if destinationExists {
        o := DeleteDestination(e, plan, i);
        if o != Done {
          return;
        }
      }
      ghost var cleared := volume.tree;
      o := MoveBack(e, plan, i);
      if destinationExists {
        KeptTransitive(plan, was, cleared, volume.tree, i);
      }
    }

    method MoveBack(e: Entry, ghost plan: Plan, ghost i: nat) returns (o: Outcome)
      requires WellFormed(volume.tree) && plan.Valid() && i < |plan.entries| && e == plan.entries[i]
      requires e.originalExisted && HomeReady(volume.tree, e)
      requires OfKind(Tree(volume.tree, e.backup), e.kind) && OfKind(Tree(volume.tree, e.prepared), e.kind)
      requires Tree(volume.tree, e.backup) == plan.before[i] && e.destination !in volume.tree
      modifies volume`tree, volume`faults
      ensures WellFormed(volume.tree) && !o.Refused?
      ensures plan.Restorable(volume.tree, i)
      ensures o == Done ==> plan.RestoredAt(volume.tree, i)
      ensures OthersKept(plan, old(volume.tree), volume.tree, i)
      ensures o != Done ==> Troubles(volume.faults) < Troubles(old(volume.faults))
      ensures Troubles(volume.faults) <= Troubles(old(volume.faults))
    {
      TreeEmpty(volume.tree, e.backup);
      TreeEmpty(volume.tree, e.destination);
      HomeCreatable(volume.tree, e);
      ghost var was := volume.tree;
      assert plan.Separate(i, i) && plan.EntryValid(i);
      o := Move(e.backup, e.destination, e.kind);
      OthersAreKept(plan, i, was, volume.tree);
    }
  
    /** Restores every entry, newest first, then Config.toml, and only then retires the journal. */
    method RollBack(ghost plan: Plan) returns (o: Outcome)
      requires volume.Recoverable(plan) && (finished || Active(plan))
      modifies this, volume
      ensures volume.Recoverable(plan) && volume.committed == old(volume.committed)
      ensures volume.begun == old(volume.begun)
      ensures o != Crashed && !finished ==> Active(plan)
      ensures o == Done ==> finished && (old(finished) || (volume.journal == None && Tree(volume.tree, plan.workRoot) == map[]))
      ensures o.Refused? <==> !old(finished) && MAXIMUM_JOURNAL_ENTRIES < |plan.entries|
      ensures o.Refused? ==> o.reason == InvalidJournal && unchanged(volume)
      ensures o != Done && !o.Refused? ==> Troubles(volume.faults) < Troubles(old(volume.faults))
      ensures Troubles(volume.faults) <= Troubles(old(volume.faults))
    {
      if finished {
        return Done;
      }
      AcceptedJournal(plan, journal);
      if !ValidJournal(journal.root, journal) {
        return Refused(InvalidJournal);
      }
      o := RollBackEntries(plan);
      if o == Done {
        o := RollBackConfiguration(plan);
      }
      if o == Done {
        o := RetireJournal(plan);
      }
    }

    /** Puts the recorded Config.toml back, if it was ever going to be written. */
    method RollBackConfiguration(ghost plan: Plan) returns (o: Outcome)
      requires Active(plan)
      modifies volume`config, volume`faults
      ensures Active(plan) && !o.Refused?
      ensures o == Done ==> volume.config == plan.configBefore
      ensures o != Done ==> Troubles(volume.faults) < Troubles(old(volume.faults))
      ensures Troubles(volume.faults) <= Troubles(old(volume.faults))
    {
      o := Done;
      if journal.configPlanned {
        o := volume.WriteConfig(journal.configBefore);
      }
    }

    /** Only once everything is back does the journal say so, and only then does it go. */
    method RetireJournal(ghost plan: Plan) returns (o: Outcome)
      requires Active(plan) && volume.AllBefore(plan)
      modifies this, volume`tree, volume`journal, volume`faults, volume`begun, volume`committed
      ensures volume.Recoverable(plan) && !volume.committed && !o.Refused?
      ensures volume.begun == old(volume.begun)
      ensures o != Crashed && !finished ==> Active(plan)
      ensures o == Done ==> finished && volume.journal == None && Tree(volume.tree, plan.workRoot) == map[]
      ensures o != Done ==> Troubles(volume.faults) < Troubles(old(volume.faults))
      ensures Troubles(volume.faults) <= Troubles(old(volume.faults))
    {
      journal := journal.(state := RolledBack);
      o := volume.WriteJournal(journal);
      if o == Done {
        finished := true;
        o := RemoveWorkRoot(volume, journal.workRoot, plan);
      }
    }

    method RollBackEntries(ghost plan: Plan) returns (o: Outcome)
      requires Active(plan)
      modifies volume`tree, volume`faults
      ensures Active(plan) && !o.Refused?
      ensures o == Done ==> forall k | 0 <= k < |plan.entries| :: plan.RestoredAt(volume.tree, k)
      ensures o != Done ==> Troubles(volume.faults) < Troubles(old(volume.faults))
      ensures Troubles(volume.faults) <= Troubles(old(volume.faults))
    {
      var i := |journal.entries|;
      while i > 0
        modifies volume`tree, volume`faults
        invariant 0 <= i <= |plan.entries|
        invariant Active(plan)
        invariant forall k | i <= k < |plan.entries| :: plan.RestoredAt(volume.tree, k)
        invariant Troubles(volume.faults) <= Troubles(old(volume.faults))
      {
        i := i - 1;
        ghost var was := volume.tree;
        o := RollBackEntry(journal.entries[i], plan, i);
        StillRestorable(plan, was, volume.tree, i);
        if o != Done {
          return;
        }
      }
      o := Done;
    }

    method PublishEntry(e: Entry, ghost plan: Plan, ghost i: nat) returns (o: Outcome)
      requires WellFormed(volume.tree) && plan.Valid() && i < |plan.entries| && e == plan.entries[i]
      requires plan.Untouched(volume.tree, i)
      modifies volume`tree, volume`faults
      ensures WellFormed(volume.tree) && !o.Refused?
      ensures plan.Restorable(volume.tree, i)
      ensures o == Done ==> plan.PublishedAt(volume.tree, i)
      ensures OthersKept(plan, old(volume.tree), volume.tree, i)
      ensures plan.HasRoom(old(volume.tree)) && o == Done ==> plan.HasRoom(volume.tree)
      ensures plan.HasRoom(old(volume.tree)) && o != Done ==> Troubles(volume.faults) < Troubles(old(volume.faults))
      ensures Troubles(volume.faults) <= Troubles(old(volume.faults))
    {
      ghost var was := volume.tree;
      assert plan.Separate(i, i) && plan.EntryValid(i);
      if e.originalExisted {
        o := MoveAside(e, plan, i);
        if o != Done {
          return;
        }
      }
      ghost var aside := volume.tree;
      o := MoveIn(e, plan, i);
      if e.originalExisted {
        KeptTransitive(plan, was, aside, volume.tree, i);
      }
    }

    /** The old destination goes to its backup. */
    method MoveAside(e: Entry, ghost plan: Plan, ghost i: nat) returns (o: Outcome)
      requires WellFormed(volume.tree) && plan.Valid() && i < |plan.entries| && e == plan.entries[i]
      requires plan.Untouched(volume.tree, i) && e.originalExisted
      modifies volume`tree, volume`faults
      ensures WellFormed(volume.tree) && !o.Refused?
      ensures plan.Restorable(volume.tree, i)
      ensures o == Done ==> Tree(volume.tree, e.destination) == map[] && Tree(volume.tree, e.backup) == plan.before[i]
      ensures o == Done ==> Tree(volume.tree, e.prepared) == plan.after[i]
      ensures OthersKept(plan, old(volume.tree), volume.tree, i)
      ensures plan.HasRoom(old(volume.tree)) && o == Done ==> plan.HasRoom(volume.tree)
      ensures plan.HasRoom(old(volume.tree)) && o != Done ==> Troubles(volume.faults) < Troubles(old(volume.faults))
      ensures Troubles(volume.faults) <= Troubles(old(volume.faults))
    {
      ghost var was := volume.tree;
      assert plan.Separate(i, i) && plan.EntryValid(i);
      TreeEmpty(was, e.destination);
      TreeEmpty(was, e.backup);
      if plan.HasRoom(was) {
        DirectoryCreatable(was, plan.workRoot + ["backup"]);
        assert Parent(e.backup) == plan.workRoot + ["backup"];
      }
      o := Move(e.destination, e.backup, e.kind);
      OthersAreKept(plan, i, was, volume.tree);
      if plan.HasRoom(was) {
        StillHasRoom(plan, i, was, volume.tree, e.destination, e.backup);
      }
    }

    /** The prepared entry takes the free destination. */
    method MoveIn(e: Entry, ghost plan: Plan, ghost i: nat) returns (o: Outcome)
      requires WellFormed(volume.tree) && plan.Valid() && i < |plan.entries| && e == plan.entries[i]
      requires plan.Restorable(volume.tree, i) && Tree(volume.tree, e.destination) == map[]
      requires e.originalExisted ==> Tree(volume.tree, e.backup) == plan.before[i]
      requires Tree(volume.tree, e.prepared) == plan.after[i]
      modifies volume`tree, volume`faults
      ensures WellFormed(volume.tree) && !o.Refused?
      ensures plan.Restorable(volume.tree, i)
      ensures o == Done ==> plan.PublishedAt(volume.tree, i)
      ensures OthersKept(plan, old(volume.tree), volume.tree, i)
      ensures plan.HasRoom(old(volume.tree)) && o == Done ==> plan.HasRoom(volume.tree)
      ensures plan.HasRoom(old(volume.tree)) && o != Done ==> Troubles(volume.faults) < Troubles(old(volume.faults))
      ensures Troubles(volume.faults) <= Troubles(old(volume.faults))
    {
      ghost var was := volume.tree;
      assert plan.Separate(i, i) && plan.EntryValid(i);
      TreeEmpty(was, e.destination);
      TreeEmpty(was, e.prepared);
      if plan.HasRoom(was) {
        assert HomeCanBeMade(was, e.destination);
      }
      o := Move(e.prepared, e.destination, e.kind);
      OthersAreKept(plan, i, was, volume.tree);
      if plan.HasRoom(was) {
        StillHasRoom(plan, i, was, volume.tree, e.prepared, e.destination);
      }
    }

    /** Moves every old destination aside and publishes every prepared entry; a failure rolls back. */
    method Publish(ghost plan: Plan) returns (o: Outcome)
      requires Active(plan)
      requires journal.state == Prepared ==>
                 forall i | 0 <= i < |plan.entries| :: plan.Untouched(volume.tree, i)
      modifies this, volume
      ensures volume.Recoverable(plan) && !volume.committed
      ensures o == Done ==> Active(plan) && journal.state == Published && volume.AllPublished(plan)
      ensures o == Done ==> journal == old(journal).(state := Published)
      ensures o == Done ==> volume.config == old(volume.config)
      ensures o != Crashed && !finished ==> Active(plan)
      ensures o.Refused? <==> old(journal.state) != Prepared
      ensures plan.HasRoom(old(volume.tree)) && o != Done && !o.Refused? ==> Troubles(volume.faults) < Troubles(old(volume.faults))
      ensures Troubles(volume.faults) <= Troubles(old(volume.faults))
    {
      if finished || journal.state != Prepared {
        return Refused(NotInRequiredState);
      }
      o := PublishEntries(plan);
      if o == Done {
        journal := journal.(state := Published);
        o := volume.WriteJournal(journal);
      }
      if o == IoError {
        var rollback := RollBack(plan);
        o := if rollback == Crashed then Crashed else IoError;
      }
    }

    /** The tree as a publication that has not settled leaves it. */
    ghost predicate Ongoing(plan: Plan)
      reads volume
      requires plan.Valid()
    {
      WellFormed(volume.tree) && plan.BystandersKept(plan.start, volume.tree) && volume.AllRestorable(plan)
    }

    /** Work on the tree that keeps every entry restorable keeps the transaction active. */
    twostate lemma StaysActive(plan: Plan)
      requires old(Active(plan)) && plan.Valid()
      requires unchanged(this) && volume.journal == old(volume.journal) && volume.config == old(volume.config)
      requires volume.begun == old(volume.begun) && volume.committed == old(volume.committed)
      requires Ongoing(plan)
      ensures Active(plan)
    {}

    /** One turn of the publishing loop. */
    method PublishNext(e: Entry, ghost plan: Plan, ghost i: nat) returns (o: Outcome)
      requires plan.Valid() && i < |plan.entries| && e == plan.entries[i]
      requires Ongoing(plan) && PublishedUpTo(plan, volume.tree, i)
      modifies volume`tree, volume`faults
      ensures Ongoing(plan) && !o.Refused?
      ensures o == Done ==> PublishedUpTo(plan, volume.tree, i + 1)
      ensures plan.HasRoom(old(volume.tree)) && o == Done ==> plan.HasRoom(volume.tree)
      ensures plan.HasRoom(old(volume.tree)) && o != Done ==> Troubles(volume.faults) < Troubles(old(volume.faults))
      ensures Troubles(volume.faults) <= Troubles(old(volume.faults))
    {
      ghost var was := volume.tree;
      o := PublishEntry(e, plan, i);
      PublishedOneMore(plan, was, volume.tree, i);
    }

    method PublishEntries(ghost plan: Plan) returns (o: Outcome)
      requires Active(plan)
      requires forall i | 0 <= i < |plan.entries| :: plan.Untouched(volume.tree, i)
      modifies volume`tree, volume`faults
      ensures Active(plan) && !o.Refused?
      ensures o == Done ==> volume.AllPublished(plan)
      ensures plan.HasRoom(old(volume.tree)) && o != Done ==> Troubles(volume.faults) < Troubles(old(volume.faults))
      ensures Troubles(volume.faults) <= Troubles(old(volume.faults))
    {
      var i := 0;
      while i < |journal.entries|
        modifies volume`tree, volume`faults
        invariant 0 <= i <= |plan.entries| == |journal.entries|
        invariant Ongoing(plan) && PublishedUpTo(plan, volume.tree, i)
        invariant plan.HasRoom(old(volume.tree)) ==> plan.HasRoom(volume.tree)
        invariant Troubles(volume.faults) <= Troubles(old(volume.faults))
      {
        o := PublishNext(journal.entries[i], plan, i);
        if o != Done {
          StaysActive(plan);
          return;
        }
        i := i + 1;
      }
      StaysActive(plan);
      o := Done;
    }

    /** Makes the preimage of Config.toml durable before the caller's first write to it. */
    method RecordRuntimeConfigurationMutation(snapshot: Option<Bytes>, ghost plan: Plan) returns (o: Outcome)
      requires Active(plan) && snapshot == plan.configBefore
      modifies this`journal, volume`journal, volume`faults, volume`begun, volume`committed
      ensures volume.Recoverable(plan) && !volume.committed
      ensures o != Crashed ==> Active(plan)
      ensures o == Done ==> journal == old(journal).(configPlanned := true, configBefore := snapshot)
                            && volume.journal == Some(journal)
      ensures o.Refused? <==> old(journal.state) != Published
      ensures o != Done && !o.Refused? ==> Troubles(volume.faults) < Troubles(old(volume.faults))
      ensures Troubles(volume.faults) <= Troubles(old(volume.faults))
    {
      if finished || journal.state != Published {
        return Refused(NotInRequiredState);
      }
      journal := journal.(configPlanned := true, configBefore := snapshot);
      o := volume.WriteJournal(journal);
    }

    /** The caller's own write to Config.toml, allowed once its preimage is recorded. */
    method WriteRuntimeConfiguration(contents: Bytes, ghost plan: Plan) returns (o: Outcome)
      requires Active(plan) && volume.journal.value.configPlanned
      modifies volume`config, volume`faults
      ensures Active(plan) && !o.Refused?
      ensures o == Done ==> volume.config == Some(contents)
      ensures o != Done ==> Troubles(volume.faults) < Troubles(old(volume.faults))
      ensures Troubles(volume.faults) <= Troubles(old(volume.faults))
    {
      o := volume.WriteConfig(Some(contents));
    }

    /** The commit point is the one journal write; cleaning up afterwards may fail silently. */
    method Commit(ghost plan: Plan) returns (o: Outcome)
      requires Active(plan)
      requires journal.state == Published ==> volume.AllAfter(plan)
      modifies this, volume
      ensures volume.Recoverable(plan)
      ensures o == Done ==> finished && volume.committed
      ensures o == IoError || o.Refused? ==> Active(plan)
      ensures o.Refused? <==> old(journal.state) != Published
      ensures o != Done && !o.Refused? ==> Troubles(volume.faults) < Troubles(old(volume.faults))
      ensures Troubles(volume.faults) <= Troubles(old(volume.faults))
    {
      if finished || journal.state != Published {
        return Refused(NotInRequiredState);
      }
      journal := journal.(state := Committed);
      o := volume.WriteJournal(journal);
      if o != Done {
        return;
      }
      finished := true;
      o := TryCleanCommitted(volume, journal.workRoot, plan);
    }

    /** Leaves a finished transaction alone and rolls an unfinished one back. */
    method Dispose(ghost plan: Plan) returns (o: Outcome)
      requires volume.Recoverable(plan) && (finished || Active(plan))
      modifies this, volume
      ensures volume.Recoverable(plan) && volume.committed == old(volume.committed)
      ensures old(finished) ==> o == Done && finished && journal == old(journal) && unchanged(volume)
      ensures !old(finished) && o == Done ==> finished && volume.journal == None && volume.AllBefore(plan)
      ensures !old(finished) && o == Done ==> Tree(volume.tree, plan.workRoot) == map[]
      ensures o != Crashed && !finished ==> Active(plan)
      ensures o.Refused? <==> !old(finished) && MAXIMUM_JOURNAL_ENTRIES < |plan.entries|
      ensures o.Refused? ==> unchanged(volume)
      ensures o != Done && !o.Refused? ==> Troubles(volume.faults) < Troubles(old(volume.faults))
      ensures Troubles(volume.faults) <= Troubles(old(volume.faults))
    {
      if finished {
        return Done;
      }
      o := RollBack(plan);
    }
  }

  /** Removes the work directory and then the journal of a settled transaction. */
  method RemoveWorkRoot(volume: Volume, workRoot: Path, ghost plan: Plan) returns (o: Outcome)
    requires volume.Recoverable(plan) && workRoot == plan.workRoot
    requires volume.journal.Some? && volume.journal.value.state in {Committed, RolledBack}
    modifies volume`tree, volume`journal, volume`faults
    ensures volume.Recoverable(plan) && !o.Refused?
    ensures o == Done ==> volume.journal == None
    ensures volume.journal == None || volume.journal == old(volume.journal)
    ensures volume.journal == None ==> Tree(volume.tree, workRoot) == map[]
    ensures o != Done ==> Troubles(volume.faults) < Troubles(old(volume.faults))
    ensures Troubles(volume.faults) <= Troubles(old(volume.faults))
  {
    ghost var was := volume.tree;
    o := volume.Delete(workRoot);
    DestinationsKept(plan, was, volume.tree);
    TreeEmpty(volume.tree, workRoot);
    if o == Done {
      o := volume.DeleteJournal();
    }
  }

  /** Cleans up after the commit point; a failure is only reported, so `Done` does not say the journal
      is gone. */
  method TryCleanCommitted(volume: Volume, workRoot: Path, ghost plan: Plan) returns (o: Outcome)
    requires volume.Recoverable(plan) && workRoot == plan.workRoot
    requires volume.journal.Some? && volume.journal.value.state in {Committed, RolledBack}
    modifies volume`tree, volume`journal, volume`faults
    ensures volume.Recoverable(plan)
    ensures o == Done || o == Crashed
    ensures volume.journal == None || volume.journal == old(volume.journal)
    ensures volume.journal == None ==> Tree(volume.tree, workRoot) == map[]
    ensures o != Done || volume.journal != None ==> Troubles(volume.faults) < Troubles(old(volume.faults))
    ensures Troubles(volume.faults) <= Troubles(old(volume.faults))
  {
    o := RemoveWorkRoot(volume, workRoot, plan);
    o := if o == IoError then Done else o;
  }

  /** Runs at the next lock acquisition. Whatever failed before it, and whatever fails inside it, the
      durable state stays recoverable; without a fault it completes, for every journal it accepts. */
  method Recover(volume: Volume, root: Path, ghost plan: Plan) returns (o: Outcome)
    requires volume.Recoverable(plan) && root == plan.root
    modifies volume
    ensures volume.Recoverable(plan) && volume.committed == old(volume.committed)
    ensures volume.begun == old(volume.begun)
    ensures o == Done ==> volume.journal == None
    ensures o == Done && old(volume.journal) != None ==> Tree(volume.tree, plan.workRoot) == map[]
    ensures o == Done ==> if volume.committed then volume.AllAfter(plan) else volume.AllBefore(plan)
    ensures o.Refused? <==> old(volume.journal) != None && MAXIMUM_JOURNAL_ENTRIES < |plan.entries|
    ensures o.Refused? ==> o.reason == InvalidJournal && unchanged(volume)
    ensures o != Done && !o.Refused? ==> Troubles(volume.faults) < Troubles(old(volume.faults))
    ensures Troubles(volume.faults) <= Troubles(old(volume.faults))
  {
    if volume.journal == None {
      return Done;
    }
    var journal := volume.journal.value;
    AcceptedJournal(plan, journal);
    if !ValidJournal(root, journal) {
      return Refused(InvalidJournal);
    }
    if journal.state == Committed || journal.state == RolledBack {
      o := TryCleanCommitted(volume, journal.workRoot, plan);
      if o == Done && volume.journal != None {
        o := IoError;
      }
      return;
    }
    var transaction := new Transaction(volume, journal);
    o := transaction.RollBack(plan);
  }

  datatype Begun = Began(transaction: Transaction) | NotBegun(outcome: Outcome)

  /** Journals every destination before the first move. */
  method Begin(volume: Volume, root: Path, workRoot: Path, requested: seq<Requested>,
               ghost configAfter: Option<Bytes>)
    returns (r: Begun, ghost plan: Plan)
    requires WellFormed(volume.tree) && FreshWorkRoot(volume.tree, root, workRoot)
    modifies volume
    ensures r.NotBegun? ==> r.outcome != Done
    ensures r.NotBegun? && r.outcome.Refused? ==> unchanged(volume)
    ensures r.NotBegun? && r.outcome.Refused? <==>
              requested == [] || old(volume.journal) != None || !Acceptable(old(volume.tree), root, requested)
    ensures !(r.NotBegun? && r.outcome.Refused?) ==>
              && volume.Recoverable(plan) && !volume.committed && volume.config == old(volume.config)
              && Journaled(old(volume.tree), workRoot, requested, plan.entries)
              && plan == PlanFor(old(volume.tree), root, workRoot, plan.entries, volume.config, configAfter)
    ensures r.Began? ==>
              && fresh(r.transaction) && r.transaction.volume == volume && r.transaction.Active(plan)
              && r.transaction.journal.state == Prepared && !r.transaction.journal.configPlanned
              && forall i | 0 <= i < |plan.entries| :: plan.Untouched(volume.tree, i)
    ensures RoomFor(old(volume.tree), requested) && r.Began? ==> plan.HasRoom(volume.tree)
    ensures RoomFor(old(volume.tree), requested) && r.NotBegun? && !r.outcome.Refused? ==>
              Troubles(volume.faults) < Troubles(old(volume.faults))
    ensures Troubles(volume.faults) <= Troubles(old(volume.faults))
  {
    plan := PlanFor(volume.tree, root, workRoot, [], volume.config, configAfter);
    if requested == [] {
      return NotBegun(Refused(NoEntries)), plan;
    }
    if volume.journal != None {
      return NotBegun(Refused(UnfinishedTransaction)), plan;
    }
    var normalized := NormalizeEntries(volume.tree, root, workRoot, requested);
    if normalized == None {
      return NotBegun(Refused(BadEntries)), plan;
    }
    var entries := normalized.value;
    plan := PlanFor(volume.tree, root, workRoot, entries, volume.config, configAfter);
    AcceptedPlanIsValid(volume.tree, root, workRoot, requested, entries, plan);
    if RoomFor(volume.tree, requested) {
      assert EntryAcceptable(volume.tree, root, requested[0]);
      WorkRootCreatable(volume.tree, root, workRoot, requested[0].destination);
      assert forall i | 0 <= i < |entries| :: entries[i].destination == requested[i].destination;
    }
    var o := OpenJournal(volume, root, workRoot, entries, plan);
    if o != Done {
      return NotBegun(o), plan;
    }
    var transaction := new Transaction(volume, volume.journal.value);
    r := Began(transaction);
  }

  method OpenJournal(volume: Volume, root: Path, workRoot: Path, entries: seq<Entry>, ghost plan: Plan)
    returns (o: Outcome)
    requires WellFormed(volume.tree) && plan.Valid() && volume.journal == None && workRoot !in volume.tree
    requires root == plan.root && workRoot == plan.workRoot && entries == plan.entries
    requires volume.config == plan.configBefore
    requires volume.tree == plan.start
    requires forall i | 0 <= i < |entries| :: plan.Untouched(volume.tree, i)
    modifies volume
    ensures volume.Recoverable(plan) && !volume.committed && !o.Refused? && volume.config == old(volume.config)
    ensures o == Done ==> volume.journal == Some(Journal(plan.root, plan.workRoot, Prepared, entries, false, None))
    ensures forall i | 0 <= i < |entries| :: plan.Untouched(volume.tree, i)
    ensures (forall i | 0 <= i < |entries| :: HomeCanBeMade(old(volume.tree), entries[i].destination)) && o == Done ==>
              plan.HasRoom(volume.tree)
    ensures Creatable(old(volume.tree), workRoot + ["backup"]) && o != Done ==> Troubles(volume.faults) < Troubles(old(volume.faults))
    ensures Troubles(volume.faults) <= Troubles(old(volume.faults))
  {
    ghost var was := volume.tree;
    volume.begun, volume.committed := false, false;
    o := volume.MakeDirectory(workRoot + ["backup"]);
    ScaffoldMade(was, volume.tree, workRoot);
    WorkRootMade(plan, was, volume.tree);
    if o == Done {
      if forall i | 0 <= i < |entries| :: HomeCanBeMade(was, entries[i].destination) {
        RoomMade(plan, was, volume.tree);
      }
      o := volume.WriteJournal(Journal(root, workRoot, Prepared, entries, false, None));
    }
  }

  /** The tail of a reconciliation: publish, record and rewrite Config.toml, commit, and dispose on the
      way out. `configWrites` are the contents Config.toml is given in turn. */
  method PublishAndCommit(volume: Volume, root: Path, workRoot: Path, requested: seq<Requested>,
                          configWrites: seq<Bytes>)
    returns (o: Outcome, ghost plan: Plan)
    requires WellFormed(volume.tree) && FreshWorkRoot(volume.tree, root, workRoot)
    requires requested != [] && volume.journal == None
    modifies volume
    ensures o.Refused? <==> !Acceptable(old(volume.tree), root, requested)
    ensures o.Refused? ==> unchanged(volume)
    ensures o == Done ==> volume.committed
    ensures RoomFor(old(volume.tree), requested) && o != Done && !o.Refused? ==> Troubles(volume.faults) < Troubles(old(volume.faults))
    ensures Troubles(volume.faults) <= Troubles(old(volume.faults))
    ensures !o.Refused? ==>
              && volume.Recoverable(plan)
              && Journaled(old(volume.tree), workRoot, requested, plan.entries)
              && plan == PlanFor(old(volume.tree), root, workRoot, plan.entries, old(volume.config),
                                 ConfigAfter(old(volume.config), configWrites))
  {
    var configSnapshot := volume.config;
    var begun;
    begun, plan := Begin(volume, root, workRoot, requested, ConfigAfter(volume.config, configWrites));
    if begun.NotBegun? {
      return begun.outcome, plan;
    }
    var transaction := begun.transaction;
    o := transaction.Publish(plan);
    if o == Done {
      o := ApplyConfiguration(transaction, configSnapshot, configWrites, plan);
      if o == Done {
        o := transaction.Commit(plan);
        assert o == Done ==> volume.committed;
      }
    }
    if o == Crashed {
      return;
    }
    var disposed := transaction.Dispose(plan);
    o := if o == Done then Done else if disposed == Crashed then Crashed else o;
  }

  /** Neither holds nor lies in anything a transaction of these entries works on. */
  ghost predicate Beside(workRoot: Path, requested: seq<Requested>, r: Path) {
    Apart(workRoot, r)
    && forall i {:trigger requested[i]} | 0 <= i < |requested| ::
         Apart(requested[i].prepared, r) && Apart(requested[i].destination, r)
  }

  function ConfigAfter(before: Option<Bytes>, writes: seq<Bytes>): Option<Bytes> {
    if writes == [] then before else Some(writes[|writes| - 1])
  }

  method ApplyConfiguration(transaction: Transaction, snapshot: Option<Bytes>, writes: seq<Bytes>, ghost plan: Plan)
    returns (o: Outcome)
    requires transaction.Active(plan) && transaction.journal.state == Published
    requires transaction.volume.AllPublished(plan)
    requires transaction.volume.config == snapshot == plan.configBefore
    requires plan.configAfter == ConfigAfter(snapshot, writes)
    modifies transaction`journal, transaction.volume`journal, transaction.volume`config,
             transaction.volume`faults, transaction.volume`begun, transaction.volume`committed
    ensures transaction.volume.Recoverable(plan) && !transaction.volume.committed && !o.Refused?
    ensures o != Crashed ==> transaction.Active(plan)
    ensures o == Done ==> transaction.journal.state == Published && transaction.volume.AllAfter(plan)
    ensures o != Done ==> Troubles(transaction.volume.faults) < Troubles(old(transaction.volume.faults))
    ensures Troubles(transaction.volume.faults) <= Troubles(old(transaction.volume.faults))
  {
    if writes == [] {
      return Done;
    }
    o := transaction.RecordRuntimeConfigurationMutation(snapshot, plan);
    if o != Done {
      return;
    }
    var i := 0;
    while i < |writes|
      modifies transaction.volume`config, transaction.volume`faults
      invariant 0 <= i <= |writes|
      invariant transaction.Active(plan) && transaction.volume.journal.value.configPlanned
      invariant i > 0 ==> transaction.volume.config == Some(writes[i - 1])
      invariant Troubles(transaction.volume.faults) <= Troubles(old(transaction.volume.faults))
    {
      o := transaction.WriteRuntimeConfiguration(writes[i], plan);
      if o != Done {
        return;
      }
      i := i + 1;
    }
    o := Done;
  }

  /** All or nothing over every run: whatever step fails or is the last of its process, in the
      operation, in its rollback or in any later recovery, the lock acquisitions that follow come to
      an end with every destination and Config.toml as before, or - exactly when the commit became
      durable - all as published; and nothing beside the transaction has changed. Where there is room for
      the destinations, only a step that fails or is the last keeps it from being published. */
  method PublishThenRecover(volume: Volume, root: Path, workRoot: Path, requested: seq<Requested>,
                            configWrites: seq<Bytes>)
    returns (o: Outcome, ghost plan: Plan)
    requires WellFormed(volume.tree) && FreshWorkRoot(volume.tree, root, workRoot)
    requires 0 < |requested| <= MAXIMUM_JOURNAL_ENTRIES && volume.journal == None
    modifies volume
    ensures WellFormed(volume.tree) && volume.journal == None
    ensures o.Refused? <==> !Acceptable(old(volume.tree), root, requested)
    ensures o.Refused? ==> unchanged(volume)
    ensures o == Done ==> volume.committed
    ensures !o.Refused? ==> volume.Swept(workRoot)
    ensures Troubles(old(volume.faults)) == 0 && RoomFor(old(volume.tree), requested) && !o.Refused? ==> o == Done
    ensures !o.Refused? ==> forall i | 0 <= i < |requested| ::
              Tree(volume.tree, requested[i].destination) ==
              Tree(old(volume.tree), if volume.committed then requested[i].prepared else requested[i].destination)
    ensures !o.Refused? && volume.committed ==>
              forall i | 0 <= i < |requested| :: Tree(volume.tree, requested[i].prepared) == map[]
    ensures !o.Refused? ==>
              volume.config == if volume.committed then ConfigAfter(old(volume.config), configWrites) else old(volume.config)
    ensures forall r {:trigger Tree(volume.tree, r)} | Beside(workRoot, requested, r) ::
              Tree(volume.tree, r) == Tree(old(volume.tree), r)
  {
    o, plan := PublishAndCommit(volume, root, workRoot, requested, configWrites);
    if o.Refused? {
      return;
    }
    var recovered := Recover(volume, root, plan);
    while recovered != Done
      invariant volume.Recoverable(plan) && !recovered.Refused?
      invariant o == Done ==> volume.committed
      invariant recovered == Done ==> volume.journal == None
      decreases Troubles(volume.faults), recovered != Done
    {
      recovered := Recover(volume, root, plan);
    }
    SettledTrees(plan, requested, volume.tree, volume.committed);
  }

  /** What a settled plan says of the paths that were asked for. */
  lemma SettledTrees(plan: Plan, requested: seq<Requested>, now: Fs, committed: bool)
    requires plan.Valid() && Journaled(plan.start, plan.workRoot, requested, plan.entries)
    requires plan == PlanFor(plan.start, plan.root, plan.workRoot, plan.entries, plan.configBefore, plan.configAfter)
    requires plan.BystandersKept(plan.start, now)
    requires forall i | 0 <= i < |plan.entries| :: if committed then plan.PublishedAt(now, i) else plan.RestoredAt(now, i)
    ensures forall i | 0 <= i < |requested| ::
              Tree(now, requested[i].destination) ==
              Tree(plan.start, if committed then requested[i].prepared else requested[i].destination)
    ensures committed ==> forall i | 0 <= i < |requested| :: Tree(now, requested[i].prepared) == map[]
    ensures forall r {:trigger Tree(now, r)} | Beside(plan.workRoot, requested, r) :: Tree(now, r) == Tree(plan.start, r)
  {
    forall i | 0 <= i < |requested|
      ensures Tree(now, requested[i].destination) ==
              Tree(plan.start, if committed then requested[i].prepared else requested[i].destination)
      ensures committed ==> Tree(now, requested[i].prepared) == map[]
    {
      assert if committed then plan.PublishedAt(now, i) else plan.RestoredAt(now, i);
      assert plan.entries[i] == JournalEntry(plan.start, plan.workRoot, requested[i], i);
    }
    forall r | Beside(plan.workRoot, requested, r) ensures Tree(now, r) == Tree(plan.start, r) {
      assert forall i | 0 <= i < |plan.entries| ::
          plan.entries[i] == JournalEntry(plan.start, plan.workRoot, requested[i], i);
      assert plan.Bystander(r);
    }
  }
}
