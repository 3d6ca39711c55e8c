/** The durable state of one installation's volume, with every step able to fail or to be the last. */
module Volumes {
  import opened FileTree
  import opened TransactionPlan
  import opened Wrappers

  /** What happens to one durable step. `lost` is how far an interrupted recursive delete got. */
  datatype Fault = Works | Fails(lost: set<Path>) | CrashesBefore(lost: set<Path>) | CrashesAfter

  datatype Refusal = NotInRequiredState | UnfinishedTransaction | NoEntries | BadEntries
                   | InvalidJournal | BackupMissing | RecoveryAmbiguous

  datatype Outcome = Done | IoError | Crashed | Refused(reason: Refusal)

  /** How many steps of a script do not simply work. */
  function Troubles(faults: seq<Fault>): nat {
    if faults == [] then 0 else (if faults[0].Works? then 0 else 1) + Troubles(faults[1..])
  }

  // ---- The volume -----------------------------------------------------------------------------

  /** Durable state: the tree, the journal file and Config.toml. `faults` scripts the steps to come;
      once it is empty every step works. Two facts are history: `begun`, a journal of this transaction
      became durable, and `committed`, the last one said so. */
  class Volume {
    var tree: Fs
    var journal: Option<Journal>
    var config: Option<Bytes>
    var faults: seq<Fault>
    ghost var begun: bool
    ghost var committed: bool

    method NextFault() returns (f: Fault)
      modifies this`faults
      ensures f != Works ==> Troubles(faults) < Troubles(old(faults))
      ensures Troubles(faults) <= Troubles(old(faults))
    {
      f := Works;
      if faults != [] {
        f := faults[0];
        faults := faults[1..];
      }
    }

    method MakeDirectory(p: Path) returns (o: Outcome)
      requires WellFormed(tree)
      modifies this`tree, this`faults
      ensures WellFormed(tree) && !o.Refused?
      ensures o == Done ==> p in tree && tree[p].DirectoryNode?
      ensures o != Done && Creatable(old(tree), p) ==> Troubles(faults) < Troubles(old(faults))
      ensures Troubles(faults) <= Troubles(old(faults))
      ensures forall k | k in old(tree) :: k in tree && tree[k] == old(tree)[k]
      ensures forall k | k in tree :: k in old(tree) || tree[k].DirectoryNode?
      ensures forall r {:trigger Tree(tree, r)} | !(r <= p) :: Tree(tree, r) == Tree(old(tree), r)
    {
      var f := NextFault();
      if !Creatable(tree, p) || f.Fails? {
        return if f.Works? || f.Fails? then IoError else Crashed;
      }
      if f.CrashesBefore? {
        return Crashed;
      }
      ghost var was := tree;
      CreateDirectoryWellFormed(tree, p);
      tree := CreateDirectory(tree, p);
      forall r | !(r <= p) ensures Tree(tree, r) == Tree(was, r) {
        CreateFrame(was, p, r);
      }
      o := if f.CrashesAfter? then Crashed else Done;
    }

    predicate Renamable(src: Path, dst: Path, kind: Kind)
      reads this
      requires dst != []
    {
      Exists(tree, src, kind) && dst !in tree && Parent(dst) in tree && tree[Parent(dst)].DirectoryNode?
    }

    /** An atomic same-volume rename onto a free path. */
    method Rename(src: Path, dst: Path, kind: Kind) returns (o: Outcome)
      requires WellFormed(tree) && Apart(src, dst) && dst != []
      modifies this`tree, this`faults
      ensures WellFormed(tree) && !o.Refused?
      ensures tree == old(tree) || (old(Renamable(src, dst, kind))
              && Tree(tree, dst) == Tree(old(tree), src) && Tree(tree, src) == map[])
      ensures o == Done ==> old(Renamable(src, dst, kind)) && Tree(tree, dst) == Tree(old(tree), src)
                            && Tree(tree, src) == map[]
      ensures o == IoError ==> tree == old(tree)
      ensures o != Done && old(Renamable(src, dst, kind)) ==> Troubles(faults) < Troubles(old(faults))
      ensures Troubles(faults) <= Troubles(old(faults))
      ensures forall k | k in old(tree) && !(src <= k) :: k in tree && tree[k] == old(tree)[k]
      ensures forall k | k in tree && !(dst <= k) :: k in old(tree) && tree[k] == old(tree)[k]
      ensures forall r {:trigger Tree(tree, r)} | Apart(src, r) && Apart(dst, r) :: Tree(tree, r) == Tree(old(tree), r)
    {
      var f := NextFault();
      if !Renamable(src, dst, kind) || f.Fails? {
        return if f.Works? || f.Fails? then IoError else Crashed;
      }
      if f.CrashesBefore? {
        return Crashed;
      }
      ghost var was := tree;
      MoveArrives(tree, src, dst);
      MoveWellFormed(tree, src, dst);
      tree := MoveTree(tree, src, dst);
      forall k | k in was && !(src <= k) ensures k in tree && tree[k] == was[k] {
        MoveAt(was, src, dst, k);
        if dst <= k {
          AncestorsExist(was, dst, k);
        }
      }
      forall k | k in tree && !(dst <= k) ensures k in was && tree[k] == was[k] {
        MoveAt(was, src, dst, k);
      }
      forall r | Apart(src, r) && Apart(dst, r) ensures Tree(tree, r) == Tree(was, r) {
        MoveFrame(was, src, dst, r);
      }
      o := if f.CrashesAfter? then Crashed else Done;
    }

    /** Deletes a file or a whole directory; an interrupted delete leaves a smaller tree behind. */
    method Delete(p: Path) returns (o: Outcome)
      requires WellFormed(tree)
      modifies this`tree, this`faults
      ensures WellFormed(tree) && !o.Refused?
      ensures o == Done ==> p !in tree
      ensures o != Done ==> Troubles(faults) < Troubles(old(faults))
      ensures Troubles(faults) <= Troubles(old(faults))
      ensures forall k | k in tree :: k in old(tree) && tree[k] == old(tree)[k]
      ensures forall k | k in old(tree) && !(p <= k) :: k in tree
      ensures forall r {:trigger Tree(tree, r)} | Apart(p, r) :: Tree(tree, r) == Tree(old(tree), r)
    {
      var f := NextFault();
      FullDelete(tree, p);
      var gone := Below(tree, p);
      if f.Fails? || f.CrashesBefore? {
        gone := if PartialDelete(tree, p, f.lost) then f.lost else {};
        assert tree - {} == tree;
      }
      forall r | Apart(p, r) ensures Tree(tree - gone, r) == Tree(tree, r) {
        DeleteFrame(tree, p, gone, r);
      }
      tree := tree - gone;
      o := match f case Works => Done case Fails(_) => IoError case _ => Crashed;
    }

    /** Atomic replacement of the journal file. */
    method WriteJournal(j: Journal) returns (o: Outcome)
      modifies this`journal, this`faults, this`begun, this`committed
      ensures !o.Refused?
      ensures o == Done ==> journal == Some(j) && begun
      ensures o == IoError ==> journal == old(journal)
      ensures (journal == Some(j) && begun && committed == (j.state == Committed))
              || (journal == old(journal) && begun == old(begun) && committed == old(committed))
      ensures o == Done ==> committed == (j.state == Committed)
      ensures o != Done ==> Troubles(faults) < Troubles(old(faults))
      ensures Troubles(faults) <= Troubles(old(faults))
    {
      var f := NextFault();
      if f.Works? || f.CrashesAfter? {
        journal := Some(j);
        begun := true;
        committed := j.state == Committed;
      }
      o := match f case Works => Done case Fails(_) => IoError case _ => Crashed;
    }

    method DeleteJournal() returns (o: Outcome)
      modifies this`journal, this`faults
      ensures !o.Refused?
      ensures o == Done ==> journal == None
      ensures journal == None || journal == old(journal)
      ensures o != Done ==> Troubles(faults) < Troubles(old(faults))
      ensures Troubles(faults) <= Troubles(old(faults))
    {
      var f := NextFault();
      if f.Works? || f.CrashesAfter? {
        journal := None;
      }
      o := match f case Works => Done case Fails(_) => IoError case _ => Crashed;
    }

    /** Atomic replacement (or removal) of Config.toml. */
    method WriteConfig(contents: Option<Bytes>) returns (o: Outcome)
      modifies this`config, this`faults
      ensures !o.Refused?
      ensures o == Done ==> config == contents
      ensures config == contents || config == old(config)
      ensures o != Done ==> Troubles(faults) < Troubles(old(faults))
      ensures Troubles(faults) <= Troubles(old(faults))
    {
      var f := NextFault();
      if f.Works? || f.CrashesAfter? {
        config := contents;
      }
      o := match f case Works => Done case Fails(_) => IoError case _ => Crashed;
    }

    // ---- What the journal promises ------------------------------------------------------------

    ghost predicate AllBefore(plan: Plan)
      reads this
      requires plan.Valid()
    {
      config == plan.configBefore
      && forall i | 0 <= i < |plan.entries| :: plan.RestoredAt(tree, i)
    }

    ghost predicate AllPublished(plan: Plan)
      reads this
      requires plan.Valid()
    {
      forall i | 0 <= i < |plan.entries| :: plan.PublishedAt(tree, i)
    }

    ghost predicate AllAfter(plan: Plan)
      reads this
      requires plan.Valid()
    {
      config == plan.configAfter && AllPublished(plan)
    }

    ghost predicate AllRestorable(plan: Plan)
      reads this
      requires plan.Valid()
    {
      forall i | 0 <= i < |plan.entries| :: plan.Restorable(tree, i)
    }

    /** The work directory is gone, exactly unless the first journal never became durable; then nothing was
        ever moved into it. */
    ghost predicate Swept(workRoot: Path)
      reads this
    {
      if begun then Tree(tree, workRoot) == map[] else OnlyScaffold(tree, workRoot) && !committed
    }

    /** The invariant of every durable state a transaction can leave behind: without a journal nobody would
        ever look for the work directory again, so then it is gone, or never held anything. */
    ghost predicate Recoverable(plan: Plan)
      reads this
    {
      WellFormed(tree) && plan.Valid()
      && plan.BystandersKept(plan.start, tree)
      && (journal.Some? ==> begun) && (journal == None ==> Swept(plan.workRoot))
      && (match journal
          case None => if committed then AllAfter(plan) else AllBefore(plan)
          case Some(j) =>
            && plan.Describes(j)
            && committed == (j.state == Committed)
            && (match j.state
                case Committed => AllAfter(plan)
                case RolledBack => AllBefore(plan)
                case _ => AllRestorable(plan) && (!j.configPlanned ==> config == plan.configBefore)))
    }
  }
}
