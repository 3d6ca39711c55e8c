/** The repair service as it runs: plan, refresh, build, and one crash-safe transaction, with the
    installation read from the volume before and after. */
module RepairService {
  import opened FileTree
  import opened InstallTransaction
  import opened Installation
  import opened PortablePaths
  import opened ProductRepair
  import opened PublishedEntries
  import opened PublishedTree
  import opened Volumes
  import opened Wrappers
  import TransactionPlan

  /** How a reconciliation ended: with an error before anything was published, with nothing to do, or
      with a transaction and whatever the lock acquisitions after it finished. */
  datatype Report = Failed(error: RepairError) | NothingToDo | Transacted(outcome: Outcome)

  /** Only the workspace's copies of the game inputs differ. */
  predicate OnlyRefreshed(before: Disk, now: Disk) {
    now == before.(workspaceDol := now.workspaceDol, workspaceRel := now.workspaceRel)
  }

  /** What a report promises, given the installation before and after, what the reconciliation should come
      to, and whether a commit became durable. The transaction is refused exactly when something of the
      wrong kind is `inTheWay`; one that is `clear` to run, with room and no step that fails, succeeds.
      After a transaction the installation is the planned one exactly when its commit became durable,
      which success implies; otherwise, as after any error, nothing published has changed. */
  predicate Reported(before: Disk, now: Disk, result: Result<Disk, RepairError>, r: Report, committed: bool,
                     inTheWay: bool, clear: bool)
  {
    match r
    case Failed(e) => result == Err(e) && OnlyRefreshed(before, now)
    case NothingToDo => result == Ok(before) && now == before
    case Transacted(o) =>
      && result.Ok? && (o.Refused? <==> inTheWay) && (clear && !inTheWay ==> o == Done) && (o == Done ==> committed)
      && (if committed && !o.Refused? then now == result.value else OnlyRefreshed(before, now))
  }

  /** Refreshing the workspace first changes nothing about a later report. */
  lemma ReportedBefore(before: Disk, refreshed: Disk, now: Disk, result: Result<Disk, RepairError>, r: Report,
                       committed: bool, inTheWay: bool, clear: bool)
    requires OnlyRefreshed(before, refreshed) && r != NothingToDo
    requires Reported(refreshed, now, result, r, committed, inTheWay, clear)
    ensures Reported(before, now, result, r, committed, inTheWay, clear)
  {}

  /** The entries publication comes to. */
  function EntriesFrom(d: Disk, toolkit: string, q: Request, staged: Option<Payload>, plan: Plan, out: Outputs,
                       scratch: Scratch): seq<Entry>
  {
    if PublicationError(d, toolkit, plan, staged).Some? then [] else PlannedEntries(d, q, staged, plan, out, scratch)
  }

  /** The entries a plan publishes, once its outputs are built. */
  function EntriesOf(d: Disk, toolkit: string, q: Request, staged: Option<Payload>, plan: Plan, built: Option<Built>,
                     scratch: Scratch): seq<Entry>
  {
    match Produced(d, toolkit, q, staged, plan, built)
    case Err(_) => []
    case Ok((refreshed, out)) => EntriesFrom(refreshed, toolkit, q, staged, plan, out, scratch)
  }

  /** What a carried-out plan comes to, from the build's result on. */
  ghost predicate FromTheBuildOn(d: Disk, refreshed: Disk, toolkit: string, q: Request, staged: Option<Payload>, plan: Plan,
                                 built: Option<Built>, r: Result<Outputs, RepairError>)
  {
    match r
    case Err(e) => CarriedOut(d, toolkit, q, staged, plan, built) == Err(e)
    case Ok(out) =>
      && CarriedOut(d, toolkit, q, staged, plan, built) == PublishedFrom(refreshed, toolkit, q, staged, plan, out)
      && forall scratch :: EntriesOf(d, toolkit, q, staged, plan, built, scratch)
                           == EntriesFrom(refreshed, toolkit, q, staged, plan, out, scratch)
  }

  /** The entries a request comes to. */
  function EntriesFor(d: Disk, q: Request, built: Option<Built>, scratch: Scratch): seq<Entry> {
    var t, staged := ResolveToolkitFingerprint(d), StagedPayload(d, q);
    var plan := PlanFor(d, t, q, staged);
    if Preflight(d, q).Some? || !HasWork(plan) then [] else EntriesOf(d, t, q, staged, plan, built, scratch)
  }

  /** What building and staging leave on the volume: everything outside the scratch directory as it was,
      and inside it the files the entries publish. */
  ghost predicate Staged(r: Reader, was: Fs, now: Fs, scratch: Path, entries: seq<Entry>) {
    && WellFormed(now) && AllHold(r, now, entries) && Prepared(now, entries)
    && forall p {:trigger Tree(now, p)} | TransactionPlan.Apart(scratch, p) :: Tree(now, p) == Tree(was, p)
  }

  /** Nothing keeps the entries from being published: no file stands among the parents of a destination,
      and no step of the script to come fails or is the last. */
  ghost predicate Clear(fs: Fs, root: Path, entries: seq<Entry>, faults: seq<Fault>) {
    Troubles(faults) == 0 && TransactionPlan.RoomFor(fs, Requests(root, entries))
  }

  /** Staging does not show in the installation. */
  lemma StagingReads(r: Reader, site: Site, rest: Disk, was: Fs, now: Fs, config: Option<Bytes>, scratch: Path,
                     entries: seq<Entry>)
    requires site.configDirectory != [] && ScratchApart(site.root, scratch) && Staged(r, was, now, scratch, entries)
    ensures ReadDisk(r, site, rest, now, config) == ReadDisk(r, site, rest, was, config)
  {
    UndoneReads(r, site, rest, was, now, config, scratch, scratch, []);
  }

  /** A settled transaction, read back. */
  lemma SettledReads(r: Reader, site: Site, rest: Disk, was: Fs, now: Fs, config: Option<Bytes>, config': Option<Bytes>,
                     committed: bool, workRoot: Path, before: Disk, entries: seq<Entry>, q: Request,
                     staged: Option<Payload>, plan: Plan, out: Outputs, scratch: Scratch)
    requires Absolute(site.configDirectory) && TextSurvives(r) && Publishable(before, plan, q, out)
    requires before == ReadDisk(r, site, rest, was, config)
    requires entries == PlannedEntries(before, q, staged, plan, out, scratch)
    requires q.canonicalRoot.Some? ==> CanonicalText(site, q.canonicalRoot.value)
    requires Placed(site.root, workRoot, scratch.root, entries) && AllHold(r, was, entries)
    requires Settled(was, now, site.root, workRoot, entries, committed)
    requires config' == if committed then ConfigAfter(config, ConfigWrites(r, site, q, config)) else config
    ensures ReadDisk(r, site, rest, now, config') == if committed then Published(before, q, staged, plan, out) else before
  {
    if committed {
      CommittedReads(r, site, rest, was, now, config, workRoot, before, q, staged, plan, out, scratch);
    } else {
      UndoneReads(r, site, rest, was, now, config, workRoot, scratch.root, entries);
    }
  }

  class Service {
    const volume: Volume
    const reader: Reader
    const site: Site
    // toolkit, game data and workspace; its published parts are not used
    var rest: Disk

    constructor (volume: Volume, reader: Reader, site: Site, rest: Disk)
      ensures this.volume == volume && this.reader == reader && this.site == site && this.rest == rest
    {
      this.volume, this.reader, this.site, this.rest := volume, reader, site, rest;
    }

    /** The installation as it is on the volume now. */
    function Installed(): Disk
      requires site.configDirectory != []
      reads this, volume
    {
      ReadDisk(reader, site, rest, volume.tree, volume.config)
    }

    /** The lock is held, and the scratch and work directories lie beside everything published. */
    ghost predicate Ready(scratch: Scratch, workRoot: Path)
      reads this, volume
    {
      && WellFormed(volume.tree) && volume.journal == None && TextSurvives(reader) && Absolute(site.configDirectory)
      && TransactionPlan.FreshWorkRoot(volume.tree, site.root, workRoot) && ScratchApart(site.root, scratch.root)
    }

    /** Puts the verified game inputs into the workspace; only workspace copies change. */
    method RefreshTranslationAssets(dol: string, rel: string) returns (ok: bool)
      modifies this`rest
      ensures ok <==> Refreshable(old(rest), dol, rel)
      ensures ok ==> rest == old(rest).(workspaceDol := Some(RefreshedCopy(old(rest).workspaceDol, old(rest).game.dol.value, dol)),
                                        workspaceRel := Some(RefreshedCopy(old(rest).workspaceRel, old(rest).game.rel.value, rel)))
      ensures rest == old(rest).(workspaceDol := rest.workspaceDol, workspaceRel := rest.workspaceRel)
    {
      var index := 0;
      while index < 2
        invariant 0 <= index <= 2
        invariant index >= 1 ==> rest.game.dol.Some? && Same(rest.game.dol.value, dol)
        invariant index >= 2 ==> rest.game.rel.Some? && Same(rest.game.rel.value, rel)
        invariant rest == old(rest).(workspaceDol := rest.workspaceDol, workspaceRel := rest.workspaceRel)
        invariant rest.workspaceDol == (if index >= 1 then Some(RefreshedCopy(old(rest).workspaceDol, rest.game.dol.value, dol))
                                        else old(rest).workspaceDol)
        invariant rest.workspaceRel == (if index >= 2 then Some(RefreshedCopy(old(rest).workspaceRel, rest.game.rel.value, rel))
                                        else old(rest).workspaceRel)
      {
        var source := if index == 0 then rest.game.dol else rest.game.rel;
        var copy := if index == 0 then rest.workspaceDol else rest.workspaceRel;
        var expected := if index == 0 then dol else rel;
        if source.None? || !Same(source.value, expected) {
          return false;
        }
        if !(copy.Some? && Same(copy.value, expected)) {
          if index == 0 {
            rest := rest.(workspaceDol := source);
          } else {
            rest := rest.(workspaceRel := source);
          }
        }
        index := index + 1;
      }
      ok := true;
    }

    /** Refreshes the workspace and hands the build's outputs on; nothing published changes. */
    method Build(toolkit: string, q: Request, staged: Option<Payload>, plan: Plan, built: Option<Built>)
      returns (r: Result<Outputs, RepairError>)
      requires site.configDirectory != []
      modifies this`rest
      ensures HasWork(plan) ==> FromTheBuildOn(old(Installed()), Installed(), toolkit, q, staged, plan, built, r)
      ensures r.Ok? ==> r.value.base.Some? == plan.rebuildBase && r.value.retro.Some? == plan.rebuildRetro
      ensures OnlyRefreshed(old(Installed()), Installed())
    {
      var d := Installed();
      var produced := Produced(d, toolkit, q, staged, plan, built);
      if plan.rebuildBase || plan.rebuildRetro {
        var (dol, rel) := AuthoritativeHashes(d, q);
        if ToolkitModifiedOnDisk(d, toolkit) {
          return Err(ToolkitModified);
        }
        if Blank(dol) || Blank(rel) {
          return Err(GameInputsUnknown);
        }
        var refreshed := RefreshTranslationAssets(dol, rel);
        if !refreshed {
          return Err(GameInputsMismatch);
        }
      }
      r := if produced.Ok? then Ok(produced.value.1) else Err(produced.error);
    }

    /** The entries as one transaction, up to the lock acquisition that finds nothing left of it.
        `acceptable` and `clear` name what is so at its start. */
    method Transact(entries: seq<Entry>, writes: seq<Bytes>, workRoot: Path, ghost acceptable: bool, ghost clear: bool) returns (o: Outcome)
      requires WellFormed(volume.tree) && volume.journal == None
      requires TransactionPlan.FreshWorkRoot(volume.tree, site.root, workRoot)
      requires 0 < |Requests(site.root, entries)| <= TransactionPlan.MAXIMUM_JOURNAL_ENTRIES
      requires acceptable <==> TransactionPlan.Acceptable(volume.tree, site.root, Requests(site.root, entries))
      requires clear ==> Clear(volume.tree, site.root, entries, volume.faults)
      modifies volume
      ensures WellFormed(volume.tree) && volume.journal == None
      ensures o.Refused? <==> !acceptable
      ensures o.Refused? ==> unchanged(volume)
      ensures o == Done ==> volume.committed
      ensures clear && !o.Refused? ==> o == Done
      ensures !o.Refused? ==> volume.Swept(workRoot)
      ensures !o.Refused? ==>
                && Settled(old(volume.tree), volume.tree, site.root, workRoot, entries, volume.committed)
                && volume.config == if volume.committed then ConfigAfter(old(volume.config), writes) else old(volume.config)
    {
      ghost var was, requests := volume.tree, Requests(site.root, entries);
      ghost var plan;
      o, plan := PublishThenRecover(volume, site.root, workRoot, Requests(site.root, entries), writes);
      if !o.Refused? {
        forall i | 0 <= i < |entries|
          ensures Tree(volume.tree, Destination(site.root, entries[i].slot))
                  == Tree(was, if volume.committed then entries[i].prepared else Destination(site.root, entries[i].slot))
        {
          assert requests[i] == Requested(site.root, entries[i]);
        }
      }
    }

    /** The planned entries as one transaction, read back. */
    method PublishEntries(entries: seq<Entry>, q: Request, ghost staged: Option<Payload>, ghost plan: Plan,
                          ghost out: Outputs, ghost scratch: Scratch, workRoot: Path)
      returns (o: Outcome)
      requires Ready(scratch, workRoot) && Publishable(Installed(), plan, q, out) && HasWork(plan)
      requires q.canonicalRoot.Some? ==> CanonicalText(site, q.canonicalRoot.value)
      requires entries == PlannedEntries(Installed(), q, staged, plan, out, scratch)
      requires AllHold(reader, volume.tree, entries) && Prepared(volume.tree, entries)
      modifies volume
      ensures WellFormed(volume.tree) && volume.journal == None
      ensures o.Refused? <==> InTheWay(old(volume.tree), site.root, entries)
      ensures o.Refused? ==> unchanged(volume)
      ensures Clear(old(volume.tree), site.root, entries, old(volume.faults)) && !o.Refused? ==> o == Done
      ensures !o.Refused? ==> volume.Swept(workRoot)
      ensures EndedAs(old(Installed()), Published(old(Installed()), q, staged, plan, out), o)
    {
      ghost var before := Installed();
      PlanIsAccepted(volume.tree, site.root, scratch, before, q, staged, plan, out);
      o := TransactAndRead(entries, q, staged, plan, out, scratch, workRoot,
                           !InTheWay(volume.tree, site.root, entries), Clear(volume.tree, site.root, entries, volume.faults));
    }

    /** The transaction of the planned entries, whatever the file system makes of it. */
    method TransactAndRead(entries: seq<Entry>, q: Request, ghost staged: Option<Payload>, ghost plan: Plan,
                           ghost out: Outputs, ghost scratch: Scratch, workRoot: Path, ghost acceptable: bool, ghost clear: bool)
      returns (o: Outcome)
      requires Ready(scratch, workRoot) && Publishable(Installed(), plan, q, out)
      requires q.canonicalRoot.Some? ==> CanonicalText(site, q.canonicalRoot.value)
      requires entries == PlannedEntries(Installed(), q, staged, plan, out, scratch)
      requires AllHold(reader, volume.tree, entries)
      requires 0 < |Requests(site.root, entries)| <= TransactionPlan.MAXIMUM_JOURNAL_ENTRIES
      requires acceptable <==> TransactionPlan.Acceptable(volume.tree, site.root, Requests(site.root, entries))
      requires clear ==> Clear(volume.tree, site.root, entries, volume.faults)
      modifies volume
      ensures WellFormed(volume.tree) && volume.journal == None
      ensures o.Refused? <==> !acceptable
      ensures o.Refused? ==> unchanged(volume)
      ensures clear && !o.Refused? ==> o == Done
      ensures !o.Refused? ==> volume.Swept(workRoot)
      ensures EndedAs(old(Installed()), Published(old(Installed()), q, staged, plan, out), o)
    {
      ghost var was, before, config := volume.tree, Installed(), volume.config;
      PlannedInScratch(before, q, staged, plan, out, scratch);
      SiblingApart(was, site.root, workRoot);
      o := Transact(entries, ConfigWrites(reader, site, q, volume.config), workRoot, acceptable, clear);
      if !o.Refused? {
        SettledReads(reader, site, rest, was, volume.tree, config, volume.config, volume.committed, workRoot, before,
                     entries, q, staged, plan, out, scratch);
      }
    }

    /** One transaction: all entries and the configured root, or, whatever step fails or is the last of
        its process, nothing - exactly as the commit became durable. */
    method PublishProducts(toolkit: string, q: Request, staged: Option<Payload>, plan: Plan, out: Outputs,
                           scratch: Scratch, workRoot: Path)
      returns (r: Report)
      requires Ready(scratch, workRoot) && Coherent(plan, q) && HasWork(plan)
      requires out.base.Some? == plan.rebuildBase && out.retro.Some? == plan.rebuildRetro
      requires q.canonicalRoot.Some? ==> CanonicalText(site, q.canonicalRoot.value)
      requires AllHold(reader, volume.tree, EntriesFrom(Installed(), toolkit, q, staged, plan, out, scratch))
      requires Prepared(volume.tree, EntriesFrom(Installed(), toolkit, q, staged, plan, out, scratch))
      modifies volume
      ensures WellFormed(volume.tree) && volume.journal == None && r != NothingToDo
      ensures r.Transacted? && !r.outcome.Refused? ==> volume.Swept(workRoot)
      ensures var entries := EntriesFrom(old(Installed()), toolkit, q, staged, plan, out, scratch);
              Reported(old(Installed()), Installed(), PublishedFrom(old(Installed()), toolkit, q, staged, plan, out), r,
                       volume.committed, InTheWay(old(volume.tree), site.root, entries),
                       Clear(old(volume.tree), site.root, entries, old(volume.faults)))
    {
      var planned := PublicationEntries(Installed(), toolkit, q, staged, plan, out, scratch);
      if planned.Err? {
        return Failed(planned.error);
      }
      ProvenIsPublishable(Installed(), toolkit, staged, plan, q, out);
      var outcome := PublishEntries(planned.value, q, staged, plan, out, scratch, workRoot);
      r := Transacted(outcome);
    }

    /** How a transaction may end: the planned installation or the old one, as the commit became durable;
        success says that it did. */
    ghost predicate EndedAs(before: Disk, planned: Disk, o: Outcome)
      requires site.configDirectory != []
      reads this, volume
    {
      && (o == Done ==> volume.committed)
      && Installed() == if volume.committed && !o.Refused? then planned else before
    }

    /** The prepared files appear in the scratch directory. */
    method Stage(written: Fs, ghost scratch: Scratch, ghost workRoot: Path, ghost entries: seq<Entry>)
      requires Ready(scratch, workRoot) && Staged(reader, volume.tree, written, scratch.root, entries)
      requires TransactionPlan.FreshWorkRoot(written, site.root, workRoot)
      modifies volume`tree
      ensures Ready(scratch, workRoot) && Installed() == old(Installed()) && volume.tree == written
      ensures AllHold(reader, volume.tree, entries) && Prepared(volume.tree, entries)
    {
      StagingReads(reader, site, rest, volume.tree, written, volume.config, scratch.root, entries);
      volume.tree := written;
    }

    /** Stages what was built, and publishes it. */
    method PublishBuilt(toolkit: string, q: Request, staged: Option<Payload>, plan: Plan, out: Outputs, scratch: Scratch,
                        workRoot: Path, written: Fs)
      returns (r: Report)
      requires Ready(scratch, workRoot) && Coherent(plan, q) && HasWork(plan)
      requires out.base.Some? == plan.rebuildBase && out.retro.Some? == plan.rebuildRetro
      requires q.canonicalRoot.Some? ==> CanonicalText(site, q.canonicalRoot.value)
      requires Staged(reader, volume.tree, written, scratch.root, EntriesFrom(Installed(), toolkit, q, staged, plan, out, scratch))
      requires TransactionPlan.FreshWorkRoot(written, site.root, workRoot)
      modifies volume
      ensures volume.journal == None && r != NothingToDo
      ensures r.Transacted? && !r.outcome.Refused? ==> volume.Swept(workRoot)
      ensures var entries := EntriesFrom(old(Installed()), toolkit, q, staged, plan, out, scratch);
              Reported(old(Installed()), Installed(), PublishedFrom(old(Installed()), toolkit, q, staged, plan, out), r,
                       volume.committed, InTheWay(written, site.root, entries),
                       Clear(written, site.root, entries, old(volume.faults)))
    {
      Stage(written, scratch, workRoot, EntriesFrom(Installed(), toolkit, q, staged, plan, out, scratch));
      r := PublishProducts(toolkit, q, staged, plan, out, scratch, workRoot);
    }

    /** The part of a reconciliation after the plan: refresh, build, stage, publish. */
    method CarryOut(toolkit: string, q: Request, staged: Option<Payload>, plan: Plan, built: Option<Built>,
                    scratch: Scratch, workRoot: Path, written: Fs)
      returns (r: Report)
      requires Ready(scratch, workRoot) && Coherent(plan, q) && HasWork(plan)
      requires q.canonicalRoot.Some? ==> CanonicalText(site, q.canonicalRoot.value)
      requires Staged(reader, volume.tree, written, scratch.root, EntriesOf(Installed(), toolkit, q, staged, plan, built, scratch))
      requires TransactionPlan.FreshWorkRoot(written, site.root, workRoot)
      modifies this`rest, volume
      ensures volume.journal == None && r != NothingToDo
      ensures r.Transacted? && !r.outcome.Refused? ==> volume.Swept(workRoot)
      ensures var entries := EntriesOf(old(Installed()), toolkit, q, staged, plan, built, scratch);
              Reported(old(Installed()), Installed(), CarriedOut(old(Installed()), toolkit, q, staged, plan, built), r,
                       volume.committed, InTheWay(written, site.root, entries),
                       Clear(written, site.root, entries, old(volume.faults)))
    {
      ghost var before, faults := Installed(), volume.faults;
      ghost var entries := EntriesOf(before, toolkit, q, staged, plan, built, scratch);
      var outputs := Build(toolkit, q, staged, plan, built);
      if outputs.Err? {
        return Failed(outputs.error);
      }
      ghost var refreshed := Installed();
      r := PublishBuilt(toolkit, q, staged, plan, outputs.value, scratch, workRoot, written);
      ReportedBefore(before, refreshed, Installed(), PublishedFrom(refreshed, toolkit, q, staged, plan, outputs.value), r,
                     volume.committed, InTheWay(written, site.root, entries), Clear(written, site.root, entries, faults));
    }

    /** Whatever fails, and wherever the process dies, the installation read back once the lock has been
        taken again is the planned one or the old one, and where nothing keeps it from being published it
        is the planned one. `written` is the volume once building and staging
        have filled the scratch directory. */
    method Reconcile(q: Request, built: Option<Built>, scratch: Scratch, workRoot: Path, written: Fs) returns (r: Report)
      requires Ready(scratch, workRoot) && (q.snapshot.None? ==> q.mode.NotApplicable?)
      requires q.canonicalRoot.Some? ==> CanonicalText(site, q.canonicalRoot.value)
      requires Staged(reader, volume.tree, written, scratch.root, EntriesFor(Installed(), q, built, scratch))
      requires TransactionPlan.FreshWorkRoot(written, site.root, workRoot)
      modifies this`rest, volume
      ensures volume.journal == None
      ensures r.Transacted? && !r.outcome.Refused? ==> volume.Swept(workRoot)
      ensures r == NothingToDo <==>
                && Preflight(old(Installed()), q).None?
                && !HasWork(PlanFor(old(Installed()), ResolveToolkitFingerprint(old(Installed())), q,
                                    StagedPayload(old(Installed()), q)))
      ensures var entries := EntriesFor(old(Installed()), q, built, scratch);
              Reported(old(Installed()), Installed(), Reconciled(old(Installed()), q, built), r, volume.committed,
                       InTheWay(written, site.root, entries), Clear(written, site.root, entries, old(volume.faults)))
    {
      var d := Installed();
      var refusal := Preflight(d, q);
      if refusal.Some? {
        return Failed(refusal.value);
      }
      var toolkit, staged := ResolveToolkitFingerprint(d), StagedPayload(d, q);
      var plan := DecidePlan(d, toolkit, q, staged);
      if !HasWork(plan) {
        return NothingToDo;
      }
      PlansAreCoherent(d, toolkit, q, staged);
      r := CarryOut(toolkit, q, staged, plan, built, scratch, workRoot, written);
    }
  }
}
