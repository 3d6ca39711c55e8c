/** The entries one repair publishes, and why the transaction accepts them. */
module PublishedEntries {
  import opened FileTree
  import opened Installation
  import opened ProductRepair
  import opened Wrappers
  import TransactionPlan

  /** What every plan of the planner keeps: nothing is both rebuilt and copied, a payload is copied only
      online, and a changed root comes with a Retro Rewind operation. */
  predicate Coherent(plan: Plan, q: Request) {
    && (plan.syncBaseAssets ==> !plan.rebuildBase) && (plan.syncRetroAssets ==> !plan.rebuildRetro)
    && (plan.syncPayload ==> q.mode.Online?) && (plan.rootChanged ==> q.snapshot.Some?)
  }

  lemma PlansAreCoherent(d: Disk, toolkit: string, q: Request, staged: Option<Payload>)
    ensures Coherent(PlanFor(d, toolkit, q, staged), q)
  {}

  /** The products a plan rebuilds have outputs, and copied assets come from a complete workspace. */
  predicate Publishable(d: Disk, plan: Plan, q: Request, out: Outputs) {
    && Coherent(plan, q) && out.base.Some? == plan.rebuildBase && out.retro.Some? == plan.rebuildRetro
    && (plan.syncBaseAssets || plan.syncRetroAssets ==> Complete(d.workspaceAssets))
  }

  /** What passes the checks of publication can be published. */
  lemma ProvenIsPublishable(d: Disk, toolkit: string, staged: Option<Payload>, plan: Plan, q: Request, out: Outputs)
    requires PublicationError(d, toolkit, plan, staged).None? && Coherent(plan, q)
    requires out.base.Some? == plan.rebuildBase && out.retro.Some? == plan.rebuildRetro
    ensures Publishable(d, plan, q, out)
  {}

  function Requested(root: Path, e: Entry): TransactionPlan.Requested {
    TransactionPlan.Requested(e.prepared, Destination(root, e.slot), KindOf(e.slot))
  }

  /** The scratch directory is beside everything a repair publishes. */
  ghost predicate ScratchApart(root: Path, scratch: Path) {
    forall s: Slot :: !PathsOverlap(scratch, Destination(root, s))
  }

  /** A scratch directory directly inside the installation, under its own kind of name. */
  lemma InstallScratchIsApart(root: Path, name: string)
    requires name != [] && name[0] == '.'
    ensures ScratchApart(root, root + [name])
  {
    forall s: Slot ensures !PathsOverlap(root + [name], Destination(root, s)) {
      assert Destination(root, s)[|root|] != name;
    }
  }

  /** Where an entry's content was prepared, and which decision put it in the plan. */
  predicate Shaped(e: Entry, scratch: Scratch, plan: Plan, q: Request) {
    match e.slot
    case BaseProduct => plan.rebuildBase && e.prepared == scratch.root + ["base-output"]
    case RetroProduct => plan.rebuildRetro && e.prepared == scratch.root + ["retro-output"]
    case BaseAsset(a) => plan.syncBaseAssets && e.prepared == AssetPath(scratch.root, "Base", a)
    case RetroAsset(a) => plan.syncRetroAssets && e.prepared == AssetPath(scratch.root, "RetroRewind", a)
    case PayloadCache => e.prepared == if e.content == CacheContent(None) && plan.rebuildRetro && q.mode.Skipped?
                                       then scratch.root + ["retro-wfc-payload-removed"] else scratch.Payload()
    case InstallStateFile => e.prepared == scratch.root + ["install-state.json"]
  }

  function Rank(s: Slot): nat {
    match s
    case BaseProduct => 0
    case RetroProduct => 1
    case BaseAsset(a) => 2 + AssetRank(a)
    case RetroAsset(a) => 5 + AssetRank(a)
    case PayloadCache => 8
    case InstallStateFile => 9
  }

  function AssetRank(a: AssetFile): nat {
    match a case Bootstrap => 0 case Coefficients => 1 case PipelineCache => 2
  }

  /** Entries come in slot order, no slot twice, each with its shape. */
  predicate InOrder(e: seq<Entry>, low: nat, high: nat, scratch: Scratch, plan: Plan, q: Request) {
    && (forall i | 0 <= i < |e| :: low <= Rank(e[i].slot) < high && Shaped(e[i], scratch, plan, q))
    && (forall i, j | 0 <= i < j < |e| :: Rank(e[i].slot) < Rank(e[j].slot))
  }

  lemma JoinInOrder(a: seq<Entry>, b: seq<Entry>, low: nat, mid: nat, high: nat, scratch: Scratch, plan: Plan,
                    q: Request)
    requires low <= mid <= high && InOrder(a, low, mid, scratch, plan, q) && InOrder(b, mid, high, scratch, plan, q)
    ensures InOrder(a + b, low, high, scratch, plan, q)
  {}

  lemma CopiesInOrder(d: Disk, plan: Plan, scratch: Scratch, q: Request)
    requires plan.syncBaseAssets || plan.syncRetroAssets ==> Complete(d.workspaceAssets)
    ensures InOrder(CopiedEntries(d, plan, scratch), 2, 8, scratch, plan, q)
  {
    var a := if plan.syncBaseAssets then AssetEntries(d.workspaceAssets, scratch.root, true) else [];
    var b := if plan.syncRetroAssets then AssetEntries(d.workspaceAssets, scratch.root, false) else [];
    assert InOrder(a, 2, 5, scratch, plan, q);
    assert InOrder(b, 5, 8, scratch, plan, q);
    JoinInOrder(a, b, 2, 5, 8, scratch, plan, q);
  }

  lemma ProductsInOrder(plan: Plan, out: Outputs, scratch: Scratch, q: Request)
    requires out.base.Some? == plan.rebuildBase && out.retro.Some? == plan.rebuildRetro
    ensures InOrder(ProductEntries(out, scratch), 0, 2, scratch, plan, q)
  {}

  lemma CacheInOrder(q: Request, staged: Option<Payload>, plan: Plan, scratch: Scratch)
    requires plan.syncPayload ==> q.mode.Online?
    ensures InOrder(CacheEntries(q, staged, plan, scratch), 8, 9, scratch, plan, q)
  {
    var e := CacheEntries(q, staged, plan, scratch);
    assert |e| <= 1;
    if e != [] {
      assert Shaped(e[0], scratch, plan, q);
    }
  }

  lemma StateInOrder(d: Disk, q: Request, staged: Option<Payload>, plan: Plan, scratch: Scratch)
    ensures InOrder(StateEntries(d, q, staged, plan, scratch), 9, 10, scratch, plan, q)
  {}

  lemma PlanInOrder(d: Disk, q: Request, staged: Option<Payload>, plan: Plan, out: Outputs, scratch: Scratch)
    requires Publishable(d, plan, q, out)
    ensures InOrder(PlannedEntries(d, q, staged, plan, out, scratch), 0, 10, scratch, plan, q)
    ensures |PlannedEntries(d, q, staged, plan, out, scratch)| <= 10
  {
    var p, c := ProductEntries(out, scratch), CopiedEntries(d, plan, scratch);
    var y, s := CacheEntries(q, staged, plan, scratch), StateEntries(d, q, staged, plan, scratch);
    ProductsInOrder(plan, out, scratch, q);
    CopiesInOrder(d, plan, scratch, q);
    CacheInOrder(q, staged, plan, scratch);
    StateInOrder(d, q, staged, plan, scratch);
    JoinInOrder(p, c, 0, 2, 8, scratch, plan, q);
    JoinInOrder(p + c, y, 0, 8, 9, scratch, plan, q);
    JoinInOrder(p + c + y, s, 0, 9, 10, scratch, plan, q);
  }

  lemma SlotsApart(root: Path, a: Slot, b: Slot)
    requires a != b
    requires a.BaseProduct? ==> !b.BaseAsset?
    requires b.BaseProduct? ==> !a.BaseAsset?
    requires a.RetroProduct? ==> !b.RetroAsset?
    requires b.RetroProduct? ==> !a.RetroAsset?
    ensures !PathsOverlap(Destination(root, a), Destination(root, b))
  {
    var p, r := Destination(root, a), Destination(root, b);
    assert p[|root|] != r[|root|] || (|p| == |r| == |root| + 2 && p[|root| + 1] != r[|root| + 1]);
  }

  lemma PreparedApart(scratch: Scratch, plan: Plan, q: Request, a: Entry, b: Entry)
    requires Shaped(a, scratch, plan, q) && Shaped(b, scratch, plan, q) && a.slot != b.slot
    ensures !PathsOverlap(a.prepared, b.prepared)
  {
    var n, p, r := |scratch.root|, a.prepared, b.prepared;
    assert p[n] != r[n] || (|p| == |r| == n + 3 && (p[n + 1] != r[n + 1] || p[n + 2] != r[n + 2]));
  }

  lemma PreparedInScratch(root: Path, scratch: Scratch, plan: Plan, q: Request, a: Entry, s: Slot)
    requires Shaped(a, scratch, plan, q) && ScratchApart(root, scratch.root)
    ensures !PathsOverlap(a.prepared, Destination(root, s))
  {
    assert scratch.root <= a.prepared;
    assert Destination(root, s) <= a.prepared ==> PathsOverlap(scratch.root, Destination(root, s));
  }

  function Requests(root: Path, entries: seq<Entry>): seq<TransactionPlan.Requested> {
    seq(|entries|, i requires 0 <= i < |entries| => Requested(root, entries[i]))
  }

  lemma RequestsAreAcceptable(fs: Fs, root: Path, scratch: Scratch, plan: Plan, q: Request, e: seq<Entry>)
    requires InOrder(e, 0, 10, scratch, plan, q) && ScratchApart(root, scratch.root) && Coherent(plan, q)
    requires forall i | 0 <= i < |e| ::
               Exists(fs, e[i].prepared, KindOf(e[i].slot)) && !ExistsAsOtherKind(fs, Destination(root, e[i].slot), KindOf(e[i].slot))
    ensures TransactionPlan.Acceptable(fs, root, Requests(root, e))
  {
    var r := Requests(root, e);
    forall i | 0 <= i < |r|
      ensures TransactionPlan.EntryAcceptable(fs, root, r[i])
      ensures forall j | 0 <= j < i :: TransactionPlan.PairAcceptable(r[i], r[j])
    {
      PreparedInScratch(root, scratch, plan, q, e[i], e[i].slot);
      forall j | 0 <= j < i ensures TransactionPlan.PairAcceptable(r[i], r[j]) {
        EntriesApart(root, scratch, plan, q, e[i], e[j]);
      }
    }
  }

  lemma EntriesApart(root: Path, scratch: Scratch, plan: Plan, q: Request, a: Entry, b: Entry)
    requires Shaped(a, scratch, plan, q) && Shaped(b, scratch, plan, q) && a.slot != b.slot
    requires ScratchApart(root, scratch.root) && Coherent(plan, q)
    ensures TransactionPlan.PairAcceptable(Requested(root, a), Requested(root, b))
  {
    SlotsApart(root, a.slot, b.slot);
    PreparedApart(scratch, plan, q, a, b);
    PreparedInScratch(root, scratch, plan, q, a, b.slot);
    PreparedInScratch(root, scratch, plan, q, b, a.slot);
  }

  /** Everything an entry list needs of the file system: its prepared files are there. */
  ghost predicate Prepared(fs: Fs, entries: seq<Entry>) {
    forall i | 0 <= i < |entries| :: Exists(fs, entries[i].prepared, KindOf(entries[i].slot))
  }

  /** Nothing of the wrong kind is where an entry goes. */
  ghost predicate InTheWay(fs: Fs, root: Path, entries: seq<Entry>) {
    exists i :: 0 <= i < |entries| && ExistsAsOtherKind(fs, Destination(root, entries[i].slot), KindOf(entries[i].slot))
  }

  /** A plan with work publishes at least one entry and at most ten, and the transaction accepts them:
      once the prepared files are there no path check refuses an entry, the journal stays within what
      recovery reads back, and only a file of the wrong kind in the way refuses the list. */
  lemma PlanIsAccepted(fs: Fs, root: Path, scratch: Scratch, d: Disk, q: Request, staged: Option<Payload>, plan: Plan,
                       out: Outputs)
    requires Publishable(d, plan, q, out) && HasWork(plan) && ScratchApart(root, scratch.root)
    requires Prepared(fs, PlannedEntries(d, q, staged, plan, out, scratch))
    ensures var e := PlannedEntries(d, q, staged, plan, out, scratch);
            && 0 < |Requests(root, e)| <= TransactionPlan.MAXIMUM_JOURNAL_ENTRIES
            && (TransactionPlan.Acceptable(fs, root, Requests(root, e)) <==> !InTheWay(fs, root, e))
  {
    var e := PlannedEntries(d, q, staged, plan, out, scratch);
    PlanInOrder(d, q, staged, plan, out, scratch);
    if InTheWay(fs, root, e) {
      var i :| 0 <= i < |e| && ExistsAsOtherKind(fs, Destination(root, e[i].slot), KindOf(e[i].slot));
      assert !TransactionPlan.EntryAcceptable(fs, root, Requests(root, e)[i]);
    } else {
      RequestsAreAcceptable(fs, root, scratch, plan, q, e);
    }
  }
}
