/** One successful reconciliation reaches the inspector's fixed point: exactly when, and no work left. */
module RepairConvergence {
  import opened Installation
  import opened ProductRepair
  import opened Wrappers

  predicate ReconciledTo(d: Disk, q: Request, built: Option<Built>, d': Disk) {
    (q.snapshot.None? ==> q.mode.NotApplicable?) && Reconciled(d, q, built) == Ok(d')
  }

  function FirstPlan(d: Disk, q: Request): Plan {
    PlanFor(d, ResolveToolkitFingerprint(d), q, StagedPayload(d, q))
  }

  // ---- What the build script promises -------------------------------------------------------------

  /** local-build.json names the profile and the game inputs the product was built from. */
  predicate BuildContract(d: Disk, p: Product, profile: string) {
    && p.localBuild.Readable? && p.localBuild.value.schemaVersion == 1 && p.localBuild.value.profile == profile
    && d.game.dol.Some? && d.game.rel.Some? && d.game.fst
    && Same(p.localBuild.value.dol, d.game.dol.value) && Same(p.localBuild.value.rel, d.game.rel.value)
  }

  predicate BaseKept(d: Disk, plan: Plan, built: Option<Built>) {
    plan.rebuildBase ==> built.Some? && BuildContract(d, built.value.base, BASE_PROFILE)
  }

  predicate RetroKept(d: Disk, plan: Plan, built: Option<Built>) {
    plan.rebuildRetro ==> built.Some? && BuildContract(d, built.value.retro, RETRO_PROFILE)
  }

  // ---- Plans are well formed ------------------------------------------------------------------------

  /** A rebuild of Retro Rewind has compile inputs; a payload sync has a staged payload. */
  lemma PlanHasItsInputs(d: Disk, q: Request, built: Option<Built>)
    requires q.snapshot.None? ==> q.mode.NotApplicable?
    ensures FirstPlan(d, q).rebuildRetro ==> q.snapshot.Some?
    ensures Preflight(d, q).None? && FirstPlan(d, q).syncPayload ==> StagedPayload(d, q).Some?
    ensures Reconciled(d, q, built) != Err(PayloadNotStaged)
  {
    if Preflight(d, q).None? {
      StagedIsEnough(d, ResolveToolkitFingerprint(d), q, StagedPayload(d, q), FirstPlan(d, q), built);
    }
  }

  lemma StagedIsEnough(d: Disk, t: string, q: Request, staged: Option<Payload>, plan: Plan, built: Option<Built>)
    requires plan.syncPayload ==> staged.Some?
    ensures CarriedOut(d, t, q, staged, plan, built) != Err(PayloadNotStaged)
  {}

  // ---- The outcome, field by field -------------------------------------------------------------------

  /** What no reconciliation touches. */
  predicate Stays(d: Disk, d': Disk) {
    && d'.root == d.root && d'.hasToolkit == d.hasToolkit && d'.toolkitState == d.toolkitState
    && d'.game == d.game && d'.workspaceAssets == d.workspaceAssets
  }

  predicate StampedFor(d: Disk, toolkit: string, p: Product, profile: string) {
    && BuildAccepted(p) && p.fingerprint.Some? && d.game.dol.Some? && d.game.rel.Some?
    && var f := p.fingerprint.value;
       && f.schemaVersion == 1 && f.profile == profile && f.toolkit == toolkit
       && f.executable == p.executable.value.sha && !Blank(f.dol) && !Blank(f.rel)
       && Same(f.dol, d.game.dol.value) && Same(f.rel, d.game.rel.value)
  }

  predicate KeptExceptAssets(p: Product, p': Product) {
    p'.executable == p.executable && p'.fingerprint == p.fingerprint && p'.localBuild == p.localBuild
  }

  predicate BaseOutcome(d: Disk, toolkit: string, plan: Plan, built: Option<Built>, d': Disk) {
    if plan.rebuildBase then
      built.Some? && StampedFor(d, toolkit, d'.base, BASE_PROFILE) && d'.base.localBuild == built.value.base.localBuild
      && d'.base.assets == built.value.base.assets
    else
      KeptExceptAssets(d.base, d'.base)
      && d'.base.assets == (if plan.syncBaseAssets then d.workspaceAssets else d.base.assets)
  }

  predicate RetroOutcome(d: Disk, toolkit: string, q: Request, staged: Option<Payload>, plan: Plan,
                         built: Option<Built>, d': Disk)
  {
    if plan.rebuildRetro then
      built.Some? && StampedFor(d, toolkit, d'.retro, RETRO_PROFILE)
      && d'.retro.localBuild == built.value.retro.localBuild && d'.retro.assets == built.value.retro.assets
      && q.snapshot.Some? && EmbedsSelection(d'.retro, q, staged)
    else
      KeptExceptAssets(d.retro, d'.retro)
      && d'.retro.assets == (if plan.syncRetroAssets then d.workspaceAssets else d.retro.assets)
  }

  /** The stamped fingerprint and the build's own record name the selected inputs and payload. */
  predicate EmbedsSelection(p: Product, q: Request, staged: Option<Payload>)
    requires p.fingerprint.Some? && q.snapshot.Some?
  {
    var f := p.fingerprint.value;
    && f.codePul == q.snapshot.value.codePul && f.compileInputs == q.snapshot.value.compileInputs
    && f.payloadMode == ModeText(q.mode)
    && f.payloadSha == (if staged.Some? then staged.value.sha else "")
    && f.payloadLength == (if staged.Some? then staged.value.length else 0)
    && p.localBuild.Readable? && p.localBuild.value.schemaVersion == 1
    && Same(p.localBuild.value.dol, f.dol) && Same(p.localBuild.value.rel, f.rel)
    && p.localBuild.value.payloadMode == Some(ModeText(q.mode))
    && Same(p.localBuild.value.payloadSha.GetOr(""), f.payloadSha)
    && p.localBuild.value.payloadLength.GetOr(0) == f.payloadLength
  }

  predicate StateOutcome(d: Disk, t: string, q: Request, staged: Option<Payload>, plan: Plan, d': Disk) {
    && d'.state == (if WritesState(plan, q) && HasWork(plan) then Some(UpdatedState(d, q, plan.rebuildRetro, staged))
                    else d.state)
    && d'.payloadCache == (if plan.rebuildRetro && q.mode.Skipped? then None
                           else if plan.syncPayload then staged else d.payloadCache)
    && (HasWork(plan) && q.snapshot.Some? && q.canonicalRoot.Some? ==> d'.configuredRoot == q.canonicalRoot)
    && (!HasWork(plan) ==> d'.configuredRoot == d.configuredRoot)
    && (plan.syncBaseAssets || plan.syncRetroAssets ==> AssetsProven(d, t))
  }

  /** The recorded game hashes a compile used still describe the game data. */
  predicate GameRecorded(d: Disk, q: Request, plan: Plan) {
    plan.rebuildBase || plan.rebuildRetro ==>
      var (dol, rel) := AuthoritativeHashes(d, q);
      Refreshable(d, dol, rel)
  }

  lemma ProducedOutcome(d: Disk, t: string, q: Request, staged: Option<Payload>, plan: Plan, built: Option<Built>,
                        refreshed: Disk, out: Outputs, d': Disk)
    requires Produced(d, t, q, staged, plan, built) == Ok((refreshed, out))
    requires d' == Published(refreshed, q, staged, plan, out)
    requires OnlineIsStaged(q, staged) && (plan.rebuildRetro ==> q.snapshot.Some?)
    ensures Stays(d, d') && BaseOutcome(d, t, plan, built, d') && RetroOutcome(d, t, q, staged, plan, built, d')
    ensures GameRecorded(d, q, plan)
    ensures refreshed == d.(workspaceDol := refreshed.workspaceDol, workspaceRel := refreshed.workspaceRel)
  {}

  /** Refreshing the translation inputs does not show in the published state. */
  lemma PublishedOutcome(d: Disk, t: string, q: Request, staged: Option<Payload>, plan: Plan,
                         refreshed: Disk, out: Outputs, d': Disk)
    requires HasWork(plan) && refreshed == d.(workspaceDol := refreshed.workspaceDol, workspaceRel := refreshed.workspaceRel)
    requires PublicationError(refreshed, t, plan, staged).None?
    requires d' == Published(refreshed, q, staged, plan, out)
    ensures StateOutcome(d, t, q, staged, plan, d')
  {}

  /** Everything one carried-out plan does. */
  predicate Outcome(d: Disk, t: string, q: Request, staged: Option<Payload>, plan: Plan, built: Option<Built>,
                    d': Disk) {
    && Stays(d, d') && BaseOutcome(d, t, plan, built, d') && RetroOutcome(d, t, q, staged, plan, built, d')
    && StateOutcome(d, t, q, staged, plan, d') && GameRecorded(d, q, plan)
  }

  lemma CarriedOutcome(d: Disk, t: string, q: Request, staged: Option<Payload>, plan: Plan, built: Option<Built>,
                    d': Disk)
    requires CarriedOut(d, t, q, staged, plan, built) == Ok(d')
    requires OnlineIsStaged(q, staged) && (plan.rebuildRetro ==> q.snapshot.Some?)
    ensures Outcome(d, t, q, staged, plan, built, d')
  {
    if HasWork(plan) {
      var (refreshed, out) := Produced(d, t, q, staged, plan, built).value;
      ProducedOutcome(d, t, q, staged, plan, built, refreshed, out, d');
      PublishedOutcome(d, t, q, staged, plan, refreshed, out, d');
    }
  }

  /** The preflight facts convergence rests on. */
  predicate Accepted(d: Disk, t: string, q: Request, staged: Option<Payload>) {
    && OnlineIsStaged(q, staged) && staged == StagedPayload(d, q) && d.hasToolkit && !Blank(t) && t == ResolveToolkitFingerprint(d)
    && Blank(q.expectedDol) == Blank(q.expectedRel) && (q.snapshot.Some? ==> q.canonicalRoot.Some?)
  }

  lemma PreflightAccepts(d: Disk, q: Request)
    requires (q.snapshot.None? ==> q.mode.NotApplicable?) && Preflight(d, q).None?
    ensures Accepted(d, ResolveToolkitFingerprint(d), q, StagedPayload(d, q))
  {}

  // ---- Convergence, for any plan ------------------------------------------------------------------------

  predicate PlansBase(d: Disk, t: string, q: Request, plan: Plan) {
    plan.rebuildBase <==> RequiresCompilation(CheckBaseCore(d, t)) || InputDrift(d.base, q)
  }

  /** The install state is this installation's and names the game data that is there. */
  predicate StateRecordsGame(d: Disk) {
    && ReadCurrentInstallState(d).Some? && d.game.dol.Some? && d.game.rel.Some?
    && Same(d.game.dol.value, ReadCurrentInstallState(d).value.dol)
    && Same(d.game.rel.value, ReadCurrentInstallState(d).value.rel)
  }

  lemma CompileRecordsGame(d: Disk, t: string, q: Request, staged: Option<Payload>, plan: Plan, d': Disk)
    requires Accepted(d, t, q, staged) && (plan.rebuildBase || plan.rebuildRetro)
    requires Stays(d, d') && StateOutcome(d, t, q, staged, plan, d') && GameRecorded(d, q, plan)
    ensures StateRecordsGame(d')
  {}

  lemma KeptBaseRecordsGame(d: Disk, t: string, q: Request, staged: Option<Payload>, plan: Plan, d': Disk)
    requires Accepted(d, t, q, staged) && CheckBaseCore(d, t).Current? && !InputDrift(d.base, q)
    requires Stays(d, d') && StateOutcome(d, t, q, staged, plan, d')
    ensures StateRecordsGame(d')
  {
    assert StateRecordsGame(d);
  }

  lemma GameStaysRecorded(d: Disk, t: string, q: Request, staged: Option<Payload>, plan: Plan, d': Disk)
    requires Accepted(d, t, q, staged) && PlansBase(d, t, q, plan)
    requires Stays(d, d') && StateOutcome(d, t, q, staged, plan, d') && GameRecorded(d, q, plan)
    ensures StateRecordsGame(d')
  {
    if plan.rebuildBase {
      CompileRecordsGame(d, t, q, staged, plan, d');
    } else {
      KeptBaseRecordsGame(d, t, q, staged, plan, d');
    }
  }

  lemma BaseAfter(d: Disk, t: string, plan: Plan, built: Option<Built>, d': Disk)
    requires d.hasToolkit && !Blank(t) && Stays(d, d') && BaseOutcome(d, t, plan, built, d')
    requires StateRecordsGame(d') && (plan.rebuildBase || CheckBaseCore(d, t).Current?)
    ensures CheckBaseCore(d', t).Current? <==> BaseKept(d, plan, built)
  {}

  // ---- The retro product ---------------------------------------------------------------------------------

  /** Everything CheckRetroCore asks before it looks at the payload cache. */
  predicate RetroTrusted(d: Disk, t: string, canonical: Option<CompileInputs>) {
    && HasRetroProduct(d) && d.hasToolkit && !Blank(t)
    && ReadFingerprint(d.retro).Some? && ReadCurrentInstallState(d).Some?
    && var f, s := ReadFingerprint(d.retro).value, ReadCurrentInstallState(d).value;
       && f.toolkit == t && ProvenanceHolds(d, d.retro, RETRO_PROFILE, f, s) && InputsRecorded(f, s)
       && (canonical.Some? ==> Same(canonical.value.codePul, f.codePul) && Same(canonical.value.compileInputs, f.compileInputs))
  }

  function PayloadVerdict(d: Disk, cached: Option<bool>): ProductStatus
    requires ReadFingerprint(d.retro).Some? && ReadCurrentInstallState(d).Some?
  {
    var f := ReadFingerprint(d.retro).value;
    if f.payloadMode == DOWNLOADED then CheckPayloadCache(d, f, ReadCurrentInstallState(d).value, cached) else Current
  }

  lemma TrustedVerdict(d: Disk, t: string, canonical: Option<CompileInputs>, cached: Option<bool>)
    ensures var status := CheckRetroCore(d, t, canonical, false, cached);
            && (RetroTrusted(d, t, canonical) ==> status == PayloadVerdict(d, cached))
            && (status.Current? || status.PayloadChanged? ==> RetroTrusted(d, t, canonical))
            && (HasRetroProduct(d) && !RetroTrusted(d, t, canonical) ==> RequiresCompilation(status))
  {}

  /** A rebuilt product is trusted exactly when the build kept its contract. */
  lemma RebuiltTrusted(d: Disk, t: string, q: Request, staged: Option<Payload>, plan: Plan, built: Option<Built>,
                    d': Disk)
    requires plan.rebuildRetro && Accepted(d, t, q, staged) && StateRecordsGame(d')
    requires Stays(d, d') && RetroOutcome(d, t, q, staged, plan, built, d') && StateOutcome(d, t, q, staged, plan, d')
    ensures RetroTrusted(d', t, q.snapshot) <==> RetroKept(d, plan, built)
  {}

  /** An untouched product stays trusted. */
  lemma UntouchedTrusted(d: Disk, t: string, q: Request, staged: Option<Payload>, plan: Plan, built: Option<Built>,
                    d': Disk)
    requires !plan.rebuildRetro && Accepted(d, t, q, staged) && StateRecordsGame(d')
    requires Stays(d, d') && RetroOutcome(d, t, q, staged, plan, built, d') && StateOutcome(d, t, q, staged, plan, d')
    requires RetroTrusted(d, t, q.snapshot)
    ensures RetroTrusted(d', t, q.snapshot)
  {}

  predicate PlansRetro(d: Disk, t: string, q: Request, staged: Option<Payload>, plan: Plan) {
    && (plan.rebuildRetro <==> q.snapshot.Some? && RetroMustBeRebuilt(d, t, q, staged))
    && (plan.syncPayload <==> q.mode.Online? && (plan.rebuildRetro || d.payloadCache != staged))
  }

  /** An untouched product that embeds a payload was asked for online, and names the staged one. */
  lemma UntouchedPayload(d: Disk, t: string, q: Request, staged: Option<Payload>, plan: Plan)
    requires q.snapshot.Some? && Accepted(d, t, q, staged) && PlansRetro(d, t, q, staged, plan)
    requires !plan.rebuildRetro && RetroTrusted(d, t, q.snapshot)
    ensures q.mode.Online? ==> MatchesSnapshot(d, staged.value) && ReadFingerprint(d.retro).value.payloadMode == DOWNLOADED
    ensures !q.mode.Online? ==> ReadFingerprint(d.retro).value.payloadMode != DOWNLOADED
  {}

  lemma PayloadUntouched(d: Disk, t: string, q: Request, staged: Option<Payload>, plan: Plan, built: Option<Built>,
                    d': Disk)
    requires q.snapshot.Some? && Accepted(d, t, q, staged) && PlansRetro(d, t, q, staged, plan) && !plan.rebuildRetro
    requires RetroOutcome(d, t, q, staged, plan, built, d') && StateOutcome(d, t, q, staged, plan, d')
    requires RetroTrusted(d', t, q.snapshot) && RetroTrusted(d, t, q.snapshot) && d'.root == d.root
    ensures q.mode.Online? ==> d'.payloadCache == staged && MatchesSnapshot(d', staged.value)
    ensures q.mode.Online? ==> (PayloadVerdict(d', None).Current? <==> LengthRecorded(d, q))
    ensures PayloadVerdict(d', if q.mode.Online? then Some(true) else None).Current?
  {
    UntouchedPayload(d, t, q, staged, plan);
    TrustedVerdict(d, t, q.snapshot, CacheObservation(d, staged));
  }

  lemma PayloadAfterRebuild(d: Disk, t: string, q: Request, staged: Option<Payload>, plan: Plan, built: Option<Built>,
                    d': Disk)
    requires q.snapshot.Some? && Accepted(d, t, q, staged) && PlansRetro(d, t, q, staged, plan) && plan.rebuildRetro
    requires RetroOutcome(d, t, q, staged, plan, built, d') && StateOutcome(d, t, q, staged, plan, d')
    requires RetroTrusted(d', t, q.snapshot)
    ensures q.mode.Online? ==> d'.payloadCache == staged && MatchesSnapshot(d', staged.value)
    ensures PayloadVerdict(d', None).Current? && (q.mode.Online? ==> PayloadVerdict(d', Some(true)).Current?)
  {}

  lemma PayloadAfter(d: Disk, t: string, q: Request, staged: Option<Payload>, plan: Plan, built: Option<Built>,
                    d': Disk)
    requires q.snapshot.Some? && Accepted(d, t, q, staged) && PlansRetro(d, t, q, staged, plan)
    requires Stays(d, d') && RetroOutcome(d, t, q, staged, plan, built, d') && StateOutcome(d, t, q, staged, plan, d')
    requires RetroTrusted(d', t, q.snapshot)
    requires !plan.rebuildRetro ==> RetroTrusted(d, t, q.snapshot)
    ensures q.mode.Online? ==> d'.payloadCache == staged && MatchesSnapshot(d', staged.value)
    ensures PayloadVerdict(d', None).Current? <==> plan.rebuildRetro || LengthRecorded(d, q)
    ensures q.mode.Online? ==> PayloadVerdict(d', Some(true)).Current?
  {
    if plan.rebuildRetro {
      PayloadAfterRebuild(d, t, q, staged, plan, built, d');
    } else {
      PayloadUntouched(d, t, q, staged, plan, built, d');
    }
  }

  // ---- Convergence -------------------------------------------------------------------------------------

  /** The plan, with what made it. */
  predicate PlannedFor(d: Disk, t: string, q: Request, staged: Option<Payload>, plan: Plan) {
    && Accepted(d, t, q, staged) && PlansBase(d, t, q, plan) && PlansRetro(d, t, q, staged, plan)
  }

  /** Every successful reconciliation: an accepted request, its plan, and the outcome of that plan. */
  lemma Reconciliation(d: Disk, q: Request, built: Option<Built>, d': Disk)
    requires ReconciledTo(d, q, built, d')
    ensures var t, staged, plan := ResolveToolkitFingerprint(d), StagedPayload(d, q), FirstPlan(d, q);
            && PlannedFor(d, t, q, staged, plan) && Outcome(d, t, q, staged, plan, built, d')
            && StateRecordsGame(d') && ResolveToolkitFingerprint(d') == t
            && (q.snapshot.None? ==> !ActionRequired(CheckRetroCore(d, t, None, false, None)) && !InputDrift(d.retro, q))
  {
    var t, staged, plan := ResolveToolkitFingerprint(d), StagedPayload(d, q), FirstPlan(d, q);
    PreflightAccepts(d, q);
    CarriedOutcome(d, t, q, staged, plan, built, d');
    GameStaysRecorded(d, t, q, staged, plan, d');
  }

  /** After a reconciliation the base product is current exactly when, if it was rebuilt, the build
      kept its contract and fst.bin exists. */
  lemma BaseConverges(d: Disk, q: Request, built: Option<Built>, d': Disk)
    requires ReconciledTo(d, q, built, d')
    ensures CheckBaseCore(d', ResolveToolkitFingerprint(d')).Current? <==> BaseKept(d, FirstPlan(d, q), built)
  {
    Reconciliation(d, q, built, d');
    BaseAfter(d, ResolveToolkitFingerprint(d), FirstPlan(d, q), built, d');
  }

  /** A kept product that embeds a payload: its recorded length is compared with nothing. */
  predicate LengthRecorded(d: Disk, q: Request) {
    q.mode.Online? ==>
      StagedPayload(d, q).Some? && ReadFingerprint(d.retro).Some?
      && ReadFingerprint(d.retro).value.payloadLength == StagedPayload(d, q).value.length
  }

  predicate RetroSettled(d: Disk, q: Request, plan: Plan, built: Option<Built>) {
    if plan.rebuildRetro then RetroKept(d, plan, built) else LengthRecorded(d, q)
  }

  lemma RetroAfter(d: Disk, t: string, q: Request, staged: Option<Payload>, plan: Plan, built: Option<Built>, d': Disk)
    requires q.snapshot.Some? && PlannedFor(d, t, q, staged, plan) && Outcome(d, t, q, staged, plan, built, d')
    requires StateRecordsGame(d')
    ensures !plan.rebuildRetro ==> RetroTrusted(d, t, q.snapshot)
    ensures RetroTrusted(d', t, q.snapshot) <==> RetroKept(d, plan, built)
  {
    if plan.rebuildRetro {
      RebuiltTrusted(d, t, q, staged, plan, built, d');
    } else {
      TrustedVerdict(d, t, q.snapshot, CacheObservation(d, staged));
      UntouchedTrusted(d, t, q, staged, plan, built, d');
    }
  }

  /** After a Retro Rewind operation the product is current for the same snapshot exactly when a
      rebuild kept its contract, or an untouched product had recorded its payload's true length. */
  lemma RetroConverges(d: Disk, q: Request, built: Option<Built>, d': Disk)
    requires ReconciledTo(d, q, built, d') && q.snapshot.Some?
    ensures CheckRetroCore(d', ResolveToolkitFingerprint(d'), q.snapshot, false, None).Current?
            <==> RetroSettled(d, q, FirstPlan(d, q), built)
  {
    var t, staged, plan := ResolveToolkitFingerprint(d), StagedPayload(d, q), FirstPlan(d, q);
    Reconciliation(d, q, built, d');
    RetroAfter(d, t, q, staged, plan, built, d');
    TrustedVerdict(d', t, q.snapshot, None);
    if RetroTrusted(d', t, q.snapshot) {
      PayloadAfter(d, t, q, staged, plan, built, d');
    }
  }

  lemma KeptWithoutRetro(d: Disk, t: string, q: Request, plan: Plan, built: Option<Built>, d': Disk)
    requires q.snapshot.None? && Outcome(d, t, q, None, plan, built, d') && Accepted(d, t, q, None)
    requires PlansRetro(d, t, q, None, plan) && StateRecordsGame(d')
    requires CheckRetroCore(d, t, None, false, None).Current?
    ensures CheckRetroCore(d', t, None, false, None).Current?
  {
    TrustedVerdict(d, t, None, None);
    UntouchedTrusted(d, t, q, None, plan, built, d');
    TrustedVerdict(d', t, None, None);
  }

  lemma AbsentStaysAbsent(d: Disk, t: string, q: Request, plan: Plan, built: Option<Built>, d': Disk)
    requires q.snapshot.None? && Outcome(d, t, q, None, plan, built, d') && Accepted(d, t, q, None)
    requires PlansRetro(d, t, q, None, plan) && StateRecordsGame(d')
    requires CheckRetroCore(d, t, None, false, None).Absent?
    ensures CheckRetroCore(d', t, None, false, None).Absent?
  {}

  /** A base-only operation leaves Retro Rewind as it was: current, or absent. */
  lemma BaseOnlyKeepsRetro(d: Disk, q: Request, built: Option<Built>, d': Disk)
    requires ReconciledTo(d, q, built, d') && q.snapshot.None?
    ensures var was := CheckRetroCore(d, ResolveToolkitFingerprint(d), None, false, None);
            && CheckRetroCore(d', ResolveToolkitFingerprint(d'), None, false, None) == was
            && !ActionRequired(was)
  {
    Reconciliation(d, q, built, d');
    var t, plan := ResolveToolkitFingerprint(d), FirstPlan(d, q);
    assert StagedPayload(d, q) == None;
    if CheckRetroCore(d, t, None, false, None).Current? {
      KeptWithoutRetro(d, t, q, plan, built, d');
    } else {
      AbsentStaysAbsent(d, t, q, plan, built, d');
    }
  }

  // ---- Nothing left to do -----------------------------------------------------------------------------

  predicate AssetsKept(d: Disk, t: string, plan: Plan, built: Option<Built>) {
    && (plan.rebuildBase ==> built.Some? && AssetsMatch(d, built.value.base, t))
    && (plan.rebuildRetro ==> built.Some? && AssetsMatch(d, built.value.retro, t))
  }

  lemma SamePayloadStaged(d: Disk, t: string, q: Request, staged: Option<Payload>, plan: Plan,
                    built: Option<Built>, d': Disk)
    requires PlannedFor(d, t, q, staged, plan) && Outcome(d, t, q, staged, plan, built, d')
    ensures StagedPayload(d', q) == staged
  {}

  lemma NoDriftLeft(d: Disk, t: string, q: Request, staged: Option<Payload>, plan: Plan, built: Option<Built>, d': Disk)
    requires PlannedFor(d, t, q, staged, plan) && Outcome(d, t, q, staged, plan, built, d')
    requires q.snapshot.None? ==> !InputDrift(d.retro, q)
    ensures !InputDrift(d'.base, q) && !InputDrift(d'.retro, q)
  {}

  lemma AssetsAfter(d: Disk, t: string, q: Request, staged: Option<Payload>, plan: Plan, built: Option<Built>, d': Disk)
    requires plan == PlanFor(d, t, q, staged) && Outcome(d, t, q, staged, plan, built, d')
    ensures d'.base.executable.Some?
    ensures AssetsMatch(d', d'.base, t) <==> (plan.rebuildBase ==> AssetsMatch(d, built.value.base, t))
    ensures HasRetroProduct(d') ==>
              (AssetsMatch(d', d'.retro, t) <==> (plan.rebuildRetro ==> AssetsMatch(d, built.value.retro, t)))
  {}

  lemma RootSettled(d: Disk, t: string, q: Request, staged: Option<Payload>, plan: Plan, built: Option<Built>, d': Disk)
    requires plan == PlanFor(d, t, q, staged) && Accepted(d, t, q, staged)
    requires Outcome(d, t, q, staged, plan, built, d')
    ensures q.snapshot.Some? ==> RecordedRootMatches(d', q.canonicalRoot.value)
  {}

  lemma ModeSettled(d: Disk, t: string, q: Request, staged: Option<Payload>, plan: Plan, built: Option<Built>, d': Disk)
    requires q.snapshot.Some? && OnlineIsStaged(q, staged)
    requires RetroOutcome(d, t, q, staged, plan, built, d') && StateOutcome(d, t, q, staged, plan, d')
    requires plan.rebuildRetro || ResolvePayloadMode(d).NotApplicable? || ResolvePayloadMode(d) == q.mode
    ensures ResolvePayloadMode(d').NotApplicable? || ResolvePayloadMode(d') == q.mode
  {}

  lemma RetroIdle(d: Disk, t: string, q: Request, staged: Option<Payload>, plan: Plan, built: Option<Built>, d': Disk)
    requires q.snapshot.Some? && PlannedFor(d, t, q, staged, plan) && Outcome(d, t, q, staged, plan, built, d')
    requires StateRecordsGame(d') && !InputDrift(d'.retro, q)
    ensures RetroMustBeRebuilt(d', t, q, staged) <==> !RetroKept(d, plan, built)
    ensures RetroKept(d, plan, built) && q.mode.Online? ==> d'.payloadCache == staged
  {
    RetroAfter(d, t, q, staged, plan, built, d');
    TrustedVerdict(d', t, q.snapshot, CacheObservation(d', staged));
    if RetroKept(d, plan, built) {
      PayloadAfter(d, t, q, staged, plan, built, d');
      ModeSettled(d, t, q, staged, plan, built, d');
      if !q.mode.Online? {
        SkippedVerdict(d, t, q, staged, plan, built, d');
      }
    }
  }

  lemma SkippedVerdict(d: Disk, t: string, q: Request, staged: Option<Payload>, plan: Plan, built: Option<Built>,
                    d': Disk)
    requires q.snapshot.Some? && PlannedFor(d, t, q, staged, plan) && Outcome(d, t, q, staged, plan, built, d')
    requires q.mode.Skipped? && RetroTrusted(d', t, q.snapshot)
    ensures PayloadVerdict(d', None).Current?
  {
    ModeSettled(d, t, q, staged, plan, built, d');
  }

  lemma BaseStatuses(d: Disk, t: string)
    ensures RequiresCompilation(CheckBaseCore(d, t)) <==> !CheckBaseCore(d, t).Current?
  {}

  lemma BaseIdle(d: Disk, t: string, q: Request, staged: Option<Payload>, plan: Plan, built: Option<Built>, d': Disk)
    requires d.hasToolkit && !Blank(t) && PlansBase(d, t, q, plan)
    requires Stays(d, d') && BaseOutcome(d, t, plan, built, d') && StateRecordsGame(d')
    ensures RequiresCompilation(CheckBaseCore(d', t)) <==> !BaseKept(d, plan, built)
  {
    BaseStatuses(d, t);
    BaseStatuses(d', t);
    BaseAfter(d, t, plan, built, d');
  }

  lemma IdleMeans(d: Disk, t: string, q: Request, staged: Option<Payload>)
    requires !InputDrift(d.base, q) && d.base.executable.Some? && (q.snapshot.Some? ==> q.canonicalRoot.Some?)
    ensures !HasWork(PlanFor(d, t, q, staged)) <==>
            && !RequiresCompilation(CheckBaseCore(d, t)) && AssetsMatch(d, d.base, t)
            && (HasRetroProduct(d) && (q.snapshot.None? || !RetroMustBeRebuilt(d, t, q, staged)) ==> AssetsMatch(d, d.retro, t))
            && (q.snapshot.Some? ==>
                  && !RetroMustBeRebuilt(d, t, q, staged) && (q.mode.Online? ==> d.payloadCache == staged)
                  && RecordedRootMatches(d, q.canonicalRoot.value))
  {}

  /** Repeating the operation plans no work exactly when the build kept its contract. */
  lemma SecondReconcileIsIdle(d: Disk, q: Request, built: Option<Built>, d': Disk)
    requires ReconciledTo(d, q, built, d')
    ensures !HasWork(FirstPlan(d', q))
            <==> BaseKept(d, FirstPlan(d, q), built) && RetroKept(d, FirstPlan(d, q), built)
                 && AssetsKept(d, ResolveToolkitFingerprint(d), FirstPlan(d, q), built)
  {
    var t, staged, plan := ResolveToolkitFingerprint(d), StagedPayload(d, q), FirstPlan(d, q);
    Reconciliation(d, q, built, d');
    SamePayloadStaged(d, t, q, staged, plan, built, d');
    NoDriftLeft(d, t, q, staged, plan, built, d');
    AssetsAfter(d, t, q, staged, plan, built, d');
    RootSettled(d, t, q, staged, plan, built, d');
    BaseIdle(d, t, q, staged, plan, built, d');
    if q.snapshot.Some? {
      RetroIdle(d, t, q, staged, plan, built, d');
    }
    IdleMeans(d', t, q, staged);
  }

  // ---- What is reported --------------------------------------------------------------------------------

  /** The statuses actually reported, which also compare the copied assets: each product is current
      exactly when its build, if any, kept its contract and its assets; a base-only operation leaves Retro
      Rewind current or absent, and repairs its copied assets. */
  lemma ReportsConverge(d: Disk, q: Request, built: Option<Built>, d': Disk)
    requires ReconciledTo(d, q, built, d')
    ensures var t, plan := ResolveToolkitFingerprint(d'), FirstPlan(d, q);
            && (CheckBase(d', t).Current? <==>
                  BaseKept(d, plan, built) && (plan.rebuildBase ==> AssetsMatch(d, built.value.base, t)))
            && (q.snapshot.Some? ==>
                  (CheckRetroRewind(d', t, q.snapshot, false, None).Current? <==>
                     RetroSettled(d, q, plan, built) && (plan.rebuildRetro ==> AssetsMatch(d, built.value.retro, t))))
            && (q.snapshot.None? ==>
                  CheckRetroRewind(d', t, None, false, None)
                  == CheckRetroCore(d, ResolveToolkitFingerprint(d), None, false, None)
                  && !ActionRequired(CheckRetroRewind(d', t, None, false, None)))
  {
    var t, staged, plan := ResolveToolkitFingerprint(d), StagedPayload(d, q), FirstPlan(d, q);
    Reconciliation(d, q, built, d');
    AssetsAfter(d, t, q, staged, plan, built, d');
    BaseConverges(d, q, built, d');
    if q.snapshot.Some? {
      RetroConverges(d, q, built, d');
      CurrentHasProduct(d', t, q.snapshot);
    } else {
      BaseOnlyKeepsRetro(d, q, built, d');
      CurrentHasProduct(d', t, None);
    }
  }

  lemma CurrentHasProduct(d: Disk, t: string, canonical: Option<CompileInputs>)
    ensures CheckRetroCore(d, t, canonical, false, None).Current? ==> HasRetroProduct(d)
  {}

  // ---- The payload cache -----------------------------------------------------------------------------

  /** After an online operation the cache is the staged payload and so is the product's record; a
      product rebuilt without the payload leaves no cache behind. */
  lemma CacheSettled(d: Disk, q: Request, built: Option<Built>, d': Disk)
    requires ReconciledTo(d, q, built, d') && q.snapshot.Some? && RetroKept(d, FirstPlan(d, q), built)
    ensures q.mode.Online? ==> d'.payloadCache == StagedPayload(d, q) && MatchesSnapshot(d', d'.payloadCache.value)
    ensures q.mode.Skipped? && FirstPlan(d, q).rebuildRetro ==> d'.payloadCache.None? && ResolvePayloadMode(d').Skipped?
  {
    var t, staged, plan := ResolveToolkitFingerprint(d), StagedPayload(d, q), FirstPlan(d, q);
    Reconciliation(d, q, built, d');
    RetroAfter(d, t, q, staged, plan, built, d');
    PayloadAfter(d, t, q, staged, plan, built, d');
  }

  /** What a finished operation tells the next inspection about the cache. */
  function VerifiedOnlineCache(d: Disk): Option<bool> {
    if HasRetroProduct(d) && ResolvePayloadMode(d).Online? then Some(true) else None
  }

  predicate CacheHasProductHash(d: Disk) {
    && ReadFingerprint(d.retro).Some? && d.payloadCache.Some?
    && Same(d.payloadCache.value.sha, ReadFingerprint(d.retro).value.payloadSha)
  }

  predicate RecordsPayload(d: Disk) {
    ReadFingerprint(d.retro).Some? && ReadFingerprint(d.retro).value.payloadMode == DOWNLOADED
  }

  /** An observation that is passed on is true of the cache exactly when the product's own record embeds
      a payload, which after a Retro Rewind operation is always the case. */
  lemma ObservationIsTrue(d: Disk, q: Request, built: Option<Built>, d': Disk)
    requires ReconciledTo(d, q, built, d') && (q.snapshot.Some? ==> RetroKept(d, FirstPlan(d, q), built))
    requires VerifiedOnlineCache(d') == Some(true)
    ensures RecordsPayload(d') ==> CacheHasProductHash(d')
    ensures q.snapshot.Some? ==> RecordsPayload(d') && CacheHasProductHash(d')
  {
    if q.snapshot.Some? {
      RetroObservation(d, q, built, d');
    } else {
      BaseOnlyKeepsRetro(d, q, built, d');
      CurrentMeansCached(d', ResolveToolkitFingerprint(d'));
    }
  }

  /** What passing the observation on does: the next inspection says what it would say had it hashed the
      cache itself, exactly unless an online operation kept a product whose record has the payload's
      length wrong. */
  lemma ObservationAgrees(d: Disk, q: Request, built: Option<Built>, d': Disk)
    requires ReconciledTo(d, q, built, d')
    ensures var t := ResolveToolkitFingerprint(d');
            CheckRetroCore(d', t, q.snapshot, false, VerifiedOnlineCache(d'))
            == CheckRetroCore(d', t, q.snapshot, false, None)
            <==> q.snapshot.None? || FirstPlan(d, q).rebuildRetro || LengthRecorded(d, q)
  {
    if q.snapshot.None? {
      BaseOnlyKeepsRetro(d, q, built, d');
      CurrentIsCurrent(d', ResolveToolkitFingerprint(d'), VerifiedOnlineCache(d'));
    } else {
      RetroObservationAgrees(d, q, built, d');
    }
  }

  lemma CurrentIsCurrent(d: Disk, t: string, cached: Option<bool>)
    requires !ActionRequired(CheckRetroCore(d, t, None, false, None)) && cached != Some(false)
    ensures CheckRetroCore(d, t, None, false, cached) == CheckRetroCore(d, t, None, false, None)
  {}

  lemma UntrustedIgnoresCache(d: Disk, t: string, canonical: Option<CompileInputs>, cached: Option<bool>)
    requires !RetroTrusted(d, t, canonical)
    ensures CheckRetroCore(d, t, canonical, false, cached) == CheckRetroCore(d, t, canonical, false, None)
  {}

  lemma RetroObservationAgrees(d: Disk, q: Request, built: Option<Built>, d': Disk)
    requires ReconciledTo(d, q, built, d') && q.snapshot.Some?
    ensures var t := ResolveToolkitFingerprint(d');
            CheckRetroCore(d', t, q.snapshot, false, VerifiedOnlineCache(d'))
            == CheckRetroCore(d', t, q.snapshot, false, None)
            <==> FirstPlan(d, q).rebuildRetro || LengthRecorded(d, q)
  {
    var t, staged, plan := ResolveToolkitFingerprint(d), StagedPayload(d, q), FirstPlan(d, q);
    Reconciliation(d, q, built, d');
    RetroAfter(d, t, q, staged, plan, built, d');
    if !RetroTrusted(d', t, q.snapshot) {
      UntrustedIgnoresCache(d', t, q.snapshot, VerifiedOnlineCache(d'));
    } else {
      TrustedVerdict(d', t, q.snapshot, None);
      TrustedVerdict(d', t, q.snapshot, VerifiedOnlineCache(d'));
      PayloadAfter(d, t, q, staged, plan, built, d');
      ReportedMode(d, t, q, staged, plan, built, d');
    }
  }

  /** After a Retro Rewind operation the cache is reported verified exactly when the operation was online. */
  lemma ReportedMode(d: Disk, t: string, q: Request, staged: Option<Payload>, plan: Plan, built: Option<Built>, d': Disk)
    requires q.snapshot.Some? && PlannedFor(d, t, q, staged, plan) && Outcome(d, t, q, staged, plan, built, d')
    requires RetroTrusted(d', t, q.snapshot)
    requires q.mode.Online? ==> d'.payloadCache == staged && MatchesSnapshot(d', staged.value)
    ensures VerifiedOnlineCache(d') == if q.mode.Online? then Some(true) else None
  {
    if ResolvePayloadMode(d').Online? {
      OnlineWhenReported(d, t, q, staged, plan, built, d');
    }
  }

  lemma RetroObservation(d: Disk, q: Request, built: Option<Built>, d': Disk)
    requires ReconciledTo(d, q, built, d') && q.snapshot.Some? && RetroKept(d, FirstPlan(d, q), built)
    requires ResolvePayloadMode(d').Online?
    ensures RecordsPayload(d') && CacheHasProductHash(d')
  {
    Reconciliation(d, q, built, d');
    OnlineWhenReported(d, ResolveToolkitFingerprint(d), q, StagedPayload(d, q), FirstPlan(d, q), built, d');
    CacheSettled(d, q, built, d');
  }

  lemma CurrentMeansCached(d: Disk, t: string)
    requires HasRetroProduct(d) && !ActionRequired(CheckRetroCore(d, t, None, false, None))
    ensures ReadFingerprint(d.retro).Some? && ReadFingerprint(d.retro).value.payloadMode == DOWNLOADED
            ==> CacheHasProductHash(d)
  {}

  lemma OnlineWhenReported(d: Disk, t: string, q: Request, staged: Option<Payload>, plan: Plan, built: Option<Built>,
                           d': Disk)
    requires q.snapshot.Some? && PlannedFor(d, t, q, staged, plan) && Outcome(d, t, q, staged, plan, built, d')
    requires ResolvePayloadMode(d').Online?
    ensures q.mode.Online?
  {
    ModeSettled(d, t, q, staged, plan, built, d');
  }

  // ---- What each status means --------------------------------------------------------------------------

  predicate RetroProven(d: Disk, t: string) {
    && HasRetroProduct(d) && d.hasToolkit && !Blank(t)
    && ReadFingerprint(d.retro).Some? && ReadCurrentInstallState(d).Some?
    && ReadFingerprint(d.retro).value.toolkit == t
    && ProvenanceHolds(d, d.retro, RETRO_PROFILE, ReadFingerprint(d.retro).value, ReadCurrentInstallState(d).value)
    && InputsRecorded(ReadFingerprint(d.retro).value, ReadCurrentInstallState(d).value)
  }

  /** The payload a trusted product embeds is recorded on both sides. */
  predicate PayloadRecorded(d: Disk)
    requires ReadFingerprint(d.retro).Some? && ReadCurrentInstallState(d).Some?
  {
    var f, s := ReadFingerprint(d.retro).value, ReadCurrentInstallState(d).value;
    !Blank(f.payloadSha) && f.payloadLength > 0 && !Blank(s.payloadSha) && s.payloadLength > 0
  }

  /** Each status names the one thing that is wrong: only a product whose provenance holds is told that
      its inputs or its payload changed, in that order, the payload only when it is recorded and the cache
      is seen or known to differ; absence and a missing executable are reported as the install state has
      it, and Blocked is what remains. */
  lemma StatusesSayWhatChanged(d: Disk, t: string, canonical: CompileInputs, cached: Option<bool>)
    requires d.hasToolkit && !Blank(t)
    ensures var status := CheckRetroCore(d, t, Some(canonical), false, cached);
            var f, s := ReadFingerprint(d.retro), ReadCurrentInstallState(d);
            var embeds := RetroTrusted(d, t, Some(canonical)) && f.value.payloadMode == DOWNLOADED;
            && (status.CodePulChanged? <==> RetroProven(d, t) && !Same(canonical.codePul, f.value.codePul))
            && (status.CompileInputsChanged? <==>
                  RetroProven(d, t) && Same(canonical.codePul, f.value.codePul)
                  && !Same(canonical.compileInputs, f.value.compileInputs))
            && (status.PayloadChanged? <==>
                  embeds && PayloadRecorded(d)
                  && (if cached.Some? then !cached.value
                      else d.payloadCache.None? || !CacheIs(d.payloadCache.value, f.value)))
            && (status.ToolkitChanged? <==> HasRetroProduct(d) && f.Some? && f.value.toolkit != t)
            && (status.Broken? <==> !HasRetroProduct(d) && s.Some? && s.value.retroRewindInstalled)
            && (status.Absent? <==> !HasRetroProduct(d) && (s.None? || !s.value.retroRewindInstalled))
            && (status.Blocked? <==>
                  HasRetroProduct(d)
                  && (f.None? || (f.value.toolkit == t && !RetroProven(d, t)) || (embeds && !PayloadRecorded(d))))
            && !status.InputsMissing?
  {}

  // ---- The payload length ------------------------------------------------------------------------------

  function SampleProduct(profile: string, mode: string, sha: string, length: int): Product {
    Product(
      Some(Executable(MINIMUM_EXECUTABLE, "e")),
      Some(ProductFingerprint(1, profile, "t", "d", "r", "e", "c", "i", mode, sha, length)),
      Readable(LocalBuild(1, profile, "d", "r", Some("c"), Some(mode), Some(sha), Some(length))),
      map[Bootstrap := "a", Coefficients := "b", PipelineCache := "p"])
  }

  function SampleDisk(mode: string, sha: string, length: int, cache: Option<Payload>): Disk {
    var base, retro := SampleProduct(BASE_PROFILE, "", "", 0), SampleProduct(RETRO_PROFILE, mode, sha, length);
    Disk("root", true, Some(ToolkitState(2, "t", "k", Some(base.assets))), "t", base.assets, base, retro,
         Some(InstallState(1, "root", true, "d", "r", "c", "i", DOWNLOADED, "s", 2, "canon")),
         GameData(Some("d"), Some("r"), true), Some("d"), Some("r"), cache, Some("canon"))
  }

  /** An installation whose every record says the cached payload has two bytes; it has one. */
  function WrongLength(): Disk {
    SampleDisk(DOWNLOADED, "s", 2, Some(Payload("s", 1)))
  }

  function OnlineRequest(): Request {
    Request(Some(CompileInputs("c", "i")), Online, "", "", Some("canon"), Some(Payload("s", 1)))
  }

  lemma Letters()
    ensures forall s | s in ["t", "d", "r", "e", "c", "i", "s", "root"] :: !Blank(s)
  {
    forall s | s in ["t", "d", "r", "e", "c", "i", "s", "root"] ensures !Blank(s) {
      assert !WhiteSpace(s[0]);
    }
  }

  lemma WrongLengthIsTrusted()
    ensures RetroTrusted(WrongLength(), "t", OnlineRequest().snapshot)
  {
    Letters();
  }

  lemma WrongLengthBase()
    ensures CheckBaseCore(WrongLength(), "t").Current?
  {
    Letters();
  }

  lemma WrongLengthVerdicts()
    ensures CheckRetroCore(WrongLength(), "t", OnlineRequest().snapshot, false, Some(true)).Current?
    ensures CheckRetroCore(WrongLength(), "t", OnlineRequest().snapshot, false, None).PayloadChanged?
  {
    Letters();
    WrongLengthIsTrusted();
    TrustedVerdict(WrongLength(), "t", OnlineRequest().snapshot, Some(true));
    TrustedVerdict(WrongLength(), "t", OnlineRequest().snapshot, None);
  }

  lemma WrongLengthPlansNothing()
    ensures !HasWork(PlanFor(WrongLength(), "t", OnlineRequest(), OnlineRequest().download))
  {
    WrongLengthBase();
    WrongLengthVerdicts();
    IdleMeans(WrongLength(), "t", OnlineRequest(), OnlineRequest().download);
  }

  /** A payload length recorded wrongly is never repaired: the online reconciliation finds the hash
      right and plans nothing, its own observation calls the product current, and every inspection
      that reads the cache for itself calls the payload changed. */
  lemma WrongLengthIsNeverRepaired()
    ensures var d, q := WrongLength(), OnlineRequest();
            && ReconciledTo(d, q, None, d) && !HasWork(FirstPlan(d, q))
            && CheckRetroCore(d, "t", q.snapshot, false, Some(true)).Current?
            && CheckRetroCore(d, "t", q.snapshot, false, None).PayloadChanged?
  {
    var d, q := WrongLength(), OnlineRequest();
    Letters();
    WrongLengthVerdicts();
    WrongLengthPlansNothing();
    assert ResolveToolkitFingerprint(d) == "t" && StagedPayload(d, q) == q.download;
    assert Preflight(d, q).None?;
  }

  /** A product that records no payload mode, in an installation that says it was downloaded. */
  function BlankMode(): Disk {
    SampleDisk("", "", 0, None)
  }

  lemma BlankModeIsCurrent()
    ensures CheckRetroCore(BlankMode(), "t", None, false, None).Current?
  {
    Letters();
    TrustedVerdict(BlankMode(), "t", None, None);
  }

  lemma BlankModeBase()
    ensures CheckBaseCore(BlankMode(), "t").Current?
  {
    Letters();
  }

  /** The exception is real: a base-only operation on that installation reports a verified cache
      where there is no cache at all. Nothing reads the report, because the product embeds no payload. */
  lemma ReportedUnverified()
    ensures var d, q := BlankMode(), Request(None, NotApplicable, "", "", None, None);
            && ReconciledTo(d, q, None, d) && VerifiedOnlineCache(d) == Some(true) && d.payloadCache.None?
  {
    var d, q := BlankMode(), Request(None, NotApplicable, "", "", None, None);
    Letters();
    BlankModeIsCurrent();
    BlankModeBase();
    IdleMeans(d, "t", q, None);
    assert ResolveToolkitFingerprint(d) == "t" && Preflight(d, q).None?;
  }

  // ---- Builds that break their contract ---------------------------------------------------------------------

  /** Only a base product, without a fingerprint, so it must be rebuilt. */
  function Unstamped(): Disk {
    var d := SampleDisk("", "", 0, None);
    d.(base := d.base.(fingerprint := None), retro := d.retro.(executable := None, fingerprint := None),
       state := Some(d.state.value.(retroRewindInstalled := false)))
  }

  /** A base product and no Retro Rewind. */
  function BaseOnly(): Disk {
    var d := SampleDisk("", "", 0, None);
    d.(retro := d.retro.(executable := None, fingerprint := None),
       state := Some(d.state.value.(retroRewindInstalled := false)))
  }

  /** Build outputs whose local-build.json names the other profile. */
  function Mislabelled(): Built {
    var p := SampleProduct("", "", "", 0);
    Built(p.(localBuild := Readable(LocalBuild(1, RETRO_PROFILE, "d", "r", None, None, None, None))),
          p.(localBuild := Readable(LocalBuild(1, BASE_PROFILE, "d", "r", Some("c"), Some(SKIPPED), None, None))))
  }

  lemma UnstampedPlan(q: Request)
    requires q == Request(None, NotApplicable, "", "", None, None)
    ensures Preflight(Unstamped(), q).None? && ResolveToolkitFingerprint(Unstamped()) == "t"
    ensures FirstPlan(Unstamped(), q) == Plan(true, false, false, false, false, false)
  {
    Letters();
  }

  /** A base product is published whatever profile its own record names, and is then not current. */
  lemma MislabelledBaseIsPublished()
    ensures var d, q := Unstamped(), Request(None, NotApplicable, "", "", None, None);
            && FirstPlan(d, q).rebuildBase && Reconciled(d, q, Some(Mislabelled())).Ok?
            && var d' := Reconciled(d, q, Some(Mislabelled())).value;
               ReconciledTo(d, q, Some(Mislabelled()), d')
               && !CheckBaseCore(d', ResolveToolkitFingerprint(d')).Current?
  {
    var d, q := Unstamped(), Request(None, NotApplicable, "", "", None, None);
    Letters();
    UnstampedPlan(q);
    BaseConverges(d, q, Some(Mislabelled()), Reconciled(d, q, Some(Mislabelled())).value);
  }

  function SkippedRequest(): Request {
    Request(Some(CompileInputs("c", "i")), Skipped, "", "", Some("canon"), None)
  }

  lemma BaseOnlyPlan()
    ensures Preflight(BaseOnly(), SkippedRequest()).None? && ResolveToolkitFingerprint(BaseOnly()) == "t"
    ensures FirstPlan(BaseOnly(), SkippedRequest()).rebuildRetro && !FirstPlan(BaseOnly(), SkippedRequest()).rebuildBase
    ensures !FirstPlan(BaseOnly(), SkippedRequest()).syncPayload && !FirstPlan(BaseOnly(), SkippedRequest()).syncRetroAssets
  {
    Letters();
  }

  lemma MislabelledRetroIsProduced()
    ensures var d, q := BaseOnly(), SkippedRequest();
            Produced(d, "t", q, None, FirstPlan(d, q), Some(Mislabelled())).Ok?
  {
    BaseOnlyPlan();
    MislabelledConsumed();
    BaseOnlyInputs();
  }

  lemma MislabelledConsumed()
    ensures ConsumedSelection(Mislabelled().retro, "d", "r", SkippedRequest().snapshot.value, Skipped, None)
    ensures BuildAccepted(Mislabelled().retro)
  {}

  lemma BaseOnlyInputs()
    ensures AuthoritativeHashes(BaseOnly(), SkippedRequest()) == ("d", "r") && Refreshable(BaseOnly(), "d", "r")
    ensures !ToolkitModifiedOnDisk(BaseOnly(), "t") && !Blank("d") && !Blank("r")
  {
    Letters();
  }

  /** So is a Retro Rewind product: the check on its record leaves the profile out. */
  lemma MislabelledRetroIsPublished()
    ensures var d, q := BaseOnly(), SkippedRequest();
            && FirstPlan(d, q).rebuildRetro && Reconciled(d, q, Some(Mislabelled())).Ok?
            && var d' := Reconciled(d, q, Some(Mislabelled())).value;
               ReconciledTo(d, q, Some(Mislabelled()), d')
               && !CheckRetroCore(d', ResolveToolkitFingerprint(d'), q.snapshot, false, None).Current?
  {
    var d, q := BaseOnly(), SkippedRequest();
    BaseOnlyPlan();
    MislabelledRetroIsProduced();
    RetroConverges(d, q, Some(Mislabelled()), Reconciled(d, q, Some(Mislabelled())).value);
  }
}
