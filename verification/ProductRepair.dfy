/** The repair planner: what one reconciliation decides to rebuild or copy, and what it publishes. */
module ProductRepair {
  import opened FileTree
  import opened Installation
  import opened Wrappers

  /** One operation's inputs. `download` is what the payload service answered, if anything. */
  datatype Request = Request(
    snapshot: Option<CompileInputs>, mode: PayloadMode, expectedDol: string, expectedRel: string,
    canonicalRoot: Option<string>, download: Option<Payload>)

  /** What the build script left in its output directories. */
  datatype Built = Built(base: Product, retro: Product)

  datatype RepairError =
    | NotInstalled | ToolkitMissing | HashesIncomplete | ToolkitUnidentified | PayloadModeRequired
    | PayloadUnavailable | CanonicalRootRequired | RetroInputsRequired | ToolkitModified | GameInputsUnknown
    | GameInputsMismatch | BuildFailed | WrongPayloadBuilt | AssetsUnproven | PayloadNotStaged

  datatype Plan = Plan(
    rebuildBase: bool, rebuildRetro: bool, syncPayload: bool, syncBaseAssets: bool, syncRetroAssets: bool,
    rootChanged: bool)

  predicate HasWork(p: Plan) {
    p.rebuildBase || p.rebuildRetro || p.syncPayload || p.syncBaseAssets || p.syncRetroAssets || p.rootChanged
  }

  // ---- Planning ------------------------------------------------------------------------------------

  /** The download, or else the installation's own verified payload. */
  function StagedPayload(d: Disk, q: Request): Option<Payload> {
    if !q.mode.Online? then None
    else if q.download.Some? then q.download
    else RecoveredPayload(d)
  }

  function RecoveredPayload(d: Disk): Option<Payload> {
    var f := ReadFingerprint(d.retro);
    if f.Some? && f.value.payloadMode == DOWNLOADED && d.state.Some? && d.state.value.payloadMode == DOWNLOADED
       && !Blank(f.value.payloadSha) && f.value.payloadSha == d.state.value.payloadSha && f.value.payloadLength > 0
       && d.payloadCache.Some? && d.payloadCache.value.length == f.value.payloadLength
       && d.payloadCache.value.sha == f.value.payloadSha
    then d.payloadCache else None
  }

  /** An online operation works with what was downloaded or, failing that, with the installation's own
      payload, exactly when product and state document both name its hash and the cache holds that payload
      at the recorded length. */
  lemma {:induction false} PayloadIsVerified(d: Disk, q: Request, p: Payload)
    ensures StagedPayload(d, q) == Some(p) <==>
            q.mode.Online?
            && if q.download.Some? then q.download.value == p
               else d.payloadCache == Some(p) && d.retro.fingerprint.Some? && d.state.Some?
                    && var f, s := d.retro.fingerprint.value, d.state.value;
                       f.schemaVersion == 1 && f.payloadMode == s.payloadMode == "downloaded"
                       && f.payloadSha == s.payloadSha == p.sha && f.payloadLength == p.length
  {
    assert !Blank(p.sha) by {
      assert !WhiteSpace(p.sha[0]);
    }
  }

  predicate RequiresCompilation(s: ProductStatus) {
    !s.Current? && !s.Absent? && !s.PayloadChanged?
  }

  /** What is known about the payload cache before anything is hashed twice. */
  function CacheObservation(d: Disk, staged: Option<Payload>): Option<bool> {
    if staged.None? then None else Some(d.payloadCache == staged)
  }

  predicate InputDrift(p: Product, q: Request) {
    && !Blank(q.expectedDol) && !Blank(q.expectedRel)
    && p.executable.Some? && !UsesGameInputs(p, q.expectedDol, q.expectedRel)
  }

  function RetroStatus(d: Disk, toolkit: string, q: Request, staged: Option<Payload>): ProductStatus {
    CheckRetroCore(d, toolkit, q.snapshot, false, CacheObservation(d, staged))
  }

  predicate RecordedRootMatches(d: Disk, root: string) {
    && d.configuredRoot.Some? && d.state.Some?
    && Same(d.configuredRoot.value, root) && Same(d.state.value.retroRewindRoot, root)
  }

  /** Why Retro Rewind is rebuilt: drift, its status, a payload it does not embed, another mode. */
  predicate RetroMustBeRebuilt(d: Disk, toolkit: string, q: Request, staged: Option<Payload>) {
    var status := RetroStatus(d, toolkit, q, staged);
    || InputDrift(d.retro, q) || RequiresCompilation(status) || status.Absent?
    || (staged.Some? && !MatchesSnapshot(d, staged.value))
    || (HasRetroProduct(d) && !ResolvePayloadMode(d).NotApplicable? && ResolvePayloadMode(d) != q.mode)
  }

  /** The plan by what it is for: a payload is copied exactly when an online operation rebuilds the
      product that embeds it or finds the cached copy stale. */
  function PlanFor(d: Disk, toolkit: string, q: Request, staged: Option<Payload>): Plan {
    var rebuildBase := RequiresCompilation(CheckBaseCore(d, toolkit)) || InputDrift(d.base, q);
    var rebuildRetro := q.snapshot.Some? && RetroMustBeRebuilt(d, toolkit, q, staged);
    Plan(
      rebuildBase, rebuildRetro,
      q.snapshot.Some? && q.mode.Online? && (rebuildRetro || d.payloadCache != staged),
      !rebuildBase && d.base.executable.Some? && !AssetsMatch(d, d.base, toolkit),
      !rebuildRetro && HasRetroProduct(d) && !AssetsMatch(d, d.retro, toolkit),
      q.snapshot.Some? && q.canonicalRoot.Some? && !RecordedRootMatches(d, q.canonicalRoot.value))
  }

  /** The folder is published anew unless Config.toml and the state document both name it already. */
  lemma {:induction false} FolderIsCompared(d: Disk, toolkit: string, q: Request, staged: Option<Payload>)
    ensures PlanFor(d, toolkit, q, staged).rootChanged <==>
            q.snapshot.Some? && q.canonicalRoot.Some?
            && !(d.configuredRoot.Some? && Same(d.configuredRoot.value, q.canonicalRoot.value)
                 && d.state.Some? && Same(d.state.value.retroRewindRoot, q.canonicalRoot.value))
  {}

  datatype PayloadAction = LeaveAlone | PublishCacheOnly | RebuildRetro

  function PlanPayloadReconciliation(productMatches: bool, cacheMatches: bool): PayloadAction {
    if !productMatches then RebuildRetro else if cacheMatches then LeaveAlone else PublishCacheOnly
  }

  predicate OnlineIsStaged(q: Request, staged: Option<Payload>) {
    && (q.mode.Online? <==> staged.Some?)
    && (q.snapshot.Some? <==> !q.mode.NotApplicable?)
  }

  /** A payload is reported changed only on a product that embeds one and whose cache was not just found
      to match. */
  lemma PayloadChangedMeans(d: Disk, toolkit: string, canonical: Option<CompileInputs>, cached: Option<bool>)
    requires CheckRetroCore(d, toolkit, canonical, false, cached).PayloadChanged?
    ensures HasRetroProduct(d) && ResolvePayloadMode(d).Online? && cached != Some(true)
  {}

  /** What happens to Retro Rewind and its payload, flag by flag. */
  method DecideRetro(d: Disk, toolkit: string, q: Request, staged: Option<Payload>, status: ProductStatus)
    returns (rebuildRetro: bool, syncPayload: bool)
    requires OnlineIsStaged(q, staged) && q.snapshot.Some? && status == RetroStatus(d, toolkit, q, staged)
    requires status.PayloadChanged? ==>
               HasRetroProduct(d) && ResolvePayloadMode(d).Online? && CacheObservation(d, staged) != Some(true)
    ensures rebuildRetro <==> RetroMustBeRebuilt(d, toolkit, q, staged)
    ensures syncPayload <==> q.mode.Online? && (rebuildRetro || d.payloadCache != staged)
  {
    var action := if staged.None? then LeaveAlone
                  else PlanPayloadReconciliation(MatchesSnapshot(d, staged.value), CacheObservation(d, staged) == Some(true));
    rebuildRetro := InputDrift(d.retro, q) || RequiresCompilation(status) || status.Absent?;
    syncPayload := status.PayloadChanged?;
    if action.RebuildRetro? {
      rebuildRetro, syncPayload := true, true;
    } else if action.PublishCacheOnly? {
      syncPayload := true;
    }
    var installedMode := ResolvePayloadMode(d);
    if HasRetroProduct(d) && !installedMode.NotApplicable? && installedMode != q.mode {
      rebuildRetro := true;
      syncPayload := q.mode.Online?;
    }
    if rebuildRetro && q.mode.Online? {
      syncPayload := true;
    }
  }

  /** The planner as the service runs it. */
  method DecidePlan(d: Disk, toolkit: string, q: Request, staged: Option<Payload>) returns (p: Plan)
    requires OnlineIsStaged(q, staged)
    ensures p == PlanFor(d, toolkit, q, staged)
  {
    var rootChanged := q.snapshot.Some? && q.canonicalRoot.Some? && !RecordedRootMatches(d, q.canonicalRoot.value);
    var retroStatus := RetroStatus(d, toolkit, q, staged);
    var rebuildBase := RequiresCompilation(CheckBaseCore(d, toolkit)) || InputDrift(d.base, q);
    var rebuildRetro, syncPayload := false, false;
    if q.snapshot.Some? {
      if retroStatus.PayloadChanged? {
        PayloadChangedMeans(d, toolkit, q.snapshot, CacheObservation(d, staged));
      }
      rebuildRetro, syncPayload := DecideRetro(d, toolkit, q, staged, retroStatus);
    }
    var syncBaseAssets := !rebuildBase && d.base.executable.Some? && !AssetsMatch(d, d.base, toolkit);
    var syncRetroAssets := !rebuildRetro && HasRetroProduct(d) && !AssetsMatch(d, d.retro, toolkit);
    p := Plan(rebuildBase, rebuildRetro, syncPayload, syncBaseAssets, syncRetroAssets, rootChanged);
  }

  // ---- Refreshing the translation inputs -------------------------------------------------------------

  /** The game hashes a compile must use: the supplied ones, else the recorded ones. */
  function AuthoritativeHashes(d: Disk, q: Request): (string, string) {
    if Blank(q.expectedDol) && Blank(q.expectedRel) then
      if d.state.Some? && d.state.value.schemaVersion == 1 then (d.state.value.dol, d.state.value.rel) else ("", "")
    else (q.expectedDol, q.expectedRel)
  }

  predicate Refreshable(d: Disk, dol: string, rel: string) {
    && d.game.dol.Some? && Same(d.game.dol.value, dol)
    && d.game.rel.Some? && Same(d.game.rel.value, rel)
  }

  function RefreshedCopy(copy: Option<Digest>, source: Digest, expected: string): (r: Digest)
    requires Same(source, expected)
    ensures Same(r, expected)
  {
    if copy.Some? && Same(copy.value, expected) then copy.value else source
  }

  // ---- Build outputs ------------------------------------------------------------------------------------

  function Fingerprint(p: Product, profile: string, toolkit: string, dol: string, rel: string,
                       inputs: Option<CompileInputs>, mode: PayloadMode, payload: Option<Payload>): ProductFingerprint
    requires p.executable.Some?
  {
    ProductFingerprint(
      1, profile, toolkit, dol, rel, p.executable.value.sha,
      if inputs.Some? then inputs.value.codePul else "", if inputs.Some? then inputs.value.compileInputs else "",
      ModeText(mode), if payload.Some? then payload.value.sha else "", if payload.Some? then payload.value.length else 0)
  }

  predicate BuildAccepted(p: Product) {
    Usable(p) && !p.localBuild.Missing?
  }

  /** The build consumed the selected inputs and payload, as far as its own provenance says. */
  predicate ConsumedSelection(p: Product, dol: string, rel: string, inputs: CompileInputs, mode: PayloadMode,
                              payload: Option<Payload>)
  {
    && p.localBuild.Readable? && p.localBuild.value.schemaVersion == 1
    && Same(p.localBuild.value.dol, dol) && Same(p.localBuild.value.rel, rel)
    && p.localBuild.value.codePul.Some? && Same(p.localBuild.value.codePul.value, inputs.codePul)
    && p.localBuild.value.payloadMode == Some(if mode.Online? then DOWNLOADED else SKIPPED)
    && (if mode.Online? && payload.Some?
        then p.localBuild.value.payloadSha.Some? && Same(p.localBuild.value.payloadSha.value, payload.value.sha)
        else p.localBuild.value.payloadSha.None?)
    && p.localBuild.value.payloadLength.GetOr(0) == (if mode.Online? && payload.Some? then payload.value.length else 0)
  }

  /** The finished outputs to publish, if the products were rebuilt. */
  datatype Outputs = Outputs(base: Option<Product>, retro: Option<Product>)

  function Stamped(p: Product, f: ProductFingerprint): Product {
    p.(fingerprint := Some(f))
  }

  /** Compile and stamp what the plan rebuilds. */
  function Produced(d: Disk, toolkit: string, q: Request, staged: Option<Payload>, plan: Plan, built: Option<Built>)
    : Result<(Disk, Outputs), RepairError>
  {
    var (dol, rel) := AuthoritativeHashes(d, q);
    if !(plan.rebuildBase || plan.rebuildRetro) then Ok((d, Outputs(None, None)))
    else if ToolkitModifiedOnDisk(d, toolkit) then Err(ToolkitModified)
    else if Blank(dol) || Blank(rel) then Err(GameInputsUnknown)
    else if !Refreshable(d, dol, rel) then Err(GameInputsMismatch)
    else
      var d' := d.(workspaceDol := Some(RefreshedCopy(d.workspaceDol, d.game.dol.value, dol)),
                   workspaceRel := Some(RefreshedCopy(d.workspaceRel, d.game.rel.value, rel)));
      var wDol, wRel := d'.workspaceDol.value, d'.workspaceRel.value;
      if built.None? then Err(BuildFailed)
      else if plan.rebuildBase && !BuildAccepted(built.value.base) then Err(BuildFailed)
      else if plan.rebuildRetro && !BuildAccepted(built.value.retro) then Err(BuildFailed)
      else if plan.rebuildRetro && q.snapshot.None? then Err(RetroInputsRequired)
      else if plan.rebuildRetro && !ConsumedSelection(built.value.retro, wDol, wRel, q.snapshot.value, q.mode, staged)
      then Err(WrongPayloadBuilt)
      else Ok((d', Outputs(
        if plan.rebuildBase then Some(StampedBase(built.value.base, toolkit, wDol, wRel)) else None,
        if plan.rebuildRetro then Some(StampedRetro(built.value.retro, toolkit, wDol, wRel, q, staged)) else None)))
  }

  predicate ToolkitModifiedOnDisk(d: Disk, toolkit: string) {
    !(d.toolkitState.Some? && d.toolkitState.value.schemaVersion == 2 && !Blank(d.toolkitState.value.toolkit)
      && d.toolkitState.value.toolkit == toolkit && d.compiledToolkit == toolkit)
  }

  function StampedBase(p: Product, toolkit: string, dol: string, rel: string): Product
    requires p.executable.Some?
  {
    Stamped(p, Fingerprint(p, BASE_PROFILE, toolkit, dol, rel, None, NotApplicable, None))
  }

  function StampedRetro(p: Product, toolkit: string, dol: string, rel: string, q: Request,
                    staged: Option<Payload>): Product
    requires p.executable.Some?
  {
    Stamped(p, Fingerprint(p, RETRO_PROFILE, toolkit, dol, rel, q.snapshot, q.mode, staged))
  }

  // ---- Publication ------------------------------------------------------------------------------------

  /** Where one published entry goes. */
  datatype Slot = BaseProduct | RetroProduct | BaseAsset(asset: AssetFile) | RetroAsset(asset: AssetFile)
                | PayloadCache | InstallStateFile

  datatype Content = ProductContent(product: Product) | AssetContent(digest: Digest)
                   | CacheContent(cache: Option<Payload>) | StateContent(state: InstallState)

  datatype Entry = Entry(prepared: Path, slot: Slot, content: Content)

  const BOOTSTRAP_NAME := "wii_bootstrap"
  const COEFFICIENTS_NAME := "dsp_coef.bin"
  const PIPELINE_CACHE_NAME := "initial_pipeline_cache.db"

  function AssetName(a: AssetFile): string {
    match a case Bootstrap => BOOTSTRAP_NAME case Coefficients => COEFFICIENTS_NAME case PipelineCache => PIPELINE_CACHE_NAME
  }

  function AssetPath(scratch: Path, product: string, a: AssetFile): Path {
    scratch + ["runtime-asset-repair", product, AssetName(a)]
  }

  function Destination(root: Path, s: Slot): Path {
    match s
    case BaseProduct => root + ["Base"]
    case RetroProduct => root + ["RetroRewind"]
    case BaseAsset(a) => root + ["Base", AssetName(a)]
    case RetroAsset(a) => root + ["RetroRewind", AssetName(a)]
    case PayloadCache => root + ["BuildWorkspace", "Assets", "OfflinePayload"]
    case InstallStateFile => root + ["install-state.json"]
  }

  function KindOf(s: Slot): Kind {
    match s
    case BaseAsset(a) => if a.Bootstrap? then Directory else File
    case RetroAsset(a) => if a.Bootstrap? then Directory else File
    case InstallStateFile => File
    case _ => Directory
  }

  /** Products, the payload cache and the copied bootstrap are directories, the other copies files. */
  lemma {:induction false} KindsOfSlots(a: AssetFile, base: bool)
    ensures var slot := if base then BaseAsset(a) else RetroAsset(a);
            (KindOf(slot) == Directory <==> AssetName(a) == "wii_bootstrap")
            && Destination([], slot) == [if base then "Base" else "RetroRewind", AssetName(a)]
    ensures KindOf(BaseProduct) == KindOf(RetroProduct) == KindOf(PayloadCache) == Directory && KindOf(InstallStateFile) == File
  {
    assert |BOOTSTRAP_NAME| != |COEFFICIENTS_NAME| && |BOOTSTRAP_NAME| != |PIPELINE_CACHE_NAME|;
  }

  /** The state document a publication writes. */
  function UpdatedState(d: Disk, q: Request, rebuiltRetro: bool, staged: Option<Payload>): InstallState {
    var s := if d.state.Some? then d.state.value else InstallState(1, d.root, false, "", "", "", "", "", "", 0, "");
    var f := ReadFingerprint(d.retro);
    var copyRecorded := !rebuiltRetro && f.Some? && !Blank(f.value.payloadMode);
    InstallState(
      1, d.root, q.snapshot.Some? || HasRetroProduct(d),
      if Blank(q.expectedDol) then s.dol else q.expectedDol,
      if Blank(q.expectedRel) then s.rel else q.expectedRel,
      if q.snapshot.Some? then q.snapshot.value.codePul else s.codePul,
      if q.snapshot.Some? then q.snapshot.value.compileInputs else s.compileInputs,
      if rebuiltRetro then (if q.mode.Online? then DOWNLOADED else SKIPPED)
      else if copyRecorded then f.value.payloadMode else s.payloadMode,
      if rebuiltRetro then (if q.mode.Online? && staged.Some? then staged.value.sha else "")
      else if copyRecorded then f.value.payloadSha else s.payloadSha,
      if rebuiltRetro then (if q.mode.Online? && staged.Some? then staged.value.length else 0)
      else if copyRecorded then f.value.payloadLength else s.payloadLength,
      if q.snapshot.Some? && q.canonicalRoot.Some? then q.canonicalRoot.value else s.retroRewindRoot)
  }

  /** The state document as the service fills it in, field by field. */
  method BuildUpdatedInstallState(d: Disk, q: Request, rebuiltRetro: bool,
                    staged: Option<Payload>) returns (s: InstallState)
    ensures s == UpdatedState(d, q, rebuiltRetro, staged)
  {
    s := if d.state.Some? then d.state.value else InstallState(1, d.root, false, "", "", "", "", "", "", 0, "");
    s := s.(installDir := d.root, schemaVersion := 1);
    if !Blank(q.expectedDol) {
      s := s.(dol := q.expectedDol);
    }
    if !Blank(q.expectedRel) {
      s := s.(rel := q.expectedRel);
    }
    s := s.(retroRewindInstalled := q.snapshot.Some? || HasRetroProduct(d));
    if q.snapshot.Some? {
      s := s.(codePul := q.snapshot.value.codePul, compileInputs := q.snapshot.value.compileInputs);
      if q.canonicalRoot.Some? {
        s := s.(retroRewindRoot := q.canonicalRoot.value);
      }
    }
    if rebuiltRetro {
      s := s.(payloadMode := if q.mode.Online? then DOWNLOADED else SKIPPED,
              payloadSha := if q.mode.Online? && staged.Some? then staged.value.sha else "",
              payloadLength := if q.mode.Online? && staged.Some? then staged.value.length else 0);
    } else {
      var retro := ReadFingerprint(d.retro);
      if retro.Some? && !Blank(retro.value.payloadMode) {
        s := s.(payloadMode := retro.value.payloadMode, payloadSha := retro.value.payloadSha,
                payloadLength := retro.value.payloadLength);
      }
    }
  }

  /** The directories an operation prepares its files in. */
  datatype Scratch = Scratch(root: Path, recovered: bool) {
    function Payload(): Path {
      root + [if recovered then "retro-wfc-payload-recovered" else "retro-wfc-payload"]
    }
  }

  function AssetEntries(assets: map<AssetFile, Digest>, scratch: Path, base: bool): seq<Entry>
    requires Complete(assets)
  {
    var name := if base then "Base" else "RetroRewind";
    [Entry(AssetPath(scratch, name, Bootstrap), AssetSlot(base, Bootstrap), AssetContent(assets[Bootstrap])),
     Entry(AssetPath(scratch, name, Coefficients), AssetSlot(base, Coefficients), AssetContent(assets[Coefficients])),
     Entry(AssetPath(scratch, name, PipelineCache), AssetSlot(base, PipelineCache), AssetContent(assets[PipelineCache]))]
  }

  function AssetSlot(base: bool, a: AssetFile): Slot {
    if base then BaseAsset(a) else RetroAsset(a)
  }

  predicate Complete(assets: map<AssetFile, Digest>) {
    Bootstrap in assets && Coefficients in assets && PipelineCache in assets
  }

  /** Copied assets are republished only from a workspace that matches the toolkit's record. */
  predicate AssetsProven(d: Disk, toolkit: string) {
    && d.toolkitState.Some? && d.toolkitState.value.schemaVersion == 2 && d.toolkitState.value.toolkit == toolkit
    && d.toolkitState.value.runtimeAssets == Some(d.workspaceAssets) && Complete(d.workspaceAssets)
  }

  predicate WritesState(plan: Plan, q: Request) {
    plan.rebuildBase || plan.rebuildRetro || q.snapshot.Some?
  }

  function PublicationError(d: Disk, toolkit: string, plan: Plan, staged: Option<Payload>): Option<RepairError> {
    if (plan.syncBaseAssets || plan.syncRetroAssets) && !AssetsProven(d, toolkit) then Some(AssetsUnproven)
    else if plan.syncPayload && staged.None? then Some(PayloadNotStaged)
    else None
  }

  /** The rebuilt products and the copied assets, in the order they are published. */
  method ProductAndAssetEntries(d: Disk, toolkit: string, plan: Plan, out: Outputs, scratch: Scratch)
    returns (entries: Option<seq<Entry>>)
    ensures entries.None? <==> (plan.syncBaseAssets || plan.syncRetroAssets) && !AssetsProven(d, toolkit)
    ensures entries.Some? ==> entries.value == ProductEntries(out, scratch) + CopiedEntries(d, plan, scratch)
  {
    var list := [];
    if out.base.Some? {
      list := list + [Entry(scratch.root + ["base-output"], BaseProduct, ProductContent(out.base.value))];
    }
    if out.retro.Some? {
      list := list + [Entry(scratch.root + ["retro-output"], RetroProduct, ProductContent(out.retro.value))];
    }
    assert list == ProductEntries(out, scratch);
    if plan.syncBaseAssets || plan.syncRetroAssets {
      if !AssetsProven(d, toolkit) {
        return None;
      }
      if plan.syncBaseAssets {
        list := list + AssetEntries(d.workspaceAssets, scratch.root, true);
      }
      if plan.syncRetroAssets {
        list := list + AssetEntries(d.workspaceAssets, scratch.root, false);
      }
    }
    entries := Some(list);
  }

  /** Those, and the payload cache. */
  method PreparedEntries(d: Disk, toolkit: string, q: Request, staged: Option<Payload>, plan: Plan, out: Outputs,
                         scratch: Scratch)
    returns (entries: Result<seq<Entry>, RepairError>)
    requires out.retro.Some? == plan.rebuildRetro
    ensures match PublicationError(d, toolkit, plan, staged)
            case Some(e) => entries == Err(e)
            case None => entries == Ok(ProductEntries(out, scratch) + CopiedEntries(d, plan, scratch)
                                       + CacheEntries(q, staged, plan, scratch))
  {
    var copied := ProductAndAssetEntries(d, toolkit, plan, out, scratch);
    if copied.None? {
      return Err(AssetsUnproven);
    }
    var list := copied.value;
    if plan.syncPayload {
      if staged.None? {
        return Err(PayloadNotStaged);
      }
      list := list + [Entry(scratch.Payload(), PayloadCache, CacheContent(staged))];
    }
    if out.retro.Some? && q.mode.Skipped? {
      list := list + [Entry(scratch.root + ["retro-wfc-payload-removed"], PayloadCache, CacheContent(None))];
    }
    assert list == copied.value + CacheEntries(q, staged, plan, scratch);
    entries := Ok(list);
  }

  /** The transaction's whole entry list: the install state goes last. */
  method PublicationEntries(d: Disk, toolkit: string, q: Request, staged: Option<Payload>, plan: Plan, out: Outputs,
                            scratch: Scratch)
    returns (entries: Result<seq<Entry>, RepairError>)
    requires out.base.Some? == plan.rebuildBase && out.retro.Some? == plan.rebuildRetro
    ensures match PublicationError(d, toolkit, plan, staged)
            case Some(e) => entries == Err(e)
            case None => entries == Ok(PlannedEntries(d, q, staged, plan, out, scratch))
  {
    entries := PreparedEntries(d, toolkit, q, staged, plan, out, scratch);
    if entries.Ok? && (out.base.Some? || out.retro.Some? || q.snapshot.Some?) {
      var state := BuildUpdatedInstallState(d, q, out.retro.Some?, staged);
      entries := Ok(entries.value + [Entry(scratch.root + ["install-state.json"], InstallStateFile, StateContent(state))]);
    } else if entries.Ok? {
      assert entries.value + [] == entries.value;
    }
  }

  function ProductEntries(out: Outputs, scratch: Scratch): seq<Entry> {
    (if out.base.Some? then [Entry(scratch.root + ["base-output"], BaseProduct, ProductContent(out.base.value))]
     else [])
    + (if out.retro.Some? then [Entry(scratch.root + ["retro-output"], RetroProduct, ProductContent(out.retro.value))]
       else [])
  }

  function CopiedEntries(d: Disk, plan: Plan, scratch: Scratch): seq<Entry>
    requires plan.syncBaseAssets || plan.syncRetroAssets ==> Complete(d.workspaceAssets)
  {
    (if plan.syncBaseAssets then AssetEntries(d.workspaceAssets, scratch.root, true) else [])
    + (if plan.syncRetroAssets then AssetEntries(d.workspaceAssets, scratch.root, false) else [])
  }

  function CacheEntries(q: Request, staged: Option<Payload>, plan: Plan, scratch: Scratch): seq<Entry> {
    (if plan.syncPayload then [Entry(scratch.Payload(), PayloadCache, CacheContent(staged))] else [])
    + (if plan.rebuildRetro && q.mode.Skipped?
       then [Entry(scratch.root + ["retro-wfc-payload-removed"], PayloadCache, CacheContent(None))] else [])
  }

  function StateEntries(d: Disk, q: Request, staged: Option<Payload>, plan: Plan, scratch: Scratch): seq<Entry> {
    if WritesState(plan, q)
    then [Entry(scratch.root + ["install-state.json"], InstallStateFile,
                StateContent(UpdatedState(d, q, plan.rebuildRetro, staged)))]
    else []
  }

  function PlannedEntries(d: Disk, q: Request, staged: Option<Payload>, plan: Plan, out: Outputs,
                    scratch: Scratch): seq<Entry>
    requires plan.syncBaseAssets || plan.syncRetroAssets ==> Complete(d.workspaceAssets)
  {
    ProductEntries(out, scratch) + CopiedEntries(d, plan, scratch)
    + CacheEntries(q, staged, plan, scratch) + StateEntries(d, q, staged, plan, scratch)
  }

  /** The installation a publication leaves behind. */
  function Published(d: Disk, q: Request, staged: Option<Payload>, plan: Plan, out: Outputs): Disk {
    d.(base := if plan.rebuildBase && out.base.Some? then out.base.value
               else if plan.syncBaseAssets then d.base.(assets := d.workspaceAssets) else d.base,
       retro := if plan.rebuildRetro && out.retro.Some? then out.retro.value
                else if plan.syncRetroAssets then d.retro.(assets := d.workspaceAssets) else d.retro,
       payloadCache := if plan.rebuildRetro && q.mode.Skipped? then None
                       else if plan.syncPayload then staged else d.payloadCache,
       state := if WritesState(plan, q) then Some(UpdatedState(d, q, plan.rebuildRetro, staged)) else d.state,
       configuredRoot := if q.snapshot.Some? && q.canonicalRoot.Some? then q.canonicalRoot else d.configuredRoot)
  }

  // ---- One reconciliation --------------------------------------------------------------------------------

  /** What is refused before anything is planned. */
  function Preflight(d: Disk, q: Request): Option<RepairError> {
    if q.snapshot.Some? && q.mode.NotApplicable? then Some(PayloadModeRequired)
    else if !IsPresent(d) then Some(NotInstalled)
    else if !d.hasToolkit then Some(ToolkitMissing)
    else if Blank(q.expectedDol) != Blank(q.expectedRel) then Some(HashesIncomplete)
    else if Blank(ResolveToolkitFingerprint(d)) then Some(ToolkitUnidentified)
    else if q.mode.Online? && StagedPayload(d, q).None? then Some(PayloadUnavailable)
    else if q.snapshot.Some? && q.canonicalRoot.None? then Some(CanonicalRootRequired)
    else if q.snapshot.None? && InputDrift(d.retro, q) then Some(RetroInputsRequired)
    else if q.snapshot.None? && ActionRequired(RetroStatus(d, ResolveToolkitFingerprint(d), q, None))
    then Some(RetroInputsRequired)
    else None
  }

  /** The whole reconciliation; a base-only operation has no snapshot and no payload mode. */
  function Reconciled(d: Disk, q: Request, built: Option<Built>): Result<Disk, RepairError>
    requires q.snapshot.None? ==> q.mode.NotApplicable?
  {
    var t, staged := ResolveToolkitFingerprint(d), StagedPayload(d, q);
    match Preflight(d, q)
    case Some(e) => Err(e)
    case None => CarriedOut(d, t, q, staged, PlanFor(d, t, q, staged), built)
  }

  function CarriedOut(d: Disk, toolkit: string, q: Request, staged: Option<Payload>, plan: Plan, built: Option<Built>)
    : Result<Disk, RepairError>
  {
    if !HasWork(plan) then Ok(d)
    else match Produced(d, toolkit, q, staged, plan, built)
         case Err(e) => Err(e)
         case Ok((refreshed, out)) => PublishedFrom(refreshed, toolkit, q, staged, plan, out)
  }

  /** Publication, once everything is built. */
  function PublishedFrom(d: Disk, toolkit: string, q: Request, staged: Option<Payload>, plan: Plan, out: Outputs)
    : Result<Disk, RepairError>
  {
    match PublicationError(d, toolkit, plan, staged)
    case Some(e) => Err(e)
    case None => Ok(Published(d, q, staged, plan, out))
  }
}
