/** What an installation records on disk, and the inspection that classifies its two products. */
module Installation {
  import opened Wrappers

  // ---- Recorded text ----------------------------------------------------------------------------

  predicate WhiteSpace(c: char) {
    c == ' ' || c == '\t' || c == '\r' || c == '\n'
  }

  predicate Blank(s: string) {
    forall i | 0 <= i < |s| :: WhiteSpace(s[i])
  }

  function FoldChar(c: char): char {
    if 'A' <= c <= 'Z' then c - 'A' + 'a' else c
  }

  function Fold(s: string): string {
    seq(|s|, i requires 0 <= i < |s| => FoldChar(s[i]))
  }

  /** Equality of hashes and of normalized paths: letter case does not matter. */
  predicate Same(left: string, right: string) {
    Fold(left) == Fold(right)
  }

  type NonBlank = s: string | |s| > 0 && !WhiteSpace(s[0]) witness "0"

  /** A computed hash; what a document merely records is a plain string. */
  type Digest = NonBlank

  type Length = n: int | n > 0 witness 1

  // ---- Documents and files ------------------------------------------------------------------------

  const BASE_PROFILE := "base"
  const RETRO_PROFILE := "retro-rewind"
  const DOWNLOADED := "downloaded"
  const SKIPPED := "skipped"

  datatype PayloadMode = Online | Skipped | NotApplicable

  function ModeText(mode: PayloadMode): string {
    match mode case Online => DOWNLOADED case Skipped => SKIPPED case NotApplicable => ""
  }

  datatype Payload = Payload(sha: Digest, length: Length)

  datatype CompileInputs = CompileInputs(codePul: Digest, compileInputs: Digest)

  /** build-fingerprint.json beside a product. */
  datatype ProductFingerprint = ProductFingerprint(
    schemaVersion: int, profile: string, toolkit: string, dol: string, rel: string, executable: string,
    codePul: string, compileInputs: string, payloadMode: string, payloadSha: string, payloadLength: int)

  /** local-build.json beside a product, written by the build script. */
  datatype LocalBuild = LocalBuild(
    schemaVersion: int, profile: string, dol: string, rel: string, codePul: Option<string>,
    payloadMode: Option<string>, payloadSha: Option<string>, payloadLength: Option<int>)

  datatype Document<+T> = Missing | Unreadable | Readable(value: T)

  datatype InstallState = InstallState(
    schemaVersion: int, installDir: string, retroRewindInstalled: bool, dol: string, rel: string,
    codePul: string, compileInputs: string, payloadMode: string, payloadSha: string, payloadLength: int,
    retroRewindRoot: string)

  datatype ToolkitState = ToolkitState(
    schemaVersion: int, toolkit: string, package: string, runtimeAssets: Option<map<AssetFile, Digest>>)

  datatype AssetFile = Bootstrap | Coefficients | PipelineCache

  datatype Executable = Executable(length: nat, sha: Digest)

  datatype Product = Product(
    executable: Option<Executable>, fingerprint: Option<ProductFingerprint>, localBuild: Document<LocalBuild>,
    assets: map<AssetFile, Digest>)

  datatype GameData = GameData(dol: Option<Digest>, rel: Option<Digest>, fst: bool)

  /** Everything inspection and repair read. `compiledToolkit` and `workspaceAssets` are what hashing
      the toolkit and the workspace's runtime assets would give now. */
  datatype Disk = Disk(
    root: NonBlank, hasToolkit: bool, toolkitState: Option<ToolkitState>, compiledToolkit: string,
    workspaceAssets: map<AssetFile, Digest>, base: Product, retro: Product, state: Option<InstallState>,
    game: GameData, workspaceDol: Option<Digest>, workspaceRel: Option<Digest>,
    payloadCache: Option<Payload>, configuredRoot: Option<string>)

  // ---- Reading -----------------------------------------------------------------------------------

  const MINIMUM_EXECUTABLE := 64 * 1024

  predicate Usable(p: Product) {
    p.executable.Some? && p.executable.value.length >= MINIMUM_EXECUTABLE
  }

  predicate HasRetroProduct(d: Disk) {
    d.retro.executable.Some?
  }

  predicate IsPresent(d: Disk) {
    d.state.Some? || d.base.executable.Some? || d.retro.executable.Some?
  }

  function ReadFingerprint(p: Product): Option<ProductFingerprint> {
    if p.fingerprint.Some? && p.fingerprint.value.schemaVersion == 1 then p.fingerprint else None
  }

  function ReadCurrentInstallState(d: Disk): Option<InstallState> {
    if d.state.Some? && d.state.value.schemaVersion == 1 && !Blank(d.state.value.installDir)
       && Same(d.state.value.installDir, d.root)
    then d.state else None
  }

  function ResolveToolkitFingerprint(d: Disk): string {
    if d.toolkitState.Some? && d.toolkitState.value.schemaVersion == 2 && d.toolkitState.value.toolkit != ""
       && d.toolkitState.value.package != "" && d.hasToolkit
    then d.toolkitState.value.toolkit else ""
  }

  function ResolvePayloadMode(d: Disk): PayloadMode {
    var recorded := if ReadFingerprint(d.retro).Some? then ReadFingerprint(d.retro).value.payloadMode else "";
    var chosen := if recorded == "" && d.state.Some? then d.state.value.payloadMode else recorded;
    if chosen == DOWNLOADED then Online else if chosen == SKIPPED then Skipped else NotApplicable
  }

  predicate MatchesSnapshot(d: Disk, p: Payload) {
    var f, s := ReadFingerprint(d.retro), ReadCurrentInstallState(d);
    && f.Some? && f.value.payloadMode == DOWNLOADED && s.Some? && s.value.payloadMode == DOWNLOADED
    && f.value.payloadSha == p.sha && s.value.payloadSha == p.sha
  }

  predicate UsesGameInputs(p: Product, dol: string, rel: string) {
    var f := ReadFingerprint(p);
    f.Some? && Same(f.value.dol, dol) && Same(f.value.rel, rel)
  }

  predicate AssetsMatch(d: Disk, p: Product, toolkit: string) {
    && d.toolkitState.Some? && d.toolkitState.value.schemaVersion == 2
    && d.toolkitState.value.toolkit == toolkit && d.toolkitState.value.runtimeAssets == Some(p.assets)
    && Bootstrap in p.assets && Coefficients in p.assets && PipelineCache in p.assets
  }

  // ---- Inspection ----------------------------------------------------------------------------------

  datatype ProductStatus =
    | Absent | Current | ToolkitChanged | CodePulChanged | CompileInputsChanged | PayloadChanged
    | InputsMissing | Blocked | Broken

  predicate ActionRequired(s: ProductStatus) {
    !s.Current? && !s.Absent?
  }

  predicate ProvenanceHolds(d: Disk, p: Product, profile: string, f: ProductFingerprint, s: InstallState) {
    && f.profile == profile && !Blank(f.dol) && !Blank(f.rel) && !Blank(f.executable)
    && Usable(p) && Same(p.executable.value.sha, f.executable)
    && d.game.dol.Some? && d.game.rel.Some? && d.game.fst
    && Same(d.game.dol.value, f.dol) && Same(d.game.rel.value, f.rel)
    && Same(d.game.dol.value, s.dol) && Same(d.game.rel.value, s.rel)
    && p.localBuild.Readable? && LocalBuildAgrees(p.localBuild.value, profile, f)
  }

  predicate LocalBuildAgrees(l: LocalBuild, profile: string, f: ProductFingerprint) {
    && l.schemaVersion == 1 && l.profile == profile && Same(l.dol, f.dol) && Same(l.rel, f.rel)
    && (profile == RETRO_PROFILE ==>
          && l.payloadMode == Some(f.payloadMode) && Same(l.payloadSha.GetOr(""), f.payloadSha)
          && l.payloadLength.GetOr(0) == f.payloadLength)
  }

  function CheckBaseCore(d: Disk, toolkit: string): ProductStatus {
    var f, s := ReadFingerprint(d.base), ReadCurrentInstallState(d);
    if !Usable(d.base) then Broken
    else if !d.hasToolkit || Blank(toolkit) then Blocked
    else if s.None? then Blocked
    else if f.None? then Blocked
    else if f.value.toolkit != toolkit then ToolkitChanged
    else if !ProvenanceHolds(d, d.base, BASE_PROFILE, f.value, s.value) then Blocked
    else Current
  }

  /** `cachedMatches` is an observation the operation already made; None means: hash the cache. */
  function CheckRetroCore(d: Disk, toolkit: string, canonical: Option<CompileInputs>, canonicalError: bool,
                          cachedMatches: Option<bool>): ProductStatus
  {
    var s := ReadCurrentInstallState(d);
    var recordedAsInstalled := s.Some? && s.value.retroRewindInstalled;
    var f := ReadFingerprint(d.retro);
    if (HasRetroProduct(d) || recordedAsInstalled) && (!d.hasToolkit || Blank(toolkit)) then Blocked
    else if !HasRetroProduct(d) then if recordedAsInstalled then Broken else Absent
    else if canonicalError then InputsMissing
    else if f.None? then Blocked
    else if f.value.toolkit != toolkit then ToolkitChanged
    else if s.None? then Blocked
    else if !ProvenanceHolds(d, d.retro, RETRO_PROFILE, f.value, s.value) then Blocked
    else if !InputsRecorded(f.value, s.value) then Blocked
    else if canonical.Some? && !Same(canonical.value.codePul, f.value.codePul) then CodePulChanged
    else if canonical.Some? && !Same(canonical.value.compileInputs, f.value.compileInputs) then CompileInputsChanged
    else if f.value.payloadMode == DOWNLOADED then CheckPayloadCache(d, f.value, s.value, cachedMatches)
    else Current
  }

  predicate InputsRecorded(f: ProductFingerprint, s: InstallState) {
    && !Blank(f.codePul) && !Blank(f.compileInputs) && !Blank(s.codePul) && !Blank(s.compileInputs)
    && Same(s.codePul, f.codePul) && Same(s.compileInputs, f.compileInputs)
  }

  function CheckPayloadCache(d: Disk, f: ProductFingerprint, s: InstallState,
                    cachedMatches: Option<bool>): ProductStatus {
    if Blank(f.payloadSha) || f.payloadLength <= 0 || Blank(s.payloadSha) || s.payloadLength <= 0 then Blocked
    else if cachedMatches == Some(false) then PayloadChanged
    else if cachedMatches == Some(true) then Current
    else if d.payloadCache.Some? && CacheIs(d.payloadCache.value, f) then Current
    else PayloadChanged
  }

  predicate CacheIs(cache: Payload, f: ProductFingerprint) {
    Same(cache.sha, f.payloadSha) && cache.length == f.payloadLength
  }

  function CheckBase(d: Disk, toolkit: string): ProductStatus {
    var core := CheckBaseCore(d, toolkit);
    if core.Current? && !AssetsMatch(d, d.base, toolkit) then Broken else core
  }

  function CheckRetroRewind(d: Disk, toolkit: string, canonical: Option<CompileInputs>, canonicalError: bool,
                            cachedMatches: Option<bool>): ProductStatus
  {
    var core := CheckRetroCore(d, toolkit, canonical, canonicalError, cachedMatches);
    if core.Current? && !AssetsMatch(d, d.retro, toolkit) then Broken else core
  }
}
