/** What inspection finds when one thing about a sound product is replaced, stated on the disk: the exact
    replacements that leave it current, the status of every other one, and the repair that follows. */
module ProductDamage {
  import opened Installation
  import opened ProductRepair
  import opened RepairConvergence
  import opened Wrappers

  /** The same letter in another case, or the same character. */
  predicate SameChar(a: char, b: char) {
    a == b || ('A' <= a <= 'Z' && b as int == a as int + 32) || ('A' <= b <= 'Z' && a as int == b as int + 32)
  }

  /** Hashes are compared character by character, letter case aside. */
  lemma {:induction false} SameIsByCharacter(left: string, right: string)
    ensures Same(left, right) <==>
            |left| == |right| && forall i | 0 <= i < |left| :: SameChar(left[i], right[i])
  {
    assert |Fold(left)| == |left| && |Fold(right)| == |right|;
    if |left| == |right| {
      forall i | 0 <= i < |left| ensures Fold(left)[i] == Fold(right)[i] <==> SameChar(left[i], right[i]) {
        assert Fold(left)[i] == FoldChar(left[i]) && Fold(right)[i] == FoldChar(right[i]);
      }
    }
  }

  lemma SameBlank(left: string, right: string)
    requires Same(left, right)
    ensures Blank(left) <==> Blank(right)
  {
    assert |Fold(left)| == |left| && |Fold(right)| == |right|;
    forall i | 0 <= i < |left| ensures WhiteSpace(left[i]) <==> WhiteSpace(right[i]) {
      assert Fold(left)[i] == FoldChar(left[i]) && Fold(right)[i] == FoldChar(right[i]);
    }
  }

  lemma DigestNotBlank(x: Digest, text: string)
    requires Same(x, text)
    ensures !Blank(text)
  {
    assert !WhiteSpace(x[0]);
    SameBlank(x, text);
  }

  predicate SameGame(a: GameData, b: GameData) {
    && a.dol.Some? && a.rel.Some? && a.fst && b.dol.Some? && b.rel.Some?
    && Same(a.dol.value, b.dol.value) && Same(a.rel.value, b.rel.value)
  }

  predicate NamesGame(dol: string, rel: string, game: GameData) {
    game.dol.Some? && game.rel.Some? && Same(game.dol.value, dol) && Same(game.rel.value, rel)
  }

  /** The state document belongs to this installation and names its game data. */
  predicate StateFits(d: Disk, s: Option<InstallState>) {
    && s.Some? && s.value.schemaVersion == 1 && !Blank(s.value.installDir) && Same(s.value.installDir, d.root)
    && NamesGame(s.value.dol, s.value.rel, d.game)
  }

  /** The toolkit is there and its state says which one it is. */
  predicate ToolkitKnown(present: bool, state: Option<ToolkitState>) {
    present && state.Some? && state.value.schemaVersion == 2 && !Blank(state.value.toolkit) && state.value.package != ""
  }

  // ---- The base product ---------------------------------------------------------------------------------

  predicate BaseCurrent(d: Disk) {
    CheckBaseCore(d, ResolveToolkitFingerprint(d)).Current?
  }

  function BaseStatus(d: Disk): ProductStatus {
    CheckBaseCore(d, ResolveToolkitFingerprint(d))
  }

  /** A missing or truncated executable is broken, another one than was recorded is blocked. */
  lemma BaseExecutable(d: Disk, e: Option<Executable>)
    requires BaseCurrent(d)
    ensures BaseStatus(d.(base := d.base.(executable := e)))
            == if e.None? || e.value.length < 65536 then Broken
               else if Same(e.value.sha, d.base.executable.value.sha) then Current else Blocked
  {}

  lemma BaseGame(d: Disk, game: GameData)
    requires BaseCurrent(d)
    ensures BaseStatus(d.(game := game)) == if SameGame(game, d.game) then Current else Blocked
  {}

  lemma BaseLocalBuild(d: Disk, l: Document<LocalBuild>)
    requires BaseCurrent(d)
    ensures BaseStatus(d.(base := d.base.(localBuild := l)))
            == if l.Readable? && l.value.schemaVersion == 1 && l.value.profile == "base"
                  && NamesGame(l.value.dol, l.value.rel, d.game) then Current else Blocked
  {}

  lemma BaseFingerprint(d: Disk, f: Option<ProductFingerprint>)
    requires BaseCurrent(d)
    ensures BaseStatus(d.(base := d.base.(fingerprint := f)))
            == if f.None? || f.value.schemaVersion != 1 then Blocked
               else if f.value.toolkit != ResolveToolkitFingerprint(d) then ToolkitChanged
               else if f.value.profile == "base" && Same(f.value.executable, d.base.executable.value.sha)
                       && NamesGame(f.value.dol, f.value.rel, d.game) then Current else Blocked
  {
    if f.Some? && Same(f.value.executable, d.base.executable.value.sha) && NamesGame(f.value.dol, f.value.rel, d.game) {
      DigestNotBlank(d.base.executable.value.sha, f.value.executable);
      DigestNotBlank(d.game.dol.value, f.value.dol);
      DigestNotBlank(d.game.rel.value, f.value.rel);
    }
  }

  lemma BaseState(d: Disk, s: Option<InstallState>)
    requires BaseCurrent(d)
    ensures BaseStatus(d.(state := s)) == if StateFits(d, s) then Current else Blocked
  {}

  /** Another toolkit has changed, an unusable one blocks. */
  lemma BaseToolkit(d: Disk, present: bool, state: Option<ToolkitState>)
    requires BaseCurrent(d)
    ensures d.toolkitState.Some?
    ensures BaseStatus(d.(hasToolkit := present, toolkitState := state))
            == if !ToolkitKnown(present, state) then Blocked
               else if state.value.toolkit != d.toolkitState.value.toolkit then ToolkitChanged else Current
  {}

  /** Nothing else matters to it. */
  lemma BaseRest(d: Disk, d': Disk)
    requires BaseCurrent(d)
    requires d'.root == d.root && d'.hasToolkit == d.hasToolkit && d'.toolkitState == d.toolkitState
    requires d'.state == d.state && d'.game == d.game && d'.base == d.base.(assets := d'.base.assets)
    ensures BaseStatus(d') == Current
  {}

  /** Copied files that differ from the toolkit's record break a product that is otherwise current. */
  lemma BaseAssets(d: Disk, assets: map<AssetFile, Digest>)
    requires CheckBase(d, ResolveToolkitFingerprint(d)).Current?
    ensures var d' := d.(base := d.base.(assets := assets));
            CheckBase(d', ResolveToolkitFingerprint(d')) == if assets == d.base.assets then Current else Broken
  {}

  /** Whatever is wrong with it, and only then or when the game data asked for is another, the next plan
      rebuilds it; otherwise changed copies are copied again. */
  lemma BaseIsRepaired(d: Disk, q: Request)
    ensures !BaseCurrent(d) ==> FirstPlan(d, q).rebuildBase
    ensures BaseCurrent(d) ==>
              (FirstPlan(d, q).rebuildBase <==>
                 !Blank(q.expectedDol) && !Blank(q.expectedRel) && !NamesGame(q.expectedDol, q.expectedRel, d.game))
              && (FirstPlan(d, q).syncBaseAssets <==>
                    !FirstPlan(d, q).rebuildBase && !CheckBase(d, ResolveToolkitFingerprint(d)).Current?)
  {}

  // ---- The Retro Rewind product ----------------------------------------------------------------------------

  function RetroStatusOf(d: Disk, canonical: Option<CompileInputs>, cached: Option<bool>): ProductStatus {
    CheckRetroCore(d, ResolveToolkitFingerprint(d), canonical, false, cached)
  }

  /** Sound for these inputs; only its cached payload may be called changed. */
  predicate RetroSound(d: Disk, canonical: Option<CompileInputs>, cached: Option<bool>) {
    HasRetroProduct(d) && (RetroStatusOf(d, canonical, cached).Current? || RetroStatusOf(d, canonical, cached).PayloadChanged?)
  }

  /** The product's own record, which a sound product has. */
  function RetroRecord(d: Disk): ProductFingerprint
    requires d.retro.fingerprint.Some?
  {
    d.retro.fingerprint.value
  }

  lemma SoundHasRecords(d: Disk, canonical: Option<CompileInputs>, cached: Option<bool>)
    requires RetroSound(d, canonical, cached)
    ensures d.retro.fingerprint.Some? && d.state.Some? && d.retro.executable.Some? && d.retro.localBuild.Readable?
    ensures RetroTrusted(d, ResolveToolkitFingerprint(d), canonical)
  {
    TrustedVerdict(d, ResolveToolkitFingerprint(d), canonical, cached);
  }

  lemma RetroExecutable(d: Disk, canonical: Option<CompileInputs>, cached: Option<bool>, e: Option<Executable>)
    requires RetroSound(d, canonical, cached)
    ensures d.state.Some? && d.retro.executable.Some?
    ensures RetroStatusOf(d.(retro := d.retro.(executable := e)), canonical, cached)
            == if e.None? then if d.state.value.retroRewindInstalled then Broken else Absent
               else if e.value.length >= 65536 && Same(e.value.sha, d.retro.executable.value.sha)
               then RetroStatusOf(d, canonical, cached) else Blocked
  {
    SoundHasRecords(d, canonical, cached);
  }

  lemma RetroGame(d: Disk, canonical: Option<CompileInputs>, cached: Option<bool>, game: GameData)
    requires RetroSound(d, canonical, cached)
    ensures RetroStatusOf(d.(game := game), canonical, cached)
            == if SameGame(game, d.game) then RetroStatusOf(d, canonical, cached) else Blocked
  {
    SoundHasRecords(d, canonical, cached);
  }

  /** The build's record also names the payload the product says it embeds. */
  lemma RetroLocalBuild(d: Disk, canonical: Option<CompileInputs>, cached: Option<bool>, l: Document<LocalBuild>)
    requires RetroSound(d, canonical, cached)
    ensures d.retro.fingerprint.Some?
    ensures var f := RetroRecord(d);
            RetroStatusOf(d.(retro := d.retro.(localBuild := l)), canonical, cached)
            == if l.Readable? && l.value.schemaVersion == 1 && l.value.profile == "retro-rewind"
                  && NamesGame(l.value.dol, l.value.rel, d.game)
                  && l.value.payloadMode == Some(f.payloadMode) && Same(l.value.payloadSha.GetOr(""), f.payloadSha)
                  && l.value.payloadLength.GetOr(0) == f.payloadLength
               then RetroStatusOf(d, canonical, cached) else Blocked
  {
    SoundHasRecords(d, canonical, cached);
  }

  predicate RecordFits(d: Disk, f: ProductFingerprint)
    requires d.retro.fingerprint.Some? && d.retro.executable.Some?
  {
    var was := RetroRecord(d);
    && f.profile == "retro-rewind" && Same(f.executable, d.retro.executable.value.sha) && NamesGame(f.dol, f.rel, d.game)
    && Same(f.codePul, was.codePul) && Same(f.compileInputs, was.compileInputs)
    && f.payloadMode == was.payloadMode && Same(f.payloadSha, was.payloadSha) && f.payloadLength == was.payloadLength
  }

  lemma RetroFingerprint(d: Disk, canonical: Option<CompileInputs>, cached: Option<bool>, f: Option<ProductFingerprint>)
    requires RetroSound(d, canonical, cached)
    ensures d.retro.fingerprint.Some? && d.retro.executable.Some?
    ensures RetroStatusOf(d.(retro := d.retro.(fingerprint := f)), canonical, cached)
            == if f.None? || f.value.schemaVersion != 1 then Blocked
               else if f.value.toolkit != ResolveToolkitFingerprint(d) then ToolkitChanged
               else if RecordFits(d, f.value) then RetroStatusOf(d, canonical, cached) else Blocked
  {
    SoundHasRecords(d, canonical, cached);
    if f.Some? && RecordFits(d, f.value) {
      DigestNotBlank(d.retro.executable.value.sha, f.value.executable);
      DigestNotBlank(d.game.dol.value, f.value.dol);
      DigestNotBlank(d.game.rel.value, f.value.rel);
      SameBlank(f.value.codePul, RetroRecord(d).codePul);
      SameBlank(f.value.compileInputs, RetroRecord(d).compileInputs);
      SameBlank(f.value.payloadSha, RetroRecord(d).payloadSha);
    }
  }

  /** The state document must also record the product's inputs, and some payload when one is embedded. */
  lemma RetroState(d: Disk, canonical: Option<CompileInputs>, cached: Option<bool>, s: Option<InstallState>)
    requires RetroSound(d, canonical, cached)
    ensures d.retro.fingerprint.Some?
    ensures var f := RetroRecord(d);
            RetroStatusOf(d.(state := s), canonical, cached)
            == if StateFits(d, s) && Same(s.value.codePul, f.codePul) && Same(s.value.compileInputs, f.compileInputs)
                  && (f.payloadMode == "downloaded" ==> !Blank(s.value.payloadSha) && s.value.payloadLength > 0)
               then RetroStatusOf(d, canonical, cached) else Blocked
  {
    SoundHasRecords(d, canonical, cached);
    if s.Some? && Same(s.value.codePul, RetroRecord(d).codePul) && Same(s.value.compileInputs, RetroRecord(d).compileInputs) {
      SameBlank(s.value.codePul, RetroRecord(d).codePul);
      SameBlank(s.value.compileInputs, RetroRecord(d).compileInputs);
    }
  }

  lemma RetroToolkit(d: Disk, canonical: Option<CompileInputs>, cached: Option<bool>, present: bool,
                     state: Option<ToolkitState>)
    requires RetroSound(d, canonical, cached)
    ensures d.toolkitState.Some?
    ensures RetroStatusOf(d.(hasToolkit := present, toolkitState := state), canonical, cached)
            == if !ToolkitKnown(present, state) then Blocked
               else if state.value.toolkit != d.toolkitState.value.toolkit then ToolkitChanged
               else RetroStatusOf(d, canonical, cached)
  {
    SoundHasRecords(d, canonical, cached);
  }

  /** Other compile inputs, in the order they are compared, and a folder that cannot be read. */
  lemma RetroInputs(d: Disk, canonical: Option<CompileInputs>, cached: Option<bool>, now: CompileInputs)
    requires RetroSound(d, canonical, cached)
    ensures d.retro.fingerprint.Some?
    ensures var f := RetroRecord(d);
            RetroStatusOf(d, Some(now), cached)
            == if !Same(now.codePul, f.codePul) then CodePulChanged
               else if !Same(now.compileInputs, f.compileInputs) then CompileInputsChanged
               else RetroStatusOf(d, canonical, cached)
    ensures RetroStatusOf(d, None, cached) == RetroStatusOf(d, canonical, cached)
    ensures CheckRetroCore(d, ResolveToolkitFingerprint(d), canonical, true, cached).InputsMissing?
  {
    SoundHasRecords(d, canonical, cached);
  }

  /** The cached payload matters to a product that embeds one: an observation is believed, and without one
      the cache itself decides. */
  lemma RetroCache(d: Disk, canonical: Option<CompileInputs>, cached: Option<bool>, cache: Option<Payload>,
                   observed: Option<bool>)
    requires RetroSound(d, canonical, cached)
    ensures d.retro.fingerprint.Some?
    ensures var f := RetroRecord(d);
            var matches := if observed.Some? then observed.value
                           else cache.Some? && Same(cache.value.sha, f.payloadSha) && cache.value.length == f.payloadLength;
            RetroStatusOf(d.(payloadCache := cache), canonical, observed)
            == if f.payloadMode == "downloaded" && !matches then PayloadChanged else Current
  {
    SoundHasRecords(d, canonical, cached);
  }

  lemma RetroRest(d: Disk, canonical: Option<CompileInputs>, cached: Option<bool>, d': Disk)
    requires RetroSound(d, canonical, cached)
    requires d'.root == d.root && d'.hasToolkit == d.hasToolkit && d'.toolkitState == d.toolkitState
    requires d'.state == d.state && d'.game == d.game && d'.retro == d.retro.(assets := d'.retro.assets)
    requires d'.payloadCache == d.payloadCache
    ensures RetroStatusOf(d', canonical, cached) == RetroStatusOf(d, canonical, cached)
  {
    SoundHasRecords(d, canonical, cached);
  }

  lemma RetroAssets(d: Disk, canonical: Option<CompileInputs>, cached: Option<bool>, assets: map<AssetFile, Digest>)
    requires CheckRetroRewind(d, ResolveToolkitFingerprint(d), canonical, false, cached).Current? && HasRetroProduct(d)
    ensures var d' := d.(retro := d.retro.(assets := assets));
            CheckRetroRewind(d', ResolveToolkitFingerprint(d'), canonical, false, cached)
            == if assets == d.retro.assets then Current else Broken
  {
    RetroRest(d, canonical, cached, d.(retro := d.retro.(assets := assets)));
  }

  /** A sound product and the state document record its compile inputs, and its payload if it has one; and
      a product with all its copies has every one of the three. */
  lemma {:induction false} SoundIsRecorded(d: Disk, canonical: Option<CompileInputs>, cached: Option<bool>)
    requires RetroSound(d, canonical, cached)
    ensures d.retro.fingerprint.Some? && d.state.Some?
    ensures var f, s := RetroRecord(d), d.state.value;
            && !Blank(f.codePul) && !Blank(f.compileInputs) && !Blank(s.codePul) && !Blank(s.compileInputs)
            && (f.payloadMode == "downloaded" ==>
                  !Blank(f.payloadSha) && f.payloadLength > 0 && !Blank(s.payloadSha) && s.payloadLength > 0)
    ensures CheckRetroRewind(d, ResolveToolkitFingerprint(d), canonical, false, cached).Current? ==>
              d.retro.assets.Keys >= {Bootstrap, Coefficients, PipelineCache}
    ensures CheckBase(d, ResolveToolkitFingerprint(d)).Current? ==> d.base.assets.Keys >= {Bootstrap, Coefficients, PipelineCache}
  {
    SoundHasRecords(d, canonical, cached);
  }

  lemma AnyObservation(d: Disk, canonical: Option<CompileInputs>, cached: Option<bool>, observed: Option<bool>)
    requires RetroSound(d, canonical, cached)
    ensures RetroSound(d, canonical, observed)
  {
    RetroCache(d, canonical, cached, d.payloadCache, observed);
    assert d.(payloadCache := d.payloadCache) == d;
  }

  /** Whatever is wrong with it but a stale cache, the next Retro Rewind plan rebuilds it. */
  lemma RetroIsRepaired(d: Disk, q: Request)
    requires q.snapshot.Some? && !RetroSound(d, q.snapshot, None)
    ensures FirstPlan(d, q).rebuildRetro
  {
    var cached := CacheObservation(d, StagedPayload(d, q));
    if RetroSound(d, q.snapshot, cached) {
      AnyObservation(d, q.snapshot, cached, None);
    }
  }

  /** The product and the state document both name this payload. */
  predicate Embeds(d: Disk, p: Payload)
    requires d.retro.fingerprint.Some? && d.state.Some?
  {
    var f, s := RetroRecord(d), d.state.value;
    f.payloadMode == "downloaded" && f.payloadSha == p.sha && s.payloadMode == "downloaded" && s.payloadSha == p.sha
  }

  /** A sound product is rebuilt only for other game data, another payload or another payload mode; an
      online operation copies the payload exactly when it rebuilds or the cache is not the staged one. */
  lemma SoundRetroIsKept(d: Disk, q: Request)
    requires q.snapshot.Some? && RetroSound(d, q.snapshot, None)
    ensures d.retro.fingerprint.Some? && d.state.Some?
    ensures var f, staged := RetroRecord(d), StagedPayload(d, q);
            var mode := if f.payloadMode == "" then d.state.value.payloadMode else f.payloadMode;
            FirstPlan(d, q).rebuildRetro <==>
              || (!Blank(q.expectedDol) && !Blank(q.expectedRel) && !NamesGame(q.expectedDol, q.expectedRel, d.game))
              || (staged.Some? && !Embeds(d, staged.value))
              || (mode == "downloaded" && !q.mode.Online?) || (mode == "skipped" && !q.mode.Skipped?)
    ensures FirstPlan(d, q).syncPayload <==>
              q.mode.Online? && (FirstPlan(d, q).rebuildRetro || d.payloadCache != StagedPayload(d, q))
  {
    SoundHasRecords(d, q.snapshot, None);
    AnyObservation(d, q.snapshot, None, CacheObservation(d, StagedPayload(d, q)));
    var f := RetroRecord(d);
    assert UsesGameInputs(d.retro, q.expectedDol, q.expectedRel) <==> NamesGame(q.expectedDol, q.expectedRel, d.game);
  }
}
