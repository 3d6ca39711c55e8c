/** What a reconciliation asks of the toolkit, the game data and the build before it publishes anything,
    stated on the disk and on the build's own records. */
module CompileGuards {
  import opened Installation
  import opened ProductDamage
  import opened ProductRepair
  import opened RepairConvergence
  import opened Wrappers

  predicate Compiles(d: Disk, q: Request) {
    FirstPlan(d, q).rebuildBase || FirstPlan(d, q).rebuildRetro
  }

  /** The toolkit on disk still hashes to the one its state names. */
  predicate ToolkitIntact(d: Disk) {
    d.toolkitState.Some? && d.toolkitState.value.schemaVersion == 2 && d.toolkitState.value.toolkit == d.compiledToolkit
  }

  /** The game files are those asked for or, without any, those on record. */
  predicate GameIsRight(d: Disk, q: Request) {
    if !Blank(q.expectedDol) || !Blank(q.expectedRel) then NamesGame(q.expectedDol, q.expectedRel, d.game)
    else d.state.Some? && d.state.value.schemaVersion == 1 && NamesGame(d.state.value.dol, d.state.value.rel, d.game)
  }

  predicate GameIsKnown(d: Disk, q: Request) {
    !Blank(q.expectedDol)
    || (d.state.Some? && d.state.value.schemaVersion == 1 && !Blank(d.state.value.dol) && !Blank(d.state.value.rel))
  }

  predicate BuildLooksComplete(p: Product) {
    p.executable.Some? && p.executable.value.length >= 65536 && !p.localBuild.Missing?
  }

  /** The build's record names the game files, the Code.pul and the payload it was asked to use. */
  predicate BuiltAsAsked(d: Disk, p: Product, inputs: CompileInputs, payload: Option<Payload>) {
    && p.localBuild.Readable?
    && var l := p.localBuild.value;
    && l.schemaVersion == 1 && NamesGame(l.dol, l.rel, d.game) && l.codePul.Some? && Same(l.codePul.value, inputs.codePul)
    && (match payload
        case Some(x) =>
          l.payloadMode == Some("downloaded") && l.payloadSha.Some? && Same(l.payloadSha.value, x.sha)
          && l.payloadLength == Some(x.length)
        case None => l.payloadMode == Some("skipped") && l.payloadSha.None? && l.payloadLength.GetOr(0) == 0)
  }

  predicate BuildIsRight(d: Disk, q: Request, built: Option<Built>) {
    && built.Some?
    && (FirstPlan(d, q).rebuildBase ==> BuildLooksComplete(built.value.base))
    && (FirstPlan(d, q).rebuildRetro ==>
          q.snapshot.Some? && BuildLooksComplete(built.value.retro)
          && BuiltAsAsked(d, built.value.retro, q.snapshot.value, StagedPayload(d, q)))
  }

  predicate CopiesAreRight(d: Disk) {
    && d.toolkitState.Some? && d.toolkitState.value.runtimeAssets == Some(d.workspaceAssets)
    && d.workspaceAssets.Keys >= {Bootstrap, Coefficients, PipelineCache}
  }

  lemma {:induction false} RightGame(d: Disk, q: Request)
    requires Accepted(d, ResolveToolkitFingerprint(d), q, StagedPayload(d, q))
    ensures var (dol, rel) := AuthoritativeHashes(d, q);
            GameIsRight(d, q) <==> !Blank(dol) && !Blank(rel) && Refreshable(d, dol, rel)
  {
    var (dol, rel) := AuthoritativeHashes(d, q);
    if d.game.dol.Some? && Same(d.game.dol.value, dol) {
      DigestNotBlank(d.game.dol.value, dol);
    }
    if d.game.rel.Some? && Same(d.game.rel.value, rel) {
      DigestNotBlank(d.game.rel.value, rel);
    }
  }

  lemma {:induction false} RightBuild(d: Disk, q: Request, p: Product, dol: Digest, rel: Digest)
    requires q.snapshot.Some? && OnlineIsStaged(q, StagedPayload(d, q))
    requires d.game.dol.Some? && d.game.rel.Some? && Same(d.game.dol.value, dol) && Same(d.game.rel.value, rel)
    ensures ConsumedSelection(p, dol, rel, q.snapshot.value, q.mode, StagedPayload(d, q))
            <==> BuiltAsAsked(d, p, q.snapshot.value, StagedPayload(d, q))
  {}

  /** What compiling comes to: the error of the first guard that fails, in this order, or the outputs. */
  lemma {:induction false} CompileGuarded(d: Disk, q: Request, built: Option<Built>)
    requires Accepted(d, ResolveToolkitFingerprint(d), q, StagedPayload(d, q))
    ensures var r := Produced(d, ResolveToolkitFingerprint(d), q, StagedPayload(d, q), FirstPlan(d, q), built);
            if !Compiles(d, q) then r == Ok((d, Outputs(None, None)))
            else if !ToolkitIntact(d) then r == Err(ToolkitModified)
            else if !GameIsRight(d, q) then r == Err(if GameIsKnown(d, q) then GameInputsMismatch else GameInputsUnknown)
            else r.Ok? <==> BuildIsRight(d, q, built)
  {
    var (dol, rel) := AuthoritativeHashes(d, q);
    RightGame(d, q);
    if Compiles(d, q) && ToolkitIntact(d) && GameIsRight(d, q) {
      var wDol := RefreshedCopy(d.workspaceDol, d.game.dol.value, dol);
      var wRel := RefreshedCopy(d.workspaceRel, d.game.rel.value, rel);
      if FirstPlan(d, q).rebuildRetro && built.Some? {
        PlanHasItsInputs(d, q, built);
        RightBuild(d, q, built.value.retro, wDol, wRel);
      }
    }
  }

  /** A reconciliation with work succeeds exactly when the toolkit is intact, the game files are the right
      ones and the build is complete and used what it was asked to use - if it compiles - and the
      workspace's copies are the toolkit's - if it copies any. */
  lemma {:induction false} ReconcileSucceeds(d: Disk, q: Request, built: Option<Built>)
    requires (q.snapshot.None? ==> q.mode.NotApplicable?) && Preflight(d, q).None? && HasWork(FirstPlan(d, q))
    ensures Reconciled(d, q, built).Ok? <==>
            && (Compiles(d, q) ==> ToolkitIntact(d) && GameIsRight(d, q) && BuildIsRight(d, q, built))
            && (FirstPlan(d, q).syncBaseAssets || FirstPlan(d, q).syncRetroAssets ==> CopiesAreRight(d))
  {
    PreflightAccepts(d, q);
    PlanHasItsInputs(d, q, built);
    CompileGuarded(d, q, built);
  }
}
