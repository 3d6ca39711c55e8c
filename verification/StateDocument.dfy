/** What the published install-state.json says, judged by the installation it is published with. */
module StateDocument {
  import opened Installation
  import opened ProductRepair
  import opened RepairConvergence
  import opened Wrappers

  /** The reconciliation had something to do and published a state document. */
  predicate Recorded(d: Disk, q: Request) {
    HasWork(FirstPlan(d, q)) && WritesState(FirstPlan(d, q), q)
  }

  /** The document is this installation's, says of Retro Rewind what is there, and of the payload what the
      product itself records. */
  predicate Faithful(d: Disk) {
    && d.state.Some? && ReadCurrentInstallState(d) == d.state && d.state.value.installDir == d.root
    && (d.state.value.retroRewindInstalled <==> HasRetroProduct(d))
    && (PayloadNamed(d.retro) ==> SamePayload(d.state.value, ReadFingerprint(d.retro).value))
  }

  predicate PayloadNamed(p: Product) {
    ReadFingerprint(p).Some? && !Blank(ReadFingerprint(p).value.payloadMode)
  }

  predicate SamePayload(s: InstallState, f: ProductFingerprint) {
    s.payloadMode == f.payloadMode && s.payloadSha == f.payloadSha && s.payloadLength == f.payloadLength
  }

  const NOTHING_RECORDED := InstallState(0, "", false, "", "", "", "", "", "", 0, "")

  lemma RetroIsThere(d: Disk, q: Request, built: Option<Built>, d': Disk)
    requires ReconciledTo(d, q, built, d')
    ensures q.snapshot.Some? ==> HasRetroProduct(d')
    ensures q.snapshot.None? ==> (HasRetroProduct(d') <==> HasRetroProduct(d))
  {
    Reconciliation(d, q, built, d');
    var plan := FirstPlan(d, q);
    if q.snapshot.Some? && !plan.rebuildRetro && !HasRetroProduct(d) {
      TrustedVerdict(d, ResolveToolkitFingerprint(d), q.snapshot, CacheObservation(d, StagedPayload(d, q)));
    }
  }

  /** Whatever the old document said, the new one is true of the installation it is published with, and
      names the game data that is there. */
  lemma StateIsFaithful(d: Disk, q: Request, built: Option<Built>, d': Disk)
    requires ReconciledTo(d, q, built, d') && Recorded(d, q)
    ensures Faithful(d') && StateRecordsGame(d')
  {
    Reconciliation(d, q, built, d');
    RetroIsThere(d, q, built, d');
  }

  /** A Retro Rewind operation records its inputs and its folder; a base-only one keeps those of the old
      document, and its payload too unless the product says otherwise. Supplied game hashes replace the
      recorded ones. */
  lemma StateRecordsRequest(d: Disk, q: Request, built: Option<Built>, d': Disk)
    requires ReconciledTo(d, q, built, d') && Recorded(d, q) && d'.state.Some?
    ensures var now, was := d'.state.value, if d.state.Some? then d.state.value else NOTHING_RECORDED;
            && (q.snapshot.Some? ==>
                  now.codePul == q.snapshot.value.codePul && now.compileInputs == q.snapshot.value.compileInputs
                  && q.canonicalRoot == Some(now.retroRewindRoot))
            && (!Blank(q.expectedDol) ==> now.dol == q.expectedDol && now.rel == q.expectedRel)
            && (q.snapshot.None? ==>
                  && now.codePul == was.codePul && now.compileInputs == was.compileInputs
                  && now.retroRewindRoot == was.retroRewindRoot
                  && (!PayloadNamed(d'.retro) ==>
                        now.payloadMode == was.payloadMode && now.payloadSha == was.payloadSha
                        && now.payloadLength == was.payloadLength))
            && (Blank(q.expectedDol) ==> now.dol == was.dol && now.rel == was.rel)
            && d'.configuredRoot == (if q.snapshot.Some? then q.canonicalRoot else d.configuredRoot)
  {
    Reconciliation(d, q, built, d');
  }

  /** So a product whose executable disappears later is missed, whatever it is inspected against, and one
      that was never there is not. */
  lemma LostProductIsMissed(d: Disk, q: Request, built: Option<Built>, d': Disk, canonical: Option<CompileInputs>,
                            cached: Option<bool>)
    requires ReconciledTo(d, q, built, d') && Recorded(d, q)
    ensures var lost := d'.(retro := d'.retro.(executable := None));
            CheckRetroCore(lost, ResolveToolkitFingerprint(lost), canonical, false, cached)
            == if HasRetroProduct(d') then Broken else Absent
    ensures q.snapshot.Some? ==> HasRetroProduct(d')
  {
    Reconciliation(d, q, built, d');
    StateIsFaithful(d, q, built, d');
    RetroIsThere(d, q, built, d');
  }
}
