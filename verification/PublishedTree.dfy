/** The installation as inspection reads it from the file system, and what a settled transaction of a
    repair's entries leaves for it to read. */
module PublishedTree {
  import opened ConfigFile
  import opened FileTree
  import opened Installation
  import opened PortablePaths
  import opened ProductRepair
  import opened PublishedEntries
  import opened Wrappers
  import InstallTransaction
  import TransactionPlan

  type Bytes = TransactionPlan.Bytes

  const FINGERPRINT_NAME := "build-fingerprint.json"
  const LOCAL_BUILD_NAME := "local-build.json"
  const RETRO_ROOT_KEY := "retro_rewind_root"

  // ---- Reading ----------------------------------------------------------------------------------------

  /** How a file or directory tree is read: parsing and hashing are arbitrary functions of it. */
  datatype Reader = Reader(
    executable: Fs -> Option<Executable>, fingerprint: Fs -> Option<ProductFingerprint>,
    localBuild: Fs -> Document<LocalBuild>, asset: Fs -> Option<Digest>, payload: Fs -> Option<Payload>,
    state: Fs -> Option<InstallState>, decode: Bytes -> string, encode: string -> Bytes)

  /** Text that is written decodes to itself. */
  ghost predicate TextSurvives(r: Reader) {
    forall text :: r.decode(r.encode(text)) == text
  }

  /** Where the installation and its Config.toml lie. */
  datatype Site = Site(root: Path, configDirectory: Path, portable: Option<Path>)

  function ProductName(base: bool): string {
    if base then "Base" else "RetroRewind"
  }

  function ProductSlot(base: bool): Slot {
    if base then BaseProduct else RetroProduct
  }

  function ExecutableName(base: bool): string {
    if base then "WiiCompiled.exe" else "RetroRewind.exe"
  }

  const ASSET_FILES := {Bootstrap, Coefficients, PipelineCache}

  /** The tree of one file or directory in a product's directory. */
  function PartTree(fs: Fs, at: Path, name: string): Fs {
    Tree(fs, at + [name])
  }

  function ReadAsset(r: Reader, fs: Fs, at: Path, a: AssetFile): Option<Digest> {
    r.asset(PartTree(fs, at, AssetName(a)))
  }

  function ReadAssets(r: Reader, fs: Fs, at: Path): map<AssetFile, Digest> {
    map a | a in ASSET_FILES && ReadAsset(r, fs, at, a).Some? :: ReadAsset(r, fs, at, a).value
  }

  function ReadProduct(r: Reader, fs: Fs, at: Path, base: bool): Product {
    Product(
      r.executable(PartTree(fs, at, ExecutableName(base))), r.fingerprint(PartTree(fs, at, FINGERPRINT_NAME)),
      r.localBuild(PartTree(fs, at, LOCAL_BUILD_NAME)), ReadAssets(r, fs, at))
  }

  function ConfigText(r: Reader, config: Option<Bytes>): Option<string> {
    if config.Some? then Some(r.decode(config.value)) else None
  }

  function ReadConfiguredRoot(r: Reader, site: Site, config: Option<Bytes>): Option<string>
    requires site.configDirectory != []
  {
    var p := GetResolvedPath(site.configDirectory, ConfigText(r, config), RETRO_ROOT_KEY);
    if p.Some? then Some(FullText(p.value)) else None
  }

  /** The installation: its published parts from the tree and Config.toml, the others from `rest`. */
  function ReadDisk(r: Reader, site: Site, rest: Disk, fs: Fs, config: Option<Bytes>): Disk
    requires site.configDirectory != []
  {
    rest.(base := ReadProduct(r, fs, site.root + [ProductName(true)], true),
          retro := ReadProduct(r, fs, site.root + [ProductName(false)], false),
          payloadCache := r.payload(Tree(fs, Destination(site.root, PayloadCache))),
          state := r.state(Tree(fs, Destination(site.root, InstallStateFile))),
          configuredRoot := ReadConfiguredRoot(r, site, config))
  }

  /** The prepared tree of an entry holds what the entry is said to publish. */
  ghost predicate Holds(r: Reader, fs: Fs, e: Entry) {
    match e.slot
    case BaseProduct => e.content == ProductContent(ReadProduct(r, fs, e.prepared, true))
    case RetroProduct => e.content == ProductContent(ReadProduct(r, fs, e.prepared, false))
    case BaseAsset(_) => e.content.AssetContent? && r.asset(Tree(fs, e.prepared)) == Some(e.content.digest)
    case RetroAsset(_) => e.content.AssetContent? && r.asset(Tree(fs, e.prepared)) == Some(e.content.digest)
    case PayloadCache => e.content == CacheContent(r.payload(Tree(fs, e.prepared)))
    case InstallStateFile => e.content.StateContent? && r.state(Tree(fs, e.prepared)) == Some(e.content.state)
  }

  ghost predicate AllHold(r: Reader, fs: Fs, entries: seq<Entry>) {
    forall e | e in entries :: Holds(r, fs, e)
  }

  // ---- Parts and entries ------------------------------------------------------------------------------

  /** One separately read part of the published installation. */
  datatype Part = InProduct(base: bool, name: string) | CachePart | StatePart

  function PartPath(root: Path, p: Part): Path {
    match p
    case InProduct(base, name) => root + [ProductName(base), name]
    case CachePart => Destination(root, PayloadCache)
    case StatePart => Destination(root, InstallStateFile)
  }

  /** The slot a part lies in. */
  predicate InSlot(p: Part, s: Slot) {
    match s
    case BaseProduct => p.InProduct? && p.base
    case RetroProduct => p.InProduct? && !p.base
    case BaseAsset(a) => p == InProduct(true, AssetName(a))
    case RetroAsset(a) => p == InProduct(false, AssetName(a))
    case PayloadCache => p.CachePart?
    case InstallStateFile => p.StatePart?
  }

  /** A destination holds a part or has nothing to do with it. */
  lemma PartMeetsSlot(root: Path, p: Part, s: Slot)
    ensures if InSlot(p, s) then Destination(root, s) <= PartPath(root, p)
            else !PathsOverlap(Destination(root, s), PartPath(root, p))
  {
    var d, q := Destination(root, s), PartPath(root, p);
    if !InSlot(p, s) {
      assert d[|root|] != q[|root|] || (|d| == |q| == |root| + 2 && d[|root| + 1] != q[|root| + 1]);
    }
  }

  /** A scratch or work path beside every slot is beside every part. */
  lemma PartApart(root: Path, p: Part, apart: Path, inside: Path)
    requires ScratchApart(root, apart) && apart <= inside
    ensures !PathsOverlap(inside, PartPath(root, p))
  {
    var s := match p case InProduct(base, _) => ProductSlot(base) case CachePart => PayloadCache case StatePart => InstallStateFile;
    PartMeetsSlot(root, p, s);
    assert !PathsOverlap(apart, Destination(root, s));
  }

  /** A directory beside the installation root is beside every slot. */
  lemma SiblingApart(fs: Fs, root: Path, workRoot: Path)
    requires TransactionPlan.FreshWorkRoot(fs, root, workRoot)
    ensures ScratchApart(root, workRoot)
  {
    assert root == Parent(root) + [root[|root| - 1]];
    assert workRoot == Parent(root) + [workRoot[|root| - 1]];
    forall s: Slot ensures !PathsOverlap(workRoot, Destination(root, s)) {
      assert Destination(root, s)[|root| - 1] == root[|root| - 1];
    }
  }

  ghost predicate EntriesInScratch(scratch: Path, entries: seq<Entry>) {
    forall i | 0 <= i < |entries| :: scratch <= entries[i].prepared
  }

  /** A part in no entry's slot is beside the whole transaction. */
  lemma PartBeside(root: Path, workRoot: Path, scratch: Path, entries: seq<Entry>, p: Part)
    requires ScratchApart(root, workRoot) && ScratchApart(root, scratch) && EntriesInScratch(scratch, entries)
    requires forall i | 0 <= i < |entries| :: !InSlot(p, entries[i].slot)
    ensures InstallTransaction.Beside(workRoot, Requests(root, entries), PartPath(root, p))
  {
    PartApart(root, p, workRoot, workRoot);
    forall i | 0 <= i < |entries|
      ensures !PathsOverlap(entries[i].prepared, PartPath(root, p))
      ensures !PathsOverlap(Destination(root, entries[i].slot), PartPath(root, p))
    {
      PartApart(root, p, scratch, entries[i].prepared);
      PartMeetsSlot(root, p, entries[i].slot);
    }
  }

  /** What a settled transaction guarantees: its destinations hold the prepared trees, or what they held,
      and everything beside it is as it was. */
  ghost predicate Settled(was: Fs, now: Fs, root: Path, workRoot: Path, entries: seq<Entry>, committed: bool) {
    && (forall i | 0 <= i < |entries| ::
          Tree(now, Destination(root, entries[i].slot))
          == Tree(was, if committed then entries[i].prepared else Destination(root, entries[i].slot)))
    && (forall p {:trigger Tree(now, p)} | InstallTransaction.Beside(workRoot, Requests(root, entries), p) ::
          Tree(now, p) == Tree(was, p))
  }

  /** The parts of one transaction: where everything lies. */
  ghost predicate Placed(root: Path, workRoot: Path, scratch: Path, entries: seq<Entry>) {
    ScratchApart(root, workRoot) && ScratchApart(root, scratch) && EntriesInScratch(scratch, entries)
  }

  lemma PartKept(was: Fs, now: Fs, root: Path, workRoot: Path, scratch: Path, entries: seq<Entry>, committed: bool,
                 p: Part)
    requires Placed(root, workRoot, scratch, entries) && Settled(was, now, root, workRoot, entries, committed)
    requires committed ==> forall i | 0 <= i < |entries| :: !InSlot(p, entries[i].slot)
    ensures Tree(now, PartPath(root, p)) == Tree(was, PartPath(root, p))
  {
    if i :| 0 <= i < |entries| && InSlot(p, entries[i].slot) {
      PartMeetsSlot(root, p, entries[i].slot);
      var d, q := Destination(root, entries[i].slot), PartPath(root, p);
      TreesEqualBelow(now, d, was, d, q[|d|..]);
      assert d + q[|d|..] == q;
    } else {
      PartBeside(root, workRoot, scratch, entries, p);
    }
  }

  // ---- Reading a settled transaction ----------------------------------------------------------------------

  ghost predicate SameParts(fs: Fs, at: Path, fs': Fs, at': Path) {
    forall name: string {:trigger PartTree(fs', at', name)} :: PartTree(fs', at', name) == PartTree(fs, at, name)
  }

  lemma SameProduct(r: Reader, fs: Fs, at: Path, fs': Fs, at': Path, base: bool)
    requires SameParts(fs, at, fs', at')
    ensures ReadProduct(r, fs', at', base) == ReadProduct(r, fs, at, base)
  {
    forall a: AssetFile ensures ReadAsset(r, fs', at', a) == ReadAsset(r, fs, at, a) {
      assert PartTree(fs', at', AssetName(a)) == PartTree(fs, at, AssetName(a));
    }
    assert ReadAssets(r, fs', at') == ReadAssets(r, fs, at);
  }

  lemma PartOf(root: Path, base: bool, name: string)
    ensures forall fs: Fs :: PartTree(fs, root + [ProductName(base)], name) == Tree(fs, PartPath(root, InProduct(base, name)))
  {
    assert root + [ProductName(base)] + [name] == PartPath(root, InProduct(base, name));
  }

  lemma ProductKept(r: Reader, was: Fs, now: Fs, root: Path, workRoot: Path, scratch: Path, entries: seq<Entry>,
                    committed: bool, base: bool)
    requires Placed(root, workRoot, scratch, entries) && Settled(was, now, root, workRoot, entries, committed)
    requires committed ==> forall i, name | 0 <= i < |entries| :: !InSlot(InProduct(base, name), entries[i].slot)
    ensures ReadProduct(r, now, root + [ProductName(base)], base) == ReadProduct(r, was, root + [ProductName(base)], base)
  {
    var at := root + [ProductName(base)];
    forall name: string ensures PartTree(now, at, name) == PartTree(was, at, name) {
      PartOf(root, base, name);
      PartKept(was, now, root, workRoot, scratch, entries, committed, InProduct(base, name));
    }
    SameProduct(r, was, at, now, at, base);
  }

  /** A published product is read as the prepared one. */
  lemma ProductReplaced(r: Reader, was: Fs, now: Fs, root: Path, workRoot: Path, entries: seq<Entry>, e: Entry, base: bool)
    requires Settled(was, now, root, workRoot, entries, true)
    requires e in entries && e.slot == ProductSlot(base) && Holds(r, was, e)
    ensures ProductContent(ReadProduct(r, now, root + [ProductName(base)], base)) == e.content
  {
    var at := root + [ProductName(base)];
    assert Destination(root, e.slot) == at;
    forall name: string ensures PartTree(now, at, name) == PartTree(was, e.prepared, name) {
      TreesEqualBelow(now, at, was, e.prepared, [name]);
    }
    SameProduct(r, was, e.prepared, now, at, base);
  }

  /** A product whose assets alone are published keeps everything else. */
  lemma AssetsPublished(r: Reader, was: Fs, now: Fs, root: Path, workRoot: Path, scratch: Path, entries: seq<Entry>,
                        assets: map<AssetFile, Digest>, base: bool)
    requires Placed(root, workRoot, scratch, entries) && Settled(was, now, root, workRoot, entries, true)
    requires AllHold(r, was, entries) && Complete(assets)
    requires forall i | 0 <= i < |entries| :: entries[i].slot != ProductSlot(base)
    requires forall e | e in AssetEntries(assets, scratch, base) :: e in entries
    ensures ReadProduct(r, now, root + [ProductName(base)], base)
            == ReadProduct(r, was, root + [ProductName(base)], base).(assets := assets)
  {
    var at := root + [ProductName(base)];
    NoAssetNames(base);
    FileKept(was, now, root, workRoot, scratch, entries, base, ExecutableName(base));
    FileKept(was, now, root, workRoot, scratch, entries, base, FINGERPRINT_NAME);
    FileKept(was, now, root, workRoot, scratch, entries, base, LOCAL_BUILD_NAME);
    forall a: AssetFile ensures a in assets && ReadAsset(r, now, at, a) == Some(assets[a]) {
      AssetPublished(r, was, now, root, workRoot, scratch, entries, assets, base, a);
    }
    OnlyAssetsDiffer(r, was, now, at, assets, base);
  }

  /** Names of different lengths. */
  lemma NoAssetNames(base: bool)
    ensures forall a :: AssetName(a) != ExecutableName(base) && AssetName(a) != FINGERPRINT_NAME && AssetName(a) != LOCAL_BUILD_NAME
  {
    forall a ensures |AssetName(a)| < 14 || |AssetName(a)| > 22 {}
  }

  lemma FileKept(was: Fs, now: Fs, root: Path, workRoot: Path, scratch: Path, entries: seq<Entry>, base: bool, name: string)
    requires Placed(root, workRoot, scratch, entries) && Settled(was, now, root, workRoot, entries, true)
    requires forall i | 0 <= i < |entries| :: entries[i].slot != ProductSlot(base)
    requires forall a :: AssetName(a) != name
    ensures PartTree(now, root + [ProductName(base)], name) == PartTree(was, root + [ProductName(base)], name)
  {
    PartOf(root, base, name);
    FileInNoSlot(entries, base, name);
    PartKept(was, now, root, workRoot, scratch, entries, true, InProduct(base, name));
  }

  lemma FileInNoSlot(entries: seq<Entry>, base: bool, name: string)
    requires forall i | 0 <= i < |entries| :: entries[i].slot != ProductSlot(base)
    requires forall a :: AssetName(a) != name
    ensures forall i | 0 <= i < |entries| :: !InSlot(InProduct(base, name), entries[i].slot)
  {
    forall i | 0 <= i < |entries| ensures !InSlot(InProduct(base, name), entries[i].slot) {
      match entries[i].slot {
        case BaseAsset(a) => assert AssetName(a) != name;
        case RetroAsset(a) => assert AssetName(a) != name;
        case _ =>
      }
    }
  }

  lemma AssetsAre(r: Reader, fs: Fs, at: Path, assets: map<AssetFile, Digest>)
    requires forall a: AssetFile :: a in assets && ReadAsset(r, fs, at, a) == Some(assets[a])
    ensures ReadAssets(r, fs, at) == assets
  {
    var read := ReadAssets(r, fs, at);
    forall a: AssetFile ensures a in read && read[a] == assets[a] {
      assert a.Bootstrap? || a.Coefficients? || a.PipelineCache?;
      assert ReadAsset(r, fs, at, a) == Some(assets[a]);
    }
    assert read.Keys == assets.Keys;
  }

  lemma OnlyAssetsDiffer(r: Reader, was: Fs, now: Fs, at: Path, assets: map<AssetFile, Digest>, base: bool)
    requires PartTree(now, at, ExecutableName(base)) == PartTree(was, at, ExecutableName(base))
    requires PartTree(now, at, FINGERPRINT_NAME) == PartTree(was, at, FINGERPRINT_NAME)
    requires PartTree(now, at, LOCAL_BUILD_NAME) == PartTree(was, at, LOCAL_BUILD_NAME)
    requires forall a: AssetFile :: a in assets && ReadAsset(r, now, at, a) == Some(assets[a])
    ensures ReadProduct(r, now, at, base) == ReadProduct(r, was, at, base).(assets := assets)
  {
    AssetsAre(r, now, at, assets);
  }

  lemma AssetPublished(r: Reader, was: Fs, now: Fs, root: Path, workRoot: Path, scratch: Path, entries: seq<Entry>,
                       assets: map<AssetFile, Digest>, base: bool, a: AssetFile)
    requires Settled(was, now, root, workRoot, entries, true) && AllHold(r, was, entries) && Complete(assets)
    requires forall e | e in AssetEntries(assets, scratch, base) :: e in entries
    ensures a in assets && ReadAsset(r, now, root + [ProductName(base)], a) == Some(assets[a])
  {
    var e := AssetEntries(assets, scratch, base)[AssetRank(a)];
    assert e in AssetEntries(assets, scratch, base) && Holds(r, was, e);
    assert Destination(root, e.slot) == root + [ProductName(base)] + [AssetName(a)];
  }

  // ---- The planned entries ------------------------------------------------------------------------------------

  lemma OrderedInScratch(e: seq<Entry>, low: nat, high: nat, scratch: Scratch, plan: Plan, q: Request)
    requires InOrder(e, low, high, scratch, plan, q)
    ensures EntriesInScratch(scratch.root, e)
  {
    forall i | 0 <= i < |e| ensures scratch.root <= e[i].prepared {
      assert Shaped(e[i], scratch, plan, q);
    }
  }

  lemma PlannedInScratch(d: Disk, q: Request, staged: Option<Payload>, plan: Plan, out: Outputs, scratch: Scratch)
    requires Publishable(d, plan, q, out)
    ensures EntriesInScratch(scratch.root, PlannedEntries(d, q, staged, plan, out, scratch))
  {
    PlanInOrder(d, q, staged, plan, out, scratch);
    OrderedInScratch(PlannedEntries(d, q, staged, plan, out, scratch), 0, 10, scratch, plan, q);
  }

  lemma SameDisk(r: Reader, site: Site, rest: Disk, was: Fs, now: Fs, config: Option<Bytes>)
    requires site.configDirectory != []
    requires forall base :: ReadProduct(r, now, site.root + [ProductName(base)], base)
                            == ReadProduct(r, was, site.root + [ProductName(base)], base)
    requires forall p | p in [CachePart, StatePart] :: Tree(now, PartPath(site.root, p)) == Tree(was, PartPath(site.root, p))
    ensures ReadDisk(r, site, rest, now, config) == ReadDisk(r, site, rest, was, config)
  {
    assert Tree(now, PartPath(site.root, CachePart)) == Tree(was, PartPath(site.root, CachePart));
    assert Tree(now, PartPath(site.root, StatePart)) == Tree(was, PartPath(site.root, StatePart));
  }

  /** A rolled back transaction reads as before. */
  lemma UndoneReads(r: Reader, site: Site, rest: Disk, was: Fs, now: Fs, config: Option<Bytes>, workRoot: Path,
                    scratch: Path, entries: seq<Entry>)
    requires site.configDirectory != [] && Placed(site.root, workRoot, scratch, entries)
    requires Settled(was, now, site.root, workRoot, entries, false)
    ensures ReadDisk(r, site, rest, now, config) == ReadDisk(r, site, rest, was, config)
  {
    forall base ensures ReadProduct(r, now, site.root + [ProductName(base)], base)
                        == ReadProduct(r, was, site.root + [ProductName(base)], base) {
      ProductKept(r, was, now, site.root, workRoot, scratch, entries, false, base);
    }
    forall p | p in [CachePart, StatePart] ensures Tree(now, PartPath(site.root, p)) == Tree(was, PartPath(site.root, p)) {
      PartKept(was, now, site.root, workRoot, scratch, entries, false, p);
    }
    SameDisk(r, site, rest, was, now, config);
  }

  lemma ProductPublished(r: Reader, was: Fs, now: Fs, root: Path, workRoot: Path, d: Disk, q: Request,
                         staged: Option<Payload>, plan: Plan, out: Outputs, scratch: Scratch, base: bool)
    requires Publishable(d, plan, q, out)
    requires var entries := PlannedEntries(d, q, staged, plan, out, scratch);
             && Placed(root, workRoot, scratch.root, entries) && AllHold(r, was, entries)
             && Settled(was, now, root, workRoot, entries, true)
    ensures ReadProduct(r, now, root + [ProductName(base)], base)
            == var before := ReadProduct(r, was, root + [ProductName(base)], base);
               var built := if base then out.base else out.retro;
               if built.Some? then built.value
               else if (if base then plan.syncBaseAssets else plan.syncRetroAssets) then before.(assets := d.workspaceAssets)
               else before
  {
    var entries := PlannedEntries(d, q, staged, plan, out, scratch);
    PlanInOrder(d, q, staged, plan, out, scratch);
    var built := if base then out.base else out.retro;
    if built.Some? {
      var e := Entry(scratch.root + [if base then "base-output" else "retro-output"], ProductSlot(base), ProductContent(built.value));
      assert e in ProductEntries(out, scratch);
      assert e in entries;
      ProductReplaced(r, was, now, root, workRoot, entries, e, base);
    } else if if base then plan.syncBaseAssets else plan.syncRetroAssets {
      assert forall e | e in AssetEntries(d.workspaceAssets, scratch.root, base) :: e in CopiedEntries(d, plan, scratch);
      AssetsPublished(r, was, now, root, workRoot, scratch.root, entries, d.workspaceAssets, base);
    } else {
      ProductKept(r, was, now, root, workRoot, scratch.root, entries, true, base);
    }
  }

  lemma CachePublished(r: Reader, was: Fs, now: Fs, root: Path, workRoot: Path, d: Disk, q: Request,
                       staged: Option<Payload>, plan: Plan, out: Outputs, scratch: Scratch)
    requires Publishable(d, plan, q, out)
    requires var entries := PlannedEntries(d, q, staged, plan, out, scratch);
             && Placed(root, workRoot, scratch.root, entries) && AllHold(r, was, entries)
             && Settled(was, now, root, workRoot, entries, true)
    ensures r.payload(Tree(now, Destination(root, PayloadCache)))
            == if plan.rebuildRetro && q.mode.Skipped? then None
               else if plan.syncPayload then staged else r.payload(Tree(was, Destination(root, PayloadCache)))
  {
    var entries := PlannedEntries(d, q, staged, plan, out, scratch);
    PlanInOrder(d, q, staged, plan, out, scratch);
    var list := CacheEntries(q, staged, plan, scratch);
    if list == [] {
      forall i | 0 <= i < |entries| ensures !entries[i].slot.PayloadCache? {
        NoCacheEntry(d, q, staged, plan, out, scratch, i);
      }
      PartKept(was, now, root, workRoot, scratch.root, entries, true, CachePart);
    } else {
      assert list[0] in entries && Holds(r, was, list[0]);
    }
  }

  lemma NoCacheEntry(d: Disk, q: Request, staged: Option<Payload>, plan: Plan, out: Outputs, scratch: Scratch, i: nat)
    requires plan.syncBaseAssets || plan.syncRetroAssets ==> Complete(d.workspaceAssets)
    requires CacheEntries(q, staged, plan, scratch) == []
    requires i < |PlannedEntries(d, q, staged, plan, out, scratch)|
    ensures !PlannedEntries(d, q, staged, plan, out, scratch)[i].slot.PayloadCache?
  {
    var e := PlannedEntries(d, q, staged, plan, out, scratch)[i];
    assert e in ProductEntries(out, scratch) || e in CopiedEntries(d, plan, scratch)
           || e in StateEntries(d, q, staged, plan, scratch);
  }

  lemma NoStateEntry(d: Disk, q: Request, staged: Option<Payload>, plan: Plan, out: Outputs, scratch: Scratch, i: nat)
    requires plan.syncBaseAssets || plan.syncRetroAssets ==> Complete(d.workspaceAssets)
    requires StateEntries(d, q, staged, plan, scratch) == []
    requires i < |PlannedEntries(d, q, staged, plan, out, scratch)|
    ensures !PlannedEntries(d, q, staged, plan, out, scratch)[i].slot.InstallStateFile?
  {
    var e := PlannedEntries(d, q, staged, plan, out, scratch)[i];
    assert e in ProductEntries(out, scratch) || e in CopiedEntries(d, plan, scratch)
           || e in CacheEntries(q, staged, plan, scratch);
  }

  lemma StatePublished(r: Reader, was: Fs, now: Fs, root: Path, workRoot: Path, d: Disk, q: Request,
                       staged: Option<Payload>, plan: Plan, out: Outputs, scratch: Scratch)
    requires Publishable(d, plan, q, out)
    requires var entries := PlannedEntries(d, q, staged, plan, out, scratch);
             && Placed(root, workRoot, scratch.root, entries) && AllHold(r, was, entries)
             && Settled(was, now, root, workRoot, entries, true)
    ensures r.state(Tree(now, Destination(root, InstallStateFile)))
            == if WritesState(plan, q) then Some(UpdatedState(d, q, plan.rebuildRetro, staged))
               else r.state(Tree(was, Destination(root, InstallStateFile)))
  {
    var entries := PlannedEntries(d, q, staged, plan, out, scratch);
    var list := StateEntries(d, q, staged, plan, scratch);
    if list == [] {
      forall i | 0 <= i < |entries| ensures !entries[i].slot.InstallStateFile? {
        NoStateEntry(d, q, staged, plan, out, scratch, i);
      }
      PartKept(was, now, root, workRoot, scratch.root, entries, true, StatePart);
    } else {
      assert list[0] in entries && Holds(r, was, list[0]);
    }
  }

  // ---- Config.toml -----------------------------------------------------------------------------------------------

  /** A canonical root that was made a full path, whose stored spelling is not blank. */
  predicate CanonicalText(site: Site, text: string)
    requires Absolute(site.configDirectory)
  {
    var full := ResolveAgainst(site.configDirectory, text);
    && Absolute(full) && FullText(full) == text
    && !AllWhite(FormatPathValue(site.configDirectory, site.portable, full))
  }

  /** The bytes Config.toml is given, if any. */
  function ConfigWrites(r: Reader, site: Site, q: Request, config: Option<Bytes>): seq<Bytes>
    requires Absolute(site.configDirectory)
    requires q.canonicalRoot.Some? ==> CanonicalText(site, q.canonicalRoot.value)
  {
    if q.snapshot.Some? && q.canonicalRoot.Some? then
      var full := ResolveAgainst(site.configDirectory, q.canonicalRoot.value);
      [r.encode(Stored(ConfigText(r, config), RETRO_ROOT_KEY, FormatPathValue(site.configDirectory, site.portable, full)))]
    else []
  }

  lemma ConfigPublished(r: Reader, site: Site, q: Request, config: Option<Bytes>)
    requires Absolute(site.configDirectory) && TextSurvives(r)
    requires q.canonicalRoot.Some? ==> CanonicalText(site, q.canonicalRoot.value)
    ensures ReadConfiguredRoot(r, site, InstallTransaction.ConfigAfter(config, ConfigWrites(r, site, q, config)))
            == if q.snapshot.Some? && q.canonicalRoot.Some? then q.canonicalRoot else ReadConfiguredRoot(r, site, config)
  {
    if q.snapshot.Some? && q.canonicalRoot.Some? {
      var full := ResolveAgainst(site.configDirectory, q.canonicalRoot.value);
      StoredPathReads(site.configDirectory, site.portable, ConfigText(r, config), RETRO_ROOT_KEY, full, RETRO_ROOT_KEY);
    }
  }

  // ---- The whole installation ---------------------------------------------------------------------------------------

  /** A committed transaction of the planned entries, read back, is the planned installation. */
  lemma CommittedReads(r: Reader, site: Site, rest: Disk, was: Fs, now: Fs, config: Option<Bytes>, workRoot: Path, d: Disk,
                       q: Request, staged: Option<Payload>, plan: Plan, out: Outputs, scratch: Scratch)
    requires Absolute(site.configDirectory) && TextSurvives(r)
    requires q.canonicalRoot.Some? ==> CanonicalText(site, q.canonicalRoot.value)
    requires d == ReadDisk(r, site, rest, was, config)
    requires Publishable(d, plan, q, out)
    requires var entries := PlannedEntries(d, q, staged, plan, out, scratch);
             && Placed(site.root, workRoot, scratch.root, entries) && AllHold(r, was, entries)
             && Settled(was, now, site.root, workRoot, entries, true)
    ensures ReadDisk(r, site, rest, now, InstallTransaction.ConfigAfter(config, ConfigWrites(r, site, q, config)))
            == Published(d, q, staged, plan, out)
  {
    ProductPublished(r, was, now, site.root, workRoot, d, q, staged, plan, out, scratch, true);
    ProductPublished(r, was, now, site.root, workRoot, d, q, staged, plan, out, scratch, false);
    CachePublished(r, was, now, site.root, workRoot, d, q, staged, plan, out, scratch);
    StatePublished(r, was, now, site.root, workRoot, d, q, staged, plan, out, scratch);
    ConfigPublished(r, site, q, config);
  }
}
