/** What an install transaction set out to do, as a value: its entries, the trees before and after,
    and the facts about path separation and entry states that rollback relies on. */
module TransactionPlan {
  import opened FileTree
  import opened Wrappers

  type Bytes = seq<bv8>

  datatype JournalState = Prepared | Published | Committed | RolledBack

  datatype Entry = Entry(prepared: Path, destination: Path, backup: Path, kind: Kind, originalExisted: bool)

  /** The journal document. `configBefore` is the recorded preimage of Config.toml (None: no file). */
  datatype Journal = Journal(
    root: Path, workRoot: Path, state: JournalState, entries: seq<Entry>,
    configPlanned: bool, configBefore: Option<Bytes>)

  ghost predicate Apart(p: Path, q: Path) {
    !PathsOverlap(p, q)
  }

  // ---- The plan: what a transaction set out to do ---------------------------------------------

  /** A specification value: the entries, the trees before and after, and the whole tree at the start. */
  datatype Plan = Plan(
    root: Path, workRoot: Path, entries: seq<Entry>, before: seq<Fs>, after: seq<Fs>,
    configBefore: Option<Bytes>, configAfter: Option<Bytes>, start: Fs)
  {
    ghost predicate Valid() {
      && |before| == |after| == |entries| > 0
      && (forall i {:trigger EntryValid(i)} | 0 <= i < |entries| :: EntryValid(i))
      && (forall i, j {:trigger Separate(i, j)} | 0 <= i < |entries| && 0 <= j < |entries| :: Separate(i, j))
    }

    ghost predicate EntryValid(i: nat)
      requires |before| == |after| == |entries| && i < |entries|
    {
      var e := entries[i];
      && root != [] && root <= e.destination
      && e.backup == BackupPath(workRoot, i)
      && (e.originalExisted <==> before[i] != map[])
      && after[i] != map[]
      && Apart(workRoot, e.destination) && Apart(workRoot, e.prepared)
    }

    /** Neither holds nor lies in anything the transaction works on. */
    ghost predicate Bystander(r: Path) {
      Apart(workRoot, r)
      && forall i {:trigger entries[i]} | 0 <= i < |entries| ::
           Apart(entries[i].prepared, r) && Apart(entries[i].destination, r)
    }

    /** Every move of a publication has a place to go: the backup directory is there, and no file stands
        among the parents of a destination. */
    ghost predicate HasRoom(fs: Fs) {
      && workRoot + ["backup"] in fs && fs[workRoot + ["backup"]].DirectoryNode?
      && forall i | 0 <= i < |entries| :: HomeCanBeMade(fs, entries[i].destination)
    }

    ghost predicate BystandersKept(was: Fs, now: Fs) {
      forall r {:trigger Tree(now, r)} | Bystander(r) :: Tree(now, r) == Tree(was, r)
    }

    ghost predicate Separate(i: nat, j: nat)
      requires i < |entries| && j < |entries|
    {
      var d, e := entries[i], entries[j];
      && Apart(d.prepared, e.destination) && Apart(d.destination, e.prepared)
      && Apart(d.backup, e.destination) && Apart(d.destination, e.backup)
      && Apart(d.backup, e.prepared) && Apart(d.prepared, e.backup)
      && (i != j ==> Apart(d.destination, e.destination) && Apart(d.prepared, e.prepared)
                     && Apart(d.backup, e.backup))
    }

    ghost predicate Describes(j: Journal) {
      j.root == root && j.workRoot == workRoot && j.entries == entries
      && (j.configPlanned ==> j.configBefore == configBefore)
    }

    ghost predicate Restorable(fs: Fs, i: nat)
      requires i < |entries| == |before|
    {
      var e := entries[i];
      HomeReady(fs, e)
      && RestorableTrees(e, before[i], Tree(fs, e.destination), Tree(fs, e.backup), Tree(fs, e.prepared))
    }

    ghost predicate RestoredAt(fs: Fs, i: nat)
      requires i < |entries| == |before|
    {
      Tree(fs, entries[i].destination) == before[i]
    }

    ghost predicate PublishedAt(fs: Fs, i: nat)
      requires i < |entries| == |after|
    {
      Tree(fs, entries[i].destination) == after[i] && Tree(fs, entries[i].prepared) == map[]
    }

    ghost predicate Untouched(fs: Fs, i: nat)
      requires i < |entries| == |before| == |after|
    {
      var e := entries[i];
      Restorable(fs, i) && Tree(fs, e.destination) == before[i] && Tree(fs, e.backup) == map[]
      && Tree(fs, e.prepared) == after[i]
    }
  }

  /** The first entries are published and the others not yet touched. */
  ghost predicate PublishedUpTo(plan: Plan, fs: Fs, n: nat)
    requires n <= |plan.entries| == |plan.before| == |plan.after|
  {
    && (forall k | 0 <= k < n :: plan.PublishedAt(fs, k))
    && (forall k | n <= k < |plan.entries| :: plan.Untouched(fs, k))
  }

  lemma PublishedOneMore(plan: Plan, was: Fs, now: Fs, i: nat)
    requires i < |plan.entries| == |plan.before| == |plan.after|
    requires OthersKept(plan, was, now, i) && plan.Restorable(now, i)
    requires forall j | 0 <= j < |plan.entries| :: plan.Restorable(was, j)
    requires PublishedUpTo(plan, was, i) && plan.BystandersKept(plan.start, was)
    ensures plan.BystandersKept(plan.start, now)
    ensures forall j | 0 <= j < |plan.entries| :: plan.Restorable(now, j)
    ensures plan.PublishedAt(now, i) ==> PublishedUpTo(plan, now, i + 1)
  {
    StillRestorable(plan, was, now, i);
  }

  /** No file stands among the parents of a destination. */
  predicate HomeCanBeMade(fs: Fs, destination: Path) {
    destination != [] && Creatable(fs, Parent(destination))
  }

  ghost predicate RoomFor(fs: Fs, requested: seq<Requested>) {
    forall i | 0 <= i < |requested| :: HomeCanBeMade(fs, requested[i].destination)
  }

  ghost predicate HomeReady(fs: Fs, e: Entry) {
    e.originalExisted ==>
      e.destination != [] && Parent(e.destination) in fs && fs[Parent(e.destination)].DirectoryNode?
  }

  ghost predicate OfKind(t: Fs, kind: Kind) {
    [] in t ==> t[[]].KindOf() == kind
  }

  /** Either the backup holds the original, whatever the destination holds, or the original is in
      place; and a destination without an original never coexists with its prepared copy. */
  ghost predicate RestorableTrees(e: Entry, before: Fs, dest: Fs, backup: Fs, prepared: Fs) {
    && OfKind(dest, e.kind) && OfKind(backup, e.kind) && OfKind(prepared, e.kind)
    && (if e.originalExisted then backup == before || (backup == map[] && dest == before)
        else backup == map[] && (dest == map[] || prepared == map[]))
  }

  // ---- Paths and journal validation -----------------------------------------------------------

  function Digit(n: nat): char
    requires n < 10
  {
    ['0', '1', '2', '3', '4', '5', '6', '7', '8', '9'][n]
  }

  function Decimal(n: nat): string {
    if n < 10 then [Digit(n)] else Decimal(n / 10) + [Digit(n % 10)]
  }

  /** The index with at least four digits. */
  function BackupName(n: nat): string {
    var d := Decimal(n);
    if |d| >= 4 then d else seq(4 - |d|, _ => '0') + d
  }

  function BackupPath(workRoot: Path, index: nat): Path {
    workRoot + ["backup", BackupName(index)]
  }

  function Reading(s: string): nat {
    if s == [] then 0
    else 10 * Reading(s[..|s| - 1]) + (if '0' <= s[|s| - 1] <= '9' then (s[|s| - 1] - '0') as int else 0)
  }

  lemma {:induction false} DecimalReads(n: nat)
    ensures Reading(Decimal(n)) == n && Decimal(n) != []
  {
    if n < 10 {
      assert [Digit(n)][..0] == [];
    } else {
      DecimalReads(n / 10);
      var d := Decimal(n);
      assert d[..|d| - 1] == Decimal(n / 10);
    }
  }

  lemma {:induction false} LeadingZeros(k: nat, s: string)
    ensures Reading(seq(k, _ => '0') + s) == Reading(s)
    decreases |s|, k
  {
    var z := seq(k, _ => '0');
    if s != [] {
      assert (z + s)[..|z + s| - 1] == z + s[..|s| - 1];
      LeadingZeros(k, s[..|s| - 1]);
    } else if k > 0 {
      assert z + s == z;
      assert z[..k - 1] == seq(k - 1, _ => '0') + s;
      LeadingZeros(k - 1, s);
    }
  }

  lemma BackupNamesDiffer(i: nat, j: nat)
    requires i != j
    ensures BackupName(i) != BackupName(j)
  {
    DecimalReads(i);
    DecimalReads(j);
    LeadingZeros(if |Decimal(i)| >= 4 then 0 else 4 - |Decimal(i)|, Decimal(i));
    LeadingZeros(if |Decimal(j)| >= 4 then 0 else 4 - |Decimal(j)|, Decimal(j));
  }

  /** Different entries get different backup paths. */
  lemma BackupPathsDiffer(workRoot: Path, i: nat, j: nat)
    requires i != j
    ensures Apart(BackupPath(workRoot, i), BackupPath(workRoot, j))
  {
    BackupNamesDiffer(i, j);
    var a, b := BackupPath(workRoot, i), BackupPath(workRoot, j);
    assert a[|workRoot| + 1] == BackupName(i) && b[|workRoot| + 1] == BackupName(j);
  }

  const MAXIMUM_JOURNAL_ENTRIES := 64

  /** The checks every rollback and recovery starts with. */
  predicate ValidJournal(root: Path, j: Journal) {
    && j.root == root
    && 0 < |j.entries| <= MAXIMUM_JOURNAL_ENTRIES
    && forall i | 0 <= i < |j.entries| ::
         PathContains(root, j.entries[i].destination) && j.entries[i].backup == BackupPath(j.workRoot, i)
  }

  // ---- Accepting entries -----------------------------------------------------------------------

  datatype Requested = Requested(prepared: Path, destination: Path, kind: Kind)

  predicate EntryAcceptable(fs: Fs, root: Path, e: Requested) {
    && PathContains(root, e.destination)
    && !PathsOverlap(e.prepared, e.destination)
    && Exists(fs, e.prepared, e.kind)
    && !ExistsAsOtherKind(fs, e.destination, e.kind)
  }

  predicate PairAcceptable(e: Requested, previous: Requested) {
    && !PathsOverlap(e.destination, previous.destination)
    && !PathsOverlap(e.prepared, previous.prepared)
    && !PathsOverlap(e.prepared, previous.destination)
    && !PathsOverlap(e.destination, previous.prepared)
  }

  ghost predicate AcceptableUpTo(fs: Fs, root: Path, requested: seq<Requested>, n: nat)
    requires n <= |requested|
  {
    forall i | 0 <= i < n ::
      EntryAcceptable(fs, root, requested[i])
      && forall j | 0 <= j < i :: PairAcceptable(requested[i], requested[j])
  }

  ghost predicate Acceptable(fs: Fs, root: Path, requested: seq<Requested>) {
    AcceptableUpTo(fs, root, requested, |requested|)
  }

  function JournalEntry(fs: Fs, workRoot: Path, e: Requested, index: nat): Entry {
    Entry(e.prepared, e.destination, BackupPath(workRoot, index), e.kind, Exists(fs, e.destination, e.kind))
  }

  ghost predicate JournaledUpTo(fs: Fs, workRoot: Path, requested: seq<Requested>, entries: seq<Entry>, n: nat) {
    n == |entries| <= |requested|
    && forall i | 0 <= i < n :: entries[i] == JournalEntry(fs, workRoot, requested[i], i)
  }

  ghost predicate Journaled(fs: Fs, workRoot: Path, requested: seq<Requested>, entries: seq<Entry>) {
    JournaledUpTo(fs, workRoot, requested, entries, |requested|)
  }

  /** Accepts exactly the entry lists whose paths are in scope, of the right kinds and pairwise apart. */
  method NormalizeEntries(fs: Fs, root: Path, workRoot: Path, requested: seq<Requested>)
    returns (r: Option<seq<Entry>>)
    ensures r.Some? <==> Acceptable(fs, root, requested)
    ensures r.Some? ==> Journaled(fs, workRoot, requested, r.value)
  {
    var normalized: seq<Entry> := [];
    for index := 0 to |requested|
      invariant AcceptableUpTo(fs, root, requested, index)
      invariant JournaledUpTo(fs, workRoot, requested, normalized, index)
    {
      var e := requested[index];
      if !EntryAcceptable(fs, root, e) {
        return None;
      }
      for j := 0 to index
        invariant forall k | 0 <= k < j :: PairAcceptable(e, requested[k])
      {
        var previous := normalized[j];
        if !PairAcceptable(e, Requested(previous.prepared, previous.destination, previous.kind)) {
          assert !PairAcceptable(requested[index], requested[j]);
          return None;
        }
      }
      normalized := normalized + [JournalEntry(fs, workRoot, e, index)];
    }
    r := Some(normalized);
  }

  ghost function PlanFor(fs: Fs, root: Path, workRoot: Path, entries: seq<Entry>,
                         configBefore: Option<Bytes>, configAfter: Option<Bytes>): Plan
  {
    Plan(root, workRoot, entries,
         seq(|entries|, i requires 0 <= i < |entries| => Tree(fs, entries[i].destination)),
         seq(|entries|, i requires 0 <= i < |entries| => Tree(fs, entries[i].prepared)),
         configBefore, configAfter, fs)
  }

  /** A fresh work directory beside the installation root. */
  ghost predicate FreshWorkRoot(fs: Fs, root: Path, workRoot: Path) {
    root != [] && workRoot != [] && workRoot != root && Parent(workRoot) == Parent(root) && workRoot !in fs
  }

  lemma WorkRootApart(fs: Fs, root: Path, workRoot: Path, e: Requested)
    requires WellFormed(fs) && FreshWorkRoot(fs, root, workRoot) && EntryAcceptable(fs, root, e)
    ensures Apart(workRoot, e.destination) && Apart(workRoot, e.prepared)
  {
    assert root == Parent(root) + [root[|root| - 1]];
    assert workRoot == Parent(root) + [workRoot[|root| - 1]];
    assert e.destination[|root| - 1] == root[|root| - 1];
    if workRoot <= e.prepared {
      AncestorsExist(fs, workRoot, e.prepared);
    }
  }

  lemma ApartBelow(w: Path, b: Path, r: Path)
    requires Apart(w, r) && w <= b
    ensures Apart(b, r)
  {
    assert r <= b ==> PathsOverlap(w, r);
  }

  /** The accepted entries, their backups and the work directory never overlap. */
  lemma AcceptedPlanIsValid(fs: Fs, root: Path, workRoot: Path, requested: seq<Requested>,
                            entries: seq<Entry>, plan: Plan)
    requires WellFormed(fs) && FreshWorkRoot(fs, root, workRoot)
    requires requested != [] && Acceptable(fs, root, requested)
    requires Journaled(fs, workRoot, requested, entries)
    requires plan == PlanFor(fs, root, workRoot, entries, plan.configBefore, plan.configAfter)
    ensures plan.Valid()
    ensures forall i | 0 <= i < |entries| :: plan.Untouched(fs, i)
    ensures forall i | 0 <= i < |entries| :: plan.RestoredAt(fs, i)
  {
    forall i | 0 <= i < |entries| ensures plan.EntryValid(i) && plan.Untouched(fs, i) && plan.RestoredAt(fs, i) {
      WorkRootApart(fs, root, workRoot, requested[i]);
      assert workRoot <= entries[i].backup;
      TreeEmpty(fs, entries[i].prepared);
      TreeEmpty(fs, entries[i].destination);
      TreeEmpty(fs, entries[i].backup);
      if entries[i].backup in fs {
        AncestorsExist(fs, workRoot, entries[i].backup);
      }
    }
    forall i, j | 0 <= i < |entries| && 0 <= j < |entries| ensures plan.Separate(i, j) {
      assert plan.EntryValid(i) && plan.EntryValid(j);
      ApartBelow(workRoot, entries[i].backup, entries[j].destination);
      ApartBelow(workRoot, entries[i].backup, entries[j].prepared);
      ApartBelow(workRoot, entries[j].backup, entries[i].destination);
      ApartBelow(workRoot, entries[j].backup, entries[i].prepared);
      if i != j {
        BackupPathsDiffer(workRoot, i, j);
        assert PairAcceptable(requested[if i < j then j else i], requested[if i < j then i else j]);
      }
    }
  }

  // ---- Work on one entry ------------------------------------------------------------------------

  ghost predicate ApartFromEntry(e: Entry, r: Path) {
    Apart(e.destination, r) && Apart(e.backup, r) && Apart(e.prepared, r)
  }

  /** Trees of all other entries, and the directories they live in, survive work on entry `i`. */
  ghost predicate OthersKept(plan: Plan, was: Fs, now: Fs, i: nat)
    requires i < |plan.entries|
  {
    && plan.BystandersKept(was, now)
    && (forall j {:trigger EntryKept(was, now, plan.entries[j])} | 0 <= j < |plan.entries| && j != i ::
          EntryKept(was, now, plan.entries[j]))
  }

  ghost predicate EntryKept(was: Fs, now: Fs, e: Entry) {
    && Tree(now, e.destination) == Tree(was, e.destination)
    && Tree(now, e.backup) == Tree(was, e.backup)
    && Tree(now, e.prepared) == Tree(was, e.prepared)
    && (HomeReady(was, e) ==> HomeReady(now, e))
  }

  /** A journal this code writes passes its own validation exactly when it has at most 64 entries. */
  lemma AcceptedJournal(plan: Plan, j: Journal)
    requires plan.Valid() && plan.Describes(j)
    ensures ValidJournal(plan.root, j) <==> |plan.entries| <= MAXIMUM_JOURNAL_ENTRIES
  {
    forall i | 0 <= i < |j.entries|
      ensures PathContains(plan.root, j.entries[i].destination) && j.entries[i].backup == BackupPath(j.workRoot, i)
    {
      assert plan.EntryValid(i);
    }
  }

  lemma DestinationsKept(plan: Plan, was: Fs, now: Fs)
    requires plan.Valid()
    requires forall r {:trigger Tree(now, r)} | Apart(plan.workRoot, r) :: Tree(now, r) == Tree(was, r)
    ensures plan.BystandersKept(was, now)
    ensures forall i | 0 <= i < |plan.entries| && plan.RestoredAt(was, i) :: plan.RestoredAt(now, i)
    ensures forall i | 0 <= i < |plan.entries| && plan.PublishedAt(was, i) :: plan.PublishedAt(now, i)
  {
    forall i | 0 <= i < |plan.entries|
      ensures plan.RestoredAt(was, i) ==> plan.RestoredAt(now, i)
      ensures plan.PublishedAt(was, i) ==> plan.PublishedAt(now, i)
    {
      assert plan.EntryValid(i);
      assert Apart(plan.workRoot, plan.entries[i].destination);
      assert Tree(now, plan.entries[i].destination) == Tree(was, plan.entries[i].destination);
      assert Tree(now, plan.entries[i].prepared) == Tree(was, plan.entries[i].prepared);
    }
  }

  /** At most the two empty directories a transaction starts with: nothing that was moved aside. */
  ghost predicate OnlyScaffold(fs: Fs, workRoot: Path) {
    forall k | k in fs && workRoot <= k :: (k == workRoot || k == workRoot + ["backup"]) && fs[k].DirectoryNode?
  }

  lemma ScaffoldMade(was: Fs, now: Fs, workRoot: Path)
    requires WellFormed(was) && WellFormed(now) && workRoot !in was
    requires forall k | k in now :: k in was || now[k].DirectoryNode?
    requires forall r {:trigger Tree(now, r)} | !(r <= workRoot + ["backup"]) :: Tree(now, r) == Tree(was, r)
    ensures OnlyScaffold(now, workRoot)
  {
    forall k | k in now && workRoot <= k
      ensures (k == workRoot || k == workRoot + ["backup"]) && now[k].DirectoryNode?
    {
      if k in was {
        AncestorsExist(was, workRoot, k);
      }
      if !(k <= workRoot + ["backup"]) {
        TreeEmpty(was, k);
        TreeEmpty(now, k);
      }
    }
  }

  /** Work on entry `i` that keeps the others keeps what is true of them. */
  lemma StillRestorable(plan: Plan, was: Fs, now: Fs, i: nat)
    requires i < |plan.entries| == |plan.before| == |plan.after|
    requires OthersKept(plan, was, now, i)
    requires plan.Restorable(now, i)
    requires forall j | 0 <= j < |plan.entries| :: plan.Restorable(was, j)
    ensures forall j | 0 <= j < |plan.entries| :: plan.Restorable(now, j)
    ensures forall j | 0 <= j < |plan.entries| && j != i && plan.RestoredAt(was, j) :: plan.RestoredAt(now, j)
    ensures forall j | 0 <= j < |plan.entries| && j != i && plan.PublishedAt(was, j) :: plan.PublishedAt(now, j)
    ensures forall j | 0 <= j < |plan.entries| && j != i && plan.Untouched(was, j) :: plan.Untouched(now, j)
  {
    forall j | 0 <= j < |plan.entries| && j != i
      ensures plan.Restorable(now, j)
      ensures plan.RestoredAt(was, j) ==> plan.RestoredAt(now, j)
      ensures plan.PublishedAt(was, j) ==> plan.PublishedAt(now, j)
      ensures plan.Untouched(was, j) ==> plan.Untouched(now, j)
    {
      assert plan.Restorable(was, j);
      assert EntryKept(was, now, plan.entries[j]);
    }
  }

  lemma KeptReflexive(plan: Plan, fs: Fs, i: nat)
    requires i < |plan.entries|
    ensures OthersKept(plan, fs, fs, i)
  {
    forall j | 0 <= j < |plan.entries| && j != i ensures EntryKept(fs, fs, plan.entries[j]) {}
  }

  lemma KeptTransitive(plan: Plan, a: Fs, b: Fs, c: Fs, i: nat)
    requires i < |plan.entries| && OthersKept(plan, a, b, i) && OthersKept(plan, b, c, i)
    ensures OthersKept(plan, a, c, i)
  {
    forall j | 0 <= j < |plan.entries| && j != i ensures EntryKept(a, c, plan.entries[j]) {
      assert EntryKept(a, b, plan.entries[j]) && EntryKept(b, c, plan.entries[j]);
    }
  }

  /** Work confined to entry `i`'s destination and backup leaves everything else alone. */
  lemma OthersAreKept(plan: Plan, i: nat, was: Fs, now: Fs)
    requires plan.Valid() && i < |plan.entries|
    requires forall k | k in was && !(plan.entries[i].destination <= k) && !(plan.entries[i].backup <= k)
                        && !(plan.entries[i].prepared <= k) :: k in now && now[k] == was[k]
    requires forall r {:trigger Tree(now, r)} | ApartFromEntry(plan.entries[i], r) :: Tree(now, r) == Tree(was, r)
    ensures OthersKept(plan, was, now, i)
    ensures HomeReady(was, plan.entries[i]) ==> HomeReady(now, plan.entries[i])
  {
    HomesKept(plan, i, was, now);
    forall r | plan.Bystander(r) ensures Tree(now, r) == Tree(was, r) {
      assert plan.EntryValid(i);
      ApartBelow(plan.workRoot, plan.entries[i].backup, r);
      assert ApartFromEntry(plan.entries[i], r);
    }
    forall j | 0 <= j < |plan.entries| && j != i ensures EntryKept(was, now, plan.entries[j]) {
      assert plan.Separate(i, j);
      assert ApartFromEntry(plan.entries[i], plan.entries[j].destination);
      assert ApartFromEntry(plan.entries[i], plan.entries[j].backup);
      assert ApartFromEntry(plan.entries[i], plan.entries[j].prepared);
    }
  }

  lemma HomeCreatable(fs: Fs, e: Entry)
    requires WellFormed(fs) && e.originalExisted && HomeReady(fs, e)
    ensures Creatable(fs, Parent(e.destination))
  {
    forall a | a in Prefixes(Parent(e.destination)) ensures a in fs ==> fs[a].DirectoryNode? {
      assert a <= Parent(e.destination);
      AncestorsExist(fs, a, Parent(e.destination));
    }
  }

  /** Removing things below entry `i`'s own paths leaves every entry's parent directory. */
  lemma HomesKept(plan: Plan, i: nat, was: Fs, now: Fs)
    requires plan.Valid() && i < |plan.entries|
    requires forall k | k in was && !(plan.entries[i].destination <= k) && !(plan.entries[i].backup <= k)
                        && !(plan.entries[i].prepared <= k) :: k in now && now[k] == was[k]
    ensures forall j | 0 <= j < |plan.entries| :: HomeReady(was, plan.entries[j]) ==> HomeReady(now, plan.entries[j])
  {
    forall j | 0 <= j < |plan.entries| && HomeReady(was, plan.entries[j]) && plan.entries[j].originalExisted
      ensures HomeReady(now, plan.entries[j])
    {
      var d := plan.entries[j].destination;
      var e := plan.entries[i];
      assert plan.Separate(i, j);
      assert !(e.destination <= Parent(d)) by {
        assert e.destination <= Parent(d) ==> e.destination <= d && |e.destination| < |d|;
      }
      assert !(e.backup <= Parent(d)) by {
        assert e.backup <= Parent(d) ==> e.backup <= d;
      }
      assert !(e.prepared <= Parent(d)) by {
        assert e.prepared <= Parent(d) ==> e.prepared <= d;
      }
    }
  }

  lemma DirectoryCreatable(fs: Fs, p: Path)
    requires WellFormed(fs) && p in fs && fs[p].DirectoryNode?
    ensures Creatable(fs, p)
  {
    forall a | a in Prefixes(p) ensures a in fs ==> fs[a].DirectoryNode? {
      assert a <= p;
      AncestorsExist(fs, a, p);
    }
  }

  /** A move that lands beside a destination adds only directories among its parents. */
  lemma StillCreatable(was: Fs, now: Fs, landed: Path, destination: Path)
    requires HomeCanBeMade(was, destination) && !(landed <= Parent(destination))
    requires forall k | k in now && !(landed <= k) :: (k in was && now[k] == was[k]) || now[k].DirectoryNode?
    ensures HomeCanBeMade(now, destination)
  {
    forall a | a in Prefixes(Parent(destination)) && a in now ensures now[a].DirectoryNode? {
      assert a <= Parent(destination);
      assert !(landed <= a);
    }
  }

  /** Moving entry `i` aside, or publishing it, leaves room for the moves still to come. */
  lemma StillHasRoom(plan: Plan, i: nat, was: Fs, now: Fs, src: Path, landed: Path)
    requires plan.Valid() && i < |plan.entries| && plan.HasRoom(was)
    requires src == plan.entries[i].destination || src == plan.entries[i].prepared
    requires landed == plan.entries[i].backup || landed == plan.entries[i].destination
    requires forall k | k in was && !(src <= k) :: k in now && now[k] == was[k]
    requires forall k | k in now && !(landed <= k) :: (k in was && now[k] == was[k]) || now[k].DirectoryNode?
    ensures plan.HasRoom(now)
  {
    assert plan.EntryValid(i);
    assert !(src <= plan.workRoot + ["backup"]) by {
      assert src <= plan.workRoot + ["backup"] ==> PathsOverlap(plan.workRoot, src);
    }
    forall j | 0 <= j < |plan.entries| ensures HomeCanBeMade(now, plan.entries[j].destination) {
      var d := plan.entries[j].destination;
      assert plan.Separate(i, j);
      assert landed <= Parent(d) ==> landed <= d && |landed| < |d|;
      StillCreatable(was, now, landed, d);
    }
  }

  /** The work directory is new and lies beside the root, so its backup directory can be made wherever a
      destination's parents can, and making it leaves room for every move. */
  lemma WorkRootCreatable(fs: Fs, root: Path, workRoot: Path, destination: Path)
    requires WellFormed(fs) && FreshWorkRoot(fs, root, workRoot) && root <= destination && HomeCanBeMade(fs, destination)
    ensures Creatable(fs, workRoot + ["backup"])
  {
    var made := workRoot + ["backup"];
    forall a | a in Prefixes(made) && a in fs ensures fs[a].DirectoryNode? {
      var i :| 0 <= i <= |made| && a == made[..i];
      if i < |workRoot| {
        assert a == Parent(root)[..i];
        assert a == Parent(destination)[..i];
        assert a in Prefixes(Parent(destination));
      } else {
        AncestorsExist(fs, workRoot, a);
      }
    }
  }

  lemma RoomMade(plan: Plan, was: Fs, now: Fs)
    requires plan.Valid() && plan.workRoot + ["backup"] in now && now[plan.workRoot + ["backup"]].DirectoryNode?
    requires forall i | 0 <= i < |plan.entries| :: HomeCanBeMade(was, plan.entries[i].destination)
    requires forall k | k in was :: k in now && now[k] == was[k]
    requires forall k | k in now :: k in was || now[k].DirectoryNode?
    ensures plan.HasRoom(now)
  {}

  /** Creating the backup directory leaves every entry as it was. */
  lemma WorkRootMade(plan: Plan, was: Fs, now: Fs)
    requires plan.Valid() && WellFormed(was) && WellFormed(now)
    requires forall k | k in was :: k in now && now[k] == was[k]
    requires forall r {:trigger Tree(now, r)} | !(r <= plan.workRoot + ["backup"]) :: Tree(now, r) == Tree(was, r)
    requires forall i | 0 <= i < |plan.entries| :: plan.Untouched(was, i)
    ensures plan.BystandersKept(was, now)
    ensures forall i | 0 <= i < |plan.entries| :: plan.Untouched(now, i)
    ensures forall i | 0 <= i < |plan.entries| :: plan.RestoredAt(now, i)
    ensures forall i | 0 <= i < |plan.entries| :: plan.Restorable(now, i)
  {
    var made := plan.workRoot + ["backup"];
    forall r | plan.Bystander(r) ensures Tree(now, r) == Tree(was, r) {
      ApartBelow(plan.workRoot, made, r);
    }
    forall i | 0 <= i < |plan.entries|
      ensures plan.Untouched(now, i) && plan.RestoredAt(now, i) && plan.Restorable(now, i)
    {
      var e := plan.entries[i];
      assert plan.EntryValid(i) && plan.Untouched(was, i);
      ApartBelow(plan.workRoot, made, e.destination);
      ApartBelow(plan.workRoot, made, e.prepared);
      assert |e.backup| > |made|;
    }
  }

  // ---- The entry limit --------------------------------------------------------------------------

  function ScratchFile(i: nat): Path {
    ["c", "scratch", BackupName(i)]
  }

  function InstalledFile(i: nat): Path {
    ["c", "install", BackupName(i)]
  }

  function ManyRequests(n: nat): seq<Requested> {
    seq(n, i requires 0 <= i < n => Requested(ScratchFile(i), InstalledFile(i), File))
  }

  function ManyFiles(n: nat): Fs {
    if n == 0 then map[[] := DirectoryNode, ["c"] := DirectoryNode, ["c", "scratch"] := DirectoryNode]
    else ManyFiles(n - 1)[ScratchFile(n - 1) := FileNode([])]
  }

  lemma AddFileWellFormed(fs: Fs, p: Path)
    requires WellFormed(fs) && p != [] && Parent(p) in fs && fs[Parent(p)].DirectoryNode?
    requires p in fs ==> fs[p].FileNode?
    ensures WellFormed(fs[p := FileNode([])])
  {
    forall k | k in fs[p := FileNode([])] && k != [] ensures k == p || Parent(k) != p {}
  }

  /** The scratch directory, filled with files. */
  ghost predicate HoldsScratch(fs: Fs, n: nat) {
    && WellFormed(fs) && ["c", "scratch"] in fs && fs[["c", "scratch"]].DirectoryNode?
    && (forall i | 0 <= i < n :: Exists(fs, ScratchFile(i), File))
    && (forall k | k in fs && |k| > 1 :: k[1] == "scratch")
    && (forall k | k in fs && |k| > 2 :: fs[k].FileNode?)
  }

  lemma OneMoreFile(fs: Fs, n: nat)
    requires HoldsScratch(fs, n)
    ensures HoldsScratch(fs[ScratchFile(n) := FileNode([])], n + 1)
  {
    var p := ScratchFile(n);
    assert Parent(p) == ["c", "scratch"] && |p| == 3;
    AddFileWellFormed(fs, p);
  }

  lemma NoFilesYet()
    ensures HoldsScratch(ManyFiles(0), 0)
  {
    assert Parent(["c"]) == [] && Parent(["c", "scratch"]) == ["c"];
  }

  lemma {:induction false} ManyFilesAreWellFormed(n: nat)
    ensures HoldsScratch(ManyFiles(n), n)
  {
    if n == 0 {
      NoFilesYet();
    } else {
      ManyFilesAreWellFormed(n - 1);
      OneMoreFile(ManyFiles(n - 1), n - 1);
    }
  }

  lemma ManyFilesApart(n: nat, i: nat, j: nat)
    requires j < i < n
    ensures PairAcceptable(ManyRequests(n)[i], ManyRequests(n)[j])
  {
    BackupNamesDiffer(i, j);
    assert ScratchFile(i)[1] == ScratchFile(j)[1] == "scratch" && InstalledFile(i)[1] == InstalledFile(j)[1] == "install";
    assert ScratchFile(i)[2] != ScratchFile(j)[2] && InstalledFile(i)[2] != InstalledFile(j)[2];
  }

  lemma {:induction false} ManyRequestsAreAcceptable(n: nat)
    ensures Acceptable(ManyFiles(n), ["c", "install"], ManyRequests(n))
  {
    ManyFilesAreWellFormed(n);
    forall i | 0 <= i < n
      ensures EntryAcceptable(ManyFiles(n), ["c", "install"], ManyRequests(n)[i])
      ensures forall j | 0 <= j < i :: PairAcceptable(ManyRequests(n)[i], ManyRequests(n)[j])
    {
      assert ScratchFile(i)[1] == "scratch" && InstalledFile(i)[1] == "install";
      assert InstalledFile(i)[..2] == ["c", "install"];
      forall j | 0 <= j < i ensures PairAcceptable(ManyRequests(n)[i], ManyRequests(n)[j]) {
        ManyFilesApart(n, i, j);
      }
    }
  }

  /** Beginning a transaction does not enforce the limit that rolling it back does: any number of
      files is accepted and journaled, and from 65 on the journal is one recovery refuses. */
  lemma {:induction false} OversizedTransactionIsAcceptedButNotRecovered(n: nat, entries: seq<Entry>,
                                                                         state: JournalState)
    requires n > 0 && Journaled(ManyFiles(n), ["c", "work"], ManyRequests(n), entries)
    ensures Acceptable(ManyFiles(n), ["c", "install"], ManyRequests(n))
    ensures WellFormed(ManyFiles(n)) && FreshWorkRoot(ManyFiles(n), ["c", "install"], ["c", "work"])
    ensures ValidJournal(["c", "install"], Journal(["c", "install"], ["c", "work"], state, entries, false, None))
            <==> n <= MAXIMUM_JOURNAL_ENTRIES
  {
    ManyRequestsAreAcceptable(n);
    WorkIsFresh(n);
    ManyJournaled(n, entries);
  }

  lemma {:induction false} WorkIsFresh(n: nat)
    ensures WellFormed(ManyFiles(n)) && FreshWorkRoot(ManyFiles(n), ["c", "install"], ["c", "work"])
  {
    ManyFilesAreWellFormed(n);
    assert ["c", "work"][1] == "work" && Parent(["c", "work"]) == ["c"] == Parent(["c", "install"]);
  }

  lemma {:induction false} ManyJournaled(n: nat, entries: seq<Entry>)
    requires Journaled(ManyFiles(n), ["c", "work"], ManyRequests(n), entries)
    ensures |entries| == n
    ensures forall i | 0 <= i < n ::
              PathContains(["c", "install"], entries[i].destination) && entries[i].backup == BackupPath(["c", "work"], i)
  {
    forall i | 0 <= i < n
      ensures PathContains(["c", "install"], entries[i].destination)
      ensures entries[i].backup == BackupPath(["c", "work"], i)
    {
      assert InstalledFile(i)[..2] == ["c", "install"];
    }
  }
}
