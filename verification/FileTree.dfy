/** A file system as a finite map from component paths to nodes, with the tree operations an
    install transaction is built from: rename, delete (possibly interrupted) and parent creation. */
module FileTree {

  /** A normalized absolute path as its components; letter case is already folded. */
  type Path = seq<string>

  datatype Kind = Directory | File

  datatype Node = DirectoryNode | FileNode(bytes: seq<bv8>) {
    function KindOf(): Kind {
      if DirectoryNode? then Directory else File
    }
  }

  type Fs = map<Path, Node>

  /** Equal to the container or inside it. */
  predicate PathContains(container: Path, candidate: Path) {
    container <= candidate
  }

  predicate PathsOverlap(left: Path, right: Path) {
    PathContains(left, right) || PathContains(right, left)
  }

  function Parent(p: Path): Path
    requires p != []
  {
    p[..|p| - 1]
  }

  predicate Exists(fs: Fs, p: Path, kind: Kind) {
    p in fs && fs[p].KindOf() == kind
  }

  predicate ExistsAsOtherKind(fs: Fs, p: Path, kind: Kind) {
    p in fs && fs[p].KindOf() != kind
  }

  /** Every entry sits in a directory. */
  predicate WellFormed(fs: Fs) {
    forall k | k in fs :: k == [] || (Parent(k) in fs && fs[Parent(k)].DirectoryNode?)
  }

  /** Everything at and below `p`, keyed by the path relative to `p`; empty when `p` is absent. */
  function Tree(fs: Fs, p: Path): Fs {
    map s | s in (set k | k in fs && p <= k :: k[|p|..]) && p + s in fs :: fs[p + s]
  }

  // ---- Separators and components -------------------------------------------------------------

  const SEPARATOR := '\\'

  function Join(p: Path): string
    requires p != []
  {
    if |p| == 1 then p[0] else p[0] + [SEPARATOR] + Join(p[1..])
  }

  ghost predicate Plain(p: Path) {
    forall i | 0 <= i < |p| :: SEPARATOR !in p[i]
  }

  lemma {:induction false} JoinFirst(p: Path)
    requires p != [] && Plain(p)
    ensures p[0] <= Join(p)
    ensures |Join(p)| > |p[0]| ==> |p| > 1 && Join(p)[|p[0]|] == SEPARATOR
  {}

  lemma {:induction false} FirstNamesAgree(container: Path, candidate: Path)
    requires container != [] && candidate != [] && Plain(container) && Plain(candidate)
    requires Join(container) + [SEPARATOR] <= Join(candidate) + [SEPARATOR]
    ensures container[0] == candidate[0]
  {
    var c, d := Join(container) + [SEPARATOR], Join(candidate) + [SEPARATOR];
    JoinFirst(container);
    JoinFirst(candidate);
    var m, n := |container[0]|, |candidate[0]|;
    assert c[m] == d[m] == SEPARATOR && d[n] == SEPARATOR;
    assert forall i | 0 <= i < n :: d[i] == candidate[0][i];
    assert forall i | 0 <= i < m :: d[i] == c[i] == container[0][i];
    assert m == n;
  }

  /** The textual test - equal, or a prefix followed by a separator - is component containment, so
      `Games2` is not inside `Games`. */
  lemma {:induction false} TextPrefixIsContainment(container: Path, candidate: Path)
    requires container != [] && candidate != [] && Plain(container) && Plain(candidate)
    ensures Join(candidate) == Join(container) || Join(container) + [SEPARATOR] <= Join(candidate)
            <==> PathContains(container, candidate)
  {
    var c, d := Join(container), Join(candidate);
    JoinFirst(container);
    JoinFirst(candidate);
    if container[0] != candidate[0] {
      assert !(container <= candidate);
      if d == c || c + [SEPARATOR] <= d {
        FirstNamesAgree(container, candidate);
      }
    } else if |container| == 1 {
      assert container <= candidate;
    } else if |candidate| == 1 {
      assert |c| > |d|;
    } else {
      var n := |container[0]| + 1;
      assert c[n..] == Join(container[1..]) && d[n..] == Join(candidate[1..]);
      assert c[..n] == d[..n];
      TextPrefixIsContainment(container[1..], candidate[1..]);
      assert container <= candidate <==> container[1..] <= candidate[1..] by {
        assert container == [container[0]] + container[1..] && candidate == [candidate[0]] + candidate[1..];
        if container[1..] <= candidate[1..] {
          assert container == candidate[..|container|];
        }
        if container <= candidate {
          assert container[1..] == candidate[1..][..|container| - 1];
        }
      }
      assert (c + [SEPARATOR] <= d) <==> (c[n..] + [SEPARATOR] <= d[n..]) by {
        assert c + [SEPARATOR] == c[..n] + (c[n..] + [SEPARATOR]) && d == d[..n] + d[n..];
        if c[n..] + [SEPARATOR] <= d[n..] {
          assert c + [SEPARATOR] == d[..|c| + 1];
        }
        if c + [SEPARATOR] <= d {
          assert c[n..] + [SEPARATOR] == d[n..][..|c| + 1 - n];
        }
      }
      assert c == d <==> c[n..] == d[n..] by {
        assert c == c[..n] + c[n..] && d == d[..n] + d[n..];
      }
    }
  }

  // ---- Reading a tree ----------------------------------------------------------------------

  lemma TreeAt(fs: Fs, p: Path, s: Path)
    ensures s in Tree(fs, p) <==> p + s in fs
    ensures p + s in fs ==> Tree(fs, p)[s] == fs[p + s]
  {
    if p + s in fs {
      assert p <= p + s && (p + s)[|p|..] == s;
    }
  }

  lemma TreesEqual(fs: Fs, p: Path, fs': Fs, p': Path)
    requires forall s :: (p + s in fs <==> p' + s in fs') && (p + s in fs ==> fs[p + s] == fs'[p' + s])
    ensures Tree(fs, p) == Tree(fs', p')
  {
    forall s ensures s in Tree(fs, p) <==> s in Tree(fs', p')
             ensures s in Tree(fs, p) ==> Tree(fs, p)[s] == Tree(fs', p')[s] {
      TreeAt(fs, p, s);
      TreeAt(fs', p', s);
    }
  }

  lemma TreeBelowAt(fs: Fs, p: Path, below: Path, s: Path)
    ensures p + below + s in fs <==> below + s in Tree(fs, p)
    ensures p + below + s in fs ==> Tree(fs, p)[below + s] == fs[p + below + s]
  {
    assert p + below + s == p + (below + s);
    TreeAt(fs, p, below + s);
  }

  /** Equal trees are equal below, too. */
  lemma TreesEqualBelow(fs: Fs, p: Path, fs': Fs, p': Path, below: Path)
    requires Tree(fs, p) == Tree(fs', p')
    ensures Tree(fs, p + below) == Tree(fs', p' + below)
  {
    forall s ensures (p + below + s in fs <==> p' + below + s in fs')
             ensures p + below + s in fs ==> fs[p + below + s] == fs'[p' + below + s] {
      TreeBelowAt(fs, p, below, s);
      TreeBelowAt(fs', p', below, s);
    }
    TreesEqual(fs, p + below, fs', p' + below);
  }

  lemma {:induction false} AncestorsExist(fs: Fs, p: Path, k: Path)
    requires WellFormed(fs) && k in fs && p <= k
    ensures p in fs && (p != k ==> fs[p].DirectoryNode?)
    decreases |k|
  {
    if p != k {
      assert p <= Parent(k);
      AncestorsExist(fs, p, Parent(k));
    }
  }

  /** A path is absent exactly when its tree is empty. */
  lemma TreeEmpty(fs: Fs, p: Path)
    requires WellFormed(fs)
    ensures p !in fs <==> Tree(fs, p) == map[]
    ensures p in fs ==> [] in Tree(fs, p) && Tree(fs, p)[[]] == fs[p]
  {
    TreeAt(fs, p, []);
    assert p + [] == p;
    if p !in fs && Tree(fs, p) != map[] {
      var s :| s in Tree(fs, p);
      TreeAt(fs, p, s);
      AncestorsExist(fs, p, p + s);
    }
  }

  // ---- Rename ---------------------------------------------------------------------------------

  function MovedKeys(fs: Fs, src: Path, dst: Path): set<Path> {
    (set k | k in fs && !(src <= k)) + (set k | k in fs && src <= k :: dst + k[|src|..])
  }

  /** A same-volume rename of everything at `src` to the free location `dst`. */
  function MoveTree(fs: Fs, src: Path, dst: Path): Fs
    requires WellFormed(fs) && dst !in fs
  {
    map k | k in MovedKeys(fs, src, dst) ::
      if dst <= k && src + k[|dst|..] in fs then fs[src + k[|dst|..]]
      else if k in fs then fs[k] else DirectoryNode
  }

  lemma MoveAt(fs: Fs, src: Path, dst: Path, k: Path)
    requires WellFormed(fs) && dst !in fs && !PathsOverlap(src, dst)
    ensures dst <= k ==> (k in MoveTree(fs, src, dst) <==> src + k[|dst|..] in fs)
    ensures dst <= k && src + k[|dst|..] in fs ==> MoveTree(fs, src, dst)[k] == fs[src + k[|dst|..]]
    ensures src <= k ==> k !in MoveTree(fs, src, dst)
    ensures !(dst <= k) && !(src <= k) ==> (k in MoveTree(fs, src, dst) <==> k in fs)
    ensures !(dst <= k) && !(src <= k) && k in fs ==> MoveTree(fs, src, dst)[k] == fs[k]
  {
    if dst <= k {
      if k in fs {
        AncestorsExist(fs, dst, k);
        assert false;
      }
      var j := src + k[|dst|..];
      if j in fs {
        assert j[|src|..] == k[|dst|..] && dst + j[|src|..] == k;
      }
      if k in MovedKeys(fs, src, dst) {
        var j' :| j' in fs && src <= j' && dst + j'[|src|..] == k;
        assert j' == src + j'[|src|..] && j'[|src|..] == k[|dst|..];
      }
    } else {
      forall j | j in fs && src <= j ensures dst + j[|src|..] != k {
        assert dst <= dst + j[|src|..];
      }
    }
  }

  lemma MoveArrives(fs: Fs, src: Path, dst: Path)
    requires WellFormed(fs) && dst !in fs && !PathsOverlap(src, dst)
    ensures Tree(MoveTree(fs, src, dst), dst) == Tree(fs, src)
    ensures Tree(MoveTree(fs, src, dst), src) == map[]
  {
    var fs' := MoveTree(fs, src, dst);
    forall s ensures (dst + s in fs' <==> src + s in fs) && (src + s in fs ==> fs'[dst + s] == fs[src + s]) {
      MoveAt(fs, src, dst, dst + s);
      assert (dst + s)[|dst|..] == s;
    }
    TreesEqual(fs', dst, fs, src);
    forall s ensures s !in Tree(fs', src) {
      MoveAt(fs, src, dst, src + s);
      TreeAt(fs', src, s);
    }
  }

  /** A path beside both ends of a rename keeps its whole tree. */
  lemma MoveFrame(fs: Fs, src: Path, dst: Path, r: Path)
    requires WellFormed(fs) && dst !in fs && !PathsOverlap(src, dst)
    requires !PathsOverlap(src, r) && !PathsOverlap(dst, r)
    ensures Tree(MoveTree(fs, src, dst), r) == Tree(fs, r)
  {
    var fs' := MoveTree(fs, src, dst);
    forall s ensures (r + s in fs' <==> r + s in fs) && (r + s in fs ==> fs'[r + s] == fs[r + s]) {
      NotBelow(src, r, s);
      NotBelow(dst, r, s);
      MoveAt(fs, src, dst, r + s);
    }
    TreesEqual(fs', r, fs, r);
  }

  lemma NotBelow(p: Path, r: Path, s: Path)
    requires !PathsOverlap(p, r)
    ensures !(p <= r + s)
  {}

  lemma MoveWellFormed(fs: Fs, src: Path, dst: Path)
    requires WellFormed(fs) && dst !in fs && !PathsOverlap(src, dst)
    requires dst != [] && Parent(dst) in fs && fs[Parent(dst)].DirectoryNode?
    ensures WellFormed(MoveTree(fs, src, dst))
  {
    var fs' := MoveTree(fs, src, dst);
    forall k | k in fs' && k != [] ensures Parent(k) in fs' && fs'[Parent(k)].DirectoryNode? {
      MovedParent(fs, src, dst, k);
    }
  }

  lemma ParentMoves(src: Path, dst: Path, k: Path)
    requires dst <= k && k != dst
    ensures dst <= Parent(k) && src + k[|dst|..] != [] && Parent(src + k[|dst|..]) == src + Parent(k)[|dst|..]
  {
    var t := k[|dst|..];
    assert t != [] && (src + t)[..|src + t| - 1] == src + t[..|t| - 1];
    assert Parent(k)[|dst|..] == t[..|t| - 1];
  }

  lemma MovedParent(fs: Fs, src: Path, dst: Path, k: Path)
    requires WellFormed(fs) && dst !in fs && !PathsOverlap(src, dst) && dst != [] && k != []
    requires Parent(dst) in fs && fs[Parent(dst)].DirectoryNode? && k in MoveTree(fs, src, dst)
    ensures Parent(k) in MoveTree(fs, src, dst) && MoveTree(fs, src, dst)[Parent(k)].DirectoryNode?
  {
    var p := Parent(k);
    MoveAt(fs, src, dst, k);
    MoveAt(fs, src, dst, p);
    if dst <= k && k != dst {
      ParentMoves(src, dst, k);
      assert src + k[|dst|..] in fs;
    } else if k == dst {
      assert !(dst <= p) && !(src <= p) by {
        assert src <= p ==> src <= dst;
      }
    } else {
      assert p in fs && fs[p].DirectoryNode? && !(src <= p) && !(dst <= p) by {
        assert src <= p ==> src <= k;
        assert dst <= p ==> dst <= k;
      }
    }
  }

  // ---- Delete -----------------------------------------------------------------------------------

  function Below(fs: Fs, p: Path): set<Path> {
    set k | k in fs && p <= k
  }

  /** Deleting below `p` and stopping after `gone`: directories go only once they are empty. */
  predicate PartialDelete(fs: Fs, p: Path, gone: set<Path>) {
    gone <= Below(fs, p) && WellFormed(fs - gone)
  }

  lemma FullDelete(fs: Fs, p: Path)
    requires WellFormed(fs)
    ensures PartialDelete(fs, p, Below(fs, p))
    ensures Tree(fs - Below(fs, p), p) == map[]
  {
    var fs' := fs - Below(fs, p);
    forall k | k in fs' && k != [] ensures Parent(k) in fs' {
      assert p <= Parent(k) ==> p <= k;
    }
    forall s ensures s !in Tree(fs', p) {
      TreeAt(fs', p, s);
    }
  }

  lemma DeleteFrame(fs: Fs, p: Path, gone: set<Path>, r: Path)
    requires gone <= Below(fs, p) && !PathsOverlap(p, r)
    ensures Tree(fs - gone, r) == Tree(fs, r)
  {
    forall s ensures r + s in fs - gone <==> r + s in fs {
      NotBelow(p, r, s);
    }
    TreesEqual(fs - gone, r, fs, r);
  }

  // ---- Parents ----------------------------------------------------------------------------------

  function Prefixes(p: Path): set<Path> {
    set i | 0 <= i <= |p| :: p[..i]
  }

  /** Whether `p` can be created as a directory: nothing on the way is a file. */
  predicate Creatable(fs: Fs, p: Path) {
    forall a | a in Prefixes(p) :: a in fs ==> fs[a].DirectoryNode?
  }

  function CreateDirectory(fs: Fs, p: Path): Fs {
    fs + map a | a in Prefixes(p) :: DirectoryNode
  }

  lemma CreateDirectoryWellFormed(fs: Fs, p: Path)
    requires WellFormed(fs) && Creatable(fs, p)
    ensures WellFormed(CreateDirectory(fs, p))
    ensures p in CreateDirectory(fs, p) && CreateDirectory(fs, p)[p].DirectoryNode?
    ensures forall k | k in fs :: k in CreateDirectory(fs, p) && CreateDirectory(fs, p)[k] == fs[k]
  {
    var fs' := CreateDirectory(fs, p);
    assert p == p[..|p|];
    forall k | k in fs' && k != [] ensures Parent(k) in fs' && fs'[Parent(k)].DirectoryNode? {
      if k in Prefixes(p) {
        var i :| 0 <= i <= |p| && k == p[..i];
        assert Parent(k) == p[..i - 1];
      }
    }
  }

  /** Creating the ancestors of `p` touches no tree beside `p`. */
  lemma CreateFrame(fs: Fs, p: Path, r: Path)
    requires WellFormed(fs) && Creatable(fs, p) && !(r <= p)
    ensures Tree(CreateDirectory(fs, p), r) == Tree(fs, r)
  {
    var fs' := CreateDirectory(fs, p);
    CreateDirectoryWellFormed(fs, p);
    forall a | a in Prefixes(p) ensures !(r <= a) {
      assert a <= p;
    }
    TreesEqual(fs', r, fs, r);
  }
}
