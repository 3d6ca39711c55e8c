/** The pool of presentation images of one slot: reuse, eviction of old sizes, and its bound. */
module ImagePool {

  datatype Image = Image(id: nat, width: nat, height: nat)

  /** Images are numbered by the pool's own counter. */
  datatype PoolState = PoolState(images: seq<Image>, created: nat)

  predicate Distinct(images: seq<Image>) {
    forall i, j | 0 <= i < j < |images| :: images[i].id != images[j].id
  }

  ghost predicate Valid(p: PoolState) {
    Distinct(p.images) && forall i | 0 <= i < |p.images| :: p.images[i].id < p.created
  }

  predicate Fits(image: Image, width: nat, height: nat) {
    image.width == width && image.height == height
  }

  // ---- Acquiring ------------------------------------------------------------------------------------------

  /** What one pass over the pool leaves, and the idle image of the requested size it stops at, if any:
      idle images of another size are dropped on the way. `referenced` are the images jobs hold. */
  function Scanned(images: seq<Image>, width: nat, height: nat, referenced: set<nat>): (seq<Image>, seq<Image>) {
    if images == [] then ([], [])
    else if images[0].id in referenced then
      var (kept, found) := Scanned(images[1..], width, height, referenced);
      ([images[0]] + kept, found)
    else if Fits(images[0], width, height) then (images, [images[0]])
    else Scanned(images[1..], width, height, referenced)
  }

  /** The pool after an acquisition, and the image handed out. */
  function Acquired(p: PoolState, width: nat, height: nat, referenced: set<nat>): (PoolState, Image) {
    var (kept, found) := Scanned(p.images, width, height, referenced);
    if found != [] then (PoolState(kept, p.created), found[0])
    else
      var image := Image(p.created, width, height);
      (PoolState(kept + [image], p.created + 1), image)
  }

  lemma {:induction false} ScannedKeeps(images: seq<Image>, width: nat, height: nat, referenced: set<nat>)
    requires Distinct(images)
    ensures var (kept, found) := Scanned(images, width, height, referenced);
            && Distinct(kept) && |found| <= 1
            && (forall image | image in kept :: image in images)
            && (forall image | image in images && image.id in referenced :: image in kept)
            && (forall image | image in found :: image in kept && Fits(image, width, height) && image.id !in referenced)
            && (found == [] ==> forall image | image in kept :: image.id in referenced)
  {
    if images != [] {
      ScannedKeeps(images[1..], width, height, referenced);
      forall image | image in images ensures image == images[0] || image in images[1..] {}
    }
  }

  ghost function Ids(images: seq<Image>): set<nat> {
    set i | 0 <= i < |images| :: images[i].id
  }

  lemma {:induction false} DistinctCount(images: seq<Image>, within: set<nat>)
    requires Distinct(images) && Ids(images) <= within
    ensures |images| <= |within|
  {
    if images != [] {
      var last := images[|images| - 1];
      assert last.id in Ids(images);
      forall id | id in Ids(images[..|images| - 1]) ensures id in within - {last.id} {
        assert id in Ids(images);
      }
      DistinctCount(images[..|images| - 1], within - {last.id});
    }
  }

  /** The image handed out is referenced by no job and has the requested size, no referenced image leaves
      the pool, and the pool grows only when every image left in it is referenced. */
  lemma AcquiredIsFree(p: PoolState, width: nat, height: nat, referenced: set<nat>)
    requires Valid(p) && forall id | id in referenced :: id < p.created
    ensures var (now, image) := Acquired(p, width, height, referenced);
            && Valid(now) && image in now.images && image.id !in referenced
            && image.width == width && image.height == height
            && (forall kept | kept in p.images && kept.id in referenced :: kept in now.images)
            && (forall other | other in now.images :: other in p.images || (other == image && image.id == p.created))
            && (|now.images| <= |p.images| || |now.images| <= |referenced| + 1)
  {
    var (kept, found) := Scanned(p.images, width, height, referenced);
    ScannedKeeps(p.images, width, height, referenced);
    forall i | 0 <= i < |kept| ensures kept[i].id < p.created {
      assert kept[i] in p.images;
    }
    if found == [] {
      forall i | 0 <= i < |kept| ensures kept[i].id in referenced {
        assert kept[i] in kept;
      }
      DistinctCount(kept, referenced);
    } else {
      ScannedIsNoLonger(p.images, width, height, referenced);
    }
  }

  lemma {:induction false} ScannedIsNoLonger(images: seq<Image>, width: nat, height: nat, referenced: set<nat>)
    ensures |Scanned(images, width, height, referenced).0| <= |images|
  {
    if images != [] {
      ScannedIsNoLonger(images[1..], width, height, referenced);
    }
  }

  predicate Idle(image: Image, width: nat, height: nat, referenced: set<nat>) {
    Fits(image, width, height) && image.id !in referenced
  }

  predicate FirstIdle(images: seq<Image>, k: nat, width: nat, height: nat, referenced: set<nat>) {
    k < |images| && Idle(images[k], width, height, referenced)
    && forall i | 0 <= i < k :: !Idle(images[i], width, height, referenced)
  }

  /** The referenced images, in their order. */
  function Busy(images: seq<Image>, referenced: set<nat>): seq<Image> {
    if images == [] then []
    else if images[0].id in referenced then [images[0]] + Busy(images[1..], referenced)
    else Busy(images[1..], referenced)
  }

  lemma {:induction false} ScannedIs(images: seq<Image>, width: nat, height: nat, referenced: set<nat>, k: nat)
    ensures (forall i | 0 <= i < |images| :: !Idle(images[i], width, height, referenced)) ==>
              Scanned(images, width, height, referenced) == (Busy(images, referenced), [])
    ensures FirstIdle(images, k, width, height, referenced) ==>
              Scanned(images, width, height, referenced) == (Busy(images[..k], referenced) + images[k..], [images[k]])
  {
    if images != [] {
      ScannedIs(images[1..], width, height, referenced, if k > 0 then k - 1 else 0);
      assert forall i | 0 <= i < |images| - 1 :: images[1..][i] == images[i + 1];
      if FirstIdle(images, k, width, height, referenced) {
        if k == 0 {
          assert images[..0] == [] && [] + images == images == images[0..];
        } else {
          var (front, rest) := (Busy(images[..k][1..], referenced), images[k..]);
          assert images[..k][1..] == images[1..][..k - 1] && images[1..][k - 1..] == rest;
          assert FirstIdle(images[1..], k - 1, width, height, referenced);
          assert [images[0]] + (front + rest) == [images[0]] + front + rest;
        }
      }
    }
  }

  /** While the pool holds an idle image of the requested size the first one is handed out and nothing is
      created; otherwise a new one joins, and of the old ones exactly the referenced stay. */
  lemma {:induction false} IdleIsReused(p: PoolState, width: nat, height: nat, referenced: set<nat>, k: nat)
    ensures FirstIdle(p.images, k, width, height, referenced) ==>
              Acquired(p, width, height, referenced)
              == (PoolState(Busy(p.images[..k], referenced) + p.images[k..], p.created), p.images[k])
    ensures (forall i | 0 <= i < |p.images| :: !Idle(p.images[i], width, height, referenced)) ==>
              var image := Image(p.created, width, height);
              Acquired(p, width, height, referenced)
              == (PoolState(Busy(p.images, referenced) + [image], p.created + 1), image)
  {
    ScannedIs(p.images, width, height, referenced, k);
  }

  // ---- The pool as it runs ------------------------------------------------------------------------------------

  class Pool {
    var images: seq<Image>
    var created: nat

    constructor ()
      ensures State() == PoolState([], 0)
    {
      images, created := [], 0;
    }

    function State(): PoolState
      reads this
    {
      PoolState(images, created)
    }

    /** The loop over the pool, erasing in place. */
    method Acquire(width: nat, height: nat, referenced: set<nat>) returns (image: Image)
      modifies this
      ensures (State(), image) == Acquired(old(State()), width, height, referenced)
    {
      var it := 0;
      assert images[0..] == images;
      ghost var whole := Scanned(images, width, height, referenced).0;
      assert images[..0] + whole == whole;
      while it < |images|
        invariant 0 <= it <= |images| && created == old(created)
        invariant var (kept, found) := Scanned(images[it..], width, height, referenced);
                  Scanned(old(images), width, height, referenced) == (images[..it] + kept, found)
        decreases |images| - it
      {
        var candidate := images[it];
        assert images[it..][0] == candidate && images[it..][1..] == images[it + 1..];
        ghost var later := Scanned(images[it + 1..], width, height, referenced).0;
        assert images[..it] + ([candidate] + later) == images[..it + 1] + later;
        if Fits(candidate, width, height) {
          if candidate.id !in referenced {
            assert images[..it] + images[it..] == images;
            return candidate;
          }
          it := it + 1;
        } else if candidate.id !in referenced {
          ghost var was := images;
          images := images[..it] + images[it + 1..];
          assert images[..it] == was[..it] && images[it..] == was[it + 1..];
        } else {
          it := it + 1;
        }
      }
      assert images[..it] + [] == images && images[it..] == [];
      image := Image(created, width, height);
      images := images + [image];
      created := created + 1;
    }
  }
}
