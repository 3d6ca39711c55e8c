/** Controller port assignment: a greedy matching of saved identities to connected controllers. */
module Ports {
  import opened Wrappers

  const PORTS := 4

  const SCORE_VID_PID := 1
  const SCORE_GUID := 2
  const SCORE_SLOT := 1
  const SCORE_PATH := 2

  datatype Identity = Identity(guid: string, serial: string, path: string, slot: int)

  datatype Preference = Unset | NoController | Saved(identity: Identity)

  /** A connected controller: who it is, and the port it plays on (-1: none). */
  datatype Controller = Controller(identity: Identity, player: int)

  datatype Candidate = Candidate(score: int, port: nat, instance: nat)

  /** Vendor and product as the device library reads them out of a GUID. */
  type VidPid = string -> (nat, nat)

  // ---- Scores ---------------------------------------------------------------------------------------------

  /** Serials are kept normalized; an absent one matches nothing. */
  predicate SerialMatches(saved: string, current: string) {
    saved != "" && current != "" && saved == current
  }

  /** 0 is no match; `vidPid` reads vendor and product out of a GUID. */
  function IdentityScore(saved: Identity, current: Identity, vidPid: VidPid): (score: nat)
    ensures score <= SCORE_GUID + SCORE_PATH + SCORE_SLOT
  {
    if saved.guid == "" then 0
    else if saved.guid == current.guid then
      if saved.serial != "" && !SerialMatches(saved.serial, current.serial) then 0
      else
        SCORE_GUID + (if saved.path != "" && saved.path == current.path then SCORE_PATH else 0)
        + (if saved.slot >= 0 && saved.slot == current.slot then SCORE_SLOT else 0)
    else if !SerialMatches(saved.serial, current.serial) then 0
    else if vidPid(saved.guid).0 != 0 && vidPid(saved.guid) == vidPid(current.guid) && vidPid(saved.guid).1 != 0
    then SCORE_VID_PID
    else 0
  }

  /** The order the scores stand for: a match by GUID beats one by vendor and product, among GUID
      matches the saved path decides, and then the saved slot. */
  lemma ScoreOrder(saved: Identity, a: Identity, b: Identity, vidPid: VidPid)
    requires IdentityScore(saved, a, vidPid) > 0 && IdentityScore(saved, b, vidPid) > 0
    ensures saved.guid == a.guid && saved.guid != b.guid ==> IdentityScore(saved, a, vidPid) > IdentityScore(saved, b, vidPid)
    ensures saved.guid == a.guid == b.guid && saved.path != "" && saved.path == a.path && saved.path != b.path
            ==> IdentityScore(saved, a, vidPid) > IdentityScore(saved, b, vidPid)
    ensures saved.guid == a.guid == b.guid && a.path == b.path && saved.slot >= 0 && saved.slot == a.slot && saved.slot != b.slot
            ==> IdentityScore(saved, a, vidPid) > IdentityScore(saved, b, vidPid)
  {}

  /** A saved serial never matches another one, and an empty saved GUID matches nobody. */
  lemma ScoreRefuses(saved: Identity, current: Identity, vidPid: VidPid)
    ensures saved.guid == "" ==> IdentityScore(saved, current, vidPid) == 0
    ensures saved.serial != "" && saved.serial != current.serial ==> IdentityScore(saved, current, vidPid) == 0
  {}

  /** When a saved identity matches at all: the GUID with no other serial, or - the GUID changed - the
      serial together with vendor and product. The first is worth at least a GUID, the second less. */
  lemma ScoreMatches(saved: Identity, current: Identity, vidPid: VidPid)
    ensures var score := IdentityScore(saved, current, vidPid);
            var sameSerial := saved.serial != "" && saved.serial == current.serial;
            var (vendor, product) := vidPid(saved.guid);
            && (score >= SCORE_GUID <==> saved.guid != "" && saved.guid == current.guid && (saved.serial == "" || sameSerial))
            && (0 < score < SCORE_GUID <==>
                  saved.guid != "" && saved.guid != current.guid && sameSerial && vendor != 0 && product != 0
                  && vidPid(current.guid) == (vendor, product))
  {}

  // ---- Order ------------------------------------------------------------------------------------------------

  /** Best score first, then the lower port, then the lower instance. */
  predicate Before(a: Candidate, b: Candidate) {
    if a.score != b.score then a.score > b.score
    else if a.port != b.port then a.port < b.port else a.instance < b.instance
  }

  predicate Sorted(cs: seq<Candidate>) {
    forall i, j | 0 <= i < j < |cs| :: !Before(cs[j], cs[i])
  }

  function Inserted(cs: seq<Candidate>, c: Candidate): (r: seq<Candidate>)
    requires Sorted(cs)
    ensures Sorted(r) && multiset(r) == multiset(cs) + multiset{c}
  {
    if cs == [] then [c]
    else if Before(cs[|cs| - 1], c) || cs[|cs| - 1] == c then
      SortedEnd(cs, c);
      cs + [c]
    else
      var init, last := cs[..|cs| - 1], cs[|cs| - 1];
      var rest := Inserted(init, c);
      assert cs == init + [last];
      InsertedBefore(init, c, last, rest);
      rest + [last]
  }

  lemma SortedEnd(cs: seq<Candidate>, c: Candidate)
    requires Sorted(cs) && cs != [] && !Before(c, cs[|cs| - 1])
    ensures Sorted(cs + [c]) && multiset(cs + [c]) == multiset(cs) + multiset{c}
  {
    forall i | 0 <= i < |cs| ensures !Before(c, cs[i]) {
      if i < |cs| - 1 {
        assert !Before(cs[|cs| - 1], cs[i]);
      }
    }
  }

  lemma InsertedBefore(init: seq<Candidate>, c: Candidate, last: Candidate, rest: seq<Candidate>)
    requires Sorted(init + [last]) && Before(c, last) && Sorted(rest) && multiset(rest) == multiset(init) + multiset{c}
    ensures Sorted(rest + [last]) && multiset(rest + [last]) == multiset(init + [last]) + multiset{c}
  {
    forall i | 0 <= i < |rest| ensures !Before(last, rest[i]) {
      assert rest[i] in multiset(rest);
      if rest[i] != c {
        assert rest[i] in init;
        var k :| 0 <= k < |init| && init[k] == rest[i];
        assert (init + [last])[k] == rest[i] && (init + [last])[|init|] == last;
      }
    }
  }

  function SortedBy(cs: seq<Candidate>): (r: seq<Candidate>)
    ensures Sorted(r) && multiset(r) == multiset(cs)
  {
    if cs == [] then []
    else
      assert cs == cs[..|cs| - 1] + [cs[|cs| - 1]];
      Inserted(SortedBy(cs[..|cs| - 1]), cs[|cs| - 1])
  }

  /** What sorted means: earlier candidates have the better score, for equal scores the lower port, and for
      the same port the lower instance. */
  lemma {:induction false} SortedOrder(cs: seq<Candidate>, i: nat, j: nat)
    requires i < j < |SortedBy(cs)|
    ensures var (a, b) := (SortedBy(cs)[i], SortedBy(cs)[j]);
            a.score >= b.score && (a.score == b.score ==> a.port <= b.port)
            && (a.score == b.score && a.port == b.port ==> a.instance <= b.instance)
  {
    assert !Before(SortedBy(cs)[j], SortedBy(cs)[i]);
  }

  // ---- Claims --------------------------------------------------------------------------------------------------

  /** Whether an earlier claim took the candidate's port or its controller. */
  predicate Blocked(claims: seq<Candidate>, c: Candidate) {
    exists k | 0 <= k < |claims| :: claims[k].port == c.port || claims[k].instance == c.instance
  }

  function Claims(cs: seq<Candidate>): seq<Candidate> {
    if cs == [] then []
    else
      var earlier, c := Claims(cs[..|cs| - 1]), cs[|cs| - 1];
      if Blocked(earlier, c) then earlier else earlier + [c]
  }

  ghost predicate Matching(claims: seq<Candidate>) {
    forall i, j | 0 <= i < j < |claims| :: claims[i].port != claims[j].port && claims[i].instance != claims[j].instance
  }

  lemma {:induction false} ClaimsAreAMatching(cs: seq<Candidate>)
    ensures Matching(Claims(cs)) && forall i | 0 <= i < |Claims(cs)| :: Claims(cs)[i] in cs
  {
    if cs != [] {
      ClaimsAreAMatching(cs[..|cs| - 1]);
    }
  }

  /** The claims of a prefix are a prefix of the claims. */
  lemma {:induction false} ClaimsExtend(cs: seq<Candidate>, n: nat)
    requires n <= |cs|
    ensures Claims(cs[..n]) <= Claims(cs)
    decreases |cs| - n
  {
    if n < |cs| {
      assert cs[..n + 1][..n] == cs[..n];
      ClaimsExtend(cs, n + 1);
    } else {
      assert cs[..n] == cs;
    }
  }

  /** Nobody is left out for nothing: a candidate is claimed, or one ordered earlier took its port or
      its controller. */
  lemma {:induction false} ClaimsAreMaximal(cs: seq<Candidate>, n: nat)
    requires n < |cs|
    ensures cs[n] in Claims(cs) || Blocked(Claims(cs[..n]), cs[n])
  {
    assert cs[..n + 1][..n] == cs[..n];
    ClaimsExtend(cs, n + 1);
    if !Blocked(Claims(cs[..n]), cs[n]) {
      assert Claims(cs[..n + 1])[|Claims(cs[..n])|] == cs[n];
    }
  }

  lemma LastIsLast(a: seq<Candidate>, c: Candidate)
    requires Sorted(a) && a != [] && c in a
    ensures !Before(a[|a| - 1], c)
  {
    var i :| 0 <= i < |a| && a[i] == c;
    assert i == |a| - 1 || !Before(a[|a| - 1], a[i]);
  }

  lemma SameRest<T>(a: seq<T>, b: seq<T>, last: T)
    requires multiset(a + [last]) == multiset(b + [last])
    ensures multiset(a) == multiset(b)
  {
    assert multiset(a + [last]) - multiset{last} == multiset(a);
    assert multiset(b + [last]) - multiset{last} == multiset(b);
  }

  /** Two orders of the same candidates sort to the same list. */
  lemma {:induction false} SortedIsUnique(a: seq<Candidate>, b: seq<Candidate>)
    requires Sorted(a) && Sorted(b) && multiset(a) == multiset(b)
    ensures a == b
  {
    assert |multiset(a)| == |a| && |multiset(b)| == |b|;
    if a != [] {
      var x, y := a[|a| - 1], b[|b| - 1];
      assert x in multiset(b) && y in multiset(a);
      LastIsLast(a, y);
      LastIsLast(b, x);
      assert a == a[..|a| - 1] + [x] && b == b[..|b| - 1] + [x];
      SameRest(a[..|a| - 1], b[..|b| - 1], x);
      SortedPrefix(a);
      SortedPrefix(b);
      SortedIsUnique(a[..|a| - 1], b[..|b| - 1]);
    }
  }

  lemma SortedPrefix(a: seq<Candidate>)
    requires Sorted(a) && a != []
    ensures Sorted(a[..|a| - 1])
  {}

  predicate Rivals(a: Candidate, b: Candidate) {
    a.port == b.port || a.instance == b.instance
  }

  /** Whether the greedy pass claims the candidate in this position. */
  predicate Claimed(cs: seq<Candidate>, n: nat)
    requires n < |cs|
  {
    !Blocked(Claims(cs[..n]), cs[n])
  }

  /** A candidate is blocked exactly by an earlier claimed rival. */
  lemma {:induction false} BlockedByRival(cs: seq<Candidate>, n: nat, c: Candidate)
    requires n <= |cs|
    ensures Blocked(Claims(cs[..n]), c) <==> exists i :: 0 <= i < n && Claimed(cs, i) && Rivals(cs[i], c)
  {
    if n > 0 {
      BlockedByRival(cs, n - 1, c);
      var earlier := Claims(cs[..n - 1]);
      assert cs[..n][..n - 1] == cs[..n - 1];
      if Claimed(cs, n - 1) {
        assert Claims(cs[..n]) == earlier + [cs[n - 1]];
        BlockedByOneMore(earlier, cs[n - 1], c);
      }
    }
  }

  lemma BlockedByOneMore(claims: seq<Candidate>, last: Candidate, c: Candidate)
    ensures Blocked(claims + [last], c) <==> Blocked(claims, c) || Rivals(last, c)
  {
    var more := claims + [last];
    assert more[|claims|] == last && forall i | 0 <= i < |claims| :: more[i] == claims[i];
  }

  /** A choice of positions without rivals, in which every position left out has an earlier rival. */
  ghost predicate Stable(cs: seq<Candidate>, picked: set<nat>) {
    && (forall n | n in picked :: n < |cs|)
    && (forall i, j | i in picked && j in picked && i < j :: !Rivals(cs[i], cs[j]))
    && (forall n | 0 <= n < |cs| && n !in picked :: exists i :: i in picked && i < n && Rivals(cs[i], cs[n]))
  }

  /** The greedy claims are the only stable choice. */
  lemma {:induction false} ClaimsAreUnique(cs: seq<Candidate>, picked: set<nat>, n: nat)
    requires Stable(cs, picked) && n < |cs|
    ensures n in picked <==> Claimed(cs, n)
    decreases n
  {
    BlockedByRival(cs, n, cs[n]);
    forall i | 0 <= i < n ensures i in picked <==> Claimed(cs, i) {
      ClaimsAreUnique(cs, picked, i);
    }
  }

  function PortsOf(claims: seq<Candidate>): set<nat> {
    set i | 0 <= i < |claims| :: claims[i].port
  }

  predicate Ported(claims: seq<Candidate>) {
    forall i | 0 <= i < |claims| :: claims[i].port < PORTS
  }

  lemma AtMostFour(claims: seq<Candidate>)
    requires Matching(claims) && Ported(claims)
    ensures |claims| <= PORTS
  {
    assert PortsOf(claims) <= {0, 1, 2, 3};
    CountPorts(claims);
    SubsetSize(PortsOf(claims), {0, 1, 2, 3});
  }

  lemma {:induction false} CountPorts(claims: seq<Candidate>)
    requires Matching(claims)
    ensures |PortsOf(claims)| == |claims|
  {
    if claims != [] {
      var last := claims[|claims| - 1];
      CountPorts(claims[..|claims| - 1]);
      assert PortsOf(claims) == PortsOf(claims[..|claims| - 1]) + {last.port};
    }
  }

  lemma {:induction false} SubsetSize(a: set<nat>, b: set<nat>)
    requires a <= b
    ensures |a| <= |b|
  {
    if a != {} {
      var x :| x in a;
      SubsetSize(a - {x}, b - {x});
    }
  }

  // ---- The result ------------------------------------------------------------------------------------------------

  type Preferences = p: seq<Preference> | |p| == PORTS witness seq(PORTS, _ => Unset)

  predicate Configured(p: Preferences, port: int) {
    0 <= port < PORTS && !p[port].Unset?
  }

  /** SDL's own choice of a configured port is taken back before anyone claims. */
  function Evicted(controllers: map<nat, Controller>, p: Preferences): map<nat, Controller> {
    map i | i in controllers ::
      if Configured(p, controllers[i].player) then controllers[i].(player := -1) else controllers[i]
  }

  predicate Connected(claims: seq<Candidate>, controllers: map<nat, Controller>) {
    forall i | 0 <= i < |claims| :: claims[i].instance in controllers
  }

  function Placed(controllers: map<nat, Controller>, claims: seq<Candidate>): (r: map<nat, Controller>)
    requires Connected(claims, controllers)
    ensures r.Keys == controllers.Keys
  {
    if claims == [] then controllers
    else
      var earlier, c := Placed(controllers, claims[..|claims| - 1]), claims[|claims| - 1];
      earlier[c.instance := earlier[c.instance].(player := c.port)]
  }

  lemma {:induction false} PlacedAt(controllers: map<nat, Controller>, claims: seq<Candidate>, instance: nat)
    requires Matching(claims) && instance in controllers && Connected(claims, controllers)
    ensures var r := Placed(controllers, claims);
            && r[instance].identity == controllers[instance].identity
            && (forall i | 0 <= i < |claims| && claims[i].instance == instance :: r[instance].player == claims[i].port)
            && ((forall i | 0 <= i < |claims| :: claims[i].instance != instance) ==> r[instance] == controllers[instance])
  {
    if claims != [] {
      PlacedAt(controllers, claims[..|claims| - 1], instance);
    }
  }

  /** Candidates name connected controllers and ports with a saved identity. */
  predicate CandidateOf(c: Candidate, controllers: map<nat, Controller>, p: Preferences) {
    c.instance in controllers && c.port < PORTS && p[c.port].Saved?
  }

  ghost predicate AllCandidates(claims: seq<Candidate>, controllers: map<nat, Controller>, p: Preferences) {
    Connected(claims, controllers) && forall i | 0 <= i < |claims| :: CandidateOf(claims[i], controllers, p)
  }

  /** After the assignment a port set to None is empty, any configured port has at most one holder -
      the controller that claimed it - and everyone else keeps an unconfigured port or none. */
  lemma {:induction false} ConfiguredPortsAreHeldOnce(controllers: map<nat, Controller>, p: Preferences,
                                                      claims: seq<Candidate>, a: nat, b: nat)
    requires Matching(claims) && AllCandidates(claims, controllers, p)
    requires a in controllers && b in controllers
    ensures var r := Placed(Evicted(controllers, p), claims);
            var port := r[a].player;
            0 <= port < PORTS && p[port] != Unset ==>
              && p[port] != NoController
              && (exists i :: 0 <= i < |claims| && claims[i].instance == a && claims[i].port == port)
              && (r[b].player == port ==> a == b)
  {
    PlacedAt(Evicted(controllers, p), claims, a);
    PlacedAt(Evicted(controllers, p), claims, b);
  }

  // ---- The assignment as it runs ------------------------------------------------------------------------------------

  function Collected(controllers: map<nat, Controller>, p: Preferences, vidPid: VidPid, instance: nat,
                    ports: nat): seq<Candidate>
    requires instance in controllers && ports <= PORTS
  {
    if ports == 0 then []
    else
      Collected(controllers, p, vidPid, instance, ports - 1)
      + (if p[ports - 1].Saved? && IdentityScore(p[ports - 1].identity, controllers[instance].identity, vidPid) > 0
         then [Candidate(IdentityScore(p[ports - 1].identity, controllers[instance].identity, vidPid), ports - 1, instance)]
         else [])
  }

  function CollectedAll(controllers: map<nat, Controller>, p: Preferences, vidPid: VidPid,
                    order: seq<nat>): seq<Candidate>
    requires forall i | i in order :: i in controllers
  {
    if order == [] then []
    else CollectedAll(controllers, p, vidPid, order[..|order| - 1])
         + Collected(controllers, p, vidPid, order[|order| - 1], PORTS)
  }

  lemma {:induction false} CollectedAreCandidates(controllers: map<nat, Controller>, p: Preferences,
                    vidPid: VidPid, order: seq<nat>)
    requires forall i | i in order :: i in controllers
    ensures forall c | c in CollectedAll(controllers, p, vidPid, order) :: CandidateOf(c, controllers, p)
  {
    if order != [] {
      CollectedAreCandidates(controllers, p, vidPid, order[..|order| - 1]);
      var last := order[|order| - 1];
      forall n: nat | n <= PORTS
        ensures forall c | c in Collected(controllers, p, vidPid, last, n) :: CandidateOf(c, controllers, p)
      {
        OneControllersCandidates(controllers, p, vidPid, last, n);
      }
    }
  }

  /** Exactly the connected controllers and saved ports that match at all become candidates. */
  lemma {:induction false} CandidatesAreTheMatches(controllers: map<nat, Controller>, p: Preferences, vidPid: VidPid,
                                                   order: seq<nat>, c: Candidate)
    requires forall i | i in order :: i in controllers
    ensures c in CollectedAll(controllers, p, vidPid, order) <==>
            && c.instance in order && c.port < PORTS && p[c.port].Saved?
            && c.score == IdentityScore(p[c.port].identity, controllers[c.instance].identity, vidPid) && c.score > 0
  {
    if order != [] {
      CandidatesAreTheMatches(controllers, p, vidPid, order[..|order| - 1], c);
      MatchesOfOne(controllers, p, vidPid, order[|order| - 1], PORTS, c);
    }
  }

  lemma {:induction false} MatchesOfOne(controllers: map<nat, Controller>, p: Preferences, vidPid: VidPid,
                                        instance: nat, ports: nat, c: Candidate)
    requires instance in controllers && ports <= PORTS
    ensures c in Collected(controllers, p, vidPid, instance, ports) <==>
            && c.instance == instance && c.port < ports && p[c.port].Saved?
            && c.score == IdentityScore(p[c.port].identity, controllers[instance].identity, vidPid) && c.score > 0
  {
    if ports > 0 {
      MatchesOfOne(controllers, p, vidPid, instance, ports - 1, c);
    }
  }

  lemma MultisetWithout<T>(s: seq<T>, k: nat)
    requires k < |s|
    ensures multiset(s[..k] + s[k + 1..] + [s[k]]) == multiset(s)
  {
    assert s == s[..k] + [s[k]] + s[k + 1..];
  }

  /** Where the last element of one order stands in the other. */
  lemma LastFound<T>(a: seq<T>, b: seq<T>) returns (k: nat)
    requires a != [] && multiset(a) == multiset(b)
    ensures k < |b| && b[k] == a[|a| - 1] && multiset(b[..k] + b[k + 1..]) == multiset(a[..|a| - 1])
  {
    var n := |a| - 1;
    assert a[n] in multiset(b);
    k :| 0 <= k < |b| && b[k] == a[n];
    MultisetWithout(a, n);
    MultisetWithout(b, k);
    assert a[..n] + a[n + 1..] == a[..n];
    SameRest(a[..n], b[..k] + b[k + 1..], a[n]);
  }

  lemma WithoutPrefix<T>(s: seq<T>, k: nat)
    requires k < |s| - 1
    ensures var n := |s| - 1; var rest := s[..k] + s[k + 1..];
            |rest| == n && rest[..n - 1] == s[..n][..k] + s[..n][k + 1..] && rest[n - 1] == s[n]
  {}

  /** Leaving one controller out leaves its candidates out. */
  lemma {:induction false} CollectedWithout(controllers: map<nat, Controller>, p: Preferences, vidPid: VidPid,
                                            order: seq<nat>, k: nat)
    requires k < |order| && forall i | i in order :: i in controllers
    ensures forall i | i in order[..k] + order[k + 1..] :: i in controllers
    ensures multiset(CollectedAll(controllers, p, vidPid, order))
            == multiset(CollectedAll(controllers, p, vidPid, order[..k] + order[k + 1..]))
               + multiset(Collected(controllers, p, vidPid, order[k], PORTS))
  {
    var n := |order| - 1;
    var rest := order[..k] + order[k + 1..];
    forall i | i in rest ensures i in order {}
    if k == n {
      assert rest == order[..n];
    } else {
      WithoutPrefix(order, k);
      CollectedWithout(controllers, p, vidPid, order[..n], k);
      var fewer := CollectedAll(controllers, p, vidPid, rest[..n - 1]);
      var last := Collected(controllers, p, vidPid, order[n], PORTS);
      assert CollectedAll(controllers, p, vidPid, rest) == fewer + last;
      assert multiset(fewer + last) == multiset(fewer) + multiset(last);
    }
  }

  /** The map of controllers is visited in an order of its own, and it does not matter: every order of
      the same controllers leads to the same claims. */
  lemma {:induction false} ClaimsIgnoreOrder(controllers: map<nat, Controller>, p: Preferences, vidPid: VidPid,
                                             order: seq<nat>,
                          order': seq<nat>)
    requires multiset(order) == multiset(order') && forall i | i in order :: i in controllers
    ensures forall i | i in order' :: i in controllers
    ensures Claims(SortedBy(CollectedAll(controllers, p, vidPid, order)))
            == Claims(SortedBy(CollectedAll(controllers, p, vidPid, order')))
  {
    forall i | i in order' ensures i in controllers {
      assert i in multiset(order);
    }
    CollectedPermutes(controllers, p, vidPid, order, order');
    SortedIsUnique(SortedBy(CollectedAll(controllers, p, vidPid, order)),
                   SortedBy(CollectedAll(controllers, p, vidPid, order')));
  }

  lemma {:induction false} CollectedPermutes(controllers: map<nat, Controller>, p: Preferences, vidPid: VidPid,
                                             order: seq<nat>, order': seq<nat>)
    requires multiset(order) == multiset(order')
    requires (forall i | i in order :: i in controllers) && forall i | i in order' :: i in controllers
    ensures multiset(CollectedAll(controllers, p, vidPid, order)) == multiset(CollectedAll(controllers, p, vidPid, order'))
  {
    if order == [] {
      assert |multiset(order)| == |multiset(order')|;
    } else {
      var k := LastFound(order, order');
      CollectedWithout(controllers, p, vidPid, order', k);
      CollectedPermutes(controllers, p, vidPid, order[..|order| - 1], order'[..k] + order'[k + 1..]);
      var rest := CollectedAll(controllers, p, vidPid, order[..|order| - 1]);
      var last := Collected(controllers, p, vidPid, order[|order| - 1], PORTS);
      assert multiset(rest + last) == multiset(rest) + multiset(last);
    }
  }

  lemma {:induction false} OneControllersCandidates(controllers: map<nat, Controller>, p: Preferences,
                    vidPid: VidPid, instance: nat, ports: nat)
    requires instance in controllers && ports <= PORTS
    ensures forall c | c in Collected(controllers, p, vidPid, instance, ports) :: CandidateOf(c, controllers, p)
  {
    if ports > 0 {
      OneControllersCandidates(controllers, p, vidPid, instance, ports - 1);
    }
  }

  /** A preference saved before path and slot existed gains them on a GUID match. */
  function Upgraded(saved: Identity, current: Identity, score: int): Identity {
    if score < SCORE_GUID then saved
    else
      var withPath := if saved.path == "" && current.path != "" then saved.(path := current.path) else saved;
      if withPath.slot < 0 && current.slot >= 0 then withPath.(slot := current.slot) else withPath
  }

  /** Filling in path and slot only ever strengthens the match with the controller that claimed. */
  lemma UpgradeNeverLowersTheMatch(saved: Identity, current: Identity, vidPid: VidPid)
    ensures var score := IdentityScore(saved, current, vidPid);
            && IdentityScore(Upgraded(saved, current, score), current, vidPid) >= score
            && Upgraded(saved, current, score).guid == saved.guid
            && (saved.path != "" ==> Upgraded(saved, current, score).path == saved.path)
            && (saved.slot >= 0 ==> Upgraded(saved, current, score).slot == saved.slot)
            && (score < SCORE_GUID ==> Upgraded(saved, current, score) == saved)
  {}

  /** What a claim leaves in its preference, field by field: a GUID match fills in what was missing and the
      controller has, and nothing else ever changes. */
  lemma UpgradeFillsIn(saved: Identity, current: Identity, vidPid: VidPid)
    requires IdentityScore(saved, current, vidPid) > 0
    ensures var now := Upgraded(saved, current, IdentityScore(saved, current, vidPid));
            var known := saved.guid == current.guid;
            && now.guid == saved.guid && now.serial == saved.serial
            && now.path == (if known && saved.path == "" then current.path else saved.path)
            && now.slot == (if known && saved.slot < 0 && current.slot >= 0 then current.slot else saved.slot)
  {}

  /** The preferences after the claims: each claimed port's identity is upgraded from its controller. */
  function Filled(p: Preferences, controllers: map<nat, Controller>, claims: seq<Candidate>): (r: Preferences)
    requires AllCandidates(claims, controllers, p)
    ensures SameStates(p, r)
  {
    if claims == [] then p
    else
      var earlier, c := Filled(p, controllers, claims[..|claims| - 1]), claims[|claims| - 1];
      assert CandidateOf(c, controllers, p);
      earlier[c.port := Saved(Upgraded(earlier[c.port].identity, controllers[c.instance].identity, c.score))]
  }

  /** A port is upgraded from the controller that claimed it, and a port nobody claimed keeps its preference. */
  lemma {:induction false} FilledAt(p: Preferences, controllers: map<nat, Controller>, claims: seq<Candidate>,
                                    port: nat)
    requires Matching(claims) && AllCandidates(claims, controllers, p) && port < PORTS
    ensures var r := Filled(p, controllers, claims);
            && (forall i | 0 <= i < |claims| && claims[i].port == port ::
                  CandidateOf(claims[i], controllers, p)
                  && r[port] == Saved(Upgraded(p[port].identity, controllers[claims[i].instance].identity, claims[i].score)))
            && ((forall i | 0 <= i < |claims| :: claims[i].port != port) ==> r[port] == p[port])
  {
    if claims != [] {
      FilledAt(p, controllers, claims[..|claims| - 1], port);
      assert CandidateOf(claims[|claims| - 1], controllers, p);
    }
  }

  lemma {:induction false} FilledNext(p: Preferences, controllers: map<nat, Controller>, claims: seq<Candidate>,
                                      c: Candidate)
    requires AllCandidates(claims, controllers, p) && CandidateOf(c, controllers, p)
    ensures AllCandidates(claims + [c], controllers, p)
    ensures var earlier := Filled(p, controllers, claims);
            earlier[c.port].Saved?
            && Filled(p, controllers, claims + [c])
               == earlier[c.port := Saved(Upgraded(earlier[c.port].identity, controllers[c.instance].identity, c.score))]
  {
    assert (claims + [c])[..|claims|] == claims;
  }

  /** Who claims nothing keeps his place, unless his port is configured; then he has none. Identities never
      change. */
  lemma {:induction false} EveryoneElseStays(controllers: map<nat, Controller>, p: Preferences,
                                             claims: seq<Candidate>, a: nat)
    requires Matching(claims) && AllCandidates(claims, controllers, p) && a in controllers
    ensures var r := Placed(Evicted(controllers, p), claims);
            && r[a].identity == controllers[a].identity
            && (forall i | 0 <= i < |claims| && claims[i].instance == a :: r[a].player == claims[i].port)
            && ((forall i | 0 <= i < |claims| :: claims[i].instance != a) ==>
                  var was := controllers[a].player;
                  r[a].player == if 0 <= was < PORTS && p[was] != Unset then -1 else was)
  {
    PlacedAt(Evicted(controllers, p), claims, a);
  }

  predicate SameStates(was: Preferences, now: Preferences) {
    forall port | 0 <= port < PORTS :: (was[port].Saved? <==> now[port].Saved?) && (was[port].Unset? <==> now[port].Unset?)
  }

  /** The claim tables as they stand after some claims. */
  ghost predicate Tables(claims: seq<Candidate>, portClaimed: seq<bool>, claimedInstances: seq<nat>) {
    && |portClaimed| == |claimedInstances| == PORTS && |claims| <= PORTS
    && (forall p | 0 <= p < PORTS :: portClaimed[p] <==> p in PortsOf(claims))
    && (forall k | 0 <= k < |claims| :: claimedInstances[k] == claims[k].instance)
  }

  ghost predicate Holds(instances: seq<nat>, count: nat, instance: nat)
    requires count <= |instances|
  {
    exists k :: 0 <= k < count && instances[k] == instance
  }

  lemma TablesDecide(claims: seq<Candidate>, portClaimed: seq<bool>, claimedInstances: seq<nat>, c: Candidate)
    requires Tables(claims, portClaimed, claimedInstances) && c.port < PORTS
    ensures Blocked(claims, c) <==>
            portClaimed[c.port] || Holds(claimedInstances, |claims|, c.instance)
  {
    if k :| 0 <= k < |claims| && claims[k].instance == c.instance {
      assert claimedInstances[k] == c.instance;
    }
  }

  lemma TablesExtend(claims: seq<Candidate>, portClaimed: seq<bool>, claimedInstances: seq<nat>, c: Candidate)
    requires Tables(claims, portClaimed, claimedInstances) && c.port < PORTS && |claims| < PORTS
    ensures Tables(claims + [c], portClaimed[c.port := true], claimedInstances[|claims| := c.instance])
  {
    forall p ensures p in PortsOf(claims + [c]) <==> p in PortsOf(claims) || p == c.port {
      assert (claims + [c])[|claims|] == c && forall k | 0 <= k < |claims| :: (claims + [c])[k] == claims[k];
      if p in PortsOf(claims) {
        var k :| 0 <= k < |claims| && claims[k].port == p;
        assert (claims + [c])[k].port == p;
      }
    }
  }

  lemma ClaimsStep(cs: seq<Candidate>, n: nat)
    requires n < |cs|
    ensures var earlier := Claims(cs[..n]);
            Claims(cs[..n + 1]) == if Blocked(earlier, cs[n]) then earlier else earlier + [cs[n]]
  {
    assert cs[..n + 1][..n] == cs[..n];
  }

  lemma CandidatesExtend(claims: seq<Candidate>, controllers: map<nat, Controller>, p: Preferences, c: Candidate)
    requires AllCandidates(claims, controllers, p) && CandidateOf(c, controllers, p)
    ensures AllCandidates(claims + [c], controllers, p)
  {}

  lemma {:induction false} PlacedNext(controllers: map<nat, Controller>, claims: seq<Candidate>, c: Candidate)
    requires Connected(claims, controllers) && c.instance in controllers
    ensures Connected(claims + [c], controllers)
    ensures var earlier := Placed(controllers, claims);
            Placed(controllers, claims + [c]) == earlier[c.instance := earlier[c.instance].(player := c.port)]
  {
    assert (claims + [c])[..|claims|] == claims;
  }

  lemma {:induction false} PlacedIdentity(controllers: map<nat, Controller>, claims: seq<Candidate>, instance: nat)
    requires instance in controllers && Connected(claims, controllers)
    ensures Placed(controllers, claims)[instance].identity == controllers[instance].identity
  {
    if claims != [] {
      PlacedIdentity(controllers, claims[..|claims| - 1], instance);
    }
  }

  class PortAssignment {
    var controllers: map<nat, Controller>
    var preferences: Preferences

    constructor (controllers: map<nat, Controller>, preferences: Preferences)
      ensures this.controllers == controllers && this.preferences == preferences
    {
      this.controllers, this.preferences := controllers, preferences;
    }

    /** Takes configured ports back, then lets the sorted candidates claim. `order` is the hash map's
        own iteration order. */
    method ApplyPortPreferences(order: seq<nat>, vidPid: VidPid) returns (claimed: seq<Candidate>)
      requires forall i :: i in order <==> i in controllers
      modifies this
      ensures (forall port | 0 <= port < PORTS :: old(preferences)[port].Unset?) ==>
                claimed == [] && controllers == old(controllers) && preferences == old(preferences)
      ensures (exists port | 0 <= port < PORTS :: !old(preferences)[port].Unset?) ==>
                var evicted := Evicted(old(controllers), old(preferences));
                && claimed == Claims(SortedBy(CollectedAll(evicted, old(preferences), vidPid, order)))
                && AllCandidates(claimed, evicted, old(preferences))
                && |claimed| <= PORTS && controllers == Placed(evicted, claimed)
                && preferences == Filled(old(preferences), evicted, claimed)
      ensures SameStates(old(preferences), preferences)
    {
      if forall port | 0 <= port < PORTS :: preferences[port].Unset? {
        return [];
      }
      var evicted := Evicted(controllers, preferences);
      controllers := evicted;
      CollectedAreCandidates(evicted, preferences, vidPid, order);
      var cs := SortedBy(CollectedAll(evicted, preferences, vidPid, order));
      forall i | 0 <= i < |cs| ensures CandidateOf(cs[i], evicted, preferences) {
        assert cs[i] in multiset(cs);
      }
      claimed := Claim(cs);
    }

    /** The claiming loop over the two fixed-size claim tables, which it never overruns. */
    method Claim(cs: seq<Candidate>) returns (claimed: seq<Candidate>)
      requires forall i | 0 <= i < |cs| :: CandidateOf(cs[i], controllers, preferences)
      modifies this
      ensures claimed == Claims(cs) && |claimed| <= PORTS
      ensures AllCandidates(claimed, old(controllers), old(preferences))
      ensures controllers == Placed(old(controllers), claimed)
      ensures preferences == Filled(old(preferences), old(controllers), claimed)
      ensures SameStates(old(preferences), preferences)
    {
      var portClaimed := new bool[PORTS](_ => false);
      var claimedInstances := new nat[PORTS](_ => 0);
      claimed := [];
      for n := 0 to |cs|
        invariant claimed == Claims(cs[..n])
        invariant AllCandidates(claimed, old(controllers), old(preferences))
        invariant Tables(claimed, portClaimed[..], claimedInstances[..])
        invariant controllers == Placed(old(controllers), claimed)
        invariant preferences == Filled(old(preferences), old(controllers), claimed)
      {
        ClaimsStep(cs, n);
        ClaimsAreAMatching(cs[..n + 1]);
        PlacedNext(old(controllers), claimed, cs[n]);
        PlacedIdentity(old(controllers), claimed, cs[n].instance);
        FilledNext(old(preferences), old(controllers), claimed, cs[n]);
        CandidatesExtend(claimed, old(controllers), old(preferences), cs[n]);
        claimed := Consider(claimed, cs[n], portClaimed, claimedInstances);
      }
      assert cs[..|cs|] == cs;
    }

    /** One turn of the loop: the candidate claims unless the tables show its port or controller taken. */
    method Consider(claims: seq<Candidate>, c: Candidate, portClaimed: array<bool>, claimedInstances: array<nat>)
      returns (now: seq<Candidate>)
      requires Tables(claims, portClaimed[..], claimedInstances[..])
      requires CandidateOf(c, controllers, preferences) && Ported(claims)
      requires !Blocked(claims, c) ==> Matching(claims + [c])
      modifies this, portClaimed, claimedInstances
      ensures now == if Blocked(claims, c) then claims else claims + [c]
      ensures Tables(now, portClaimed[..], claimedInstances[..])
      ensures controllers == if Blocked(claims, c) then old(controllers)
                             else old(controllers)[c.instance := old(controllers)[c.instance].(player := c.port)]
      ensures preferences == if Blocked(claims, c) then old(preferences)
                             else old(preferences)[c.port := Saved(Upgraded(old(preferences)[c.port].identity,
                                                                            old(controllers)[c.instance].identity, c.score))]
    {
      var controllerTaken := Contains(claimedInstances, |claims|, c.instance);
      TablesDecide(claims, portClaimed[..], claimedInstances[..], c);
      if portClaimed[c.port] || controllerTaken {
        return claims;
      }
      AtMostFour(claims + [c]);
      Record(claims, c, portClaimed, claimedInstances);
      Assign(c);
      now := claims + [c];
    }

    method Record(claims: seq<Candidate>, c: Candidate, portClaimed: array<bool>, claimedInstances: array<nat>)
      requires Tables(claims, portClaimed[..], claimedInstances[..]) && c.port < PORTS && |claims| < PORTS
      modifies portClaimed, claimedInstances
      ensures Tables(claims + [c], portClaimed[..], claimedInstances[..])
    {
      TablesExtend(claims, portClaimed[..], claimedInstances[..], c);
      portClaimed[c.port] := true;
      claimedInstances[|claims|] := c.instance;
    }

    method Assign(c: Candidate)
      requires c.instance in controllers && c.port < PORTS && preferences[c.port].Saved?
      modifies this
      ensures controllers == old(controllers)[c.instance := old(controllers)[c.instance].(player := c.port)]
      ensures preferences == old(preferences)[c.port :=
                Saved(Upgraded(old(preferences)[c.port].identity, old(controllers)[c.instance].identity, c.score))]
    {
      controllers := controllers[c.instance := controllers[c.instance].(player := c.port)];
      preferences := preferences[c.port :=
        Saved(Upgraded(preferences[c.port].identity, controllers[c.instance].identity, c.score))];
    }

    method Contains(instances: array<nat>, count: nat, instance: nat) returns (found: bool)
      requires count <= instances.Length
      ensures found <==> Holds(instances[..], count, instance)
    {
      for k := 0 to count
        invariant forall i | 0 <= i < k :: instances[i] != instance
      {
        if instances[k] == instance {
          assert instances[..][k] == instance;
          return true;
        }
      }
      found := false;
    }
  }
}
