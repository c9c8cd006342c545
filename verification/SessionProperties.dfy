/**
  What the store promises over whole sequences of operations: the index agrees with the
  lists, cleaning loses nothing it should keep, and deliveries in any order leave the
  strict left-to-right maxima.
 */
module SessionProperties {
  import opened Options
  import opened Sessions

  // ---------------------------------------------------------------------------
  // Cleaning

  /** `e` is expired and every older entry of its list is not. */
  ghost predicate OldestExpired(s: Store, e: Stamped, min: Time) {
    && Holds(s, e) && e.session.expiry < min
    && forall f :: Holds(s, f) && f.stamp.peer == e.stamp.peer && f.stamp.serial < e.stamp.serial ==>
         f.session.expiry >= min
  }

  /** A pass takes from each list its oldest expired entry, and nothing else. */
  lemma CleanPassRemovesOldestExpired(s: Store, min: Time, e: Stamped)
    requires WellKept(s)
    ensures Holds(CleanPass(s, min), e) <==> Holds(s, e) && !OldestExpired(s, e, min)
    ensures WellKept(CleanPass(s, min))
  {
    forall p | p in s.lists
      ensures OfPeer(DropFirst(s.lists[p], min), p) && Increasing(DropFirst(s.lists[p], min))
    {
      if FirstExpired(s.lists[p], min) < |s.lists[p]| {
        WithoutKeeps(s.lists[p], FirstExpired(s.lists[p], min), p);
      }
    }
    var l := Entries(s, e.stamp.peer);
    var i := FirstExpired(l, min);
    if e.stamp.peer in s.lists && i < |l| {
      WithoutKeeps(l, i, e.stamp.peer);
      if e == l[i] {
        forall f | Holds(s, f) && f.stamp.peer == e.stamp.peer && f.stamp.serial < e.stamp.serial
          ensures !Expired(f, min)
        {
          var k :| 0 <= k < |l| && l[k] == f;
          assert k < i;
        }
      } else if Holds(s, e) && Expired(e, min) {
        var k :| 0 <= k < |l| && l[k] == e;
        assert i < k && l[i].stamp.peer == e.stamp.peer;
        assert Holds(s, l[i]);
      }
    }
  }

  lemma OldestExpiredIsDropped(s: Store, min: Time, e: Stamped)
    requires WellKept(s) && OldestExpired(s, e, min)
    ensures e.session.id in DroppedIds(s, s.lists.Keys, min)
  {
    var l := s.lists[e.stamp.peer];
    var i := FirstExpired(l, min);
    var k :| 0 <= k < |l| && l[k] == e;
    assert i <= k && Holds(s, l[i]);
    assert l[i] == e;
  }

  lemma OlderThanFirstExpired(l: seq<Stamped>, min: Time, f: Stamped)
    requires Increasing(l) && FirstExpired(l, min) < |l|
    requires f in l && f.stamp.serial < l[FirstExpired(l, min)].stamp.serial
    ensures !Expired(f, min)
  {
    var k :| 0 <= k < |l| && l[k] == f;
    assert k < FirstExpired(l, min);
  }

  lemma FirstExpiredIsOldest(s: Store, min: Time, p: string)
    requires WellKept(s) && p in s.lists && FirstExpired(s.lists[p], min) < |s.lists[p]|
    ensures OldestExpired(s, s.lists[p][FirstExpired(s.lists[p], min)], min)
  {
    var l := s.lists[p];
    var e := l[FirstExpired(l, min)];
    assert e.stamp.peer == p && e in l && Increasing(l);
    forall f | Holds(s, f) && f.stamp.peer == p && f.stamp.serial < e.stamp.serial
      ensures !Expired(f, min)
    {
      OlderThanFirstExpired(l, min, f);
    }
  }

  lemma DroppedIsOldestExpired(s: Store, min: Time, id: string) returns (e: Stamped)
    requires WellKept(s) && id in DroppedIds(s, s.lists.Keys, min)
    ensures OldestExpired(s, e, min) && e.session.id == id
  {
    var p :| p in s.lists && FirstExpired(s.lists[p], min) < |s.lists[p]|
             && s.lists[p][FirstExpired(s.lists[p], min)].session.id == id;
    FirstExpiredIsOldest(s, min, p);
    e := s.lists[p][FirstExpired(s.lists[p], min)];
  }

  lemma CleanPassKeepsIndexSound(s: Store, min: Time)
    requires WellKept(s) && IndexSound(s)
    ensures IndexSound(CleanPass(s, min))
  {
    var t := CleanPass(s, min);
    forall id | id in t.lookup
      ensures t.lookup[id].id == id && exists u: Stamp :: Holds(t, Stamped(t.lookup[id], u))
    {
      var u: Stamp :| Holds(s, Stamped(s.lookup[id], u));
      var e := Stamped(s.lookup[id], u);
      CleanPassRemovesOldestExpired(s, min, e);
      if OldestExpired(s, e, min) {
        OldestExpiredIsDropped(s, min, e);
      }
      assert Holds(t, Stamped(t.lookup[id], u));
    }
  }

  function Kept(l: seq<Stamped>, min: Time): seq<Stamped> {
    if l == [] then []
    else if Expired(l[0], min) then Kept(l[1..], min)
    else [l[0]] + Kept(l[1..], min)
  }

  function ExpiredCount(l: seq<Stamped>, min: Time): nat {
    if l == [] then 0 else (if Expired(l[0], min) then 1 else 0) + ExpiredCount(l[1..], min)
  }

  lemma WithoutStep(l: seq<Stamped>, i: nat)
    requires 0 < i < |l|
    ensures Without(l, i) == [l[0]] + Without(l[1..], i - 1)
  {
    assert l[..i] == [l[0]] + l[1..][..i - 1];
    assert l[i + 1..] == l[1..][i..];
  }

  lemma DropFirstStep(l: seq<Stamped>, min: Time)
    requires l != []
    ensures DropFirst(l, min) == if Expired(l[0], min) then l[1..] else [l[0]] + DropFirst(l[1..], min)
  {
    var i := FirstExpired(l, min);
    if Expired(l[0], min) {
      assert Without(l, 0) == l[1..];
    } else if i < |l| {
      WithoutStep(l, i);
    }
  }

  lemma {:induction false} DropFirstCounts(l: seq<Stamped>, min: Time)
    ensures Kept(DropFirst(l, min), min) == Kept(l, min)
    ensures ExpiredCount(DropFirst(l, min), min) ==
            if ExpiredCount(l, min) > 0 then ExpiredCount(l, min) - 1 else 0
  {
    if l != [] {
      DropFirstStep(l, min);
      if !Expired(l[0], min) {
        var m := DropFirst(l[1..], min);
        DropFirstCounts(l[1..], min);
        assert ([l[0]] + m)[1..] == m;
      }
    }
  }

  lemma CleanPassEntries(s: Store, min: Time, p: string)
    ensures Entries(CleanPass(s, min), p) == DropFirst(Entries(s, p), min)
  {}

  function Passes(s: Store, min: Time, n: nat): Store
    decreases n
  {
    if n == 0 then s else Passes(CleanPass(s, min), min, n - 1)
  }

  function DropN(l: seq<Stamped>, min: Time, n: nat): seq<Stamped>
    decreases n
  {
    if n == 0 then l else DropN(DropFirst(l, min), min, n - 1)
  }

  lemma {:induction false} PassesEntries(s: Store, min: Time, n: nat, p: string)
    ensures Entries(Passes(s, min, n), p) == DropN(Entries(s, p), min, n)
    decreases n
  {
    if n > 0 {
      CleanPassEntries(s, min, p);
      PassesEntries(CleanPass(s, min), min, n - 1, p);
    }
  }

  lemma {:induction false} DropNCounts(l: seq<Stamped>, min: Time, n: nat)
    ensures Kept(DropN(l, min, n), min) == Kept(l, min)
    ensures ExpiredCount(DropN(l, min, n), min) ==
            if ExpiredCount(l, min) > n then ExpiredCount(l, min) - n else 0
    decreases n
  {
    if n > 0 {
      DropFirstCounts(l, min);
      DropNCounts(DropFirst(l, min), min, n - 1);
    }
  }

  /** `n` passes take `n` expired entries off every list that has as many, and keep the rest. */
  lemma PassesCount(s: Store, min: Time, n: nat, p: string)
    ensures Kept(Entries(Passes(s, min, n), p), min) == Kept(Entries(s, p), min)
    ensures ExpiredCount(Entries(Passes(s, min, n), p), min) ==
            if ExpiredCount(Entries(s, p), min) > n then ExpiredCount(Entries(s, p), min) - n else 0
  {
    PassesEntries(s, min, n, p);
    DropNCounts(Entries(s, p), min, n);
  }

  predicate NoneExpired(l: seq<Stamped>, min: Time) {
    forall e :: e in l ==> !Expired(e, min)
  }

  lemma {:induction false} CountZero(l: seq<Stamped>, min: Time)
    ensures ExpiredCount(l, min) == 0 <==> NoneExpired(l, min)
  {
    if l != [] {
      CountZero(l[1..], min);
      assert forall e :: e in l <==> e == l[0] || e in l[1..];
    }
  }

  /** No expired entry of `p` is left after `n` passes. */
  predicate DoneFor(s: Store, min: Time, n: nat, p: string) {
    NoneExpired(Entries(Passes(s, min, n), p), min)
  }

  predicate AtMost(s: Store, min: Time, n: nat, p: string) {
    ExpiredCount(Entries(s, p), min) <= n
  }

  lemma DoneForExact(s: Store, min: Time, n: nat, p: string)
    ensures DoneFor(s, min, n, p) <==> AtMost(s, min, n, p)
  {
    PassesCount(s, min, n, p);
    CountZero(Entries(Passes(s, min, n), p), min);
  }

  /** Passes at a fixed cut-off are done exactly when there were as many as any list had expired entries. */
  lemma PassesDone(s: Store, min: Time, n: nat)
    ensures (forall p :: DoneFor(s, min, n, p)) <==> (forall p :: AtMost(s, min, n, p))
  {
    forall p ensures DoneFor(s, min, n, p) <==> AtMost(s, min, n, p) {
      DoneForExact(s, min, n, p);
    }
  }

  // ---------------------------------------------------------------------------
  // The index against a scan of the lists

  /** An operation on the store; cleaning while sets go on is a mixture of `RemoveOp` and `SetOp`. */
  datatype Op = SetOp(x: Stamped) | RemoveOp(peer: string, i: nat) | CleanOp(min: Time)

  function Do(s: Store, op: Op): Store {
    match op
    case SetOp(x) => Put(s, x).0
    case RemoveOp(p, i) => if i < |Entries(s, p)| then Remove(s, p, i) else s
    case CleanOp(min) => CleanPass(s, min)
  }

  function Exec(s: Store, ops: seq<Op>): Store
    decreases |ops|
  {
    if ops == [] then s else Exec(Do(s, ops[0]), ops[1..])
  }

  lemma DoKeeps(s: Store, op: Op)
    requires WellKept(s) && IndexSound(s)
    ensures WellKept(Do(s, op)) && IndexSound(Do(s, op))
  {
    match op
    case SetOp(x) =>
      SetKeepsOrder(s, x);
      SetKeepsIndexSound(s, x);
    case RemoveOp(p, i) =>
      if i < |Entries(s, p)| {
        RemoveKeeps(s, p, i);
      }
    case CleanOp(min) =>
      CleanPassRemovesOldestExpired(s, min, Stamped(Session("", "", 0), ZERO_STAMP));
      CleanPassKeepsIndexSound(s, min);
  }

  /** After any operations every index entry has a matching list entry, and every list is in order. */
  lemma {:induction false} IndexAlwaysSound(s: Store, ops: seq<Op>)
    requires WellKept(s) && IndexSound(s)
    ensures WellKept(Exec(s, ops)) && IndexSound(Exec(s, ops))
    decreases |ops|
  {
    if ops != [] {
      DoKeeps(s, ops[0]);
      IndexAlwaysSound(Do(s, ops[0]), ops[1..]);
    }
  }

  /** Among the sessions of `u`, distinct stamps carry distinct ids. */
  ghost predicate IdsFollowStamps(u: iset<Stamped>) {
    forall x, y :: x in u && y in u && x.session.id == y.session.id ==> x.stamp == y.stamp
  }

  ghost predicate HeldWithin(s: Store, u: iset<Stamped>) {
    forall e :: Holds(s, e) ==> e in u
  }

  /** Every session that the operations put into the store belongs to `u`. */
  ghost predicate PutsWithin(s: Store, ops: seq<Op>, u: iset<Stamped>)
    decreases |ops|
  {
    ops == [] ||
    ((ops[0].SetOp? ==> Restamp(s, ops[0].x) in u) && PutsWithin(Do(s, ops[0]), ops[1..], u))
  }

  /** In a store within `u`, two entries with one id are one entry. */
  lemma SameIdSameEntry(s: Store, u: iset<Stamped>, e: Stamped, f: Stamped)
    requires WellKept(s) && IdsFollowStamps(u) && HeldWithin(s, u)
    requires Holds(s, e) && Holds(s, f) && e.session.id == f.session.id
    ensures e == f
  {
    var l := s.lists[e.stamp.peer];
    var i :| 0 <= i < |l| && l[i] == e;
    var j :| 0 <= j < |l| && l[j] == f;
    assert !(i < j) && !(j < i);
  }

  /** An accepted session is newer than everything its list already held. */
  lemma AcceptedIsNewer(s: Store, x: Stamped, e: Stamped)
    requires WellKept(s) && Put(s, x).1.Some? && Holds(s, e)
    ensures e.stamp.peer == Restamp(s, x).stamp.peer ==> e.stamp.serial < Restamp(s, x).stamp.serial
  {
    var l := s.lists[e.stamp.peer];
    var i :| 0 <= i < |l| && l[i] == e;
    assert i < |l| - 1 ==> l[i].stamp.serial < l[|l| - 1].stamp.serial;
  }

  lemma SetKeepsComplete(s: Store, x: Stamped, u: iset<Stamped>, e: Stamped)
    requires WellKept(s) && IndexComplete(s) && HeldWithin(s, u) && IdsFollowStamps(u)
    requires Restamp(s, x) in u && Holds(Put(s, x).0, e)
    ensures e in u && Found(Put(s, x).0, e.session)
  {
    SetHolds(s, x, e);
    if Put(s, x).1.Some? && Holds(s, e) {
      AcceptedIsNewer(s, x, e);
    }
  }

  lemma RemoveKeepsComplete(s: Store, p: string, i: nat, u: iset<Stamped>)
    requires WellKept(s) && IndexComplete(s) && HeldWithin(s, u) && IdsFollowStamps(u)
    requires i < |Entries(s, p)|
    ensures IndexComplete(Remove(s, p, i)) && HeldWithin(Remove(s, p, i), u)
  {
    var gone := Entries(s, p)[i];
    assert Holds(s, gone);
    RemoveKeepsIndexComplete(s, p, i);
    forall e | Holds(s, e) && e != gone ensures e.session.id != gone.session.id {
      if e.session.id == gone.session.id {
        SameIdSameEntry(s, u, e, gone);
      }
    }
    forall e | Holds(Remove(s, p, i), e) ensures e in u {
      RemoveHolds(s, p, i, e);
    }
  }

  lemma CleanKeepsComplete(s: Store, min: Time, u: iset<Stamped>, e: Stamped)
    requires WellKept(s) && IndexComplete(s) && HeldWithin(s, u) && IdsFollowStamps(u)
    requires Holds(CleanPass(s, min), e)
    ensures e in u && Found(CleanPass(s, min), e.session)
  {
    CleanPassRemovesOldestExpired(s, min, e);
    if e.session.id in DroppedIds(s, s.lists.Keys, min) {
      var gone := DroppedIsOldestExpired(s, min, e.session.id);
      SameIdSameEntry(s, u, e, gone);
    }
  }

  lemma DoKeepsComplete(s: Store, op: Op, u: iset<Stamped>)
    requires WellKept(s) && IndexComplete(s) && HeldWithin(s, u) && IdsFollowStamps(u)
    requires op.SetOp? ==> Restamp(s, op.x) in u
    ensures IndexComplete(Do(s, op)) && HeldWithin(Do(s, op), u)
  {
    match op
    case SetOp(x) =>
      forall e | Holds(Do(s, op), e)
        ensures e in u && Found(Do(s, op), e.session)
      {
        SetKeepsComplete(s, x, u, e);
      }
    case RemoveOp(p, i) =>
      if i < |Entries(s, p)| {
        RemoveKeepsComplete(s, p, i, u);
      }
    case CleanOp(min) =>
      forall e | Holds(Do(s, op), e)
        ensures e in u && Found(Do(s, op), e.session)
      {
        CleanKeepsComplete(s, min, u, e);
      }
  }

  lemma {:induction false} IndexStaysComplete(s: Store, ops: seq<Op>, u: iset<Stamped>)
    requires WellKept(s) && IndexSound(s) && IndexComplete(s) && HeldWithin(s, u)
    requires IdsFollowStamps(u) && PutsWithin(s, ops, u)
    ensures IndexComplete(Exec(s, ops)) && HeldWithin(Exec(s, ops), u)
    decreases |ops|
  {
    if ops != [] {
      DoKeeps(s, ops[0]);
      DoKeepsComplete(s, ops[0], u);
      IndexStaysComplete(Do(s, ops[0]), ops[1..], u);
    }
  }

  /** With distinct ids, looking an id up is the same as scanning all lists for it. */
  lemma IndexMatchesScan(id: string, ops: seq<Op>, u: iset<Stamped>, key: string, x: Session)
    requires IdsFollowStamps(u) && PutsWithin(Fresh(id), ops, u)
    ensures Lookup(Exec(Fresh(id), ops), key) == Some(x) <==>
            x.id == key && exists t: Stamp :: Holds(Exec(Fresh(id), ops), Stamped(x, t))
  {
    IndexAlwaysSound(Fresh(id), ops);
    IndexStaysComplete(Fresh(id), ops, u);
    var s := Exec(Fresh(id), ops);
    forall t: Stamp | Holds(s, Stamped(x, t)) && x.id == key ensures Lookup(s, key) == Some(x) {
    }
  }

  /** Some list's oldest expired entry, which a pass takes, has this id. */
  ghost predicate IdTaken(s: Store, min: Time, key: string) {
    exists e :: OldestExpired(s, e, min) && e.session.id == key
  }

  /** What a lookup finds after a pass, in any store and whoever shares ids. */
  lemma LookupAfterClean(s: Store, min: Time, key: string)
    requires WellKept(s)
    ensures Lookup(CleanPass(s, min), key) == if IdTaken(s, min, key) then None else Lookup(s, key)
  {
    if key in DroppedIds(s, s.lists.Keys, min) {
      var e := DroppedIsOldestExpired(s, min, key);
      assert IdTaken(s, min, key);
    } else if IdTaken(s, min, key) {
      var e :| OldestExpired(s, e, min) && e.session.id == key;
      OldestExpiredIsDropped(s, min, e);
    }
  }

  /**
    A pass never removes an unexpired session, but a request stops finding it exactly when
    some list's oldest expired entry has the same id.
   */
  lemma UnexpiredHiddenExactly(s: Store, min: Time, f: Stamped)
    requires WellKept(s) && Holds(s, f) && !Expired(f, min) && Found(s, f.session)
    ensures Holds(CleanPass(s, min), f)
    ensures !Found(CleanPass(s, min), f.session) <==> IdTaken(s, min, f.session.id)
  {
    CleanPassRemovesOldestExpired(s, min, f);
    LookupAfterClean(s, min, f.session.id);
  }

  /** With two sessions of one id, the older expired, a pass does hide the unexpired one. */
  lemma SharedIdHidesUnexpired()
    ensures exists a: Stamped, b: Stamped ::
      var s := Put(Put(Fresh("p"), a).0, b).0;
      && !Expired(b, 1) && Holds(s, b) && Found(s, b.session)
      && Holds(CleanPass(s, 1), b) && Lookup(CleanPass(s, 1), b.session.id) == None
  {
    var a := Stamped(Session("k", "old", 0), Stamp("q", 1));
    var b := Stamped(Session("k", "new", 5), Stamp("q", 2));
    var r := Put(Fresh("p"), a).0;
    assert Entries(r, "q") == [a];
    var s := Put(r, b).0;
    assert Entries(s, "q") == [a, b];
    assert FirstExpired([a, b], 1) == 0;
    assert Entries(CleanPass(s, 1), "q") == [b];
    assert "q" in s.lists && "k" in DroppedIds(s, s.lists.Keys, 1);
    assert Holds(s, b) && Holds(CleanPass(s, 1), b);
  }

  /** After a pass the index is complete exactly when every entry it leaves was found and no taken one has its id. */
  lemma CleanKeepsIndexExact(s: Store, min: Time)
    requires WellKept(s)
    ensures IndexComplete(CleanPass(s, min)) <==>
            forall f :: Holds(s, f) && !OldestExpired(s, f, min) ==>
              Found(s, f.session) && !IdTaken(s, min, f.session.id)
  {
    forall f
      ensures Holds(CleanPass(s, min), f) <==> Holds(s, f) && !OldestExpired(s, f, min)
      ensures Found(CleanPass(s, min), f.session) <==> Found(s, f.session) && !IdTaken(s, min, f.session.id)
    {
      CleanPassRemovesOldestExpired(s, min, f);
      LookupAfterClean(s, min, f.session.id);
    }
  }

  /** The store holds another session under the id of `x`. */
  ghost predicate Clashes(s: Store, x: Session) {
    exists e :: Holds(s, e) && e.session.id == x.id && e.session != x
  }

  lemma FoundAfterSet(s: Store, x: Stamped, e: Session)
    ensures var (t, r) := Put(s, x);
      Found(t, e) <==> if r.Some? && e.id == r.value.session.id then e == r.value.session else Found(s, e)
  {}

  /** A set breaks a complete index exactly when it is accepted and another session with its id is held. */
  lemma SetBreaksIndexExactly(s: Store, x: Stamped)
    requires IndexComplete(s)
    ensures !IndexComplete(Put(s, x).0) <==> Put(s, x).1.Some? && Clashes(s, x.session)
  {
    var (t, r) := Put(s, x);
    forall e
      ensures Holds(t, e) <==> Holds(s, e) || r == Some(e)
      ensures Found(t, e.session) <==>
              if r.Some? && e.session.id == x.session.id then e.session == x.session else Found(s, e.session)
    {
      SetHolds(s, x, e);
      FoundAfterSet(s, x, e.session);
    }
  }

  // ---------------------------------------------------------------------------
  // Gaps

  predicate HasSerial(l: seq<Stamped>, n: nat) {
    exists e :: e in l && e.stamp.serial == n
  }

  /** The list has every serial from 1 up to `m`. */
  predicate HasAllUpTo(l: seq<Stamped>, m: nat) {
    forall n :: 1 <= n <= m ==> HasSerial(l, n)
  }

  /** The list without an entry of serial zero, which no replica issues. */
  function Positive(l: seq<Stamped>): seq<Stamped> {
    if l != [] && l[0].stamp.serial == 0 then l[1..] else l
  }

  lemma {:induction false} SerialsGrow(l: seq<Stamped>, i: nat, j: nat)
    requires Increasing(l) && i <= j < |l|
    ensures l[j].stamp.serial - l[i].stamp.serial >= j - i
    decreases j
  {
    if i < j {
      SerialsGrow(l, i, j - 1);
    }
  }

  lemma {:induction false} AllPositiveExactly(l: seq<Stamped>, m: nat)
    requires Increasing(l) && (l != [] ==> l[0].stamp.serial > 0)
    ensures HasAllUpTo(l, m) <==> m <= |l| && (m > 0 ==> l[m - 1].stamp.serial == m)
    decreases m
  {
    if m > 0 && HasAllUpTo(l, m) {
      AllPositiveExactly(l, m - 1);
      assert HasSerial(l, m);
      var j :| 0 <= j < |l| && l[j].stamp.serial == m;
      SerialsGrow(l, 0, j);
      if j < m - 1 {
        SerialsGrow(l, j, m - 2);
      }
    }
    if 0 < m <= |l| && l[m - 1].stamp.serial == m {
      forall n | 1 <= n <= m ensures HasSerial(l, n) {
        SerialsGrow(l, 0, n - 1);
        SerialsGrow(l, n - 1, m - 1);
        assert l[n - 1].stamp.serial == n;
      }
    }
  }

  /** A list has all serials up to `m` exactly when its `m`-th entry, not counting serial zero, is number `m`. */
  lemma NoGapsExactly(l: seq<Stamped>, m: nat)
    requires Increasing(l)
    ensures var ps := Positive(l);
      HasAllUpTo(l, m) <==> m <= |ps| && (m > 0 ==> ps[m - 1].stamp.serial == m)
  {
    var ps := Positive(l);
    assert l != [] && l[0].stamp.serial == 0 ==> l == [l[0]] + ps;
    forall n | n >= 1 ensures HasSerial(l, n) <==> HasSerial(ps, n) {
    }
    AllPositiveExactly(ps, m);
  }

  /** It has all serials up to its last one exactly when it has as many entries as that serial says. */
  lemma CompleteExactly(l: seq<Stamped>)
    requires Increasing(l) && l != [] && l[0].stamp.serial > 0
    ensures HasAllUpTo(l, l[|l| - 1].stamp.serial) <==> |l| == l[|l| - 1].stamp.serial
  {
    AllPositiveExactly(l, l[|l| - 1].stamp.serial);
    SerialsGrow(l, 0, |l| - 1);
  }

  // ---------------------------------------------------------------------------
  // Deliveries

  /** What arrives, one session after the other; refusals are ignored. */
  function Deliver(s: Store, xs: seq<Stamped>): Store {
    if xs == [] then s else Put(Deliver(s, xs[..|xs| - 1]), xs[|xs| - 1]).0
  }

  function FromPeer(xs: seq<Stamped>, peer: string): seq<Stamped> {
    if xs == [] then []
    else FromPeer(xs[..|xs| - 1], peer) + (if xs[|xs| - 1].stamp.peer == peer then [xs[|xs| - 1]] else [])
  }

  /** `xs[i]` has a larger serial than everything before it. */
  predicate Record(xs: seq<Stamped>, i: nat)
    requires i < |xs|
  {
    forall j :: 0 <= j < i ==> xs[j].stamp.serial < xs[i].stamp.serial
  }

  function Records(xs: seq<Stamped>): (r: seq<Stamped>)
    ensures r == [] <==> xs == []
  {
    if xs == [] then []
    else Records(xs[..|xs| - 1]) + (if Record(xs, |xs| - 1) then [xs[|xs| - 1]] else [])
  }

  /** The last maximum is the largest serial, and it was delivered. */
  lemma {:induction false} LastRecord(xs: seq<Stamped>)
    requires xs != []
    ensures Records(xs)[|Records(xs)| - 1] in xs
    ensures forall i :: 0 <= i < |xs| ==> xs[i].stamp.serial <= Records(xs)[|Records(xs)| - 1].stamp.serial
  {
    if |xs| > 1 {
      var ys := xs[..|xs| - 1];
      LastRecord(ys);
      assert xs == ys + [xs[|xs| - 1]];
      if !Record(xs, |xs| - 1) {
        var j :| 0 <= j < |xs| - 1 && xs[j].stamp.serial >= xs[|xs| - 1].stamp.serial;
        assert ys[j] == xs[j];
      } else {
        var m :| 0 <= m < |ys| && ys[m] == Records(ys)[|Records(ys)| - 1];
        assert xs[m] == ys[m];
      }
    }
  }

  /** One more delivery is a new maximum exactly when it exceeds the last one. */
  lemma RecordStep(xs: seq<Stamped>, x: Stamped)
    ensures Records(xs + [x]) ==
            Records(xs) + (if xs == [] || Records(xs)[|Records(xs)| - 1].stamp.serial < x.stamp.serial
                           then [x] else [])
  {
    var ys := xs + [x];
    assert ys[..|ys| - 1] == xs;
    if xs != [] {
      LastRecord(xs);
      var m :| 0 <= m < |xs| && xs[m] == Records(xs)[|Records(xs)| - 1];
      assert ys[m] == xs[m];
      assert forall j :: 0 <= j < |xs| ==> ys[j] == xs[j];
    }
  }

  lemma PutEntries(s: Store, x: Stamped, peer: string)
    requires x.stamp != ZERO_STAMP
    ensures Entries(Put(s, x).0, peer) ==
            Entries(s, peer) + (if x.stamp.peer == peer && !OutOfOrder(s, x.stamp) then [x] else [])
  {}

  lemma DeliverStep(s: Store, x: Stamped, fs: seq<Stamped>, peer: string)
    requires x.stamp != ZERO_STAMP && Entries(s, peer) == Records(fs)
    ensures Entries(Put(s, x).0, peer) == Records(fs + (if x.stamp.peer == peer then [x] else []))
  {
    PutEntries(s, x, peer);
    if x.stamp.peer == peer {
      RecordStep(fs, x);
    } else {
      assert fs + [] == fs;
    }
  }

  /** For any order of deliveries each list is the strict left-to-right maxima of its peer's serials. */
  lemma {:induction false} DeliveriesLeaveRecords(id: string, xs: seq<Stamped>, peer: string)
    requires forall i :: 0 <= i < |xs| ==> xs[i].stamp != ZERO_STAMP
    ensures Entries(Deliver(Fresh(id), xs), peer) == Records(FromPeer(xs, peer))
  {
    if xs != [] {
      var ys, x := xs[..|xs| - 1], xs[|xs| - 1];
      DeliveriesLeaveRecords(id, ys, peer);
      DeliverStep(Deliver(Fresh(id), ys), x, FromPeer(ys, peer), peer);
    }
  }
}
