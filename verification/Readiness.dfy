/**
  When a replica reports ready: all the goroutines of one replica, interleaved in any order
  (replication/worker.go, peers.go, connection.go).
 */
module Readiness {
  import opened Options
  import opened Sessions
  import opened SessionProperties
  import opened Streaming
  import opened Replication

  // ---------------------------------------------------------------------------
  // The state

  /** Where an `update` has got to; `Complete` is a stream that ended by itself with everything accepted. */
  datatype Outcome = Asking | Receiving | UpToDate | Complete | Broken

  /**
    One call of `update`: the connection it runs for, one's own vector and the peer's as
    compared, the vector in the request, what was accepted of the answer so far, and whether
    the live flag has been set.
   */
  datatype Attempt = Attempt(
    conn: nat, mine: Vector, theirs: Vector, from: Vector, got: seq<Stamped>, outcome: Outcome, settled: bool)

  predicate CaughtUp(a: Attempt) {
    a.outcome.UpToDate? || a.outcome.Complete?
  }

  predicate Ended(a: Attempt) {
    !a.outcome.Asking? && !a.outcome.Receiving?
  }

  /** The flags of a connection, its guard, and how many goroutines are inside `reestablish`. */
  datatype Conn = Conn(live: bool, dead: bool, once: bool, recovering: nat)

  /**
    `objs` are the connection objects, `table` those in use by endpoint, `tracked` the ones a
    goroutine has been started for. `gone` are the entries that expired. `closes` counts how
    often the channel was closed, `closed` says whether the closer has run, `alone` whether a
    refresh has found no endpoints.
   */
  datatype Process = Process(
    objs: seq<Conn>, table: map<string, nat>, tracked: set<nat>, attempts: seq<Attempt>,
    store: Store, latest: Vector, gone: set<Stamped>, closes: nat, closed: bool, alone: bool)

  function Initial(id: string): Process {
    Process([], map[], {}, [], Fresh(id), map[], {}, 0, false, false)
  }

  // ---------------------------------------------------------------------------
  // The steps

  datatype Step =
    | Refresh(eps: seq<string>)          // the lookup succeeded with these endpoints
    | Connect(ep: string)                // getConnection, by the worker or by an incoming handshake
    | Track(id: nat)                     // the worker starts a goroutine for a new connection
    | Look(id: nat)                      // that goroutine looks at the flags
    | Compare(id: nat, theirs: Vector)   // update: compare the vectors
    | Ask(n: nat)                        // request a stream with the vector of this moment
    | Receive(n: nat, x: Stamped)        // set one streamed session
    | EndStream(n: nat)                  // the stream ended by itself
    | BreakStream(n: nat)                // it could not be asked for or broke off
    | Settle(n: nat)                     // update sets the live flag
    | Lose(id: nat)                      // somebody calls reestablish
    | Recover(id: nat)                   // it resets the guard and starts a handshake
    | GiveUp(id: nat)                    // it returns because the connection was cancelled
    | Arrive(x: Stamped)                 // a login or a push sets a session
    | Record(e: Stamped)                 // and its stamp is recorded
    | Expire(peer: string, i: nat)       // the cleaner deletes one entry

  ghost predicate Enabled(p: Process, step: Step) {
    match step
    case Refresh(_) => true
    case Connect(_) => true
    case Track(id) => id < |p.objs|
    case Look(id) => id < |p.objs| && id in p.tracked
    case Compare(id, _) => id < |p.objs|
    case Ask(n) => n < |p.attempts| && p.attempts[n].outcome.Asking?
    case Receive(n, _) => n < |p.attempts| && p.attempts[n].outcome.Receiving?
    case EndStream(n) => n < |p.attempts| && p.attempts[n].outcome.Receiving?
    case BreakStream(n) => n < |p.attempts| && !Ended(p.attempts[n])
    case Settle(n) =>
      n < |p.attempts| && Ended(p.attempts[n]) && !p.attempts[n].settled && p.attempts[n].conn < |p.objs|
    case Lose(id) => id < |p.objs|
    case Recover(id) => id < |p.objs| && p.objs[id].recovering > 0
    case GiveUp(id) => id < |p.objs| && p.objs[id].recovering > 0
    case Arrive(_) => true
    case Record(e) => Kept(p, e)
    case Expire(q, i) => i < |Entries(p.store, q)|
  }

  /** `e` was accepted: the store has it, or had it until it expired. */
  predicate Kept(p: Process, e: Stamped) {
    Holds(p.store, e) || e in p.gone
  }

  /** `closer.close`: closing a closed channel would panic, so only the first call does it. */
  function Close(p: Process): Process {
    if p.closed then p else p.(closed := true, closes := p.closes + 1)
  }

  function Kill(objs: seq<Conn>, dropped: set<nat>): (r: seq<Conn>)
    ensures |r| == |objs|
    ensures forall i :: 0 <= i < |r| ==> r[i] == if i in dropped then objs[i].(dead := true) else objs[i]
  {
    seq(|objs|, i requires 0 <= i < |objs| => if i in dropped then objs[i].(dead := true) else objs[i])
  }

  function Received(a: Attempt, r: Option<Stamped>): Attempt {
    if r.Some? then a.(got := a.got + [r.value]) else a.(outcome := Broken)
  }

  ghost function Apply(p: Process, step: Step): Process
    requires Enabled(p, step)
  {
    match step
    case Refresh(eps) =>
      var away := set ep | ep in p.table && ep !in eps;
      var q := p.(objs := Kill(p.objs, set ep | ep in away :: p.table[ep]), table := p.table - away);
      if eps == [] then Close(q.(alone := true)) else q
    case Connect(ep) =>
      if ep in p.table then p
      else p.(objs := p.objs + [Conn(false, false, false, 0)], table := p.table[ep := |p.objs|])
    case Track(id) => p.(tracked := p.tracked + {id})
    case Look(id) => if p.objs[id].live then Close(p) else p
    case Compare(id, theirs) =>
      var outcome := if Behind(p.latest, theirs) then Asking else UpToDate;
      p.(attempts := p.attempts + [Attempt(id, p.latest, theirs, map[], [], outcome, false)])
    case Ask(n) => p.(attempts := p.attempts[n := p.attempts[n].(from := p.latest, outcome := Receiving)])
    case Receive(n, x) =>
      var (t, r) := Put(p.store, x);
      p.(store := t, attempts := p.attempts[n := Received(p.attempts[n], r)])
    case EndStream(n) => p.(attempts := p.attempts[n := p.attempts[n].(outcome := Complete)])
    case BreakStream(n) => p.(attempts := p.attempts[n := p.attempts[n].(outcome := Broken)])
    case Settle(n) =>
      var a := p.attempts[n];
      p.(attempts := p.attempts[n := a.(settled := true)],
         objs := p.objs[a.conn := p.objs[a.conn].(live := CaughtUp(a))])
    case Lose(id) =>
      var c := p.objs[id];
      if c.once then p
      else p.(objs := p.objs[id := c.(once := true, live := false, recovering := c.recovering + 1)])
    case Recover(id) =>
      p.(objs := p.objs[id := p.objs[id].(once := false, recovering := p.objs[id].recovering - 1)])
    case GiveUp(id) => p.(objs := p.objs[id := p.objs[id].(recovering := p.objs[id].recovering - 1)])
    case Arrive(x) => p.(store := Put(p.store, x).0)
    case Record(e) => p.(latest := Raise(p.latest, e.stamp))
    case Expire(q, i) => p.(store := Remove(p.store, q, i), gone := p.gone + {Entries(p.store, q)[i]})
  }

  ghost predicate IsRun(p: Process, steps: seq<Step>)
    decreases |steps|
  {
    steps == [] || (Enabled(p, steps[0]) && IsRun(Apply(p, steps[0]), steps[1..]))
  }

  ghost function After(p: Process, steps: seq<Step>): Process
    requires IsRun(p, steps)
    decreases |steps|
  {
    if steps == [] then p else After(Apply(p, steps[0]), steps[1..])
  }

  /** Some run leads from `p` to `q`. */
  ghost predicate Leads(p: Process, q: Process) {
    exists steps :: IsRun(p, steps) && After(p, steps) == q
  }

  lemma LeadsToItself(p: Process)
    ensures Leads(p, p)
  {
    assert IsRun(p, []) && After(p, []) == p;
  }

  lemma {:induction false} Extend(p: Process, steps: seq<Step>, step: Step)
    requires IsRun(p, steps) && Enabled(After(p, steps), step)
    ensures IsRun(p, steps + [step]) && After(p, steps + [step]) == Apply(After(p, steps), step)
    decreases |steps|
  {
    if steps == [] {
      assert [] + [step] == [step];
    } else {
      Extend(Apply(p, steps[0]), steps[1..], step);
      assert (steps + [step])[1..] == steps[1..] + [step];
    }
  }

  lemma LeadsOn(p: Process, q: Process, step: Step)
    requires Leads(p, q) && Enabled(q, step)
    ensures Leads(p, Apply(q, step))
  {
    var steps :| IsRun(p, steps) && After(p, steps) == q;
    Extend(p, steps, step);
  }

  // ---------------------------------------------------------------------------
  // Connections in use

  ghost predicate InTable(p: Process, id: nat) {
    exists ep :: ep in p.table && p.table[ep] == id
  }

  /** Endpoints have connections of their own, and a connection is dead exactly when no endpoint uses it. */
  ghost predicate TableExact(p: Process) {
    && (forall ep :: ep in p.table ==> p.table[ep] < |p.objs|)
    && (forall a, b :: a in p.table && b in p.table && p.table[a] == p.table[b] ==> a == b)
    && (forall id :: 0 <= id < |p.objs| ==> (p.objs[id].dead <==> !InTable(p, id)))
  }

  lemma RefreshKeepsTable(p: Process, eps: seq<string>)
    requires TableExact(p)
    ensures TableExact(Apply(p, Refresh(eps)))
  {
    var q := Apply(p, Refresh(eps));
    var away := set ep | ep in p.table && ep !in eps;
    forall id | 0 <= id < |q.objs| ensures q.objs[id].dead <==> !InTable(q, id) {
      if InTable(p, id) {
        var ep :| ep in p.table && p.table[ep] == id;
        if ep in away {
          assert id in set e | e in away :: p.table[e];
        } else {
          assert ep in q.table && q.table[ep] == id;
        }
      }
    }
  }

  lemma ConnectKeepsTable(p: Process, ep: string)
    requires TableExact(p)
    ensures TableExact(Apply(p, Connect(ep)))
  {
    var q := Apply(p, Connect(ep));
    forall id | 0 <= id < |q.objs| ensures q.objs[id].dead <==> !InTable(q, id) {
      if ep !in p.table && id == |p.objs| {
        assert q.table[ep] == id;
      } else if InTable(p, id) {
        var e :| e in p.table && p.table[e] == id;
        assert e in q.table && q.table[e] == id;
      }
    }
  }

  lemma SameTable(p: Process, q: Process)
    requires TableExact(p) && q.table == p.table && |q.objs| == |p.objs|
    requires forall id :: 0 <= id < |p.objs| ==> q.objs[id].dead == p.objs[id].dead
    ensures TableExact(q)
  {
    assert forall id :: InTable(q, id) <==> InTable(p, id);
  }

  lemma StepKeepsTable(p: Process, step: Step)
    requires Enabled(p, step) && TableExact(p)
    ensures TableExact(Apply(p, step))
  {
    match step
    case Refresh(eps) => RefreshKeepsTable(p, eps);
    case Connect(ep) => ConnectKeepsTable(p, ep);
    case _ => SameTable(p, Apply(p, step));
  }

  /** In every interleaving exactly the connections that no endpoint uses are dead. */
  lemma {:induction false} DeadExactlyWhenDropped(p: Process, steps: seq<Step>)
    requires TableExact(p) && IsRun(p, steps)
    ensures TableExact(After(p, steps))
    decreases |steps|
  {
    if steps != [] {
      StepKeepsTable(p, steps[0]);
      DeadExactlyWhenDropped(Apply(p, steps[0]), steps[1..]);
    }
  }

  // ---------------------------------------------------------------------------
  // Re-establishing

  /** Whoever is inside `reestablish` has the guard, and alone. */
  ghost predicate GuardHeld(p: Process) {
    forall id :: 0 <= id < |p.objs| ==>
      p.objs[id].recovering <= 1 && (p.objs[id].recovering == 1 ==> p.objs[id].once)
  }

  lemma StepKeepsGuard(p: Process, step: Step)
    requires Enabled(p, step) && GuardHeld(p)
    ensures GuardHeld(Apply(p, step))
  {}

  /** No connection is ever re-established by two goroutines at once, in any interleaving. */
  lemma {:induction false} OneReestablishes(p: Process, steps: seq<Step>)
    requires GuardHeld(p) && IsRun(p, steps)
    ensures GuardHeld(After(p, steps))
    decreases |steps|
  {
    if steps != [] {
      StepKeepsGuard(p, steps[0]);
      OneReestablishes(Apply(p, steps[0]), steps[1..]);
    }
  }

  /** Undisturbed, the steps of a call of `reestablish` do what the method `Peers.Connection.Reestablish` promises. */
  lemma ReestablishIsSteps(p: Process, id: nat, canceled: bool) returns (q: Process)
    requires id < |p.objs| && GuardHeld(p)
    ensures Leads(p, q) && |q.objs| == |p.objs|
    ensures var c, d := p.objs[id], q.objs[id];
      && (d.live <==> c.live && c.once) && (d.once <==> c.once || canceled)
      && d.recovering == c.recovering && d.dead == c.dead
    ensures !p.objs[id].once && canceled ==> GivenUp(q, id)
  {
    LeadsToItself(p);
    LeadsOn(p, p, Lose(id));
    q := Apply(p, Lose(id));
    if !p.objs[id].once {
      var end := if canceled then GiveUp(id) else Recover(id);
      LeadsOn(p, q, end);
      q := Apply(q, end);
    }
  }

  /** The guard is taken and nobody is inside. */
  predicate GivenUp(p: Process, id: nat) {
    id < |p.objs| && p.objs[id].once && p.objs[id].recovering == 0
  }

  lemma StepKeepsGivenUp(p: Process, step: Step, id: nat)
    requires GivenUp(p, id) && Enabled(p, step)
    ensures GivenUp(Apply(p, step), id) && step != Recover(id)
  {}

  /** Once cancelled, a connection is never re-established again: the guard is never reset. */
  lemma {:induction false} GivenUpForGood(p: Process, steps: seq<Step>, id: nat)
    requires GivenUp(p, id) && IsRun(p, steps)
    ensures GivenUp(After(p, steps), id)
    ensures forall i :: 0 <= i < |steps| ==> steps[i] != Recover(id)
    decreases |steps|
  {
    if steps != [] {
      StepKeepsGivenUp(p, steps[0], id);
      GivenUpForGood(Apply(p, steps[0]), steps[1..], id);
      forall i | 0 <= i < |steps| ensures steps[i] != Recover(id) {
        assert i > 0 ==> steps[i] == steps[1..][i - 1];
      }
    }
  }

  // ---------------------------------------------------------------------------
  // What was accepted stays, unless it expires

  lemma KeptStays(p: Process, step: Step, e: Stamped)
    requires Enabled(p, step) && WellKept(p.store) && Kept(p, e)
    ensures Kept(Apply(p, step), e)
  {
    match step
    case Receive(_, x) => SetHolds(p.store, x, e);
    case Arrive(x) => SetHolds(p.store, x, e);
    case Expire(q, i) => RemoveHolds(p.store, q, i, e);
    case _ =>
  }

  /** What expires leaves the store, and is noted. */
  lemma ExpiredIsNoted(p: Process, q: string, i: nat)
    requires Enabled(p, Expire(q, i)) && WellKept(p.store)
    ensures var e := Entries(p.store, q)[i];
      !Holds(Apply(p, Expire(q, i)).store, e) && e in Apply(p, Expire(q, i)).gone
  {
    RemoveHolds(p.store, q, i, Entries(p.store, q)[i]);
  }

  /** Every stamp that the vector names was accepted. */
  ghost predicate VectorKept(p: Process, v: Vector) {
    forall q :: q in v ==> exists x: Session :: Kept(p, Stamped(x, Stamp(q, v[q])))
  }

  ghost predicate AttemptKept(p: Process, a: Attempt) {
    VectorKept(p, a.mine) && forall e :: e in a.got ==> Kept(p, e)
  }

  /** An update that found nothing to fetch had compared the vectors. */
  ghost predicate ComparedWell(a: Attempt) {
    a.outcome.UpToDate? ==> forall q :: At(a.theirs, q) <= At(a.mine, q)
  }

  ghost predicate DataInv(p: Process) {
    && WellKept(p.store)
    && VectorKept(p, p.latest)
    && forall n :: 0 <= n < |p.attempts| ==> AttemptKept(p, p.attempts[n]) && ComparedWell(p.attempts[n])
  }

  lemma VectorStays(p: Process, step: Step, v: Vector)
    requires Enabled(p, step) && WellKept(p.store) && VectorKept(p, v)
    ensures VectorKept(Apply(p, step), v)
  {
    forall q | q in v ensures exists x: Session :: Kept(Apply(p, step), Stamped(x, Stamp(q, v[q]))) {
      var x: Session :| Kept(p, Stamped(x, Stamp(q, v[q])));
      KeptStays(p, step, Stamped(x, Stamp(q, v[q])));
    }
  }

  lemma AttemptStays(p: Process, step: Step, a: Attempt)
    requires Enabled(p, step) && WellKept(p.store) && AttemptKept(p, a)
    ensures AttemptKept(Apply(p, step), a)
  {
    VectorStays(p, step, a.mine);
    forall e | e in a.got ensures Kept(Apply(p, step), e) {
      KeptStays(p, step, e);
    }
  }

  lemma StepKeepsOrder(p: Process, step: Step)
    requires Enabled(p, step) && WellKept(p.store)
    ensures WellKept(Apply(p, step).store)
  {
    match step
    case Receive(_, x) => SetKeepsOrder(p.store, x);
    case Arrive(x) => SetKeepsOrder(p.store, x);
    case Expire(q, i) => RemoveKeeps(p.store, q, i);
    case _ =>
  }

  lemma StepKeepsLatest(p: Process, step: Step)
    requires Enabled(p, step) && WellKept(p.store) && VectorKept(p, p.latest)
    ensures VectorKept(Apply(p, step), Apply(p, step).latest)
  {
    VectorStays(p, step, p.latest);
    if step.Record? {
      var v := Raise(p.latest, step.e.stamp);
      forall q | q in v ensures exists x: Session :: Kept(p, Stamped(x, Stamp(q, v[q]))) {
        if v != p.latest && q == step.e.stamp.peer {
          assert Stamped(step.e.session, Stamp(q, v[q])) == step.e;
        }
      }
    }
  }

  /** The attempt that a step changes or starts; all others stay as they are. */
  lemma ChangedAttempt(p: Process, step: Step, n: nat)
    requires Enabled(p, step) && DataInv(p) && n < |Apply(p, step).attempts|
    requires n >= |p.attempts| || Apply(p, step).attempts[n] != p.attempts[n]
    ensures AttemptKept(Apply(p, step), Apply(p, step).attempts[n]) && ComparedWell(Apply(p, step).attempts[n])
  {
    var q := Apply(p, step);
    if n < |p.attempts| {
      AttemptStays(p, step, p.attempts[n]);
      if step.Receive? {
        var r := Put(p.store, step.x).1;
        if r.Some? {
          SetHolds(p.store, step.x, r.value);
        }
      }
    } else {
      VectorStays(p, step, p.latest);
      BehindExact(p.latest, step.theirs);
    }
  }

  lemma StepKeepsData(p: Process, step: Step)
    requires Enabled(p, step) && DataInv(p)
    ensures DataInv(Apply(p, step))
  {
    StepKeepsOrder(p, step);
    StepKeepsLatest(p, step);
    var q := Apply(p, step);
    forall n | 0 <= n < |q.attempts| ensures AttemptKept(q, q.attempts[n]) && ComparedWell(q.attempts[n]) {
      if n < |p.attempts| && q.attempts[n] == p.attempts[n] {
        AttemptStays(p, step, p.attempts[n]);
      } else {
        ChangedAttempt(p, step, n);
      }
    }
  }

  // ---------------------------------------------------------------------------
  // Ready

  /** The `n`-th update ran for this connection and caught up. */
  predicate Evidence(p: Process, id: nat, n: nat) {
    n < |p.attempts| && p.attempts[n].conn == id && CaughtUp(p.attempts[n])
  }

  ghost predicate ReadyInv(p: Process) {
    && (forall i :: 0 <= i < |p.objs| && p.objs[i].live ==> exists n: nat :: Evidence(p, i, n))
    && p.closes == (if p.closed then 1 else 0)
    && (p.closed ==> p.alone || exists id: nat, n: nat :: id in p.tracked && Evidence(p, id, n))
  }

  /** An update that caught up stays one. */
  lemma EvidenceStays(p: Process, step: Step, id: nat, n: nat)
    requires Enabled(p, step) && Evidence(p, id, n)
    ensures Evidence(Apply(p, step), id, n)
  {}

  lemma StepKeepsLive(p: Process, step: Step, i: nat)
    requires ReadyInv(p) && Enabled(p, step) && i < |Apply(p, step).objs| && Apply(p, step).objs[i].live
    ensures exists n: nat :: Evidence(Apply(p, step), i, n)
  {
    var q := Apply(p, step);
    if i < |p.objs| && p.objs[i].live {
      var n: nat :| Evidence(p, i, n);
      EvidenceStays(p, step, i, n);
    } else {
      assert Evidence(q, i, step.n);
    }
  }

  lemma StepKeepsReady(p: Process, step: Step)
    requires ReadyInv(p) && Enabled(p, step)
    ensures ReadyInv(Apply(p, step))
  {
    var q := Apply(p, step);
    forall i | 0 <= i < |q.objs| && q.objs[i].live ensures exists n: nat :: Evidence(q, i, n) {
      StepKeepsLive(p, step, i);
    }
    if q.closed && !q.alone {
      var id: nat, n: nat;
      if p.closed {
        id, n :| id in p.tracked && Evidence(p, id, n);
      } else {
        id := step.id;
        n :| Evidence(p, id, n);
      }
      EvidenceStays(p, step, id, n);
      assert id in q.tracked && Evidence(q, id, n);
    }
  }

  lemma {:induction false} RunKeepsInv(p: Process, steps: seq<Step>)
    requires ReadyInv(p) && DataInv(p) && IsRun(p, steps)
    ensures ReadyInv(After(p, steps)) && DataInv(After(p, steps))
    decreases |steps|
  {
    if steps != [] {
      StepKeepsReady(p, steps[0]);
      StepKeepsData(p, steps[0]);
      RunKeepsInv(Apply(p, steps[0]), steps[1..]);
    }
  }

  /** A refresh that finds no endpoints makes ready, and so does a look at a live connection. */
  lemma ReadyAtOnce(p: Process, step: Step)
    requires ReadyInv(p) && Enabled(p, step)
    requires step == Refresh([]) || (step.Look? && p.objs[step.id].live)
    ensures Apply(p, step).closes == 1
  {}

  /** What an update that caught up means for the store. */
  ghost predicate Supplied(p: Process, a: Attempt) {
    match a.outcome
    case UpToDate => VectorKept(p, a.mine) && forall q :: At(a.theirs, q) <= At(a.mine, q)
    case Complete => forall e :: e in a.got ==> Kept(p, e)
    case _ => false
  }

  /**
    In every interleaving the channel is closed at most once, and only after a refresh found no
    endpoints or some tracked connection finished an update: either the peer's vector named
    nothing beyond what had been accepted here, or the stream ended by itself and everything in
    it was accepted, and is there unless it expired.
   */
  lemma ReadyOnceForAReason(id: string, steps: seq<Step>)
    requires IsRun(Initial(id), steps)
    ensures After(Initial(id), steps).closes <= 1
    ensures var p := After(Initial(id), steps);
      p.closes > 0 ==> p.alone ||
                       exists c: nat, n: nat :: c in p.tracked && Evidence(p, c, n) && Supplied(p, p.attempts[n])
  {
    RunKeepsInv(Initial(id), steps);
    var p := After(Initial(id), steps);
    if p.closes > 0 && !p.alone {
      var c: nat, n: nat :| c in p.tracked && Evidence(p, c, n);
      assert AttemptKept(p, p.attempts[n]) && ComparedWell(p.attempts[n]);
      assert c in p.tracked && Evidence(p, c, n) && Supplied(p, p.attempts[n]);
    }
  }

  /**
    If what an update received is all that a peer's stream put out, then everything that peer
    held from the requested serials on, when its stream took the delete lock, was accepted.
   */
  lemma WholeStreamHasWhatPeerHeld(
      id: string, steps: seq<Step>, n: nat, start: Store, order: seq<string>, w: Walk, e: Stamped)
    requires IsRun(Initial(id), steps) && n < |After(Initial(id), steps).attempts|
    requires var a := After(Initial(id), steps).attempts[n];
      StreamedAll(start, a.from, order, w) && a.got == w.out && At(a.from, e.stamp.peer) <= e.stamp.serial
    requires Holds(start, e) && e.stamp.peer in order
    ensures Kept(After(Initial(id), steps), e)
  {
    RunKeepsInv(Initial(id), steps);
    var a := After(Initial(id), steps).attempts[n];
    assert e in FromPeer(w.out, e.stamp.peer);
    PartOfWhole(w.out, e.stamp.peer, e);
  }

  lemma {:induction false} PartOfWhole(xs: seq<Stamped>, peer: string, e: Stamped)
    requires e in FromPeer(xs, peer)
    ensures e in xs
  {
    if e in FromPeer(xs[..|xs| - 1], peer) {
      PartOfWhole(xs[..|xs| - 1], peer, e);
    }
  }

  // ---------------------------------------------------------------------------
  // An update by itself

  /** The `n`-th attempt is that of `p` further on: the store and outcome after `items`, and all of them if accepted. */
  predicate HasReceived(p: Process, n: nat, items: seq<Stamped>, q: Process) {
    && n < |p.attempts| == |q.attempts| && q.objs == p.objs
    && q.store == Ingest(p.store, items).0
    && q.attempts[n] == p.attempts[n].(got := q.attempts[n].got, outcome := q.attempts[n].outcome)
    && q.attempts[n].outcome == (if Ingest(p.store, items).1 then Receiving else Broken)
    && (Ingest(p.store, items).1 && (forall x :: x in items ==> x.stamp != ZERO_STAMP) ==>
          q.attempts[n].got == p.attempts[n].got + items)
  }

  lemma ReceiveOne(p: Process, n: nat, x: Stamped)
    requires Enabled(p, Receive(n, x))
    ensures HasReceived(p, n, [x], Apply(p, Receive(n, x)))
  {
    var (t, r) := Put(p.store, x);
    assert [x][1..] == [] && Ingest(t, []) == (t, true);
    assert Ingest(p.store, [x]) == (t, r.Some?);
    assert x in [x];
    assert x.stamp != ZERO_STAMP && r.Some? ==> r.value == x;
  }

  lemma ReceiveMore(p: Process, n: nat, x: Stamped, rest: seq<Stamped>, q: Process, r: Process)
    requires HasReceived(p, n, [x], q) && Put(p.store, x).1.Some? && HasReceived(q, n, rest, r)
    requires q.store == Put(p.store, x).0
    ensures HasReceived(p, n, [x] + rest, r)
  {
    assert ([x] + rest)[1..] == rest;
    assert [x][1..] == [] && Ingest(p.store, [x]) == (q.store, true);
    assert ([x] + rest)[0] == x && forall y :: y in rest ==> y in [x] + rest;
    assert p.attempts[n].got + [x] + rest == p.attempts[n].got + ([x] + rest);
  }

  lemma ReceiveNothing(p: Process, n: nat)
    requires n < |p.attempts| && p.attempts[n].outcome.Receiving?
    ensures HasReceived(p, n, [], p)
  {
    assert p.attempts[n].got + [] == p.attempts[n].got;
  }

  lemma ReceiveRefused(p: Process, n: nat, x: Stamped, rest: seq<Stamped>, q: Process)
    requires HasReceived(p, n, [x], q) && Put(p.store, x).1.None?
    ensures HasReceived(p, n, [x] + rest, q)
  {
    assert ([x] + rest)[1..] == rest;
  }

  /** The elements of a stream are received until one is refused, and nothing else happens. */
  lemma {:induction false} ReceiveAll(start: Process, p: Process, n: nat, items: seq<Stamped>) returns (q: Process)
    requires Leads(start, p) && n < |p.attempts| && p.attempts[n].outcome.Receiving?
    ensures Leads(start, q) && HasReceived(p, n, items, q)
    decreases |items|
  {
    if items == [] {
      q := p;
      ReceiveNothing(p, n);
    } else {
      var r := Apply(p, Receive(n, items[0]));
      LeadsOn(start, p, Receive(n, items[0]));
      ReceiveOne(p, n, items[0]);
      assert items == [items[0]] + items[1..];
      if Put(p.store, items[0]).1.Some? {
        q := ReceiveAll(start, r, n, items[1..]);
        ReceiveMore(p, n, items[0], items[1..], r, q);
      } else {
        q := r;
        ReceiveRefused(p, n, items[0], items[1..], r);
      }
    }
  }

  /** What an update that asks, and is answered by `items` and an end of the stream or a break, leaves behind. */
  predicate Updated(p: Process, id: nat, items: seq<Stamped>, eof: bool, q: Process)
    requires id < |p.objs|
  {
    var complete := eof && Ingest(p.store, items).1;
    && |q.objs| == |p.objs| && |q.attempts| == |p.attempts| + 1
    && q.store == Ingest(p.store, items).0
    && (q.objs[id].live <==> complete)
    && var a := q.attempts[|p.attempts|];
    && a.conn == id && a.mine == a.from == p.latest && a.settled
    && a.outcome == (if complete then Complete else Broken)
    && (complete && (forall x :: x in items ==> x.stamp != ZERO_STAMP) ==> a.got == items)
  }

  lemma AsksAtOnce(p: Process, id: nat, theirs: Vector) returns (q: Process)
    requires id < |p.objs| && Behind(p.latest, theirs)
    ensures Leads(p, q) && q.objs == p.objs && q.store == p.store
    ensures q.attempts == p.attempts + [Attempt(id, p.latest, theirs, p.latest, [], Receiving, false)]
  {
    var n := |p.attempts|;
    LeadsToItself(p);
    LeadsOn(p, p, Compare(id, theirs));
    var r := Apply(p, Compare(id, theirs));
    LeadsOn(p, r, Ask(n));
    q := Apply(r, Ask(n));
  }

  lemma AskedUpdate(p: Process, id: nat, theirs: Vector, items: seq<Stamped>, eof: bool) returns (q: Process)
    requires id < |p.objs| && Behind(p.latest, theirs)
    ensures Leads(p, q) && Updated(p, id, items, eof, q)
  {
    var n := |p.attempts|;
    var r := AsksAtOnce(p, id, theirs);
    q := ReceiveAll(p, r, n, items);
    assert [] + items == items;
    if Ingest(p.store, items).1 {
      var end := if eof then EndStream(n) else BreakStream(n);
      LeadsOn(p, q, end);
      q := Apply(q, end);
    }
    LeadsOn(p, q, Settle(n));
    q := Apply(q, Settle(n));
  }

  /** Undisturbed, the steps of an update do what the method `Peers.Connection.Update` promises. */
  lemma UpdateIsSteps(p: Process, id: nat, theirs: Vector, items: seq<Stamped>, eof: bool) returns (q: Process)
    requires id < |p.objs|
    ensures Leads(p, q) && |q.objs| == |p.objs|
    ensures if Behind(p.latest, theirs) then Updated(p, id, items, eof, q) else q.store == p.store && q.objs[id].live
  {
    if Behind(p.latest, theirs) {
      q := AskedUpdate(p, id, theirs, items, eof);
    } else {
      LeadsToItself(p);
      LeadsOn(p, p, Compare(id, theirs));
      q := Apply(p, Compare(id, theirs));
      LeadsOn(p, q, Settle(|p.attempts|));
      q := Apply(q, Settle(|p.attempts|));
    }
  }

  // ---------------------------------------------------------------------------
  // What "nothing to fetch" leaves open

  lemma {:induction false} NothingGone(p: Process, steps: seq<Step>)
    requires IsRun(p, steps) && p.gone == {} && forall i :: 0 <= i < |steps| ==> !steps[i].Expire?
    ensures After(p, steps).gone == {}
    decreases |steps|
  {
    if steps != [] {
      assert forall i :: 0 <= i < |steps| - 1 ==> steps[1..][i] == steps[i + 1];
      NothingGone(Apply(p, steps[0]), steps[1..]);
    }
  }

  /** The process has accepted some session under that stamp. */
  ghost predicate Accepted(p: Process, t: Stamp) {
    exists x: Session :: Kept(p, Stamped(x, t))
  }

  /**
    While nothing expires, a replica has accepted all of an origin's sessions up to number `m`
    exactly when its `m`-th entry of that origin is number `m`; that its vector names `m` says
    less.
   */
  lemma AcceptedAllUpToExactly(id: string, steps: seq<Step>, q: string, m: Serial)
    requires IsRun(Initial(id), steps) && forall i :: 0 <= i < |steps| ==> !steps[i].Expire?
    ensures var p := After(Initial(id), steps);
      var l := Positive(Entries(p.store, q));
      (forall n: Serial :: 1 <= n <= m ==> Accepted(p, Stamp(q, n))) <==>
      m <= |l| && (m > 0 ==> l[m - 1].stamp.serial == m)
  {
    RunKeepsInv(Initial(id), steps);
    NothingGone(Initial(id), steps);
    var p := After(Initial(id), steps);
    var l := Entries(p.store, q);
    forall n: Serial | 1 <= n <= m ensures Accepted(p, Stamp(q, n)) <==> HasSerial(l, n) {
      if e :| e in l && e.stamp.serial == n {
        assert e == Stamped(e.session, Stamp(q, n));
      }
    }
    NoGapsExactly(l, m);
    if forall n: Serial :: 1 <= n <= m ==> Accepted(p, Stamp(q, n)) {
      forall n: nat | 1 <= n <= m ensures HasSerial(l, n) {
        assert Accepted(p, Stamp(q, n));
      }
    }
  }

  ghost predicate Reached(id: string, p: Process) {
    Leads(Initial(id), p)
  }

  lemma Next(id: string, p: Process, step: Step)
    requires Reached(id, p) && Enabled(p, step)
    ensures Reached(id, Apply(p, step))
  {
    LeadsOn(Initial(id), p, step);
  }

  /** A tracked connection, and nothing in the store. */
  lemma OneTracked(id: string, ep: string) returns (p: Process)
    ensures Reached(id, p) && |p.objs| == 1 && p.tracked == {0} && p.attempts == []
    ensures p.store == Fresh(id) && p.latest == map[] && p.gone == {} && !p.closed && !p.alone && p.closes == 0
  {
    LeadsToItself(Initial(id));
    Next(id, Initial(id), Connect(ep));
    var p1 := Apply(Initial(id), Connect(ep));
    Next(id, p1, Track(0));
    p := Apply(p1, Track(0));
  }

  /** Session 2 of `q` arrives and is recorded, and then session 1 is refused. */
  lemma Overtaking(id: string, p: Process, older: Stamped, newer: Stamped) returns (r: Process)
    requires Reached(id, p) && p.store == Fresh(id) && p.latest == map[]
    requires older.stamp.peer == newer.stamp.peer && older.stamp.serial == 1 && newer.stamp.serial == 2
    ensures Reached(id, r) && r == p.(store := r.store, latest := map[newer.stamp.peer := 2])
    ensures Entries(r.store, newer.stamp.peer) == [newer]
  {
    Next(id, p, Step.Arrive(newer));
    var p1 := Apply(p, Step.Arrive(newer));
    PutEntries(p.store, newer, newer.stamp.peer);
    assert Entries(p1.store, newer.stamp.peer) == [newer];
    assert newer in Entries(p1.store, newer.stamp.peer);
    Next(id, p1, Record(newer));
    var p2 := Apply(p1, Record(newer));
    Next(id, p2, Step.Arrive(older));
    r := Apply(p2, Step.Arrive(older));
    PutEntries(p2.store, older, newer.stamp.peer);
  }

  /** An update that finds nothing new makes the replica ready. */
  lemma NothingNewIsReady(id: string, p: Process, theirs: Vector) returns (r: Process)
    requires Reached(id, p) && |p.objs| == 1 && 0 in p.tracked && p.attempts == [] && !p.closed && p.closes == 0
    requires !Behind(p.latest, theirs)
    ensures Reached(id, r) && r.closes == 1 && r.alone == p.alone
    ensures r.store == p.store && r.gone == p.gone && |r.attempts| == 1 && r.attempts[0].theirs == theirs
  {
    Next(id, p, Compare(0, theirs));
    var p1 := Apply(p, Compare(0, theirs));
    Next(id, p1, Settle(0));
    var p2 := Apply(p1, Settle(0));
    Next(id, p2, Look(0));
    r := Apply(p2, Look(0));
  }

  /**
    So a replica can be ready, not alone, although it never accepted a session that the peer
    may hold: the older one was overtaken by the newer, which is all that the vectors name.
   */
  lemma ReadyWithoutOlder(id: string, ep: string, older: Stamped, newer: Stamped) returns (p: Process)
    requires older.stamp.peer == newer.stamp.peer && older.stamp.serial == 1 && newer.stamp.serial == 2
    ensures Reached(id, p) && p.closes == 1 && !p.alone
    ensures |p.attempts| == 1 && p.attempts[0].theirs == map[newer.stamp.peer := 2]
    ensures !Accepted(p, older.stamp)
  {
    var p1 := OneTracked(id, ep);
    var p2 := Overtaking(id, p1, older, newer);
    p := NothingNewIsReady(id, p2, map[newer.stamp.peer := 2]);
    assert Entries(p.store, older.stamp.peer) == [newer];
  }
}
