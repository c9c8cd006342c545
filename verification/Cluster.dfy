/**
  Any number of replicas and the messages between them. Sessions that were pushed or streamed
  stay in flight for ever, so a message may be lost (never delivered), duplicated or
  overtaken by others. `log` is the history of what each replica minted.
 */
module Cluster {
  import opened Options
  import opened Sessions
  import opened Replication
  import opened Auth
  import P = SessionProperties
  import S = Streaming

  /**
    `acked` are the stamps that the replica's own store accepted from a login or a push, and
    `applied` those among them that `update` has recorded in `latest` so far.
   */
  datatype Replica = Replica(store: Store, latest: Vector, acked: set<Stamp>, applied: set<Stamp>)

  datatype Cluster = Cluster(
    replicas: map<string, Replica>, log: map<string, seq<Mint>>,
    pushed: set<Stamped>, vectors: set<Vector>, streamed: set<Stamped>)

  const START: Cluster := Cluster(map[], map[], {}, {}, {})

  datatype Step =
    | Join(id: string)                             // a process starts with an id of its own
    | Leave(r: string)                             // and ends, by a panic or otherwise
    | Login(r: string, m: Mint)                    // setToken: set the session locally
    | Record(r: string, t: Stamp)                  // Self.update
    | Push(r: string, n: Serial)                   // Client.SetSession: send session n
    | Deliver(r: string, x: Stamped)               // Server.SetSession
    | Hello(r: string)                             // the vector in a handshake or a stream request
    | Emit(r: string, from: Vector, x: Stamped)    // one element of an answering stream
    | Ingest(r: string, x: Stamped)                // one element received by streamSessions
    | Expire(r: string, peer: string, i: nat)      // the cleaner deletes one entry

  ghost predicate Enabled(mints: iset<Mint>, c: Cluster, step: Step) {
    match step
    case Join(id) => id != "" && id !in c.log
    case Leave(r) => r in c.replicas
    case Login(r, m) =>
      r in c.replicas && r in c.log && m in mints && c.replicas[r].store.curr + 1 < U64
    case Record(r, t) => r in c.replicas && t in c.replicas[r].acked
    case Push(r, n) => r in c.replicas && r in c.log && 1 <= n <= |c.log[r]|
    case Deliver(r, x) => r in c.replicas && x in c.pushed
    case Hello(r) => r in c.replicas
    case Emit(r, from, x) =>
      r in c.replicas && from in c.vectors && Holds(c.replicas[r].store, x) &&
      At(from, x.stamp.peer) <= x.stamp.serial
    case Ingest(r, x) => r in c.replicas && x in c.streamed
    case Expire(r, p, i) => r in c.replicas && i < |Entries(c.replicas[r].store, p)|
  }

  function With(c: Cluster, r: string, rep: Replica): Cluster {
    c.(replicas := c.replicas[r := rep])
  }

  ghost function Apply(mints: iset<Mint>, c: Cluster, step: Step): Cluster
    requires Enabled(mints, c, step)
  {
    match step
    case Join(id) =>
      With(c, id, Replica(Fresh(id), map[], {}, {})).(log := c.log[id := []])
    case Leave(r) => c.(replicas := c.replicas - {r})
    case Login(r, m) =>
      var rep := c.replicas[r];
      var (t, x) := Put(rep.store, Stamped(m.session, ZERO_STAMP));
      if x.None? then With(c, r, rep.(store := t))
      else With(c, r, rep.(store := t, acked := rep.acked + {x.value.stamp})).(log := c.log[r := c.log[r] + [m]])
    case Record(r, t) =>
      var rep := c.replicas[r];
      With(c, r, rep.(latest := Raise(rep.latest, t), applied := rep.applied + {t}))
    case Push(r, n) => c.(pushed := c.pushed + {Stamped(c.log[r][n - 1].session, Stamp(r, n))})
    case Deliver(r, x) =>
      var rep := c.replicas[r];
      var (t, y) := Put(rep.store, x);
      With(c, r, rep.(store := t, acked := rep.acked + if y.Some? then {x.stamp} else {}))
    case Hello(r) => c.(vectors := c.vectors + {c.replicas[r].latest})
    case Emit(r, from, x) => c.(streamed := c.streamed + {x})
    case Ingest(r, x) =>
      With(c, r, c.replicas[r].(store := Put(c.replicas[r].store, x).0))
    case Expire(r, p, i) =>
      With(c, r, c.replicas[r].(store := Remove(c.replicas[r].store, p, i)))
  }

  /** Every step of the run is possible where it is taken. */
  ghost predicate IsRun(mints: iset<Mint>, c: Cluster, steps: seq<Step>)
    decreases |steps|
  {
    steps == [] || (Enabled(mints, c, steps[0]) && IsRun(mints, Apply(mints, c, steps[0]), steps[1..]))
  }

  ghost function After(mints: iset<Mint>, c: Cluster, steps: seq<Step>): Cluster
    requires IsRun(mints, c, steps)
    decreases |steps|
  {
    if steps == [] then c else After(mints, Apply(mints, c, steps[0]), steps[1..])
  }

  // ---------------------------------------------------------------------------
  // The invariant

  /** `x` is exactly what its origin minted under that serial. */
  ghost predicate Issued(log: map<string, seq<Mint>>, x: Stamped) {
    && Numbered(log, x.stamp)
    && log[x.stamp.peer][x.stamp.serial - 1].session == x.session
  }

  /** The origin's counter has reached this serial. */
  ghost predicate Numbered(log: map<string, seq<Mint>>, t: Stamp) {
    t.peer in log && 1 <= t.serial <= |log[t.peer]|
  }

  ghost predicate GoodStore(log: map<string, seq<Mint>>, id: string, s: Store) {
    && id != "" && s.id == id && id in log && s.curr == |log[id]|
    && WellKept(s) && IndexSound(s)
    && forall e :: Holds(s, e) ==> Issued(log, e)
  }

  ghost predicate GoodVector(log: map<string, seq<Mint>>, rep: Replica) {
    && rep.applied <= rep.acked
    && MaximumOf(rep.latest, rep.applied)
    && forall t :: t in rep.acked ==> Numbered(log, t)
  }

  ghost predicate AllIssued(log: map<string, seq<Mint>>, xs: set<Stamped>) {
    forall x :: x in xs ==> Issued(log, x)
  }

  ghost predicate Bounded(log: map<string, seq<Mint>>, v: Vector) {
    forall p :: p in v ==> Numbered(log, Stamp(p, v[p]))
  }

  ghost predicate LogMinted(mints: iset<Mint>, log: map<string, seq<Mint>>) {
    forall p, i :: p in log && 0 <= i < |log[p]| ==> log[p][i] in mints
  }

  ghost predicate Inv(mints: iset<Mint>, c: Cluster) {
    && (forall r :: r in c.replicas ==> GoodStore(c.log, r, c.replicas[r].store))
    && (forall r :: r in c.replicas ==> GoodVector(c.log, c.replicas[r]))
    && AllIssued(c.log, c.pushed) && AllIssued(c.log, c.streamed)
    && (forall v :: v in c.vectors ==> Bounded(c.log, v))
    && LogMinted(mints, c.log)
  }

  ghost predicate Extends(log: map<string, seq<Mint>>, more: map<string, seq<Mint>>) {
    forall p :: p in log ==> p in more && log[p] <= more[p]
  }

  lemma IssuedExtends(log: map<string, seq<Mint>>, more: map<string, seq<Mint>>, x: Stamped)
    requires Extends(log, more) && Issued(log, x)
    ensures Issued(more, x)
  {
    assert log[x.stamp.peer] <= more[x.stamp.peer];
  }

  lemma AllIssuedExtends(log: map<string, seq<Mint>>, more: map<string, seq<Mint>>, xs: set<Stamped>)
    requires Extends(log, more) && AllIssued(log, xs)
    ensures AllIssued(more, xs)
  {
    forall x | x in xs ensures Issued(more, x) {
      IssuedExtends(log, more, x);
    }
  }

  lemma NumberedExtends(log: map<string, seq<Mint>>, more: map<string, seq<Mint>>, t: Stamp)
    requires Extends(log, more) && Numbered(log, t)
    ensures Numbered(more, t)
  {
    assert log[t.peer] <= more[t.peer];
  }

  lemma BoundedExtends(log: map<string, seq<Mint>>, more: map<string, seq<Mint>>, v: Vector)
    requires Extends(log, more) && Bounded(log, v)
    ensures Bounded(more, v)
  {
    forall p | p in v ensures Numbered(more, Stamp(p, v[p])) {
      NumberedExtends(log, more, Stamp(p, v[p]));
    }
  }

  lemma GoodVectorExtends(log: map<string, seq<Mint>>, more: map<string, seq<Mint>>, rep: Replica)
    requires Extends(log, more) && GoodVector(log, rep)
    ensures GoodVector(more, rep)
  {
    forall t | t in rep.acked ensures Numbered(more, t) {
      NumberedExtends(log, more, t);
    }
  }

  lemma GoodStoreExtends(log: map<string, seq<Mint>>, more: map<string, seq<Mint>>, id: string, s: Store)
    requires Extends(log, more) && GoodStore(log, id, s) && more[id] == log[id]
    ensures GoodStore(more, id, s)
  {
    forall e | Holds(s, e) ensures Issued(more, e) {
      IssuedExtends(log, more, e);
    }
  }

  /** Everything but replica `r` stays good when the log grows at `r` only. */
  lemma LogGrows(mints: iset<Mint>, c: Cluster, more: map<string, seq<Mint>>, r: string, rep: Replica)
    requires Inv(mints, c) && Extends(c.log, more) && LogMinted(mints, more)
    requires forall p :: p in c.log && p != r ==> more[p] == c.log[p]
    requires GoodStore(more, r, rep.store) && GoodVector(more, rep)
    ensures Inv(mints, With(c, r, rep).(log := more))
  {
    AllIssuedExtends(c.log, more, c.pushed);
    AllIssuedExtends(c.log, more, c.streamed);
    forall v | v in c.vectors ensures Bounded(more, v) {
      BoundedExtends(c.log, more, v);
    }
    forall q | q in c.replicas && q != r ensures GoodStore(more, q, c.replicas[q].store) {
      GoodStoreExtends(c.log, more, q, c.replicas[q].store);
    }
    forall q | q in c.replicas && q != r ensures GoodVector(more, c.replicas[q]) {
      GoodVectorExtends(c.log, more, c.replicas[q]);
    }
  }

  lemma OneReplicaChanges(mints: iset<Mint>, c: Cluster, r: string, rep: Replica)
    requires Inv(mints, c) && GoodStore(c.log, r, rep.store) && GoodVector(c.log, rep)
    ensures Inv(mints, With(c, r, rep))
  {}

  /** Setting a session that its origin issued keeps a store good. */
  lemma PutKeepsGood(log: map<string, seq<Mint>>, id: string, s: Store, x: Stamped)
    requires GoodStore(log, id, s) && Issued(log, x)
    ensures GoodStore(log, id, Put(s, x).0)
  {
    SetKeepsOrder(s, x);
    SetKeepsIndexSound(s, x);
    forall e | Holds(Put(s, x).0, e) ensures Issued(log, e) {
      SetHolds(s, x, e);
    }
  }

  lemma RemoveKeepsGood(log: map<string, seq<Mint>>, id: string, s: Store, p: string, i: nat)
    requires GoodStore(log, id, s) && i < |Entries(s, p)|
    ensures GoodStore(log, id, Remove(s, p, i))
  {
    RemoveKeeps(s, p, i);
    forall e | Holds(Remove(s, p, i), e) ensures Issued(log, e) {
      RemoveHolds(s, p, i, e);
    }
  }

  /** A good store accepts a new session of its own, under the next serial. */
  lemma OwnSessionAccepted(log: map<string, seq<Mint>>, id: string, s: Store, x: Session)
    requires GoodStore(log, id, s) && s.curr + 1 < U64
    ensures Put(s, Stamped(x, ZERO_STAMP)).1 == Some(Stamped(x, Stamp(id, s.curr + 1)))
  {
    var l := Entries(s, id);
    if l != [] {
      assert Holds(s, l[|l| - 1]);
    }
  }

  lemma LoginKeepsStore(log: map<string, seq<Mint>>, id: string, s: Store, m: Mint)
    requires GoodStore(log, id, s) && s.curr + 1 < U64
    ensures GoodStore(log[id := log[id] + [m]], id, Put(s, Stamped(m.session, ZERO_STAMP)).0)
  {
    var x := Stamped(m.session, ZERO_STAMP);
    var more := log[id := log[id] + [m]];
    OwnSessionAccepted(log, id, s, m.session);
    SetKeepsOrder(s, x);
    SetKeepsIndexSound(s, x);
    assert Extends(log, more);
    forall e | Holds(Put(s, x).0, e) ensures Issued(more, e) {
      SetHolds(s, x, e);
      if Holds(s, e) {
        IssuedExtends(log, more, e);
      }
    }
  }

  lemma LoginKeepsVector(log: map<string, seq<Mint>>, id: string, rep: Replica, m: Mint)
    requires id in log && GoodVector(log, rep) && |log[id]| + 1 < U64
    ensures GoodVector(log[id := log[id] + [m]], rep.(acked := rep.acked + {Stamp(id, |log[id]| + 1)}))
  {
    GoodVectorExtends(log, log[id := log[id] + [m]], rep);
  }

  lemma LoginKeepsMinted(mints: iset<Mint>, log: map<string, seq<Mint>>, r: string, m: Mint)
    requires LogMinted(mints, log) && r in log && m in mints
    ensures LogMinted(mints, log[r := log[r] + [m]])
    ensures Extends(log, log[r := log[r] + [m]])
  {}

  /** The replica after a login: its session accepted and noted. */
  function LoggedIn(rep: Replica, r: string, m: Mint): Replica
    requires rep.store.curr + 1 < U64
  {
    rep.(store := Put(rep.store, Stamped(m.session, ZERO_STAMP)).0,
         acked := rep.acked + {Stamp(r, rep.store.curr + 1)})
  }

  lemma LoginApplies(mints: iset<Mint>, c: Cluster, r: string, m: Mint)
    requires Enabled(mints, c, Login(r, m)) && GoodStore(c.log, r, c.replicas[r].store)
    ensures Apply(mints, c, Login(r, m)) ==
            With(c, r, LoggedIn(c.replicas[r], r, m)).(log := c.log[r := c.log[r] + [m]])
  {
    OwnSessionAccepted(c.log, r, c.replicas[r].store, m.session);
  }

  lemma LoginKeepsInv(mints: iset<Mint>, c: Cluster, r: string, m: Mint)
    requires Inv(mints, c) && Enabled(mints, c, Login(r, m))
    ensures Inv(mints, Apply(mints, c, Login(r, m)))
  {
    var rep := c.replicas[r];
    LoginApplies(mints, c, r, m);
    LoginKeepsStore(c.log, r, rep.store, m);
    LoginKeepsVector(c.log, r, rep, m);
    LoginKeepsMinted(mints, c.log, r, m);
    LogGrows(mints, c, c.log[r := c.log[r] + [m]], r, LoggedIn(rep, r, m));
  }

  lemma JoinKeepsInv(mints: iset<Mint>, c: Cluster, id: string)
    requires Inv(mints, c) && Enabled(mints, c, Join(id))
    ensures Inv(mints, Apply(mints, c, Join(id)))
  {
    LogGrows(mints, c, c.log[id := []], id, Replica(Fresh(id), map[], {}, {}));
  }

  lemma DeliverKeepsInv(mints: iset<Mint>, c: Cluster, r: string, x: Stamped)
    requires Inv(mints, c) && Enabled(mints, c, Deliver(r, x))
    ensures Inv(mints, Apply(mints, c, Deliver(r, x)))
  {
    var rep := c.replicas[r];
    PutKeepsGood(c.log, r, rep.store, x);
    var (t, y) := Put(rep.store, x);
    OneReplicaChanges(mints, c, r, rep.(store := t, acked := rep.acked + if y.Some? then {x.stamp} else {}));
  }

  lemma RecordKeepsInv(mints: iset<Mint>, c: Cluster, r: string, t: Stamp)
    requires Inv(mints, c) && Enabled(mints, c, Record(r, t))
    ensures Inv(mints, Apply(mints, c, Record(r, t)))
  {
    var rep := c.replicas[r];
    RaiseKeepsMaximum(rep.latest, rep.applied, t);
    OneReplicaChanges(mints, c, r, rep.(latest := Raise(rep.latest, t), applied := rep.applied + {t}));
  }

  lemma VectorIsBounded(log: map<string, seq<Mint>>, rep: Replica)
    requires GoodVector(log, rep)
    ensures Bounded(log, rep.latest)
  {
    forall p | p in rep.latest ensures Numbered(log, Stamp(p, rep.latest[p])) {
      assert Stamp(p, rep.latest[p]) in rep.applied;
    }
  }

  /** More messages in flight that were issued, or vectors that are bounded, keep everything else as it is. */
  lemma MessagesKeepInv(
      mints: iset<Mint>, c: Cluster, pushed: set<Stamped>, vectors: set<Vector>, streamed: set<Stamped>)
    requires Inv(mints, c) && AllIssued(c.log, pushed) && AllIssued(c.log, streamed)
    requires forall v :: v in vectors ==> Bounded(c.log, v)
    ensures Inv(mints, c.(pushed := pushed, vectors := vectors, streamed := streamed))
  {}

  lemma SendKeepsInv(mints: iset<Mint>, c: Cluster, step: Step)
    requires Inv(mints, c) && Enabled(mints, c, step) && (step.Push? || step.Hello? || step.Emit?)
    ensures Inv(mints, Apply(mints, c, step))
  {
    var d := Apply(mints, c, step);
    match step {
      case Push(r, n) => assert Issued(c.log, Stamped(c.log[r][n - 1].session, Stamp(r, n)));
      case Hello(r) => VectorIsBounded(c.log, c.replicas[r]);
      case Emit(r, from, x) => assert GoodStore(c.log, r, c.replicas[r].store);
    }
    MessagesKeepInv(mints, c, d.pushed, d.vectors, d.streamed);
  }

  lemma IngestKeepsInv(mints: iset<Mint>, c: Cluster, r: string, x: Stamped)
    requires Inv(mints, c) && Enabled(mints, c, Ingest(r, x))
    ensures Inv(mints, Apply(mints, c, Ingest(r, x)))
  {
    PutKeepsGood(c.log, r, c.replicas[r].store, x);
    OneReplicaChanges(mints, c, r, c.replicas[r].(store := Put(c.replicas[r].store, x).0));
  }

  lemma ExpireKeepsInv(mints: iset<Mint>, c: Cluster, r: string, p: string, i: nat)
    requires Inv(mints, c) && Enabled(mints, c, Expire(r, p, i))
    ensures Inv(mints, Apply(mints, c, Expire(r, p, i)))
  {
    RemoveKeepsGood(c.log, r, c.replicas[r].store, p, i);
    OneReplicaChanges(mints, c, r, c.replicas[r].(store := Remove(c.replicas[r].store, p, i)));
  }

  lemma StepKeepsInv(mints: iset<Mint>, c: Cluster, step: Step)
    requires Inv(mints, c) && Enabled(mints, c, step)
    ensures Inv(mints, Apply(mints, c, step))
  {
    match step
    case Join(id) => JoinKeepsInv(mints, c, id);
    case Leave(r) =>
    case Login(r, m) => LoginKeepsInv(mints, c, r, m);
    case Record(r, t) => RecordKeepsInv(mints, c, r, t);
    case Push(r, n) => SendKeepsInv(mints, c, step);
    case Deliver(r, x) => DeliverKeepsInv(mints, c, r, x);
    case Hello(r) => SendKeepsInv(mints, c, step);
    case Emit(r, from, x) => SendKeepsInv(mints, c, step);
    case Ingest(r, x) => IngestKeepsInv(mints, c, r, x);
    case Expire(r, p, i) => ExpireKeepsInv(mints, c, r, p, i);
  }

  lemma {:induction false} RunKeepsInv(mints: iset<Mint>, c: Cluster, steps: seq<Step>)
    requires Inv(mints, c) && IsRun(mints, c, steps)
    ensures Inv(mints, After(mints, c, steps))
    decreases |steps|
  {
    if steps != [] {
      StepKeepsInv(mints, c, steps[0]);
      RunKeepsInv(mints, Apply(mints, c, steps[0]), steps[1..]);
    }
  }

  // ---------------------------------------------------------------------------
  // What holds in every run

  /** `x` is in some store or in flight. */
  ghost predicate Around(c: Cluster, x: Stamped) {
    || (exists r :: r in c.replicas && Holds(c.replicas[r].store, x))
    || x in c.pushed || x in c.streamed
  }

  /**
    Every stamped session anywhere is the one its origin issued under that serial, so two
    with the same stamp are the same.
   */
  lemma EverySessionIsIssued(mints: iset<Mint>, steps: seq<Step>, x: Stamped, y: Stamped)
    requires IsRun(mints, START, steps)
    requires Around(After(mints, START, steps), x) && Around(After(mints, START, steps), y)
    ensures Issued(After(mints, START, steps).log, x)
    ensures x.stamp == y.stamp ==> x == y
  {
    RunKeepsInv(mints, START, steps);
  }

  /**
    In any run a session created locally is refused exactly when the 64-bit counter wraps
    while the replica still holds a session of its own.
   */
  lemma LocalSetRefusedExactly(mints: iset<Mint>, steps: seq<Step>, r: string, x: Session)
    requires IsRun(mints, START, steps) && r in After(mints, START, steps).replicas
    ensures var s := After(mints, START, steps).replicas[r].store;
      Put(s, Stamped(x, ZERO_STAMP)).1.None? <==> s.curr + 1 == U64 && Entries(s, r) != []
  {
    RunKeepsInv(mints, START, steps);
    var c := After(mints, START, steps);
    var s := c.replicas[r].store;
    assert GoodStore(c.log, r, s);
    if s.curr + 1 < U64 {
      OwnSessionAccepted(c.log, r, s, x);
    }
  }

  /** The sessions that requests mint. */
  ghost function Mints(k: Crypto): iset<Mint> {
    iset m: Mint | WellMinted(k, m)
  }

  /** With a good store and no wrap, an outcome that mints has its session accepted; any other leaves the store. */
  lemma OutcomeIsLogin(k: Crypto, log: map<string, seq<Mint>>, id: string, rep: Replica, secret: string, out: Outcome)
    requires GoodStore(log, id, rep.store) && rep.store.curr + 1 < U64
    requires MintsOrKeeps(k, rep.store, rep.latest, secret, out)
    ensures match out.mint
      case Some(m) =>
        && m in Mints(k)
        && out.store == LoggedIn(rep, id, m).store
        && out.sent == Some(Stamped(m.session, Stamp(id, rep.store.curr + 1)))
        && out.latest == Raise(rep.latest, Stamp(id, rep.store.curr + 1))
      case None => out.store == rep.store && out.sent == None && out.latest == rep.latest
  {
    if out.mint.Some? {
      OwnSessionAccepted(log, id, rep.store, out.mint.value.session);
    } else if out.sent.Some? {
      var x: Session :| Put(rep.store, Stamped(x, ZERO_STAMP)) == (out.store, None);
      OwnSessionAccepted(log, id, rep.store, x);
    }
  }

  /** What an outcome does to replica `r` is one `Login` step, whose session is recorded and pushed, or nothing. */
  ghost predicate ExplainedByLogin(mints: iset<Mint>, c: Cluster, r: string, out: Outcome)
    requires r in c.replicas && r in c.log && c.replicas[r].store.curr + 1 < U64
  {
    match out.mint
    case Some(m) =>
      && Enabled(mints, c, Login(r, m))
      && Apply(mints, c, Login(r, m)).replicas[r].store == out.store
      && Apply(mints, c, Login(r, m)).log[r] == c.log[r] + [m]
      && var d := Apply(mints, c, Login(r, m));
      && var t := Stamp(r, c.replicas[r].store.curr + 1);
      && out.sent == Some(Stamped(m.session, t))
      && Enabled(mints, d, Record(r, t)) && Apply(mints, d, Record(r, t)).replicas[r].latest == out.latest
      && Enabled(mints, d, Push(r, t.serial))
      && Apply(mints, d, Push(r, t.serial)).pushed == c.pushed + {out.sent.value}
    case None =>
      out.store == c.replicas[r].store && out.sent == None && out.latest == c.replicas[r].latest
  }

  lemma OutcomeIsStep(mints: iset<Mint>, c: Cluster, r: string, out: Outcome)
    requires Inv(mints, c) && r in c.replicas && r in c.log && c.replicas[r].store.curr + 1 < U64
    requires match out.mint
      case Some(m) =>
        && m in mints
        && out.store == LoggedIn(c.replicas[r], r, m).store
        && out.sent == Some(Stamped(m.session, Stamp(r, c.replicas[r].store.curr + 1)))
        && out.latest == Raise(c.replicas[r].latest, Stamp(r, c.replicas[r].store.curr + 1))
      case None => out.store == c.replicas[r].store && out.sent == None && out.latest == c.replicas[r].latest
    ensures ExplainedByLogin(mints, c, r, out)
  {
    assert GoodStore(c.log, r, c.replicas[r].store);
    if out.mint.Some? {
      LoginApplies(mints, c, r, out.mint.value);
    }
  }

  /** Replica `r` may leave, and the others are then as they were. */
  ghost predicate Gone(mints: iset<Mint>, c: Cluster, r: string) {
    Enabled(mints, c, Leave(r)) && Apply(mints, c, Leave(r)).replicas == c.replicas - {r}
  }

  /**
    In any run a request that is answered does no more to a store than a `Login` step, and never
    fails to store what it mints. One that is not ends the process, which is a `Leave` step.
   */
  lemma RequestIsLogin(k: Crypto, steps: seq<Step>, r: string, w: World, req: Request)
    requires IsRun(Mints(k), START, steps) && r in After(Mints(k), START, steps).replicas
    requires After(Mints(k), START, steps).replicas[r].store.curr + 1 < U64
    ensures var c := After(Mints(k), START, steps);
      && r in c.log
      && match Check(k, w, c.replicas[r].store, c.replicas[r].latest, req)
         case Crash => Gone(Mints(k), c, r)
         case Done(out) => ExplainedByLogin(Mints(k), c, r, out)
  {
    RunKeepsInv(Mints(k), START, steps);
    var c := After(Mints(k), START, steps);
    assert GoodStore(c.log, r, c.replicas[r].store);
    AnswerIsStep(k, c, r, w, req);
  }

  lemma AnswerIsStep(k: Crypto, c: Cluster, r: string, w: World, req: Request)
    requires Inv(Mints(k), c) && r in c.replicas && r in c.log && c.replicas[r].store.curr + 1 < U64
    ensures match Check(k, w, c.replicas[r].store, c.replicas[r].latest, req)
            case Crash => true
            case Done(out) => ExplainedByLogin(Mints(k), c, r, out)
  {
    var rep := c.replicas[r];
    var answer := Check(k, w, rep.store, rep.latest, req);
    CheckMintsOrKeeps(k, w, rep.store, rep.latest, req);
    assert GoodStore(c.log, r, rep.store);
    if answer.Done? {
      OutcomeIsLogin(k, c.log, r, rep, req.policy.oidc.tokenSecret, answer.out);
      OutcomeIsStep(Mints(k), c, r, answer.out);
    }
  }

  /**
    A replica's vector is the pointwise maximum of the updates made so far, names only stamps
    that its own store accepted, and never a serial beyond the origin's counter.
   */
  lemma VectorInEveryRun(mints: iset<Mint>, steps: seq<Step>, r: string, p: string)
    requires IsRun(mints, START, steps) && r in After(mints, START, steps).replicas
    ensures var c := After(mints, START, steps);
      var rep := c.replicas[r];
      && MaximumOf(rep.latest, rep.applied)
      && (p in rep.latest ==> Stamp(p, rep.latest[p]) in rep.acked && Numbered(c.log, Stamp(p, rep.latest[p])))
  {
    RunKeepsInv(mints, START, steps);
    var c := After(mints, START, steps);
    assert GoodVector(c.log, c.replicas[r]);
  }

  /** `n` is newer than every serial of `p` that the replica has recorded. */
  ghost predicate NewerThanRecorded(rep: Replica, p: string, n: Serial) {
    forall t :: t in rep.applied && t.peer == p ==> t.serial < n
  }

  /**
    A replica asks for an update exactly when the peer's vector names a serial newer than all
    it has itself recorded of that origin. That session was really issued, and the replica has
    not accepted it from a login or a push, or not recorded it yet.
   */
  lemma UpdateAskedExactly(mints: iset<Mint>, steps: seq<Step>, r: string, theirs: Vector)
    requires IsRun(mints, START, steps)
    requires r in After(mints, START, steps).replicas && theirs in After(mints, START, steps).vectors
    ensures var c := After(mints, START, steps);
      var rep := c.replicas[r];
      && (Behind(rep.latest, theirs) <==> exists p :: p in theirs && NewerThanRecorded(rep, p, theirs[p]))
      && forall p :: p in theirs && NewerThanRecorded(rep, p, theirs[p]) ==>
           Numbered(c.log, Stamp(p, theirs[p])) && Stamp(p, theirs[p]) !in rep.applied
  {
    RunKeepsInv(mints, START, steps);
    var c := After(mints, START, steps);
    var rep := c.replicas[r];
    assert Bounded(c.log, theirs);
    forall p | p in theirs
      ensures At(rep.latest, p) < theirs[p] <==> NewerThanRecorded(rep, p, theirs[p])
    {
      RecordedExactly(c.log, rep, p, theirs[p]);
    }
  }

  lemma RecordedExactly(log: map<string, seq<Mint>>, rep: Replica, p: string, n: Serial)
    requires GoodVector(log, rep) && n > 0
    ensures At(rep.latest, p) < n <==> NewerThanRecorded(rep, p, n)
  {
    if NewerThanRecorded(rep, p, n) && p in rep.latest {
      assert Stamp(p, rep.latest[p]) in rep.applied;
    }
  }

  /** Some run leads there. */
  ghost predicate Reached(mints: iset<Mint>, c: Cluster) {
    exists steps :: IsRun(mints, START, steps) && After(mints, START, steps) == c
  }

  lemma {:induction false} Extend(mints: iset<Mint>, c: Cluster, steps: seq<Step>, step: Step)
    requires IsRun(mints, c, steps) && Enabled(mints, After(mints, c, steps), step)
    ensures IsRun(mints, c, steps + [step])
    ensures After(mints, c, steps + [step]) == Apply(mints, After(mints, c, steps), step)
    decreases |steps|
  {
    if steps == [] {
      assert [] + [step] == [step];
    } else {
      Extend(mints, Apply(mints, c, steps[0]), steps[1..], step);
      assert (steps + [step])[1..] == steps[1..] + [step];
    }
  }

  lemma Next(mints: iset<Mint>, c: Cluster, step: Step)
    requires Reached(mints, c) && Enabled(mints, c, step)
    ensures Reached(mints, Apply(mints, c, step))
  {
    var steps :| IsRun(mints, START, steps) && After(mints, START, steps) == c;
    Extend(mints, START, steps, step);
  }

  lemma ReachedIsGood(mints: iset<Mint>, c: Cluster)
    requires Reached(mints, c)
    ensures Inv(mints, c)
  {
    var steps :| IsRun(mints, START, steps) && After(mints, START, steps) == c;
    RunKeepsInv(mints, START, steps);
  }

  /** Two replicas have joined and nothing else has happened. */
  lemma BothJoin(mints: iset<Mint>, a: string, b: string) returns (c: Cluster)
    requires a != b && a != "" && b != ""
    ensures Reached(mints, c)
    ensures c.replicas.Keys == c.log.Keys == {a, b} && c.log[a] == c.log[b] == []
    ensures c.replicas[a] == Replica(Fresh(a), map[], {}, {}) && c.replicas[b] == Replica(Fresh(b), map[], {}, {})
  {
    assert IsRun(mints, START, []) && After(mints, START, []) == START;
    Next(mints, START, Join(a));
    var c1 := Apply(mints, START, Join(a));
    Next(mints, c1, Join(b));
    c := Apply(mints, c1, Join(b));
  }

  /** `r` logs somebody in and records it. */
  lemma LogsIn(mints: iset<Mint>, c: Cluster, r: string, m: Mint) returns (d: Cluster)
    requires Reached(mints, c) && Enabled(mints, c, Login(r, m))
    ensures Reached(mints, d) && d.replicas.Keys == c.replicas.Keys
    ensures d.log == c.log[r := c.log[r] + [m]]
    ensures forall q :: q in c.replicas && q != r ==> d.replicas[q] == c.replicas[q]
    ensures var t := Stamp(r, c.replicas[r].store.curr + 1);
      && d.replicas[r].latest == Raise(c.replicas[r].latest, t)
      && d.replicas[r].store.curr == t.serial
      && Entries(d.replicas[r].store, r) == Entries(c.replicas[r].store, r) + [Stamped(m.session, t)]
  {
    ReachedIsGood(mints, c);
    LoginApplies(mints, c, r, m);
    OwnSessionAccepted(c.log, r, c.replicas[r].store, m.session);
    Next(mints, c, Login(r, m));
    var e := Apply(mints, c, Login(r, m));
    var t := Stamp(r, c.replicas[r].store.curr + 1);
    Next(mints, e, Record(r, t));
    d := Apply(mints, e, Record(r, t));
  }

  /** `b` has joined and has nothing yet; `a` has logged in as in `ms`, and recorded it. */
  ghost predicate OnlyLogins(c: Cluster, a: string, b: string, ms: seq<Mint>) {
    && c.replicas.Keys == c.log.Keys == {a, b} && c.log[a] == ms && c.log[b] == []
    && c.replicas[a].store.curr == |ms|
    && c.replicas[b] == Replica(Fresh(b), map[], {}, {})
    && |Entries(c.replicas[a].store, a)| == |ms|
    && forall i :: 0 <= i < |ms| ==>
         Entries(c.replicas[a].store, a)[i].session == ms[i].session &&
         Entries(c.replicas[a].store, a)[i].stamp.peer == a &&
         Entries(c.replicas[a].store, a)[i].stamp.serial == i + 1
  }

  lemma OneLogin(mints: iset<Mint>, a: string, b: string, m: Mint) returns (c: Cluster)
    requires a != b && a != "" && b != "" && m in mints
    ensures Reached(mints, c) && OnlyLogins(c, a, b, [m]) && c.replicas[a].latest == map[a := 1]
  {
    var c0 := BothJoin(mints, a, b);
    c := LogsIn(mints, c0, a, m);
    assert c0.log[a] + [m] == [m];
    var x := Stamped(m.session, Stamp(a, 1));
    assert Entries(c.replicas[a].store, a) == [x] by {
      assert Entries(c0.replicas[a].store, a) + [x] == [x];
    }
  }

  lemma TwoLogins(mints: iset<Mint>, a: string, b: string, m: Mint, n: Mint) returns (c: Cluster)
    requires a != b && a != "" && b != "" && m in mints && n in mints
    ensures Reached(mints, c) && OnlyLogins(c, a, b, [m, n]) && c.replicas[a].latest == map[a := 2]
  {
    var c1 := OneLogin(mints, a, b, m);
    c := LogsIn(mints, c1, a, n);
    assert c.log[a] == [m, n];
  }

  /** `b` asks `a` for everything and is sent `x`. */
  lemma AskedAndSent(mints: iset<Mint>, c: Cluster, a: string, b: string, x: Stamped) returns (d: Cluster)
    requires Reached(mints, c) && a in c.replicas && b in c.replicas
    requires Holds(c.replicas[a].store, x) && c.replicas[b].latest == map[]
    ensures Reached(mints, d) && d.replicas == c.replicas && d.log == c.log && x in d.streamed
  {
    Next(mints, c, Hello(b));
    var c1 := Apply(mints, c, Hello(b));
    Next(mints, c1, Emit(a, map[], x));
    d := Apply(mints, c1, Emit(a, map[], x));
  }

  /** `b`, which has nothing yet, sets it and hears `a`'s vector. */
  lemma StreamAndHello(mints: iset<Mint>, c: Cluster, a: string, b: string, x: Stamped) returns (d: Cluster)
    requires Reached(mints, c) && a != b && a in c.replicas && b in c.replicas && x.stamp != ZERO_STAMP
    requires x in c.streamed && c.replicas[b] == Replica(Fresh(b), map[], {}, {})
    ensures Reached(mints, d) && d.replicas.Keys == c.replicas.Keys && d.log == c.log
    ensures d.replicas[a] == c.replicas[a] && d.replicas[a].latest in d.vectors
    ensures d.replicas[b].latest == map[] && Holds(d.replicas[b].store, x)
  {
    Next(mints, c, Ingest(b, x));
    var c1 := Apply(mints, c, Ingest(b, x));
    SetHolds(Fresh(b), x, x);
    Next(mints, c1, Hello(a));
    d := Apply(mints, c1, Hello(a));
  }

  /**
    Asking does not mean lacking: a streamed session is not recorded, so a replica that holds
    every session ever issued still asks for it.
   */
  lemma AsksForWhatItHolds(mints: iset<Mint>, a: string, b: string, m: Mint) returns (c: Cluster)
    requires a != b && a != "" && b != "" && m in mints
    ensures Reached(mints, c) && a in c.replicas && b in c.replicas && c.replicas[a].latest in c.vectors
    ensures forall x :: Issued(c.log, x) ==> Holds(c.replicas[b].store, x)
    ensures Behind(c.replicas[b].latest, c.replicas[a].latest)
  {
    var c1 := OneLogin(mints, a, b, m);
    var x := Entries(c1.replicas[a].store, a)[0];
    var c2 := AskedAndSent(mints, c1, a, b, x);
    c := StreamAndHello(mints, c2, a, b, x);
    forall y | Issued(c.log, y) ensures Holds(c.replicas[b].store, y) {
      assert y == x;
    }
    assert a in c.replicas[a].latest;
  }

  // ---------------------------------------------------------------------------
  // Agreeing vectors and agreeing stores

  /** `a` pushes its session number `n`, and `b` sets and records it. */
  lemma PushAndDeliver(mints: iset<Mint>, c: Cluster, a: string, b: string, n: Serial) returns (d: Cluster)
    requires Reached(mints, c) && a != b && a in c.replicas && b in c.replicas
    requires c.replicas[b] == Replica(Fresh(b), map[], {}, {}) && Enabled(mints, c, Push(a, n))
    ensures Reached(mints, d) && d.replicas.Keys == c.replicas.Keys && d.log == c.log
    ensures d.replicas[a] == c.replicas[a] && d.replicas[b].latest == map[a := n]
    ensures Entries(d.replicas[b].store, a) == [Stamped(c.log[a][n - 1].session, Stamp(a, n))]
  {
    var x := Stamped(c.log[a][n - 1].session, Stamp(a, n));
    Next(mints, c, Push(a, n));
    var c1 := Apply(mints, c, Push(a, n));
    Next(mints, c1, Deliver(b, x));
    var c2 := Apply(mints, c1, Deliver(b, x));
    FreshPut(b, x);
    Next(mints, c2, Record(b, x.stamp));
    d := Apply(mints, c2, Record(b, x.stamp));
  }

  lemma FreshPut(id: string, y: Stamped)
    requires y.stamp != ZERO_STAMP
    ensures Put(Fresh(id), y) ==
            (Store(id, 0, map[y.session.id := y.session], map[y.stamp.peer := [y]]), Some(y))
  {
    assert Entries(Fresh(id), y.stamp.peer) + [y] == [y];
  }

  /** Agreeing vectors do not mean agreeing stores: the second session overtakes the first on its way. */
  lemma VectorsAgreeStoresDiffer(mints: iset<Mint>, a: string, b: string, m: Mint, n: Mint)
    returns (c: Cluster, x: Stamped)
    requires a != b && a != "" && b != "" && m in mints && n in mints
    ensures Reached(mints, c) && a in c.replicas && b in c.replicas
    ensures c.replicas[a].latest == c.replicas[b].latest
    ensures Holds(c.replicas[a].store, x) && !Holds(c.replicas[b].store, x)
    ensures OutOfOrder(c.replicas[b].store, x.stamp)
  {
    var d := TwoLogins(mints, a, b, m, n);
    x := Entries(d.replicas[a].store, a)[0];
    c := PushAndDeliver(mints, d, a, b, 2);
  }

  /** `step` makes `r` set `x`: delivered, streamed, or a login of its own. */
  ghost predicate SetsAt(c: Cluster, step: Step, r: string, x: Stamped)
    requires r in c.replicas
  {
    match step
    case Deliver(q, y) => q == r && y == x
    case Ingest(q, y) => q == r && y == x
    case Login(q, m) => q == r && x == Stamped(m.session, Stamp(r, (c.replicas[r].store.curr + 1) % U64))
    case _ => false
  }

  lemma HeldAfterPut(s: Store, y: Stamped, x: Stamped)
    requires !Holds(s, x)
    ensures Holds(Put(s, y).0, x) <==> x == Restamp(s, y) && Put(s, y).1.Some?
  {
    SetHolds(s, y, x);
  }

  /** What a step makes of the store of a replica that stays. */
  function StoreAfter(s: Store, r: string, step: Step): Store {
    match step
    case Login(q, m) => if q == r then Put(s, Stamped(m.session, ZERO_STAMP)).0 else s
    case Deliver(q, y) => if q == r then Put(s, y).0 else s
    case Ingest(q, y) => if q == r then Put(s, y).0 else s
    case Expire(q, p, i) => if q == r && i < |Entries(s, p)| then Remove(s, p, i) else s
    case _ => s
  }

  lemma StoreAfterStep(mints: iset<Mint>, c: Cluster, step: Step, r: string)
    requires Enabled(mints, c, step) && r in c.log && r in c.replicas && r in Apply(mints, c, step).replicas
    ensures Apply(mints, c, step).replicas[r].store == StoreAfter(c.replicas[r].store, r, step)
  {}

  /** A replica comes to hold a session exactly when it sets it and nothing as new of that origin is in its list. */
  lemma HeldAnewExactly(mints: iset<Mint>, c: Cluster, step: Step, r: string, x: Stamped)
    requires Inv(mints, c) && Enabled(mints, c, step) && r in c.replicas && r in Apply(mints, c, step).replicas
    requires !Holds(c.replicas[r].store, x)
    ensures Holds(Apply(mints, c, step).replicas[r].store, x) <==>
            SetsAt(c, step, r, x) && !OutOfOrder(c.replicas[r].store, x.stamp)
  {
    var s := c.replicas[r].store;
    assert GoodStore(c.log, r, s);
    StoreAfterStep(mints, c, step, r);
    match step
    case Login(q, m) => HeldAfterPut(s, Stamped(m.session, ZERO_STAMP), x);
    case Deliver(q, y) =>
      assert Issued(c.log, y);
      HeldAfterPut(s, y, x);
    case Ingest(q, y) =>
      assert Issued(c.log, y);
      HeldAfterPut(s, y, x);
    case Expire(q, p, i) =>
      if q == r {
        RemoveHolds(s, p, i, x);
      }
    case _ =>
  }

  /** All along the run the list of its origin has an entry at least as new as `t`. */
  ghost predicate Overtaken(mints: iset<Mint>, c: Cluster, steps: seq<Step>, r: string, t: Stamp)
    requires IsRun(mints, c, steps)
    decreases |steps|
  {
    && (r in c.replicas ==> OutOfOrder(c.replicas[r].store, t))
    && (steps == [] || Overtaken(mints, Apply(mints, c, steps[0]), steps[1..], r, t))
  }

  /** A session that was overtaken is kept out for as long as a newer one of its origin is in the list. */
  lemma {:induction false} OvertakenStaysOut(mints: iset<Mint>, c: Cluster, steps: seq<Step>, r: string, x: Stamped)
    requires Inv(mints, c) && IsRun(mints, c, steps) && r in c.replicas && Overtaken(mints, c, steps, r, x.stamp)
    requires !Holds(c.replicas[r].store, x)
    ensures r in After(mints, c, steps).replicas ==> !Holds(After(mints, c, steps).replicas[r].store, x)
    decreases |steps|
  {
    if steps != [] {
      var d := Apply(mints, c, steps[0]);
      assert GoodStore(c.log, r, c.replicas[r].store);
      StepKeepsInv(mints, c, steps[0]);
      if r in d.replicas {
        HeldAnewExactly(mints, c, steps[0], r, x);
        OvertakenStaysOut(mints, d, steps[1..], r, x);
      } else {
        LeftForGood(mints, d, steps[1..], r);
      }
    }
  }

  /** Nothing but the cleaner taking entries of that origin can let it in again. */
  lemma {:induction false} OvertakenUntilExpiry(mints: iset<Mint>, c: Cluster, steps: seq<Step>, r: string, t: Stamp)
    requires Inv(mints, c) && IsRun(mints, c, steps) && r in c.log
    requires r in c.replicas ==> OutOfOrder(c.replicas[r].store, t)
    requires forall i, j :: 0 <= i < |steps| ==> steps[i] != Expire(r, t.peer, j)
    ensures Overtaken(mints, c, steps, r, t)
    decreases |steps|
  {
    if steps != [] {
      var d := Apply(mints, c, steps[0]);
      StepKeepsInv(mints, c, steps[0]);
      assert forall i :: 0 <= i < |steps| - 1 ==> steps[1..][i] == steps[i + 1];
      if r in d.replicas {
        StepKeepsOvertaken(mints, c, steps[0], r, t);
      }
      OvertakenUntilExpiry(mints, d, steps[1..], r, t);
    }
  }

  lemma PutKeepsOutOfOrder(s: Store, x: Stamped, t: Stamp)
    requires OutOfOrder(s, t)
    ensures OutOfOrder(Put(s, x).0, t)
  {}

  lemma StepKeepsOvertaken(mints: iset<Mint>, c: Cluster, step: Step, r: string, t: Stamp)
    requires Enabled(mints, c, step) && r in c.log && r in c.replicas && r in Apply(mints, c, step).replicas
    requires OutOfOrder(c.replicas[r].store, t) && forall j :: step != Expire(r, t.peer, j)
    ensures OutOfOrder(Apply(mints, c, step).replicas[r].store, t)
  {
    var s := c.replicas[r].store;
    StoreAfterStep(mints, c, step, r);
    match step
    case Login(q, m) => PutKeepsOutOfOrder(s, Stamped(m.session, ZERO_STAMP), t);
    case Deliver(q, x) => PutKeepsOutOfOrder(s, x, t);
    case Ingest(q, x) => PutKeepsOutOfOrder(s, x, t);
    case Expire(q, p, i) => assert q == r ==> step != Expire(r, t.peer, i);
    case _ =>
  }

  /** The replica holds `q`'s session number `n`. */
  ghost predicate HoldsNumber(c: Cluster, r: string, q: string, n: Serial)
    requires r in c.replicas
  {
    Numbered(c.log, Stamp(q, n)) && Holds(c.replicas[r].store, Stamped(c.log[q][n - 1].session, Stamp(q, n)))
  }

  lemma HoldsNumberExactly(mints: iset<Mint>, c: Cluster, r: string, q: string, n: Serial)
    requires Inv(mints, c) && r in c.replicas && n >= 1
    ensures HoldsNumber(c, r, q, n) <==> P.HasSerial(Entries(c.replicas[r].store, q), n)
  {
    var s := c.replicas[r].store;
    assert GoodStore(c.log, r, s);
    if e :| e in Entries(s, q) && e.stamp.serial == n {
      assert e.stamp == Stamp(q, n) && Holds(s, e) && Issued(c.log, e);
      assert e == Stamped(c.log[q][n - 1].session, Stamp(q, n));
    }
  }

  /** In every run a replica holds an origin's first `m` sessions exactly when its `m`-th entry of it is number `m`. */
  lemma HoldsAllUpToExactly(mints: iset<Mint>, steps: seq<Step>, r: string, q: string, m: Serial)
    requires IsRun(mints, START, steps) && r in After(mints, START, steps).replicas
    ensures var c := After(mints, START, steps);
      var l := Entries(c.replicas[r].store, q);
      (forall n: Serial :: 1 <= n <= m ==> HoldsNumber(c, r, q, n)) <==>
      m <= |l| && (m > 0 ==> l[m - 1].stamp.serial == m)
  {
    RunKeepsInv(mints, START, steps);
    var c := After(mints, START, steps);
    var l := Entries(c.replicas[r].store, q);
    assert GoodStore(c.log, r, c.replicas[r].store);
    assert l != [] ==> Holds(c.replicas[r].store, l[0]);
    forall n: Serial | 1 <= n <= m ensures HoldsNumber(c, r, q, n) <==> P.HasSerial(l, n) {
      HoldsNumberExactly(mints, c, r, q, n);
    }
    P.AllPositiveExactly(l, m);
    if forall n: Serial :: 1 <= n <= m ==> HoldsNumber(c, r, q, n) {
      forall n: nat | 1 <= n <= m ensures P.HasSerial(l, n) {
        assert HoldsNumber(c, r, q, n);
      }
    }
  }

  lemma StepGrowsVectors(mints: iset<Mint>, c: Cluster, step: Step, r: string, p: string)
    requires Enabled(mints, c, step) && r in c.replicas && r in c.log && r in Apply(mints, c, step).replicas
    ensures At(c.replicas[r].latest, p) <= At(Apply(mints, c, step).replicas[r].latest, p)
  {}

  /** A replica that left does not come back: a new process takes a new id. */
  lemma {:induction false} LeftForGood(mints: iset<Mint>, c: Cluster, steps: seq<Step>, r: string)
    requires IsRun(mints, c, steps) && r in c.log && r !in c.replicas
    ensures r !in After(mints, c, steps).replicas
    decreases |steps|
  {
    if steps != [] {
      LeftForGood(mints, Apply(mints, c, steps[0]), steps[1..], r);
    }
  }

  /** Over a run a vector only grows, for as long as its replica is there. */
  lemma {:induction false} VectorsOnlyGrow(mints: iset<Mint>, c: Cluster, steps: seq<Step>, r: string, p: string)
    requires Inv(mints, c) && IsRun(mints, c, steps) && r in c.replicas && r in After(mints, c, steps).replicas
    ensures At(c.replicas[r].latest, p) <= At(After(mints, c, steps).replicas[r].latest, p)
    decreases |steps|
  {
    if steps != [] {
      assert GoodStore(c.log, r, c.replicas[r].store);
      var d := Apply(mints, c, steps[0]);
      StepKeepsInv(mints, c, steps[0]);
      if r in d.replicas {
        StepGrowsVectors(mints, c, steps[0], r, p);
        VectorsOnlyGrow(mints, d, steps[1..], r, p);
      } else {
        LeftForGood(mints, d, steps[1..], r);
      }
    }
  }

  // ---------------------------------------------------------------------------
  // The handlers as steps

  /** Receiving a push is a `Deliver`, and a `Record` if it was accepted. */
  lemma PushIsSteps(mints: iset<Mint>, c: Cluster, r: string, x: Stamped)
    requires Enabled(mints, c, Deliver(r, x))
    ensures var rep, d := c.replicas[r], Apply(mints, c, Deliver(r, x));
      if Put(rep.store, x).1.Some? then
        && Enabled(mints, d, Record(r, x.stamp))
        && var e := Apply(mints, d, Record(r, x.stamp)).replicas[r];
        (e.store, e.latest) == Receive(rep.store, rep.latest, x)
      else (d.replicas[r].store, d.replicas[r].latest) == Receive(rep.store, rep.latest, x)
  {}

  /** Every element of an answering stream is an `Emit` step, which puts it in flight. */
  lemma StreamIsSteps(mints: iset<Mint>, c: Cluster, r: string, from: Vector, order: seq<string>, x: Stamped)
    requires Inv(mints, c) && r in c.replicas && from in c.vectors
    requires x in Streamed(c.replicas[r].store.lists, from, order)
    ensures Enabled(mints, c, Emit(r, from, x)) && x in Apply(mints, c, Emit(r, from, x)).streamed
  {
    assert GoodStore(c.log, r, c.replicas[r].store);
    S.StreamedComesFromStore(c.replicas[r].store, from, order, x);
  }

  lemma StoreTwice(c: Cluster, r: string, s: Store, t: Store)
    requires r in c.replicas
    ensures var d := With(c, r, c.replicas[r].(store := s));
      With(d, r, d.replicas[r].(store := t)) == With(c, r, c.replicas[r].(store := t))
  {}

  lemma NothingSet(c: Cluster, r: string)
    requires r in c.replicas
    ensures With(c, r, c.replicas[r].(store := c.replicas[r].store)) == c
  {
    assert c.replicas[r := c.replicas[r]] == c.replicas;
  }

  /** Receiving a stream is a sequence of `Ingest` steps, up to the first refusal, and changes nothing but the store. */
  lemma {:induction false} CatchUpIsSteps(mints: iset<Mint>, c: Cluster, r: string, xs: seq<Stamped>)
    returns (steps: seq<Step>)
    requires r in c.replicas && forall x :: x in xs ==> x in c.streamed
    ensures IsRun(mints, c, steps)
    ensures After(mints, c, steps) == With(c, r, c.replicas[r].(store := S.Ingest(c.replicas[r].store, xs).0))
    decreases |xs|
  {
    steps := [];
    if xs == [] {
      NothingSet(c, r);
    } else {
      var (t, accepted) := Put(c.replicas[r].store, xs[0]);
      var d := Apply(mints, c, Ingest(r, xs[0]));
      assert d == With(c, r, c.replicas[r].(store := t));
      if accepted.Some? {
        steps := CatchUpIsSteps(mints, d, r, xs[1..]);
        StoreTwice(c, r, t, S.Ingest(t, xs[1..]).0);
      }
      assert ([Ingest(r, xs[0])] + steps)[1..] == steps;
      steps := [Ingest(r, xs[0])] + steps;
    }
  }

  /** A cleaning pass is a sequence of `Expire` steps, one for each list with an expired entry, in any order. */
  lemma {:induction false} CleanIsSteps(
      mints: iset<Mint>, c: Cluster, r: string, min: Time, peers: set<string>) returns (steps: seq<Step>)
    requires r in c.replicas && peers <= c.replicas[r].store.lists.Keys
    ensures IsRun(mints, c, steps) && forall i :: 0 <= i < |steps| ==> steps[i].Expire?
    ensures After(mints, c, steps) == With(c, r, c.replicas[r].(store := CleanLists(c.replicas[r].store, peers, min)))
    decreases peers
  {
    var s := c.replicas[r].store;
    steps := [];
    if peers == {} {
      CleanNothing(s, min);
      NothingSet(c, r);
    } else {
      var p :| p in peers;
      steps := CleanIsSteps(mints, c, r, min, peers - {p});
      var d := After(mints, c, steps);
      var t := d.replicas[r].store;
      CleanOneMore(s, peers - {p}, p, min);
      assert peers - {p} + {p} == peers;
      var i := FirstExpired(Entries(t, p), min);
      if i < |Entries(t, p)| {
        Extend(mints, c, steps, Expire(r, p, i));
        StoreTwice(c, r, t, Remove(t, p, i));
        steps := steps + [Expire(r, p, i)];
      }
    }
  }

  // ---------------------------------------------------------------------------
  // What an OK answer means

  ghost predicate MintedAt(log: map<string, seq<Mint>>, p: string, i: nat, tok: string) {
    p in log && i < |log[p]| && log[p][i].token == tok
  }

  ghost predicate AllSigned(k: Crypto, mints: iset<Mint>) {
    forall m :: m in mints ==> Signed(k, m)
  }

  lemma MintsAreSigned(k: Crypto)
    ensures AllSigned(k, Mints(k))
  {}

  /** The index names only sessions of the log. */
  lemma IndexedIsIssued(log: map<string, seq<Mint>>, id: string, s: Store, key: string) returns (p: string, i: nat)
    requires GoodStore(log, id, s) && Lookup(s, key).Some?
    ensures p in log && i < |log[p]| && log[p][i].session == Lookup(s, key).value
    ensures log[p][i].session.id == key
  {
    var t: Stamp :| Holds(s, Stamped(s.lookup[key], t));
    assert Issued(log, Stamped(s.lookup[key], t));
    p, i := t.peer, t.serial - 1;
  }

  /** A token whose hash is in some replica's index was minted: it is in the log. */
  lemma KnownTokenIsMinted(k: Crypto, mints: iset<Mint>, c: Cluster, r: string, tok: string)
    returns (p: string, i: nat)
    requires Lawful(k) && AllSigned(k, mints) && Inv(mints, c) && r in c.replicas
    requires Lookup(c.replicas[r].store, k.hash(tok)).Some?
    ensures MintedAt(c.log, p, i, tok) && c.log[p][i] in mints
    ensures c.log[p][i].session == Lookup(c.replicas[r].store, k.hash(tok)).value
  {
    p, i := IndexedIsIssued(c.log, r, c.replicas[r].store, k.hash(tok));
    assert c.log[p][i] in mints && Signed(k, c.log[p][i]);
  }

  /** What an OK answer says of the mint whose token was presented. */
  lemma OkOfMint(k: Crypto, w: World, s: Store, req: Request, m: Mint, c: Claims, sess: Session)
    requires Lawful(k) && Signed(k, m) && Known(k, s, req, m.token, c, sess)
    requires ValidAt(c, w.now) && R.Covers(req.route.roles, c.roles)
    ensures c == m.claims && k.verifies(req.policy.oidc.tokenSecret, m.token)
    ensures forall role :: role in req.route.roles ==> R.Granted(m.mappings, m.at, m.idt, role)
    ensures KeyBound(k) ==> m.secret == req.policy.oidc.tokenSecret
  {
    assert k.decode(m.token) == Some(BearerPayload(m.claims));
    R.AccessExact(m.mappings, m.at, m.idt, req.route.roles);
  }

  lemma OkIsLogged(
      k: Crypto, mints: iset<Mint>, c: Cluster, r: string, w: World, req: Request,
      tok: string, cl: Claims, sess: Session)
    returns (p: string, i: nat)
    requires Lawful(k) && AllSigned(k, mints) && Inv(mints, c) && r in c.replicas
    requires Known(k, c.replicas[r].store, req, tok, cl, sess)
    requires ValidAt(cl, w.now) && R.Covers(req.route.roles, cl.roles)
    ensures p in c.log && i < |c.log[p]| && c.log[p][i] in mints
    ensures var m := c.log[p][i];
      && m.token == tok && m.session == sess && m.claims == cl
      && k.sign(m.secret, BearerPayload(m.claims)) == Some(m.token)
      && k.verifies(req.policy.oidc.tokenSecret, m.token)
      && (forall role :: role in req.route.roles ==> R.Granted(m.mappings, m.at, m.idt, role))
      && (KeyBound(k) ==> m.secret == req.policy.oidc.tokenSecret)
  {
    p, i := KnownTokenIsMinted(k, mints, c, r, tok);
    assert Signed(k, c.log[p][i]);
    OkOfMint(k, w, c.replicas[r].store, req, c.log[p][i], cl, sess);
  }

  /**
    An OK answer at any replica in any run: the presented token was minted before at some
    replica, verifies under the policy's secret, is valid now, and every role of the route was
    granted by a mapping when it was minted. The mappings were those of the policy that some
    request asked for, and the claims those of the tokens that this request had obtained.
   */
  lemma OkMeansMinted(k: Crypto, steps: seq<Step>, r: string, w: World, v: Vector, req: Request)
    returns (p: string, i: nat)
    requires Lawful(k) && IsRun(Mints(k), START, steps) && r in After(Mints(k), START, steps).replicas
    requires IsOk(Check(k, w, After(Mints(k), START, steps).replicas[r].store, v, req))
    ensures var log := After(Mints(k), START, steps).log;
      && p in log && i < |log[p]|
      && var m := log[p][i];
      && FirstBearer(req.cookies, m.token)
      && k.sign(m.secret, BearerPayload(m.claims)) == Some(m.token)
      && k.verifies(req.policy.oidc.tokenSecret, m.token)
      && ValidAt(m.claims, w.now)
      && (forall role :: role in req.route.roles ==> R.Granted(m.mappings, m.at, m.idt, role))
      && (KeyBound(k) ==> m.secret == req.policy.oidc.tokenSecret)
      && exists w0: World, s0: Store, asked: Request, tok: OAuthToken ::
           Obtains(k, w0, s0, asked, tok) && MintOf(k, w0, asked, tok, m)
  {
    RunKeepsInv(Mints(k), START, steps);
    MintsAreSigned(k);
    var c := After(Mints(k), START, steps);
    OkExact(k, w, c.replicas[r].store, v, req);
    var tok, cl, sess :| Known(k, c.replicas[r].store, req, tok, cl, sess) && ValidAt(cl, w.now) &&
                         R.Covers(req.route.roles, cl.roles);
    p, i := OkIsLogged(k, Mints(k), c, r, w, req, tok, cl, sess);
  }

  /** In a run whose mints are signed, no replica knows the state token of a login. */
  lemma StateTokenUnknown(
      k: Crypto, mints: iset<Mint>, c: Cluster, r: string, req: Request, secret: string, path: string,
      tok: string, cl: Claims, sess: Session)
    requires Lawful(k) && AllSigned(k, mints) && Inv(mints, c) && r in c.replicas
    requires k.sign(secret, StatePayload(path)) == Some(tok)
    ensures !Known(k, c.replicas[r].store, req, tok, cl, sess)
  {
    if Known(k, c.replicas[r].store, req, tok, cl, sess) {
      var p, i := KnownTokenIsMinted(k, mints, c, r, tok);
    }
  }

  /** The state token of a login never authenticates, although it is signed with the same secret. */
  lemma StateTokenNeverAuthenticates(
      k: Crypto, steps: seq<Step>, r: string, w: World, v: Vector, req: Request,
      secret: string, path: string, tok: string)
    requires Lawful(k) && IsRun(Mints(k), START, steps) && r in After(Mints(k), START, steps).replicas
    requires k.sign(secret, StatePayload(path)) == Some(tok) && FirstBearer(req.cookies, tok)
    ensures forall cl, sess :: !Known(k, After(Mints(k), START, steps).replicas[r].store, req, tok, cl, sess)
    ensures !IsOk(Check(k, w, After(Mints(k), START, steps).replicas[r].store, v, req))
  {
    RunKeepsInv(Mints(k), START, steps);
    MintsAreSigned(k);
    var c := After(Mints(k), START, steps);
    var s := c.replicas[r].store;
    forall cl, sess ensures !Known(k, s, req, tok, cl, sess) {
      StateTokenUnknown(k, Mints(k), c, r, req, secret, path, tok, cl, sess);
    }
    OkExact(k, w, s, v, req);
    forall other, cl, sess | Known(k, s, req, other, cl, sess) ensures other == tok {
      BearerExact(req.cookies, other);
      BearerExact(req.cookies, tok);
    }
  }
}
