/**
  Catching up by stream: what `Stream` emits while other goroutines keep calling `Set`
  (state/session/store.go), and when the receiving side accepts all of it
  (replication/connection.go).
 */
module Streaming {
  import opened Options
  import opened Sessions
  import opened SessionProperties

  // ---------------------------------------------------------------------------
  // Filtering one list

  lemma {:induction false} SinceFilters(l: seq<Stamped>, start: Serial)
    ensures forall e :: e in Since(l, start) <==> e in l && e.stamp.serial >= start
  {
    if l != [] {
      var m, last := l[..|l| - 1], l[|l| - 1];
      SinceFilters(m, start);
      assert l == m + [last];
    }
  }

  lemma {:induction false} SinceKeepsOrder(l: seq<Stamped>, start: Serial, peer: string)
    requires OfPeer(l, peer) && Increasing(l)
    ensures OfPeer(Since(l, start), peer) && Increasing(Since(l, start))
  {
    if l != [] {
      var m, last := l[..|l| - 1], l[|l| - 1];
      SinceKeepsOrder(m, start, peer);
      SinceFilters(m, start);
      forall i | 0 <= i < |Since(m, start)|
        ensures Since(m, start)[i].stamp.serial < last.stamp.serial
      {
        assert Since(m, start)[i] in m;
      }
    }
  }

  lemma SinceOneMore(l: seq<Stamped>, i: nat, start: Serial)
    requires i < |l|
    ensures Since(l[..i + 1], start) ==
            Since(l[..i], start) + (if l[i].stamp.serial >= start then [l[i]] else [])
  {
    assert l[..i + 1][..i] == l[..i];
  }

  // ---------------------------------------------------------------------------
  // A stream with sets in between

  /**
    The sender's goroutine: `done` are the lists it has finished, `todo` the others, `at` its
    place in the first of those, and `ended` each finished list as it was when its last
    element had no successor. It holds the delete lock, so no entry goes away under it
    (`RemovalWaitsForWalk`).
   */
  datatype Walk = Walk(store: Store, done: seq<string>, todo: seq<string>, at: nat, out: seq<Stamped>,
                       ended: map<string, seq<Stamped>>)

  /** Either another goroutine sets a session, or the walk looks at the next element. */
  datatype Event = Arrive(x: Stamped) | Advance

  function Begin(s: Store, order: seq<string>): Walk {
    Walk(s, [], order, 0, [], map[])
  }

  function Step(w: Walk, from: Vector, ev: Event): Walk {
    match ev
    case Arrive(x) => w.(store := Put(w.store, x).0)
    case Advance =>
      if w.todo == [] then w
      else
        var l := Entries(w.store, w.todo[0]);
        if w.at < |l| then
          var emitted := if l[w.at].stamp.serial >= At(from, w.todo[0]) then [l[w.at]] else [];
          w.(at := w.at + 1, out := w.out + emitted)
        else
          w.(done := w.done + [w.todo[0]], todo := w.todo[1..], at := 0, ended := w.ended[w.todo[0] := l])
  }

  function Run(w: Walk, from: Vector, evs: seq<Event>): Walk {
    if evs == [] then w else Step(Run(w, from, evs[..|evs| - 1]), from, evs[|evs| - 1])
  }

  ghost predicate Grown(s: Store, w: Walk, p: string) {
    && Entries(s, p) <= Entries(w.store, p)
    && (p in w.ended ==> Entries(s, p) <= w.ended[p] <= Entries(w.store, p))
  }

  /** The part of the current list that the walk has seen. */
  function Seen(w: Walk): seq<Stamped> {
    if w.todo == [] || w.at > |Entries(w.store, w.todo[0])| then []
    else Entries(w.store, w.todo[0])[..w.at]
  }

  /** Nothing went away: the lists only grew, also after the walk left them. */
  ghost predicate Intact(s: Store, w: Walk) {
    WellKept(w.store) && forall p :: Grown(s, w, p)
  }

  /** The output is the finished lists, filtered, and the seen part of the current one. */
  ghost predicate Emitted(from: Vector, order: seq<string>, w: Walk) {
    && w.done + w.todo == order
    && (forall p :: p in w.ended <==> p in w.done)
    && (w.todo != [] ==> w.at <= |Entries(w.store, w.todo[0])|)
    && w.out == Streamed(w.ended, from, w.done) +
                (if w.todo == [] then [] else Since(Seen(w), At(from, w.todo[0])))
  }

  lemma PutGrows(s: Store, x: Stamped, p: string)
    ensures Entries(s, p) <= Entries(Put(s, x).0, p)
  {}

  lemma {:induction false} StreamedCongruent(
      a: map<string, seq<Stamped>>, b: map<string, seq<Stamped>>, from: Vector, order: seq<string>)
    requires forall p :: p in order ==> p in a && p in b && a[p] == b[p]
    ensures Streamed(a, from, order) == Streamed(b, from, order)
  {
    if order != [] {
      StreamedCongruent(a, b, from, order[..|order| - 1]);
    }
  }

  lemma StepKeepsIntact(s: Store, from: Vector, w: Walk, ev: Event)
    requires Intact(s, w)
    ensures Intact(s, Step(w, from, ev))
  {
    if ev.Arrive? {
      SetKeepsOrder(w.store, ev.x);
    }
    forall p ensures Grown(s, Step(w, from, ev), p) {
      assert Grown(s, w, p);
      if ev.Arrive? {
        PutGrows(w.store, ev.x, p);
      }
    }
  }

  lemma ArriveKeepsEmitted(from: Vector, order: seq<string>, w: Walk, x: Stamped)
    requires Emitted(from, order, w)
    ensures Emitted(from, order, Step(w, from, Arrive(x)))
  {
    if w.todo != [] {
      PutGrows(w.store, x, w.todo[0]);
      assert Seen(Step(w, from, Arrive(x))) == Seen(w);
    }
  }

  lemma Regroup(a: seq<Stamped>, b: seq<Stamped>, c: seq<Stamped>)
    ensures a + b + c == a + (b + c)
  {}

  /** Looking at an element moves on by one and puts it out if it qualifies. */
  lemma LookOutput(from: Vector, w: Walk)
    requires w.todo != [] && w.at < |Entries(w.store, w.todo[0])|
    ensures var start := At(from, w.todo[0]);
      Since(Seen(Step(w, from, Advance)), start) ==
      Since(Seen(w), start) + Step(w, from, Advance).out[|w.out|..]
    ensures Step(w, from, Advance).out == w.out + Step(w, from, Advance).out[|w.out|..]
  {
    var l, start := Entries(w.store, w.todo[0]), At(from, w.todo[0]);
    SinceOneMore(l, w.at, start);
    assert Seen(w) == l[..w.at] && Seen(Step(w, from, Advance)) == l[..w.at + 1];
    var emitted := if l[w.at].stamp.serial >= start then [l[w.at]] else [];
    assert (w.out + emitted)[|w.out|..] == emitted;
  }

  lemma LookKeepsEmitted(from: Vector, order: seq<string>, w: Walk)
    requires Emitted(from, order, w)
    requires w.todo != [] && w.at < |Entries(w.store, w.todo[0])|
    ensures Emitted(from, order, Step(w, from, Advance))
  {
    var v := Step(w, from, Advance);
    LookOutput(from, w);
    Regroup(Streamed(w.ended, from, w.done), Since(Seen(w), At(from, w.todo[0])), v.out[|w.out|..]);
  }

  /** At the end of a list all of it has been seen, and of the next one nothing yet. */
  lemma SeenAtEnd(from: Vector, w: Walk)
    requires w.todo != [] && w.at == |Entries(w.store, w.todo[0])|
    ensures Seen(w) == Entries(w.store, w.todo[0]) && Seen(Step(w, from, Advance)) == []
  {}

  lemma EndedMatchesDone(ended: map<string, seq<Stamped>>, done: seq<string>, p: string, l: seq<Stamped>)
    requires forall q :: q in ended <==> q in done
    ensures forall q :: q in ended[p := l] <==> q in done + [p]
  {}

  /** Leaving a list puts nothing out: what was seen of it is now a finished list. */
  lemma LeaveOutput(from: Vector, order: seq<string>, w: Walk)
    requires Emitted(from, order, w) && w.todo != [] && w.todo[0] !in w.done
    requires w.at >= |Entries(w.store, w.todo[0])|
    ensures var l := Entries(w.store, w.todo[0]);
      w.out == Streamed(w.ended[w.todo[0] := l], from, w.done + [w.todo[0]])
  {
    SeenAtEnd(from, w);
    StreamedOneMore(w.ended, from, w.done, w.todo[0], Entries(w.store, w.todo[0]));
  }

  lemma LeaveKeepsEmitted(from: Vector, order: seq<string>, w: Walk)
    requires Distinct(order) && Emitted(from, order, w)
    requires w.todo != [] && w.at >= |Entries(w.store, w.todo[0])|
    ensures Emitted(from, order, Step(w, from, Advance))
  {
    var v, p := Step(w, from, Advance), w.todo[0];
    NotDoneYet(order, w.done, w.todo);
    SeenAtEnd(from, w);
    LeaveOutput(from, order, w);
    EndedMatchesDone(w.ended, w.done, p, Entries(w.store, p));
    assert v.out + [] == v.out;
  }

  lemma StreamedOneMore(
      ended: map<string, seq<Stamped>>, from: Vector, done: seq<string>, p: string, l: seq<Stamped>)
    requires p !in done && forall q :: q in done ==> q in ended
    ensures Streamed(ended[p := l], from, done + [p]) == Streamed(ended, from, done) + Since(l, At(from, p))
  {
    StreamedCongruent(ended, ended[p := l], from, done);
    assert (done + [p])[..|done|] == done;
  }

  lemma NotDoneYet(order: seq<string>, done: seq<string>, todo: seq<string>)
    requires Distinct(order) && done + todo == order && todo != []
    ensures todo[0] !in done && done + [todo[0]] + todo[1..] == order
  {
    assert order[|done|] == todo[0];
    assert forall i :: 0 <= i < |done| ==> order[i] == done[i];
  }

  lemma {:induction false} RunKeepsProgress(s: Store, from: Vector, order: seq<string>, evs: seq<Event>)
    requires WellKept(s) && Distinct(order)
    ensures Intact(s, Run(Begin(s, order), from, evs))
    ensures Emitted(from, order, Run(Begin(s, order), from, evs))
  {
    if evs == [] {
      assert Seen(Begin(s, order)) == [];
      assert forall p :: Grown(s, Begin(s, order), p);
    } else {
      RunKeepsProgress(s, from, order, evs[..|evs| - 1]);
      var w := Run(Begin(s, order), from, evs[..|evs| - 1]);
      StepKeepsIntact(s, from, w, evs[|evs| - 1]);
      match evs[|evs| - 1]
      case Arrive(x) => ArriveKeepsEmitted(from, order, w, x);
      case Advance =>
        if w.todo != [] {
          if w.at < |Entries(w.store, w.todo[0])| {
            LookKeepsEmitted(from, order, w);
          } else {
            LeaveKeepsEmitted(from, order, w);
          }
        }
    }
  }

  lemma PartOfPeer(l: seq<Stamped>, start: Serial, q: string, p: string)
    requires OfPeer(l, q)
    ensures FromPeer(Since(l, start), p) == if p == q then Since(l, start) else []
  {
    SinceFilters(l, start);
    FromPeerUniform(Since(l, start), q, p);
  }

  lemma StreamedOfPeerStep(
      lists: map<string, seq<Stamped>>, from: Vector, order: seq<string>, p: string)
    requires order != []
    requires order[|order| - 1] in lists ==> OfPeer(lists[order[|order| - 1]], order[|order| - 1])
    ensures FromPeer(Streamed(lists, from, order), p) ==
            FromPeer(Streamed(lists, from, order[..|order| - 1]), p) +
            if p == order[|order| - 1] && p in lists then Since(lists[p], At(from, p)) else []
  {
    var o, q := order[..|order| - 1], order[|order| - 1];
    var l := if q in lists then lists[q] else [];
    FromPeerAppend(Streamed(lists, from, o), Since(l, At(from, q)), p);
    PartOfPeer(l, At(from, q), q, p);
  }

  lemma {:induction false} StreamedOfPeer(
      lists: map<string, seq<Stamped>>, from: Vector, order: seq<string>, p: string)
    requires Distinct(order)
    requires forall q :: q in lists ==> OfPeer(lists[q], q)
    ensures FromPeer(Streamed(lists, from, order), p) ==
            if p in order && p in lists then Since(lists[p], At(from, p)) else []
  {
    if order != [] {
      var o, q := order[..|order| - 1], order[|order| - 1];
      NotDoneYet(order, o, [q]);
      StreamedOfPeer(lists, from, o, p);
      StreamedOfPeerStep(lists, from, order, p);
      assert p in order <==> p in o || p == q;
    }
  }

  lemma {:induction false} FromPeerAppend(a: seq<Stamped>, b: seq<Stamped>, p: string)
    ensures FromPeer(a + b, p) == FromPeer(a, p) + FromPeer(b, p)
  {
    if b == [] {
      assert a + b == a;
    } else {
      var c := b[..|b| - 1];
      FromPeerAppend(a, c, p);
      assert (a + b)[..|a + b| - 1] == a + c;
    }
  }

  lemma {:induction false} FromPeerUniform(xs: seq<Stamped>, q: string, p: string)
    requires forall e :: e in xs ==> e.stamp.peer == q
    ensures FromPeer(xs, p) == if p == q then xs else []
  {
    if xs != [] {
      var ys := xs[..|xs| - 1];
      assert forall e :: e in ys ==> e in xs;
      FromPeerUniform(ys, q, p);
      assert xs == ys + [xs[|xs| - 1]];
    }
  }

  /**
    A completed stream emits each list of its snapshot, filtered, as the list was when the
    walk left it; that list had grown from the one present at the start and lost nothing.
   */
  lemma StreamUnderSets(s: Store, from: Vector, order: seq<string>, evs: seq<Event>)
    requires WellKept(s) && Distinct(order)
    requires Run(Begin(s, order), from, evs).todo == []
    ensures var w := Run(Begin(s, order), from, evs);
      && w.out == Streamed(w.ended, from, order)
      && forall p :: p in order ==>
           p in w.ended && Entries(s, p) <= w.ended[p] <= Entries(w.store, p)
  {
    RunKeepsProgress(s, from, order, evs);
    var w := Run(Begin(s, order), from, evs);
    assert w.done == order;
    forall p | p in order ensures p in w.ended && Entries(s, p) <= w.ended[p] <= Entries(w.store, p) {
      assert Grown(s, w, p);
    }
  }

  /**
    Peer by peer: what comes out is in strictly increasing order, so no entry twice; it is the
    filtered list, and no qualifying entry that was present at the start is missing.
   */
  lemma StreamPerPeer(s: Store, from: Vector, order: seq<string>, evs: seq<Event>, p: string)
    requires WellKept(s) && Distinct(order) && p in order
    requires Run(Begin(s, order), from, evs).todo == []
    ensures var w := Run(Begin(s, order), from, evs);
      && p in w.ended && FromPeer(w.out, p) == Since(w.ended[p], At(from, p))
      && Increasing(FromPeer(w.out, p))
      && forall e :: e in Entries(s, p) && e.stamp.serial >= At(from, p) ==> e in FromPeer(w.out, p)
  {
    RunKeepsProgress(s, from, order, evs);
    StreamUnderSets(s, from, order, evs);
    var w := Run(Begin(s, order), from, evs);
    EndedInOrder(s, w);
    EmittedOfPeer(s, from, order, w.ended, p);
  }

  lemma EmittedOfPeer(
      s: Store, from: Vector, order: seq<string>, ended: map<string, seq<Stamped>>, p: string)
    requires Distinct(order) && p in order && p in ended && Entries(s, p) <= ended[p]
    requires forall q :: q in ended ==> OfPeer(ended[q], q) && Increasing(ended[q])
    ensures FromPeer(Streamed(ended, from, order), p) == Since(ended[p], At(from, p))
    ensures Increasing(Since(ended[p], At(from, p)))
    ensures forall e :: e in Entries(s, p) && e.stamp.serial >= At(from, p) ==> e in Since(ended[p], At(from, p))
  {
    StreamedOfPeer(ended, from, order, p);
    SinceKeepsOrder(ended[p], At(from, p), p);
    SinceFilters(ended[p], At(from, p));
  }

  lemma {:induction false} QuietKeepsStore(w: Walk, from: Vector, evs: seq<Event>)
    requires forall i :: 0 <= i < |evs| ==> evs[i].Advance?
    ensures Run(w, from, evs).store == w.store
  {
    if evs != [] {
      QuietKeepsStore(w, from, evs[..|evs| - 1]);
    }
  }

  /** With no set in between the walk emits what the lists hold, as `SessionStore.Stream` does. */
  lemma QuietStream(s: Store, from: Vector, order: seq<string>, evs: seq<Event>)
    requires WellKept(s) && Visits(order, s.lists.Keys)
    requires Run(Begin(s, order), from, evs).todo == []
    requires forall i :: 0 <= i < |evs| ==> evs[i].Advance?
    ensures Run(Begin(s, order), from, evs).out == Streamed(s.lists, from, order)
  {
    StreamUnderSets(s, from, order, evs);
    QuietKeepsStore(Begin(s, order), from, evs);
    var w := Run(Begin(s, order), from, evs);
    forall p | p in order ensures p in w.ended && p in s.lists && w.ended[p] == s.lists[p] {
      assert Entries(s, p) <= w.ended[p] <= Entries(s, p);
    }
    StreamedCongruent(w.ended, s.lists, from, order);
  }

  lemma EndedInOrder(s: Store, w: Walk)
    requires WellKept(w.store) && forall p :: Grown(s, w, p)
    ensures forall q :: q in w.ended ==> OfPeer(w.ended[q], q) && Increasing(w.ended[q])
  {
    forall q | q in w.ended ensures OfPeer(w.ended[q], q) && Increasing(w.ended[q]) {
      assert Grown(s, w, q);
    }
  }

  // ---------------------------------------------------------------------------
  // The delete lock: the cleaner writes under it, a stream walks under it

  /** The stream's goroutine; `start` is the store when it took the lock and `evs` what happened since. */
  datatype Reader =
    | Asked
    | Walking(start: Store, evs: seq<Event>, walk: Walk)
    | Finished(start: Store, evs: seq<Event>, walk: Walk)

  datatype System = System(store: Store, cleaning: bool, reader: Reader)

  datatype Action =
    | Sets(x: Stamped)                 // any goroutine calls Set
    | LockClean                        // the cleaner takes the delete lock to write
    | Deletes(peer: string, i: nat)    // and deletes entries
    | UnlockClean
    | LockRead                         // the stream takes it to read
    | Looks                            // and walks on
    | UnlockRead

  predicate Possible(y: System, a: Action) {
    match a
    case Sets(_) => true
    case LockClean => !y.cleaning && !y.reader.Walking?
    case Deletes(p, i) => y.cleaning && i < |Entries(y.store, p)|
    case UnlockClean => y.cleaning
    case LockRead => y.reader.Asked? && !y.cleaning
    case Looks => y.reader.Walking?
    case UnlockRead => y.reader.Walking? && y.reader.walk.todo == []
  }

  function WalkOn(y: System, from: Vector, ev: Event): System
    requires y.reader.Walking?
  {
    var w := Step(y.reader.walk, from, ev);
    y.(store := w.store, reader := Walking(y.reader.start, y.reader.evs + [ev], w))
  }

  function Act(y: System, from: Vector, order: seq<string>, a: Action): System
    requires Possible(y, a)
  {
    match a
    case Sets(x) =>
      if y.reader.Walking? then WalkOn(y, from, Arrive(x)) else y.(store := Put(y.store, x).0)
    case LockClean => y.(cleaning := true)
    case Deletes(p, i) => y.(store := Remove(y.store, p, i))
    case UnlockClean => y.(cleaning := false)
    case LockRead => y.(reader := Walking(y.store, [], Begin(y.store, order)))
    case Looks => WalkOn(y, from, Advance)
    case UnlockRead => y.(reader := Finished(y.reader.start, y.reader.evs, y.reader.walk))
  }

  /** What the goroutines did, each step possible where it was taken. */
  ghost predicate IsHistory(s: Store, from: Vector, order: seq<string>, acts: seq<Action>)
    decreases |acts|, 0
  {
    acts == [] ||
    (IsHistory(s, from, order, acts[..|acts| - 1]) &&
     Possible(Play(s, from, order, acts[..|acts| - 1]), acts[|acts| - 1]))
  }

  ghost function Play(s: Store, from: Vector, order: seq<string>, acts: seq<Action>): System
    requires IsHistory(s, from, order, acts)
    decreases |acts|, 1
  {
    if acts == [] then System(s, false, Asked)
    else Act(Play(s, from, order, acts[..|acts| - 1]), from, order, acts[|acts| - 1])
  }

  /** The walk is one with sets in between and nothing else, and the cleaner is not at work. */
  ghost predicate Guarded(y: System, from: Vector, order: seq<string>) {
    && WellKept(y.store)
    && (y.reader.Walking? ==> !y.cleaning && y.reader.walk.store == y.store)
    && (!y.reader.Asked? ==>
          WellKept(y.reader.start) && y.reader.walk == Run(Begin(y.reader.start, order), from, y.reader.evs))
    && (y.reader.Finished? ==> y.reader.walk.todo == [])
  }

  lemma WalkOnKeepsGuarded(y: System, from: Vector, order: seq<string>, ev: Event)
    requires Guarded(y, from, order) && y.reader.Walking?
    ensures Guarded(WalkOn(y, from, ev), from, order)
  {
    var evs := y.reader.evs + [ev];
    assert evs[..|evs| - 1] == y.reader.evs;
    if ev.Arrive? {
      SetKeepsOrder(y.store, ev.x);
    }
  }

  lemma ActKeepsGuarded(y: System, from: Vector, order: seq<string>, a: Action)
    requires Guarded(y, from, order) && Possible(y, a)
    ensures Guarded(Act(y, from, order, a), from, order)
  {
    match a
    case Sets(x) =>
      if y.reader.Walking? {
        WalkOnKeepsGuarded(y, from, order, Arrive(x));
      } else {
        SetKeepsOrder(y.store, x);
      }
    case Deletes(p, i) => RemoveKeeps(y.store, p, i);
    case Looks => WalkOnKeepsGuarded(y, from, order, Advance);
    case _ =>
  }

  lemma {:induction false} HistoryKeepsGuarded(s: Store, from: Vector, order: seq<string>, acts: seq<Action>)
    requires WellKept(s) && IsHistory(s, from, order, acts)
    ensures Guarded(Play(s, from, order, acts), from, order)
  {
    if acts != [] {
      var before := acts[..|acts| - 1];
      HistoryKeepsGuarded(s, from, order, before);
      ActKeepsGuarded(Play(s, from, order, before), from, order, acts[|acts| - 1]);
    }
  }

  /** No removal falls into a walk: where the cleaner can delete, no stream is walking. */
  lemma RemovalWaitsForWalk(s: Store, from: Vector, order: seq<string>, acts: seq<Action>, p: string, i: nat)
    requires WellKept(s) && IsHistory(s, from, order, acts)
    requires Possible(Play(s, from, order, acts), Deletes(p, i))
    ensures !Play(s, from, order, acts).reader.Walking?
  {
    HistoryKeepsGuarded(s, from, order, acts);
  }

  /** A set is a set, whether or not a stream is walking. */
  lemma SetIsSet(y: System, from: Vector, order: seq<string>, x: Stamped)
    requires Guarded(y, from, order)
    ensures Act(y, from, order, Sets(x)).store == Put(y.store, x).0
    ensures Act(y, from, order, Sets(x)).cleaning == y.cleaning
  {}

  /** Taking and giving back the lock: the cleaner deletes in between, and the stream walks from the store it finds. */
  lemma LocksAreLocks(y: System, from: Vector, order: seq<string>)
    ensures Possible(y, LockClean) ==> Possible(Act(y, from, order, LockClean), UnlockClean)
    ensures Possible(y, UnlockClean) ==> !Act(y, from, order, UnlockClean).cleaning
    ensures Possible(y, LockRead) ==> Possible(Act(y, from, order, LockRead), Looks) &&
                                      Act(y, from, order, LockRead).reader.start == y.store
    ensures Possible(y, UnlockRead) ==>
      var r := Act(y, from, order, UnlockRead).reader; r.Finished? && r.walk == y.reader.walk
  {}

  /** And what the cleaner deletes is gone. */
  lemma DeletedIsGone(y: System, from: Vector, order: seq<string>, p: string, i: nat)
    requires WellKept(y.store) && Possible(y, Deletes(p, i))
    ensures !Holds(Act(y, from, order, Deletes(p, i)).store, Entries(y.store, p)[i])
  {
    RemoveHolds(y.store, p, i, Entries(y.store, p)[i]);
  }

  /** The stream took the lock at one step of the history, and `start` is the store of that moment. */
  lemma {:induction false} StartedAt(s: Store, from: Vector, order: seq<string>, acts: seq<Action>) returns (n: nat)
    requires IsHistory(s, from, order, acts) && !Play(s, from, order, acts).reader.Asked?
    ensures n < |acts| && acts[n] == LockRead && IsHistory(s, from, order, acts[..n])
    ensures Play(s, from, order, acts[..n]).store == Play(s, from, order, acts).reader.start
  {
    var last := |acts| - 1;
    if acts[last] == LockRead {
      n := last;
    } else {
      n := StartedAt(s, from, order, acts[..last]);
      assert acts[..last][..n] == acts[..n];
    }
  }

  /** What a finished walk has put out, next to the store that it started from. */
  ghost predicate StreamedAll(start: Store, from: Vector, order: seq<string>, w: Walk) {
    && w.out == Streamed(w.ended, from, order)
    && forall p :: p in order ==>
         && p in w.ended && Entries(start, p) <= w.ended[p]
         && FromPeer(w.out, p) == Since(w.ended[p], At(from, p))
         && Increasing(FromPeer(w.out, p))
         && forall e :: e in Entries(start, p) && e.stamp.serial >= At(from, p) ==> e in FromPeer(w.out, p)
  }

  lemma WalkStreamsAll(s: Store, from: Vector, order: seq<string>, evs: seq<Event>)
    requires WellKept(s) && Distinct(order) && Run(Begin(s, order), from, evs).todo == []
    ensures StreamedAll(s, from, order, Run(Begin(s, order), from, evs))
  {
    StreamUnderSets(s, from, order, evs);
    forall p | p in order
      ensures var w := Run(Begin(s, order), from, evs);
        && p in w.ended && FromPeer(w.out, p) == Since(w.ended[p], At(from, p))
        && Increasing(FromPeer(w.out, p))
        && forall e :: e in Entries(s, p) && e.stamp.serial >= At(from, p) ==> e in FromPeer(w.out, p)
    {
      StreamPerPeer(s, from, order, evs, p);
    }
  }

  /**
    With sets and cleaning at any time: a stream that has finished emitted every qualifying
    entry that the store had when the stream took the delete lock, each list in order.
   */
  lemma StreamAmongCleans(s: Store, from: Vector, order: seq<string>, acts: seq<Action>) returns (n: nat)
    requires WellKept(s) && Distinct(order) && IsHistory(s, from, order, acts)
    requires Play(s, from, order, acts).reader.Finished?
    ensures n < |acts| && acts[n] == LockRead && IsHistory(s, from, order, acts[..n])
    ensures StreamedAll(
              Play(s, from, order, acts[..n]).store, from, order, Play(s, from, order, acts).reader.walk)
  {
    HistoryKeepsGuarded(s, from, order, acts);
    n := StartedAt(s, from, order, acts);
    var r := Play(s, from, order, acts).reader;
    WalkStreamsAll(r.start, from, order, r.evs);
  }

  // ---------------------------------------------------------------------------
  // The receiving side

  /** `streamSessions`: set what arrives and give up at the first refusal. */
  function Ingest(s: Store, xs: seq<Stamped>): (Store, bool)
    decreases |xs|
  {
    if xs == [] then (s, true)
    else
      var (t, r) := Put(s, xs[0]);
      if r.None? then (t, false) else Ingest(t, xs[1..])
  }

  lemma {:induction false} IngestAppend(s: Store, a: seq<Stamped>, b: seq<Stamped>)
    ensures Ingest(s, a + b) == if Ingest(s, a).1 then Ingest(Ingest(s, a).0, b) else Ingest(s, a)
    decreases |a|
  {
    if a == [] {
      assert a + b == b;
    } else {
      assert (a + b)[1..] == a[1..] + b;
      IngestAppend(Put(s, a[0]).0, a[1..], b);
    }
  }

  /** One peer's entries in order: everything depends on the first. */
  lemma {:induction false} IngestListAccepts(s: Store, xs: seq<Stamped>, p: string)
    requires OfPeer(xs, p) && Increasing(xs)
    requires forall e :: e in xs ==> e.stamp != ZERO_STAMP
    ensures Ingest(s, xs).1 <==> xs == [] || !OutOfOrder(s, xs[0].stamp)
    decreases |xs|
  {
    if xs != [] && !OutOfOrder(s, xs[0].stamp) {
      assert xs[0] in xs;
      var t := Put(s, xs[0]).0;
      assert Entries(t, p) == Entries(s, p) + [xs[0]];
      if |xs| > 1 {
        assert xs[1..][0] == xs[1];
        assert !OutOfOrder(t, xs[1].stamp);
      }
      IngestListAccepts(t, xs[1..], p);
    }
  }

  lemma {:induction false} IngestListEntries(s: Store, xs: seq<Stamped>, p: string, q: string)
    requires OfPeer(xs, p)
    requires forall e :: e in xs ==> e.stamp != ZERO_STAMP
    requires Ingest(s, xs).1
    ensures Entries(Ingest(s, xs).0, q) == Entries(s, q) + if q == p then xs else []
    decreases |xs|
  {
    if xs != [] {
      assert xs[0] in xs;
      IngestListEntries(Put(s, xs[0]).0, xs[1..], p, q);
    }
  }

  /** What the sender sends of `p`. */
  function Sent(sender: Store, from: Vector, p: string): seq<Stamped> {
    Since(Entries(sender, p), At(from, p))
  }

  lemma SentFacts(sender: Store, from: Vector, p: string)
    requires WellKept(sender) && NoZero(sender)
    ensures OfPeer(Sent(sender, from, p), p) && Increasing(Sent(sender, from, p))
    ensures forall e :: e in Sent(sender, from, p) ==> e.stamp != ZERO_STAMP
    ensures forall e :: e in Sent(sender, from, p) <==> e in Entries(sender, p) && At(from, p) <= e.stamp.serial
  {
    SinceFilters(Entries(sender, p), At(from, p));
    SinceKeepsOrder(Entries(sender, p), At(from, p), p);
    forall e | e in Sent(sender, from, p) ensures e.stamp != ZERO_STAMP {
      assert Holds(sender, e);
    }
  }

  /** Something the sender sends of `p` is not newer than what the receiver has of `p`. */
  ghost predicate Overlap(sender: Store, from: Vector, receiver: Store, p: string) {
    exists e :: e in Sent(sender, from, p) && OutOfOrder(receiver, e.stamp)
  }

  /** Of increasing entries of one peer some is out of order exactly if the first is. */
  lemma FirstDecides(receiver: Store, xs: seq<Stamped>, p: string)
    requires OfPeer(xs, p) && Increasing(xs) && xs != []
    ensures (exists e :: e in xs && OutOfOrder(receiver, e.stamp)) <==> OutOfOrder(receiver, xs[0].stamp)
  {
    assert xs[0] in xs;
    if e :| e in xs && OutOfOrder(receiver, e.stamp) {
      var i :| 0 <= i < |xs| && xs[i] == e;
      assert xs[0].stamp.serial <= xs[i].stamp.serial;
    }
  }

  lemma IngestOnePeer(sender: Store, from: Vector, receiver: Store, p: string)
    requires WellKept(sender) && NoZero(sender)
    ensures Ingest(receiver, Sent(sender, from, p)).1 <==> !Overlap(sender, from, receiver, p)
  {
    SentFacts(sender, from, p);
    IngestListAccepts(receiver, Sent(sender, from, p), p);
    if Sent(sender, from, p) != [] {
      FirstDecides(receiver, Sent(sender, from, p), p);
    }
  }

  lemma IngestSentEntries(sender: Store, from: Vector, receiver: Store, p: string, q: string)
    requires WellKept(sender) && NoZero(sender) && Ingest(receiver, Sent(sender, from, p)).1
    ensures Entries(Ingest(receiver, Sent(sender, from, p)).0, q) ==
            Entries(receiver, q) + if q == p then Sent(sender, from, p) else []
  {
    SentFacts(sender, from, p);
    IngestListEntries(receiver, Sent(sender, from, p), p, q);
  }

  /** The same, list by list. */
  function IngestOrder(sender: Store, from: Vector, receiver: Store, order: seq<string>): (Store, bool) {
    if order == [] then (receiver, true)
    else
      var (t, ok) := IngestOrder(sender, from, receiver, order[..|order| - 1]);
      if ok then Ingest(t, Sent(sender, from, order[|order| - 1])) else (t, false)
  }

  lemma {:induction false} IngestListByList(sender: Store, from: Vector, receiver: Store, order: seq<string>)
    ensures Ingest(receiver, Streamed(sender.lists, from, order)) == IngestOrder(sender, from, receiver, order)
  {
    if order != [] {
      var o, p := order[..|order| - 1], order[|order| - 1];
      IngestListByList(sender, from, receiver, o);
      IngestAppend(receiver, Streamed(sender.lists, from, o), Sent(sender, from, p));
    }
  }

  lemma {:induction false} IngestOrderEntries(
      sender: Store, from: Vector, receiver: Store, order: seq<string>, q: string)
    requires WellKept(sender) && NoZero(sender) && Distinct(order)
    requires IngestOrder(sender, from, receiver, order).1
    ensures Entries(IngestOrder(sender, from, receiver, order).0, q) ==
            Entries(receiver, q) + if q in order then Sent(sender, from, q) else []
  {
    if order != [] {
      var o, p := order[..|order| - 1], order[|order| - 1];
      NotDoneYet(order, o, [p]);
      IngestOrderEntries(sender, from, receiver, o, q);
      var t := IngestOrder(sender, from, receiver, o).0;
      IngestSentEntries(sender, from, t, p, q);
      if q == p {
        assert Entries(t, q) == Entries(receiver, q);
      } else {
        assert q in order <==> q in o;
        assert Entries(Ingest(t, Sent(sender, from, p)).0, q) == Entries(t, q);
      }
    }
  }

  lemma OverlapCongruent(sender: Store, from: Vector, a: Store, b: Store, p: string)
    requires WellKept(sender) && NoZero(sender) && Entries(a, p) == Entries(b, p)
    ensures Overlap(sender, from, a, p) <==> Overlap(sender, from, b, p)
  {
    SentFacts(sender, from, p);
    forall e | e in Sent(sender, from, p) ensures OutOfOrder(a, e.stamp) <==> OutOfOrder(b, e.stamp) {
      assert e.stamp.peer == p;
    }
  }

  lemma {:induction false} IngestOrderAccepts(sender: Store, from: Vector, receiver: Store, order: seq<string>)
    requires WellKept(sender) && NoZero(sender) && Distinct(order)
    ensures IngestOrder(sender, from, receiver, order).1 <==>
            forall p :: p in order ==> !Overlap(sender, from, receiver, p)
  {
    if order != [] {
      var o, p := order[..|order| - 1], order[|order| - 1];
      NotDoneYet(order, o, [p]);
      assert forall q :: q in order <==> q in o || q == p;
      IngestOrderAccepts(sender, from, receiver, o);
      var (t, ok) := IngestOrder(sender, from, receiver, o);
      if ok {
        IngestOrderEntries(sender, from, receiver, o, p);
        IngestOnePeer(sender, from, t, p);
        OverlapCongruent(sender, from, t, receiver, p);
      }
    }
  }

  /**
    The receiver accepts all of `xs` exactly when the sender holds no entry from the requested
    start up to the receiver's last serial of that peer; then every list is the old one
    followed by what was sent.
   */
  ghost predicate AcceptedExactly(sender: Store, from: Vector, receiver: Store, xs: seq<Stamped>) {
    var (t, ok) := Ingest(receiver, xs);
    && (ok <==> forall e :: Holds(sender, e) && At(from, e.stamp.peer) <= e.stamp.serial ==>
                  !OutOfOrder(receiver, e.stamp))
    && (ok ==> forall p :: Entries(t, p) == Entries(receiver, p) + Sent(sender, from, p))
  }

  /** An uninterrupted catch-up stream. */
  lemma CatchUpExact(sender: Store, from: Vector, receiver: Store, order: seq<string>)
    requires WellKept(sender) && NoZero(sender) && Visits(order, sender.lists.Keys)
    ensures AcceptedExactly(sender, from, receiver, Streamed(sender.lists, from, order))
  {
    IngestListByList(sender, from, receiver, order);
    IngestOrderAccepts(sender, from, receiver, order);
    forall p, e | e in Sent(sender, from, p)
      ensures p in order && Holds(sender, e) && At(from, e.stamp.peer) <= e.stamp.serial
    {
      SentFacts(sender, from, p);
    }
    forall e | Holds(sender, e) && At(from, e.stamp.peer) <= e.stamp.serial
      ensures e.stamp.peer in order && e in Sent(sender, from, e.stamp.peer)
    {
      SentFacts(sender, from, e.stamp.peer);
    }
    if Ingest(receiver, Streamed(sender.lists, from, order)).1 {
      forall p
        ensures Entries(Ingest(receiver, Streamed(sender.lists, from, order)).0, p) ==
                Entries(receiver, p) + Sent(sender, from, p)
      {
        IngestOrderEntries(sender, from, receiver, order, p);
      }
    }
  }

  lemma {:induction false} RunKeepsNoZero(w: Walk, from: Vector, evs: seq<Event>)
    requires NoZero(w.store)
    ensures NoZero(Run(w, from, evs).store)
  {
    if evs != [] {
      RunKeepsNoZero(w, from, evs[..|evs| - 1]);
      var v := Run(w, from, evs[..|evs| - 1]);
      if evs[|evs| - 1].Arrive? {
        SetKeepsNoZero(v.store, evs[|evs| - 1].x);
      }
    }
  }

  /** The lists as the walk left them, as a store of their own. */
  function EndedStore(w: Walk): Store {
    w.store.(lists := w.ended)
  }

  lemma EndedStoreGood(s: Store, w: Walk)
    requires Intact(s, w) && NoZero(w.store)
    ensures WellKept(EndedStore(w)) && NoZero(EndedStore(w))
  {
    EndedInOrder(s, w);
    forall e | Holds(EndedStore(w), e) ensures e.stamp != ZERO_STAMP {
      assert Grown(s, w, e.stamp.peer);
      assert Holds(w.store, e);
    }
  }

  /**
    A completed stream with any sets in between at the sender: the same holds of the lists as
    the walk left them.
   */
  lemma CatchUpUnderSets(s: Store, from: Vector, order: seq<string>, evs: seq<Event>, receiver: Store)
    requires WellKept(s) && NoZero(s) && Distinct(order)
    requires Run(Begin(s, order), from, evs).todo == []
    ensures var w := Run(Begin(s, order), from, evs);
      AcceptedExactly(EndedStore(w), from, receiver, w.out)
  {
    RunKeepsProgress(s, from, order, evs);
    RunKeepsNoZero(Begin(s, order), from, evs);
    CatchUpOfWalk(s, from, order, Run(Begin(s, order), from, evs), receiver);
  }

  lemma CatchUpOfWalk(s: Store, from: Vector, order: seq<string>, w: Walk, receiver: Store)
    requires Intact(s, w) && Emitted(from, order, w) && NoZero(w.store) && Distinct(order) && w.todo == []
    ensures AcceptedExactly(EndedStore(w), from, receiver, w.out)
  {
    EndedStoreGood(s, w);
    assert w.done == order && w.out == Streamed(w.ended, from, order);
    CatchUpExact(EndedStore(w), from, receiver, order);
  }

  /** A stream that was accepted and sent anything is refused when asked for again, in whatever order of the map. */
  lemma CatchUpNotRepeatable(
      sender: Store, from: Vector, receiver: Store, order: seq<string>, again: seq<string>)
    requires WellKept(sender) && NoZero(sender) && WellKept(receiver)
    requires Visits(order, sender.lists.Keys) && Visits(again, sender.lists.Keys)
    requires Ingest(receiver, Streamed(sender.lists, from, order)).1
    ensures var xs := Streamed(sender.lists, from, order);
      Ingest(Ingest(receiver, xs).0, Streamed(sender.lists, from, again)).1 <==> xs == []
  {
    var xs := Streamed(sender.lists, from, order);
    var t := Ingest(receiver, xs).0;
    CatchUpExact(sender, from, receiver, order);
    CatchUpExact(sender, from, t, again);
    IngestKeeps(receiver, xs);
    if xs != [] {
      var e := xs[0];
      StreamedComesFromStore(sender, from, order, e);
      SentFacts(sender, from, e.stamp.peer);
      assert e in Entries(t, e.stamp.peer);
      HeldIsOutOfOrder(t, e);
    } else {
      forall e | Holds(sender, e) ensures !(At(from, e.stamp.peer) <= e.stamp.serial) {
        SomethingStreamed(sender, from, order, e);
      }
    }
  }

  /** Operations of any kind keep a store in order and without the zero stamp. */
  lemma {:induction false} ExecKeeps(s: Store, ops: seq<Op>)
    requires WellKept(s) && NoZero(s)
    ensures WellKept(Exec(s, ops)) && NoZero(Exec(s, ops))
    decreases |ops|
  {
    if ops != [] {
      var t := Do(s, ops[0]);
      match ops[0] {
        case SetOp(x) =>
          SetKeepsOrder(s, x);
          SetKeepsNoZero(s, x);
        case RemoveOp(p, i) =>
          if i < |Entries(s, p)| {
            RemoveKeeps(s, p, i);
          }
        case CleanOp(min) =>
          forall e ensures Holds(t, e) ==> Holds(s, e) {
            CleanPassRemovesOldestExpired(s, min, e);
          }
          CleanPassRemovesOldestExpired(s, min, Stamped(Session("", "", 0), ZERO_STAMP));
      }
      ExecKeeps(t, ops[1..]);
    }
  }

  /**
    Streaming raises no vector, so the next update asks for the same serials. Whatever was set
    and removed on either side since the accepted stream, it is accepted again exactly when
    nothing the sender still holds from there on is out of order here; so it is refused for as
    long as both sides keep an entry of the first stream.
   */
  lemma CatchUpRefusedAgain(
      sender: Store, from: Vector, receiver: Store, order: seq<string>,
      there: seq<Op>, here: seq<Op>, again: seq<string>)
    requires WellKept(sender) && NoZero(sender) && WellKept(receiver) && NoZero(receiver)
    requires Visits(order, sender.lists.Keys) && Visits(again, Exec(sender, there).lists.Keys)
    requires Ingest(receiver, Streamed(sender.lists, from, order)).1
    ensures var xs := Streamed(sender.lists, from, order);
      var later, now := Exec(sender, there), Exec(Ingest(receiver, xs).0, here);
      && (Ingest(now, Streamed(later.lists, from, again)).1 <==>
          forall e :: Holds(later, e) && At(from, e.stamp.peer) <= e.stamp.serial ==> !OutOfOrder(now, e.stamp))
      && ((exists e :: e in xs && Holds(later, e) && Holds(now, e)) ==>
          !Ingest(now, Streamed(later.lists, from, again)).1)
  {
    var xs := Streamed(sender.lists, from, order);
    IngestKeeps(receiver, xs);
    IngestKeepsNoZero(receiver, xs);
    ExecKeeps(sender, there);
    ExecKeeps(Ingest(receiver, xs).0, here);
    var later, now := Exec(sender, there), Exec(Ingest(receiver, xs).0, here);
    CatchUpExact(later, from, now, again);
    if e :| e in xs && Holds(later, e) && Holds(now, e) {
      StreamedComesFromStore(sender, from, order, e);
      HeldIsOutOfOrder(now, e);
    }
  }

  lemma {:induction false} IngestKeepsNoZero(s: Store, xs: seq<Stamped>)
    requires NoZero(s)
    ensures NoZero(Ingest(s, xs).0)
    decreases |xs|
  {
    if xs != [] {
      SetKeepsNoZero(s, xs[0]);
      if Put(s, xs[0]).1.Some? {
        IngestKeepsNoZero(Put(s, xs[0]).0, xs[1..]);
      }
    }
  }

  /** What qualifies is streamed. */
  lemma {:induction false} SomethingStreamed(sender: Store, from: Vector, order: seq<string>, e: Stamped)
    requires Holds(sender, e) && e.stamp.peer in order
    ensures At(from, e.stamp.peer) <= e.stamp.serial ==> e in Streamed(sender.lists, from, order)
  {
    var o, p := order[..|order| - 1], order[|order| - 1];
    if e.stamp.peer == p {
      SinceFilters(Entries(sender, p), At(from, p));
    } else {
      SomethingStreamed(sender, from, o, e);
    }
  }

  lemma HeldIsOutOfOrder(s: Store, e: Stamped)
    requires WellKept(s) && Holds(s, e)
    ensures OutOfOrder(s, e.stamp)
  {
    var l := s.lists[e.stamp.peer];
    var i :| 0 <= i < |l| && l[i] == e;
    assert i < |l| - 1 ==> l[i].stamp.serial < l[|l| - 1].stamp.serial;
  }

  lemma {:induction false} StreamedComesFromStore(sender: Store, from: Vector, order: seq<string>, e: Stamped)
    requires WellKept(sender) && e in Streamed(sender.lists, from, order)
    ensures Holds(sender, e) && At(from, e.stamp.peer) <= e.stamp.serial
  {
    if order != [] {
      var o, p := order[..|order| - 1], order[|order| - 1];
      SinceFilters(Entries(sender, p), At(from, p));
      if e in Streamed(sender.lists, from, o) {
        StreamedComesFromStore(sender, from, o, e);
      }
    }
  }

  lemma {:induction false} IngestKeeps(s: Store, xs: seq<Stamped>)
    requires WellKept(s)
    ensures WellKept(Ingest(s, xs).0)
    ensures IndexSound(s) ==> IndexSound(Ingest(s, xs).0)
    decreases |xs|
  {
    if xs != [] {
      SetKeepsOrder(s, xs[0]);
      if IndexSound(s) {
        SetKeepsIndexSound(s, xs[0]);
      }
      if Put(s, xs[0]).1.Some? {
        IngestKeeps(Put(s, xs[0]).0, xs[1..]);
      }
    }
  }

  // ---------------------------------------------------------------------------
  // What a new replica ends with

  /** The last entry with that id. */
  function LastWithId(xs: seq<Stamped>, key: string): (r: Option<Stamped>)
    ensures r.Some? ==> r.value in xs && r.value.session.id == key
    ensures r.None? ==> forall e :: e in xs ==> e.session.id != key
  {
    if xs == [] then None
    else if xs[|xs| - 1].session.id == key then Some(xs[|xs| - 1])
    else LastWithId(xs[..|xs| - 1], key)
  }

  function SessionOf(e: Option<Stamped>): Option<Session> {
    if e.Some? then Some(e.value.session) else None
  }

  lemma {:induction false} LastWithIdAppend(a: seq<Stamped>, b: seq<Stamped>, key: string)
    ensures LastWithId(a + b, key) == if LastWithId(b, key).Some? then LastWithId(b, key) else LastWithId(a, key)
  {
    if b == [] {
      assert a + b == a;
    } else {
      LastWithIdAppend(a, b[..|b| - 1], key);
      assert (a + b)[..|a + b| - 1] == a + b[..|b| - 1];
    }
  }

  /** After an accepted stream an id is found as its last entry has it. */
  lemma {:induction false} IngestLookup(s: Store, xs: seq<Stamped>, key: string)
    requires Ingest(s, xs).1
    ensures Lookup(Ingest(s, xs).0, key) ==
            if LastWithId(xs, key).Some? then SessionOf(LastWithId(xs, key)) else Lookup(s, key)
    decreases |xs|
  {
    if xs != [] {
      IngestLookup(Put(s, xs[0]).0, xs[1..], key);
      LastWithIdAppend([xs[0]], xs[1..], key);
      assert xs == [xs[0]] + xs[1..];
    }
  }

  /**
    A new replica that streams from the start accepts everything and ends with the sender's
    lists; an id is found as the last entry in the stream that has it.
   */
  lemma FreshReceiverCopies(sender: Store, id: string, order: seq<string>)
    requires WellKept(sender) && NoZero(sender) && Visits(order, sender.lists.Keys)
    ensures var xs := Streamed(sender.lists, map[], order);
      var (t, ok) := Ingest(Fresh(id), xs);
      && ok
      && (forall p :: Entries(t, p) == Entries(sender, p))
      && (forall key :: Lookup(t, key) == SessionOf(LastWithId(xs, key)))
  {
    var xs := Streamed(sender.lists, map[], order);
    var t := Ingest(Fresh(id), xs).0;
    CatchUpExact(sender, map[], Fresh(id), order);
    forall p ensures Entries(t, p) == Entries(sender, p) {
      SinceAll(Entries(sender, p));
      assert Entries(Fresh(id), p) == [];
    }
    forall key ensures Lookup(t, key) == SessionOf(LastWithId(xs, key)) {
      IngestLookup(Fresh(id), xs, key);
    }
  }

  /** The index of a new replica that has streamed everything. */
  function FreshIndex(sender: Store, order: seq<string>): map<string, Session> {
    Ingest(Fresh(sender.id), Streamed(sender.lists, map[], order)).0.lookup
  }

  /** An id that is not streamed is not in the sender's index. */
  lemma NotStreamedNotFound(sender: Store, order: seq<string>, key: string)
    requires IndexSound(sender) && Visits(order, sender.lists.Keys)
    requires LastWithId(Streamed(sender.lists, map[], order), key).None?
    ensures Lookup(sender, key) == None
  {
    if key in sender.lookup {
      var u: Stamp :| Holds(sender, Stamped(sender.lookup[key], u));
      SomethingStreamed(sender, map[], order, Stamped(sender.lookup[key], u));
    }
  }

  /** The sender finds what comes last in the stream of each id. */
  ghost predicate FindsLast(sender: Store, order: seq<string>) {
    forall e: Stamped :: LastWithId(Streamed(sender.lists, map[], order), e.session.id) == Some(e) ==>
      Found(sender, e.session)
  }

  /** Its index is the sender's exactly when the sender finds what comes last in the stream of each id. */
  lemma FreshIndexExact(sender: Store, order: seq<string>)
    requires WellKept(sender) && NoZero(sender) && IndexSound(sender) && Visits(order, sender.lists.Keys)
    ensures FreshIndex(sender, order) == sender.lookup <==> FindsLast(sender, order)
  {
    var xs := Streamed(sender.lists, map[], order);
    var t := Ingest(Fresh(sender.id), xs).0;
    FreshReceiverCopies(sender, sender.id, order);
    if FindsLast(sender, order) {
      forall key ensures Lookup(t, key) == Lookup(sender, key) {
        if LastWithId(xs, key).None? {
          NotStreamedNotFound(sender, order, key);
        } else {
          assert Found(sender, LastWithId(xs, key).value.session);
        }
      }
      SameLookup(t, sender);
    } else {
      var e: Stamped :| LastWithId(xs, e.session.id) == Some(e) && !Found(sender, e.session);
      assert Lookup(t, e.session.id) == Some(e.session);
    }
  }

  lemma SameLookup(a: Store, b: Store)
    requires forall k :: Lookup(a, k) == Lookup(b, k)
    ensures a.lookup == b.lookup
  {
    forall k ensures k in a.lookup <==> k in b.lookup {
      assert Lookup(a, k) == Lookup(b, k);
    }
    forall k | k in a.lookup ensures a.lookup[k] == b.lookup[k] {
      assert Lookup(a, k) == Lookup(b, k);
    }
  }

  /** No newer entry of the same list has the id of `e`. */
  ghost predicate LatestOfId(s: Store, e: Stamped) {
    && Holds(s, e)
    && forall f :: Holds(s, f) && f.stamp.peer == e.stamp.peer && f.stamp.serial > e.stamp.serial ==>
         f.session.id != e.session.id
  }

  lemma {:induction false} LastInList(l: seq<Stamped>, e: Stamped)
    requires Increasing(l)
    ensures LastWithId(l, e.session.id) == Some(e) <==>
            e in l && forall f :: f in l && f.stamp.serial > e.stamp.serial ==> f.session.id != e.session.id
  {
    if l != [] {
      var m, last := l[..|l| - 1], l[|l| - 1];
      LastInList(m, e);
      assert l == m + [last];
      forall f | f in m ensures f.stamp.serial < last.stamp.serial {
        var i :| 0 <= i < |m| && m[i] == f;
        assert l[i] == f;
      }
    }
  }

  /** What comes last in the stream comes last in its list, and the list streamed last decides. */
  lemma {:induction false} LastInStream(sender: Store, order: seq<string>, e: Stamped)
    requires WellKept(sender)
    ensures LastWithId(Streamed(sender.lists, map[], order), e.session.id) == Some(e) ==> LatestOfId(sender, e)
    ensures order != [] && order[|order| - 1] == e.stamp.peer && LatestOfId(sender, e) ==>
            LastWithId(Streamed(sender.lists, map[], order), e.session.id) == Some(e)
  {
    if order != [] {
      var o, p := order[..|order| - 1], order[|order| - 1];
      var l := Entries(sender, p);
      LastInStream(sender, o, e);
      SinceAll(l);
      LastWithIdAppend(Streamed(sender.lists, map[], o), l, e.session.id);
      LastInList(l, e);
      assert OfPeer(l, p);
    }
  }

  lemma {:induction false} OrderWithLast(keys: set<string>, p: string) returns (order: seq<string>)
    requires p in keys
    ensures Visits(order, keys) && order != [] && order[|order| - 1] == p
    decreases keys
  {
    if keys == {p} {
      order := [p];
    } else {
      var q :| q in keys && q != p;
      var rest := OrderWithLast(keys - {q}, p);
      order := [q] + rest;
    }
  }

  /**
    Whatever order the map is walked in, the index is copied exactly when the sender finds, of
    each list and id, the latest entry.
   */
  lemma FreshIndexAlways(sender: Store)
    requires WellKept(sender) && NoZero(sender) && IndexSound(sender)
    ensures (forall order :: Visits(order, sender.lists.Keys) ==> FreshIndex(sender, order) == sender.lookup) <==>
            forall e :: LatestOfId(sender, e) ==> Found(sender, e.session)
  {
    if forall e :: LatestOfId(sender, e) ==> Found(sender, e.session) {
      forall order | Visits(order, sender.lists.Keys) ensures FreshIndex(sender, order) == sender.lookup {
        FreshIndexExact(sender, order);
        forall e: Stamped | LastWithId(Streamed(sender.lists, map[], order), e.session.id) == Some(e)
          ensures Found(sender, e.session)
        {
          LastInStream(sender, order, e);
        }
      }
    }
    if forall order :: Visits(order, sender.lists.Keys) ==> FreshIndex(sender, order) == sender.lookup {
      forall e | LatestOfId(sender, e) ensures Found(sender, e.session) {
        var order := OrderWithLast(sender.lists.Keys, e.stamp.peer);
        FreshIndexExact(sender, order);
        LastInStream(sender, order, e);
      }
    }
  }

  const OLDER: Stamped := Stamped(Session("k", "old", 0), Stamp("q", 1))
  const NEWER: Stamped := Stamped(Session("k", "new", 5), Stamp("q", 2))

  /** What a cleaning pass leaves of these two, with one id: an entry that is not in the index. */
  const HIDING: Store := Store("p", 0, map[], map["q" := [NEWER]])

  lemma HidingReached()
    ensures CleanPass(Put(Put(Fresh("p"), OLDER).0, NEWER).0, 1) == HIDING
  {
    var r := Put(Fresh("p"), OLDER).0;
    assert Entries(Fresh("p"), "q") + [OLDER] == [OLDER];
    assert r == Store("p", 0, map["k" := OLDER.session], map["q" := [OLDER]]);
    var u := Put(r, NEWER).0;
    assert Entries(r, "q") + [NEWER] == [OLDER, NEWER];
    assert u == Store("p", 0, map["k" := NEWER.session], map["q" := [OLDER, NEWER]]);
    assert FirstExpired([OLDER, NEWER], 1) == 0;
    assert DropFirst([OLDER, NEWER], 1) == [NEWER];
    assert u.lists["q"][0].session.id in DroppedIds(u, u.lists.Keys, 1);
    assert CleanPass(u, 1).lists == map["q" := [NEWER]];
    assert CleanPass(u, 1).lookup == map[];
  }

  lemma HidingKept()
    ensures WellKept(HIDING) && NoZero(HIDING) && IndexSound(HIDING) && Visits(["q"], HIDING.lists.Keys)
    ensures Holds(HIDING, NEWER)
  {
    assert Entries(HIDING, "q") == [NEWER];
  }

  /** A new replica finds the id of every entry that the sender holds. */
  lemma CopyFindsHeld(sender: Store, order: seq<string>, e: Stamped)
    requires WellKept(sender) && NoZero(sender) && Visits(order, sender.lists.Keys) && Holds(sender, e)
    ensures e.session.id in FreshIndex(sender, order)
  {
    var xs := Streamed(sender.lists, map[], order);
    FreshReceiverCopies(sender, sender.id, order);
    SomethingStreamed(sender, map[], order, e);
    assert Lookup(Ingest(Fresh(sender.id), xs).0, e.session.id) == SessionOf(LastWithId(xs, e.session.id));
  }

  /** So after a cleaning pass that hides a session it finds what the sender does not. */
  lemma FreshCopyFindsMore()
    ensures CleanPass(Put(Put(Fresh("p"), OLDER).0, NEWER).0, 1) == HIDING
    ensures WellKept(HIDING) && NoZero(HIDING) && IndexSound(HIDING) && Visits(["q"], HIDING.lists.Keys)
    ensures Lookup(HIDING, NEWER.session.id) == None && NEWER.session.id in FreshIndex(HIDING, ["q"])
  {
    HidingReached();
    HidingKept();
    CopyFindsHeld(HIDING, ["q"], NEWER);
  }

  lemma {:induction false} SinceAll(l: seq<Stamped>)
    ensures Since(l, 0) == l
  {
    if l != [] {
      SinceAll(l[..|l| - 1]);
    }
  }
}
