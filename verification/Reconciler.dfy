/**
  The controller that fills Envoy filters and deletes duplicates
  (controller/envoyfilter/reconciler.go).
 */
module Reconciler {
  import opened Options
  import opened Policies
  import opened EnvoyFilters

  type Created = int

  datatype Filter = Filter(name: string, created: Created, selector: Labels)

  /** `Crash` is the panic of reading the first element of an empty slice. */
  datatype Action = Crash | Delete | Update(patches: seq<Patch>)

  // ---------------------------------------------------------------------------
  // One reconcile

  lemma {:induction false} SomeOldest(fs: seq<Filter>) returns (f: Filter)
    requires fs != []
    ensures f in fs && forall g :: g in fs ==> f.created <= g.created
  {
    var n := |fs| - 1;
    assert fs == fs[..n] + [fs[n]];
    f := fs[n];
    if n > 0 {
      var g := SomeOldest(fs[..n]);
      if g.created < f.created {
        f := g;
      }
    }
  }

  /** No two filters have one name. */
  predicate UniqueNames(all: seq<Filter>) {
    forall f, g :: f in all && g in all && f.name == g.name ==> f == g
  }

  /** `f` is among the oldest of its selector. */
  predicate IsOldest(all: seq<Filter>, f: Filter) {
    f in all && forall g :: g in all && g.selector == f.selector ==> f.created <= g.created
  }

  /** The listing that is sorted has no filter of that selector; `ef` itself may be gone by now. */
  predicate NoneListed(all: seq<Filter>, ef: Filter) {
    forall f :: f in all ==> f.selector != ef.selector
  }

  /** `first` is what the sort puts in front; there is none exactly when the read of it panics. */
  method IsDuplicate(all: seq<Filter>, ef: Filter) returns (dup: bool, first: Option<Filter>)
    ensures first.None? <==> NoneListed(all, ef)
    ensures first.Some? ==> first.value.selector == ef.selector && IsOldest(all, first.value)
    ensures first.Some? ==> (dup <==> ef.name != first.value.name)
  {
    var efs: seq<Filter> := [];
    for i := 0 to |all|
      invariant forall f :: f in efs <==> f in all[..i] && f.selector == ef.selector
    {
      assert all[..i + 1] == all[..i] + [all[i]];
      if all[i].selector == ef.selector {
        efs := efs + [all[i]];
      }
    }
    assert all[..|all|] == all;
    if |efs| == 0 {
      assert forall f :: f in all && f.selector == ef.selector ==> f in efs;
      return false, None;
    }
    // What the library's sort by creation time puts first: one of the oldest, whichever.
    assert efs[0] in efs;
    ghost var oldest := SomeOldest(efs);
    var f :| f in efs && forall g :: g in efs ==> f.created <= g.created;
    return ef.name != f.name, Some(f);
  }

  method FetchAccessPolicies(aps: seq<Applied>, selector: Labels, parse: UrlParser)
    returns (pols: seq<Policy>)
    ensures pols == FetchPolicies(aps, selector, parse)
  {
    pols := [];
    for i := 0 to |aps|
      invariant pols == FetchPolicies(aps[..i], selector, parse)
    {
      assert aps[..i + 1][..i] == aps[..i];
      if aps[i].ap.selector == selector {
        var pol := Convert(aps[i].ap, None, [], parse);
        if pol.Some? {
          pols := pols + [pol.value];
        }
      }
    }
    assert aps[..|aps|] == aps;
  }

  /** It panics exactly when no filter of the selector is listed any more. */
  method Reconcile(all: seq<Filter>, ef: Filter, aps: seq<Applied>, parse: UrlParser, cfg: Config)
    returns (action: Action, first: Option<Filter>)
    ensures action.Crash? <==> NoneListed(all, ef)
    ensures action.Crash? <==> first.None?
    ensures first.Some? ==> first.value.selector == ef.selector && IsOldest(all, first.value)
    ensures first.Some? ==>
      (action.Delete? <==> ef.name != first.value.name || NoneApplies(aps, ef.selector, parse))
    ensures action.Update? ==> Expected(cfg, FetchPolicies(aps, ef.selector, parse), action.patches)
  {
    FetchExact(aps, ef.selector, parse);
    var dup;
    dup, first := IsDuplicate(all, ef);
    if first.None? {
      return Crash, first;
    }
    if dup {
      return Delete, first;
    }
    var pols := FetchAccessPolicies(aps, ef.selector, parse);
    if |pols| == 0 {
      return Delete, first;
    }
    var patches := NewEnvoyFilter(cfg, pols);
    return Update(patches), first;
  }

  // ---------------------------------------------------------------------------
  // Any order of reconciles over the filters of one selector, with a valid policy for it

  /** `ef` was reconciled and `first` came out of the sort in front. */
  datatype Turn = Turn(ef: Filter, first: Filter)

  ghost predicate Possible(fs: set<Filter>, t: Turn) {
    t.ef in fs ==> t.first in fs && forall g :: g in fs ==> t.first.created <= g.created
  }

  /** A filter that is gone already is not found, and nothing happens. */
  function Take(fs: set<Filter>, t: Turn): set<Filter> {
    if t.ef in fs && t.ef != t.first then fs - {t.ef} else fs
  }

  /** What `Reconcile` decides for a listed filter is a turn among the filters of its selector; no panic then. */
  lemma ReconcileIsTurn(all: seq<Filter>, ef: Filter, first: Filter)
    requires ef in all && UniqueNames(all) && IsOldest(all, first) && first.selector == ef.selector
    ensures !NoneListed(all, ef)
    ensures var fs := set f | f in all && f.selector == ef.selector;
      && Possible(fs, Turn(ef, first))
      && Take(fs, Turn(ef, first)) == if ef.name != first.name then fs - {ef} else fs
  {}

  ghost predicate IsRun(fs: set<Filter>, ts: seq<Turn>)
    decreases |ts|
  {
    ts == [] || (Possible(fs, ts[0]) && IsRun(Take(fs, ts[0]), ts[1..]))
  }

  function After(fs: set<Filter>, ts: seq<Turn>): set<Filter>
    decreases |ts|
  {
    if ts == [] then fs else After(Take(fs, ts[0]), ts[1..])
  }

  /** `m` is the creation time of the oldest. */
  ghost predicate OldestAge(fs: set<Filter>, m: Created) {
    (exists f :: f in fs && f.created == m) && forall f :: f in fs ==> m <= f.created
  }

  lemma {:induction false} OldestAgeStays(fs: set<Filter>, ts: seq<Turn>, m: Created)
    requires OldestAge(fs, m) && IsRun(fs, ts)
    ensures OldestAge(After(fs, ts), m) && After(fs, ts) <= fs
    decreases |ts|
  {
    if ts != [] {
      var f :| f in fs && f.created == m;
      assert ts[0].ef in fs ==> ts[0].first in Take(fs, ts[0]);
      assert OldestAge(Take(fs, ts[0]), m);
      OldestAgeStays(Take(fs, ts[0]), ts[1..], m);
    }
  }

  lemma {:induction false} YoungerGoes(fs: set<Filter>, ts: seq<Turn>, m: Created, f: Filter)
    requires OldestAge(fs, m) && IsRun(fs, ts)
    requires f.created > m && exists i :: 0 <= i < |ts| && ts[i].ef == f
    ensures f !in After(fs, ts)
    decreases |ts|
  {
    OldestAgeStays(fs, [ts[0]], m);
    assert Take(fs, ts[0]) == After(fs, [ts[0]]) by {
      assert [ts[0]][1..] == [];
    }
    if ts[0].ef == f {
      assert f !in Take(fs, ts[0]);
      OldestAgeStays(Take(fs, ts[0]), ts[1..], m);
    } else {
      var i :| 0 <= i < |ts| && ts[i].ef == f;
      assert ts[1..][i - 1].ef == f;
      YoungerGoes(Take(fs, ts[0]), ts[1..], m, f);
    }
  }

  /** Every filter has had its turn. */
  ghost predicate EachHadTurn(fs: set<Filter>, ts: seq<Turn>) {
    forall f :: f in fs ==> exists i :: 0 <= i < |ts| && ts[i].ef == f
  }

  /**
    However ties are sorted: some filter of the oldest age is always left, and once each
    filter has had its turn only filters of that age are.
   */
  lemma SurvivorsAreOldest(fs: set<Filter>, ts: seq<Turn>, m: Created)
    requires OldestAge(fs, m) && IsRun(fs, ts)
    ensures exists f :: f in After(fs, ts) && f.created == m
    ensures EachHadTurn(fs, ts) ==> forall f :: f in After(fs, ts) ==> f.created == m
  {
    OldestAgeStays(fs, ts, m);
    if EachHadTurn(fs, ts) {
      forall f | f in After(fs, ts) ensures f.created == m {
        if f.created > m {
          YoungerGoes(fs, ts, m, f);
        }
      }
    }
  }

  /** `f` is strictly older than every other. */
  ghost predicate StrictlyOldest(fs: set<Filter>, f: Filter) {
    f in fs && forall g :: g in fs && g != f ==> f.created < g.created
  }

  /** A strictly oldest filter is never deleted and in the end it is the only one left. */
  lemma OnlyTheOldestIsLeft(fs: set<Filter>, ts: seq<Turn>, oldest: Filter)
    requires StrictlyOldest(fs, oldest) && IsRun(fs, ts)
    ensures oldest in After(fs, ts)
    ensures EachHadTurn(fs, ts) ==> After(fs, ts) == {oldest}
  {
    OldestAgeStays(fs, ts, oldest.created);
    SurvivorsAreOldest(fs, ts, oldest.created);
  }

  // ---------------------------------------------------------------------------
  // Ties

  ghost predicate TiedOldest(fs: set<Filter>, a: Filter, b: Filter) {
    a != b && a in fs && b in fs && forall g :: g in fs ==> a.created <= g.created && b.created <= g.created
  }

  /** The sort puts `a` first, except when `b` has its turn. */
  function Favouring(a: Filter, b: Filter, f: Filter): Turn {
    Turn(f, if f == b then b else a)
  }

  lemma {:induction false} TurnsFavouring(fs: set<Filter>, todo: set<Filter>, a: Filter, b: Filter)
    returns (ts: seq<Turn>)
    requires TiedOldest(fs, a, b)
    ensures IsRun(fs, ts) && EachHadTurn(todo, ts)
    ensures a in After(fs, ts) && b in After(fs, ts)
    decreases todo
  {
    if todo == {} {
      ts := [];
    } else {
      var f :| f in todo;
      var t := Favouring(a, b, f);
      var rest := TurnsFavouring(Take(fs, t), todo - {f}, a, b);
      ts := [t] + rest;
      assert ts[1..] == rest && ts[0].ef == f;
      forall g | g in todo ensures exists i :: 0 <= i < |ts| && ts[i].ef == g {
        if g != f {
          assert g in todo - {f};
          var i :| 0 <= i < |rest| && rest[i].ef == g;
          assert ts[i + 1].ef == g;
        }
      }
    }
  }

  /** Of any filters with two tied for the oldest, both can be left although each filter had its turn. */
  lemma TiedFiltersCanBothStay(fs: set<Filter>, a: Filter, b: Filter)
    requires TiedOldest(fs, a, b)
    ensures exists ts :: IsRun(fs, ts) && EachHadTurn(fs, ts) && a in After(fs, ts) && b in After(fs, ts)
  {
    var ts := TurnsFavouring(fs, fs, a, b);
  }

  lemma {:induction false} OldestOrTied(fs: set<Filter>) returns (a: Filter, b: Filter)
    requires fs != {}
    ensures StrictlyOldest(fs, a) || TiedOldest(fs, a, b)
    decreases fs
  {
    a :| a in fs;
    b := a;
    if fs != {a} {
      var c, d := OldestOrTied(fs - {a});
      if a.created < c.created {
        assert StrictlyOldest(fs, a);
      } else if a.created == c.created {
        b := c;
      } else {
        a, b := c, d;
      }
    }
  }

  /** Every run that gives each filter its turn leaves exactly one. */
  ghost predicate AlwaysOneLeft(fs: set<Filter>) {
    forall ts :: IsRun(fs, ts) && EachHadTurn(fs, ts) ==> exists f :: After(fs, ts) == {f}
  }

  /** Duplicates are always cleared down to one filter exactly when one is strictly oldest. */
  lemma OneLeftExactly(fs: set<Filter>)
    ensures AlwaysOneLeft(fs) <==> exists f :: StrictlyOldest(fs, f)
  {
    if f :| StrictlyOldest(fs, f) {
      forall ts | IsRun(fs, ts) && EachHadTurn(fs, ts) ensures exists g :: After(fs, ts) == {g} {
        OnlyTheOldestIsLeft(fs, ts, f);
      }
    } else if fs == {} {
      assert IsRun(fs, []) && EachHadTurn(fs, []) && After(fs, []) == {};
    } else {
      var a, b := OldestOrTied(fs);
      TiedFiltersCanBothStay(fs, a, b);
      var ts :| IsRun(fs, ts) && EachHadTurn(fs, ts) && a in After(fs, ts) && b in After(fs, ts);
      forall f ensures After(fs, ts) != {f} {
        assert a != b;
      }
    }
  }
}
