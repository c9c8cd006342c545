/**
  The role mappings of an OpenID provider resource, parsed for use
  (state/openidprovider/convert.go).
 */
module Providers {
  import opened Options
  import opened RolePath
  import R = Roles

  datatype MappingSpec = MappingSpec(from: string, prefix: string, path: string)

  /** `Crashed` is the panic of the path parser. */
  datatype Conversion = Mappings(mappings: seq<R.RoleMapping>) | InvalidFrom | InvalidPath(error: Error) | Crashed

  const SOURCES: map<string, R.Source> :=
    map["" := R.AccessToken, "accesstoken" := R.AccessToken, "idtoken" := R.IdToken]

  function SourceNamed(from: string): Option<R.Source> {
    if from in SOURCES then Some(SOURCES[from]) else None
  }

  /** The access token by its name or by none, the ID token by its name. */
  predicate Calls(from: string, source: R.Source) {
    match source
    case AccessToken => from == "" || from == "accesstoken"
    case IdToken => from == "idtoken"
  }

  lemma SourceExact(from: string, source: R.Source)
    ensures SourceNamed(from) == Some(source) <==> Calls(from, source)
  {}

  function ConvertOne(u: Tables, spec: MappingSpec): Conversion {
    if SourceNamed(spec.from).None? then InvalidFrom
    else
      match ParsePath(u, spec.path)
      case Ok(path, _) => Mappings([R.RoleMapping(SourceNamed(spec.from).value, spec.prefix, path)])
      case Failed(e) => InvalidPath(e)
      case Panic => Crashed
  }

  /** The first mapping that cannot be converted decides. */
  function ConvertMappings(u: Tables, specs: seq<MappingSpec>): Conversion {
    if specs == [] then Mappings([])
    else
      match ConvertMappings(u, specs[..|specs| - 1])
      case Mappings(ms) =>
        (match ConvertOne(u, specs[|specs| - 1])
         case Mappings(m) => Mappings(ms + m)
         case other => other)
      case other => other
  }

  method ConvertMappingsLoop(u: Tables, specs: seq<MappingSpec>) returns (c: Conversion)
    ensures c == ConvertMappings(u, specs)
  {
    var maps := [];
    for i := 0 to |specs|
      invariant ConvertMappings(u, specs[..i]) == Mappings(maps)
    {
      assert specs[..i + 1][..i] == specs[..i];
      var from := SourceNamed(specs[i].from);
      if from.None? {
        FailureStays(u, specs, i + 1);
        return InvalidFrom;
      }
      var path := ParseRolePath(u, specs[i].path);
      match path {
        case Failed(e) =>
          FailureStays(u, specs, i + 1);
          return InvalidPath(e);
        case Panic =>
          FailureStays(u, specs, i + 1);
          return Crashed;
        case Ok(ids, _) =>
          maps := maps + [R.RoleMapping(from.value, specs[i].prefix, ids)];
      }
    }
    assert specs[..|specs|] == specs;
    return Mappings(maps);
  }

  lemma {:induction false} FailureStays(u: Tables, specs: seq<MappingSpec>, n: nat)
    requires n <= |specs| && !ConvertMappings(u, specs[..n]).Mappings?
    ensures ConvertMappings(u, specs) == ConvertMappings(u, specs[..n])
    decreases |specs| - n
  {
    if n < |specs| {
      assert specs[..n + 1][..n] == specs[..n];
      FailureStays(u, specs, n + 1);
    } else {
      assert specs[..n] == specs;
    }
  }

  /** The `i`-th mapping says what the `i`-th entry of the resource writes in the grammar of paths. */
  ghost predicate Faithful(u: Tables, spec: MappingSpec, m: R.RoleMapping) {
    && Calls(spec.from, m.from) && m.prefix == spec.prefix
    && exists gs :: ValidPath(u, gs) && PathText(gs) == spec.path && PathMeaning(u, gs) == m.path
  }

  lemma OneIsFaithful(u: Tables, spec: MappingSpec)
    requires ConvertOne(u, spec).Mappings?
    ensures |ConvertOne(u, spec).mappings| == 1
    ensures Faithful(u, spec, ConvertOne(u, spec).mappings[0])
    ensures ConvertOne(u, spec).mappings[0].path != [] && "" !in ConvertOne(u, spec).mappings[0].path
  {
    SourceExact(spec.from, SourceNamed(spec.from).value);
    var gs := ParsedIsPath(u, spec.path);
    ParsedIdentifiers(u, spec.path);
  }

  ghost predicate AllFaithful(u: Tables, specs: seq<MappingSpec>, ms: seq<R.RoleMapping>) {
    |ms| == |specs| && forall i :: 0 <= i < |specs| ==> Faithful(u, specs[i], ms[i])
  }

  /** No mapping is without a path, and no path has an empty identifier. */
  predicate HavePaths(ms: seq<R.RoleMapping>) {
    forall i :: 0 <= i < |ms| ==> ms[i].path != [] && "" !in ms[i].path
  }

  lemma LastConverted(u: Tables, specs: seq<MappingSpec>)
    requires specs != [] && ConvertMappings(u, specs).Mappings?
    ensures var init, last := specs[..|specs| - 1], specs[|specs| - 1];
      && ConvertMappings(u, init).Mappings? && ConvertOne(u, last).Mappings?
      && |ConvertOne(u, last).mappings| == 1
      && ConvertMappings(u, specs).mappings
         == ConvertMappings(u, init).mappings + [ConvertOne(u, last).mappings[0]]
  {
    var m := ConvertOne(u, specs[|specs| - 1]).mappings;
    assert m == [m[0]];
  }

  lemma {:induction false} ConvertedOneByOne(u: Tables, specs: seq<MappingSpec>, i: nat)
    requires ConvertMappings(u, specs).Mappings? && i < |specs|
    ensures |ConvertMappings(u, specs).mappings| == |specs|
    ensures ConvertOne(u, specs[i]).Mappings?
    ensures ConvertMappings(u, specs).mappings[i] == ConvertOne(u, specs[i]).mappings[0]
  {
    LastConverted(u, specs);
    if |specs| > 1 {
      ConvertedOneByOne(u, specs[..|specs| - 1], if i < |specs| - 1 then i else 0);
    }
  }

  /** Each mapping is faithful to its own entry, and usable. */
  lemma ConvertedAreFaithful(u: Tables, specs: seq<MappingSpec>)
    requires ConvertMappings(u, specs).Mappings?
    ensures var ms := ConvertMappings(u, specs).mappings; AllFaithful(u, specs, ms) && HavePaths(ms)
  {
    var ms := ConvertMappings(u, specs).mappings;
    if specs != [] {
      ConvertedOneByOne(u, specs, 0);
    }
    forall i | 0 <= i < |specs|
      ensures Faithful(u, specs[i], ms[i]) && ms[i].path != [] && "" !in ms[i].path
    {
      ConvertedOneByOne(u, specs, i);
      OneIsFaithful(u, specs[i]);
    }
  }

  /** The entry names a source and its path is a text of the grammar. */
  ghost predicate Writable(u: Tables, spec: MappingSpec) {
    (exists source :: Calls(spec.from, source)) && exists gs :: ValidPath(u, gs) && PathText(gs) == spec.path
  }

  lemma WritableExact(u: Tables, spec: MappingSpec)
    requires DotSeparates(u)
    ensures ConvertOne(u, spec).Mappings? <==> Writable(u, spec)
  {
    SourceExact(spec.from, R.AccessToken);
    SourceExact(spec.from, R.IdToken);
    if ParsePath(u, spec.path).Ok? {
      var gs := ParsedIsPath(u, spec.path);
      assert ValidPath(u, gs) && PathText(gs) == spec.path;
      assert SourceNamed(spec.from).Some? ==> Calls(spec.from, SourceNamed(spec.from).value);
    }
    forall gs | ValidPath(u, gs) && PathText(gs) == spec.path ensures ParsePath(u, spec.path).Ok? {
      PathParses(u, gs);
    }
  }

  lemma ConvertsStep(u: Tables, specs: seq<MappingSpec>)
    requires DotSeparates(u) && specs != []
    ensures ConvertMappings(u, specs).Mappings? <==>
            ConvertMappings(u, specs[..|specs| - 1]).Mappings? && Writable(u, specs[|specs| - 1])
  {
    WritableExact(u, specs[|specs| - 1]);
  }

  /** A provider converts exactly when every source is known and every path is one of the grammar. */
  lemma {:induction false} ConvertsExact(u: Tables, specs: seq<MappingSpec>)
    requires DotSeparates(u)
    ensures ConvertMappings(u, specs).Mappings? <==> forall i :: 0 <= i < |specs| ==> Writable(u, specs[i])
  {
    if specs != [] {
      var init := specs[..|specs| - 1];
      ConvertsStep(u, specs);
      ConvertsExact(u, init);
      assert forall i :: 0 <= i < |init| ==> init[i] == specs[i];
      if forall i :: 0 <= i < |init| ==> Writable(u, init[i]) {
        forall i | 0 <= i < |specs| - 1 ensures Writable(u, specs[i]) {
          assert Writable(u, init[i]);
        }
      }
    }
  }

  /**
    The first entry that cannot be converted decides what is reported: its source if that is
    unknown, and else what the parser says about its path.
   */
  lemma {:induction false} FirstBadDecides(u: Tables, specs: seq<MappingSpec>, i: nat)
    requires i < |specs| && !ConvertOne(u, specs[i]).Mappings?
    requires forall j :: 0 <= j < i ==> ConvertOne(u, specs[j]).Mappings?
    ensures (forall source :: !Calls(specs[i].from, source)) ==> ConvertMappings(u, specs) == InvalidFrom
    ensures (exists source :: Calls(specs[i].from, source)) ==>
      ConvertMappings(u, specs) == match ParsePath(u, specs[i].path)
                                   case Failed(e) => InvalidPath(e)
                                   case _ => Crashed
  {
    var n := |specs| - 1;
    if i < n {
      assert forall j :: 0 <= j < n ==> specs[..n][j] == specs[j];
      FirstBadDecides(u, specs[..n], i);
    } else {
      AllConvert(u, specs[..n]);
      SourceExact(specs[n].from, R.AccessToken);
      SourceExact(specs[n].from, R.IdToken);
      assert SourceNamed(specs[n].from).Some? ==> Calls(specs[n].from, SourceNamed(specs[n].from).value);
    }
  }

  lemma {:induction false} AllConvert(u: Tables, specs: seq<MappingSpec>)
    requires forall j :: 0 <= j < |specs| ==> ConvertOne(u, specs[j]).Mappings?
    ensures ConvertMappings(u, specs).Mappings?
  {
    if specs != [] {
      AllConvert(u, specs[..|specs| - 1]);
    }
  }

  /** A converted provider's mappings never fail for want of a path. */
  lemma ConvertedNeverLackPath(u: Tables, specs: seq<MappingSpec>, at: R.Json, idt: R.Json)
    requires ConvertMappings(u, specs).Mappings?
    ensures var ms := ConvertMappings(u, specs).mappings;
      R.CollectRoles(ms, at, idt).Err? <==>
      exists m, tok :: m in ms && R.Names(m, at, idt, tok) && R.Misshapen(m.path, tok)
  {
    var ms := ConvertMappings(u, specs).mappings;
    ConvertedAreFaithful(u, specs);
    R.CollectFails(ms, at, idt);
    forall m | m in ms ensures m.path != [] {
    }
    if m :| m in ms && R.Unusable(m, at, idt) {
      var tok :| R.Names(m, at, idt, tok) && R.Misshapen(m.path, tok);
      assert m in ms && R.Names(m, at, idt, tok) && R.Misshapen(m.path, tok);
    }
  }
}
