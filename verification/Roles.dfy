/**
  From the claims of the provider's tokens to the roles of a session and the decision
  whether they are enough (state/openidprovider/roles.go, token.go, auth/roles.go).
 */
module Roles {
  datatype Result<+T> = Ok(value: T) | Err

  /** A decoded JSON value; a number is kept as the decimal text it is formatted to. */
  datatype Json =
    | Null
    | Bool(b: bool)
    | Number(text: string)
    | Str(s: string)
    | Arr(items: seq<Json>)
    | Obj(fields: map<string, Json>)

  datatype Source = AccessToken | IdToken
  datatype RoleMapping = RoleMapping(from: Source, prefix: string, path: seq<string>)

  // ---------------------------------------------------------------------------
  // Extraction

  function ConvertValue(v: Json): Result<string> {
    match v
    case Bool(b) => Ok(if b then "true" else "false")
    case Number(t) => Ok(t)
    case Str(s) => Ok(s)
    case Null => Ok("null")
    case Arr(_) => Err
    case Obj(_) => Err
  }

  function ConvertSlice(items: seq<Json>): Result<seq<string>> {
    if items == [] then Ok([])
    else
      match (ConvertSlice(items[..|items| - 1]), ConvertValue(items[|items| - 1]))
      case (Ok(ss), Ok(s)) => Ok(ss + [s])
      case _ => Err
  }

  /** `convertSlice`: stops at the first element that is no scalar. */
  method ConvertSliceLoop(items: seq<Json>) returns (r: Result<seq<string>>)
    ensures r == ConvertSlice(items)
  {
    var strs := [];
    for i := 0 to |items|
      invariant ConvertSlice(items[..i]) == Ok(strs)
    {
      assert items[..i + 1][..i] == items[..i];
      var s := ConvertValue(items[i]);
      if s.Err? {
        ConvertSliceErr(items, i + 1);
        return Err;
      }
      strs := strs + [s.value];
    }
    assert items[..|items|] == items;
    return Ok(strs);
  }

  lemma {:induction false} ConvertSliceErr(items: seq<Json>, n: nat)
    requires n <= |items| && ConvertSlice(items[..n]).Err?
    ensures ConvertSlice(items).Err?
    decreases |items| - n
  {
    if n < |items| {
      assert items[..n + 1][..n] == items[..n];
      ConvertSliceErr(items, n + 1);
    } else {
      assert items[..n] == items;
    }
  }

  function Convert(v: Json): Result<seq<string>> {
    if v.Arr? then ConvertSlice(v.items)
    else
      match ConvertValue(v)
      case Ok(s) => Ok([s])
      case Err => Err
  }

  /** A missing key yields no roles; a path that leads through something else than an object fails. */
  function ExtractRoles(path: seq<string>, obj: Json): Result<seq<string>>
    decreases |path|
  {
    if path == [] || !obj.Obj? then Err
    else if path[0] !in obj.fields then Ok([])
    else if |path| == 1 then Convert(obj.fields[path[0]])
    else ExtractRoles(path[1..], obj.fields[path[0]])
  }

  /** The text of a scalar: a string is its own, and arrays and objects have none. */
  predicate Spells(v: Json, text: string) {
    || v == Str(text) || v == Number(text)
    || (v == Bool(true) && text == "true") || (v == Bool(false) && text == "false")
    || (v == Null && text == "null")
  }

  /** `role` is written at `path`: as a scalar or as an element of an array. */
  ghost predicate WrittenAt(path: seq<string>, v: Json, role: string)
    decreases |path|
  {
    if path == [] then
      if v.Arr? then exists x :: x in v.items && Spells(x, role)
      else Spells(v, role)
    else v.Obj? && path[0] in v.fields && WrittenAt(path[1..], v.fields[path[0]], role)
  }

  /**
    What is found along `path` has the wrong shape: no object on the way, or neither a scalar
    nor an array of scalars at the end.
   */
  ghost predicate Misshapen(path: seq<string>, v: Json)
    decreases |path|
  {
    if path == [] then
      v.Obj? || (v.Arr? && exists x :: x in v.items && (x.Arr? || x.Obj?))
    else !v.Obj? || (path[0] in v.fields && Misshapen(path[1..], v.fields[path[0]]))
  }

  /** Exactly arrays and objects have no text, and any other value has the one it is converted to. */
  lemma ConvertValueExact(v: Json)
    ensures ConvertValue(v).Err? <==> v.Arr? || v.Obj?
    ensures forall text :: ConvertValue(v) == Ok(text) <==> Spells(v, text)
  {}

  /** The texts of all elements in their order, and an error exactly if one of them has none. */
  lemma {:induction false} ConvertSliceExact(items: seq<Json>)
    ensures ConvertSlice(items).Err? <==> exists x :: x in items && (x.Arr? || x.Obj?)
    ensures ConvertSlice(items).Ok? ==>
      && |ConvertSlice(items).value| == |items|
      && forall i :: 0 <= i < |items| ==> Spells(items[i], ConvertSlice(items).value[i])
  {
    if items != [] {
      var init, last := items[..|items| - 1], items[|items| - 1];
      ConvertSliceExact(init);
      ConvertValueExact(last);
      assert items == init + [last];
      assert forall x :: x in items <==> x in init || x == last;
    }
  }

  lemma SliceRoles(items: seq<Json>, role: string)
    requires ConvertSlice(items).Ok?
    ensures role in ConvertSlice(items).value <==> exists x :: x in items && Spells(x, role)
  {
    ConvertSliceExact(items);
    var ss := ConvertSlice(items).value;
    if role in ss {
      var i :| 0 <= i < |ss| && ss[i] == role;
      assert items[i] in items && Spells(items[i], role);
    }
    if x :| x in items && Spells(x, role) {
      var i :| 0 <= i < |items| && items[i] == x;
      SpelledOnce(x, role, ss[i]);
    }
  }

  lemma SpelledOnce(v: Json, a: string, b: string)
    requires Spells(v, a) && Spells(v, b)
    ensures a == b
  {}

  lemma ConvertExact(v: Json)
    ensures Convert(v).Err? <==> Misshapen([], v)
    ensures Convert(v).Ok? ==> forall role :: role in Convert(v).value <==> WrittenAt([], v, role)
  {
    if v.Arr? {
      ConvertSliceExact(v.items);
      if Convert(v).Ok? {
        forall role ensures role in Convert(v).value <==> WrittenAt([], v, role) {
          SliceRoles(v.items, role);
        }
      }
    } else {
      ConvertValueExact(v);
    }
  }

  /** Extraction yields exactly the roles written at the path, and fails exactly on a wrong shape. */
  lemma {:induction false} ExtractExact(path: seq<string>, obj: Json)
    requires path != []
    ensures ExtractRoles(path, obj).Err? <==> Misshapen(path, obj)
    ensures ExtractRoles(path, obj).Ok? ==> forall role ::
              role in ExtractRoles(path, obj).value <==> WrittenAt(path, obj, role)
    decreases |path|
  {
    if obj.Obj? && path[0] in obj.fields {
      var v := obj.fields[path[0]];
      if |path| == 1 {
        assert path[1..] == [];
        ConvertExact(v);
      } else {
        ExtractExact(path[1..], v);
      }
    }
  }

  // ---------------------------------------------------------------------------
  // Collecting the roles of all mappings

  function TokenOf(m: RoleMapping, at: Json, idt: Json): Json {
    match m.from
    case AccessToken => at
    case IdToken => idt
  }

  function Under(roles: map<string, seq<string>>, prefix: string): seq<string> {
    if prefix in roles then roles[prefix] else []
  }

  function CollectRoles(maps: seq<RoleMapping>, at: Json, idt: Json): Result<map<string, seq<string>>> {
    if maps == [] then Ok(map[])
    else
      var m := maps[|maps| - 1];
      match (CollectRoles(maps[..|maps| - 1], at, idt), ExtractRoles(m.path, TokenOf(m, at, idt)))
      case (Ok(roles), Ok(found)) => Ok(roles[m.prefix := Under(roles, m.prefix) + found])
      case _ => Err
  }

  /** The role-collecting loop of `extractTokenData`. */
  method CollectRolesLoop(maps: seq<RoleMapping>, at: Json, idt: Json)
    returns (r: Result<map<string, seq<string>>>)
    ensures r == CollectRoles(maps, at, idt)
  {
    var roles: map<string, seq<string>> := map[];
    for i := 0 to |maps|
      invariant CollectRoles(maps[..i], at, idt) == Ok(roles)
    {
      assert maps[..i + 1][..i] == maps[..i];
      var m := maps[i];
      var tok := match m.from case AccessToken => at case IdToken => idt;
      var extracted := ExtractRoles(m.path, tok);
      if extracted.Err? {
        CollectErr(maps, at, idt, i + 1);
        return Err;
      }
      roles := roles[m.prefix := Under(roles, m.prefix) + extracted.value];
    }
    assert maps[..|maps|] == maps;
    return Ok(roles);
  }

  lemma {:induction false} CollectErr(maps: seq<RoleMapping>, at: Json, idt: Json, n: nat)
    requires n <= |maps| && CollectRoles(maps[..n], at, idt).Err?
    ensures CollectRoles(maps, at, idt).Err?
    decreases |maps| - n
  {
    if n < |maps| {
      assert maps[..n + 1][..n] == maps[..n];
      CollectErr(maps, at, idt, n + 1);
    } else {
      assert maps[..n] == maps;
    }
  }

  /** The collected roles contain `role`: some prefix followed by one of its roles. */
  ghost predicate Provides(roles: map<string, seq<string>>, role: string) {
    exists k, r :: k in roles && r in roles[k] && role == k + r
  }

  /** `tok` is the token that the mapping names. */
  predicate Names(m: RoleMapping, at: Json, idt: Json, tok: Json) {
    (m.from == AccessToken && tok == at) || (m.from == IdToken && tok == idt)
  }

  /** Some mapping gives `role`: its prefix followed by a role written at its path in the token it names. */
  ghost predicate Granted(maps: seq<RoleMapping>, at: Json, idt: Json, role: string) {
    exists m, tok, r :: m in maps && Names(m, at, idt, tok) && WrittenAt(m.path, tok, r) && role == m.prefix + r
  }

  /** A mapping that cannot be evaluated: it has no path, or finds a wrong shape in the token it names. */
  ghost predicate Unusable(m: RoleMapping, at: Json, idt: Json) {
    m.path == [] || exists tok :: Names(m, at, idt, tok) && Misshapen(m.path, tok)
  }

  lemma UnusableExact(m: RoleMapping, at: Json, idt: Json)
    ensures ExtractRoles(m.path, TokenOf(m, at, idt)).Err? <==> Unusable(m, at, idt)
  {
    assert Names(m, at, idt, TokenOf(m, at, idt));
    if m.path != [] {
      ExtractExact(m.path, TokenOf(m, at, idt));
    }
  }

  lemma CollectFailsStep(maps: seq<RoleMapping>, at: Json, idt: Json)
    requires maps != []
    ensures CollectRoles(maps, at, idt).Err? <==>
            CollectRoles(maps[..|maps| - 1], at, idt).Err? || Unusable(maps[|maps| - 1], at, idt)
  {
    UnusableExact(maps[|maps| - 1], at, idt);
  }

  lemma {:induction false} CollectFails(maps: seq<RoleMapping>, at: Json, idt: Json)
    ensures CollectRoles(maps, at, idt).Err? <==> exists m :: m in maps && Unusable(m, at, idt)
  {
    if maps != [] {
      var init, last := maps[..|maps| - 1], maps[|maps| - 1];
      CollectFailsStep(maps, at, idt);
      CollectFails(init, at, idt);
      assert maps == init + [last];
      assert forall m :: m in maps <==> m in init || m == last;
    }
  }

  lemma AddedUnderPrefix(roles: map<string, seq<string>>, prefix: string, found: seq<string>, role: string)
    ensures Provides(roles[prefix := Under(roles, prefix) + found], role) <==>
            Provides(roles, role) || exists r :: r in found && role == prefix + r
  {
    var more := roles[prefix := Under(roles, prefix) + found];
    if Provides(more, role) {
      var k, r :| k in more && r in more[k] && role == k + r;
      if k == prefix && r in found {
      } else {
        assert k in roles && r in roles[k];
      }
    }
    if Provides(roles, role) {
      var k, r :| k in roles && r in roles[k] && role == k + r;
      assert r in more[k];
    }
    if exists r :: r in found && role == prefix + r {
      var r :| r in found && role == prefix + r;
      assert r in more[prefix];
    }
  }

  lemma {:induction false} CollectExact(maps: seq<RoleMapping>, at: Json, idt: Json, role: string)
    requires CollectRoles(maps, at, idt).Ok?
    ensures Provides(CollectRoles(maps, at, idt).value, role) <==> Granted(maps, at, idt, role)
  {
    if maps != [] {
      var init, last := maps[..|maps| - 1], maps[|maps| - 1];
      assert maps == init + [last];
      CollectExact(init, at, idt, role);
      var found := ExtractRoles(last.path, TokenOf(last, at, idt)).value;
      AddedUnderPrefix(CollectRoles(init, at, idt).value, last.prefix, found, role);
      ExtractExact(last.path, TokenOf(last, at, idt));
      assert forall m :: m in maps <==> m in init || m == last;
      if exists r :: r in found && role == last.prefix + r {
        var r :| r in found && role == last.prefix + r;
        assert last in maps && WrittenAt(last.path, TokenOf(last, at, idt), r);
      }
    }
  }

  // ---------------------------------------------------------------------------
  // The decision

  ghost predicate Covers(required: seq<string>, roles: map<string, seq<string>>) {
    forall v :: v in required ==> Provides(roles, v)
  }

  /** `hasRoles`: write out every provided role, then look for each required one. */
  method HasRoles(required: seq<string>, provided: map<string, seq<string>>) returns (allow: bool)
    ensures allow <==> Covers(required, provided)
  {
    var resolved: seq<string> := [];
    var todo := provided.Keys;
    while todo != {}
      invariant todo <= provided.Keys
      invariant forall v :: v in resolved <==>
                  exists k, r :: k in provided.Keys - todo && r in provided[k] && v == k + r
      decreases todo
    {
      var k :| k in todo;
      var prefixed := Prefixed(k, provided[k]);
      resolved := resolved + prefixed;
      todo := todo - {k};
    }
    var found: set<string> := {};
    for i := 0 to |resolved|
      invariant forall v :: v in found <==> v in resolved[..i]
    {
      assert resolved[..i + 1] == resolved[..i] + [resolved[i]];
      found := found + {resolved[i]};
    }
    assert resolved[..|resolved|] == resolved;
    assert forall v :: v in found <==> Provides(provided, v);
    allow := true;
    for i := 0 to |required|
      invariant allow && forall j :: 0 <= j < i ==> Provides(provided, required[j])
    {
      if required[i] !in found {
        allow := false;
        assert required[i] in required;
        break;
      }
    }
  }

  method Prefixed(k: string, rs: seq<string>) returns (out: seq<string>)
    ensures forall v :: v in out <==> exists r :: r in rs && v == k + r
  {
    out := [];
    for i := 0 to |rs|
      invariant forall v :: v in out <==> exists r :: r in rs[..i] && v == k + r
    {
      assert rs[..i + 1] == rs[..i] + [rs[i]];
      assert rs[i] in rs[..i + 1];
      out := out + [k + rs[i]];
    }
    assert rs[..|rs|] == rs;
  }

  /**
    When token data is produced, access is granted exactly when every required role comes from
    some mapping.
   */
  lemma AccessExact(maps: seq<RoleMapping>, at: Json, idt: Json, required: seq<string>)
    requires CollectRoles(maps, at, idt).Ok?
    ensures Covers(required, CollectRoles(maps, at, idt).value) <==>
            forall v :: v in required ==> Granted(maps, at, idt, v)
  {
    forall v ensures Provides(CollectRoles(maps, at, idt).value, v) <==> Granted(maps, at, idt, v) {
      CollectExact(maps, at, idt, v);
    }
  }

  /** The order and repetition of mappings changes neither success nor the decision. */
  lemma MappingOrderIrrelevant(
      maps: seq<RoleMapping>, other: seq<RoleMapping>, at: Json, idt: Json, required: seq<string>)
    requires forall m :: m in maps <==> m in other
    ensures CollectRoles(maps, at, idt).Ok? <==> CollectRoles(other, at, idt).Ok?
    ensures CollectRoles(maps, at, idt).Ok? ==>
      (Covers(required, CollectRoles(maps, at, idt).value) <==>
       Covers(required, CollectRoles(other, at, idt).value))
  {
    CollectFails(maps, at, idt);
    CollectFails(other, at, idt);
    if CollectRoles(maps, at, idt).Ok? {
      AccessExact(maps, at, idt, required);
      AccessExact(other, at, idt, required);
      assert forall v :: Granted(maps, at, idt, v) <==> Granted(other, at, idt, v);
    }
  }
}
