/** Role-based access: the authorizer is folded from configuration blocks, validated, and asked about requests. */
module Rbac {
  import opened Wrappers
  import opened Text

  datatype Role = Role(name: string, desc: string)

  /** One APIv1 block; its name is the method, a space and the path. */
  datatype ApiBlock = ApiBlock(name: string, allowedRoles: seq<string>)

  type Mapping = map<string, map<string, seq<string>>>

  const STATIC_API_V1: map<string, set<string>> := map[
    "/api/v1/spire/serverinfo" := {"GET"},
    "/api/v1/spire/healthcheck" := {"GET"},
    "/api/v1/spire/entries" := {"GET", "POST", "DELETE"},
    "/api/v1/spire/agents" := {"GET", "POST", "DELETE"},
    "/api/v1/spire/agents/ban" := {"POST"},
    "/api/v1/spire/agents/jointoken" := {"POST"},
    "/api/v1/tornjak/clusters" := {"GET", "POST", "PATCH", "DELETE"},
    "/api/v1/tornjak/selectors" := {"GET", "POST"},
    "/api/v1/tornjak/agents" := {"GET"},
    "/api/v1/tornjak/serverinfo" := {"GET"},
    "/api/v1/spire/bundle" := {"GET"},
    "/api/v1/spire/federations/bundles" := {"GET", "POST", "DELETE", "PATCH"}]

  predicate InStaticTable(path: string, httpMethod: string) {
    path in STATIC_API_V1 && httpMethod in STATIC_API_V1[path]
  }

  /** The same table, method by method. */
  lemma StaticTable(path: string)
    ensures InStaticTable(path, "GET") <==> path in {
      "/api/v1/spire/serverinfo", "/api/v1/spire/healthcheck", "/api/v1/spire/entries", "/api/v1/spire/agents",
      "/api/v1/tornjak/clusters", "/api/v1/tornjak/selectors", "/api/v1/tornjak/agents", "/api/v1/tornjak/serverinfo",
      "/api/v1/spire/bundle", "/api/v1/spire/federations/bundles"}
    ensures InStaticTable(path, "POST") <==> path in {
      "/api/v1/spire/entries", "/api/v1/spire/agents", "/api/v1/spire/agents/ban", "/api/v1/spire/agents/jointoken",
      "/api/v1/tornjak/clusters", "/api/v1/tornjak/selectors", "/api/v1/spire/federations/bundles"}
    ensures InStaticTable(path, "DELETE") <==> path in {
      "/api/v1/spire/entries", "/api/v1/spire/agents", "/api/v1/tornjak/clusters",
      "/api/v1/spire/federations/bundles"}
    ensures InStaticTable(path, "PATCH") <==> path in {
      "/api/v1/tornjak/clusters", "/api/v1/spire/federations/bundles"}
    ensures forall httpMethod | InStaticTable(path, httpMethod) :: httpMethod in {"GET", "POST", "DELETE", "PATCH"}
  {
  }

  datatype ConfigError =
    | NoRoles
    | UnknownApi(path: string, httpMethod: string)
    | UndefinedRole(path: string, role: string)

  datatype RBACAuthorizer = RBACAuthorizer(name: string, roleList: map<string, string>, apiV1Mapping: Mapping)

  // ----- Blocks

  lemma SplitInTwo(s: string, sep: char)
    ensures |Split(s, sep)| >= 2 <==> sep in s
  {
  }

  function BlockMethod(b: ApiBlock): string {
    Split(b.name, ' ')[0]
  }

  function BlockPath(b: ApiBlock): string
    requires ' ' in b.name
  {
    SplitInTwo(b.name, ' ');
    Split(b.name, ' ')[1]
  }

  predicate Named(blocks: seq<ApiBlock>) {
    forall b | b in blocks :: ' ' in b.name
  }

  /** What the last block for a path and method allows. */
  function LastBlock(blocks: seq<ApiBlock>, path: string, httpMethod: string): Option<seq<string>>
    requires Named(blocks)
  {
    if blocks == [] then None
    else
      var n := |blocks| - 1;
      if BlockPath(blocks[n]) == path && BlockMethod(blocks[n]) == httpMethod then Some(blocks[n].allowedRoles)
      else LastBlock(blocks[..n], path, httpMethod)
  }

  /** apiV1Mapping[path][method]: a missing path or method reads as no roles. */
  function Lookup(m: Mapping, path: string, httpMethod: string): Option<seq<string>> {
    if path in m && httpMethod in m[path] then Some(m[path][httpMethod]) else None
  }

  function Declared(roles: seq<Role>): set<string> {
    set r | r in roles :: r.name
  }

  // ----- Validation

  predicate ValidEntry(roleNames: set<string>, path: string, httpMethod: string, allowed: seq<string>) {
    InStaticTable(path, httpMethod) && forall r | r in allowed :: r in roleNames
  }

  ghost predicate ValidMapping(roleNames: set<string>, m: Mapping) {
    forall path, httpMethod | path in m && httpMethod in m[path] ::
      ValidEntry(roleNames, path, httpMethod, m[path][httpMethod])
  }

  /** A reported error names something that is really wrong. */
  ghost predicate Justified(roleNames: set<string>, m: Mapping, e: ConfigError) {
    match e
    case NoRoles => false
    case UnknownApi(path, httpMethod) => path in m && httpMethod in m[path] && !InStaticTable(path, httpMethod)
    case UndefinedRole(path, role) =>
      path in m && role !in roleNames && exists httpMethod | httpMethod in m[path] :: role in m[path][httpMethod]
  }

  method ValidatePath(names: set<string>, path: string, entries: map<string, seq<string>>)
    returns (err: Option<ConfigError>)
    ensures err.None? <==> forall h | h in entries :: ValidEntry(names, path, h, entries[h])
    ensures err.Some? ==> Justified(names, map[path := entries], err.value) && !err.value.NoRoles?
    ensures err.Some? ==> err.value.path == path
  {
    var methods := entries.Keys;
    while methods != {}
      invariant methods <= entries.Keys
      invariant forall h | h in entries && h !in methods :: ValidEntry(names, path, h, entries[h])
      decreases |methods|
    {
      var h :| h in methods;
      if !InStaticTable(path, h) {
        return Some(UnknownApi(path, h));
      }
      for i := 0 to |entries[h]|
        invariant forall k | 0 <= k < i :: entries[h][k] in names
      {
        if entries[h][i] !in names {
          assert entries[h][i] in entries[h];
          return Some(UndefinedRole(path, entries[h][i]));
        }
      }
      methods := methods - {h};
    }
    return None;
  }

  /** Scans paths and methods in the map's own order and stops at the first fault. */
  method ValidateInitParameters(roleList: Option<map<string, string>>, m: Mapping) returns (err: Option<ConfigError>)
    ensures err.None? <==> roleList.Some? && ValidMapping(roleList.value.Keys, m)
    ensures err.Some? && roleList.Some? ==> Justified(roleList.value.Keys, m, err.value)
  {
    if roleList.None? {
      return Some(NoRoles);
    }
    var names := roleList.value.Keys;
    var paths := m.Keys;
    while paths != {}
      invariant paths <= m.Keys
      invariant forall p, h | p in m && p !in paths && h in m[p] :: ValidEntry(names, p, h, m[p][h])
      decreases |paths|
    {
      var path :| path in paths;
      err := ValidatePath(names, path, m[path]);
      if err.Some? {
        return;
      }
      paths := paths - {path};
    }
    return None;
  }

  method NewRBACAuthorizer(name: string, roleList: Option<map<string, string>>, m: Mapping)
    returns (res: Result<RBACAuthorizer, ConfigError>)
    ensures res.Ok? <==> roleList.Some? && ValidMapping(roleList.value.Keys, m)
    ensures res.Ok? ==> res.value == RBACAuthorizer(name, roleList.value, m)
    ensures res.Err? && roleList.Some? ==> Justified(roleList.value.Keys, m, res.error)
  {
    var err := ValidateInitParameters(roleList, m);
    if err.Some? {
      return Err(err.value);
    }
    return Ok(RBACAuthorizer(name, roleList.value, m));
  }

  // ----- Construction from the configuration

  /** The mapping answers every query as the last block does. */
  ghost predicate Answers(m: Mapping, blocks: seq<ApiBlock>)
    requires Named(blocks)
  {
    forall path, httpMethod :: Lookup(m, path, httpMethod) == LastBlock(blocks, path, httpMethod)
  }

  /** Overwritten blocks are not looked at: a configuration is accepted exactly when every last block is valid. */
  ghost predicate Accepted(roles: seq<Role>, blocks: seq<ApiBlock>)
    requires Named(blocks)
  {
    forall path, httpMethod | LastBlock(blocks, path, httpMethod).Some? ::
      ValidEntry(Declared(roles), path, httpMethod, LastBlock(blocks, path, httpMethod).value)
  }

  function WithEntry(m: Mapping, path: string, httpMethod: string, allowed: seq<string>): Mapping {
    m[path := (if path in m then m[path] else map[])[httpMethod := allowed]]
  }

  lemma NothingAnswers()
    ensures Answers(map[], [])
  {
  }

  lemma AnswersStep(m: Mapping, blocks: seq<ApiBlock>, i: nat)
    requires Named(blocks) && i < |blocks| && Answers(m, blocks[..i])
    ensures Answers(WithEntry(m, BlockPath(blocks[i]), BlockMethod(blocks[i]), blocks[i].allowedRoles), blocks[..i + 1])
  {
    hide BlockPath;
    hide BlockMethod;
    assert blocks[..i + 1][..i] == blocks[..i];
    var m' := WithEntry(m, BlockPath(blocks[i]), BlockMethod(blocks[i]), blocks[i].allowedRoles);
    forall p, h ensures Lookup(m', p, h) == LastBlock(blocks[..i + 1], p, h) {
      assert Lookup(m, p, h) == LastBlock(blocks[..i], p, h);
    }
  }

  lemma ValidExactlyWhenAccepted(roles: seq<Role>, blocks: seq<ApiBlock>, m: Mapping)
    requires Named(blocks) && Answers(m, blocks)
    ensures ValidMapping(Declared(roles), m) <==> Accepted(roles, blocks)
  {
    if ValidMapping(Declared(roles), m) {
      forall p, h | LastBlock(blocks, p, h).Some?
        ensures ValidEntry(Declared(roles), p, h, LastBlock(blocks, p, h).value)
      {
        assert Lookup(m, p, h) == LastBlock(blocks, p, h);
      }
    }
    if Accepted(roles, blocks) {
      forall p, h | p in m && h in m[p] ensures ValidEntry(Declared(roles), p, h, m[p][h]) {
        assert Lookup(m, p, h) == LastBlock(blocks, p, h);
      }
    }
  }

  method NewAuthorizer(name: string, roles: seq<Role>, blocks: seq<ApiBlock>)
    returns (res: Result<RBACAuthorizer, ConfigError>)
    requires Named(blocks)
    ensures res.Ok? <==> Accepted(roles, blocks)
    ensures res.Ok? ==>
      && res.value.name == name && res.value.roleList.Keys == Declared(roles)
      && Answers(res.value.apiV1Mapping, blocks)
  {
    hide Answers;
    hide Accepted;
    hide Split;
    var roleList: map<string, string> := map[];
    for i := 0 to |roles|
      invariant roleList.Keys == Declared(roles[..i])
    {
      assert roles[..i + 1] == roles[..i] + [roles[i]];
      roleList := roleList[roles[i].name := roles[i].desc];
    }
    assert roles[..|roles|] == roles;
    var apiV1Mapping: Mapping := map[];
    NothingAnswers();
    for i := 0 to |blocks|
      invariant Answers(apiV1Mapping, blocks[..i])
    {
      var arr := Split(blocks[i].name, ' ');
      SplitInTwo(blocks[i].name, ' ');
      var httpMethod, path := arr[0], arr[1];
      AnswersStep(apiV1Mapping, blocks, i);
      if path in apiV1Mapping {
        apiV1Mapping := apiV1Mapping[path := apiV1Mapping[path][httpMethod := blocks[i].allowedRoles]];
      } else {
        apiV1Mapping := apiV1Mapping[path := map[httpMethod := blocks[i].allowedRoles]];
      }
    }
    assert blocks[..|blocks|] == blocks;
    ValidExactlyWhenAccepted(roles, blocks, apiV1Mapping);
    res := NewRBACAuthorizer(name, Some(roleList), apiV1Mapping);
  }

  // ----- Overwritten blocks

  predicate SameRequest(b: ApiBlock, b': ApiBlock)
    requires ' ' in b.name && ' ' in b'.name
  {
    BlockPath(b) == BlockPath(b') && BlockMethod(b) == BlockMethod(b')
  }

  ghost predicate Overwritten(blocks: seq<ApiBlock>, i: nat)
    requires Named(blocks) && i < |blocks|
  {
    exists j | i < j < |blocks| :: SameRequest(blocks[i], blocks[j])
  }

  predicate ValidBlock(roles: seq<Role>, b: ApiBlock)
    requires ' ' in b.name
  {
    ValidEntry(Declared(roles), BlockPath(b), BlockMethod(b), b.allowedRoles)
  }

  /** The last block for a path and method is the one that is not overwritten. */
  lemma {:induction false} LastBlockAt(blocks: seq<ApiBlock>, i: nat)
    requires Named(blocks) && i < |blocks| && !Overwritten(blocks, i)
    ensures LastBlock(blocks, BlockPath(blocks[i]), BlockMethod(blocks[i])) == Some(blocks[i].allowedRoles)
    decreases |blocks|
  {
    hide BlockPath;
    hide BlockMethod;
    var n := |blocks| - 1;
    if i < n {
      assert !SameRequest(blocks[i], blocks[n]);
      assert !Overwritten(blocks[..n], i) by {
        forall j | i < j < n ensures !SameRequest(blocks[..n][i], blocks[..n][j]) {
          assert !SameRequest(blocks[i], blocks[j]);
        }
      }
      LastBlockAt(blocks[..n], i);
    }
  }

  lemma {:induction false} LastBlockFrom(blocks: seq<ApiBlock>, path: string, httpMethod: string) returns (i: nat)
    requires Named(blocks) && LastBlock(blocks, path, httpMethod).Some?
    ensures i < |blocks| && !Overwritten(blocks, i)
    ensures BlockPath(blocks[i]) == path && BlockMethod(blocks[i]) == httpMethod
    ensures LastBlock(blocks, path, httpMethod) == Some(blocks[i].allowedRoles)
    decreases |blocks|
  {
    hide BlockPath;
    hide BlockMethod;
    i := |blocks| - 1;
    if !(BlockPath(blocks[i]) == path && BlockMethod(blocks[i]) == httpMethod) {
      var n := i;
      i := LastBlockFrom(blocks[..n], path, httpMethod);
      forall j | i < j < |blocks| ensures !SameRequest(blocks[i], blocks[j]) {
        if j < n {
          assert !SameRequest(blocks[..n][i], blocks[..n][j]);
        }
      }
    }
  }

  /** A configuration is accepted exactly when every block that is not overwritten is valid. */
  lemma OverwrittenAreNotValidated(roles: seq<Role>, blocks: seq<ApiBlock>)
    requires Named(blocks)
    ensures Accepted(roles, blocks) <==>
            forall i | 0 <= i < |blocks| && !Overwritten(blocks, i) :: ValidBlock(roles, blocks[i])
  {
    hide LastBlock;
    hide BlockPath;
    hide BlockMethod;
    hide ValidEntry;
    hide Overwritten;
    if Accepted(roles, blocks) {
      forall i | 0 <= i < |blocks| && !Overwritten(blocks, i) ensures ValidBlock(roles, blocks[i]) {
        LastBlockAt(blocks, i);
      }
    }
    if forall i | 0 <= i < |blocks| && !Overwritten(blocks, i) :: ValidBlock(roles, blocks[i]) {
      forall path, httpMethod | LastBlock(blocks, path, httpMethod).Some?
        ensures ValidEntry(Declared(roles), path, httpMethod, LastBlock(blocks, path, httpMethod).value)
      {
        var i := LastBlockFrom(blocks, path, httpMethod);
        assert ValidBlock(roles, blocks[i]);
      }
    }
  }

  /** Whatever follows a second space in a block's name is not looked at. */
  lemma FurtherPiecesAreIgnored(httpMethod: string, path: string, more: string, allowedRoles: seq<string>)
    requires ' ' !in httpMethod && ' ' !in path
    ensures var b := ApiBlock(httpMethod + [' '] + (path + [' '] + more), allowedRoles);
      ' ' in b.name && BlockMethod(b) == httpMethod && BlockPath(b) == path
  {
    var name := httpMethod + [' '] + (path + [' '] + more);
    assert name[|httpMethod|] == ' ';
    SplitAtFree(httpMethod, ' ', path + [' '] + more);
    SplitAtFree(path, ' ', more);
  }

  function BlockFor(httpMethod: string, path: string, allowedRoles: seq<string>): ApiBlock {
    ApiBlock(httpMethod + [' '] + path, allowedRoles)
  }

  lemma PartsOfName(httpMethod: string, path: string, allowedRoles: seq<string>)
    requires ' ' !in httpMethod && ' ' !in path
    ensures var b := BlockFor(httpMethod, path, allowedRoles);
      ' ' in b.name && BlockMethod(b) == httpMethod && BlockPath(b) == path
  {
    assert BlockFor(httpMethod, path, allowedRoles).name[|httpMethod|] == ' ';
    SplitInTwoFree(httpMethod, ' ', path);
  }

  /** A block granting a role nobody declared is refused alone, and accepted once a later block overwrites it. */
  lemma OverwrittenBlockIsAccepted(roles: seq<Role>, httpMethod: string, path: string, role: string)
    requires InStaticTable(path, httpMethod) && ' ' !in httpMethod && ' ' !in path && role !in Declared(roles)
    ensures var b, b' := BlockFor(httpMethod, path, [role]), BlockFor(httpMethod, path, []);
      Named([b, b']) && !Accepted(roles, [b]) && Accepted(roles, [b, b'])
  {
    var b, b' := BlockFor(httpMethod, path, [role]), BlockFor(httpMethod, path, []);
    PartsOfName(httpMethod, path, [role]);
    PartsOfName(httpMethod, path, []);
    hide BlockPath;
    hide BlockMethod;
    hide Accepted;
    hide InStaticTable;
    OverwrittenAreNotValidated(roles, [b]);
    OverwrittenAreNotValidated(roles, [b, b']);
    assert role in b.allowedRoles;
    assert !Overwritten([b], 0) && [b][0] == b;
    assert SameRequest([b, b'][0], [b, b'][1]);
  }

  /** For instance, without any declared role. */
  lemma OverwrittenExample() returns (httpMethod: string, path: string)
    ensures httpMethod == "GET" && path == "/api/v1/tornjak/agents"
    ensures var b, b' := BlockFor(httpMethod, path, ["ghost"]), BlockFor(httpMethod, path, []);
      Named([b, b']) && !Accepted([], [b]) && Accepted([], [b, b'])
  {
    httpMethod, path := "GET", "/api/v1/tornjak/agents";
    OverwrittenBlockIsAccepted([], httpMethod, path, "ghost");
    hide Accepted;
  }

  // ----- Requests

  datatype UserInfo = UserInfo(authenticationError: Option<string>, roles: seq<string>)

  datatype Denial = AuthenticationFailed(reason: string) | Unauthorized

  /** Whether one of the allowed roles, tried in order, is open to all or held by the user. */
  predicate Grants(allowed: seq<string>, userRoles: seq<string>) {
    if allowed == [] then false
    else allowed[0] == "" || allowed[0] in userRoles || Grants(allowed[1..], userRoles)
  }

  function AuthorizeRequest(a: RBACAuthorizer, path: string, httpMethod: string, u: UserInfo): Result<(), Denial> {
    if u.authenticationError.Some? then Err(AuthenticationFailed(u.authenticationError.value))
    else
      var allowed := Lookup(a.apiV1Mapping, path, httpMethod);
      if allowed.None? || !Grants(allowed.value, u.roles) then Err(Unauthorized) else Ok(())
  }

  ghost predicate SomeRoleGrants(allowed: seq<string>, userRoles: seq<string>) {
    exists r | r in allowed :: r == "" || r in userRoles
  }

  lemma {:induction false} GrantsExactly(allowed: seq<string>, userRoles: seq<string>)
    ensures Grants(allowed, userRoles) <==> SomeRoleGrants(allowed, userRoles)
  {
    if allowed == [] {
    } else {
      GrantsExactly(allowed[1..], userRoles);
      assert allowed[0] in allowed;
      if r :| r in allowed && (r == "" || r in userRoles) {
        assert r == allowed[0] || r in allowed[1..];
      }
      if r :| r in allowed[1..] && (r == "" || r in userRoles) {
        assert r in allowed;
      }
    }
  }

  /** The authorizer was built from this configuration. */
  ghost predicate BuiltFrom(a: RBACAuthorizer, roles: seq<Role>, blocks: seq<ApiBlock>) {
    Named(blocks) && Accepted(roles, blocks) && a.roleList.Keys == Declared(roles) && Answers(a.apiV1Mapping, blocks)
  }

  /** A request is allowed exactly when authenticated and the last block for it lists "" or one of the user's roles. */
  lemma AllowedExactly(
    a: RBACAuthorizer, roles: seq<Role>, blocks: seq<ApiBlock>, path: string, httpMethod: string, u: UserInfo)
    requires BuiltFrom(a, roles, blocks)
    ensures AuthorizeRequest(a, path, httpMethod, u).Ok? <==>
      && u.authenticationError.None?
      && LastBlock(blocks, path, httpMethod).Some?
      && SomeRoleGrants(LastBlock(blocks, path, httpMethod).value, u.roles)
    ensures var r := AuthorizeRequest(a, path, httpMethod, u);
      && (u.authenticationError.Some? ==> r == Err(AuthenticationFailed(u.authenticationError.value)))
      && (u.authenticationError.None? && r.Err? ==> r.error == Unauthorized)
  {
    assert Lookup(a.apiV1Mapping, path, httpMethod) == LastBlock(blocks, path, httpMethod);
    if LastBlock(blocks, path, httpMethod).Some? {
      GrantsExactly(LastBlock(blocks, path, httpMethod).value, u.roles);
    }
  }

  /** Whatever is allowed is in the static table, through a role the configuration declares. */
  lemma AllowedIsDeclared(
    a: RBACAuthorizer, roles: seq<Role>, blocks: seq<ApiBlock>, path: string, httpMethod: string, u: UserInfo)
    requires BuiltFrom(a, roles, blocks) && AuthorizeRequest(a, path, httpMethod, u).Ok?
    ensures InStaticTable(path, httpMethod)
    ensures exists r | r in a.roleList :: (r == "" || r in u.roles) && r in LastBlock(blocks, path, httpMethod).value
  {
    AllowedExactly(a, roles, blocks, path, httpMethod, u);
    var allowed := LastBlock(blocks, path, httpMethod).value;
    assert ValidEntry(Declared(roles), path, httpMethod, allowed);
    var r :| r in allowed && (r == "" || r in u.roles);
    assert r in a.roleList;
  }

  /** More roles, in any order, never take access away. */
  lemma MoreRolesKeepAccess(a: RBACAuthorizer, path: string, httpMethod: string, u: UserInfo, u': UserInfo)
    requires AuthorizeRequest(a, path, httpMethod, u).Ok?
    requires u'.authenticationError.None? && forall r | r in u.roles :: r in u'.roles
    ensures AuthorizeRequest(a, path, httpMethod, u').Ok?
  {
    var allowed := Lookup(a.apiV1Mapping, path, httpMethod).value;
    GrantsExactly(allowed, u.roles);
    GrantsExactly(allowed, u'.roles);
  }
}
