/**
 Who may open which page, see which rows, and write. The page rule is written three times
 in the program: as a nested search, and twice as the same set-building loops, which are
 one method here. All three are proved against the one rule.
 */
module PageAccess {
  import opened Wrappers
  import opened Text

  const ADMIN: string := "admin"

  datatype Claims = Claims(id: int, role: string, extraRoles: seq<string>, pages: seq<string>)

  /** The pages each role grants: the role table. */
  type RolePages = map<string, seq<string>>

  function PagesOf(table: RolePages, role: string): seq<string> {
    if role in table then table[role] else []
  }

  function WithoutAdmin(roles: seq<string>): (r: seq<string>)
    ensures forall e :: e in r <==> e in roles && e != ADMIN
  {
    if roles == [] then []
    else
      var rest := WithoutAdmin(roles[..|roles| - 1]);
      var last := roles[|roles| - 1];
      if last == ADMIN then rest else rest + [last]
  }

  /** What AllRoles returns: the primary role, and the secondary ones other than admin. */
  function Roles(c: Claims): seq<string> {
    [c.role] + WithoutAdmin(c.extraRoles)
  }

  method AllRoles(c: Claims) returns (out: seq<string>)
    ensures out == Roles(c)
  {
    if |c.extraRoles| == 0 {
      return [c.role];
    }
    out := [c.role];
    for i := 0 to |c.extraRoles|
      invariant out == [c.role] + WithoutAdmin(c.extraRoles[..i])
    {
      assert c.extraRoles[..i + 1][..i] == c.extraRoles[..i];
      var e := c.extraRoles[i];
      if e == ADMIN {
        continue;
      }
      out := out + [e];
    }
    assert c.extraRoles[..|c.extraRoles|] == c.extraRoles;
  }

  // ── the page rule ──────────────────────────────────────────────────────────

  /** A role counts if it is the primary one, or a secondary one other than admin. */
  ghost predicate Holds(c: Claims, role: string) {
    role == c.role || (role in c.extraRoles && role != "admin")
  }

  /** A page is granted by the table to a role that counts, or by the page list on the token. */
  ghost predicate GrantedPage(c: Claims, table: RolePages, page: string) {
    page in c.pages || exists role :: role in table && Holds(c, role) && page in table[role]
  }

  /** The one rule: a primary admin passes, and anyone granted one of the pages. */
  ghost predicate MayOpen(c: Claims, table: RolePages, pages: seq<string>) {
    c.role == "admin" || exists p :: p in pages && GrantedPage(c, table, p)
  }

  lemma RolesExact(c: Claims, role: string)
    ensures role in Roles(c) <==> Holds(c, role)
  {
  }

  lemma GrantedByRoles(c: Claims, table: RolePages, page: string)
    ensures GrantedPage(c, table, page) <==> page in c.pages || exists role :: role in Roles(c) && page in PagesOf(table, role)
  {
    if role :| role in table && Holds(c, role) && page in table[role] {
      RolesExact(c, role);
      assert role in Roles(c) && page in PagesOf(table, role);
    }
    if role :| role in Roles(c) && page in PagesOf(table, role) {
      RolesExact(c, role);
    }
  }

  /** HasPage: two nested searches. */
  method HasPage(c: Claims, table: RolePages, page: string) returns (has: bool)
    ensures has <==> c.role == ADMIN || GrantedPage(c, table, page)
    ensures has <==> MayOpen(c, table, [page])
  {
    assert page in [page];
    GrantedByRoles(c, table, page);
    if c.role == ADMIN {
      return true;
    }
    var roles := AllRoles(c);
    for i := 0 to |roles|
      invariant forall j :: 0 <= j < i ==> page !in PagesOf(table, roles[j])
    {
      var granted := PagesOf(table, roles[i]);
      for k := 0 to |granted|
        invariant page !in granted[..k]
      {
        if granted[k] == page {
          assert roles[i] in Roles(c);
          return true;
        }
      }
    }
    for k := 0 to |c.pages|
      invariant page !in c.pages[..k]
    {
      if c.pages[k] == page {
        return true;
      }
    }
    has := false;
  }

  /** The pages a user may open, as the two set-building loops collect them. */
  method AllowedPages(c: Claims, table: RolePages) returns (allowed: set<string>)
    ensures forall p :: p in allowed <==> GrantedPage(c, table, p)
  {
    allowed := {};
    var roles := AllRoles(c);
    for i := 0 to |roles|
      invariant forall p :: p in allowed <==> exists j :: 0 <= j < i && p in PagesOf(table, roles[j])
    {
      ghost var before := allowed;
      var granted := PagesOf(table, roles[i]);
      for k := 0 to |granted|
        invariant forall p :: p in allowed <==> p in before || p in granted[..k]
      {
        allowed := allowed + {granted[k]};
      }
      assert granted[..|granted|] == granted;
    }
    ghost var byRole := allowed;
    for k := 0 to |c.pages|
      invariant forall p :: p in allowed <==> p in byRole || p in c.pages[..k]
    {
      allowed := allowed + {c.pages[k]};
    }
    assert forall p :: p in byRole <==> exists role :: role in roles && p in PagesOf(table, role);
    forall p
      ensures p in allowed <==> GrantedPage(c, table, p)
    {
      GrantedByRoles(c, table, p);
    }
  }

  method AnyAllowed(pages: seq<string>, allowed: set<string>) returns (any: bool)
    ensures any <==> exists p :: p in pages && p in allowed
  {
    for i := 0 to |pages|
      invariant forall j :: 0 <= j < i ==> pages[j] !in allowed
    {
      if pages[i] in allowed {
        return true;
      }
    }
    any := false;
  }

  /** RequirePages */
  method RequirePages(user: Option<Claims>, table: RolePages, pages: seq<string>) returns (passes: bool)
    ensures passes <==> user.Some? && MayOpen(user.value, table, pages)
  {
    if user.None? {
      return false;
    }
    if user.value.role == ADMIN {
      return true;
    }
    var allowed := AllowedPages(user.value, table);
    passes := AnyAllowed(pages, allowed);
  }

  /** userCanUseTool: a tool with no pages is open to everyone. */
  method UserCanUseTool(user: Option<Claims>, table: RolePages, pages: seq<string>) returns (may: bool)
    ensures may <==> pages == [] || (user.Some? && MayOpen(user.value, table, pages))
  {
    if |pages| == 0 {
      return true;
    }
    if user.None? {
      return false;
    }
    if user.value.role == ADMIN {
      return true;
    }
    var allowed := AllowedPages(user.value, table);
    may := AnyAllowed(pages, allowed);
  }

  // ── rows and writes ────────────────────────────────────────────────────────

  const SEES_ALL_ROLES: set<string> := {"admin", "md", "coo", "cfo", "cmo", "it_admin"}

  /** DataScopeForRole(role) == ScopeAll */
  predicate SeesAllRows(role: string) {
    role in SEES_ALL_ROLES || HasSuffix(role, "_head") || HasPrefix(role, "head_")
  }

  /** The executive roles, and the heads of departments by either naming. */
  ghost predicate SeesAll(role: string) {
    || role == "admin" || role == "md" || role == "coo" || role == "cfo" || role == "cmo" || role == "it_admin"
    || (|role| >= 5 && role[|role| - 5..] == "_head")
    || "head_" <= role
  }

  method CanSeeAllRows(c: Claims) returns (all: bool)
    ensures all <==> exists role :: Holds(c, role) && SeesAll(role)
  {
    var roles := AllRoles(c);
    forall role
      ensures role in roles <==> Holds(c, role)
    {
      RolesExact(c, role);
    }
    assert forall role :: SeesAllRows(role) <==> SeesAll(role);
    hide SeesAllRows, SeesAll, Holds;
    for i := 0 to |roles|
      invariant forall j :: 0 <= j < i ==> !SeesAllRows(roles[j])
    {
      if SeesAllRows(roles[i]) {
        return true;
      }
    }
    all := false;
  }

  const READ_ONLY_ROLES: set<string> := {"internal_control_head"}

  datatype Method = Get | Head | Options | Other

  predicate WriteAllowedForReadOnly(path: string) {
    || HasPrefix(path, "/api/auth/")
    || HasPrefix(path, "/api/reports/datasets/")
    || (HasPrefix(path, "/api/customer360/") && HasSuffix(path, "/identity/reveal"))
  }

  /** What an auditor may still send: signing in and out, report tables, and the identity reveal. */
  ghost predicate AuditorMaySend(path: string) {
    || "/api/auth/" <= path
    || "/api/reports/datasets/" <= path
    || ("/api/customer360/" <= path && |path| >= 16 && path[|path| - 16..] == "/identity/reveal")
  }

  ghost predicate BlockedFor(roles: seq<string>, verb: Method, path: string) {
    "internal_control_head" in roles && verb == Other && !AuditorMaySend(path)
  }

  method WriteBlocked(roles: seq<string>, verb: Method, path: string) returns (blocked: bool)
    ensures blocked <==> BlockedFor(roles, verb, path)
  {
    assert WriteAllowedForReadOnly(path) <==> AuditorMaySend(path);
    hide WriteAllowedForReadOnly, AuditorMaySend;
    var readOnly := false;
    for i := 0 to |roles|
      invariant !readOnly && forall j :: 0 <= j < i ==> roles[j] !in READ_ONLY_ROLES
    {
      if roles[i] in READ_ONLY_ROLES {
        readOnly := true;
        break;
      }
    }
    if !readOnly {
      return false;
    }
    if verb != Other {
      return false;
    }
    blocked := !WriteAllowedForReadOnly(path);
  }

  // ── admin is a primary role or nothing ─────────────────────────────────────

  lemma {:induction false} AdminDropped(a: seq<string>, b: seq<string>)
    ensures WithoutAdmin(a + [ADMIN] + b) == WithoutAdmin(a + b)
  {
    if b == [] {
      assert a + [ADMIN] + b == a + [ADMIN] && a + b == a;
      assert (a + [ADMIN])[..|a|] == a;
    } else {
      var b' := b[..|b| - 1];
      assert (a + [ADMIN] + b)[..|a| + |b|] == a + [ADMIN] + b';
      assert (a + b)[..|a| + |b| - 1] == a + b';
      AdminDropped(a, b');
    }
  }

  /**
   Adding "admin" anywhere among the secondary roles changes no page decision, not whether
   the user sees every row, and not whether a write is blocked.
   */
  lemma SecondaryAdminIsNothing(c: Claims, a: seq<string>, b: seq<string>, table: RolePages, pages: seq<string>, verb: Method, path: string)
    requires c.extraRoles == a + b
    ensures var d := c.(extraRoles := a + [ADMIN] + b);
            && (MayOpen(d, table, pages) <==> MayOpen(c, table, pages))
            && (forall p :: GrantedPage(d, table, p) <==> GrantedPage(c, table, p))
            && ((exists r :: Holds(d, r) && SeesAll(r)) <==> (exists r :: Holds(c, r) && SeesAll(r)))
            && (BlockedFor(Roles(d), verb, path) <==> BlockedFor(Roles(c), verb, path))
  {
    hide SeesAll, AuditorMaySend;
    assert forall role :: Holds(c.(extraRoles := a + [ADMIN] + b), role) <==> Holds(c, role);
    AdminDropped(a, b);
    assert Roles(c.(extraRoles := a + [ADMIN] + b)) == Roles(c);
  }
}
