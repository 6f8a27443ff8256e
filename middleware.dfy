// The route gate (middleware.ts): for the pages its matcher selects, a
// request on a public path passes; otherwise a request without a signed-in
// user is sent to the login page with the path as `callbackUrl`, and a
// signed-in user who is neither ADMIN nor SUPER_ADMIN is sent from an
// `/admin` path to the dashboard. The public test is a prefix test, and `/`
// is one of the public paths.
module RouteGate {
  import opened JsText
  import opened JsPlatform

  /** `PUBLIC_PATHS`. */
  const PublicPaths: seq<string> := ["/", "/login", "/signup", "/pricing", "/api/webhooks/stripe"]

  /** The roles `/admin` admits. */
  const AdminRoles: seq<string> := ["ADMIN", "SUPER_ADMIN"]

  /** `session?.user`: absent when nobody is signed in; its `role` may be
      missing. */
  datatype User = User(role: Option<string>)

  datatype Request = Request(pathname: string, user: Option<User>)

  datatype Decision =
    | Pass
    | RedirectLogin(callbackUrl: string)
    | RedirectDashboard

  /** How a path is compared with an entry of `PUBLIC_PATHS`: `startsWith`
      for every entry, as written, or an exact match for `/` and
      `startsWith` for the others. */
  datatype PublicRule = PrefixRule | RootExactRule

  predicate PublicEntryMatches(pathname: string, entry: string, rule: PublicRule)
  {
    if rule.RootExactRule? && entry == "/" then pathname == "/" else StartsWith(pathname, entry)
  }

  predicate IsPublic(pathname: string, rule: PublicRule)
  {
    exists i :: 0 <= i < |PublicPaths| && PublicEntryMatches(pathname, PublicPaths[i], rule)
  }

  /** `session?.user?.role ?? "USER"`. */
  function RoleOf(user: User): string
  {
    user.role.GetOr("USER")
  }

  /** The callback given to `auth(...)`. */
  function Decide(req: Request, rule: PublicRule): Decision
  {
    if IsPublic(req.pathname, rule) then Pass
    else if req.user.None? then RedirectLogin(req.pathname)
    else if StartsWith(req.pathname, "/admin") && RoleOf(req.user.value) !in AdminRoles then RedirectDashboard
    else Pass
  }

  /** `base/:path*`: the base itself or any path below it. */
  predicate MatchesBase(pathname: string, base: string)
  {
    pathname == base || StartsWith(pathname, base + "/")
  }

  /** `config.matcher`. */
  predicate Matched(pathname: string)
  {
    MatchesBase(pathname, "/dashboard") || MatchesBase(pathname, "/accounts") ||
    MatchesBase(pathname, "/analytics") || MatchesBase(pathname, "/journal") ||
    pathname == "/billing" || MatchesBase(pathname, "/admin")
  }

  /** What a request meets: the callback for the pages the matcher selects,
      nothing for the others. */
  function Gate(req: Request, rule: PublicRule): Decision
  {
    if Matched(req.pathname) then Decide(req, rule) else Pass
  }

  /** The gate as written. */
  function Middleware(req: Request): Decision
  {
    Gate(req, PrefixRule)
  }

  /** The callback answers a redirect to login exactly for a path that is
      not public and a request without a user, with the path as callback;
      a redirect to the dashboard exactly for a non-public `/admin` path and
      a user whose role, `USER` when missing, is not an admin role; and lets
      every other request pass. */
  lemma DecideCases(req: Request, rule: PublicRule)
    ensures Decide(req, rule).RedirectLogin? <==> !IsPublic(req.pathname, rule) && req.user.None?
    ensures Decide(req, rule).RedirectLogin? ==> Decide(req, rule).callbackUrl == req.pathname
    ensures Decide(req, rule) == RedirectDashboard <==>
      !IsPublic(req.pathname, rule) && req.user.Some? && StartsWith(req.pathname, "/admin") &&
      req.user.value.role.GetOr("USER") != "ADMIN" && req.user.value.role.GetOr("USER") != "SUPER_ADMIN"
    ensures Decide(req, rule) == Pass <==>
      IsPublic(req.pathname, rule) ||
      (req.user.Some? && (!StartsWith(req.pathname, "/admin") ||
                          RoleOf(req.user.value) == "ADMIN" || RoleOf(req.user.value) == "SUPER_ADMIN"))
  {
  }

  /** A path on which `/` is a prefix is public under the rule as written;
      every pathname of a URL begins with `/`. */
  lemma {:induction false} EveryPathPublic(pathname: string)
    requires StartsWith(pathname, "/")
    ensures IsPublic(pathname, PrefixRule)
  {
    assert PublicEntryMatches(pathname, PublicPaths[0], PrefixRule);
  }

  /** As written, the gate lets every request through, signed in or not,
      whatever the role. */
  lemma MiddlewareAlwaysPasses(req: Request)
    requires StartsWith(req.pathname, "/")
    ensures Middleware(req) == Pass
  {
    EveryPathPublic(req.pathname);
  }

  lemma BaseHead(pathname: string, base: string)
    requires MatchesBase(pathname, base) && |base| >= 3
    ensures |pathname| >= 3 && pathname[1] == base[1] && pathname[2] == base[2]
  {
    if pathname != base {
      assert pathname[..|base| + 1][1] == pathname[1] && pathname[..|base| + 1][2] == pathname[2];
    }
  }

  /** The second and third characters of the pages the matcher selects:
      the second is `d`, `a`, `j` or `b`, and after an `a` comes `c`, `n`
      or `d`. */
  lemma MatchedHead(pathname: string)
    requires Matched(pathname)
    ensures |pathname| >= 3 && pathname[1] in {'d', 'a', 'j', 'b'}
    ensures pathname[1] == 'a' ==> pathname[2] in {'c', 'n', 'd'}
  {
    if MatchesBase(pathname, "/dashboard") {
      BaseHead(pathname, "/dashboard");
    } else if MatchesBase(pathname, "/accounts") {
      BaseHead(pathname, "/accounts");
    } else if MatchesBase(pathname, "/analytics") {
      BaseHead(pathname, "/analytics");
    } else if MatchesBase(pathname, "/journal") {
      BaseHead(pathname, "/journal");
    } else if pathname == "/billing" {
    } else {
      BaseHead(pathname, "/admin");
    }
  }

  /** No page the matcher selects is public once `/` is matched
      exactly. */
  lemma MatchedNotPublic(pathname: string)
    requires Matched(pathname)
    ensures !IsPublic(pathname, RootExactRule)
  {
    MatchedHead(pathname);
    forall i | 0 <= i < |PublicPaths|
      ensures !PublicEntryMatches(pathname, PublicPaths[i], RootExactRule)
    {
      var entry := PublicPaths[i];
      if i > 0 && StartsWith(pathname, entry) {
        assert false;
      }
    }
  }

  /** The gate with `/` matched exactly. */
  function IntendedMiddleware(req: Request): Decision
  {
    Gate(req, RootExactRule)
  }

  /** With `/` matched exactly, every page the matcher selects needs a
      signed-in user: without one the request is sent to login with its
      path as callback. */
  lemma IntendedRequiresSignIn(req: Request)
    requires Matched(req.pathname) && req.user.None?
    ensures IntendedMiddleware(req) == RedirectLogin(req.pathname)
  {
    MatchedNotPublic(req.pathname);
  }

  /** With `/` matched exactly, an `/admin` page passes only for a user
      whose role is ADMIN or SUPER_ADMIN, and always does for one. */
  lemma IntendedAdminOnly(req: Request)
    requires MatchesBase(req.pathname, "/admin")
    ensures IntendedMiddleware(req) == Pass <==>
      req.user.Some? && (RoleOf(req.user.value) == "ADMIN" || RoleOf(req.user.value) == "SUPER_ADMIN")
  {
    assert Matched(req.pathname);
    MatchedNotPublic(req.pathname);
    assert StartsWith(req.pathname, "/admin") by {
      if req.pathname != "/admin" {
        assert req.pathname[..|"/admin"|] == (req.pathname[..|"/admin/"|])[..|"/admin"|];
      }
    }
  }

  /** A signed-out request for the dashboard: passed as written, sent to
      login with `/` matched exactly. */
  lemma DashboardOpenAsWritten()
    ensures Middleware(Request("/dashboard", None)) == Pass
    ensures IntendedMiddleware(Request("/dashboard", None)) == RedirectLogin("/dashboard")
  {
    MiddlewareAlwaysPasses(Request("/dashboard", None));
    IntendedRequiresSignIn(Request("/dashboard", None));
  }
}
