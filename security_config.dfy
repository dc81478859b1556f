/** The request-authorisation table of `SecurityConfig.securityFilterChain`: an ordered
    list of rules, each a method (or any) and path patterns, tried in declaration order;
    the first rule that matches decides, and a request no rule matches needs only an
    authenticated caller. Every pattern of the table is a base path followed by the Ant
    wildcard segment `**`, which matches the base itself and every path below it; a rule
    holds the bases. */
module SecurityConfig {
  import opened Base
  import opened Store

  datatype HttpMethod = Get | Post | Put | Delete | Patch | Head | Options

  /** What a rule demands: `permitAll()`, `hasRole`/`hasAnyRole(...)`, `authenticated()`. */
  datatype Access = PermitAll | HasAnyRole(roles: set<Role>) | Authenticated

  /** `requestMatchers` with an optional method and the bases of its patterns, and its access rule. */
  datatype Rule = Rule(verb: Option<HttpMethod>, bases: seq<string>, access: Access)

  /** The Ant pattern of `base` and the `**` segment: `base` itself or any path below it. */
  predicate UnderPrefix(path: string, base: string) {
    path == base || (|base| < |path| && path[..|base| + 1] == base + "/")
  }

  /** A rule applies when its method, if it names one, is the request's and the path lies under one of its bases. */
  predicate RuleMatches(rule: Rule, m: HttpMethod, path: string) {
    (rule.verb.None? || rule.verb == Some(m)) && exists b :: b in rule.bases && UnderPrefix(path, b)
  }

  /** Rule `i` is the first of `rules` that matches the request. */
  predicate FirstMatchAt(rules: seq<Rule>, i: int, m: HttpMethod, path: string) {
    0 <= i < |rules| && RuleMatches(rules[i], m, path)
    && forall j :: 0 <= j < i ==> !RuleMatches(rules[j], m, path)
  }

  /** The access the table demands of a request: the first matching rule's, else
      `anyRequest().authenticated()`. */
  function Decide(rules: seq<Rule>, m: HttpMethod, path: string): (a: Access)
    ensures forall i :: FirstMatchAt(rules, i, m, path) ==> a == rules[i].access
    ensures (forall i :: 0 <= i < |rules| ==> !RuleMatches(rules[i], m, path)) ==> a == Authenticated
  {
    if rules == [] then Authenticated
    else if RuleMatches(rules[0], m, path) then rules[0].access
    else
      var a := Decide(rules[1..], m, path);
      assert forall i :: FirstMatchAt(rules, i, m, path) ==> i > 0 && FirstMatchAt(rules[1..], i - 1, m, path);
      a
  }

  /** Whether a caller (`None` when unauthenticated, else its roles) may make a request
      that demands `a`. */
  predicate Allows(a: Access, caller: Option<set<Role>>) {
    match a
    case PermitAll => true
    case Authenticated => caller.Some?
    case HasAnyRole(roles) => caller.Some? && roles * caller.value != {}
  }

  /** The rules that permit without authentication: the authentication and public API,
      then the H2 console and the API documentation when their switches are on. */
  function OpenRules(h2ConsoleEnabled: bool, swaggerEnabled: bool): seq<Rule> {
    [Rule(None, ["/api/auth"], PermitAll), Rule(None, ["/api/public"], PermitAll)]
    + (if h2ConsoleEnabled then [Rule(None, ["/h2-console"], PermitAll)] else [])
    + (if swaggerEnabled then [Rule(None, ["/swagger-ui", "/v3/api-docs"], PermitAll)] else [])
  }

  const UserOrAdmin: set<Role> := {RoleUser, RoleAdmin}

  /** The role rules, in declaration order. */
  const GuardedRules: seq<Rule> := [
    Rule(Some(Delete), ["/api/users"], HasAnyRole({RoleAdmin})),
    Rule(None, ["/api/admin"], HasAnyRole({RoleAdmin})),
    Rule(Some(Get), ["/api/users/check-username"], PermitAll),
    Rule(Some(Get), ["/api/users/check-email"], PermitAll),
    Rule(Some(Get), ["/api/users"], HasAnyRole(UserOrAdmin)),
    Rule(Some(Put), ["/api/users"], HasAnyRole(UserOrAdmin)),
    Rule(None, ["/api/documents"], HasAnyRole(UserOrAdmin))
  ]

  /** The whole table, as `securityFilterChain` builds it from the two switches. */
  function Rules(h2ConsoleEnabled: bool, swaggerEnabled: bool): seq<Rule> {
    OpenRules(h2ConsoleEnabled, swaggerEnabled) + GuardedRules
  }

  /** What the filter chain demands of a request. */
  function Authorize(h2ConsoleEnabled: bool, swaggerEnabled: bool, m: HttpMethod, path: string): Access {
    Decide(Rules(h2ConsoleEnabled, swaggerEnabled), m, path)
  }

  /** A table that nothing in its first part matches decides as its second part does; one
      whose first part matches decides as that part does. */
  lemma {:induction false} DecideAppend(a: seq<Rule>, b: seq<Rule>, m: HttpMethod, path: string)
    ensures (forall i :: 0 <= i < |a| ==> !RuleMatches(a[i], m, path)) ==> Decide(a + b, m, path) == Decide(b, m, path)
    ensures (exists i :: 0 <= i < |a| && RuleMatches(a[i], m, path)) ==> Decide(a + b, m, path) == Decide(a, m, path)
  {
    if a != [] {
      assert (a + b)[0] == a[0];
      assert (a + b)[1..] == a[1..] + b;
      if !RuleMatches(a[0], m, path) {
        DecideAppend(a[1..], b, m, path);
        if exists i :: 0 <= i < |a| && RuleMatches(a[i], m, path) {
          var i :| 0 <= i < |a| && RuleMatches(a[i], m, path);
          assert RuleMatches(a[1..][i - 1], m, path);
        }
      }
    } else {
      assert a + b == b;
    }
  }

  /** Paths under two bases that differ at some position inside both are different paths. */
  lemma Apart(path: string, a: string, b: string, k: nat)
    requires k < |a| && k < |b| && a[k] != b[k]
    requires UnderPrefix(path, a)
    ensures !UnderPrefix(path, b)
  {
    assert path[k] == a[k];
  }

  /** A path under "/api/" but outside the authentication and public API matches no open rule. */
  lemma OpenRulesSkip(h2ConsoleEnabled: bool, swaggerEnabled: bool, m: HttpMethod, path: string, base: string)
    requires UnderPrefix(path, base) && |base| >= 5 && base[..5] == "/api/"
    requires !UnderPrefix(path, "/api/auth") && !UnderPrefix(path, "/api/public")
    ensures forall i :: 0 <= i < |OpenRules(h2ConsoleEnabled, swaggerEnabled)| ==>
              !RuleMatches(OpenRules(h2ConsoleEnabled, swaggerEnabled)[i], m, path)
  {
    var open := OpenRules(h2ConsoleEnabled, swaggerEnabled);
    forall i | 0 <= i < |open| ensures !RuleMatches(open[i], m, path) {
      forall b | b in open[i].bases ensures !UnderPrefix(path, b) {
        if b != "/api/auth" && b != "/api/public" {
          Apart(path, base, b, 1);
        }
      }
    }
  }

  /** The authentication and public API is open to everyone, whatever the method. */
  lemma AuthAndPublicOpen(h2ConsoleEnabled: bool, swaggerEnabled: bool, m: HttpMethod, path: string)
    requires UnderPrefix(path, "/api/auth") || UnderPrefix(path, "/api/public")
    ensures Authorize(h2ConsoleEnabled, swaggerEnabled, m, path) == PermitAll
  {
    var rules := Rules(h2ConsoleEnabled, swaggerEnabled);
    if UnderPrefix(path, "/api/auth") {
      assert FirstMatchAt(rules, 0, m, path);
    } else {
      assert !RuleMatches(rules[0], m, path) by {
        Apart(path, "/api/public", "/api/auth", 5);
      }
      assert FirstMatchAt(rules, 1, m, path);
    }
  }

  /** The H2 console is open exactly when its switch is on; otherwise it needs an
      authenticated caller. */
  lemma ConsoleOpenIffEnabled(h2ConsoleEnabled: bool, swaggerEnabled: bool, m: HttpMethod, path: string)
    requires UnderPrefix(path, "/h2-console")
    ensures h2ConsoleEnabled ==> Authorize(h2ConsoleEnabled, swaggerEnabled, m, path) == PermitAll
    ensures !h2ConsoleEnabled ==> Authorize(h2ConsoleEnabled, swaggerEnabled, m, path) == Authenticated
  {
    if h2ConsoleEnabled {
      ConsoleEnabled(swaggerEnabled, m, path);
    } else {
      OutsideApiUnlisted(false, swaggerEnabled, m, path, "/h2-console");
    }
  }

  /** With the console switched on, its paths are decided by the console's own rule. */
  lemma ConsoleEnabled(swaggerEnabled: bool, m: HttpMethod, path: string)
    requires UnderPrefix(path, "/h2-console")
    ensures Authorize(true, swaggerEnabled, m, path) == PermitAll
  {
    var rules := Rules(true, swaggerEnabled);
    Apart(path, "/h2-console", "/api/auth", 1);
    Apart(path, "/h2-console", "/api/public", 1);
    assert rules[2] == Rule(None, ["/h2-console"], PermitAll);
    assert FirstMatchAt(rules, 2, m, path);
  }

  /** The API documentation is open exactly when its switch is on; otherwise it needs an
      authenticated caller. */
  lemma SwaggerOpenIffEnabled(h2ConsoleEnabled: bool, swaggerEnabled: bool, m: HttpMethod, path: string)
    requires UnderPrefix(path, "/swagger-ui") || UnderPrefix(path, "/v3/api-docs")
    ensures swaggerEnabled ==> Authorize(h2ConsoleEnabled, swaggerEnabled, m, path) == PermitAll
    ensures !swaggerEnabled ==> Authorize(h2ConsoleEnabled, swaggerEnabled, m, path) == Authenticated
  {
    var base := if UnderPrefix(path, "/swagger-ui") then "/swagger-ui" else "/v3/api-docs";
    if swaggerEnabled {
      SwaggerEnabled(h2ConsoleEnabled, m, path, base);
    } else {
      OutsideApiUnlisted(h2ConsoleEnabled, false, m, path, base);
    }
  }

  /** With the documentation switched on, its paths are decided by its own rule. */
  lemma SwaggerEnabled(h2ConsoleEnabled: bool, m: HttpMethod, path: string, base: string)
    requires base == "/swagger-ui" || base == "/v3/api-docs"
    requires UnderPrefix(path, base)
    ensures Authorize(h2ConsoleEnabled, true, m, path) == PermitAll
  {
    var before := OpenRules(h2ConsoleEnabled, false);
    var rules := Rules(h2ConsoleEnabled, true);
    OpenRulesMiss(h2ConsoleEnabled, false, m, path, base);
    assert rules == before + [Rule(None, ["/swagger-ui", "/v3/api-docs"], PermitAll)] + GuardedRules;
    assert FirstMatchAt(rules, |before|, m, path);
  }

  /** A request whose path lies under none of the bases of the table needs only an
      authenticated caller, whatever its method. */
  lemma UnlistedNeedsAuthentication(h2ConsoleEnabled: bool, swaggerEnabled: bool, m: HttpMethod, path: string)
    requires forall i, b :: 0 <= i < |Rules(h2ConsoleEnabled, swaggerEnabled)| && b in Rules(h2ConsoleEnabled, swaggerEnabled)[i].bases
               ==> !UnderPrefix(path, b)
    ensures Authorize(h2ConsoleEnabled, swaggerEnabled, m, path) == Authenticated
  {
    var rules := Rules(h2ConsoleEnabled, swaggerEnabled);
    forall i | 0 <= i < |rules| ensures !RuleMatches(rules[i], m, path) {
    }
  }

  /** A path under a base whose second character is not that of "/api" (nor, when their
      switches are on, that of the console's or the documentation's bases) needs only an
      authenticated caller. */
  lemma OutsideApiUnlisted(h2ConsoleEnabled: bool, swaggerEnabled: bool, m: HttpMethod, path: string, base: string)
    requires UnderPrefix(path, base) && |base| >= 2 && base[1] != 'a'
    requires h2ConsoleEnabled ==> base[1] != 'h'
    requires swaggerEnabled ==> base[1] != 's' && base[1] != 'v'
    ensures Authorize(h2ConsoleEnabled, swaggerEnabled, m, path) == Authenticated
  {
    OpenRulesMiss(h2ConsoleEnabled, swaggerEnabled, m, path, base);
    DecideAppend(OpenRules(h2ConsoleEnabled, swaggerEnabled), GuardedRules, m, path);
    GuardedOutsideApi(m, path, base);
  }

  /** A path outside "/api/" whose first characters differ from the console's matches
      no open rule but, when switched on, the console's or the documentation's. */
  lemma OpenRulesMiss(h2ConsoleEnabled: bool, swaggerEnabled: bool, m: HttpMethod, path: string, base: string)
    requires UnderPrefix(path, base) && |base| >= 2 && base[1] != 'a'
    requires h2ConsoleEnabled ==> base[1] != 'h'
    requires swaggerEnabled ==> base[1] != 's' && base[1] != 'v'
    ensures forall i :: 0 <= i < |OpenRules(h2ConsoleEnabled, swaggerEnabled)| ==>
              !RuleMatches(OpenRules(h2ConsoleEnabled, swaggerEnabled)[i], m, path)
  {
    var open := OpenRules(h2ConsoleEnabled, swaggerEnabled);
    forall i | 0 <= i < |open| ensures !RuleMatches(open[i], m, path) {
      forall b | b in open[i].bases ensures !UnderPrefix(path, b) {
        Apart(path, base, b, 1);
      }
    }
  }

  /** Every base of the rules lies under "/api/" (its second character is 'a'). */
  predicate ApiBases(rules: seq<Rule>) {
    forall i, b :: 0 <= i < |rules| && b in rules[i].bases ==> |b| >= 2 && b[1] == 'a'
  }

  /** The role rules all concern the API. */
  lemma GuardedRulesAreApi()
    ensures ApiBases(GuardedRules)
  {
    forall i, b | 0 <= i < |GuardedRules| && b in GuardedRules[i].bases ensures |b| >= 2 && b[1] == 'a' {
    }
  }

  /** A path outside "/api/" matches no role rule. */
  lemma GuardedOutsideApi(m: HttpMethod, path: string, base: string)
    requires UnderPrefix(path, base) && |base| >= 2 && base[1] != 'a'
    ensures Decide(GuardedRules, m, path) == Authenticated
  {
    GuardedRulesAreApi();
    NoApiRuleMatches(GuardedRules, m, path, base);
  }

  /** A path outside "/api/" matches no rule of an API-only table. */
  lemma NoApiRuleMatches(rules: seq<Rule>, m: HttpMethod, path: string, base: string)
    requires ApiBases(rules)
    requires UnderPrefix(path, base) && |base| >= 2 && base[1] != 'a'
    ensures forall i :: 0 <= i < |rules| ==> !RuleMatches(rules[i], m, path)
  {
    forall i | 0 <= i < |rules| ensures !RuleMatches(rules[i], m, path) {
      forall b | b in rules[i].bases ensures !UnderPrefix(path, b) {
        Apart(path, base, b, 1);
      }
    }
  }

  /** The decision for a path under "/api/" but outside the authentication and public API
      is the role rules' decision. */
  lemma ProtectedDecidedByGuardedRules(h2ConsoleEnabled: bool, swaggerEnabled: bool, m: HttpMethod, path: string, base: string)
    requires UnderPrefix(path, base) && |base| >= 5 && base[..5] == "/api/"
    requires !UnderPrefix(path, "/api/auth") && !UnderPrefix(path, "/api/public")
    ensures Authorize(h2ConsoleEnabled, swaggerEnabled, m, path) == Decide(GuardedRules, m, path)
  {
    OpenRulesSkip(h2ConsoleEnabled, swaggerEnabled, m, path, base);
    DecideAppend(OpenRules(h2ConsoleEnabled, swaggerEnabled), GuardedRules, m, path);
  }

  /** A path under an API base that differs from "/api/auth" and "/api/public" in its
      sixth or seventh character lies outside both. */
  lemma OutsideOpenApi(path: string, base: string)
    requires UnderPrefix(path, base) && |base| >= 7 && base[..5] == "/api/" && (base[5] != 'a' || base[6] != 'u') && base[5] != 'p'
    ensures !UnderPrefix(path, "/api/auth") && !UnderPrefix(path, "/api/public")
  {
    if base[5] == 'a' {
      Apart(path, base, "/api/auth", 6);
    } else {
      Apart(path, base, "/api/auth", 5);
    }
    Apart(path, base, "/api/public", 5);
  }

  /** Deleting a user and anything under the admin API need the ADMIN role. */
  lemma AdminOnly(h2ConsoleEnabled: bool, swaggerEnabled: bool, m: HttpMethod, path: string)
    requires (m == Delete && UnderPrefix(path, "/api/users")) || UnderPrefix(path, "/api/admin")
    ensures Authorize(h2ConsoleEnabled, swaggerEnabled, m, path) == HasAnyRole({RoleAdmin})
  {
    if m == Delete && UnderPrefix(path, "/api/users") {
      OutsideOpenApi(path, "/api/users");
      ProtectedDecidedByGuardedRules(h2ConsoleEnabled, swaggerEnabled, m, path, "/api/users");
      GuardedDeleteUser(path);
    } else {
      OutsideOpenApi(path, "/api/admin");
      ProtectedDecidedByGuardedRules(h2ConsoleEnabled, swaggerEnabled, m, path, "/api/admin");
      GuardedAdmin(m, path);
    }
  }

  /** Within the role rules, deleting a user is decided by the first rule. */
  lemma GuardedDeleteUser(path: string)
    requires UnderPrefix(path, "/api/users")
    ensures Decide(GuardedRules, Delete, path) == HasAnyRole({RoleAdmin})
  {
    assert FirstMatchAt(GuardedRules, 0, Delete, path);
  }

  /** Within the role rules, the admin API is decided by the second rule. */
  lemma GuardedAdmin(m: HttpMethod, path: string)
    requires UnderPrefix(path, "/api/admin")
    ensures Decide(GuardedRules, m, path) == HasAnyRole({RoleAdmin})
  {
    Apart(path, "/api/admin", "/api/users", 5);
    assert FirstMatchAt(GuardedRules, 1, m, path);
  }

  /** The two availability checks are open to everyone for GET, although they lie under
      the user API, because their rules come first. */
  lemma AvailabilityChecksOpen(h2ConsoleEnabled: bool, swaggerEnabled: bool, path: string)
    requires UnderPrefix(path, "/api/users/check-username") || UnderPrefix(path, "/api/users/check-email")
    ensures Authorize(h2ConsoleEnabled, swaggerEnabled, Get, path) == PermitAll
  {
    var base := if UnderPrefix(path, "/api/users/check-username") then "/api/users/check-username" else "/api/users/check-email";
    OutsideOpenApi(path, base);
    ProtectedDecidedByGuardedRules(h2ConsoleEnabled, swaggerEnabled, Get, path, base);
    GuardedAvailability(path, base);
  }

  /** Within the role rules, a GET of an availability check is decided by its own rule. */
  lemma GuardedAvailability(path: string, base: string)
    requires base == "/api/users/check-username" || base == "/api/users/check-email"
    requires UnderPrefix(path, base)
    ensures Decide(GuardedRules, Get, path) == PermitAll
  {
    Apart(path, base, "/api/admin", 5);
    assert !RuleMatches(GuardedRules[0], Get, path);
    assert !RuleMatches(GuardedRules[1], Get, path);
    if base == "/api/users/check-username" {
      assert FirstMatchAt(GuardedRules, 2, Get, path);
    } else {
      Apart(path, base, "/api/users/check-username", 17);
      assert !RuleMatches(GuardedRules[2], Get, path);
      assert FirstMatchAt(GuardedRules, 3, Get, path);
    }
  }

  /** Reading and changing users (other than the availability checks) and every request
      of the document API need the USER or the ADMIN role. */
  lemma UserRoleRequired(h2ConsoleEnabled: bool, swaggerEnabled: bool, m: HttpMethod, path: string)
    requires ((m == Get || m == Put) && UnderPrefix(path, "/api/users")
               && !UnderPrefix(path, "/api/users/check-username") && !UnderPrefix(path, "/api/users/check-email"))
             || UnderPrefix(path, "/api/documents")
    ensures Authorize(h2ConsoleEnabled, swaggerEnabled, m, path) == HasAnyRole(UserOrAdmin)
  {
    if UnderPrefix(path, "/api/documents") {
      OutsideOpenApi(path, "/api/documents");
      ProtectedDecidedByGuardedRules(h2ConsoleEnabled, swaggerEnabled, m, path, "/api/documents");
      GuardedDocuments(m, path);
    } else {
      OutsideOpenApi(path, "/api/users");
      ProtectedDecidedByGuardedRules(h2ConsoleEnabled, swaggerEnabled, m, path, "/api/users");
      GuardedUsers(m, path);
    }
  }

  /** Within the role rules, GET and PUT of the user API fall to the USER-or-ADMIN rules. */
  lemma GuardedUsers(m: HttpMethod, path: string)
    requires m == Get || m == Put
    requires UnderPrefix(path, "/api/users")
    requires !UnderPrefix(path, "/api/users/check-username") && !UnderPrefix(path, "/api/users/check-email")
    ensures Decide(GuardedRules, m, path) == HasAnyRole(UserOrAdmin)
  {
    Apart(path, "/api/users", "/api/admin", 5);
    assert !RuleMatches(GuardedRules[0], m, path);
    assert !RuleMatches(GuardedRules[1], m, path);
    assert !RuleMatches(GuardedRules[2], m, path);
    assert !RuleMatches(GuardedRules[3], m, path);
    if m == Get {
      assert FirstMatchAt(GuardedRules, 4, m, path);
    } else {
      assert !RuleMatches(GuardedRules[4], m, path);
      assert FirstMatchAt(GuardedRules, 5, m, path);
    }
  }

  /** Within the role rules, the document API falls to the last rule. */
  lemma GuardedDocuments(m: HttpMethod, path: string)
    requires UnderPrefix(path, "/api/documents")
    ensures Decide(GuardedRules, m, path) == HasAnyRole(UserOrAdmin)
  {
    forall j | 0 <= j < 6 ensures !RuleMatches(GuardedRules[j], m, path) {
      forall b | b in GuardedRules[j].bases ensures !UnderPrefix(path, b) {
        Apart(path, "/api/documents", b, 5);
      }
    }
    assert FirstMatchAt(GuardedRules, 6, m, path);
  }

  /** Creating a user (POST on the user API) matches no rule and needs only an
      authenticated caller. */
  lemma CreateUserNeedsAuthentication(h2ConsoleEnabled: bool, swaggerEnabled: bool, path: string)
    requires UnderPrefix(path, "/api/users")
    ensures Authorize(h2ConsoleEnabled, swaggerEnabled, Post, path) == Authenticated
  {
    OutsideOpenApi(path, "/api/users");
    ProtectedDecidedByGuardedRules(h2ConsoleEnabled, swaggerEnabled, Post, path, "/api/users");
    GuardedPostUsers(path);
  }

  /** Within the role rules, a POST on the user API matches nothing. */
  lemma GuardedPostUsers(path: string)
    requires UnderPrefix(path, "/api/users")
    ensures Decide(GuardedRules, Post, path) == Authenticated
  {
    Apart(path, "/api/users", "/api/admin", 5);
    Apart(path, "/api/users", "/api/documents", 5);
    forall i | 0 <= i < |GuardedRules| ensures !RuleMatches(GuardedRules[i], Post, path) {
      assert i == 1 || i == 6 || GuardedRules[i].verb.Some?;
    }
  }
}
