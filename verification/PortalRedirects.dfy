/**
 * The request middleware as a decision function over host, path, query and session, and the redirect chains that a
 * browser following its responses can run through.
 */
module PortalRedirects {
  import opened Text

  /** `auth` of a request; an absent or non-string claim is the empty string. */
  datatype Auth = NoAuth | Auth(userType: string, clientId: string, contactId: string)

  /** What one host's cookies hold; in development a cookie can be present although the session did not hydrate. */
  datatype Session = Session(auth: Auth, hasCookie: bool)

  datatype Canonical = NoCanonical | CanonicalHost(host: string)

  datatype Env = Env(
    development: bool, authBypass: bool, canonical: Canonical, settingsTabs: set<string>, skipsApiKey: string -> bool)

  type Query = seq<(string, string)>

  datatype Request = Request(
    protocol: string, host: string, hostHeader: string, path: string, query: Query,
    verb: string, nextAction: bool, staleAction: bool, apiKey: bool)

  datatype Response =
    | Preflight
    | StaleAction
    | InvalidIdentity
    | ApiKeyMissing
    | Pass
    | Redirect(host: string, path: string, query: Query, clearsSession: bool)

  const SIGNIN := "/auth/client-portal/signin"
  const MSP_SIGNIN := "/auth/msp/signin"
  const PLAIN_SIGNIN := "/auth/signin"
  const MSP_DASHBOARD := "/msp/dashboard"
  const PORTAL_DASHBOARD := "/client-portal/dashboard"
  const SETTINGS := "/msp/settings"
  const SETUP_COMPLETE := "/payment-methods/setup-complete"

  // ---------------------------------------------------------------------------
  // Query parameters
  // ---------------------------------------------------------------------------

  function Values(q: Query, key: string): seq<string> {
    if q == [] then [] else (if q[0].0 == key then [q[0].1] else []) + Values(q[1..], key)
  }

  function Remove(q: Query, key: string): Query {
    if q == [] then [] else (if q[0].0 == key then [] else [q[0]]) + Remove(q[1..], key)
  }

  /** `set`: the first occurrence takes the value, the others go; a new key comes last. */
  function SetParam(q: Query, key: string, value: string): Query {
    if q == [] then [(key, value)]
    else if q[0].0 == key then [(key, value)] + Remove(q[1..], key)
    else [q[0]] + SetParam(q[1..], key, value)
  }

  function SetAll(q: Query, from: Query): Query
    decreases from
  {
    if from == [] then q else SetAll(SetParam(q, from[0].0, from[0].1), from[1..])
  }

  function Search(q: Query): string {
    if q == [] then "" else "?" + Pairs(q)
  }

  function Pairs(q: Query): string {
    if q == [] then ""
    else q[0].0 + "=" + q[0].1 + if |q| > 1 then "&" + Pairs(q[1..]) else ""
  }

  // ---------------------------------------------------------------------------
  // Paths
  // ---------------------------------------------------------------------------

  predicate Includes(s: string, part: string) {
    exists k :: 0 <= k <= |s| && StartsWith(s[k..], part)
  }

  predicate IsApi(path: string) {
    StartsWith(path, "/api/")
  }

  predicate IsAuthApi(path: string) {
    StartsWith(path, "/api/auth/")
  }

  predicate IsMsp(path: string) {
    StartsWith(path, "/msp")
  }

  predicate IsPortal(path: string) {
    StartsWith(path, "/client-portal")
  }

  predicate IsAuthPage(path: string) {
    StartsWith(path, "/auth/")
  }

  // ---------------------------------------------------------------------------
  // The decision
  // ---------------------------------------------------------------------------

  predicate IsInternal(a: Auth) {
    a.Auth? && a.userType == "internal"
  }

  predicate IsClient(a: Auth) {
    a.Auth? && a.userType == "client"
  }

  predicate Contradictory(a: Auth) {
    IsInternal(a) && (a.clientId != "" || a.contactId != "")
  }

  predicate Vanity(env: Env, host: string) {
    env.canonical.CanonicalHost? && host != env.canonical.host
  }

  /** Where an internal user on a vanity host is sent from the client portal, or "" for nowhere. */
  function VanityInternalTarget(env: Env, host: string, path: string, a: Auth): string {
    if !IsInternal(a) || !Vanity(env, host) then ""
    else if path == SIGNIN || (IsPortal(path) && !IsAuthPage(path)) then MSP_DASHBOARD
    else ""
  }

  function ShownHost(req: Request): string {
    if req.hostHeader != "" then req.hostHeader else req.host
  }

  predicate LegacySettings(env: Env, req: Request) {
    && req.verb == "GET" && req.path == SETTINGS
    && |Values(req.query, "tab")| == 1 && ToLower(Values(req.query, "tab")[0]) in env.settingsTabs
  }

  function VanitySignin(env: Env, req: Request, a: Auth): Response
    requires env.canonical.CanonicalHost?
  {
    var target := VanityInternalTarget(env, req.host, req.path, a);
    if target != "" then Redirect(env.canonical.host, target, [], false)
    else Redirect(env.canonical.host, SIGNIN, SetParam(SetAll([], req.query), "portalDomain", ShownHost(req)), false)
  }

  function ProtectMsp(env: Env, req: Request, session: Session): Response {
    if session.auth.NoAuth? then
      if env.development && session.hasCookie then Pass
      else if req.nextAction then Pass
      else Redirect(req.host, PLAIN_SIGNIN, SetParam(req.query, "callbackUrl", req.path + Search(req.query)), false)
    else if !IsInternal(session.auth) then
      Redirect(if env.canonical.CanonicalHost? then env.canonical.host else req.host, PORTAL_DASHBOARD, [], false)
    else if LegacySettings(env, req) then
      var tab := ToLower(Values(req.query, "tab")[0]);
      Redirect(req.host, SETTINGS + "/" + tab, Remove(req.query, "tab"), false)
    else Pass
  }

  function ProtectPortal(env: Env, req: Request, session: Session): Response {
    if session.auth.NoAuth? then
      if env.development && session.hasCookie then Pass
      else if Vanity(env, req.host) then
        Redirect(env.canonical.host, SIGNIN,
                 [("callbackUrl", req.protocol + "://" + ShownHost(req) + req.path + Search(req.query)),
                  ("portalDomain", ShownHost(req))],
                 false)
      else
        var existing := Values(req.query, "callbackUrl");
        var callback := if existing != [] && existing[0] != "" then existing[0] else req.path + Search(req.query);
        Redirect(req.host, SIGNIN, SetParam(req.query, "callbackUrl", callback), false)
    else if !IsClient(session.auth) then
      var target := VanityInternalTarget(env, req.host, req.path, session.auth);
      if target != "" then Redirect(env.canonical.host, target, [], false)
      else Redirect(req.host, SIGNIN, SetParam(req.query, "error", "AccessDenied"), false)
    else Pass
  }

  function Decide(env: Env, req: Request, session: Session): Response {
    if req.verb == "OPTIONS" then Preflight
    else if env.development && req.staleAction then StaleAction
    else if !IsAuthApi(req.path) && Contradictory(session.auth) then
      if IsApi(req.path) then InvalidIdentity
      else
        Redirect(req.host, if Includes(req.path, "/client-portal") then SIGNIN else MSP_SIGNIN,
                 [("error", "SessionTypeMismatch")], true)
    else if IsApi(req.path) && !IsAuthApi(req.path) && env.skipsApiKey(req.path) then Pass
    else if IsApi(req.path) && !IsAuthApi(req.path) && !req.apiKey then ApiKeyMissing
    else if req.path == SETUP_COMPLETE then Pass
    else if req.path == SIGNIN && Vanity(env, req.host) then VanitySignin(env, req, session.auth)
    else if env.authBypass && IsMsp(req.path) then Pass
    else if IsMsp(req.path) then ProtectMsp(env, req, session)
    else if IsPortal(req.path) && !IsAuthPage(req.path) then ProtectPortal(env, req, session)
    else Pass
  }

  // ---------------------------------------------------------------------------
  // Redirect chains
  // ---------------------------------------------------------------------------

  type Sessions = map<string, Session>

  function SessionAt(sessions: Sessions, host: string): Session {
    if host in sessions then sessions[host] else Session(NoAuth, false)
  }

  datatype Stop = Stop(sessions: Sessions, request: Request)

  /**
   * One hop: the request at `from` is redirected and `next` is the request that follows. Only host, path and query are
   * prescribed; verb, headers and keys of the next request are free.
   */
  predicate Hop(env: Env, from: Stop, next: Stop) {
    var r := Decide(env, from.request, SessionAt(from.sessions, from.request.host));
    && r.Redirect?
    && next.request.host == r.host && next.request.path == r.path && next.request.query == r.query
    && next.sessions ==
       if r.clearsSession then from.sessions[from.request.host := Session(NoAuth, false)] else from.sessions
  }

  ghost predicate Chain(env: Env, stops: seq<Stop>) {
    forall k :: 0 < k < |stops| ==> Hop(env, stops[k - 1], stops[k])
  }

  /** One when the host's session will be rejected as contradictory. */
  function Rejected(sessions: Sessions, host: string): nat {
    if Contradictory(SessionAt(sessions, host).auth) then 1 else 0
  }

  /** Hops still possible from the client portal sign-in page, for a session that is not rejected on this host. */
  function SigninHops(env: Env, sessions: Sessions, host: string): nat {
    if Vanity(env, host) then 1 + Rejected(sessions, env.canonical.host) else 0
  }

  /** Hops still possible from a dashboard on its home host. */
  function PortalHomeHops(a: Auth): nat {
    if IsClient(a) then 0 else 1
  }

  function MspHomeHops(a: Auth): nat {
    if a.NoAuth? || Contradictory(a) then 1 else if IsInternal(a) then 0 else 1 + PortalHomeHops(a)
  }

  /** An upper bound on the redirects that can still follow. */
  function HopsLeft(env: Env, stop: Stop): nat {
    var req, sessions := stop.request, stop.sessions;
    var a := SessionAt(sessions, req.host).auth;
    if IsApi(req.path) then 0
    else if Contradictory(a) then
      1 + if Includes(req.path, "/client-portal") then SigninHops(env, sessions, req.host) else 0
    else if req.path == SIGNIN then
      if IsInternal(a) && Vanity(env, req.host) then 1 + MspHomeHops(SessionAt(sessions, env.canonical.host).auth)
      else SigninHops(env, sessions, req.host)
    else if IsMsp(req.path) then
      if a.NoAuth? then 1
      else if IsInternal(a) then if req.path == SETTINGS then 1 else 0
      else if env.canonical.CanonicalHost? then 1 + PortalHomeHops(SessionAt(sessions, env.canonical.host).auth)
      else 1 + PortalHomeHops(a)
    else if IsPortal(req.path) then
      if IsClient(a) then 0
      else if a.NoAuth? then
        1 + if Vanity(env, req.host) then Rejected(sessions, env.canonical.host) else 0
      else if IsInternal(a) && Vanity(env, req.host) then 1 + MspHomeHops(SessionAt(sessions, env.canonical.host).auth)
      else 1 + SigninHops(env, sessions, req.host)
    else 0
  }

  lemma AtMostThree(env: Env, stop: Stop)
    ensures HopsLeft(env, stop) <= 3
  {
    hide IsApi, IsMsp, IsPortal, Includes;
  }

  // ---------------------------------------------------------------------------
  // Where the constant paths fall
  // ---------------------------------------------------------------------------

  lemma DisjointPrefixes(path: string)
    ensures IsMsp(path) ==> !IsApi(path) && !IsPortal(path) && !IsAuthPage(path)
    ensures IsPortal(path) ==> !IsApi(path) && !IsAuthPage(path) && path != SIGNIN
    ensures IsAuthPage(path) ==> !IsApi(path)
    ensures IsAuthApi(path) ==> IsApi(path)
  {
    if IsMsp(path) {
      assert path[1] == path[..4][1] == 'm';
    }
    if IsPortal(path) {
      assert path[1] == path[..14][1] == 'c';
    }
    if IsAuthPage(path) {
      assert path[1] == path[..6][1] == 'a' && path[2] == path[..6][2] == 'u';
    }
    if IsApi(path) {
      assert path[1] == path[..5][1] == 'a' && path[2] == path[..5][2] == 'p';
    }
    if IsAuthApi(path) {
      assert path[..5] == path[..10][..5];
    }
  }

  lemma ConstantPaths()
    ensures IsAuthPage(SIGNIN) && IsAuthPage(MSP_SIGNIN) && IsAuthPage(PLAIN_SIGNIN)
    ensures MSP_SIGNIN != SIGNIN && PLAIN_SIGNIN != SIGNIN
    ensures IsMsp(MSP_DASHBOARD) && MSP_DASHBOARD != SETTINGS && !Includes(MSP_DASHBOARD, "/client-portal")
    ensures IsPortal(PORTAL_DASHBOARD) && Includes(PORTAL_DASHBOARD, "/client-portal")
    ensures Includes(SIGNIN, "/client-portal")
    ensures IsMsp(SETTINGS)
  {
    assert SIGNIN[..6] == "/auth/" && MSP_SIGNIN[..6] == "/auth/" && PLAIN_SIGNIN[..6] == "/auth/";
    assert MSP_DASHBOARD[..4] == "/msp" && SETTINGS[..4] == "/msp";
    assert PORTAL_DASHBOARD[..14] == "/client-portal" && PORTAL_DASHBOARD[0..] == PORTAL_DASHBOARD;
    assert SIGNIN[5..][..14] == "/client-portal";
    DashboardIsNoPortal();
  }

  lemma DashboardIsNoPortal()
    ensures !Includes(MSP_DASHBOARD, "/client-portal")
  {
    forall k | 0 <= k <= |MSP_DASHBOARD|
      ensures !StartsWith(MSP_DASHBOARD[k..], "/client-portal")
    {
      if k == 0 {
        assert MSP_DASHBOARD[0..][..14][1] == 'm';
      }
    }
  }

  lemma SettingsTabPath(tab: string)
    ensures IsMsp(SETTINGS + "/" + tab) && SETTINGS + "/" + tab != SETTINGS
  {
    assert (SETTINGS + "/" + tab)[..4] == "/msp";
  }

  // ---------------------------------------------------------------------------
  // Every hop brings the chain nearer to rest
  // ---------------------------------------------------------------------------

  /** The rejection of a contradictory session. */
  lemma RejectionDescends(env: Env, from: Stop, next: Stop)
    requires Hop(env, from, next) && Contradictory(SessionAt(from.sessions, from.request.host).auth)
    requires !IsAuthApi(from.request.path)
    ensures HopsLeft(env, next) < HopsLeft(env, from)
  {
    hide Includes, SetParam, SetAll;
    ConstantPaths();
    DisjointPrefixes(from.request.path);
    DisjointPrefixes(SIGNIN);
    DisjointPrefixes(MSP_SIGNIN);
    hide IsApi, IsAuthApi, IsMsp, IsPortal, IsAuthPage;
    assert !IsMsp(MSP_SIGNIN) && !IsPortal(MSP_SIGNIN);
  }

  lemma SigninDescends(env: Env, from: Stop, next: Stop)
    requires Hop(env, from, next) && !Contradictory(SessionAt(from.sessions, from.request.host).auth)
    requires from.request.path == SIGNIN
    ensures HopsLeft(env, next) < HopsLeft(env, from)
  {
    hide Includes, SetParam, SetAll;
    ConstantPaths();
    DisjointPrefixes(SIGNIN);
    DisjointPrefixes(MSP_DASHBOARD);
    hide IsApi, IsAuthApi, IsMsp, IsPortal, IsAuthPage;
  }

  lemma MspDescends(env: Env, from: Stop, next: Stop)
    requires Hop(env, from, next) && !Contradictory(SessionAt(from.sessions, from.request.host).auth)
    requires IsMsp(from.request.path)
    ensures HopsLeft(env, next) < HopsLeft(env, from)
  {
    hide Includes, SetParam, SetAll, Values, Remove, ToLower, Search;
    ConstantPaths();
    DisjointPrefixes(from.request.path);
    DisjointPrefixes(SIGNIN);
    DisjointPrefixes(PLAIN_SIGNIN);
    DisjointPrefixes(PORTAL_DASHBOARD);
    DisjointPrefixes(next.request.path);
    if LegacySettings(env, from.request) {
      SettingsTabPath(ToLower(Values(from.request.query, "tab")[0]));
    }
    hide IsApi, IsAuthApi, IsMsp, IsPortal, IsAuthPage, LegacySettings;
  }

  lemma PortalDescends(env: Env, from: Stop, next: Stop)
    requires Hop(env, from, next) && !Contradictory(SessionAt(from.sessions, from.request.host).auth)
    requires IsPortal(from.request.path)
    ensures HopsLeft(env, next) < HopsLeft(env, from)
  {
    hide Includes, SetParam, SetAll, Values, Remove, ToLower, Search;
    ConstantPaths();
    DisjointPrefixes(from.request.path);
    DisjointPrefixes(SIGNIN);
    DisjointPrefixes(MSP_DASHBOARD);
    hide IsApi, IsAuthApi, IsMsp, IsPortal, IsAuthPage;
  }

  lemma HopDescends(env: Env, from: Stop, next: Stop)
    requires Hop(env, from, next)
    ensures HopsLeft(env, next) < HopsLeft(env, from)
  {
    var path := from.request.path;
    DisjointPrefixes(path);
    if Contradictory(SessionAt(from.sessions, from.request.host).auth) && !IsAuthApi(path) {
      RejectionDescends(env, from, next);
    } else if path == SIGNIN {
      SigninDescends(env, from, next);
    } else if IsMsp(path) {
      MspDescends(env, from, next);
    } else if IsPortal(path) {
      PortalDescends(env, from, next);
    }
  }

  lemma {:induction false} ChainDescends(env: Env, stops: seq<Stop>, k: nat)
    requires Chain(env, stops) && k < |stops|
    ensures HopsLeft(env, stops[k]) + k <= HopsLeft(env, stops[0])
  {
    hide HopsLeft, Hop;
    if k > 0 {
      ChainDescends(env, stops, k - 1);
      HopDescends(env, stops[k - 1], stops[k]);
    }
  }

  /** Redirect termination: from every host, path, query and set of sessions, at most three redirects follow. */
  lemma RedirectsTerminate(env: Env, stops: seq<Stop>)
    requires Chain(env, stops)
    ensures |stops| <= 4
  {
    hide HopsLeft, Hop;
    if stops != [] {
      ChainDescends(env, stops, |stops| - 1);
      AtMostThree(env, stops[0]);
    }
  }

  /**
   * Three is reached: a user of neither portal on a vanity host, with a contradictory session on the canonical host, is
   * sent to the vanity sign-in page, to the canonical one, and there once more when the session is rejected.
   */
  lemma ThreeHopsHappen(env: Env)
    requires env.canonical == CanonicalHost("c") && !env.development
    ensures exists stops :: Chain(env, stops) && |stops| == 4
  {
    hide *;
    var s0 := OnVanityPortal();
    var s1 := FromPortalToSignin(env, s0);
    var s2 := FromVanityToCanonical(env, s1);
    var s3 := FromCanonicalToRest(env, s2);
    FourStops(env, s0, s1, s2, s3);
  }

  /** A user of neither portal here, with a contradictory session on the canonical host. */
  ghost predicate Stranded(stop: Stop, host: string, path: string) {
    && stop.request.host == host && stop.request.path == path && stop.request.verb == "GET"
    && SessionAt(stop.sessions, "v").auth == Auth("", "", "")
    && SessionAt(stop.sessions, "c").auth == Auth("internal", "x", "")
  }

  lemma OnVanityPortal() returns (stop: Stop)
    ensures Stranded(stop, "v", PORTAL_DASHBOARD)
  {
    var sessions := map["v" := Session(Auth("", "", ""), true), "c" := Session(Auth("internal", "x", ""), true)];
    stop := Stop(sessions, Request("https", "v", "v", PORTAL_DASHBOARD, [], "GET", false, false, false));
  }

  lemma FromPortalToSignin(env: Env, from: Stop) returns (next: Stop)
    requires !env.development && Stranded(from, "v", PORTAL_DASHBOARD)
    ensures Hop(env, from, next) && Stranded(next, "v", SIGNIN)
  {
    hide Hop, SetParam;
    next := from.(request := from.request.(path := SIGNIN, query := SetParam(from.request.query, "error", "AccessDenied")));
    DeniedHop(env, from, next);
  }

  lemma FromVanityToCanonical(env: Env, from: Stop) returns (next: Stop)
    requires env.canonical == CanonicalHost("c") && !env.development && Stranded(from, "v", SIGNIN)
    ensures Hop(env, from, next) && Stranded(next, "c", SIGNIN)
  {
    hide Hop, SetParam, SetAll, ShownHost;
    next := from.(request := from.request.(
      host := "c", query := SetParam(SetAll([], from.request.query), "portalDomain", ShownHost(from.request))));
    VanityHop(env, from, next);
  }

  lemma FromCanonicalToRest(env: Env, from: Stop) returns (next: Stop)
    requires !env.development && Stranded(from, "c", SIGNIN)
    ensures Hop(env, from, next)
  {
    hide Hop;
    next := Stop(from.sessions["c" := Session(NoAuth, false)],
                 from.request.(query := [("error", "SessionTypeMismatch")]));
    RejectedHop(env, from, next);
  }

  lemma FourStops(env: Env, s0: Stop, s1: Stop, s2: Stop, s3: Stop)
    requires Hop(env, s0, s1) && Hop(env, s1, s2) && Hop(env, s2, s3)
    ensures Chain(env, [s0, s1, s2, s3])
  {
    hide Hop;
  }

  lemma DeniedHop(env: Env, from: Stop, next: Stop)
    requires !env.development && from.request.verb == "GET" && from.request.path == PORTAL_DASHBOARD
    requires SessionAt(from.sessions, from.request.host).auth == Auth("", "", "")
    requires next == from.(request := from.request.(
                             path := SIGNIN, query := SetParam(from.request.query, "error", "AccessDenied")))
    ensures Hop(env, from, next)
  {
    hide Includes, IsApi, IsAuthApi, IsMsp, IsPortal, IsAuthPage, SetParam;
    ConstantPaths();
    DisjointPrefixes(PORTAL_DASHBOARD);
    SetupIsElsewhere();
  }

  lemma VanityHop(env: Env, from: Stop, next: Stop)
    requires !env.development && from.request.verb == "GET" && from.request.path == SIGNIN
    requires Vanity(env, from.request.host) && SessionAt(from.sessions, from.request.host).auth == Auth("", "", "")
    requires next == from.(request := from.request.(
                             host := env.canonical.host,
                             query := SetParam(SetAll([], from.request.query), "portalDomain", ShownHost(from.request))))
    ensures Hop(env, from, next)
  {
    hide Includes, IsApi, IsAuthApi, IsMsp, IsPortal, IsAuthPage, SetParam, SetAll;
    ConstantPaths();
    DisjointPrefixes(SIGNIN);
    SetupIsElsewhere();
  }

  lemma RejectedHop(env: Env, from: Stop, next: Stop)
    requires !env.development && from.request.verb == "GET" && from.request.path == SIGNIN
    requires Contradictory(SessionAt(from.sessions, from.request.host).auth)
    requires next == Stop(from.sessions[from.request.host := Session(NoAuth, false)],
                          from.request.(query := [("error", "SessionTypeMismatch")]))
    ensures Hop(env, from, next)
  {
    hide Includes, IsApi, IsAuthApi, IsMsp, IsPortal, IsAuthPage;
    ConstantPaths();
    DisjointPrefixes(SIGNIN);
  }

  lemma SetupIsElsewhere()
    ensures !IsMsp(SETUP_COMPLETE) && !IsPortal(SETUP_COMPLETE) && !IsApi(SETUP_COMPLETE) && SETUP_COMPLETE != SIGNIN
  {
    assert SETUP_COMPLETE[..4][1] == 'p' && SETUP_COMPLETE[..14][1] == 'p' && SETUP_COMPLETE[..5][1] == 'p';
  }

  // ---------------------------------------------------------------------------
  // Who rests where
  // ---------------------------------------------------------------------------

  /**
   * Outside development, without the bypass, an ordinary request reaches an MSP page exactly with an internal session;
   * bookmarks of migrated settings tabs are redirected even then.
   */
  lemma MspPagesAreInternal(env: Env, req: Request, session: Session)
    requires !env.development && !env.authBypass && !req.nextAction && req.verb != "OPTIONS"
    requires IsMsp(req.path)
    ensures Decide(env, req, session) == Pass <==>
            IsInternal(session.auth) && !Contradictory(session.auth) && !LegacySettings(env, req)
  {
    hide Includes, IsApi, IsAuthApi, IsMsp, IsPortal, IsAuthPage, LegacySettings, Values, Remove, SetParam, ToLower, Search;
    DisjointPrefixes(req.path);
    ConstantPaths();
    DisjointPrefixes(SIGNIN);
    SetupIsElsewhere();
  }

  /** Outside development an ordinary request reaches a client portal page exactly with a client session. */
  lemma PortalPagesAreClient(env: Env, req: Request, session: Session)
    requires !env.development && req.verb != "OPTIONS"
    requires IsPortal(req.path)
    ensures Decide(env, req, session) == Pass <==> IsClient(session.auth)
  {
    hide Includes, IsApi, IsAuthApi, IsMsp, IsPortal, IsAuthPage;
    DisjointPrefixes(req.path);
    SetupIsElsewhere();
  }

  // ---------------------------------------------------------------------------
  // What a redirect carries along
  // ---------------------------------------------------------------------------

  /** No redirect leads away from the host that was asked, except to the canonical one, and none leads off that one. */
  lemma {:induction false} RedirectsStayHome(env: Env, stops: seq<Stop>, k: nat)
    requires Chain(env, stops) && k < |stops|
    ensures var first, here := stops[0].request.host, stops[k].request.host;
            here == first || (env.canonical == CanonicalHost(here) && Vanity(env, first))
  {
    hide Decide, Hop;
    if k > 0 {
      RedirectsStayHome(env, stops, k - 1);
      HopHost(env, stops[k - 1], stops[k]);
    }
  }

  lemma HopHost(env: Env, from: Stop, next: Stop)
    requires Hop(env, from, next)
    ensures next.request.host == from.request.host || env.canonical == CanonicalHost(next.request.host)
  {
    hide Includes, IsApi, IsAuthApi, IsMsp, IsPortal, IsAuthPage, LegacySettings, Values, Remove, SetParam, SetAll;
    hide ToLower, Search, Contradictory, IsInternal, IsClient;
  }

  lemma {:induction false} ValuesOfRemove(q: Query, key: string, k: string)
    ensures Values(Remove(q, key), k) == if k == key then [] else Values(q, k)
  {
    if q != [] {
      ValuesOfRemove(q[1..], key, k);
      if q[0].0 == key {
        assert [] + Remove(q[1..], key) == Remove(q[1..], key);
      } else {
        assert ([q[0]] + Remove(q[1..], key))[1..] == Remove(q[1..], key);
      }
    }
  }

  lemma {:induction false} ValuesOfSetParam(q: Query, key: string, value: string, k: string)
    ensures Values(SetParam(q, key, value), k) == if k == key then [value] else Values(q, k)
  {
    if q == [] {
      assert [(key, value)][1..] == [];
    } else if q[0].0 == key {
      ValuesOfRemove(q[1..], key, k);
      assert ([(key, value)] + Remove(q[1..], key))[1..] == Remove(q[1..], key);
    } else {
      ValuesOfSetParam(q[1..], key, value, k);
      assert ([q[0]] + SetParam(q[1..], key, value))[1..] == SetParam(q[1..], key, value);
    }
  }

  /** Copying parameters one by one with `set` keeps the last value of each key. */
  lemma {:induction false} ValuesOfSetAll(q: Query, from: Query, k: string)
    ensures var vs := Values(from, k);
            Values(SetAll(q, from), k) == if vs == [] then Values(q, k) else [vs[|vs| - 1]]
    decreases from
  {
    if from != [] {
      ValuesOfSetParam(q, from[0].0, from[0].1, k);
      ValuesOfSetAll(SetParam(q, from[0].0, from[0].1), from[1..], k);
    }
  }

  /**
   * The vanity sign-in redirect keeps a parameter as it was exactly when it was not repeated; of a repeated one only the
   * last value arrives. The shown host replaces any `portalDomain` of the request.
   */
  lemma VanitySigninParameters(env: Env, req: Request, a: Auth, key: string)
    requires env.canonical.CanonicalHost? && !IsInternal(a)
    ensures var r := VanitySignin(env, req, a);
            && r.Redirect? && r.host == env.canonical.host && r.path == SIGNIN
            && (key == "portalDomain" ==> Values(r.query, key) == [ShownHost(req)])
            && (key != "portalDomain" ==> (Values(r.query, key) == Values(req.query, key) <==> |Values(req.query, key)| <= 1))
  {
    hide Values, SetParam, SetAll, ShownHost;
    ValuesOfSetParam(SetAll([], req.query), "portalDomain", ShownHost(req), key);
    ValuesOfSetAll([], req.query, key);
    LastOnly(Values(req.query, key));
    NoValues(key);
  }

  lemma NoValues(key: string)
    ensures Values([], key) == []
  {
  }

  lemma LastOnly(vs: seq<string>)
    ensures (if vs == [] then [] else [vs[|vs| - 1]]) == vs <==> |vs| <= 1
  {
  }

  /** A concrete loss: of a parameter given twice only the second value arrives. */
  lemma RepeatedParameterCollapses(env: Env, req: Request, a: Auth)
    requires env.canonical.CanonicalHost? && !IsInternal(a) && req.query == [("a", "1"), ("a", "2")]
    ensures Values(req.query, "a") == ["1", "2"] && Values(VanitySignin(env, req, a).query, "a") == ["2"]
  {
    hide SetParam, SetAll;
    assert req.query[1..] == [("a", "2")] && req.query[1..][1..] == [];
    assert Values(req.query[1..], "a") == ["2"];
    ValuesOfSetAll([], req.query, "a");
    ValuesOfSetParam(SetAll([], req.query), "portalDomain", ShownHost(req), "a");
  }

  /** The page that the sign-in page is to return to. */
  function Callback(env: Env, req: Request): string {
    var here, existing := req.path + Search(req.query), Values(req.query, "callbackUrl");
    if Vanity(env, req.host) then req.protocol + "://" + ShownHost(req) + here
    else if existing != [] && existing[0] != "" then existing[0]
    else here
  }

  /**
   * A visitor without a session who asks for a portal page is sent to the sign-in page of the right host with the page
   * to return to, and stays there unless the session on that host is contradictory.
   */
  lemma VisitorsSignIn(env: Env, from: Stop, next: Stop)
    requires Hop(env, from, next) && !env.development
    requires IsPortal(from.request.path) && SessionAt(from.sessions, from.request.host).auth.NoAuth?
    requires next.request.verb != "OPTIONS"
    ensures next.request.path == SIGNIN && !Vanity(env, next.request.host)
    ensures Values(next.request.query, "callbackUrl") == [Callback(env, from.request)]
    ensures var auth := SessionAt(next.sessions, next.request.host).auth;
            Decide(env, next.request, SessionAt(next.sessions, next.request.host)) == Pass <==> !Contradictory(auth)
  {
    hide *;
    var session := SessionAt(next.sessions, next.request.host);
    HopFollows(env, from, next);
    VisitorRedirect(env, from.request, SessionAt(from.sessions, from.request.host));
    SigninRests(env, next.request, session);
  }

  lemma HopFollows(env: Env, from: Stop, next: Stop)
    requires Hop(env, from, next)
    ensures var r := Decide(env, from.request, SessionAt(from.sessions, from.request.host));
            && r.Redirect?
            && next.request.host == r.host && next.request.path == r.path && next.request.query == r.query
  {
    hide Decide;
  }

  lemma VisitorRedirect(env: Env, req: Request, session: Session)
    requires !env.development && IsPortal(req.path) && session.auth.NoAuth?
    requires Decide(env, req, session).Redirect?
    ensures var r := Decide(env, req, session);
            r.path == SIGNIN && !Vanity(env, r.host) && Values(r.query, "callbackUrl") == [Callback(env, req)]
  {
    hide *;
    VisitorIsProtected(env, req, session);
    if Vanity(env, req.host) {
      VanityVisitor(env, req, session);
    } else {
      HomeVisitor(env, req, session);
    }
  }

  /** Nothing before the protection of the portal redirects a visitor. */
  lemma VisitorIsProtected(env: Env, req: Request, session: Session)
    requires !env.development && IsPortal(req.path) && session.auth.NoAuth?
    requires Decide(env, req, session).Redirect?
    ensures Decide(env, req, session) == ProtectPortal(env, req, session)
  {
    hide Includes, IsApi, IsAuthApi, IsMsp, IsPortal, IsAuthPage, ProtectMsp, ProtectPortal;
    DisjointPrefixes(req.path);
    SetupIsElsewhere();
  }

  lemma VanityVisitor(env: Env, req: Request, session: Session)
    requires !env.development && session.auth.NoAuth? && Vanity(env, req.host)
    ensures var r := ProtectPortal(env, req, session);
            && r.Redirect? && r.path == SIGNIN && !Vanity(env, r.host)
            && Values(r.query, "callbackUrl") == [Callback(env, req)]
  {
    hide Values, Search, ShownHost, VanityInternalTarget;
    PairValues(Callback(env, req), ShownHost(req));
    ConcatAssociates(req.protocol + "://" + ShownHost(req), req.path, Search(req.query));
  }

  lemma HomeVisitor(env: Env, req: Request, session: Session)
    requires !env.development && session.auth.NoAuth? && !Vanity(env, req.host)
    ensures var r := ProtectPortal(env, req, session);
            && r.Redirect? && r.path == SIGNIN && !Vanity(env, r.host)
            && Values(r.query, "callbackUrl") == [Callback(env, req)]
  {
    hide Values, Search, ShownHost, SetParam, VanityInternalTarget;
    ValuesOfSetParam(req.query, "callbackUrl", Callback(env, req), "callbackUrl");
  }

  lemma SigninRests(env: Env, req: Request, session: Session)
    requires !env.development && req.verb != "OPTIONS" && req.path == SIGNIN && !Vanity(env, req.host)
    ensures Decide(env, req, session) == Pass <==> !Contradictory(session.auth)
  {
    hide Includes, IsApi, IsAuthApi, IsMsp, IsPortal, IsAuthPage;
    DisjointPrefixes(SIGNIN);
    ConstantPaths();
    SetupIsElsewhere();
  }

  lemma PairValues(callback: string, host: string)
    ensures Values([("callbackUrl", callback), ("portalDomain", host)], "callbackUrl") == [callback]
  {
    var pairs := [("callbackUrl", callback), ("portalDomain", host)];
    assert |"portalDomain"| != |"callbackUrl"|;
    assert pairs[1..] == [("portalDomain", host)];
    assert pairs[1..][1..] == [];
    assert Values(pairs[1..], "callbackUrl") == [];
  }
}
