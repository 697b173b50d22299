/**
 * What the middleware answers, request by request, in terms of paths and parameters as they are written in addresses:
 * which requests get an answer of their own, where each redirect leads, and what it carries along.
 */
module RedirectAnswers {
  import opened Text
  import opened PortalRedirects

  /** Claims of an internal user together with those of a client's contact. */
  predicate BothSides(a: Auth) {
    a.Auth? && a.userType == "internal" && (a.clientId != "" || a.contactId != "")
  }

  predicate Under(path: string, prefix: string) {
    StartsWith(path, prefix)
  }

  ghost predicate Contains(path: string, part: string) {
    exists before, after :: path == before + part + after
  }

  /** Neither a preflight nor a stale action. */
  predicate Ordinary(env: Env, req: Request) {
    req.verb != "OPTIONS" && !(env.development && req.staleAction)
  }

  /** `r` is `q` with one value for `key`; all other parameters keep their values and their order. */
  ghost predicate CarriesOver(q: Query, r: Query, key: string, values: seq<string>) {
    && (forall k :: Values(r, k) == if k == key then values else Values(q, k))
    && Remove(r, key) == Remove(q, key)
  }

  // ---------------------------------------------------------------------------
  // Parameters
  // ---------------------------------------------------------------------------

  /** The values of a key: its parameters in order, and no others. */
  lemma {:induction false} ValuesExact(a: Query, b: Query, p: (string, string), key: string)
    ensures Values([], key) == []
    ensures Values([p], key) == if p.0 == key then [p.1] else []
    ensures Values(a + b, key) == Values(a, key) + Values(b, key)
  {
    assert [p][1..] == [];
    if a == [] {
      assert a + b == b;
    } else {
      ValuesExact(a[1..], b, p, key);
      assert (a + b)[0] == a[0] && (a + b)[1..] == a[1..] + b;
    }
  }

  /** Removing a key keeps the other parameters, in order. */
  lemma {:induction false} RemoveExact(a: Query, b: Query, p: (string, string), key: string)
    ensures Remove([], key) == []
    ensures Remove([p], key) == if p.0 == key then [] else [p]
    ensures Remove(a + b, key) == Remove(a, key) + Remove(b, key)
  {
    assert [p][1..] == [];
    if a == [] {
      assert a + b == b;
    } else {
      RemoveExact(a[1..], b, p, key);
      assert (a + b)[0] == a[0] && (a + b)[1..] == a[1..] + b;
    }
  }

  lemma {:induction false} RemoveTwice(q: Query, key: string)
    ensures Remove(Remove(q, key), key) == Remove(q, key)
  {
    if q != [] {
      RemoveTwice(q[1..], key);
      if q[0].0 != key {
        assert ([q[0]] + Remove(q[1..], key))[1..] == Remove(q[1..], key);
      } else {
        assert [] + Remove(q[1..], key) == Remove(q[1..], key);
      }
    }
  }

  lemma {:induction false} RemoveSet(q: Query, key: string, value: string)
    ensures Remove(SetParam(q, key, value), key) == Remove(q, key)
  {
    hide Remove;
    RemoveExact([], [], (key, value), key);
    if q != [] {
      var rest := if q[0].0 == key then Remove(q[1..], key) else SetParam(q[1..], key, value);
      assert q == [q[0]] + q[1..];
      RemoveExact([q[0]], q[1..], q[0], key);
      if q[0].0 == key {
        RemoveExact([(key, value)], rest, (key, value), key);
        RemoveTwice(q[1..], key);
      } else {
        RemoveExact([q[0]], rest, q[0], key);
        RemoveSet(q[1..], key, value);
      }
    }
  }

  lemma SetCarriesOver(q: Query, key: string, value: string)
    ensures CarriesOver(q, SetParam(q, key, value), key, [value])
  {
    hide Values, SetParam, Remove;
    RemoveSet(q, key, value);
    forall k
      ensures Values(SetParam(q, key, value), k) == if k == key then [value] else Values(q, k)
    {
      ValuesOfSetParam(q, key, value, k);
    }
  }

  lemma RemoveCarriesOver(q: Query, key: string)
    ensures CarriesOver(q, Remove(q, key), key, [])
  {
    hide Values, Remove;
    RemoveTwice(q, key);
    forall k
      ensures Values(Remove(q, key), k) == if k == key then [] else Values(q, k)
    {
      ValuesOfRemove(q, key, k);
    }
  }

  function Texts(q: Query): seq<string> {
    seq(|q|, k requires 0 <= k < |q| => q[k].0 + "=" + q[k].1)
  }

  /** The search part of an address: nothing for no parameters, else `?` and the parameters joined by `&`. */
  lemma {:induction false} SearchExact(q: Query)
    ensures Search(q) == if q == [] then "" else "?" + Join(Texts(q), "&")
  {
    if q != [] {
      PairsExact(q);
    }
  }

  lemma {:induction false} PairsExact(q: Query)
    ensures Pairs(q) == Join(Texts(q), "&")
  {
    if |q| == 1 {
      assert q[0].0 + "=" + q[0].1 + "" == q[0].0 + "=" + q[0].1;
    } else if |q| > 1 {
      PairsExact(q[1..]);
      assert Texts(q)[1..] == Texts(q[1..]);
      ConcatAssociates(q[0].0 + "=" + q[0].1, "&", Pairs(q[1..]));
    }
  }

  lemma IncludesExact(path: string, part: string)
    ensures Includes(path, part) <==> Contains(path, part)
  {
    if k :| 0 <= k <= |path| && StartsWith(path[k..], part) {
      assert path == path[..k] + part + path[k..][|part|..];
    }
    if before, after :| path == before + part + after {
      assert path[|before|..] == part + after;
      assert path[|before|..][..|part|] == part;
    }
  }

  // ---------------------------------------------------------------------------
  // Answers without a page
  // ---------------------------------------------------------------------------

  lemma AuthApiIsApi(path: string)
    ensures IsAuthApi(path) ==> IsApi(path)
    ensures IsApi(path) <==> Under(path, "/api/")
    ensures IsAuthApi(path) <==> Under(path, "/api/auth/")
  {
    DisjointPrefixes(path);
  }

  /** Each answer that is neither a page nor a redirect, exactly. */
  lemma PlainAnswersExact(env: Env, req: Request, session: Session)
    ensures var r, api := Decide(env, req, session), Under(req.path, "/api/") && !Under(req.path, "/api/auth/");
            && (r == Preflight <==> req.verb == "OPTIONS")
            && (r == StaleAction <==> req.verb != "OPTIONS" && env.development && req.staleAction)
            && (r == InvalidIdentity <==> Ordinary(env, req) && api && BothSides(session.auth))
            && (r == ApiKeyMissing <==>
                Ordinary(env, req) && api && !BothSides(session.auth) && !env.skipsApiKey(req.path) && !req.apiKey)
  {
    hide ProtectMsp, ProtectPortal, VanitySignin, Includes;
    AuthApiIsApi(req.path);
    KindsOfProtection(env, req, session);
    hide IsApi, IsAuthApi, Under;
  }

  lemma KindsOfProtection(env: Env, req: Request, session: Session)
    ensures var r := ProtectMsp(env, req, session); r == Pass || r.Redirect?
    ensures var r := ProtectPortal(env, req, session); r == Pass || r.Redirect?
    ensures env.canonical.CanonicalHost? ==> VanitySignin(env, req, session.auth).Redirect?
    ensures ProtectMsp(env, req, session).Redirect? ==> !ProtectMsp(env, req, session).clearsSession
    ensures ProtectPortal(env, req, session).Redirect? ==> !ProtectPortal(env, req, session).clearsSession
    ensures env.canonical.CanonicalHost? ==> !VanitySignin(env, req, session.auth).clearsSession
  {
    hide VanityInternalTarget, SetParam, SetAll, Values, Remove, Search, LegacySettings, Vanity, ToLower;
  }

  /**
   * Contradictory sessions, exactly: a redirect clears the session if and only if the session claims both sides and the
   * path is no API's; it leads to the sign-in page of the same side on the same host, with nothing but the reason.
   */
  lemma RejectionExact(env: Env, req: Request, session: Session)
    ensures var r := Decide(env, req, session);
            && (r.Redirect? && r.clearsSession <==>
                Ordinary(env, req) && BothSides(session.auth) && !Under(req.path, "/api/"))
            && (r.Redirect? && r.clearsSession ==>
                && r.host == req.host && r.query == [("error", "SessionTypeMismatch")]
                && r.path == if Contains(req.path, "/client-portal") then "/auth/client-portal/signin" else "/auth/msp/signin")
  {
    hide ProtectMsp, ProtectPortal, VanitySignin, Includes, Contains;
    AuthApiIsApi(req.path);
    IncludesExact(req.path, "/client-portal");
    KindsOfProtection(env, req, session);
    hide IsApi, IsAuthApi, Under;
  }

  // ---------------------------------------------------------------------------
  // Pages
  // ---------------------------------------------------------------------------

  /** Paths under one of the two portals. */
  lemma Areas(path: string)
    ensures Under(path, "/msp") ==> !Under(path, "/api/") && !Under(path, "/client-portal") && !IsAuthPage(path)
    ensures Under(path, "/client-portal") ==> !Under(path, "/api/") && !IsAuthPage(path)
    ensures Under(path, "/msp") || Under(path, "/client-portal") ==> path != SIGNIN && path != SETUP_COMPLETE
    ensures IsMsp(path) <==> Under(path, "/msp")
    ensures IsPortal(path) <==> Under(path, "/client-portal")
  {
    DisjointPrefixes(path);
    ConstantPaths();
    DisjointPrefixes(SIGNIN);
    SetupIsElsewhere();
  }

  /** On an MSP page of an ordinary request with a sound session, outside the bypass, the protection of MSP pages decides. */
  lemma MspPageIsProtected(env: Env, req: Request, session: Session)
    requires Ordinary(env, req) && Under(req.path, "/msp") && !BothSides(session.auth) && !env.authBypass
    ensures Decide(env, req, session) == ProtectMsp(env, req, session)
  {
    hide ProtectMsp, ProtectPortal, VanitySignin, Includes;
    AuthApiIsApi(req.path);
    Areas(req.path);
    hide IsApi, IsAuthApi, IsMsp, IsPortal, IsAuthPage, Under;
  }

  lemma PortalPageIsProtected(env: Env, req: Request, session: Session)
    requires Ordinary(env, req) && Under(req.path, "/client-portal") && !BothSides(session.auth)
    ensures Decide(env, req, session) == ProtectPortal(env, req, session)
  {
    hide ProtectMsp, ProtectPortal, VanitySignin, Includes;
    AuthApiIsApi(req.path);
    Areas(req.path);
    hide IsApi, IsAuthApi, IsMsp, IsPortal, IsAuthPage, Under;
  }

  /** Pages that nothing protects: the sign-in pages at home, the payment return page, everything outside both portals. */
  lemma OtherPagesPass(env: Env, req: Request, session: Session)
    requires Ordinary(env, req) && (Under(req.path, "/api/auth/") || !BothSides(session.auth))
    requires Under(req.path, "/api/") ==>
               Under(req.path, "/api/auth/") || env.skipsApiKey(req.path) || req.apiKey
    requires !Under(req.path, "/msp") && !Under(req.path, "/client-portal")
    requires req.path == "/auth/client-portal/signin" ==>
               env.canonical == NoCanonical || env.canonical == CanonicalHost(req.host)
    ensures Decide(env, req, session) == Pass
  {
    hide ProtectMsp, ProtectPortal, VanitySignin, Includes;
    AuthApiIsApi(req.path);
    Areas(req.path);
    hide IsApi, IsAuthApi, IsMsp, IsPortal, IsAuthPage, Under;
  }

  /** The bypass opens the MSP pages to every ordinary request with a sound session. */
  lemma BypassPasses(env: Env, req: Request, session: Session)
    requires Ordinary(env, req) && Under(req.path, "/msp") && !BothSides(session.auth) && env.authBypass
    ensures Decide(env, req, session) == Pass
  {
    hide ProtectMsp, ProtectPortal, VanitySignin, Includes;
    AuthApiIsApi(req.path);
    Areas(req.path);
    hide IsApi, IsAuthApi, IsMsp, IsPortal, IsAuthPage, Under;
  }

  /**
   * A visitor without a session on an MSP page: passed on for a server action, or in development while the browser still
   * holds the cookie, and else sent to sign in on the same host. The page asked for, with its parameters, goes along as
   * the one to return to; every other parameter is unchanged.
   */
  lemma MspVisitor(env: Env, req: Request, session: Session)
    requires Ordinary(env, req) && Under(req.path, "/msp") && !env.authBypass && session.auth.NoAuth?
    ensures var r := Decide(env, req, session);
            if req.nextAction || (env.development && session.hasCookie) then r == Pass
            else && r.Redirect? && r.host == req.host && r.path == "/auth/signin"
                 && CarriesOver(req.query, r.query, "callbackUrl", [req.path + Search(req.query)])
  {
    hide Decide, Values, SetParam, Search, CarriesOver, Under, LegacySettings, IsInternal;
    MspPageIsProtected(env, req, session);
    SetCarriesOver(req.query, "callbackUrl", req.path + Search(req.query));
  }

  /** A user who is not internal is sent from an MSP page to the client portal's dashboard, on the canonical host if any. */
  lemma MspStranger(env: Env, req: Request, session: Session)
    requires Ordinary(env, req) && Under(req.path, "/msp") && !env.authBypass
    requires session.auth.Auth? && session.auth.userType != "internal"
    ensures var r := Decide(env, req, session);
            && r.Redirect? && r.path == "/client-portal/dashboard" && r.query == []
            && r.host == if env.canonical.CanonicalHost? then env.canonical.host else req.host
  {
    hide Decide, Under, LegacySettings, Search, SetParam, Remove, Values;
    MspPageIsProtected(env, req, session);
  }

  /**
   * An internal user on an MSP page: redirected exactly when the page is the settings page, fetched with one `tab`
   * parameter that names a migrated tab in whatever case; then to the tab's own page, without that parameter.
   */
  lemma MspUser(env: Env, req: Request, session: Session)
    requires Ordinary(env, req) && Under(req.path, "/msp") && !env.authBypass
    requires session.auth.Auth? && session.auth.userType == "internal" && !BothSides(session.auth)
    ensures var r, tabs := Decide(env, req, session), Values(req.query, "tab");
            if req.verb == "GET" && req.path == "/msp/settings" && |tabs| == 1 && ToLower(tabs[0]) in env.settingsTabs
            then && r.Redirect? && r.host == req.host && r.path == "/msp/settings/" + ToLower(tabs[0])
                 && CarriesOver(req.query, r.query, "tab", [])
            else r == Pass
  {
    hide Decide, Under, Search, SetParam, Remove, Values, CarriesOver, ToLower;
    MspPageIsProtected(env, req, session);
    RemoveCarriesOver(req.query, "tab");
    SlashInside("/msp/settings");
  }

  lemma SlashInside(page: string)
    ensures forall tab :: page + "/" + tab == page + ("/" + tab)
    ensures page == "/msp/settings" ==> page + "/" == "/msp/settings/"
  {
  }

  /** A visitor without a session on a portal page of the canonical host, or without a canonical host. */
  lemma PortalVisitorAtHome(env: Env, req: Request, session: Session)
    requires Ordinary(env, req) && Under(req.path, "/client-portal") && session.auth.NoAuth?
    requires env.canonical == NoCanonical || env.canonical == CanonicalHost(req.host)
    ensures var r, asked := Decide(env, req, session), Values(req.query, "callbackUrl");
            if env.development && session.hasCookie then r == Pass
            else && r.Redirect? && r.host == req.host && r.path == "/auth/client-portal/signin"
                 && CarriesOver(req.query, r.query, "callbackUrl",
                                [if asked == [] || asked[0] == "" then req.path + Search(req.query) else asked[0]])
  {
    hide Decide, Under, Search, SetParam, Values, CarriesOver, IsClient, VanityInternalTarget, ShownHost;
    PortalPageIsProtected(env, req, session);
    var asked := Values(req.query, "callbackUrl");
    var callback := if asked == [] || asked[0] == "" then req.path + Search(req.query) else asked[0];
    SetCarriesOver(req.query, "callbackUrl", callback);
  }

  /** The same on another host: the address to return to is absolute, and the shown host goes along for the branding. */
  lemma PortalVisitorElsewhere(env: Env, req: Request, session: Session)
    requires Ordinary(env, req) && Under(req.path, "/client-portal") && session.auth.NoAuth?
    requires env.canonical.CanonicalHost? && env.canonical.host != req.host
    ensures var r, shown := Decide(env, req, session), if req.hostHeader == "" then req.host else req.hostHeader;
            if env.development && session.hasCookie then r == Pass
            else && r.Redirect? && r.host == env.canonical.host && r.path == "/auth/client-portal/signin"
                 && r.query == [("callbackUrl", req.protocol + "://" + shown + req.path + Search(req.query)),
                                ("portalDomain", shown)]
  {
    hide Decide, Under, Search, SetParam, Values, IsClient, VanityInternalTarget;
    PortalPageIsProtected(env, req, session);
  }

  /**
   * A user on a portal page: a client's passes; an internal one on a host other than the canonical is sent to the
   * dashboard there; anyone else is sent to the portal's sign-in page with the reason and all other parameters.
   */
  lemma PortalUser(env: Env, req: Request, session: Session)
    requires Ordinary(env, req) && Under(req.path, "/client-portal") && session.auth.Auth? && !BothSides(session.auth)
    ensures var r := Decide(env, req, session);
            if session.auth.userType == "client" then r == Pass
            else if session.auth.userType == "internal" && env.canonical.CanonicalHost? && env.canonical.host != req.host
            then r == Redirect(env.canonical.host, "/msp/dashboard", [], false)
            else && r.Redirect? && r.host == req.host && r.path == "/auth/client-portal/signin"
                 && CarriesOver(req.query, r.query, "error", ["AccessDenied"])
  {
    hide Decide, Search, SetParam, Values, CarriesOver, ShownHost, BothSides;
    PortalPageIsProtected(env, req, session);
    Areas(req.path);
    SetCarriesOver(req.query, "error", "AccessDenied");
    hide Under, IsMsp, IsPortal, IsAuthPage;
  }

  /**
   * The portal's sign-in page on a host other than the canonical: an internal user is sent to the canonical dashboard,
   * everyone else to the canonical sign-in page with the last value of each parameter and the shown host.
   */
  lemma SigninElsewhere(env: Env, req: Request, session: Session)
    requires Ordinary(env, req) && req.path == "/auth/client-portal/signin" && !BothSides(session.auth)
    requires env.canonical.CanonicalHost? && env.canonical.host != req.host
    ensures var r, shown := Decide(env, req, session), if req.hostHeader == "" then req.host else req.hostHeader;
            if session.auth.Auth? && session.auth.userType == "internal"
            then r == Redirect(env.canonical.host, "/msp/dashboard", [], false)
            else && r.Redirect? && r.host == env.canonical.host && r.path == "/auth/client-portal/signin"
                 && forall k :: Values(r.query, k) == if k == "portalDomain" then [shown] else LastOf(Values(req.query, k))
  {
    hide Values, SetParam, SetAll, Search, ProtectMsp, ProtectPortal, Includes, LastOf, BothSides;
    SigninIsVanity(env, req, session);
    hide Decide, IsApi, IsAuthApi, IsMsp, IsPortal, IsAuthPage, Under;
    forall k
      ensures Values(SetParam(SetAll([], req.query), "portalDomain", ShownHost(req)), k) ==
              if k == "portalDomain" then [ShownHost(req)] else LastOf(Values(req.query, k))
    {
      LastArrives(req.query, ShownHost(req), k);
    }
  }

  function LastOf(values: seq<string>): seq<string> {
    if values == [] then [] else [values[|values| - 1]]
  }

  lemma LastArrives(q: Query, shown: string, k: string)
    ensures Values(SetParam(SetAll([], q), "portalDomain", shown), k) ==
            if k == "portalDomain" then [shown] else LastOf(Values(q, k))
  {
    hide Values, SetParam, SetAll;
    ValuesOfSetParam(SetAll([], q), "portalDomain", shown, k);
    ValuesOfSetAll([], q, k);
    NoValues(k);
  }

  lemma SigninIsVanity(env: Env, req: Request, session: Session)
    requires Ordinary(env, req) && req.path == "/auth/client-portal/signin" && !BothSides(session.auth)
    requires env.canonical.CanonicalHost? && env.canonical.host != req.host
    ensures Decide(env, req, session) == VanitySignin(env, req, session.auth)
    ensures !IsMsp(req.path) && !IsPortal(req.path) && req.path == SIGNIN
  {
    hide ProtectMsp, ProtectPortal, VanitySignin, Includes;
    ConstantPaths();
    DisjointPrefixes(SIGNIN);
    SetupIsElsewhere();
    hide IsApi, IsAuthApi, IsMsp, IsPortal, IsAuthPage, Under;
  }
}
