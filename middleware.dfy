/**
 * The decisions the request middleware makes: per-IP rate limiting with a
 * staleness sweep, bearer-token authentication, the guard chain in front of
 * protected handlers, the CORS origin and preflight decision, and the
 * response writer that remembers the status a handler sent.
 */
module Middleware {
  import opened Wrappers
  import opened Strconv
  import Strings
  import opened Validation
  import Tokens
  import Base32

  /* ---------------------------------------------------------------------- */
  /* Rate limiting                                                          */
  /* ---------------------------------------------------------------------- */

  /** One minute, in nanoseconds (times here are `time.Time` as nanoseconds). */
  const Minute: int := 60_000_000_000
  /** Entries not seen for longer than this are swept. */
  const StaleAfter: int := 3 * Minute

  /**
   * A client entry: its token-bucket limiter (state of type `L`, owned by
   * the rate library) and when it last made a request.
   */
  datatype Client<L> = Client(limiter: L, lastSeen: int)

  /** The sweep's test: the client was last seen more than three minutes before `now`. */
  predicate Stale<L>(c: Client<L>, now: int): (b: bool)
    ensures b <==> c.lastSeen < now - 3 * Minute
  {
    now - c.lastSeen > StaleAfter
  }

  /** The entries the sweep at `now` keeps. */
  function Swept<L>(clients: map<string, Client<L>>, now: int): (r: map<string, Client<L>>)
    ensures forall ip :: ip in r ==> ip in clients && r[ip] == clients[ip]
    ensures forall ip :: ip in clients ==> (ip in r <==> !Stale(clients[ip], now))
  {
    map ip | ip in clients && !Stale(clients[ip], now) :: clients[ip]
  }

  /** Sweeping twice at the same time removes nothing more. */
  lemma SweepIdempotent<L>(clients: map<string, Client<L>>, now: int)
    ensures Swept(Swept(clients, now), now) == Swept(clients, now)
  {
  }

  /** A sweep removes no entry seen within the last three minutes. */
  lemma SweepKeepsRecent<L>(clients: map<string, Client<L>>, ip: string, now: int)
    requires ip in clients && now - clients[ip].lastSeen <= StaleAfter
    ensures ip in Swept(clients, now) && Swept(clients, now)[ip] == clients[ip]
  {
  }

  /**
   * The client registry of `rateLimit`. `enabled` is the configuration
   * switch; the limiter library is passed to `Admit` as two functions.
   */
  class RateLimiter<L> {
    const enabled: bool
    var clients: map<string, Client<L>>

    constructor (enabled: bool)
      ensures this.enabled == enabled && clients == map[]
    {
      this.enabled := enabled;
      clients := map[];
    }

    /**
     * One request from `ip` at time `now`. When limiting is off, the request
     * passes and the registry is untouched. Otherwise the entry is created
     * with the limiter `newLimiter` if missing, its `lastSeen` becomes `now`,
     * and the answer is the limiter's `Allow()` (the function `allow`, which
     * also returns the limiter's new state). No other entry changes.
     */
    method Admit(ip: string, now: int, newLimiter: L, allow: (L, int) -> (bool, L)) returns (allowed: bool)
      modifies this
      ensures !enabled ==> allowed && clients == old(clients)
      ensures enabled ==>
        var base := if ip in old(clients) then old(clients)[ip].limiter else newLimiter;
        && allowed == allow(base, now).0
        && ip in clients && clients[ip] == Client(allow(base, now).1, now)
      ensures forall other :: other != ip ==> (other in clients <==> other in old(clients))
      ensures forall other :: other != ip && other in clients ==> clients[other] == old(clients)[other]
      ensures clients.Keys == old(clients).Keys + (if enabled then {ip} else {})
    {
      if !enabled {
        return true;
      }
      if ip !in clients {
        clients := clients[ip := Client(newLimiter, 0)];
      }
      clients := clients[ip := clients[ip].(lastSeen := now)];
      var answer := allow(clients[ip].limiter, now);
      clients := clients[ip := clients[ip].(limiter := answer.1)];
      allowed := answer.0;
    }

    /**
     * One pass of the cleanup goroutine at time `now`: deletes exactly the
     * entries not seen for more than three minutes.
     */
    method Sweep(now: int)
      modifies this
      ensures clients == Swept(old(clients), now)
    {
      var pending := clients.Keys;
      while pending != {}
        invariant pending <= old(clients).Keys
        invariant forall ip :: ip in clients ==> ip in old(clients) && clients[ip] == old(clients)[ip]
        invariant forall ip :: ip in pending ==> ip in clients
        invariant forall ip :: ip in old(clients) && ip !in pending ==>
                    (ip in clients <==> !Stale(old(clients)[ip], now))
        decreases pending
      {
        var ip :| ip in pending;
        if now - clients[ip].lastSeen > StaleAfter {
          clients := clients - {ip};
        }
        pending := pending - {ip};
      }
      assert clients.Keys == Swept(old(clients), now).Keys;
    }
  }

  /** A client admitted at `t` survives every sweep up to three minutes later. */
  lemma AdmittedSurvives<L>(clients: map<string, Client<L>>, ip: string, limiter: L, t: int, now: int)
    requires now <= t + StaleAfter
    ensures ip in Swept(clients[ip := Client(limiter, t)], now)
  {
    SweepKeepsRecent(clients[ip := Client(limiter, t)], ip, now);
  }

  /* ---------------------------------------------------------------------- */
  /* Authentication                                                         */
  /* ---------------------------------------------------------------------- */

  /** The identity attached to a request: the anonymous user or a stored one. */
  datatype User = Anonymous | Registered(id: Int64, name: string, email: string, activated: bool)

  /** A failed lookup: `ErrRecordNotFound`, or any other store error. */
  datatype LookupError = NotFound | StoreFailure

  /** What `authenticate` does with a request. */
  datatype AuthOutcome =
    | Proceed(user: User)  // next handler runs with this user attached
    | InvalidToken         // the invalid-authentication-token response
    | ServerError          // the server-error response

  /**
   * The token of an `Authorization` header: it must split on " " into
   * exactly two parts, the first being "Bearer".
   */
  function BearerToken(header: string): (r: Option<string>)
    ensures r.Some? ==> header == "Bearer " + r.value && ' ' !in r.value
  {
    var parts := Strings.Split(header, ' ');
    if |parts| != 2 || parts[0] != "Bearer" then None
    else
      Strings.JoinSplit(header, ' ');
      assert Strings.Join(parts, ' ') == parts[0] + [' '] + parts[1];
      Some(parts[1])
  }

  /** A header carries token `t` exactly when it is "Bearer " followed by `t`, and `t` has no space. */
  lemma BearerTokenShape(header: string, t: string)
    ensures BearerToken(header) == Some(t) <==> header == "Bearer " + t && ' ' !in t
  {
    if header == "Bearer " + t && ' ' !in t {
      assert header == Strings.Join(["Bearer", t], ' ');
      Strings.SplitJoin(["Bearer", t], ' ');
    }
  }

  /** True when `ValidateTokenPlaintext` leaves a new validator valid. */
  predicate TokenAccepted(t: string)
  {
    Apply(map[], Tokens.TokenRules(t)) == map[]
  }

  lemma TokenAcceptedIff(t: string)
    ensures TokenAccepted(t) <==> t != "" && Strings.Utf8Len(t) == Tokens.PlaintextLength
  {
    Tokens.TokenErrors(map[], t);
  }

  /**
   * `authenticate`. `getForToken(scope, token)` stands for the user lookup
   * by token hash; it is consulted only for a well-formed header whose token
   * passes validation, and always with the authentication scope.
   */
  function Authenticate(header: string, getForToken: (string, string) -> Result<User, LookupError>): (o: AuthOutcome)
    ensures header == "" ==> o == Proceed(Anonymous)
    ensures header != "" && BearerToken(header).None? ==> o == InvalidToken
    ensures header != "" && BearerToken(header).Some? ==>
      var t := BearerToken(header).value;
      && (t == "" || Strings.Utf8Len(t) != Tokens.PlaintextLength ==> o == InvalidToken)
      && (t != "" && Strings.Utf8Len(t) == Tokens.PlaintextLength ==>
            o == match getForToken(Tokens.ScopeAuthentication, t)
                 case Ok(u) => Proceed(u)
                 case Err(NotFound) => InvalidToken
                 case Err(StoreFailure) => ServerError)
  {
    if header == "" then Proceed(Anonymous)
    else
      match BearerToken(header)
      case None => InvalidToken
      case Some(token) =>
        TokenAcceptedIff(token);
        if !TokenAccepted(token) then InvalidToken
        else
          match getForToken(Tokens.ScopeAuthentication, token)
          case Err(NotFound) => InvalidToken
          case Err(StoreFailure) => ServerError
          case Ok(user) => Proceed(user)
  }

  /**
   * A request with a non-empty header gets through only as "Bearer " and a
   * 26-byte token without spaces for which the lookup found that user.
   */
  lemma AuthenticatedHeader(header: string, getForToken: (string, string) -> Result<User, LookupError>)
    requires header != "" && Authenticate(header, getForToken).Proceed?
    ensures exists t :: header == "Bearer " + t && ' ' !in t && Strings.Utf8Len(t) == Tokens.PlaintextLength
                        && getForToken(Tokens.ScopeAuthentication, t) == Ok(Authenticate(header, getForToken).user)
  {
    var t := BearerToken(header).value;
    BearerTokenShape(header, t);
  }

  /** A freshly generated token, sent as "Bearer <token>", reaches the lookup with that token. */
  lemma GeneratedTokenReachesLookup(randomBytes: seq<Base32.Byte>, getForToken: (string, string) -> Result<User, LookupError>)
    requires |randomBytes| == Tokens.RandomLength
    ensures var t := Base32.EncodeToString(randomBytes);
      getForToken(Tokens.ScopeAuthentication, t).Ok? ==>
        Authenticate("Bearer " + t, getForToken) == Proceed(getForToken(Tokens.ScopeAuthentication, t).value)
  {
    var t := Base32.EncodeToString(randomBytes);
    Tokens.GeneratedPlaintextValid(map[], randomBytes);
    TokenAcceptedIff(t);
    assert ' ' !in t by {
      forall i | 0 <= i < |t| ensures t[i] != ' ' {
        assert Base32.IsBase32Char(t[i]);
      }
    }
    BearerTokenShape("Bearer " + t, t);
  }

  /* ---------------------------------------------------------------------- */
  /* Guards in front of protected handlers                                  */
  /* ---------------------------------------------------------------------- */

  /** What a guard does: call the next handler, or send one of the error responses. */
  datatype Guard = Pass | AuthenticationRequired | InactiveAccount | NotPermitted | GuardServerError

  /** `requireAuthenticatedUser`. */
  function RequireAuthenticatedUser(user: User): (g: Guard)
    ensures g == Pass <==> user.Registered?
    ensures g != Pass ==> g == AuthenticationRequired
  {
    if user.Anonymous? then AuthenticationRequired else Pass
  }

  /** `requireActivatedUser`: the authentication guard runs first. */
  function RequireActivatedUser(user: User): (g: Guard)
    ensures g == Pass <==> user.Registered? && user.activated
    ensures user.Anonymous? ==> g == AuthenticationRequired
    ensures user.Registered? && !user.activated ==> g == InactiveAccount
  {
    match RequireAuthenticatedUser(user)
    case Pass => if !user.activated then InactiveAccount else Pass
    case other => other
  }

  /**
   * `requirePermission(code)`: the activation guard (and so the
   * authentication guard) runs first; only then are the user's permission
   * codes fetched, by `permissionsFor`, and searched for `code`.
   */
  function RequirePermission(code: string, user: User, permissionsFor: Int64 -> Result<seq<string>, LookupError>): (g: Guard)
    ensures g == Pass <==>
      user.Registered? && user.activated && permissionsFor(user.id).Ok? && code in permissionsFor(user.id).value
    ensures user.Anonymous? ==> g == AuthenticationRequired
    ensures user.Registered? && !user.activated ==> g == InactiveAccount
    ensures user.Registered? && user.activated && permissionsFor(user.id).Err? ==> g == GuardServerError
    ensures user.Registered? && user.activated && permissionsFor(user.id).Ok? ==>
              (code !in permissionsFor(user.id).value ==> g == NotPermitted)
  {
    match RequireActivatedUser(user)
    case Pass =>
      (match permissionsFor(user.id)
       case Err(_) => GuardServerError
       case Ok(permissions) => if code !in permissions then NotPermitted else Pass)
    case other => other
  }

  /**
   * An anonymous or inactive user gets the same answer whatever the
   * permission store holds: the permissions are never consulted for them.
   */
  lemma PermissionsUnseenBeforeActivation(code: string, user: User,
                                          f: Int64 -> Result<seq<string>, LookupError>,
                                          g: Int64 -> Result<seq<string>, LookupError>)
    requires !(user.Registered? && user.activated)
    ensures RequirePermission(code, user, f) == RequirePermission(code, user, g)
    ensures RequirePermission(code, user, f) == RequireActivatedUser(user)
  {
  }

  /* ---------------------------------------------------------------------- */
  /* CORS                                                                   */
  /* ---------------------------------------------------------------------- */

  /** The part of the response `enableCORS` decides. */
  datatype CorsResponse = CorsResponse(
    vary: seq<string>,             // values added to the Vary header
    headers: map<string, string>,  // headers set
    status: Option<int>,           // a status written by the middleware itself
    callsNext: bool)               // whether the next handler runs

  const AllowOrigin := "Access-Control-Allow-Origin"
  const AllowMethods := "Access-Control-Allow-Methods"
  const AllowHeaders := "Access-Control-Allow-Headers"
  const MaxAge := "Access-Control-Max-Age"

  /** A preflight request: method OPTIONS with a non-empty `Access-Control-Request-Method`. */
  predicate Preflight(httpMethod: string, requestMethod: string): (b: bool)
    ensures httpMethod != "OPTIONS" || |requestMethod| == 0 ==> !b
    ensures httpMethod == "OPTIONS" && |requestMethod| > 0 ==> b
  {
    httpMethod == "OPTIONS" && requestMethod != ""
  }

  /**
   * `enableCORS` for a request with the given `Origin`, method and
   * `Access-Control-Request-Method` header, searching `trustedOrigins`.
   */
  method EnableCORS(origin: string, httpMethod: string, requestMethod: string, trustedOrigins: seq<string>)
    returns (r: CorsResponse)
    ensures r.vary == ["Origin", "Access-Control-Request-Method"]
    ensures AllowOrigin in r.headers <==> origin != "" && origin in trustedOrigins
    ensures AllowOrigin in r.headers ==> r.headers[AllowOrigin] == origin
    ensures !r.callsNext <==> origin != "" && origin in trustedOrigins && Preflight(httpMethod, requestMethod)
    ensures r.status.Some? <==> !r.callsNext
    ensures !r.callsNext ==>
      && r.status == Some(200)
      && r.headers == map[AllowOrigin := origin,
                          AllowMethods := "OPTIONS, PUT, PATCH, DELETE",
                          AllowHeaders := "Authorization, Content-Type",
                          MaxAge := "60"]
    ensures r.callsNext ==> r.headers.Keys <= {AllowOrigin}
  {
    r := CorsResponse(["Origin", "Access-Control-Request-Method"], map[], None, true);
    if origin != "" {
      for i := 0 to |trustedOrigins|
        invariant origin !in trustedOrigins[..i]
        invariant r == CorsResponse(["Origin", "Access-Control-Request-Method"], map[], None, true)
      {
        if origin == trustedOrigins[i] {
          r := r.(headers := r.headers[AllowOrigin := origin]);
          if httpMethod == "OPTIONS" && requestMethod != "" {
            r := r.(headers := r.headers[AllowMethods := "OPTIONS, PUT, PATCH, DELETE"]
                                        [AllowHeaders := "Authorization, Content-Type"]
                                        [MaxAge := "60"]);
            r := r.(status := Some(200), callsNext := false);
            return;
          }
          break;
        }
      }
    }
  }

  /* ---------------------------------------------------------------------- */
  /* Status-recording response writer                                       */
  /* ---------------------------------------------------------------------- */

  /** A call a handler makes on the writer. */
  datatype WriterCall = WriteHeaderCall(code: int) | WriteCall

  /** The status a response ends up with: that of the first call, 200 for a body write. */
  function FirstStatus(calls: seq<WriterCall>): int
    requires calls != []
  {
    match calls[0]
    case WriteHeaderCall(code) => code
    case WriteCall => 200
  }

  /** Later calls never change the first status. */
  lemma FirstStatusStable(calls: seq<WriterCall>, later: seq<WriterCall>)
    requires calls != []
    ensures FirstStatus(calls + later) == FirstStatus(calls)
  {
    assert (calls + later)[0] == calls[0];
  }

  /** `metricsResponseWriter`; `calls` is the history of calls made on it. */
  class MetricsResponseWriter {
    var statusCode: int
    var headerWritten: bool
    ghost var calls: seq<WriterCall>

    /** The recorded status is that of the first call, once there is one. */
    ghost predicate Valid()
      reads this
    {
      (headerWritten <==> calls != []) && (headerWritten ==> statusCode == FirstStatus(calls))
    }

    /** A new writer around the handler's writer: nothing recorded yet. */
    constructor ()
      ensures Valid() && !headerWritten && statusCode == 0 && calls == []
    {
      statusCode := 0;
      headerWritten := false;
      calls := [];
    }

    /** `WriteHeader(code)`: records `code` only if nothing was recorded before. */
    method WriteHeader(code: int)
      requires Valid()
      modifies this
      ensures Valid() && headerWritten
      ensures calls == old(calls) + [WriteHeaderCall(code)]
      ensures statusCode == if old(headerWritten) then old(statusCode) else code
    {
      if !headerWritten {
        statusCode := code;
        headerWritten := true;
      }
      calls := calls + [WriteHeaderCall(code)];
      if old(headerWritten) {
        FirstStatusStable(old(calls), [WriteHeaderCall(code)]);
      }
    }

    /** `Write(b)`: a body write before any header records 200. */
    method Write()
      requires Valid()
      modifies this
      ensures Valid() && headerWritten
      ensures calls == old(calls) + [WriteCall]
      ensures statusCode == if old(headerWritten) then old(statusCode) else 200
    {
      if !headerWritten {
        statusCode := 200;
        headerWritten := true;
      }
      calls := calls + [WriteCall];
      if old(headerWritten) {
        FirstStatusStable(old(calls), [WriteCall]);
      }
    }
  }
}
