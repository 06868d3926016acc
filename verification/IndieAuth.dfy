/** The authorization server: codes redeemed once, and chains of rotating refresh tokens. */
module IndieAuth {
  import opened Base

  /** Times are in microseconds. */
  const CODE_LIFETIME := 120_000_000

  datatype AuthRequest = AuthRequest(
    code: string, scope: string, redirectUri: string, clientId: string,
    challenge: Option<string>, challengeMethod: Option<string>, createdAt: int, isUsed: bool)

  /** A token belongs to the authorization request at that row; a personal one belongs to none. */
  datatype Token = Token(
    request: Option<nat>, accessToken: string, refreshToken: Option<string>, scope: string,
    createdAt: int, expiresIn: int, isRevoked: bool, wasRefreshed: bool)

  datatype Db = Db(requests: seq<AuthRequest>, tokens: seq<Token>)

  /** Library functions: upper-casing, and the base64url of the SHA-256 digest without padding. */
  datatype Config = Config(upper: string -> string, s256: string -> string)

  datatype Secrets = Secrets(accessToken: string, refreshToken: string)

  datatype GrantType = AuthorizationCode | RefreshToken | Unsupported

  datatype Form = Form(
    grantType: GrantType, clientId: Option<string>, code: Option<string>, redirectUri: Option<string>,
    verifier: Option<string>, refreshToken: Option<string>)

  datatype Terms = Terms(expiresIn: int, issueRefreshToken: bool)

  datatype Error = UnsupportedGrantType | InvalidRequest | InvalidGrant

  datatype Result = Issued(token: Token) | Denied(error: Error)

  predicate Given(param: Option<string>) {
    param.Some? && param.value != ""
  }

  // ---------------------------------------------------------------- codes

  function FindCode(requests: seq<AuthRequest>, code: string): (row: Option<nat>)
    ensures row.Some? ==> row.value < |requests| && requests[row.value].code == code
    ensures row.None? ==> forall r <- requests :: r.code != code
  {
    FirstIndex((r: AuthRequest) => r.code == code, requests)
  }

  predicate VerifyPkce(cfg: Config, req: AuthRequest, verifier: Option<string>) {
    if !Given(req.challenge) then true
    else if !Given(verifier) then false
    else
      var asked := cfg.upper(req.challengeMethod.GetOr(""));
      if asked == "" || asked == "PLAIN" then verifier.value == req.challenge.value
      else if asked == "S256" then cfg.s256(verifier.value) == req.challenge.value
      else false
  }

  predicate Acceptable(cfg: Config, req: AuthRequest, now: int, clientId: string, redirectUri: string,
      verifier: Option<string>)
  {
    && !req.isUsed
    && now <= req.createdAt + CODE_LIFETIME
    && req.redirectUri == redirectUri && req.clientId == clientId
    && VerifyPkce(cfg, req, verifier)
  }

  /** The row of the request a code redeems now, if any. */
  function Redeemable(cfg: Config, db: Db, now: int, code: string, clientId: string, redirectUri: string,
      verifier: Option<string>): (row: Option<nat>)
    ensures row.Some? ==>
      && row.value < |db.requests|
      && db.requests[row.value].code == code
      && Acceptable(cfg, db.requests[row.value], now, clientId, redirectUri, verifier)
  {
    var found := FindCode(db.requests, code);
    if found.Some? && Acceptable(cfg, db.requests[found.value], now, clientId, redirectUri, verifier)
    then found else None
  }

  function Used(db: Db, row: nat): Db
    requires row < |db.requests|
  {
    db.(requests := db.requests[row := db.requests[row].(isUsed := true)])
  }

  function Redeemed(cfg: Config, db: Db, now: int, code: string, clientId: string, redirectUri: string,
      verifier: Option<string>): Db
  {
    var row := Redeemable(cfg, db, now, code, clientId, redirectUri, verifier);
    if row.Some? then Used(db, row.value) else db
  }

  // ---------------------------------------------------------------- tokens

  function NewToken(row: nat, scope: string, now: int, secrets: Secrets, terms: Terms): Token {
    Token(Some(row), secrets.accessToken, if terms.issueRefreshToken then Some(secrets.refreshToken) else None,
          scope, now, terms.expiresIn, false, false)
  }

  function FindRefreshable(tokens: seq<Token>, refreshToken: string): (row: Option<nat>)
    ensures row.Some? ==>
      && row.value < |tokens|
      && tokens[row.value].refreshToken == Some(refreshToken) && !tokens[row.value].wasRefreshed
  {
    FirstIndex((t: Token) => t.refreshToken == Some(refreshToken) && !t.wasRefreshed, tokens)
  }

  /** The row of the token a refresh exchanges now, if any. */
  function Exchangeable(db: Db, refreshToken: string, clientId: Option<string>): (row: Option<nat>)
    ensures row.Some? ==>
      && row.value < |db.tokens|
      && var t := db.tokens[row.value];
      && t.refreshToken == Some(refreshToken) && !t.wasRefreshed && !t.isRevoked
      && t.request.Some? && t.request.value < |db.requests|
  {
    var found := FindRefreshable(db.tokens, refreshToken);
    if found.None? then None else
      var t := db.tokens[found.value];
      if t.isRevoked || t.request.None? || t.request.value >= |db.requests| then None
      else if Given(clientId) && db.requests[t.request.value].clientId != clientId.value then None
      else found
  }

  function Exchanged(db: Db, row: nat, now: int, secrets: Secrets, terms: Terms): Db
    requires row < |db.tokens| && db.tokens[row].request.Some? && db.tokens[row].request.value < |db.requests|
  {
    var owner := db.tokens[row].request.value;
    db.(tokens := db.tokens[row := db.tokens[row].(wasRefreshed := true)]
                  + [NewToken(owner, db.requests[owner].scope, now, secrets, terms)])
  }

  /** The token endpoint. `crash` stops the process between the commit that uses the code up and the one
      that stores the token. */
  function Granted(cfg: Config, db: Db, now: int, form: Form, secrets: Secrets, terms: Terms, crash: bool): Db {
    match form.grantType
    case Unsupported => db
    case AuthorizationCode =>
      if !Given(form.code) || !Given(form.redirectUri) || !Given(form.clientId) then db else
        var row :=
          Redeemable(cfg, db, now, form.code.value, form.clientId.value, form.redirectUri.value, form.verifier);
        if row.None? then db
        else if db.requests[row.value].scope == "" || crash then Used(db, row.value)
        else
          var token := NewToken(row.value, db.requests[row.value].scope, now, secrets, terms);
          Used(db, row.value).(tokens := db.tokens + [token])
    case RefreshToken =>
      if !Given(form.refreshToken) then db else
        var row := Exchangeable(db, form.refreshToken.value, form.clientId);
        if row.None? then db else Exchanged(db, row.value, now, secrets, terms)
  }

  function FindToken(tokens: seq<Token>, accessToken: string): (row: Option<nat>)
    ensures row.Some? ==> row.value < |tokens| && tokens[row.value].accessToken == accessToken
  {
    FirstIndex((t: Token) => t.accessToken == accessToken, tokens)
  }

  predicate Live(t: Token, now: int) {
    !t.isRevoked && now <= t.createdAt + t.expiresIn
  }

  /** Logging out: only a token that is still live is marked revoked. */
  function Revoked(db: Db, now: int, accessToken: string): Db {
    var row := FindToken(db.tokens, accessToken);
    if row.Some? && Live(db.tokens[row.value], now)
    then db.(tokens := db.tokens[row.value := db.tokens[row.value].(isRevoked := true)])
    else db
  }

  // ---------------------------------------------------------------- the endpoints, in place

  class Server {
    const cfg: Config
    var requests: seq<AuthRequest>
    var tokens: seq<Token>

    constructor (cfg: Config)
      ensures this.cfg == cfg && View() == Db([], [])
    {
      this.cfg := cfg;
      requests, tokens := [], [];
    }

    function View(): Db
      reads this
    {
      Db(requests, tokens)
    }

    /** The request the code redeems; it is used up from here on. */
    method CheckAuthCode(now: int, code: string, clientId: string, redirectUri: string, verifier: Option<string>)
      returns (row: Option<nat>)
      modifies this`requests
      ensures row == Redeemable(cfg, old(View()), now, code, clientId, redirectUri, verifier)
      ensures View() == Redeemed(cfg, old(View()), now, code, clientId, redirectUri, verifier)
    {
      row := FindCode(requests, code);
      if row.None? {
        return;
      }
      var req := requests[row.value];
      if req.isUsed {
        return None;
      }
      if now > req.createdAt + CODE_LIFETIME {
        return None;
      }
      if req.redirectUri != redirectUri || req.clientId != clientId {
        return None;
      }
      if !VerifyPkce(cfg, req, verifier) {
        return None;
      }
      requests := requests[row.value := req.(isUsed := true)];
    }

    method IssueAccessToken(now: int, form: Form, secrets: Secrets, terms: Terms) returns (result: Result)
      modifies this
      ensures View() == Granted(cfg, old(View()), now, form, secrets, terms, false)
      ensures result.Issued? <==> |tokens| > |old(tokens)|
      ensures result.Issued? ==> tokens[|tokens| - 1] == result.token
      ensures result == Denied(UnsupportedGrantType) <==> form.grantType == Unsupported
      ensures result == Denied(InvalidRequest) <==>
        || (form.grantType == AuthorizationCode
            && !(Given(form.code) && Given(form.redirectUri) && Given(form.clientId)))
        || (form.grantType == RefreshToken && !Given(form.refreshToken))
    {
      var owner: nat;
      if form.grantType == Unsupported {
        return Denied(UnsupportedGrantType);
      } else if form.grantType == AuthorizationCode {
        if !Given(form.code) || !Given(form.redirectUri) || !Given(form.clientId) {
          return Denied(InvalidRequest);
        }
        var row := CheckAuthCode(now, form.code.value, form.clientId.value, form.redirectUri.value, form.verifier);
        if row.None? || requests[row.value].scope == "" {
          return Denied(InvalidGrant);
        }
        owner := row.value;
      } else {
        if !Given(form.refreshToken) {
          return Denied(InvalidRequest);
        }
        var row := FindRefreshable(tokens, form.refreshToken.value);
        if row.None? || tokens[row.value].isRevoked || tokens[row.value].request.None?
           || tokens[row.value].request.value >= |requests| {
          return Denied(InvalidGrant);
        }
        owner := tokens[row.value].request.value;
        if Given(form.clientId) && requests[owner].clientId != form.clientId.value {
          return Denied(InvalidGrant);
        }
        tokens := tokens[row.value := tokens[row.value].(wasRefreshed := true)];
      }
      var token := NewToken(owner, requests[owner].scope, now, secrets, terms);
      tokens := tokens + [token];
      return Issued(token);
    }

    method RevokeToken(now: int, accessToken: string)
      modifies this`tokens
      ensures View() == Revoked(old(View()), now, accessToken)
    {
      var row := FindToken(tokens, accessToken);
      if row.Some? && Live(tokens[row.value], now) {
        tokens := tokens[row.value := tokens[row.value].(isRevoked := true)];
      }
    }
  }

  // ---------------------------------------------------------------- runs

  datatype Event =
    | Consent(request: AuthRequest)
    | Profile(now: int, code: string, clientId: string, redirectUri: string, verifier: Option<string>)
    | Grant(now: int, form: Form, secrets: Secrets, terms: Terms, crash: bool)
    | Personal(token: Token)
    | Revoke(now: int, accessToken: string)

  function Apply(cfg: Config, db: Db, e: Event): Db {
    match e
    case Consent(request) => db.(requests := db.requests + [request])
    case Profile(now, code, clientId, redirectUri, verifier) =>
      Redeemed(cfg, db, now, code, clientId, redirectUri, verifier)
    case Grant(now, form, secrets, terms, crash) => Granted(cfg, db, now, form, secrets, terms, crash)
    case Personal(token) => db.(tokens := db.tokens + [token])
    case Revoke(now, accessToken) => Revoked(db, now, accessToken)
  }

  predicate NewRefreshToken(db: Db, refreshToken: string) {
    forall t <- db.tokens :: t.refreshToken != Some(refreshToken)
  }

  /** Codes and secrets are drawn at random, and the columns that hold them are unique. */
  predicate Fresh(db: Db, e: Event) {
    match e
    case Consent(request) => !request.isUsed && forall r <- db.requests :: r.code != request.code
    case Grant(_, _, secrets, _, _) => NewRefreshToken(db, secrets.refreshToken)
    case Personal(token) =>
      token.request == None && token.refreshToken == None && !token.wasRefreshed && !token.isRevoked
    case _ => true
  }

  function After(cfg: Config, history: seq<Event>): Db {
    if history == [] then Db([], []) else
      Apply(cfg, After(cfg, history[..|history| - 1]), history[|history| - 1])
  }

  /** A history goes on event by event. */
  lemma OneMoreEvent(cfg: Config, history: seq<Event>, e: Event)
    ensures After(cfg, []) == Db([], [])
    ensures After(cfg, history + [e]) == Apply(cfg, After(cfg, history), e)
  {
    assert (history + [e])[..|history|] == history;
  }

  ghost predicate AllFresh(cfg: Config, history: seq<Event>) {
    forall n :: 0 <= n < |history| ==> Fresh(After(cfg, history[..n]), history[n])
  }

  // ---------------------------------------------------------------- what one event does

  /** The row of the request whose code this event redeems. */
  function Redeems(cfg: Config, db: Db, e: Event): (row: Option<nat>)
    ensures row.Some? ==> row.value < |db.requests| && !db.requests[row.value].isUsed
  {
    match e
    case Profile(now, code, clientId, redirectUri, verifier) =>
      Redeemable(cfg, db, now, code, clientId, redirectUri, verifier)
    case Grant(now, form, _, _, _) =>
      if form.grantType != AuthorizationCode || !Given(form.code) || !Given(form.redirectUri) || !Given(form.clientId)
      then None
      else Redeemable(cfg, db, now, form.code.value, form.clientId.value, form.redirectUri.value, form.verifier)
    case _ => None
  }

  /** The row of the token this event exchanges for a new one. */
  function Exchanges(db: Db, e: Event): (row: Option<nat>)
    ensures row.Some? ==>
      && row.value < |db.tokens|
      && var t := db.tokens[row.value];
      && !t.wasRefreshed && !t.isRevoked && t.refreshToken.Some?
      && t.request.Some? && t.request.value < |db.requests|
  {
    match e
    case Grant(_, form, _, _, _) =>
      if form.grantType != RefreshToken || !Given(form.refreshToken) then None
      else Exchangeable(db, form.refreshToken.value, form.clientId)
    case _ => None
  }

  /** The token a token belongs to after a later event: only its two flags can have been raised. */
  predicate SameToken(before: Token, after: Token) {
    && after == before.(isRevoked := after.isRevoked, wasRefreshed := after.wasRefreshed)
    && (before.isRevoked ==> after.isRevoked)
    && (before.wasRefreshed ==> after.wasRefreshed)
  }

  ghost predicate RequestsStep(cfg: Config, db: Db, e: Event, after: Db) {
    && |db.requests| <= |after.requests| <= |db.requests| + 1
    && (forall r :: 0 <= r < |db.requests| ==>
          after.requests[r] == db.requests[r].(isUsed := db.requests[r].isUsed || Redeems(cfg, db, e) == Some(r)))
    && (forall r :: |db.requests| <= r < |after.requests| ==> e.Consent? && after.requests[r] == e.request)
  }

  ghost predicate TokensStep(db: Db, e: Event, after: Db) {
    && |db.tokens| <= |after.tokens|
    && (forall i :: 0 <= i < |db.tokens| ==> SameToken(db.tokens[i], after.tokens[i]))
    && (forall i :: 0 <= i < |db.tokens| ==>
          after.tokens[i].wasRefreshed == (db.tokens[i].wasRefreshed || Exchanges(db, e) == Some(i)))
  }

  ghost predicate NewcomerStep(cfg: Config, db: Db, e: Event, after: Db) {
    && |db.tokens| <= |after.tokens| <= |db.tokens| + 1
    && (Exchanges(db, e).Some? ==>
          && |after.tokens| > |db.tokens|
          && after.tokens[|db.tokens|].request == db.tokens[Exchanges(db, e).value].request)
    && (|after.tokens| > |db.tokens| ==> NewcomerIsDue(cfg, db, e, after.tokens[|db.tokens|]))
  }

  ghost predicate OneStep(cfg: Config, db: Db, e: Event, after: Db) {
    RequestsStep(cfg, db, e, after) && TokensStep(db, e, after) && NewcomerStep(cfg, db, e, after)
  }

  /** A new token is a personal one, or comes from a redeemed code or an exchanged token. */
  ghost predicate NewcomerIsDue(cfg: Config, db: Db, e: Event, t: Token) {
    && !t.wasRefreshed && !t.isRevoked
    && (t.refreshToken.Some? ==> e.Grant? && t.refreshToken.value == e.secrets.refreshToken)
    && match t.request
       case None => e.Personal?
       case Some(r) =>
         && r < |db.requests| && t.scope == db.requests[r].scope
         && (|| (Redeems(cfg, db, e) == Some(r) && t.scope != "")
             || (Exchanges(db, e).Some? && db.tokens[Exchanges(db, e).value].request == Some(r)))
  }

  lemma StepRequests(cfg: Config, db: Db, e: Event)
    ensures RequestsStep(cfg, db, e, Apply(cfg, db, e))
  {
    hide Redeemable, Exchangeable, FindToken, Given;
  }

  lemma StepTokens(cfg: Config, db: Db, e: Event)
    ensures TokensStep(db, e, Apply(cfg, db, e))
  {
    hide Redeemable, Exchangeable, FindToken, Given;
  }

  lemma StepNewcomer(cfg: Config, db: Db, e: Event)
    requires Fresh(db, e)
    ensures NewcomerStep(cfg, db, e, Apply(cfg, db, e))
  {
    hide Redeemable, Exchangeable, FindToken, Given;
  }

  lemma StepIsOneStep(cfg: Config, db: Db, e: Event)
    requires Fresh(db, e)
    ensures OneStep(cfg, db, e, Apply(cfg, db, e))
  {
    hide Apply, RequestsStep, TokensStep, NewcomerStep;
    StepRequests(cfg, db, e);
    StepTokens(cfg, db, e);
    StepNewcomer(cfg, db, e);
  }

  lemma TokenStep(cfg: Config, db: Db, e: Event, after: Db, i: nat)
    requires OneStep(cfg, db, e, after) && i < |db.tokens|
    ensures i < |after.tokens| && SameToken(db.tokens[i], after.tokens[i])
    ensures after.tokens[i].wasRefreshed == (db.tokens[i].wasRefreshed || Exchanges(db, e) == Some(i))
  {
  }

  lemma RequestStep(cfg: Config, db: Db, e: Event, after: Db, r: nat)
    requires OneStep(cfg, db, e, after) && r < |db.requests|
    ensures r < |after.requests|
    ensures after.requests[r] == db.requests[r].(isUsed := db.requests[r].isUsed || Redeems(cfg, db, e) == Some(r))
  {
  }

  lemma Newcomer(cfg: Config, db: Db, e: Event, after: Db, i: nat)
    requires OneStep(cfg, db, e, after) && |db.tokens| <= i < |after.tokens|
    ensures i == |db.tokens| && |after.tokens| == i + 1
    ensures NewcomerIsDue(cfg, db, e, after.tokens[i])
    ensures Exchanges(db, e).Some? ==> after.tokens[i].request == db.tokens[Exchanges(db, e).value].request
  {
  }

  // ---------------------------------------------------------------- invariants

  ghost predicate Superseded(tokens: seq<Token>, i: nat)
    requires i < |tokens|
  {
    exists j :: i < j < |tokens| && tokens[j].request == tokens[i].request
  }

  ghost predicate ChainedAt(tokens: seq<Token>, i: nat)
    requires i < |tokens|
  {
    tokens[i].wasRefreshed <==> tokens[i].request.Some? && Superseded(tokens, i)
  }

  /** Along the tokens of one request, exactly the newest one has not been refreshed. */
  ghost predicate Chained(tokens: seq<Token>) {
    forall i :: 0 <= i < |tokens| ==> ChainedAt(tokens, i)
  }

  ghost predicate Owned(db: Db, t: Token) {
    t.request.Some? ==>
      && t.request.value < |db.requests|
      && db.requests[t.request.value].isUsed
      && t.scope == db.requests[t.request.value].scope != ""
  }

  ghost predicate UniqueSecrets(db: Db) {
    && (forall i, j :: 0 <= i < j < |db.requests| ==> db.requests[i].code != db.requests[j].code)
    && (forall i, j :: 0 <= i < j < |db.tokens| && db.tokens[i].refreshToken.Some? ==>
          db.tokens[i].refreshToken != db.tokens[j].refreshToken)
  }

  ghost predicate Inv(db: Db) {
    Chained(db.tokens) && (forall t <- db.tokens :: Owned(db, t)) && UniqueSecrets(db)
  }

  lemma StepKeepsOwned(cfg: Config, db: Db, e: Event, after: Db)
    requires OneStep(cfg, db, e, after) && Inv(db)
    ensures forall t <- after.tokens :: Owned(after, t)
  {
    hide OneStep, Redeems, Exchanges;
    forall i | 0 <= i < |after.tokens|
      ensures Owned(after, after.tokens[i])
    {
      if i < |db.tokens| {
        assert Owned(db, db.tokens[i]);
        TokenStep(cfg, db, e, after, i);
      } else {
        Newcomer(cfg, db, e, after, i);
        if Exchanges(db, e).Some? {
          assert Owned(db, db.tokens[Exchanges(db, e).value]);
        }
      }
      if after.tokens[i].request.Some? {
        RequestStep(cfg, db, e, after, after.tokens[i].request.value);
      }
    }
  }

  lemma StepKeepsSecrets(cfg: Config, db: Db, e: Event, after: Db)
    requires OneStep(cfg, db, e, after) && Fresh(db, e) && UniqueSecrets(db)
    ensures UniqueSecrets(after)
  {
    hide Redeems, Exchanges;
    forall i, j | 0 <= i < j < |after.tokens| && after.tokens[i].refreshToken.Some?
      ensures after.tokens[i].refreshToken != after.tokens[j].refreshToken
    {
      TokenStep(cfg, db, e, after, i);
      assert db.tokens[i] in db.tokens;
      if j < |db.tokens| {
        TokenStep(cfg, db, e, after, j);
      } else {
        Newcomer(cfg, db, e, after, j);
      }
    }
    forall i, j | 0 <= i < j < |after.requests|
      ensures after.requests[i].code != after.requests[j].code
    {
      RequestStep(cfg, db, e, after, i);
      assert db.requests[i] in db.requests;
    }
  }

  lemma StepKeepsChained(cfg: Config, db: Db, e: Event, after: Db)
    requires OneStep(cfg, db, e, after) && Inv(db)
    ensures Chained(after.tokens)
  {
    hide OneStep, Redeems, Exchanges;
    forall i | 0 <= i < |after.tokens|
      ensures ChainedAt(after.tokens, i)
    {
      if i < |db.tokens| {
        TokenStep(cfg, db, e, after, i);
        assert Owned(db, db.tokens[i]) && ChainedAt(db.tokens, i);
        if after.tokens[i].wasRefreshed {
          RefreshedIsSuperseded(cfg, db, e, after, i);
        } else if Superseded(after.tokens, i) && after.tokens[i].request.Some? {
          SupersededIsRefreshed(cfg, db, e, after, i);
        }
      } else {
        Newcomer(cfg, db, e, after, i);
      }
    }
  }

  lemma RefreshedIsSuperseded(cfg: Config, db: Db, e: Event, after: Db, i: nat)
    requires OneStep(cfg, db, e, after)
    requires i < |db.tokens| && ChainedAt(db.tokens, i) && i < |after.tokens| && after.tokens[i].wasRefreshed
    ensures after.tokens[i].request.Some? && Superseded(after.tokens, i)
  {
    hide NewcomerIsDue, Redeems, Exchanges;
    TokenStep(cfg, db, e, after, i);
    if db.tokens[i].wasRefreshed {
      var j :| i < j < |db.tokens| && db.tokens[j].request == db.tokens[i].request;
      TokenStep(cfg, db, e, after, j);
    } else {
      Newcomer(cfg, db, e, after, |db.tokens|);
    }
  }

  lemma SupersededIsRefreshed(cfg: Config, db: Db, e: Event, after: Db, i: nat)
    requires OneStep(cfg, db, e, after) && Chained(db.tokens)
    requires i < |db.tokens| && Owned(db, db.tokens[i]) && i < |after.tokens| && Superseded(after.tokens, i)
    requires after.tokens[i].request.Some?
    ensures after.tokens[i].wasRefreshed
  {
    hide OneStep, Redeems, Exchanges, Chained;
    TokenStep(cfg, db, e, after, i);
    var j :| i < j < |after.tokens| && after.tokens[j].request == after.tokens[i].request;
    if j < |db.tokens| {
      TokenStep(cfg, db, e, after, j);
      LatestIsLast(db.tokens, i, j);
    } else {
      Newcomer(cfg, db, e, after, j);
      if Exchanges(db, e).Some? && !db.tokens[i].wasRefreshed {
        LatestIsUnique(db.tokens, i, Exchanges(db, e).value);
      }
    }
  }

  lemma LatestIsLast(tokens: seq<Token>, i: nat, j: nat)
    requires Chained(tokens) && i < j < |tokens| && tokens[i].request.Some? && tokens[i].request == tokens[j].request
    ensures tokens[i].wasRefreshed
  {
    assert ChainedAt(tokens, i) && Superseded(tokens, i);
  }

  /** Of two tokens of one request, one has been refreshed. */
  lemma LatestIsUnique(tokens: seq<Token>, i: nat, j: nat)
    requires Chained(tokens) && i < |tokens| && j < |tokens|
    requires tokens[i].request.Some? && tokens[i].request == tokens[j].request
    requires !tokens[i].wasRefreshed && !tokens[j].wasRefreshed
    ensures i == j
  {
    if i < j {
      LatestIsLast(tokens, i, j);
    } else if j < i {
      LatestIsLast(tokens, j, i);
    }
  }

  lemma FreshPrefix(cfg: Config, history: seq<Event>, m: nat)
    requires AllFresh(cfg, history) && m <= |history|
    ensures AllFresh(cfg, history[..m])
  {
    forall n | 0 <= n < m
      ensures Fresh(After(cfg, history[..m][..n]), history[..m][n])
    {
      assert history[..m][..n] == history[..n];
    }
  }

  lemma {:induction false} InvHolds(cfg: Config, history: seq<Event>)
    requires AllFresh(cfg, history)
    ensures Inv(After(cfg, history))
  {
    hide Apply, OneStep;
    if history != [] {
      var n := |history| - 1;
      var before := After(cfg, history[..n]);
      FreshPrefix(cfg, history, n);
      InvHolds(cfg, history[..n]);
      StepIsOneStep(cfg, before, history[n]);
      StepKeepsChained(cfg, before, history[n], After(cfg, history));
      StepKeepsOwned(cfg, before, history[n], After(cfg, history));
      StepKeepsSecrets(cfg, before, history[n], After(cfg, history));
    }
  }

  // ---------------------------------------------------------------- main results

  function OfRequest(r: nat): Token -> int {
    (t: Token) => if t.request == Some(r) then 1 else 0
  }

  function RefreshedOfRequest(r: nat): Token -> int {
    (t: Token) => if t.request == Some(r) && t.wasRefreshed then 1 else 0
  }

  lemma {:induction false} CountChain(tokens: seq<Token>, r: nat)
    requires Chained(tokens)
    ensures Sum(OfRequest(r), tokens)
      == Sum(RefreshedOfRequest(r), tokens) + if exists t :: t in tokens && t.request == Some(r) then 1 else 0
  {
    if tokens != [] {
      var rest := tokens[1..];
      forall i | 0 <= i < |rest|
        ensures ChainedAt(rest, i)
      {
        assert ChainedAt(tokens, i + 1);
        SupersededInRest(tokens, i);
      }
      CountChain(rest, r);
      assert ChainedAt(tokens, 0);
      if t :| t in rest && t.request == tokens[0].request {
        var j :| 0 <= j < |rest| && rest[j] == t;
        assert tokens[j + 1].request == tokens[0].request;
      } else if j :| 0 < j < |tokens| && tokens[j].request == tokens[0].request {
        assert tokens[j] in rest;
      }
    }
  }

  lemma SupersededInRest(tokens: seq<Token>, i: nat)
    requires i + 1 < |tokens|
    ensures Superseded(tokens[1..], i) <==> Superseded(tokens, i + 1)
  {
    var rest := tokens[1..];
    if Superseded(tokens, i + 1) {
      var j :| i + 1 < j < |tokens| && tokens[j].request == tokens[i + 1].request;
      assert rest[j - 1].request == rest[i].request;
    }
    if Superseded(rest, i) {
      var j :| i < j < |rest| && rest[j].request == rest[i].request;
      assert tokens[j + 1].request == tokens[i + 1].request;
    }
  }

  predicate Refreshable(t: Token, r: nat) {
    t.request == Some(r) && !t.wasRefreshed
  }

  /** In every run a request has one token more than it has refreshed tokens, once it has any; at most
      one of them can still be refreshed, and all carry the scope that was consented to. */
  lemma ChainConservation(cfg: Config, history: seq<Event>, r: nat)
    requires AllFresh(cfg, history)
    ensures var tokens := After(cfg, history).tokens;
      && Sum(OfRequest(r), tokens)
         == Sum(RefreshedOfRequest(r), tokens) + (if exists t :: t in tokens && t.request == Some(r) then 1 else 0)
      && (forall i, j | 0 <= i < |tokens| && 0 <= j < |tokens| ::
            Refreshable(tokens[i], r) && Refreshable(tokens[j], r) ==> i == j)
      && forall t <- tokens :: t.request == Some(r) ==>
           r < |After(cfg, history).requests| && t.scope == After(cfg, history).requests[r].scope
  {
    InvHolds(cfg, history);
    var tokens := After(cfg, history).tokens;
    CountChain(tokens, r);
    forall i, j | 0 <= i < |tokens| && 0 <= j < |tokens| && Refreshable(tokens[i], r) && Refreshable(tokens[j], r)
      ensures i == j
    {
      LatestIsUnique(tokens, i, j);
    }
    assert forall t <- tokens :: Owned(After(cfg, history), t);
  }

  /** Between two moments of a run: requests and tokens stay, and their flags are never lowered. */
  lemma {:induction false} NothingIsUndone(cfg: Config, history: seq<Event>, m: nat)
    requires AllFresh(cfg, history) && m <= |history|
    ensures var before, after := After(cfg, history[..m]), After(cfg, history);
      && |before.requests| <= |after.requests| && |before.tokens| <= |after.tokens|
      && (forall r :: 0 <= r < |before.requests| ==> before.requests[r].isUsed ==> after.requests[r].isUsed)
      && (forall i :: 0 <= i < |before.tokens| ==> SameToken(before.tokens[i], after.tokens[i]))
  {
    hide Apply, Redeems, Exchanges;
    if m == |history| {
      assert history[..m] == history;
    } else {
      var n := |history| - 1;
      FreshPrefix(cfg, history, n);
      assert history[..n][..m] == history[..m];
      NothingIsUndone(cfg, history[..n], m);
      var before, last, after := After(cfg, history[..m]), After(cfg, history[..n]), After(cfg, history);
      StepIsOneStep(cfg, last, history[n]);
      forall i | 0 <= i < |before.tokens|
        ensures SameToken(before.tokens[i], after.tokens[i])
      {
        assert SameToken(before.tokens[i], last.tokens[i]);
        TokenStep(cfg, last, history[n], after, i);
      }
      forall r | 0 <= r < |before.requests|
        ensures before.requests[r].isUsed ==> after.requests[r].isUsed
      {
        RequestStep(cfg, last, history[n], after, r);
      }
    }
  }

  /** In no run are two events both served by the same authorization code. */
  lemma CodeIsRedeemedOnce(cfg: Config, history: seq<Event>, m: nat, n: nat)
    requires AllFresh(cfg, history) && m < n < |history|
    requires Redeems(cfg, After(cfg, history[..m]), history[m]).Some?
    ensures Redeems(cfg, After(cfg, history[..n]), history[n]) != Redeems(cfg, After(cfg, history[..m]), history[m])
  {
    hide Apply, Redeems, Exchanges;
    assert history[..m + 1][..m] == history[..m];
    StepIsOneStep(cfg, After(cfg, history[..m]), history[m]);
    FreshPrefix(cfg, history, n);
    assert history[..n][..m + 1] == history[..m + 1];
    NothingIsUndone(cfg, history[..n], m + 1);
  }

  /** In no run is one refresh token exchanged twice. */
  lemma TokenIsExchangedOnce(cfg: Config, history: seq<Event>, m: nat, n: nat)
    requires AllFresh(cfg, history) && m < n < |history|
    requires Exchanges(After(cfg, history[..m]), history[m]).Some?
    ensures Exchanges(After(cfg, history[..n]), history[n]) != Exchanges(After(cfg, history[..m]), history[m])
  {
    hide Apply, Redeems, Exchanges;
    assert history[..m + 1][..m] == history[..m];
    StepIsOneStep(cfg, After(cfg, history[..m]), history[m]);
    FreshPrefix(cfg, history, n);
    assert history[..n][..m + 1] == history[..m + 1];
    NothingIsUndone(cfg, history[..n], m + 1);
  }

  /** The token is revoked and was never refreshed, so its chain cannot go on. */
  predicate Ended(tokens: seq<Token>, i: nat) {
    i < |tokens| && tokens[i].request.Some? && tokens[i].isRevoked && !tokens[i].wasRefreshed
  }

  lemma EndedStep(cfg: Config, db: Db, e: Event, after: Db, i: nat)
    requires OneStep(cfg, db, e, after) && Inv(db) && Ended(db.tokens, i)
    ensures Ended(after.tokens, i) && after.tokens[i].request == db.tokens[i].request
    ensures |db.tokens| <= |after.tokens|
    ensures |after.tokens| > |db.tokens| ==> after.tokens[|db.tokens|].request != db.tokens[i].request
  {
    hide Redeems, Exchanges, Chained;
    TokenStep(cfg, db, e, after, i);
    assert Owned(db, db.tokens[i]);
    if Exchanges(db, e).Some? && db.tokens[Exchanges(db, e).value].request == db.tokens[i].request {
      LatestIsUnique(db.tokens, i, Exchanges(db, e).value);
    }
    if |after.tokens| > |db.tokens| {
      Newcomer(cfg, db, e, after, |db.tokens|);
    }
  }

  /** Once the newest token of a request is revoked, the request never gets another token. */
  lemma {:induction false} RevocationEndsTheChain(cfg: Config, history: seq<Event>, m: nat, i: nat)
    requires AllFresh(cfg, history) && m <= |history|
    requires Ended(After(cfg, history[..m]).tokens, i)
    ensures var before, after := After(cfg, history[..m]).tokens, After(cfg, history).tokens;
      && |before| <= |after| && Ended(after, i) && after[i].request == before[i].request
      && forall j :: |before| <= j < |after| ==> after[j].request != before[i].request
  {
    hide Apply, OneStep, Inv, Fresh, Ended;
    if m == |history| {
      assert history[..m] == history;
      EndedInRange(After(cfg, history).tokens, i);
    } else {
      var n := |history| - 1;
      var db, e, after := After(cfg, history[..n]), history[n], After(cfg, history);
      FreshPrefix(cfg, history, n);
      assert history[..n][..m] == history[..m];
      RevocationEndsTheChain(cfg, history[..n], m, i);
      EndedInRange(After(cfg, history[..m]).tokens, i);
      StepIsOneStep(cfg, db, e);
      InvHolds(cfg, history[..n]);
      EndedInRange(db.tokens, i);
      EndedStep(cfg, db, e, after, i);
      RequestsStay(cfg, db, e, after);
    }
  }

  lemma EndedInRange(tokens: seq<Token>, i: nat)
    requires Ended(tokens, i)
    ensures i < |tokens|
  {
  }

  lemma RequestsStay(cfg: Config, db: Db, e: Event, after: Db)
    requires OneStep(cfg, db, e, after)
    ensures |db.tokens| <= |after.tokens| <= |db.tokens| + 1
    ensures forall j :: 0 <= j < |db.tokens| ==> after.tokens[j].request == db.tokens[j].request
  {
    hide NewcomerIsDue, Redeems, Exchanges;
    forall j | 0 <= j < |db.tokens|
      ensures after.tokens[j].request == db.tokens[j].request
    {
      TokenStep(cfg, db, e, after, j);
    }
  }

  /** A moment of the run at which the request's code was redeemed, with everything it was bound to. */
  ghost predicate RedeemedAt(cfg: Config, history: seq<Event>, n: nat, r: nat)
    requires n < |history|
  {
    Redeems(cfg, After(cfg, history[..n]), history[n]) == Some(r)
  }

  /** A token of a request is older than the event, or the event redeemed the request's code, or it
      exchanged an older token of the same request. */
  lemma TokenOrigin(cfg: Config, db: Db, e: Event, after: Db, i: nat) returns (k: nat)
    requires OneStep(cfg, db, e, after) && i < |after.tokens| && after.tokens[i].request.Some?
    ensures Redeems(cfg, db, e) == after.tokens[i].request
      || (k < |db.tokens| && db.tokens[k].request == after.tokens[i].request)
  {
    hide OneStep, Redeems, Exchanges;
    if i < |db.tokens| {
      TokenStep(cfg, db, e, after, i);
      k := i;
    } else {
      Newcomer(cfg, db, e, after, i);
      k := if Exchanges(db, e).Some? then Exchanges(db, e).value else 0;
    }
  }

  /** Every token of a request goes back to one redemption of the request's code. */
  lemma {:induction false} TokensComeFromTheCode(cfg: Config, history: seq<Event>, i: nat)
    requires AllFresh(cfg, history)
    requires i < |After(cfg, history).tokens| && After(cfg, history).tokens[i].request.Some?
    ensures exists n :: 0 <= n < |history| && RedeemedAt(cfg, history, n, After(cfg, history).tokens[i].request.value)
    decreases |history|
  {
    hide Apply, Redeems, Exchanges, OneStep, Fresh;
    var n := |history| - 1;
    var db, e := After(cfg, history[..n]), history[n];
    var r := After(cfg, history).tokens[i].request.value;
    FreshPrefix(cfg, history, n);
    StepIsOneStep(cfg, db, e);
    var k := TokenOrigin(cfg, db, e, After(cfg, history), i);
    if Redeems(cfg, db, e) == Some(r) {
      assert RedeemedAt(cfg, history, n, r);
    } else {
      TokensComeFromTheCode(cfg, history[..n], k);
      var earlier :| 0 <= earlier < n && RedeemedAt(cfg, history[..n], earlier, r);
      assert history[..n][..earlier] == history[..earlier];
      assert RedeemedAt(cfg, history, earlier, r);
    }
  }

  /** A code is redeemed only in time, by the client and redirect URI of its consent, and with the verifier
      that its stored challenge asks for: under S256 one that hashes to the challenge, under plain or no
      method the challenge itself, and under any other method none at all. */
  lemma RedemptionIsBound(cfg: Config, db: Db, e: Event, r: nat)
    requires Redeems(cfg, db, e) == Some(r)
    ensures var req := db.requests[r];
      var verifier := if e.Profile? then e.verifier else e.form.verifier;
      var asked := cfg.upper(req.challengeMethod.GetOr(""));
      && e.now <= req.createdAt + CODE_LIFETIME
      && (if e.Profile? then Some(e.clientId) else e.form.clientId) == Some(req.clientId)
      && (if e.Profile? then Some(e.redirectUri) else e.form.redirectUri) == Some(req.redirectUri)
      && (Given(req.challenge) ==>
            && Given(verifier)
            && asked in {"S256", "PLAIN", ""}
            && req.challenge.value == if asked == "S256" then cfg.s256(verifier.value) else verifier.value)
  {
  }

  // ---------------------------------------------------------------- what each endpoint writes

  /** A parameter that is missing counts like an empty one. */
  lemma GivenIff(param: Option<string>)
    ensures Given(param) <==> param.Some? && |param.value| > 0
  {
  }

  /** The verifier that a stored challenge asks for. */
  lemma PkceIff(cfg: Config, req: AuthRequest, verifier: Option<string>)
    ensures var asked := cfg.upper(if req.challengeMethod.Some? then req.challengeMethod.value else "");
      VerifyPkce(cfg, req, verifier) <==>
        || !Given(req.challenge)
        || (Given(verifier) && asked in {"", "PLAIN"} && verifier.value == req.challenge.value)
        || (Given(verifier) && asked == "S256" && cfg.s256(verifier.value) == req.challenge.value)
  {
  }

  /** A code is good for the request at row r: unused, at most two minutes old, and presented by the client, with
      the redirect URI and with the verifier of the consent. */
  ghost predicate GoodCode(cfg: Config, db: Db, now: int, code: string, clientId: string, redirectUri: string,
      verifier: Option<string>, r: nat)
  {
    && r < |db.requests|
    && db.requests[r] == db.requests[r].(code := code, clientId := clientId, redirectUri := redirectUri,
                                         isUsed := false)
    && now - db.requests[r].createdAt <= 120 * 1_000_000
    && VerifyPkce(cfg, db.requests[r], verifier)
  }

  /** Checking a code finds exactly the request it is good for, and writes nothing but its used flag. */
  lemma CodeIsFoundIff(cfg: Config, db: Db, now: int, code: string, clientId: string, redirectUri: string,
      verifier: Option<string>, r: nat)
    requires UniqueSecrets(db)
    ensures Redeemable(cfg, db, now, code, clientId, redirectUri, verifier) == Some(r)
      <==> GoodCode(cfg, db, now, code, clientId, redirectUri, verifier, r)
    ensures GoodCode(cfg, db, now, code, clientId, redirectUri, verifier, r) ==>
      Redeemed(cfg, db, now, code, clientId, redirectUri, verifier)
        == Db(db.requests[r := db.requests[r].(isUsed := true)], db.tokens)
    ensures Redeemable(cfg, db, now, code, clientId, redirectUri, verifier) == None ==>
      Redeemed(cfg, db, now, code, clientId, redirectUri, verifier) == db
  {
    hide VerifyPkce;
    var found := FindCode(db.requests, code);
    if GoodCode(cfg, db, now, code, clientId, redirectUri, verifier, r) {
      assert db.requests[r] in db.requests;
      assert found.value == r;
    }
  }

  /** The token a grant adds for a request. */
  ghost predicate IsNewToken(t: Token, db: Db, r: nat, e: Event)
    requires r < |db.requests| && e.Grant?
  {
    t == Token(Some(r), e.secrets.accessToken, if e.terms.issueRefreshToken then Some(e.secrets.refreshToken) else None,
               db.requests[r].scope, e.now, e.terms.expiresIn, false, false)
  }

  /** The form of a code grant is complete and its code good for the request at row r. */
  ghost predicate MayRedeem(cfg: Config, db: Db, now: int, form: Form, r: nat) {
    && Given(form.code) && Given(form.redirectUri) && Given(form.clientId)
    && GoodCode(cfg, db, now, form.code.value, form.clientId.value, form.redirectUri.value, form.verifier, r)
  }

  /** The code grant, in every reachable state: with all its parameters and a good code it uses that code up and
      adds one token with the scope of its request, or none when the scope is empty or the process stops before;
      else the tables stay as they are. */
  lemma CodeGrantWrites(cfg: Config, history: seq<Event>, e: Event, r: nat)
    requires AllFresh(cfg, history) && e.Grant? && e.form.grantType == AuthorizationCode
    ensures var db, after := After(cfg, history), Apply(cfg, After(cfg, history), e);
      && (MayRedeem(cfg, db, e.now, e.form, r) ==>
            && after.requests == db.requests[r := db.requests[r].(isUsed := true)]
            && (e.crash || db.requests[r].scope == "" ==> after.tokens == db.tokens)
            && (!e.crash && db.requests[r].scope != "" ==>
                  && |after.tokens| == |db.tokens| + 1 && after.tokens[..|db.tokens|] == db.tokens
                  && IsNewToken(after.tokens[|db.tokens|], db, r, e)))
      && (after != db ==> exists r' :: MayRedeem(cfg, db, e.now, e.form, r'))
  {
    hide Redeemable, UniqueSecrets, VerifyPkce, AllFresh;
    var db, form := After(cfg, history), e.form;
    InvHolds(cfg, history);
    if Given(form.code) && Given(form.redirectUri) && Given(form.clientId) {
      var found := Redeemable(cfg, db, e.now, form.code.value, form.clientId.value, form.redirectUri.value,
                              form.verifier);
      CodeIsFoundIff(cfg, db, e.now, form.code.value, form.clientId.value, form.redirectUri.value, form.verifier, r);
      if found.Some? {
        CodeIsFoundIff(cfg, db, e.now, form.code.value, form.clientId.value, form.redirectUri.value, form.verifier,
                       found.value);
        assert MayRedeem(cfg, db, e.now, form, found.value);
      }
    }
  }

  /** The token at row i may be exchanged: it carries the refresh token of the form, was neither refreshed nor
      revoked, belongs to a stored request, and the form names that request's client or none. */
  ghost predicate MayRefresh(db: Db, form: Form, i: nat) {
    && i < |db.tokens|
    && Given(form.refreshToken)
    && db.tokens[i] == db.tokens[i].(refreshToken := form.refreshToken, wasRefreshed := false, isRevoked := false)
    && db.tokens[i].request.Some? && db.tokens[i].request.value < |db.requests|
    && (!Given(form.clientId) || form.clientId.value == db.requests[db.tokens[i].request.value].clientId)
  }

  lemma ExchangeableIff(db: Db, form: Form, i: nat)
    requires UniqueSecrets(db) && Given(form.refreshToken)
    ensures Exchangeable(db, form.refreshToken.value, form.clientId) == Some(i) <==> MayRefresh(db, form, i)
  {
    var found := FindRefreshable(db.tokens, form.refreshToken.value);
    if MayRefresh(db, form, i) {
      assert found.Some? && found.value == i;
    }
  }

  /** A refresh, in every reachable state: it exchanges a token exactly when that token may be, marking it and
      adding one of the same request with the request's scope; else the tables stay as they are. */
  lemma RefreshWrites(cfg: Config, history: seq<Event>, e: Event, i: nat)
    requires AllFresh(cfg, history) && e.Grant? && e.form.grantType == RefreshToken
    ensures var db, after := After(cfg, history), Apply(cfg, After(cfg, history), e);
      && (MayRefresh(db, e.form, i) ==>
            && after.requests == db.requests
            && |after.tokens| == |db.tokens| + 1
            && after.tokens[..|db.tokens|] == db.tokens[i := db.tokens[i].(wasRefreshed := true)]
            && IsNewToken(after.tokens[|db.tokens|], db, db.tokens[i].request.value, e))
      && (after != db ==> exists i' :: MayRefresh(db, e.form, i'))
  {
    hide Exchangeable, UniqueSecrets;
    var db, form := After(cfg, history), e.form;
    InvHolds(cfg, history);
    if Given(form.refreshToken) {
      ExchangeableIff(db, form, i);
      var found := Exchangeable(db, form.refreshToken.value, form.clientId);
      if found.Some? {
        ExchangeableIff(db, form, found.value);
      }
    }
  }

  /** A consent and a token the owner makes are appended; a code presented for the profile only is used up; a grant
      of any other type writes nothing. */
  lemma OtherEventsWrite(cfg: Config, db: Db, e: Event)
    ensures e.Consent? ==> Apply(cfg, db, e) == Db(db.requests + [e.request], db.tokens)
    ensures e.Personal? ==> Apply(cfg, db, e) == Db(db.requests, db.tokens + [e.token])
    ensures e.Profile? ==>
      Apply(cfg, db, e) == Redeemed(cfg, db, e.now, e.code, e.clientId, e.redirectUri, e.verifier)
    ensures e.Grant? && e.form.grantType == Unsupported ==> Apply(cfg, db, e) == db
    ensures e.Revoke? ==> Apply(cfg, db, e) == Revoked(db, e.now, e.accessToken)
  {
  }

  /** Logging out revokes the first token of that value exactly when it was not revoked before and has not
      expired, and writes nothing else. */
  lemma LogoutWrites(db: Db, now: int, accessToken: string, k: nat)
    requires k < |db.tokens|
    ensures var after := Revoked(db, now, accessToken);
      var hit := db.tokens[k].accessToken == accessToken
        && (forall j :: 0 <= j < k ==> db.tokens[j].accessToken != accessToken)
        && !db.tokens[k].isRevoked && now - db.tokens[k].createdAt <= db.tokens[k].expiresIn;
      && after.requests == db.requests && |after.tokens| == |db.tokens|
      && after.tokens[k] == if hit then db.tokens[k].(isRevoked := true) else db.tokens[k]
  {
    var found := FindToken(db.tokens, accessToken);
    if found.Some? && found.value < k {
      assert db.tokens[found.value].accessToken == accessToken;
    }
  }
}
