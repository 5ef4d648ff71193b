/** The allow/deny decisions of server.js that do not change state: the
    `authenticateJWT` and `authorizeAdmin` middleware, the input checks of
    the HTTP routes, and the ordered rejection chain of the chat handler. */
module Gates {
  import opened Wrappers
  import opened Credentials
  import opened Tables
  import opened Wire
  import Presence

  const StatusOk: int := 200
  const StatusCreated: int := 201
  const StatusBadRequest: int := 400
  const StatusUnauthorized: int := 401
  const StatusForbidden: int := 403
  const StatusConflict: int := 409
  const StatusServerError: int := 500

  /** The `Authorization` header: its token is the second space-separated
      part, None when there is none. */
  datatype AuthHeader = AuthHeader(scheme: string, token: Option<Token>)

  /** `authenticateJWT`: 401 without a header, 403 when the token does not
      verify, otherwise the claims it carries. */
  function Authenticate(header: Option<AuthHeader>, key: Key, now: int): (r: Result<Claims, int>)
    ensures r.Failure? ==> r.error == StatusUnauthorized || r.error == StatusForbidden
    ensures r.Failure? && r.error == StatusUnauthorized <==> header.None?
    ensures r.Success? <==> header.Some? && header.value.token.Some? && Verify(header.value.token.value, key, now).Some?
    ensures r.Success? ==> r.value == Verify(header.value.token.value, key, now).value
  {
    if header.None? then Failure(StatusUnauthorized)
    else if header.value.token.None? then Failure(StatusForbidden)
    else match Verify(header.value.token.value, key, now)
      case None => Failure(StatusForbidden)
      case Some(c) => Success(c)
  }

  /** `authenticateJWT` then `authorizeAdmin`: the admin bit is the one in
      the token, not the store's current one. */
  function AuthorizeAdmin(header: Option<AuthHeader>, key: Key, now: int): (r: Result<Claims, int>)
    ensures r.Success? <==> Authenticate(header, key, now).Success? && Authenticate(header, key, now).value.isAdmin
    ensures r.Success? ==> r.value == Authenticate(header, key, now).value
    ensures r.Failure? ==> r.error == StatusUnauthorized || r.error == StatusForbidden
  {
    match Authenticate(header, key, now)
    case Failure(status) => Failure(status)
    case Success(c) => if c.isAdmin then Success(c) else Failure(StatusForbidden)
  }

  /** A token signed for an admin passes the admin routes exactly until it
      expires, whatever has happened to that user since. */
  lemma AdminTokenPassesUntilExpiry(c: Claims, key: Key, issuedMs: int, nowMs: int, scheme: string)
    ensures AuthorizeAdmin(Some(AuthHeader(scheme, Some(Sign(c, key, issuedMs)))), key, nowMs).Success?
        <==> c.isAdmin && Seconds(nowMs) < Seconds(issuedMs) + TokenLifetime
  {
  }

  /** JavaScript truthiness of an optional string field. */
  predicate Present(s: Option<string>) {
    s.Some? && s.value != ""
  }

  /** The `/register` invitation-code check: refused on a lookup error, an
      unknown code, or one with no uses left. */
  predicate CodeUsable(lookupFails: bool, entry: Option<CodeRow>) {
    !lookupFails && entry.Some? && entry.value.currentUses < entry.value.maxUses
  }

  /** The `/admin/invitation-codes` input check: a code and `maxUses > 0`. */
  predicate ValidCodeRequest(code: Option<string>, maxUses: Option<int>) {
    Present(code) && maxUses.Some? && maxUses.value > 0
  }

  /** The `/admin/set-admin` guard: the initial admin is never demoted. */
  predicate DemotesInitialAdmin(initialAdmin: string, username: string, isAdmin: bool) {
    username == initialAdmin && !isAdmin
  }

  /** The checks of the `chat message` handler before the plugins run, in
      the order the handler makes them: token present, token valid, author
      online, mute lookup succeeded, author not muted.  On success, the
      author's name. */
  function ChatGate(req: ChatRequest, key: Key, now: int, users: map<Presence.SocketId, Presence.Session>,
                    muted: set<string>, muteLookupFails: bool): (r: Result<string, Rejection>)
    ensures r.Failure? ==> r.error in {NoToken, InvalidToken, NotOnline, SendFailed, Muted}
    ensures r.Success? ==> Presence.HoldsName(users, r.value) && r.value !in muted
  {
    if req.token.None? then Failure(NoToken)
    else match Verify(req.token.value, key, now)
      case None => Failure(InvalidToken)
      case Some(c) =>
        if !Presence.HoldsName(users, c.username) then Failure(NotOnline)
        else if muteLookupFails then Failure(SendFailed)
        else if c.username in muted then Failure(Muted)
        else Success(c.username)
  }

  /** Each check decides before the later ones are consulted: a missing
      token, a token that does not verify, a user without a session and a
      failed mute lookup are each refused whatever the later inputs are. */
  lemma ChatGateOrder(req: ChatRequest, key: Key, now: int, users: map<Presence.SocketId, Presence.Session>,
                      muted: set<string>, muteLookupFails: bool)
    ensures req.token.None? ==> ChatGate(req, key, now, users, muted, muteLookupFails) == Failure(NoToken)
    ensures req.token.Some? && Verify(req.token.value, key, now).None?
            ==> ChatGate(req, key, now, users, muted, muteLookupFails) == Failure(InvalidToken)
    ensures req.token.Some? && Verify(req.token.value, key, now).Some?
            && !Presence.HoldsName(users, Verify(req.token.value, key, now).value.username)
            ==> ChatGate(req, key, now, users, muted, muteLookupFails) == Failure(NotOnline)
    ensures req.token.Some? && Verify(req.token.value, key, now).Some?
            && Presence.HoldsName(users, Verify(req.token.value, key, now).value.username) && muteLookupFails
            ==> ChatGate(req, key, now, users, muted, muteLookupFails) == Failure(SendFailed)
  {
  }

  /** A message passes the checks exactly when its token verifies for a user
      who has a session, the mute lookup works and the user is not muted;
      the author is then the token's user. */
  lemma ChatGateAccepts(req: ChatRequest, key: Key, now: int, users: map<Presence.SocketId, Presence.Session>,
                        muted: set<string>, muteLookupFails: bool)
    ensures var g := ChatGate(req, key, now, users, muted, muteLookupFails);
            g.Success? <==>
              && req.token.Some? && Verify(req.token.value, key, now).Some?
              && Presence.HoldsName(users, Verify(req.token.value, key, now).value.username)
              && !muteLookupFails
              && Verify(req.token.value, key, now).value.username !in muted
    ensures var g := ChatGate(req, key, now, users, muted, muteLookupFails);
            g.Success? ==> g.value == Verify(req.token.value, key, now).value.username
  {
  }

  /** A muted author with a valid token and a session is always refused
      with the mute reason (the reply with `isMuted: true`). */
  lemma MutedAuthorRefused(req: ChatRequest, key: Key, now: int, users: map<Presence.SocketId, Presence.Session>,
                           muted: set<string>)
    requires req.token.Some? && Verify(req.token.value, key, now).Some?
    requires Presence.HoldsName(users, Verify(req.token.value, key, now).value.username)
    requires Verify(req.token.value, key, now).value.username in muted
    ensures ChatGate(req, key, now, users, muted, false) == Failure(Muted)
  {
  }

  /** A token past its expiry second is refused as invalid before the
      session, mute and plugin steps are reached. */
  lemma ExpiredTokenRefused(req: ChatRequest, key: Key, now: int, users: map<Presence.SocketId, Presence.Session>,
                            muted: set<string>, muteLookupFails: bool)
    requires req.token.Some? && req.token.value.Signed?
    requires Seconds(now) >= req.token.value.expiresAt
    ensures ChatGate(req, key, now, users, muted, muteLookupFails) == Failure(InvalidToken)
  {
  }

  /** The online check asks whether any session holds the token's name, not
      whether the sending socket does: a valid token of a user logged in
      elsewhere is accepted whatever socket it arrives on. */
  lemma ChatGateIgnoresSendingSocket(req: ChatRequest, key: Key, now: int, c: Claims,
                                     other: Presence.SocketId, muted: set<string>)
    requires req.token.Some? && Verify(req.token.value, key, now) == Some(c)
    requires c.username !in muted
    ensures ChatGate(req, key, now, map[other := Presence.Session(c.username, c.isAdmin)], muted, false)
         == Success(c.username)
  {
    assert map[other := Presence.Session(c.username, c.isAdmin)][other].username == c.username;
  }
}
