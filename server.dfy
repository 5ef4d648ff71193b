/** The server of server.js: one object owning the presence registry, the
    store, the loaded plugins and the log of what it has emitted.  Each
    socket event and HTTP route is one method, run to completion as the
    event loop runs one handler at a time.  Failures of
    the store and of bcrypt are boolean parameters of the handler. */
module Server {
  import opened Wrappers
  import opened Credentials
  import opened Tables
  import opened Wire
  import opened Gates
  import opened Presence
  import opened Plugins
  import opened Store
  import Leaderboard

  /** `getRecentMessages(50)` on login and reconnect. */
  const HistoryLimit: int := 50

  /** The default author of `pluginApi.sendMessage`. */
  const SystemAuthor: string := "System"

  class ChatServer {
    const initialAdmin: string
    const secret: Key
    const registry: Registry
    const store: ChatStore
    var plugins: seq<Plugin>
    /** Everything passed to `io.emit` and `socket.emit`, in order. */
    var outbox: seq<Emission>

    ghost predicate Valid()
      reads this, registry, store
    {
      registry.Valid() && store.Valid()
    }

    /** Start-up on a new database: create the initial admin account (a
        hashing or insert failure is only logged, leaving no admin) and load
        the plugins. */
    constructor (initialAdmin: string, initialAdminPassword: string, secret: Key, salt: nat,
                 pluginFiles: seq<PluginFile>, registerFails: bool)
      ensures Valid() && fresh(registry) && fresh(store)
      ensures this.initialAdmin == initialAdmin && this.secret == secret
      ensures store.users == if registerFails then map[]
                             else map[initialAdmin := UserRow(HashPassword(initialAdminPassword, salt), true)]
      ensures store.messages == [] && store.codes == map[] && store.muted == {} && store.scores == []
      ensures registry.users == map[] && registry.onlineUsernames == {}
      ensures plugins == EnabledPlugins(pluginFiles) && outbox == []
    {
      var st := new ChatStore();
      if !registerFails {
        var _ := st.RegisterUser(initialAdmin, initialAdminPassword, true, salt);
      }
      var loaded := LoadPlugins(pluginFiles);
      this.initialAdmin := initialAdmin;
      this.secret := secret;
      registry := new Registry();
      store := st;
      plugins := loaded;
      outbox := [];
    }

    /** The history pushed to one socket, unless the query fails. */
    function History(sid: SocketId, historyFails: bool): seq<Emission>
      reads store
    {
      if historyFails then [] else [ToSocket(sid, HistoryMessages(store.GetRecentMessages(HistoryLimit)))]
    }

    /** `reconnect_login`: the token replaces the password; no `user joined`. */
    method ReconnectLogin(sid: SocketId, token: Option<Token>, now: int, historyFails: bool)
      returns (reply: LoginReply)
      modifies this`outbox, registry
      ensures token.None? ==> reply == LoginRejected(NoToken)
      ensures token.Some? && Verify(token.value, secret, now).None? ==> reply == LoginRejected(InvalidToken)
      ensures token.Some? && Verify(token.value, secret, now).Some? ==>
                var c := Verify(token.value, secret, now).value;
                if old(registry.IsOnline(c.username)) then reply == LoginRejected(AlreadyOnline)
                else
                  && reply == LoggedIn(c.username, c.isAdmin, None)
                  && registry.users == old(registry.users)[sid := Session(c.username, c.isAdmin)]
                  && registry.onlineUsernames == old(registry.onlineUsernames) + {c.username}
                  && outbox == old(outbox) + [ToAll(OnlineUsers(registry.onlineUsernames))] + History(sid, historyFails)
      ensures !reply.LoggedIn? ==>
                registry.users == old(registry.users) && registry.onlineUsernames == old(registry.onlineUsernames)
                && outbox == old(outbox)
      ensures old(OneSessionPerName(registry.users)) ==> OneSessionPerName(registry.users)
      ensures old(registry.Valid()) && sid !in old(registry.users) ==> registry.Valid()
    {
      if token.None? {
        return LoginRejected(NoToken);
      }
      var claims := Verify(token.value, secret, now);
      if claims.None? {
        return LoginRejected(InvalidToken);
      }
      var c := claims.value;
      var ok := registry.Admit(sid, Session(c.username, c.isAdmin));
      if !ok {
        return LoginRejected(AlreadyOnline);
      }
      reply := LoggedIn(c.username, c.isAdmin, None);
      outbox := outbox + [ToAll(OnlineUsers(registry.onlineUsernames))] + History(sid, historyFails);
    }

    /** `login`: password check, single-session check, a fresh one-hour
        token, `user joined`, the online list, then the history. */
    method Login(sid: SocketId, username: string, password: string, now: int,
                 verifyFails: bool, historyFails: bool)
      returns (reply: LoginReply)
      modifies this`outbox, registry
      ensures verifyFails ==> reply == LoginRejected(LoginFailed)
      ensures !verifyFails && store.VerifyUser(username, password).None? ==> reply == LoginRejected(BadCredentials)
      ensures !verifyFails && store.VerifyUser(username, password).Some? ==>
                var u := store.VerifyUser(username, password).value;
                if old(registry.IsOnline(u.username)) then reply == LoginRejected(AlreadyOnline)
                else
                  && reply == LoggedIn(u.username, u.isAdmin, Some(Sign(Claims(u.username, u.isAdmin), secret, now)))
                  && registry.users == old(registry.users)[sid := Session(u.username, u.isAdmin)]
                  && registry.onlineUsernames == old(registry.onlineUsernames) + {u.username}
                  && outbox == old(outbox) + [ToAll(UserJoined(u.username)), ToAll(OnlineUsers(registry.onlineUsernames))]
                               + History(sid, historyFails)
      ensures !reply.LoggedIn? ==>
                registry.users == old(registry.users) && registry.onlineUsernames == old(registry.onlineUsernames)
                && outbox == old(outbox)
      ensures old(OneSessionPerName(registry.users)) ==> OneSessionPerName(registry.users)
      ensures old(registry.Valid()) && sid !in old(registry.users) ==> registry.Valid()
    {
      if verifyFails {
        return LoginRejected(LoginFailed);
      }
      var user := store.VerifyUser(username, password);
      if user.None? {
        return LoginRejected(BadCredentials);
      }
      var u := user.value;
      var ok := registry.Admit(sid, Session(u.username, u.isAdmin));
      if !ok {
        return LoginRejected(AlreadyOnline);
      }
      var token := Sign(Claims(u.username, u.isAdmin), secret, now);
      reply := LoggedIn(u.username, u.isAdmin, Some(token));
      outbox := outbox + [ToAll(UserJoined(u.username)), ToAll(OnlineUsers(registry.onlineUsernames))]
                + History(sid, historyFails);
    }

    /** `chat message`: the gate, the plugins, then speech record (its
        failure ignored), save (its failure refuses) and broadcast. */
    method ChatMessage(req: ChatRequest, now: int, muteLookupFails: bool, speechFails: bool, saveFails: bool)
      returns (reply: ChatReply)
      requires store.Valid() && store.ClockNotBehind(now)
      modifies this`outbox, store`messages, store`scores
      ensures store.Valid()
      ensures var g := ChatGate(req, secret, now, registry.users, old(store.muted), muteLookupFails);
              && (g.Failure? ==> reply == ChatRejected(g.error))
              && (g.Failure? || Claimed(plugins, req) ==>
                    store.messages == old(store.messages) && store.scores == old(store.scores) && outbox == old(outbox))
              && (g.Success? && Claimed(plugins, req) ==> reply == ChatAccepted)
              && (g.Success? && !Claimed(plugins, req) ==>
                    && store.scores == old(store.scores) + (if speechFails then [] else [SpeechRecord(g.value, now)])
                    && (saveFails ==> reply == ChatRejected(SendFailed)
                                      && store.messages == old(store.messages) && outbox == old(outbox))
                    && (!saveFails ==>
                          && reply == ChatAccepted
                          && store.messages == old(store.messages)
                               + [EncodeRow(g.value, req.text, req.fileUrl, req.quoted, req.mentions, now)]
                          && outbox == old(outbox) + [ToAll(ChatBroadcast(ChatPayload(
                               g.value, req.text, req.fileUrl, now, req.quoted, req.mentions)))]))
    {
      var gate := ChatGate(req, secret, now, registry.users, store.muted, muteLookupFails);
      if gate.Failure? {
        return ChatRejected(gate.error);
      }
      var username := gate.value;
      var handled, _ := RunInterceptors(plugins, req);
      if handled {
        return ChatAccepted;
      }
      if !speechFails {
        store.RecordUserSpeech(username, now);
      }
      if saveFails {
        return ChatRejected(SendFailed);
      }
      var saved := store.SaveMessage(username, req.text, req.fileUrl, req.quoted, req.mentions, now);
      outbox := outbox + [ToAll(ChatBroadcast(ChatPayload(
        username, req.text, req.fileUrl, saved.timestamp, req.quoted, req.mentions)))];
      reply := ChatAccepted;
    }

    /** `disconnect`: evict this socket's session, then `user left` and the
        online list; a socket without a session emits nothing. */
    method Disconnect(sid: SocketId)
      modifies this`outbox, registry
      ensures registry.users == old(registry.users) - {sid}
      ensures sid !in old(registry.users) ==>
                registry.onlineUsernames == old(registry.onlineUsernames) && outbox == old(outbox)
      ensures sid in old(registry.users) ==>
                var name := old(registry.users)[sid].username;
                && registry.onlineUsernames == old(registry.onlineUsernames) - {name}
                && outbox == old(outbox) + [ToAll(UserLeft(name)), ToAll(OnlineUsers(registry.onlineUsernames))]
      ensures old(registry.Valid()) ==> registry.Valid()
    {
      var name := registry.Evict(sid);
      if name.Some? {
        outbox := outbox + [ToAll(UserLeft(name.value)), ToAll(OnlineUsers(registry.onlineUsernames))];
      }
    }

    /** `POST /register`: 400 on a missing field, 403 on an unusable code
        before any user exists, 500 when hashing or the insert fails, 409 on
        a taken name; on 201 the user exists and the code has one use more,
        unless that last update failed, which still answers 201. */
    method Register(username: Option<string>, password: Option<string>, code: Option<string>, salt: nat,
                    lookupFails: bool, registerFails: bool, decrementFails: bool)
      returns (status: int)
      requires store.Valid()
      modifies store`users, store`codes
      ensures store.Valid()
      ensures !(Present(username) && Present(password) && Present(code)) ==> status == StatusBadRequest
      ensures Present(username) && Present(password) && Present(code) ==>
                if !CodeUsable(lookupFails, old(store.GetInvitationCode(code.value))) then status == StatusForbidden
                else if registerFails then status == StatusServerError
                else if username.value in old(store.users) then status == StatusConflict
                else
                  && status == StatusCreated
                  && store.users == old(store.users)[username.value := UserRow(HashPassword(password.value, salt), false)]
                  && store.codes == if decrementFails then old(store.codes)
                                    else old(store.codes)[code.value := Consume(old(store.codes)[code.value]).value]
      ensures status != StatusCreated ==> store.users == old(store.users) && store.codes == old(store.codes)
    {
      if !(Present(username) && Present(password) && Present(code)) {
        return StatusBadRequest;
      }
      var entry := store.GetInvitationCode(code.value);
      if !CodeUsable(lookupFails, entry) {
        return StatusForbidden;
      }
      if registerFails {
        return StatusServerError;
      }
      var created := store.RegisterUser(username.value, password.value, false, salt);
      if !created {
        return StatusConflict;
      }
      if !decrementFails {
        var _ := store.DecrementInvitationCodeUses(code.value);
      }
      status := StatusCreated;
    }

    /** `POST /change-password`: signed-in user, both fields, the old
        password must match; the new hash replaces the old one. */
    method ChangePassword(header: Option<AuthHeader>, now: int, oldPassword: Option<string>,
                          newPassword: Option<string>, salt: nat,
                          verifyFails: bool, hashFails: bool, updateFails: bool)
      returns (status: int)
      modifies store`users
      ensures Authenticate(header, secret, now).Failure? ==> status == Authenticate(header, secret, now).error
      ensures Authenticate(header, secret, now).Success? ==>
                var user := Authenticate(header, secret, now).value.username;
                if !(Present(oldPassword) && Present(newPassword)) then status == StatusBadRequest
                else if verifyFails then status == StatusServerError
                else if old(store.VerifyUser(user, oldPassword.value)).None? then status == StatusUnauthorized
                else if hashFails || updateFails then status == StatusServerError
                else
                  && status == StatusOk
                  && store.users == old(store.users)[user := UserRow(HashPassword(newPassword.value, salt),
                                                                     old(store.users)[user].isAdmin)]
      ensures status != StatusOk ==> store.users == old(store.users)
    {
      var auth := Authenticate(header, secret, now);
      if auth.Failure? {
        return auth.error;
      }
      var user := auth.value.username;
      if !(Present(oldPassword) && Present(newPassword)) {
        return StatusBadRequest;
      }
      if verifyFails {
        return StatusServerError;
      }
      if store.VerifyUser(user, oldPassword.value).None? {
        return StatusUnauthorized;
      }
      if hashFails || updateFails {
        return StatusServerError;
      }
      var changed := store.UpdateUserPassword(user, HashPassword(newPassword.value, salt));
      if !changed {
        return StatusServerError;
      }
      status := StatusOk;
    }

    /** `GET /scores/:timeframe`: 500 on an unknown timeframe or a failed query. */
    function Scores(header: Option<AuthHeader>, now: int, timeframe: string, starts: Leaderboard.WindowStarts,
                    queryFails: bool)
      : (r: Result<seq<Leaderboard.ScoreRow>, int>)
      reads this, store
      ensures Authenticate(header, secret, now).Failure? ==> r == Failure(Authenticate(header, secret, now).error)
      ensures (Authenticate(header, secret, now).Success? && (queryFails || timeframe !in {"daily", "weekly", "monthly"}))
                ==> r == Failure(StatusServerError)
      ensures (Authenticate(header, secret, now).Success? && !queryFails && timeframe in {"daily", "weekly", "monthly"})
                ==> r == Success(Leaderboard.TopScores(store.scores,
                                   Leaderboard.WindowStart(Leaderboard.ParseTimeframe(timeframe).value, starts)))
      ensures r.Success? ==> |r.value| <= Leaderboard.TopLimit && Leaderboard.Descending(r.value)
    {
      match Authenticate(header, secret, now)
      case Failure(status) => Failure(status)
      case Success(_) =>
        if queryFails then Failure(StatusServerError)
        else match store.GetLeaderboard(timeframe, starts)
        case Failure(_) => Failure(StatusServerError)
        case Success(rows) => Success(rows)
    }

    /** `POST /admin/mute`: the status event is emitted only after the store
        reports a change; unmuting a user who is not muted answers 500. */
    method SetMute(header: Option<AuthHeader>, now: int, username: Option<string>, mute: Option<bool>,
                   storeFails: bool)
      returns (status: int)
      modifies this`outbox, store`muted
      ensures AuthorizeAdmin(header, secret, now).Failure? ==> status == AuthorizeAdmin(header, secret, now).error
      ensures AuthorizeAdmin(header, secret, now).Success? ==>
                if !Present(username) || mute.None? then status == StatusBadRequest
                else if storeFails then status == StatusServerError
                else if mute.value then
                  && status == StatusOk
                  && store.muted == old(store.muted) + {username.value}
                  && outbox == old(outbox) + [ToAll(UserMutedStatus(username.value, true))]
                else if username.value !in old(store.muted) then status == StatusServerError
                else
                  && status == StatusOk
                  && store.muted == old(store.muted) - {username.value}
                  && outbox == old(outbox) + [ToAll(UserMutedStatus(username.value, false))]
      ensures status != StatusOk ==> store.muted == old(store.muted) && outbox == old(outbox)
    {
      var auth := AuthorizeAdmin(header, secret, now);
      if auth.Failure? {
        return auth.error;
      }
      if !Present(username) || mute.None? {
        return StatusBadRequest;
      }
      if storeFails {
        return StatusServerError;
      }
      var changed;
      if mute.value {
        changed := store.MuteUser(username.value);
      } else {
        changed := store.UnmuteUser(username.value);
      }
      if !changed {
        return StatusServerError;
      }
      outbox := outbox + [ToAll(UserMutedStatus(username.value, mute.value))];
      status := StatusOk;
    }

    /** `POST /admin/set-admin`: the initial admin is never demoted (403,
        store untouched); the status event follows a successful update. */
    method SetAdmin(header: Option<AuthHeader>, now: int, username: Option<string>, isAdmin: Option<bool>,
                    storeFails: bool)
      returns (status: int)
      modifies this`outbox, store`users
      ensures AuthorizeAdmin(header, secret, now).Failure? ==> status == AuthorizeAdmin(header, secret, now).error
      ensures AuthorizeAdmin(header, secret, now).Success? ==>
                if !Present(username) || isAdmin.None? then status == StatusBadRequest
                else if DemotesInitialAdmin(initialAdmin, username.value, isAdmin.value) then status == StatusForbidden
                else if storeFails || username.value !in old(store.users) then status == StatusServerError
                else
                  && status == StatusOk
                  && store.users == old(store.users)[username.value :=
                                      UserRow(old(store.users)[username.value].password, isAdmin.value)]
                  && outbox == old(outbox) + [ToAll(UserAdminStatus(username.value, isAdmin.value))]
      ensures status != StatusOk ==> store.users == old(store.users) && outbox == old(outbox)
      ensures (initialAdmin in old(store.users) && old(store.users)[initialAdmin].isAdmin)
                ==> initialAdmin in store.users && store.users[initialAdmin].isAdmin
    {
      var auth := AuthorizeAdmin(header, secret, now);
      if auth.Failure? {
        return auth.error;
      }
      if !Present(username) || isAdmin.None? {
        return StatusBadRequest;
      }
      if DemotesInitialAdmin(initialAdmin, username.value, isAdmin.value) {
        return StatusForbidden;
      }
      if storeFails {
        return StatusServerError;
      }
      var changed := store.UpdateUserAdminStatus(username.value, isAdmin.value);
      if !changed {
        return StatusServerError;
      }
      outbox := outbox + [ToAll(UserAdminStatus(username.value, isAdmin.value))];
      status := StatusOk;
    }

    /** `POST /admin/invitation-codes`: a new code with no uses, 409 when
        it exists already. */
    method AddInvitationCode(header: Option<AuthHeader>, now: int, code: Option<string>, maxUses: Option<int>,
                             storeFails: bool)
      returns (status: int)
      requires store.Valid()
      modifies store`codes
      ensures store.Valid()
      ensures AuthorizeAdmin(header, secret, now).Failure? ==> status == AuthorizeAdmin(header, secret, now).error
      ensures AuthorizeAdmin(header, secret, now).Success? ==>
                if !ValidCodeRequest(code, maxUses) then status == StatusBadRequest
                else if storeFails then status == StatusServerError
                else if code.value in old(store.codes) then status == StatusConflict
                else status == StatusCreated && store.codes == old(store.codes)[code.value := CodeRow(maxUses.value, 0)]
      ensures status != StatusCreated ==> store.codes == old(store.codes)
    {
      var auth := AuthorizeAdmin(header, secret, now);
      if auth.Failure? {
        return auth.error;
      }
      if !ValidCodeRequest(code, maxUses) {
        return StatusBadRequest;
      }
      if storeFails {
        return StatusServerError;
      }
      var added := store.AddInvitationCode(code.value, maxUses.value);
      if !added {
        return StatusConflict;
      }
      status := StatusCreated;
    }

    /** `pluginApi.sendMessage`: a broadcast that is not saved.  An omitted
        author is `'System'`, an omitted mention list `[]`, and an omitted
        file URL or quote is null. */
    method PluginSendMessage(message: Option<string>, username: Option<string>, fileUrl: Option<string>,
                             quoted: Option<Quote>, mentions: Option<seq<string>>, now: int)
      modifies this`outbox
      ensures outbox == old(outbox) + [ToAll(ChatBroadcast(ChatPayload(
                username.GetOr(SystemAuthor), message, fileUrl, now, quoted, Some(mentions.GetOr([])))))]
    {
      outbox := outbox + [ToAll(ChatBroadcast(ChatPayload(
        username.GetOr(SystemAuthor), message, fileUrl, now, quoted, Some(mentions.GetOr([])))))];
    }

    /** `pluginApi.muteUser` / `pluginApi.unmuteUser`: the store's answer is
        returned, and the status event is emitted only when it is true. */
    method PluginSetMuted(username: string, mute: bool, storeFails: bool) returns (r: Result<bool, string>)
      modifies this`outbox, store`muted
      ensures storeFails ==> r.Failure? && store.muted == old(store.muted) && outbox == old(outbox)
      ensures !storeFails ==> r == Success(mute || username in old(store.muted))
      ensures !storeFails ==> store.muted == if mute then old(store.muted) + {username} else old(store.muted) - {username}
      ensures outbox == if r == Success(true) then old(outbox) + [ToAll(UserMutedStatus(username, mute))] else old(outbox)
    {
      if storeFails {
        return Failure("store error");
      }
      var changed;
      if mute {
        changed := store.MuteUser(username);
      } else {
        changed := store.UnmuteUser(username);
      }
      if changed {
        outbox := outbox + [ToAll(UserMutedStatus(username, mute))];
      }
      r := Success(changed);
    }

    /** `GET /admin/plugins`. */
    function PluginsRoute(header: Option<AuthHeader>, now: int): (r: Result<seq<PluginInfo>, int>)
      reads this
      ensures AuthorizeAdmin(header, secret, now).Failure? ==> r == Failure(AuthorizeAdmin(header, secret, now).error)
      ensures AuthorizeAdmin(header, secret, now).Success? ==> r == Success(ListPlugins(plugins))
      ensures r.Success? ==> |r.value| == |plugins| && forall i :: 0 <= i < |r.value| ==> r.value[i].name == plugins[i].name
    {
      match AuthorizeAdmin(header, secret, now)
      case Failure(status) => Failure(status)
      case Success(_) => Success(ListPlugins(plugins))
    }

    /** `cleanupImages`: list the old image files (to unlink) at `pathsNow`,
        then delete the old image rows at `deleteNow`.  A failed listing
        deletes nothing; a failed delete leaves the rows whose files were
        already unlinked. */
    method CleanupImages(pathsNow: int, deleteNow: int, pathsFail: bool, deleteFails: bool)
      returns (unlinked: seq<string>)
      requires store.Valid()
      modifies store`messages
      ensures store.Valid()
      ensures pathsFail ==> unlinked == [] && store.messages == old(store.messages)
      ensures !pathsFail ==> unlinked == old(store.GetOldImageFilePaths(pathsNow))
      ensures !pathsFail && !deleteFails ==> store.messages == Survivors(old(store.messages), SweepCutoff(deleteNow))
      ensures deleteFails ==> store.messages == old(store.messages)
      ensures !pathsFail && !deleteFails && pathsNow <= deleteNow ==>
                forall m :: m in old(store.messages) && OldImage(m, SweepCutoff(pathsNow)) ==> m !in store.messages
    {
      if pathsFail {
        return [];
      }
      unlinked := store.GetOldImageFilePaths(pathsNow);
      if !deleteFails {
        var _ := store.DeleteOldImageMessages(deleteNow);
      }
    }
  }
}
