# Chat room server: presence, message admission and store, in Dafny

This project models the core of a real-time chat server (a Node.js
`server.js` driving an SQLite `database.js`): the presence registry that maps
socket ids to sessions and keeps the set of online usernames, the `login`,
`reconnect_login`, `chat message` and `disconnect` socket handlers, the
HTTP routes for invitation-gated registration, password change, the
leaderboard and the admin operations (mute, set-admin, invitation codes,
plugin list), the plugin loader, interceptor loop and event bus, and the
store's tables with their operations. The event loop runs one handler to
completion at a time, so each handler is one method of `Server.ChatServer`.

Modules, one per component:

- `Wrappers`: `Option` and `Result`.
- `Credentials`: ideal JWT signing/verification (one-hour lifetime, whole
  seconds as `jsonwebtoken` counts them) and ideal bcrypt hashes.
- `Tables`: the row types, the mentions/quote encoding on save and decoding
  on read, and the seven-day image sweep as pure filters.
- `Leaderboard`: `GROUP BY username … ORDER BY score DESC LIMIT 10` as
  functions, with the ranking proved sorted, duplicate-free and top-10.
- `Store`: class `ChatStore` holding the five tables as maps, a set and
  sequences; one method per SQL mutation, one function per query.
- `Presence`: class `Registry` over `users: map<SocketId, Session>` and
  `onlineUsernames: set<string>`.
- `Plugins`: which plugin files `loadPlugins` keeps, the interceptor loop
  (first hook returning exactly `true` wins, throwing counts as declining),
  the admin plugin list, and class `EventBus` (`on`/`off`/`emit`).
- `Wire`: requests, replies and emitted events.
- `Gates`: `authenticateJWT`, `authorizeAdmin`, route input checks and the
  ordered rejection chain of the chat handler.
- `Server`: class `ChatServer` with every handler; `outbox` records what the
  server emits, in order.
- `Scenario`: a client that runs register, login, chat, mute and chat again
  against the handler contracts.

Store and bcrypt failures are boolean parameters of the handlers (`…Fails`),
and the clock is an integer parameter `now` in milliseconds.

One behaviour of the source is stated rather than hidden. A socket that
logs in a second time, under another name, overwrites its `users` entry
without removing the first name from `onlineUsernames` (server.js:468-469).
`Presence.Registry.Admit` keeps "at most one session per username" in every
case. It keeps "the online set equals the names with a session" only when
the socket had no session before. `Presence.SecondLoginLeavesStaleName` and
`Presence.RelogExample` prove that the second login breaks that equality.

## Model

| member | source | states |
|---|---|---|
| Credentials.Sign | server.js:466 | the token carries the user's name and admin bit, signed with the server key, expiring 3600 s after issue |
| Credentials.SignVerifyRoundTrip | server.js:498-501 | verifying a freshly signed token gives back its claims before the expiry second and nothing from then on |
| Credentials.ForeignKeyRejected | server.js:426-429 | a token signed with another key never verifies |
| Credentials.HashMatchesOnlyItsPassword | database.js:70-74 | a stored hash matches the password it was made from and no other |
| Tables.EncodeMentions | database.js:92 | mentions are stored as null exactly when absent or empty; otherwise the list is stored unchanged and is never empty |
| Tables.SaveReadRoundTrip | database.js:117-121 | a saved message reads back with the same author, text, file URL and quote, and its mentions, or `[]` when none were sent |
| Tables.SurvivorsExact | database.js:272-280 | the sweep deletes exactly the rows with a file URL older than the cutoff; rows without a file URL always survive |
| Tables.OldImagePathsExact | database.js:261-269 | the listed paths are exactly the file URLs of the rows the sweep selects |
| Tables.SweepPartitions | database.js:274-278 | selected plus surviving rows make up the table, so the deleted count equals the number of paths listed |
| Tables.SurvivorsChronological | database.js:274 | deleting rows keeps the remaining messages in timestamp order |
| Leaderboard.WindowNamesExact | database.js:215 | a username is a group exactly when it has a speech record at or after the window start; no group twice |
| Leaderboard.SortByScorePermutes | database.js:215 | the ranking is a permutation of the grouped rows: none dropped, none duplicated |
| Leaderboard.SortByScoreSpec | database.js:215 | ranking is a permutation of the rows (same multiset), ordered by descending score, and never duplicates a username |
| Leaderboard.TopScores | database.js:215 | at most 10 rows, each with the user's count in the window, descending, distinct users; any user left out has no more than the last row |
| Leaderboard.GetLeaderboard | database.js:207-238 | an unknown timeframe is an error; daily, weekly and monthly give the top scores of their window |
| Store.Consume | database.js:168 | the update applies iff current uses are below the maximum, adds exactly one use, and then uses never exceed the maximum |
| Store.ConsumeTimesBounded | database.js:167-174 | of n attempts on a code with k uses left exactly min(n, k) succeed, and the code stays within its limit |
| Store.ChatStore.constructor | database.js:12-42 | all tables start empty |
| Store.ChatStore.RegisterUser | database.js:47-59 | a new username gets a row with the hashed password and admin flag; an existing username fails and changes nothing |
| Store.ChatStore.VerifyUser | database.js:62-77 | a user is returned iff the username exists and the password matches its hash, with its admin flag |
| Store.ChatStore.UpdateUserPassword | database.js:80-87 | true iff the username exists; only that user's hash changes |
| Store.ChatStore.UpdateUserAdminStatus | database.js:137-144 | true iff the username exists; only that user's admin flag changes |
| Store.ChatStore.SaveMessage | database.js:90-99 | the encoded row is appended at time `now`, and the table stays in timestamp order |
| Store.ChatStore.RecordUserSpeech | database.js:102-109 | one speech record for the user at `now` is appended |
| Store.ChatStore.GetRecentMessages | database.js:112-124 | at most `limit` messages (all for a negative limit), namely the newest ones, oldest first, each decoded |
| Store.ChatStore.GetInvitationCode | database.js:157-164 | the code's row when the code exists, nothing otherwise |
| Store.ChatStore.AddInvitationCode | database.js:147-154 | a new code starts with no uses; an existing code fails and changes nothing |
| Store.ChatStore.DecrementInvitationCodeUses | database.js:167-174 | adds one use and returns true iff the code exists with uses left; a code with an integer limit never exceeds it |
| Store.ChatStore.MuteUser | database.js:177-184 | the user is muted afterwards, also when already muted, and the call reports a change |
| Store.ChatStore.UnmuteUser | database.js:187-194 | the user is not muted afterwards; returns false iff the user was not muted |
| Store.ChatStore.IsUserMuted | database.js:197-204 | true exactly when a mute row exists for the user |
| Store.ChatStore.DeleteOldImageMessages | database.js:272-280 | the table becomes the sweep's survivors, stays in timestamp order, and the count returned is the number of rows removed |
| Presence.Registry.constructor | server.js:15-16 | no sessions and no online names at start |
| Presence.Registry.Admit | server.js:431-436 | refused iff some session holds the name; otherwise the socket's entry is set and the name joins the online set; one session per name is always kept |
| Presence.Registry.Evict | server.js:562-572 | only this socket's entry is removed and its name leaves the online set; a socket without a session changes nothing |
| Presence.SecondLoginLeavesStaleName | server.js:468-469 | a second login on a socket that has a session leaves the old name online with no session holding it |
| Presence.RelogExample | server.js:461-469 | "alice" then "bob" on one socket: both checks pass and "alice" stays listed |
| Plugins.EnabledPlugins | server.js:395-403 | every kept plugin has a name, is enabled (unset or exactly true) and loaded without its `onLoad` throwing |
| Plugins.LoadPlugins | server.js:382-412 | the loop keeps exactly the admitted plugin files, in directory order |
| Plugins.RunInterceptors | server.js:519-532 | handled iff some plugin's hook returns exactly true; the loop stops at the first such plugin and no earlier one claimed it |
| Plugins.ListPlugins | server.js:290-295 | one entry per loaded plugin, enabled unless its flag is `false` |
| Plugins.ListedPluginsEnabled | server.js:294 | every plugin the loader keeps is listed as enabled |
| Plugins.WithoutExact | server.js:373 | `off` removes every registration of that listener and keeps every other |
| Plugins.WithoutAbsent | server.js:371-374 | removing a listener that is not registered changes nothing |
| Plugins.OnThenOff | server.js:365-374 | `on` followed by `off` of a new listener restores the list |
| Plugins.EventBus.constructor | server.js:364 | no listeners at start, and no entry under a name inherited from `Object.prototype` |
| Plugins.EventBus.On | server.js:365-370 | throws, changing nothing, iff the name is inherited from `Object.prototype`; otherwise the listener is appended to the event's list, creating it when missing |
| Plugins.EventBus.Off | server.js:371-374 | throws, changing nothing, iff the name is inherited; an unknown event is left alone; otherwise the listener is filtered out of its list |
| Plugins.EventBus.Emit | server.js:375-379 | an inherited name throws before any call; otherwise listeners are called in registration order, the first that throws ends the loop and makes `emit` throw, and without a throwing listener all are called; none for an unknown event |
| Gates.Authenticate | server.js:94-110 | 401 exactly when there is no header, 403 for a token that does not verify, otherwise the token's claims |
| Gates.AuthorizeAdmin | server.js:113-119 | admin routes pass only with a verified token whose admin bit is set |
| Gates.AdminTokenPassesUntilExpiry | server.js:113-119 | a token issued to an admin passes the admin routes until it expires, whatever the store says now |
| Gates.ChatGate | server.js:494-516 | a refusal is one of the chat handler's five reasons; an accepted author has a session and is not muted |
| Gates.ChatGateOrder | server.js:494-516 | the checks run in order: no token, then a token that does not verify, then no session, then a failed mute lookup, each refused whatever the later inputs are |
| Gates.ChatGateAccepts | server.js:494-516 | a message passes the checks iff its token verifies for a user with a session, the mute lookup works and the user is not muted; the author is the token's user |
| Gates.MutedAuthorRefused | server.js:514-516 | a muted author with a valid token and a session is always refused with the mute reason |
| Gates.ExpiredTokenRefused | server.js:498-501 | an expired token is refused as invalid before any later check |
| Gates.ChatGateIgnoresSendingSocket | server.js:503-507 | the online check accepts a valid token of a user logged in on any socket |
| Server.ChatServer.constructor | server.js:72-78 | on a new database the initial admin account exists with the admin flag, or no user at all when its registration fails; plugins are the enabled ones, nothing is online |
| Server.ChatServer.ReconnectLogin | server.js:421-450 | no token, invalid token and name already online are refused with no change; otherwise the session is added, the online list is broadcast and the history is sent to this socket only, with no join event |
| Server.ChatServer.Login | server.js:453-488 | store error, bad credentials and name already online are refused with no change; otherwise a one-hour token is issued, the session added, join and online list broadcast, then history sent to this socket |
| Server.ChatServer.ChatMessage | server.js:491-557 | rejections in order (no token, invalid token, not online, mute lookup error, muted) leave store and broadcasts untouched; a claiming plugin means success without save or broadcast; otherwise the speech record is best-effort, a save failure refuses without broadcast, and success broadcasts author, text, file URL, time, quote and mentions |
| Server.ChatServer.Disconnect | server.js:560-578 | only this socket's session is removed; its name leaves the online set and "user left" plus the online list are broadcast; a socket without a session emits nothing |
| Server.ChatServer.Register | server.js:122-151 | 400 on a missing field; 403 on an unusable code before any user is created; 500 on a hashing or insert failure; 409 on a taken name; 201 creates a non-admin user and consumes one use, and still answers 201 if that update fails |
| Server.ChatServer.ChangePassword | server.js:164-197 | the signed-in user's hash is replaced only when both fields are present and the old password matches; otherwise 400, 401 or 500 with no change |
| Server.ChatServer.Scores | server.js:200-209 | authentication first; an unknown timeframe or a failed query answers 500; otherwise daily, weekly or monthly answers the leaderboard of that window, at most 10 rows, descending |
| Server.ChatServer.SetMute | server.js:222-237 | admin only; 400 on bad input; the mute status event is emitted only after the store reports a change, and unmuting a user who is not muted answers 500 |
| Server.ChatServer.SetAdmin | server.js:257-275 | admin only; demoting the initial admin answers 403 before the store is touched, so the initial admin stays admin; the status event follows a successful update only |
| Server.ChatServer.AddInvitationCode | server.js:239-255 | admin only; 400 unless a code and a positive maximum are given; 409 on an existing code; 201 adds it with no uses |
| Server.ChatServer.PluginSendMessage | server.js:324-327 | a plugin's message is broadcast and not saved; an omitted author is "System" and omitted mentions are `[]` |
| Server.ChatServer.PluginSetMuted | server.js:337-354 | the store's answer is returned and the mute status event is emitted only when it is true |
| Server.ChatServer.PluginsRoute | server.js:289-297 | admin only; an admin gets exactly the listing of the loaded plugins, one entry per plugin in load order |
| Server.ChatServer.CleanupImages | server.js:40-64 | the listed old image files are the ones to unlink; the old image rows are deleted; a failed listing deletes nothing; every row whose file was listed is deleted when the delete runs no earlier |

## Left out

- The browser clients (`public/*.js`): rendering, `fetch`, local storage; no server logic.
- JWT and bcrypt internals: modelled as ideal signatures and hashes (a token verifies only under its key and before expiry; a hash matches only its password).
- Express and socket.io plumbing, `multer` uploads (`/upload`), static pages, the directory creation, logging and the `setInterval` timer.
- `fs.unlink` of swept images: `CleanupImages` returns the list of files the source unlinks.
- Plugin discovery from disk (`readdirSync`, `require`, cache deletion): the directory is a given sequence of files, a file whose `require` throws has no plugin.
- The plugin toggle route (`/admin/plugins/toggle`): whether its `enabled` change survives depends on Node's module cache, which is not modelled.
- Server.ChatServer.constructor: models the first start on a new database file only. On a restart the tables already exist, the start-up registration fails on the unique username and that failure is ignored, so the admin row keeps whatever hash and flag it has by then (for example a password changed through `/change-password`).
- Server.ChatServer.AddInvitationCode: `maxUses` is taken to be an integer, as the admin client's `parseInt` sends it. The route accepts any value for which `!maxUses || maxUses <= 0` is false, such as the text "abc" or 1.5. SQLite then compares the stored text or fraction with `current_uses`: a text limit never runs out and 1.5 admits two registrations.
- Store.ChatStore.DecrementInvitationCodeUses: "never exceeds its limit" holds for integer limits only, for the reason just given.
- Plugins.EventBus.Emit: the arguments passed to listeners, and listeners that call `on` or `off` while `emit` runs, are not modelled; whether a listener throws is given as a set of listeners.
- Server.ChatServer.PluginSendMessage: an explicit `null` passed for the author or the mention list is treated as omitted ("System", `[]`); in the source the default applies only to an omitted argument, and `null` is broadcast as it is.
- Plugins.RunInterceptors: side effects that a plugin hook performs through the plugin API while it runs are not modelled; only its return value is.
- `pluginApi.getOnlineUsers`, `pluginApi.getAdminUsers`, `pluginApi.isUserMuted`, `getAllUsers`, `getAllInvitationCodes` and the routes `/admin/users` and `/admin/invitation-codes-list`: plain list queries with no rule to prove. The `onLoad` hook's use of the API is not modelled.
- Calendar arithmetic for leaderboard windows: the window starts are a parameter.
- Timestamps are integers. The source compares ISO strings with SQLite's `CURRENT_TIMESTAMP` text; that text comparison is not modelled.
- Store.ChatStore.SaveMessage: requires that the clock never runs behind a stored message, so that `ORDER BY timestamp` agrees with insertion order; the order of rows with equal timestamps is left to insertion order.
- Store.ChatStore.GetRecentMessages: relies on that same assumption for "newest" and "oldest first".
- Asynchronous interleaving between handlers: each handler is one atomic step. In the source, two registrations can both pass the code check before either consumes it; the model does not capture that race.
- Server.ChatServer.ReconnectLogin: the history is placed after the online-list broadcast. In the source it is sent from a query callback that may run after other events.
- Reply texts: rejections are a reason value, not the source's message strings; JSON serialisation of quotes and mentions is taken as the identity.
- Plugin `enabled` flags are one of unset, `true`, `false` or other; `onChatMessage` returns exactly `true`, something else, or throws.
- Usernames are taken to be non-empty, as `/register` demands. `disconnect` tests the name's truthiness (server.js:571), and the model does not distinguish an empty name there.
- The row's `CURRENT_TIMESTAMP` and the `new Date()` time that `saveMessage` reports (database.js:97) are one value, `now`.
- The second `const getAllInvitationCodes` declaration (database.js:251) repeats the one at database.js:241. JavaScript refuses to redeclare a `const`, and the query it declares is a plain list with nothing to model.
