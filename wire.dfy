/** What travels between the server and its clients: the `chat message`
    request, the callback replies and the events the server emits. */
module Wire {
  import opened Wrappers
  import opened Credentials
  import opened Tables
  import Presence

  /** `messageData` of the `chat message` event; a missing or empty token is None. */
  datatype ChatRequest = ChatRequest(
    token: Option<Token>,
    text: Option<string>,
    fileUrl: Option<string>,
    quoted: Option<Quote>,
    mentions: Option<seq<string>>)

  /** The broadcast `chat message` payload. */
  datatype ChatPayload = ChatPayload(
    username: string,
    message: Option<string>,
    fileUrl: Option<string>,
    timestamp: int,
    quoted: Option<Quote>,
    mentions: Option<seq<string>>)

  datatype ServerEvent =
    | UserJoined(joined: string)
    | UserLeft(left: string)
    | OnlineUsers(online: set<string>)
    | ChatBroadcast(payload: ChatPayload)
    | HistoryMessages(history: seq<StoredMessage>)
    | UserMutedStatus(mutedUser: string, isMuted: bool)
    | UserAdminStatus(adminUser: string, isAdmin: bool)

  /** `io.emit` reaches every connection; `socket.emit` one. */
  datatype Emission = ToAll(event: ServerEvent) | ToSocket(sid: Presence.SocketId, event: ServerEvent)

  /** Why a socket login or a chat message is refused; `Muted` is the one
      reply that carries `isMuted: true`. */
  datatype Rejection =
    | NoToken
    | InvalidToken
    | AlreadyOnline
    | LoginFailed
    | BadCredentials
    | NotOnline
    | SendFailed
    | Muted

  datatype ChatReply = ChatAccepted | ChatRejected(reason: Rejection) {
    predicate IsMuted() { ChatRejected? && reason == Muted }
  }

  /** The `login` / `reconnect_login` callback; only `login` carries a token. */
  datatype LoginReply =
    | LoggedIn(username: string, isAdmin: bool, token: Option<Token>)
    | LoginRejected(reason: Rejection)
}
