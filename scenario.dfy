/** A client of the server model: the registration, login, chat and mute
    sequence, checked from the handlers' contracts alone. */
module Scenario {
  import opened Wrappers
  import opened Credentials
  import opened Tables
  import opened Wire
  import opened Gates
  import opened Presence
  import opened Store
  import opened Server

  /** A one-use invitation code admits one registration and refuses the next. */
  method OneUseInvitation(now: int) returns (server: ChatServer)
    ensures server.Valid() && server.plugins == [] && server.registry.users == map[]
    ensures server.store.messages == [] && server.store.muted == {}
    ensures server.store.VerifyUser("carol", "pw") == Some(VerifiedUser("carol", false))
    ensures server.initialAdmin == "admin" && server.secret == "secret"
  {
    server := new ChatServer("admin", "adminpass", "secret", 1, [], false);
    var admin := Some(AuthHeader("Bearer", Some(Sign(Claims("admin", true), "secret", now))));

    var status := server.AddInvitationCode(admin, now, Some("INVITE1"), Some(1), false);
    assert status == StatusCreated;

    status := server.Register(Some("carol"), Some("pw"), Some("INVITE1"), 2, false, false, false);
    assert status == StatusCreated;
    status := server.Register(Some("dave"), Some("pw2"), Some("INVITE1"), 3, false, false, false);
    assert status == StatusForbidden;
  }

  /** A registered user logs in, is refused a second session, sends a
      message that is broadcast, is muted, and is then refused. */
  method LoginChatMute(server: ChatServer, now: int)
    requires server.Valid() && server.plugins == [] && server.registry.users == map[]
    requires server.store.messages == [] && server.store.muted == {}
    requires server.store.VerifyUser("carol", "pw") == Some(VerifiedUser("carol", false))
    requires server.initialAdmin == "admin" && server.secret == "secret"
    modifies server, server.registry, server.store
  {
    var login := server.Login("s1", "carol", "pw", now, false, false);
    assert login == LoggedIn("carol", false, Some(Sign(Claims("carol", false), "secret", now)));
    var again := server.Login("s2", "carol", "pw", now, false, false);
    assert again == LoginRejected(AlreadyOnline);

    var reply := server.ChatMessage(ChatRequest(login.token, Some("hello"), None, None, None), now, false, false, false);
    assert reply == ChatAccepted;
    assert server.outbox[|server.outbox| - 1]
        == ToAll(ChatBroadcast(ChatPayload("carol", Some("hello"), None, now, None, None)));

    var admin := Some(AuthHeader("Bearer", Some(Sign(Claims("admin", true), "secret", now))));
    var status := server.SetMute(admin, now, Some("carol"), Some(true), false);
    assert status == StatusOk;

    reply := server.ChatMessage(ChatRequest(login.token, Some("again"), None, None, None), now, false, false, false);
    assert reply.IsMuted();
    assert |server.store.messages| == 1;
  }
}
