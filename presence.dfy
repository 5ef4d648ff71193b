/** The presence registry of server.js: the `users` object (socket id to
    session) and the `onlineUsernames` set, with the admission check shared
    by `login` and `reconnect_login` and the eviction done by `disconnect`. */
module Presence {
  import opened Wrappers

  type SocketId = string

  datatype Session = Session(username: string, isAdmin: bool)

  /** `Object.values(users).some(u => u.username === name)` */
  predicate HoldsName(users: map<SocketId, Session>, name: string) {
    exists sid :: sid in users && users[sid].username == name
  }

  /** The usernames that have a session. */
  function NamesOf(users: map<SocketId, Session>): set<string> {
    set sid | sid in users :: users[sid].username
  }

  /** At most one session per username. */
  predicate OneSessionPerName(users: map<SocketId, Session>) {
    forall a, b :: a in users && b in users && users[a].username == users[b].username ==> a == b
  }

  /** The two structures agree when the online set is exactly the names
      that have a session. */
  predicate Consistent(users: map<SocketId, Session>, online: set<string>) {
    online == NamesOf(users)
  }

  class Registry {
    var users: map<SocketId, Session>
    var onlineUsernames: set<string>

    ghost predicate Valid()
      reads this
    {
      OneSessionPerName(users) && Consistent(users, onlineUsernames)
    }

    constructor ()
      ensures Valid() && users == map[] && onlineUsernames == {}
    {
      users, onlineUsernames := map[], {};
    }

    /** The online check of the chat handler. */
    predicate IsOnline(name: string)
      reads this
    {
      HoldsName(users, name)
    }

    /** `login` / `reconnect_login` after authentication: refused when any
        session holds the name; otherwise `users[sid] = session` and the name
        joins the online set.  Nothing removes a name this socket held
        before, so consistency is kept only for a socket without a session. */
    method Admit(sid: SocketId, s: Session) returns (ok: bool)
      modifies this
      ensures ok <==> !old(HoldsName(users, s.username))
      ensures ok ==> users == old(users)[sid := s] && onlineUsernames == old(onlineUsernames) + {s.username}
      ensures !ok ==> users == old(users) && onlineUsernames == old(onlineUsernames)
      ensures old(OneSessionPerName(users)) ==> OneSessionPerName(users)
      ensures old(Valid()) && sid !in old(users) ==> Valid()
    {
      if HoldsName(users, s.username) {
        return false;
      }
      ghost var before := users;
      users := users[sid := s];
      onlineUsernames := onlineUsernames + {s.username};
      ok := true;
      if sid !in before && Consistent(before, old(onlineUsernames)) {
        AddedNames(before, sid, s);
      }
    }

    /** `disconnect`: the `for…in` search for this socket's entry, then the
        removal of its name from the online set. */
    method Evict(sid: SocketId) returns (name: Option<string>)
      modifies this
      ensures name == if sid in old(users) then Some(old(users)[sid].username) else None
      ensures users == old(users) - {sid}
      ensures onlineUsernames == if name.Some? then old(onlineUsernames) - {name.value} else old(onlineUsernames)
      ensures old(Valid()) ==> Valid()
    {
      name := None;
      var pending := users.Keys;
      while pending != {}
        invariant pending <= users.Keys
        invariant sid in users ==> sid in pending
        invariant users == old(users) && name == None
        decreases pending
      {
        var key :| key in pending;
        if key == sid {
          name := Some(users[key].username);
          users := users - {key};
          break;
        }
        pending := pending - {key};
      }
      if name.Some? {
        onlineUsernames := onlineUsernames - {name.value};
      }
      if old(Valid()) && name.Some? {
        RemovedNames(old(users), sid);
      }
    }
  }

  lemma AddedNames(users: map<SocketId, Session>, sid: SocketId, s: Session)
    requires sid !in users
    ensures NamesOf(users[sid := s]) == NamesOf(users) + {s.username}
  {
    var after := users[sid := s];
    forall n | n in NamesOf(users) ensures n in NamesOf(after) {
      var k :| k in users && users[k].username == n;
      assert after[k] == users[k];
    }
    assert after[sid].username == s.username;
  }

  lemma RemovedNames(users: map<SocketId, Session>, sid: SocketId)
    requires sid in users && OneSessionPerName(users)
    ensures NamesOf(users - {sid}) == NamesOf(users) - {users[sid].username}
  {
    var after := users - {sid};
    forall n | n in NamesOf(users) - {users[sid].username} ensures n in NamesOf(after) {
      var k :| k in users && users[k].username == n;
      assert k != sid && after[k] == users[k];
    }
  }

  /** A second successful login on a socket that already has a session
      (a different name, since a held name is refused) leaves the old name
      in the online set although no session holds it any more. */
  lemma {:induction false} SecondLoginLeavesStaleName(users: map<SocketId, Session>, online: set<string>,
                                                      sid: SocketId, s: Session)
    requires OneSessionPerName(users) && Consistent(users, online)
    requires sid in users && !HoldsName(users, s.username)
    ensures users[sid].username in online + {s.username}
    ensures users[sid].username !in NamesOf(users[sid := s])
    ensures !Consistent(users[sid := s], online + {s.username})
  {
    var stale := users[sid].username;
    var after := users[sid := s];
    assert stale in NamesOf(users);
    assert s.username != stale;
    forall k | k in after ensures after[k].username != stale {
      if k != sid {
        assert after[k] == users[k];
      }
    }
  }

  /** Example of that gap: "alice" logs in on socket "s1", then "bob" logs
      in on the same socket; "alice" is still listed as online. */
  lemma RelogExample()
    ensures var users := map["s1" := Session("alice", false)];
            var after := users["s1" := Session("bob", false)];
            && !HoldsName(users, "bob")
            && "alice" in NamesOf(users) + {"bob"}
            && !Consistent(after, NamesOf(users) + {"bob"})
  {
    var users := map["s1" := Session("alice", false)];
    SecondLoginLeavesStaleName(users, NamesOf(users), "s1", Session("bob", false));
  }
}
