/** The persistent store of database.js, as in-memory tables owned by one
    object.  Each mutator is one SQL statement and changes only its table;
    each query is a function of the tables. */
module Store {
  import opened Wrappers
  import opened Credentials
  import opened Tables
  import Leaderboard

  /** `current_uses` never exceeds `max_uses` once a code has been used. */
  predicate CodeBounded(row: CodeRow) {
    0 <= row.currentUses && (row.currentUses == 0 || row.currentUses <= row.maxUses)
  }

  /** `UPDATE invitation_codes SET current_uses = current_uses + 1
      WHERE code = ? AND current_uses < max_uses` on one row. */
  function Consume(row: CodeRow): (r: Option<CodeRow>)
    ensures r.Some? <==> row.currentUses < row.maxUses
    ensures r.Some? ==> r.value.maxUses == row.maxUses && r.value.currentUses == row.currentUses + 1
    ensures CodeBounded(row) && r.Some? ==> CodeBounded(r.value) && r.value.currentUses <= r.value.maxUses
  {
    if row.currentUses < row.maxUses then Some(CodeRow(row.maxUses, row.currentUses + 1)) else None
  }

  /** `n` consumption attempts in a row: the final row and how many succeeded. */
  function ConsumeTimes(row: CodeRow, n: nat): (CodeRow, nat) {
    if n == 0 then (row, 0)
    else
      var (r, k) := ConsumeTimes(row, n - 1);
      match Consume(r)
      case Some(r') => (r', k + 1)
      case None => (r, k)
  }

  function Remaining(row: CodeRow): nat {
    if row.currentUses < row.maxUses then row.maxUses - row.currentUses else 0
  }

  /** Of `n` registrations against a code with `k` uses left, exactly
      `min(n, k)` consume it, and it is never used beyond its limit. */
  lemma {:induction false} ConsumeTimesBounded(row: CodeRow, n: nat)
    requires CodeBounded(row)
    ensures ConsumeTimes(row, n).1 == if n <= Remaining(row) then n else Remaining(row)
    ensures ConsumeTimes(row, n).0.maxUses == row.maxUses
    ensures ConsumeTimes(row, n).0.currentUses == row.currentUses + ConsumeTimes(row, n).1
    ensures CodeBounded(ConsumeTimes(row, n).0)
  {
    if n > 0 {
      ConsumeTimesBounded(row, n - 1);
    }
  }

  class ChatStore {
    /** `users`, keyed by username (UNIQUE). */
    var users: map<string, UserRow>
    /** `messages`, in insertion order. */
    var messages: seq<MessageRow>
    /** `invitation_codes`, keyed by code (UNIQUE). */
    var codes: map<string, CodeRow>
    /** `muted_users`: a row exists exactly for the muted usernames. */
    var muted: set<string>
    /** `user_scores`, in insertion order. */
    var scores: seq<SpeechRecord>

    ghost predicate Valid()
      reads this
    {
      && Chronological(messages)
      && forall c :: c in codes ==> CodeBounded(codes[c])
    }

    /** The time `now` is no earlier than any stored message. */
    predicate ClockNotBehind(now: int)
      reads this
    {
      forall i :: 0 <= i < |messages| ==> messages[i].timestamp <= now
    }

    constructor ()
      ensures Valid()
      ensures users == map[] && messages == [] && codes == map[] && muted == {} && scores == []
    {
      users, messages, codes, muted, scores := map[], [], map[], {}, [];
    }

    // ----- users -----

    /** `registerUser`: the INSERT fails on an existing username. */
    method RegisterUser(username: string, password: string, isAdmin: bool, salt: nat) returns (created: bool)
      modifies this`users
      ensures created <==> username !in old(users)
      ensures users == if created then old(users)[username := UserRow(HashPassword(password, salt), isAdmin)]
                       else old(users)
    {
      created := username !in users;
      if created {
        users := users[username := UserRow(HashPassword(password, salt), isAdmin)];
      }
    }

    /** `verifyUser`: false for an unknown user or a wrong password. */
    function VerifyUser(username: string, password: string): (r: Option<VerifiedUser>)
      reads this
      ensures r.Some? <==> username in users && ComparePassword(password, users[username].password)
      ensures r.Some? ==> r.value == VerifiedUser(username, users[username].isAdmin)
    {
      if username !in users then None
      else if ComparePassword(password, users[username].password)
      then Some(VerifiedUser(username, users[username].isAdmin))
      else None
    }

    /** `updateUserPassword`: true iff a row has that username. */
    method UpdateUserPassword(username: string, hash: PasswordHash) returns (changed: bool)
      modifies this`users
      ensures changed <==> username in old(users)
      ensures users == if changed then old(users)[username := UserRow(hash, old(users)[username].isAdmin)]
                       else old(users)
    {
      changed := username in users;
      if changed {
        users := users[username := UserRow(hash, users[username].isAdmin)];
      }
    }

    /** `updateUserAdminStatus`: true iff a row has that username. */
    method UpdateUserAdminStatus(username: string, isAdmin: bool) returns (changed: bool)
      modifies this`users
      ensures changed <==> username in old(users)
      ensures users == if changed then old(users)[username := UserRow(old(users)[username].password, isAdmin)]
                       else old(users)
    {
      changed := username in users;
      if changed {
        users := users[username := UserRow(users[username].password, isAdmin)];
      }
    }

    // ----- messages -----

    /** `saveMessage` at time `now`; the returned row is what the handler broadcasts. */
    method SaveMessage(username: string, text: Option<string>, fileUrl: Option<string>,
                       quoted: Option<Quote>, mentions: Option<seq<string>>, now: int)
      returns (saved: MessageRow)
      requires Valid() && ClockNotBehind(now)
      modifies this`messages
      ensures Valid()
      ensures saved == EncodeRow(username, text, fileUrl, quoted, mentions, now)
      ensures messages == old(messages) + [saved]
    {
      saved := EncodeRow(username, text, fileUrl, quoted, mentions, now);
      messages := messages + [saved];
    }

    /** `recordUserSpeech` at time `now`. */
    method RecordUserSpeech(username: string, now: int)
      modifies this`scores
      ensures scores == old(scores) + [SpeechRecord(username, now)]
    {
      scores := scores + [SpeechRecord(username, now)];
    }

    /** How many rows `LIMIT limit` keeps; SQLite reads a negative limit as none. */
    function LimitCount(limit: int): (n: nat)
      reads this
      ensures n <= |messages|
    {
      if limit < 0 || limit >= |messages| then |messages| else limit
    }

    /** `getRecentMessages(limit)`: the newest rows (`ORDER BY timestamp DESC
        LIMIT ?`), then reversed into chronological order, JSON parsed. */
    function GetRecentMessages(limit: int): (r: seq<StoredMessage>)
      reads this
      ensures |r| <= |messages|
      ensures 0 <= limit ==> |r| == if limit <= |messages| then limit else |messages|
      ensures limit < 0 ==> |r| == |messages|
      ensures forall i :: 0 <= i < |r| ==> r[i] == ReadRow(messages[|messages| - |r| + i])
      ensures Valid() ==> forall i, j :: 0 <= i < j < |r| ==> r[i].timestamp <= r[j].timestamp
      ensures Valid() ==> forall i, k :: 0 <= i < |messages| - |r| && 0 <= k < |r|
                            ==> messages[i].timestamp <= r[k].timestamp
    {
      var n := LimitCount(limit);
      var ms := messages;
      seq(n, k requires 0 <= k < n => ReadRow(ms[|ms| - n + k]))
    }

    // ----- invitation codes -----

    /** `addInvitationCode`: a new code starts unused; the INSERT fails on an existing code. */
    method AddInvitationCode(code: string, maxUses: int) returns (added: bool)
      requires Valid()
      modifies this`codes
      ensures Valid()
      ensures added <==> code !in old(codes)
      ensures codes == if added then old(codes)[code := CodeRow(maxUses, 0)] else old(codes)
    {
      added := code !in codes;
      if added {
        codes := codes[code := CodeRow(maxUses, 0)];
      }
    }

    /** `getInvitationCode`. */
    function GetInvitationCode(code: string): (r: Option<CodeRow>)
      reads this
      ensures r.Some? <==> code in codes
      ensures r.Some? ==> r.value == codes[code]
    {
      if code in codes then Some(codes[code]) else None
    }

    /** `decrementInvitationCodeUses` (which in fact increments): one more
        use, and only while uses remain. */
    method DecrementInvitationCodeUses(code: string) returns (changed: bool)
      requires Valid()
      modifies this`codes
      ensures Valid()
      ensures changed <==> code in old(codes) && old(codes)[code].currentUses < old(codes)[code].maxUses
      ensures codes == if changed then old(codes)[code := Consume(old(codes)[code]).value] else old(codes)
    {
      changed := false;
      if code in codes {
        match Consume(codes[code])
        case Some(row) =>
          codes := codes[code := row];
          changed := true;
        case None =>
      }
    }

    // ----- mute flags -----

    /** `muteUser`: INSERT OR REPLACE always changes one row. */
    method MuteUser(username: string) returns (changed: bool)
      modifies this`muted
      ensures changed
      ensures muted == old(muted) + {username}
    {
      muted := muted + {username};
      changed := true;
    }

    /** `unmuteUser`: true iff a row was deleted. */
    method UnmuteUser(username: string) returns (changed: bool)
      modifies this`muted
      ensures changed <==> username in old(muted)
      ensures muted == old(muted) - {username}
    {
      changed := username in muted;
      muted := muted - {username};
    }

    /** `isUserMuted`. */
    predicate IsUserMuted(username: string): (r: bool)
      reads this
      ensures r <==> username in muted
    {
      username in muted
    }

    // ----- leaderboard -----

    /** `getLeaderboard(timeframe)` over `user_scores`. */
    function GetLeaderboard(timeframe: string, starts: Leaderboard.WindowStarts)
      : Result<seq<Leaderboard.ScoreRow>, string>
      reads this
    {
      Leaderboard.GetLeaderboard(timeframe, starts, scores)
    }

    // ----- seven-day image sweep -----

    /** `getOldImageFilePaths` at time `now`. */
    function GetOldImageFilePaths(now: int): seq<string>
      reads this
    {
      OldImagePaths(messages, SweepCutoff(now))
    }

    /** `deleteOldImageMessages` at time `now`; returns the number of rows deleted. */
    method DeleteOldImageMessages(now: int) returns (changes: nat)
      requires Valid()
      modifies this`messages
      ensures Valid()
      ensures messages == Survivors(old(messages), SweepCutoff(now))
      ensures forall m :: m in messages <==> m in old(messages) && !OldImage(m, SweepCutoff(now))
      ensures changes == |OldImagePaths(old(messages), SweepCutoff(now))|
      ensures changes == |old(messages)| - |messages|
    {
      var cutoff := SweepCutoff(now);
      SurvivorsChronological(messages, cutoff);
      SweepPartitions(messages, cutoff);
      forall m ensures m in Survivors(messages, cutoff) <==> m in messages && !OldImage(m, cutoff) {
        SurvivorsExact(messages, cutoff, m);
      }
      changes := |messages| - |Survivors(messages, cutoff)|;
      messages := Survivors(messages, cutoff);
    }
  }
}
