/** Rows of the SQLite tables and the pure row-level logic of database.js:
    how a message is encoded on save and decoded on read, and which rows the
    seven-day image sweep selects. */
module Tables {
  import opened Wrappers
  import opened Credentials

  /** A row of `users`, keyed by its unique username. */
  datatype UserRow = UserRow(password: PasswordHash, isAdmin: bool)

  /** What `verifyUser` hands back on success. */
  datatype VerifiedUser = VerifiedUser(username: string, isAdmin: bool)

  /** The quoted-message snapshot a client attaches: a value, not a reference. */
  datatype Quote = Quote(username: string, text: string)

  /** A row of `messages`. The two JSON columns hold `null` (None) or the
      serialised value; serialising and parsing back is taken as the identity. */
  datatype MessageRow = MessageRow(
    username: string,
    text: Option<string>,
    fileUrl: Option<string>,
    quotedJson: Option<Quote>,
    mentionsJson: Option<seq<string>>,
    timestamp: int)

  /** A message as `getRecentMessages` returns it, JSON columns parsed. */
  datatype StoredMessage = StoredMessage(
    username: string,
    text: Option<string>,
    fileUrl: Option<string>,
    quoted: Option<Quote>,
    mentions: seq<string>,
    timestamp: int)

  /** A row of `invitation_codes`, keyed by its unique code. */
  datatype CodeRow = CodeRow(maxUses: int, currentUses: int)

  /** A row of `user_scores`: one per accepted chat message. */
  datatype SpeechRecord = SpeechRecord(username: string, timestamp: int)

  /** `mentions && mentions.length > 0 ? JSON.stringify(mentions) : null` */
  function EncodeMentions(mentions: Option<seq<string>>): (j: Option<seq<string>>)
    ensures j.Some? ==> |j.value| > 0
    ensures j.None? <==> mentions.None? || mentions.value == []
    ensures j.Some? ==> j == mentions
  {
    if mentions.Some? && |mentions.value| > 0 then mentions else None
  }

  /** `row.mentions ? JSON.parse(row.mentions) : []` */
  function DecodeMentions(j: Option<seq<string>>): seq<string> {
    j.GetOr([])
  }

  /** The row `saveMessage` inserts at time `now`. */
  function EncodeRow(username: string, text: Option<string>, fileUrl: Option<string>,
                     quoted: Option<Quote>, mentions: Option<seq<string>>, now: int): MessageRow
  {
    MessageRow(username, text, fileUrl, quoted, EncodeMentions(mentions), now)
  }

  /** One row of `getRecentMessages`' result. */
  function ReadRow(row: MessageRow): StoredMessage {
    StoredMessage(row.username, row.text, row.fileUrl, row.quotedJson,
                  DecodeMentions(row.mentionsJson), row.timestamp)
  }

  /** Saving then reading back gives the same author, text, file and quote;
      mentions come back as sent, and absent mentions come back as `[]`. */
  lemma SaveReadRoundTrip(username: string, text: Option<string>, fileUrl: Option<string>,
                          quoted: Option<Quote>, mentions: Option<seq<string>>, now: int)
    ensures ReadRow(EncodeRow(username, text, fileUrl, quoted, mentions, now))
         == StoredMessage(username, text, fileUrl, quoted, mentions.GetOr([]), now)
  {
  }

  /** Seven days in milliseconds. */
  const RetentionMs: int := 7 * 24 * 60 * 60 * 1000

  /** `new Date(Date.now() - 7 * 24 * 60 * 60 * 1000)` */
  function SweepCutoff(now: int): int {
    now - RetentionMs
  }

  /** `file_url IS NOT NULL AND timestamp < cutoff` */
  predicate OldImage(m: MessageRow, cutoff: int) {
    m.fileUrl.Some? && m.timestamp < cutoff
  }

  /** The rows `DELETE FROM messages WHERE <OldImage>` leaves, in order. */
  function Survivors(ms: seq<MessageRow>, cutoff: int): (r: seq<MessageRow>)
    ensures |r| <= |ms|
  {
    if ms == [] then []
    else if OldImage(ms[|ms| - 1], cutoff) then Survivors(ms[..|ms| - 1], cutoff)
    else Survivors(ms[..|ms| - 1], cutoff) + [ms[|ms| - 1]]
  }

  /** The `file_url`s of the rows the sweep selects, in order. */
  function OldImagePaths(ms: seq<MessageRow>, cutoff: int): (r: seq<string>)
    ensures |r| <= |ms|
  {
    if ms == [] then []
    else if OldImage(ms[|ms| - 1], cutoff)
    then OldImagePaths(ms[..|ms| - 1], cutoff) + [ms[|ms| - 1].fileUrl.value]
    else OldImagePaths(ms[..|ms| - 1], cutoff)
  }

  /** The sweep keeps exactly the rows it does not select: a row without a
      file URL, or one at or after the cutoff, always survives. */
  lemma {:induction false} SurvivorsExact(ms: seq<MessageRow>, cutoff: int, m: MessageRow)
    ensures m in Survivors(ms, cutoff) <==> m in ms && !OldImage(m, cutoff)
  {
    if ms != [] {
      SurvivorsExact(ms[..|ms| - 1], cutoff, m);
      assert ms == ms[..|ms| - 1] + [ms[|ms| - 1]];
    }
  }

  /** Every selected row contributes one path and every other row survives,
      so the count the DELETE reports equals the number of paths listed. */
  lemma {:induction false} SweepPartitions(ms: seq<MessageRow>, cutoff: int)
    ensures |OldImagePaths(ms, cutoff)| + |Survivors(ms, cutoff)| == |ms|
  {
    if ms != [] {
      SweepPartitions(ms[..|ms| - 1], cutoff);
    }
  }

  /** The listed paths are exactly the file URLs of the selected rows. */
  lemma {:induction false} OldImagePathsExact(ms: seq<MessageRow>, cutoff: int, url: string)
    ensures url in OldImagePaths(ms, cutoff)
        <==> exists i :: 0 <= i < |ms| && OldImage(ms[i], cutoff) && ms[i].fileUrl == Some(url)
  {
    if ms != [] {
      var init := ms[..|ms| - 1];
      OldImagePathsExact(init, cutoff, url);
      if url in OldImagePaths(ms, cutoff) && url !in OldImagePaths(init, cutoff) {
        assert OldImage(ms[|ms| - 1], cutoff) && ms[|ms| - 1].fileUrl == Some(url);
      }
      if exists i :: 0 <= i < |ms| && OldImage(ms[i], cutoff) && ms[i].fileUrl == Some(url) {
        var i :| 0 <= i < |ms| && OldImage(ms[i], cutoff) && ms[i].fileUrl == Some(url);
        if i < |init| {
          assert init[i] == ms[i];
        }
      }
    }
  }

  /** Rows in non-decreasing timestamp order (insertion order under a clock
      that does not run backwards). */
  predicate Chronological(ms: seq<MessageRow>) {
    forall i, j :: 0 <= i < j < |ms| ==> ms[i].timestamp <= ms[j].timestamp
  }

  /** Every survivor was a row of the input, and the sweep keeps their order. */
  lemma {:induction false} SurvivorsChronological(ms: seq<MessageRow>, cutoff: int)
    requires Chronological(ms)
    ensures Chronological(Survivors(ms, cutoff))
  {
    if ms != [] {
      var init := ms[..|ms| - 1];
      SurvivorsChronological(init, cutoff);
      var s := Survivors(init, cutoff);
      forall m | m in s ensures m.timestamp <= ms[|ms| - 1].timestamp {
        SurvivorsExact(init, cutoff, m);
      }
    }
  }
}
