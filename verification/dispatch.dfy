/**
  The broadcast algorithm (`broadcast_copy`): for every channel of a snapshot
  of the registry, wait out the per-channel cooldown, make up to
  SEND_RETRY_COUNT copy attempts, count Forbidden rejections and possibly
  deregister the channel, record the per-channel outcome and the send time,
  and pace before the next channel; finally append one post to the ledger.
*/
module Dispatch {
  import opened Wrappers
  import opened State
  import Registry

  // ---------------------------------------------------------------------------
  // Rate governor
  // ---------------------------------------------------------------------------

  /**
    How long to sleep before the first attempt on `ch`: the rest of the
    cooldown since its last recorded send.  A missing or zero timestamp means
    no wait (the source tests the timestamp for truth).
  */
  function CooldownWait(cooldown: int, last: map<string, int>, ch: string, now: int): (w: int)
    ensures w >= 0
    ensures ch in last && last[ch] != 0 ==> now + w >= last[ch] + cooldown
    ensures w > 0 ==> ch in last && last[ch] != 0 && now + w == last[ch] + cooldown
  {
    if ch in last && last[ch] != 0 && now - last[ch] < cooldown then cooldown - (now - last[ch]) else 0
  }

  // ---------------------------------------------------------------------------
  // The retry loop for one channel
  // ---------------------------------------------------------------------------

  /** The most send attempts one channel can take: SEND_RETRY_COUNT, or none when it is not positive. */
  function MaxAttempts(cfg: Config): nat {
    if cfg.retryCount > 0 then cfg.retryCount else 0
  }

  /** Number of Forbidden outcomes among attempts `from` .. `to - 1`. */
  function CountForbidden(reply: Transport, from: nat, to: nat): nat
    decreases to - from
  {
    if to <= from then 0
    else (if reply(from) == SendForbidden then 1 else 0) + CountForbidden(reply, from + 1, to)
  }

  /**
    What the retry loop leaves: `ch`'s Forbidden counter, whether it was
    written at all, the next attempt number, the clock, the loop's `attempt`
    variable, and how the loop ended (`success` after an ok send, `banned`
    after auto-removal).  The counter is the only entry of `forbidden_counts`
    the loop touches, and the removal happens right before it breaks, so both
    are applied to the bot once the loop is over.
  */
  datatype Tries = Tries(
    count: int,
    hit: bool,
    cursor: nat,
    clock: int,
    attempt: nat,
    success: bool,
    banned: bool)

  /** The `while attempt < SEND_RETRY_COUNT` loop, entered with `ch`'s counter at `count` and the given `attempt`. */
  function Retry(cfg: Config, reply: Transport, count: int, cursor: nat, clock: int, attempt: nat): (r: Tries)
    // at most the permitted number of attempts
    ensures cursor <= r.cursor
    ensures r.cursor - cursor <= if cfg.retryCount > attempt then cfg.retryCount - attempt else 0
    // the loop ends on success, on auto-removal, or with the attempts used up
    ensures !(r.success && r.banned)
    ensures r.banned ==> r.hit && cfg.removeOnForbidden && r.count >= cfg.forbiddenThreshold
    ensures !r.success && !r.banned ==> r.attempt >= cfg.retryCount
    // the counter only grows; the retry delays only move the clock forward
    ensures count <= r.count && clock <= r.clock
    decreases if cfg.retryCount > attempt then cfg.retryCount - attempt else 0
  {
    if attempt >= cfg.retryCount then
      Tries(count, false, cursor, clock, attempt, false, false)
    else
      match reply(cursor)
      case SendOk =>
        Tries(count, false, cursor + 1, clock, attempt, true, false)
      case SendForbidden =>
        var n := count + 1;
        if cfg.removeOnForbidden && n >= cfg.forbiddenThreshold then
          Tries(n, true, cursor + 1, clock, attempt + 1, false, true)
        else
          Retry(cfg, reply, n, cursor + 1, clock + cfg.retryDelay, attempt + 1).(hit := true)
      case SendOtherErr =>
        Retry(cfg, reply, count, cursor + 1, clock + cfg.retryDelay, attempt + 1)
  }

  /**
    How the retry loop ended, in terms of the replies: an auto-removal follows
    a Forbidden reply, and the loop variable counts every attempt except an
    accepted one.
  */
  lemma {:induction false} RetryReplies(cfg: Config, reply: Transport, count: int, cursor: nat, clock: int, attempt: nat)
    ensures var r := Retry(cfg, reply, count, cursor, clock, attempt);
            && r.attempt == attempt + (r.cursor - cursor) - (if r.success then 1 else 0)
            && (r.success ==> r.cursor > cursor)
            && (r.cursor > cursor ==> (reply(r.cursor - 1) == SendOk <==> r.success))
            && (r.banned ==> r.cursor > cursor && reply(r.cursor - 1) == SendForbidden)
    decreases if cfg.retryCount > attempt then cfg.retryCount - attempt else 0
  {
    var r := Retry(cfg, reply, count, cursor, clock, attempt);
    if attempt < cfg.retryCount && reply(cursor) != SendOk {
      var n := if reply(cursor) == SendForbidden then count + 1 else count;
      if !(reply(cursor) == SendForbidden && cfg.removeOnForbidden && n >= cfg.forbiddenThreshold) {
        var r' := Retry(cfg, reply, n, cursor + 1, clock + cfg.retryDelay, attempt + 1);
        assert r.cursor == r'.cursor && r.attempt == r'.attempt && r.success == r'.success && r.banned == r'.banned;
        RetryReplies(cfg, reply, n, cursor + 1, clock + cfg.retryDelay, attempt + 1);
      }
    }
  }

  /** The loop stops at the first accepted attempt: no attempt before the last one was accepted. */
  lemma {:induction false} RetryStopsAtOk(cfg: Config, reply: Transport, count: int, cursor: nat, clock: int, attempt: nat)
    ensures var r := Retry(cfg, reply, count, cursor, clock, attempt);
            forall j :: cursor <= j < r.cursor - 1 ==> reply(j) != SendOk
    decreases if cfg.retryCount > attempt then cfg.retryCount - attempt else 0
  {
    var r := Retry(cfg, reply, count, cursor, clock, attempt);
    if attempt < cfg.retryCount && reply(cursor) != SendOk {
      var n := if reply(cursor) == SendForbidden then count + 1 else count;
      if !(reply(cursor) == SendForbidden && cfg.removeOnForbidden && n >= cfg.forbiddenThreshold) {
        var r' := Retry(cfg, reply, n, cursor + 1, clock + cfg.retryDelay, attempt + 1);
        assert r.cursor == r'.cursor;
        RetryStopsAtOk(cfg, reply, n, cursor + 1, clock + cfg.retryDelay, attempt + 1);
      }
    }
  }

  /** The counter grows by exactly one per Forbidden reply, and is written exactly when there was one. */
  lemma {:induction false} RetryCounts(cfg: Config, reply: Transport, count: int, cursor: nat, clock: int, attempt: nat)
    ensures var r := Retry(cfg, reply, count, cursor, clock, attempt);
            && r.count == count + CountForbidden(reply, cursor, r.cursor)
            && (r.hit <==> CountForbidden(reply, cursor, r.cursor) > 0)
    decreases if cfg.retryCount > attempt then cfg.retryCount - attempt else 0
  {
    if attempt < cfg.retryCount {
      var r := Retry(cfg, reply, count, cursor, clock, attempt);
      match reply(cursor)
      case SendOk =>
        assert CountForbidden(reply, cursor + 1, r.cursor) == 0;
      case SendForbidden =>
        var n := count + 1;
        if !(cfg.removeOnForbidden && n >= cfg.forbiddenThreshold) {
          RetryCounts(cfg, reply, n, cursor + 1, clock + cfg.retryDelay, attempt + 1);
        } else {
          assert CountForbidden(reply, cursor + 1, r.cursor) == 0;
        }
      case SendOtherErr =>
        RetryCounts(cfg, reply, count, cursor + 1, clock + cfg.retryDelay, attempt + 1);
    }
  }

  /**
    Only the Forbidden reply that takes the counter to the threshold while
    auto-removal is on ends the loop: no attempt before the last one was such
    a reply.
  */
  lemma {:induction false} RetryForbiddenRetried(cfg: Config, reply: Transport, count: int, cursor: nat, clock: int, attempt: nat)
    ensures var r := Retry(cfg, reply, count, cursor, clock, attempt);
            forall j :: cursor <= j < r.cursor - 1 ==>
              !(reply(j) == SendForbidden && cfg.removeOnForbidden
                && count + CountForbidden(reply, cursor, j + 1) >= cfg.forbiddenThreshold)
    decreases if cfg.retryCount > attempt then cfg.retryCount - attempt else 0
  {
    if attempt < cfg.retryCount && reply(cursor) != SendOk {
      var f := if reply(cursor) == SendForbidden then 1 else 0;
      var n := count + f;
      if !(reply(cursor) == SendForbidden && cfg.removeOnForbidden && n >= cfg.forbiddenThreshold) {
        var r := Retry(cfg, reply, count, cursor, clock, attempt);
        var r' := Retry(cfg, reply, n, cursor + 1, clock + cfg.retryDelay, attempt + 1);
        assert r.cursor == r'.cursor;
        RetryForbiddenRetried(cfg, reply, n, cursor + 1, clock + cfg.retryDelay, attempt + 1);
        forall j | cursor <= j < r.cursor - 1
          ensures !(reply(j) == SendForbidden && cfg.removeOnForbidden
                    && count + CountForbidden(reply, cursor, j + 1) >= cfg.forbiddenThreshold)
        {
          assert CountForbidden(reply, cursor, j + 1) == f + CountForbidden(reply, cursor + 1, j + 1);
        }
      }
    }
  }

  /**
    A Forbidden reply that leaves the counter below the threshold (or comes
    while auto-removal is off) is retried like any other error: when it is the
    last reply of the loop, every permitted attempt was used.
  */
  lemma BelowThresholdRetried(cfg: Config, reply: Transport, count: int, cursor: nat, clock: int)
    ensures var r := Retry(cfg, reply, count, cursor, clock, 0);
            (r.cursor > cursor && reply(r.cursor - 1) == SendForbidden
             && !(cfg.removeOnForbidden && r.count >= cfg.forbiddenThreshold))
            ==> r.cursor - cursor == cfg.retryCount
  {
    RetryReplies(cfg, reply, count, cursor, clock, 0);
    RetryCounts(cfg, reply, count, cursor, clock, 0);
  }

  /**
    The result records the source appends for one channel: `ok` on success,
    `forbidden` on auto-removal, and `failed` whenever the loop ended without
    success with `attempt >= SEND_RETRY_COUNT` -- which includes an
    auto-removal on the last permitted attempt.
  */
  function Records(ch: string, t: Tries, retryCount: int): seq<ChannelResult> {
    (if t.success then [ChannelResult(ch, Ok)] else [])
    + (if t.banned then [ChannelResult(ch, Forbidden)] else [])
    + (if !t.success && t.attempt >= retryCount then [ChannelResult(ch, Failed)] else [])
  }

  /** The records one channel can receive. */
  predicate Group(g: seq<ChannelResult>, ch: string) {
    || g == [ChannelResult(ch, Ok)]
    || g == [ChannelResult(ch, Forbidden)]
    || g == [ChannelResult(ch, Failed)]
    || g == [ChannelResult(ch, Forbidden), ChannelResult(ch, Failed)]
  }

  /**
    `rs` is the result list of a broadcast over `snapshot`: one group per
    snapshot channel, in snapshot order.
  */
  predicate Matches(rs: seq<ChannelResult>, snapshot: seq<string>)
    decreases |snapshot|
  {
    if |snapshot| == 0 then rs == []
    else
      || (1 <= |rs| && Group(rs[..1], snapshot[0]) && Matches(rs[1..], snapshot[1..]))
      || (2 <= |rs| && Group(rs[..2], snapshot[0]) && Matches(rs[2..], snapshot[1..]))
  }

  // ---------------------------------------------------------------------------
  // One channel, and the channel loop
  // ---------------------------------------------------------------------------

  /** The state after some channels, the next attempt number, and the records appended. */
  datatype Visit = Visit(bot: Bot, cursor: nat, results: seq<ChannelResult>)

  /** Registry, posts and outbox unchanged except for auto-removals; counters only grow, and no tracked channel loses its entry. */
  ghost predicate Evolves(cfg: Config, s: Bot, s': Bot) {
    && s'.posts == s.posts
    && s'.outbox == s.outbox
    && s.clock <= s'.clock
    && multiset(s'.channels) <= multiset(s.channels)
    && (forall c :: c in s.channels && c !in s'.channels ==>
          cfg.removeOnForbidden && Get(s'.forbiddenCounts, c) >= cfg.forbiddenThreshold)
    && (forall c :: c in s.forbiddenCounts ==> c in s'.forbiddenCounts)
    && (forall c :: Get(s.forbiddenCounts, c) <= Get(s'.forbiddenCounts, c))
    && (forall c :: c in s.lastSentTimes ==> c in s'.lastSentTimes)
  }

  lemma EvolvesTransitive(cfg: Config, s1: Bot, s2: Bot, s3: Bot)
    requires Evolves(cfg, s1, s2) && Evolves(cfg, s2, s3)
    ensures Evolves(cfg, s1, s3)
  {
    forall c | c in s1.channels && c !in s3.channels
      ensures cfg.removeOnForbidden && Get(s3.forbiddenCounts, c) >= cfg.forbiddenThreshold
    {
      if c in s2.channels {
      } else {
        assert Get(s2.forbiddenCounts, c) <= Get(s3.forbiddenCounts, c);
      }
    }
  }

  /** What the records of one channel say about how its retry loop ended. */
  lemma RecordsOfRetry(cfg: Config, reply: Transport, ch: string, count: int, cursor: nat, clock: int)
    ensures var t := Retry(cfg, reply, count, cursor, clock, 0);
            var rs := Records(ch, t, cfg.retryCount);
            && Group(rs, ch)
            && (rs[0].status == Ok <==> t.success)
            && (rs[0].status == Forbidden <==> t.banned)
            && (rs == [ChannelResult(ch, Failed)] ==> t.cursor - cursor == MaxAttempts(cfg))
            && (|rs| == 2 <==> t.banned && t.cursor - cursor == cfg.retryCount)
  {
    RetryReplies(cfg, reply, count, cursor, clock, 0);
  }

  /** The cooldown-adjusted clock at which the first attempt on `ch` is made. */
  function FirstAttemptAt(cfg: Config, s: Bot, ch: string): (t: int)
    ensures s.clock <= t
    ensures ch in s.lastSentTimes && s.lastSentTimes[ch] != 0 ==> t >= s.lastSentTimes[ch] + cfg.cooldown
  {
    s.clock + CooldownWait(cfg.cooldown, s.lastSentTimes, ch, s.clock)
  }

  /** The retry loop of `ch`, started from the bot's counter after the cooldown. */
  function RetryOf(cfg: Config, reply: Transport, s: Bot, cursor: nat, ch: string): Tries {
    Retry(cfg, reply, Get(s.forbiddenCounts, ch), cursor, FirstAttemptAt(cfg, s, ch), 0)
  }

  /** One iteration of `for ch in channels`: cooldown, retries, records, send time, pacing. */
  function VisitChannel(cfg: Config, reply: Transport, s: Bot, cursor: nat, ch: string): (r: Visit)
    ensures Group(r.results, ch)
    ensures cursor <= r.cursor <= cursor + MaxAttempts(cfg)
  {
    var t := RetryOf(cfg, reply, s, cursor, ch);
    RecordsOfRetry(cfg, reply, ch, Get(s.forbiddenCounts, ch), cursor, FirstAttemptAt(cfg, s, ch));
    var bot := s.(forbiddenCounts := if t.hit then s.forbiddenCounts[ch := t.count] else s.forbiddenCounts,
                  channels := if t.banned then Registry.RemoveChannel(s.channels, ch).channels else s.channels,
                  lastSentTimes := s.lastSentTimes[ch := t.clock],
                  clock := t.clock + cfg.interSendDelay);
    Visit(bot, t.cursor, Records(ch, t, cfg.retryCount))
  }

  /**
    One channel changes the registry only by removing that channel after it
    reached the threshold, moves no Forbidden counter but its own, and (on a
    non-negative clock and cooldown) moves no send time backwards.
  */
  lemma VisitEvolves(cfg: Config, reply: Transport, s: Bot, cursor: nat, ch: string)
    ensures Evolves(cfg, s, VisitChannel(cfg, reply, s, cursor, ch).bot)
    ensures forall c :: c != ch ==> Get(VisitChannel(cfg, reply, s, cursor, ch).bot.forbiddenCounts, c) == Get(s.forbiddenCounts, c)
    // with a non-negative cooldown and clock no send time moves backwards
    ensures cfg.cooldown >= 0 && s.clock >= 0 ==>
              forall c :: c in s.lastSentTimes ==> s.lastSentTimes[c] <= VisitChannel(cfg, reply, s, cursor, ch).bot.lastSentTimes[c]
  {
    var r := VisitChannel(cfg, reply, s, cursor, ch).bot;
    var t := RetryOf(cfg, reply, s, cursor, ch);
    Registry.RemoveShrinks(s.channels, ch);
    assert multiset(r.channels) <= multiset(s.channels);
    assert forall c :: c in s.channels && c !in r.channels ==> c == ch && t.banned;
  }

  /** The cooldown was respected before the first attempt, and the send time of `ch` (only) was recorded. */
  lemma VisitTimes(cfg: Config, reply: Transport, s: Bot, cursor: nat, ch: string)
    ensures var r := VisitChannel(cfg, reply, s, cursor, ch).bot;
            && ch in r.lastSentTimes && r.lastSentTimes[ch] <= r.clock
            && (ch in s.lastSentTimes && s.lastSentTimes[ch] != 0 ==>
                  r.lastSentTimes[ch] >= s.lastSentTimes[ch] + cfg.cooldown)
            && (forall c :: c != ch ==> (c in r.lastSentTimes <==> c in s.lastSentTimes))
            && (forall c :: c != ch && c in s.lastSentTimes ==> r.lastSentTimes[c] == s.lastSentTimes[c])
  {
  }

  /** A channel gets `ok` exactly when its last attempt was accepted, and no earlier attempt was. */
  lemma VisitSucceeded(cfg: Config, reply: Transport, s: Bot, cursor: nat, ch: string)
    ensures var r := VisitChannel(cfg, reply, s, cursor, ch);
            && (r.results[0].status == Ok <==> r.cursor > cursor && reply(r.cursor - 1) == SendOk)
            && (forall j :: cursor <= j < r.cursor - 1 ==> reply(j) != SendOk)
  {
    RecordsOfRetry(cfg, reply, ch, Get(s.forbiddenCounts, ch), cursor, FirstAttemptAt(cfg, s, ch));
    RetryReplies(cfg, reply, Get(s.forbiddenCounts, ch), cursor, FirstAttemptAt(cfg, s, ch), 0);
    RetryStopsAtOk(cfg, reply, Get(s.forbiddenCounts, ch), cursor, FirstAttemptAt(cfg, s, ch), 0);
  }

  /**
    `failed` alone means every permitted attempt was made; `forbidden` means
    the last reply was Forbidden and the counter reached the threshold; both
    records appear exactly when that removal used the last permitted attempt.
  */
  lemma VisitFailed(cfg: Config, reply: Transport, s: Bot, cursor: nat, ch: string)
    ensures var r := VisitChannel(cfg, reply, s, cursor, ch);
            && (r.results == [ChannelResult(ch, Failed)] ==> r.cursor - cursor == MaxAttempts(cfg))
            && (r.results[0].status == Forbidden ==>
                  cfg.removeOnForbidden && reply(r.cursor - 1) == SendForbidden
                  && Get(r.bot.forbiddenCounts, ch) >= cfg.forbiddenThreshold)
            && (|r.results| == 2 <==> r.results[0].status == Forbidden && r.cursor - cursor == cfg.retryCount)
  {
    RecordsOfRetry(cfg, reply, ch, Get(s.forbiddenCounts, ch), cursor, FirstAttemptAt(cfg, s, ch));
    RetryReplies(cfg, reply, Get(s.forbiddenCounts, ch), cursor, FirstAttemptAt(cfg, s, ch), 0);
  }

  /**
    Auto-removal is the only change to the registry; `ch`'s counter grows by
    its Forbidden replies, and the key appears once it has seen one.
  */
  lemma VisitRegistry(cfg: Config, reply: Transport, s: Bot, cursor: nat, ch: string)
    ensures var r := VisitChannel(cfg, reply, s, cursor, ch);
            && r.bot.channels == (if r.results[0].status == Forbidden
                                  then Registry.RemoveChannel(s.channels, ch).channels else s.channels)
            && Get(r.bot.forbiddenCounts, ch) == Get(s.forbiddenCounts, ch) + CountForbidden(reply, cursor, r.cursor)
            && (ch in r.bot.forbiddenCounts <==> ch in s.forbiddenCounts || CountForbidden(reply, cursor, r.cursor) > 0)
  {
    RecordsOfRetry(cfg, reply, ch, Get(s.forbiddenCounts, ch), cursor, FirstAttemptAt(cfg, s, ch));
    RetryCounts(cfg, reply, Get(s.forbiddenCounts, ch), cursor, FirstAttemptAt(cfg, s, ch), 0);
  }

  lemma MatchesCons(g: seq<ChannelResult>, rest: seq<ChannelResult>, snapshot: seq<string>)
    requires |snapshot| > 0 && Group(g, snapshot[0]) && Matches(rest, snapshot[1..])
    ensures Matches(g + rest, snapshot)
  {
    var rs := g + rest;
    assert rs[..|g|] == g;
    assert rs[|g|..] == rest;
  }

  /** The channel loop over a snapshot of the registry. */
  function SendAll(cfg: Config, reply: Transport, s: Bot, cursor: nat, snapshot: seq<string>): (r: Visit)
    ensures Matches(r.results, snapshot)
    ensures cursor <= r.cursor <= cursor + |snapshot| * MaxAttempts(cfg)
    ensures Evolves(cfg, s, r.bot)
    decreases |snapshot|
  {
    if |snapshot| == 0 then Visit(s, cursor, [])
    else
      var v := VisitChannel(cfg, reply, s, cursor, snapshot[0]);
      VisitEvolves(cfg, reply, s, cursor, snapshot[0]);
      var rest := SendAll(cfg, reply, v.bot, v.cursor, snapshot[1..]);
      MatchesCons(v.results, rest.results, snapshot);
      EvolvesTransitive(cfg, s, v.bot, rest.bot);
      assert rest.cursor <= cursor + |snapshot| * MaxAttempts(cfg) by {
        assert (|snapshot| - 1) * MaxAttempts(cfg) + MaxAttempts(cfg) == |snapshot| * MaxAttempts(cfg);
      }
      Visit(rest.bot, rest.cursor, v.results + rest.results)
  }

  /**
    After the channel loop every snapshot channel has a send time, and a
    channel outside the snapshot keeps its counter and its send time.
  */
  lemma {:induction false} SendAllTrackers(cfg: Config, reply: Transport, s: Bot, cursor: nat, snapshot: seq<string>)
    ensures var r := SendAll(cfg, reply, s, cursor, snapshot).bot;
            && (forall c :: c in snapshot ==> c in r.lastSentTimes)
            && (forall c :: c !in snapshot ==> Get(r.forbiddenCounts, c) == Get(s.forbiddenCounts, c))
            && (forall c :: c !in snapshot && c in s.lastSentTimes ==> r.lastSentTimes[c] == s.lastSentTimes[c])
    decreases |snapshot|
  {
    if |snapshot| > 0 {
      var ch := snapshot[0];
      var v := VisitChannel(cfg, reply, s, cursor, ch);
      VisitEvolves(cfg, reply, s, cursor, ch);
      VisitTimes(cfg, reply, s, cursor, ch);
      SendAllTrackers(cfg, reply, v.bot, v.cursor, snapshot[1..]);
      var rest := SendAll(cfg, reply, v.bot, v.cursor, snapshot[1..]);
      assert SendAll(cfg, reply, s, cursor, snapshot).bot == rest.bot;
      forall c | c in snapshot ensures c in rest.bot.lastSentTimes {
        if c != ch {
          assert c in snapshot[1..];
        }
      }
    }
  }

  /** `record_post`: append one post to the ledger. */
  function RecordPost(posts: seq<Post>, p: Post): (r: seq<Post>)
    ensures |r| == |posts| + 1 && r[..|posts|] == posts && r[|posts|] == p
  {
    posts + [p]
  }

  /**
    `broadcast_copy`: nothing at all when the registry is empty; otherwise the
    channel loop over the registry as it is on entry, then one ledger post
    carrying every record, stamped with the clock at the end.
  */
  function Broadcast(cfg: Config, reply: Transport, s: Bot, cursor: nat, msg: MessageRef, origin: Option<int>): (r: Visit)
    ensures |s.channels| == 0 ==> r == Visit(s, cursor, [])
    ensures |s.channels| > 0 ==> Matches(r.results, s.channels)
    ensures |s.channels| > 0 ==> r.bot.posts == s.posts + [Post(msg, r.results, origin, r.bot.clock)]
    ensures cursor <= r.cursor <= cursor + |s.channels| * MaxAttempts(cfg)
    ensures r.bot.outbox == s.outbox
    ensures Evolves(cfg, s, r.bot.(posts := s.posts))
  {
    if |s.channels| == 0 then Visit(s, cursor, [])
    else
      var v := SendAll(cfg, reply, s, cursor, s.channels);
      var post := Post(msg, v.results, origin, v.bot.clock);
      Visit(v.bot.(posts := RecordPost(v.bot.posts, post)), v.cursor, v.results)
  }

  // ---------------------------------------------------------------------------
  // Properties of the result list
  // ---------------------------------------------------------------------------

  /** Every record of a broadcast is `ok`, `forbidden` or `failed`, names a snapshot channel, and
      there are between one and two records per channel. */
  lemma {:induction false} MatchesShape(rs: seq<ChannelResult>, snapshot: seq<string>)
    requires Matches(rs, snapshot)
    ensures |snapshot| <= |rs| <= 2 * |snapshot|
    ensures forall i :: 0 <= i < |rs| ==> rs[i].status != Error && rs[i].channel in snapshot
    decreases |snapshot|
  {
    if |snapshot| > 0 {
      if 1 <= |rs| && Group(rs[..1], snapshot[0]) && Matches(rs[1..], snapshot[1..]) {
        MatchesShape(rs[1..], snapshot[1..]);
        assert forall i :: 1 <= i < |rs| ==> rs[i] == rs[1..][i - 1];
        assert rs[0] == rs[..1][0];
      } else {
        MatchesShape(rs[2..], snapshot[2 - 1..]);
        assert forall i :: 2 <= i < |rs| ==> rs[i] == rs[2..][i - 2];
        assert rs[0] == rs[..2][0] && rs[1] == rs[..2][1];
      }
    }
  }

  /** Every snapshot channel gets at least one record: removals during the loop skip nobody. */
  lemma {:induction false} MatchesCoversSnapshot(rs: seq<ChannelResult>, snapshot: seq<string>)
    requires Matches(rs, snapshot)
    ensures forall k :: 0 <= k < |snapshot| ==> exists i :: 0 <= i < |rs| && rs[i].channel == snapshot[k]
    decreases |snapshot|
  {
    if |snapshot| > 0 {
      var n := if 1 <= |rs| && Group(rs[..1], snapshot[0]) && Matches(rs[1..], snapshot[1..]) then 1 else 2;
      MatchesCoversSnapshot(rs[n..], snapshot[1..]);
      assert rs[0] == rs[..n][0];
      forall k | 0 <= k < |snapshot| ensures exists i :: 0 <= i < |rs| && rs[i].channel == snapshot[k] {
        if k == 0 {
          assert rs[0].channel == snapshot[0];
        } else {
          assert snapshot[k] == snapshot[1..][k - 1];
          var i :| 0 <= i < |rs[n..]| && rs[n..][i].channel == snapshot[1..][k - 1];
          assert rs[n + i] == rs[n..][i];
        }
      }
    }
  }
  // ---------------------------------------------------------------------------
  // Scenarios
  // ---------------------------------------------------------------------------

  /** One `ok` record per channel, in order. */
  function AllOk(snapshot: seq<string>): (rs: seq<ChannelResult>)
    ensures |rs| == |snapshot|
    ensures forall i :: 0 <= i < |rs| ==> rs[i] == ChannelResult(snapshot[i], Ok)
  {
    seq(|snapshot|, i requires 0 <= i < |snapshot| => ChannelResult(snapshot[i], Ok))
  }

  /** One channel through a transport that accepts its first attempt: a single `ok`, nothing else changes. */
  lemma VisitAccepted(cfg: Config, reply: Transport, s: Bot, cursor: nat, ch: string)
    requires cfg.retryCount > 0
    requires reply(cursor) == SendOk
    ensures var r := VisitChannel(cfg, reply, s, cursor, ch);
            && r.results == [ChannelResult(ch, Ok)]
            && r.cursor == cursor + 1
            && r.bot.channels == s.channels
            && r.bot.forbiddenCounts == s.forbiddenCounts
  {
    var t := RetryOf(cfg, reply, s, cursor, ch);
    assert t == Tries(Get(s.forbiddenCounts, ch), false, cursor + 1, FirstAttemptAt(cfg, s, ch), 0, true, false);
  }

  /** A transport that accepts every attempt: one attempt and one `ok` per channel, no counter moves. */
  lemma {:induction false} SendAllAccepted(cfg: Config, reply: Transport, s: Bot, cursor: nat, snapshot: seq<string>)
    requires cfg.retryCount > 0
    requires forall k :: reply(k) == SendOk
    ensures var r := SendAll(cfg, reply, s, cursor, snapshot);
            && r.results == AllOk(snapshot)
            && r.cursor == cursor + |snapshot|
            && r.bot.channels == s.channels
            && r.bot.forbiddenCounts == s.forbiddenCounts
    decreases |snapshot|
  {
    if |snapshot| > 0 {
      VisitAccepted(cfg, reply, s, cursor, snapshot[0]);
      var v := VisitChannel(cfg, reply, s, cursor, snapshot[0]);
      SendAllAccepted(cfg, reply, v.bot, v.cursor, snapshot[1..]);
      var rest := SendAll(cfg, reply, v.bot, v.cursor, snapshot[1..]);
      assert SendAll(cfg, reply, s, cursor, snapshot) == Visit(rest.bot, rest.cursor, v.results + rest.results);
      assert AllOk(snapshot) == [ChannelResult(snapshot[0], Ok)] + AllOk(snapshot[1..]);
    }
  }

  /** A broadcast through a transport that accepts everything: every channel `ok`, registry and counters intact. */
  lemma BroadcastAccepted(cfg: Config, reply: Transport, s: Bot, cursor: nat, msg: MessageRef, origin: Option<int>)
    requires cfg.retryCount > 0
    requires forall k :: reply(k) == SendOk
    requires |s.channels| > 0
    ensures var r := Broadcast(cfg, reply, s, cursor, msg, origin);
            && r.results == AllOk(s.channels)
            && r.bot.channels == s.channels
            && r.bot.forbiddenCounts == s.forbiddenCounts
            && r.bot.posts == s.posts + [Post(msg, AllOk(s.channels), origin, r.bot.clock)]
  {
    SendAllAccepted(cfg, reply, s, cursor, s.channels);
  }

  /** The retry loop under the default configuration against a channel that rejects everything. */
  lemma RetryAlwaysForbidden(reply: Transport, cursor: nat, clock: int)
    requires forall k :: reply(k) == SendForbidden
    ensures Retry(DefaultConfig, reply, 0, cursor, clock, 0) == Tries(3, true, cursor + 3, clock + 4000, 3, false, true)
  {
    var cfg := DefaultConfig;
    var last := Tries(3, true, cursor + 3, clock + 4000, 3, false, true);
    assert Retry(cfg, reply, 2, cursor + 2, clock + 4000, 2) == last;
    assert Retry(cfg, reply, 1, cursor + 1, clock + 2000, 1) == last;
  }

  /**
    Under the default configuration, a channel without earlier rejections that
    rejects every attempt is removed on the third attempt and receives both a
    `forbidden` and a `failed` record.
  */
  lemma AlwaysForbidden(reply: Transport, s: Bot, cursor: nat, ch: string)
    requires forall k :: reply(k) == SendForbidden
    requires Get(s.forbiddenCounts, ch) == 0
    ensures var r := VisitChannel(DefaultConfig, reply, s, cursor, ch);
            && r.results == [ChannelResult(ch, Forbidden), ChannelResult(ch, Failed)]
            && r.cursor == cursor + 3
            && r.bot.channels == Registry.RemoveChannel(s.channels, ch).channels
            && Get(r.bot.forbiddenCounts, ch) == 3
  {
    RetryAlwaysForbidden(reply, cursor, FirstAttemptAt(DefaultConfig, s, ch));
  }

  /** The single-channel registry of that channel ends up empty after one broadcast. */
  lemma AlwaysForbiddenEmptiesRegistry(reply: Transport, s: Bot, cursor: nat, msg: MessageRef)
    requires forall k :: reply(k) == SendForbidden
    requires s.channels == ["A"] && Get(s.forbiddenCounts, "A") == 0
    ensures var r := Broadcast(DefaultConfig, reply, s, cursor, msg, None);
            && r.results == [ChannelResult("A", Forbidden), ChannelResult("A", Failed)]
            && r.bot.channels == []
  {
    AlwaysForbidden(reply, s, cursor, "A");
    var v := VisitChannel(DefaultConfig, reply, s, cursor, "A");
    assert SendAll(DefaultConfig, reply, v.bot, v.cursor, []) == Visit(v.bot, v.cursor, []);
    assert ["A"][1..] == [];
  }

  /**
    Two transient errors and then an accepted attempt: a single `ok`, three
    attempts, two retry delays, and no counter change.
  */
  lemma TransientThenOk(cfg: Config, reply: Transport, count: int, cursor: nat, clock: int, ch: string)
    requires cfg.retryCount == 3
    requires reply(cursor) == SendOtherErr && reply(cursor + 1) == SendOtherErr && reply(cursor + 2) == SendOk
    ensures Retry(cfg, reply, count, cursor, clock, 0)
            == Tries(count, false, cursor + 3, clock + 2 * cfg.retryDelay, 2, true, false)
    ensures Records(ch, Retry(cfg, reply, count, cursor, clock, 0), cfg.retryCount) == [ChannelResult(ch, Ok)]
  {
    var last := Tries(count, false, cursor + 3, clock + 2 * cfg.retryDelay, 2, true, false);
    assert Retry(cfg, reply, count, cursor + 2, clock + 2 * cfg.retryDelay, 2) == last;
    assert Retry(cfg, reply, count, cursor + 1, clock + cfg.retryDelay, 1) == last;
  }
}
