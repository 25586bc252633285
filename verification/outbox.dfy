/**
  The outbox loop (`outbox_loop`).  In every pass, first every pending entry
  whose `send_at` has arrived is marked `sending`; then every `sending`
  entry is delivered -- a `copy` entry through the broadcast algorithm, a
  `file` entry by one direct send per registered channel -- and given its
  terminal status.  Between passes the loop sleeps for a second.
*/
module Outbox {
  import opened Wrappers
  import opened State
  import Dispatch

  /**
    Why a sweep pass is abandoned: a pending entry whose `send_at` is
    missing or unreadable (the index of the first such entry).  The pass then
    saves nothing.
  */
  datatype SweepError = BadSendAt(index: nat)

  /** A pending entry whose `send_at` has arrived. */
  predicate Due(e: Entry, now: int) {
    e.status == Pending && e.sendAt.Some? && e.sendAt.value <= now
  }

  /** A pending entry the first phase cannot read. */
  predicate Unreadable(e: Entry) {
    e.status == Pending && e.sendAt.None?
  }

  // ---------------------------------------------------------------------------
  // Phase 1: mark due entries
  // ---------------------------------------------------------------------------

  /** The first phase: mark every due entry `sending`, or give up on the first unreadable one. */
  function Promote(outbox: seq<Entry>, now: int): (r: Result<seq<Entry>, SweepError>)
    ensures r.Failure? <==> exists i :: 0 <= i < |outbox| && Unreadable(outbox[i])
    ensures r.Failure? ==> r.error.index < |outbox| && Unreadable(outbox[r.error.index])
                           && forall j :: 0 <= j < r.error.index ==> !Unreadable(outbox[j])
    ensures r.Success? ==> |r.value| == |outbox|
    ensures r.Success? ==> forall i :: 0 <= i < |outbox| ==>
              r.value[i] == outbox[i].(status := if Due(outbox[i], now) then Sending else outbox[i].status)
    decreases |outbox|
  {
    if |outbox| == 0 then Success([])
    else if Unreadable(outbox[0]) then Failure(BadSendAt(0))
    else
      match Promote(outbox[1..], now)
      case Failure(e) =>
        assert forall j :: 1 <= j < e.index + 1 ==> outbox[j] == outbox[1..][j - 1];
        Failure(BadSendAt(e.index + 1))
      case Success(rest) =>
        var e := outbox[0];
        var r := [e.(status := if Due(e, now) then Sending else e.status)] + rest;
        assert forall i :: 1 <= i < |outbox| ==> r[i] == rest[i - 1] && outbox[i] == outbox[1..][i - 1];
        Success(r)
  }

  /** Marking is idempotent: a second first phase at the same instant changes nothing. */
  lemma PromoteIdempotent(outbox: seq<Entry>, now: int)
    requires Promote(outbox, now).Success?
    ensures Promote(Promote(outbox, now).value, now) == Promote(outbox, now)
  {
    var p := Promote(outbox, now).value;
    assert forall i :: 0 <= i < |p| ==> !Unreadable(p[i]) && !Due(p[i], now);
    var q := Promote(p, now).value;
    assert forall i :: 0 <= i < |p| ==> q[i] == p[i];
  }

  // ---------------------------------------------------------------------------
  // Phase 2: deliver
  // ---------------------------------------------------------------------------

  /**
    The direct sends of a `file` entry: one attempt per channel, no retries,
    `ok` when the send is accepted and `error` for any exception.
  */
  function SendFile(reply: Transport, cursor: nat, chs: seq<string>): (rs: seq<ChannelResult>)
    ensures |rs| == |chs|
    ensures forall i :: 0 <= i < |chs| ==>
              rs[i] == ChannelResult(chs[i], if reply(cursor + i) == SendOk then Ok else Error)
    decreases |chs|
  {
    if |chs| == 0 then []
    else
      var rest := SendFile(reply, cursor + 1, chs[1..]);
      [ChannelResult(chs[0], if reply(cursor) == SendOk then Ok else Error)] + rest
  }

  /** The state after some entries were delivered. */
  datatype Delivery = Delivery(bot: Bot, cursor: nat, entries: seq<Entry>)

  /** The text of the `KeyError` a missing key raises. */
  function KeyError(key: string): string {
    "'" + key + "'"
  }

  /**
    How delivery, begun at time `t`, may change an entry: only `sending`
    entries change, each to a terminal status fixed by its kind, and only in
    its status, results, `sent_at` and error text; `sent_at` is stamped no
    earlier than `t`.
  */
  predicate Resolved(e: Entry, e': Entry, t: int) {
    if e.status != Sending then e' == e
    else
      && e' == e.(status := e'.status, results := e'.results, sentAt := e'.sentAt, err := e'.err)
      && (e'.status == Sent || e'.status == Errored || e'.status == UnknownType)
      && (e'.status == UnknownType <==> e.kind == OtherKind)
      && (e'.status == Errored <==> e.kind == Copy && (e.fromChat.None? || e.messageId.None?))
      && (e'.status == Sent ==> e'.sentAt.Some? && e'.sentAt.value >= t)
      && (e'.status == Errored ==> e'.err.Some?)
  }

  /** The dispatcher state moves forward: posts are only appended, the rest evolves as in a broadcast. */
  ghost predicate Advances(cfg: Config, s: Bot, s': Bot) {
    && s.posts <= s'.posts
    && Dispatch.Evolves(cfg, s, s'.(posts := s.posts))
  }

  lemma AdvancesTransitive(cfg: Config, s1: Bot, s2: Bot, s3: Bot)
    requires Advances(cfg, s1, s2) && Advances(cfg, s2, s3)
    ensures Advances(cfg, s1, s3)
  {
    var m2 := s2.(posts := s1.posts);
    var m3 := s3.(posts := s1.posts);
    assert Dispatch.Evolves(cfg, m2, m3);
    Dispatch.EvolvesTransitive(cfg, s1, m2, m3);
  }

  /** Deliver one entry (if it is `sending`). */
  function ResolveEntry(cfg: Config, reply: Transport, s: Bot, cursor: nat, e: Entry): (r: Delivery)
    ensures |r.entries| == 1 && Resolved(e, r.entries[0], s.clock)
    ensures s.clock <= r.bot.clock
    ensures r.bot.outbox == s.outbox
    ensures cursor <= r.cursor
    ensures e.status != Sending ==> r == Delivery(s, cursor, [e])
  {
    if e.status != Sending then Delivery(s, cursor, [e])
    else
      match e.kind
      case Copy =>
        if e.fromChat.None? then
          Delivery(s, cursor, [e.(status := Errored, err := Some(KeyError("from_chat_id")))])
        else if e.messageId.None? then
          Delivery(s, cursor, [e.(status := Errored, err := Some(KeyError("message_id")))])
        else
          var v := Dispatch.Broadcast(cfg, reply, s, cursor, MessageRef(e.fromChat.value, e.messageId.value), e.origin);
          Delivery(v.bot, v.cursor, [e.(status := Sent, sentAt := Some(v.bot.clock))])
      case File =>
        var rs := SendFile(reply, cursor, s.channels);
        Delivery(s, cursor + |s.channels|, [e.(status := Sent, results := rs, sentAt := Some(s.clock))])
      case OtherKind =>
        Delivery(s, cursor, [e.(status := UnknownType)])
  }

  /** Delivering one entry moves the dispatcher state forward as a broadcast does. */
  lemma ResolveEntryAdvances(cfg: Config, reply: Transport, s: Bot, cursor: nat, e: Entry)
    ensures Advances(cfg, s, ResolveEntry(cfg, reply, s, cursor, e).bot)
  {
  }

  /** Only a `sending` copy entry that names its message broadcasts, and then exactly as a broadcast does. */
  lemma ResolveCopy(cfg: Config, reply: Transport, s: Bot, cursor: nat, e: Entry)
    ensures var r := ResolveEntry(cfg, reply, s, cursor, e);
            && (!(e.status == Sending && e.kind == Copy && e.fromChat.Some? && e.messageId.Some?) ==> r.bot.posts == s.posts)
            && (e.status == Sending && e.kind == Copy && e.fromChat.Some? && e.messageId.Some? ==>
                  (|s.channels| == 0 <==> r.bot.posts == s.posts)
                  && (|s.channels| > 0 ==> r.bot.posts[|s.posts|].source == MessageRef(e.fromChat.value, e.messageId.value)
                                           && r.bot.posts[|s.posts|].origin == e.origin))
  {
  }

  /** A `sending` file entry: one direct send per registered channel, and no other change to the state. */
  lemma ResolveFile(cfg: Config, reply: Transport, s: Bot, cursor: nat, e: Entry)
    requires e.status == Sending && e.kind == File
    ensures var r := ResolveEntry(cfg, reply, s, cursor, e);
            && r.cursor == cursor + |s.channels| && r.bot == s
            && |r.entries[0].results| == |s.channels|
            && forall i :: 0 <= i < |s.channels| ==>
                 r.entries[0].results[i].channel == s.channels[i]
                 && (r.entries[0].results[i].status == Ok <==> reply(cursor + i) == SendOk)
  {
  }

  /** Deliver every entry in order, threading the dispatcher state through. */
  function ResolveAll(cfg: Config, reply: Transport, s: Bot, cursor: nat, entries: seq<Entry>): (r: Delivery)
    ensures |r.entries| == |entries|
    ensures forall i :: 0 <= i < |entries| ==> Resolved(entries[i], r.entries[i], s.clock)
    ensures s.clock <= r.bot.clock
    ensures r.bot.outbox == s.outbox
    ensures cursor <= r.cursor
    decreases |entries|
  {
    if |entries| == 0 then Delivery(s, cursor, [])
    else
      var first := ResolveEntry(cfg, reply, s, cursor, entries[0]);
      var rest := ResolveAll(cfg, reply, first.bot, first.cursor, entries[1..]);
      var out := first.entries + rest.entries;
      assert forall i :: 1 <= i < |entries| ==>
        out[i] == rest.entries[i - 1] && entries[i] == entries[1..][i - 1] && Resolved(entries[i], out[i], first.bot.clock);
      Delivery(rest.bot, rest.cursor, out)
  }

  /** Delivering a run of entries moves the dispatcher state forward as broadcasts do. */
  lemma {:induction false} ResolveAllAdvances(cfg: Config, reply: Transport, s: Bot, cursor: nat, entries: seq<Entry>)
    ensures Advances(cfg, s, ResolveAll(cfg, reply, s, cursor, entries).bot)
    decreases |entries|
  {
    if |entries| > 0 {
      var first := ResolveEntry(cfg, reply, s, cursor, entries[0]);
      ResolveEntryAdvances(cfg, reply, s, cursor, entries[0]);
      ResolveAllAdvances(cfg, reply, first.bot, first.cursor, entries[1..]);
      AdvancesTransitive(cfg, s, first.bot, ResolveAll(cfg, reply, first.bot, first.cursor, entries[1..]).bot);
    }
  }

  /** With nothing `sending`, delivery does nothing at all. */
  lemma {:induction false} ResolveAllQuiet(cfg: Config, reply: Transport, s: Bot, cursor: nat, entries: seq<Entry>)
    requires forall i :: 0 <= i < |entries| ==> entries[i].status != Sending
    ensures ResolveAll(cfg, reply, s, cursor, entries) == Delivery(s, cursor, entries)
    decreases |entries|
  {
    if |entries| > 0 {
      ResolveAllQuiet(cfg, reply, s, cursor, entries[1..]);
      assert [entries[0]] + entries[1..] == entries;
    }
  }

  // ---------------------------------------------------------------------------
  // One pass
  // ---------------------------------------------------------------------------

  /** A completed pass: the new state and the next attempt number. */
  datatype Swept = Swept(bot: Bot, cursor: nat)

  /** No pending entry lacks a readable `send_at`: the condition under which a pass completes. */
  predicate AllReadable(outbox: seq<Entry>) {
    forall i :: 0 <= i < |outbox| ==> !Unreadable(outbox[i])
  }

  /**
    One pass of `outbox_loop`.  The wall clock it reads is the dispatcher's
    clock: entries are due at `s.clock`, and the sleeps of the broadcasts
    move the clock on before each `sent_at` is stamped.
  */
  function Sweep(cfg: Config, reply: Transport, s: Bot, cursor: nat): (r: Result<Swept, SweepError>)
    ensures r.Failure? <==> !AllReadable(s.outbox)
    ensures r.Success? ==> |r.value.bot.outbox| == |s.outbox|
    ensures r.Success? ==> r.value.cursor >= cursor
  {
    match Promote(s.outbox, s.clock)
    case Failure(e) => Failure(e)
    case Success(marked) =>
      var v := ResolveAll(cfg, reply, s, cursor, marked);
      Success(Swept(v.bot.(outbox := v.entries), v.cursor))
  }

  /** Apart from the outbox, a completed pass only moves the dispatcher state forward. */
  lemma SweepAdvances(cfg: Config, reply: Transport, s: Bot, cursor: nat)
    requires AllReadable(s.outbox)
    ensures Advances(cfg, s, Sweep(cfg, reply, s, cursor).value.bot.(outbox := s.outbox))
  {
    ResolveAllAdvances(cfg, reply, s, cursor, Promote(s.outbox, s.clock).value);
  }

  /** The progress order of entry statuses: pending, then sending, then a terminal status. */
  function Rank(st: EntryStatus): nat {
    match st
    case Pending => 0
    case Sending => 1
    case _ => 2
  }

  /** What marking at `now` and then delivering does to one entry. */
  predicate SweptEntry(e: Entry, e': Entry, now: int) {
    && e'.status != Sending
    && Rank(e.status) <= Rank(e'.status)
    && (e'.status == Pending <==> e.status == Pending && !Due(e, now))
    && (e'.status == Pending ==> e' == e)
    && (Rank(e.status) == 2 ==> e' == e)
    && e'.kind == e.kind && e'.sendAt == e.sendAt
    // a delivered entry is `sent` unless it is a copy entry missing its message, or of unknown type
    && (Rank(e.status) < 2 && e'.status != Pending ==>
          (e'.status == Sent <==> e.kind == File || (e.kind == Copy && e.fromChat.Some? && e.messageId.Some?)))
    // ... and its `sent_at` is no earlier than the pass, hence no earlier than its `send_at`
    && (Rank(e.status) < 2 && e'.status == Sent ==> e'.sentAt.Some? && e'.sentAt.value >= now)
    && (e.status == Pending && e'.status == Sent ==> e.sendAt.Some? && e.sendAt.value <= e'.sentAt.value)
  }

  lemma MarkThenResolve(e: Entry, e': Entry, now: int)
    requires !Unreadable(e)
    requires Resolved(e.(status := if Due(e, now) then Sending else e.status), e', now)
    ensures SweptEntry(e, e', now)
  {
  }

  /**
    What a completed pass does to every entry: due entries and stale
    `sending` ones reach a terminal status stamped no earlier than the pass,
    entries not yet due stay exactly as they were, terminal entries are
    untouched, and no status moves backwards.
  */
  lemma SweepEntries(cfg: Config, reply: Transport, s: Bot, cursor: nat)
    requires AllReadable(s.outbox)
    ensures var o := Sweep(cfg, reply, s, cursor).value.bot.outbox;
            forall i :: 0 <= i < |s.outbox| ==> SweptEntry(s.outbox[i], o[i], s.clock)
  {
    var marked := Promote(s.outbox, s.clock).value;
    var v := ResolveAll(cfg, reply, s, cursor, marked);
    var o := Sweep(cfg, reply, s, cursor).value.bot.outbox;
    assert o == v.entries;
    forall i | 0 <= i < |s.outbox| ensures SweptEntry(s.outbox[i], o[i], s.clock) {
      assert Resolved(marked[i], v.entries[i], s.clock);
      MarkThenResolve(s.outbox[i], o[i], s.clock);
    }
  }

  /** No pending entry of `outbox` falls due in the interval (`from`, `to`]. */
  predicate NoneFallsDue(outbox: seq<Entry>, from: int, to: int) {
    forall i :: 0 <= i < |outbox| && outbox[i].status == Pending && outbox[i].sendAt.Some? ==>
      !(from < outbox[i].sendAt.value <= to)
  }

  /**
    When no further entry falls due while a pass runs, an immediate second
    pass sends nothing and changes nothing.
  */
  lemma SweepIdempotent(cfg: Config, reply: Transport, s: Bot, cursor: nat)
    requires AllReadable(s.outbox)
    requires NoneFallsDue(s.outbox, s.clock, Sweep(cfg, reply, s, cursor).value.bot.clock)
    ensures var w := Sweep(cfg, reply, s, cursor).value;
            Sweep(cfg, reply, w.bot, w.cursor) == Success(w)
  {
    SweepEntries(cfg, reply, s, cursor);
    var w := Sweep(cfg, reply, s, cursor).value;
    var o := w.bot.outbox;
    assert forall i :: 0 <= i < |o| ==> !Unreadable(o[i]) && !Due(o[i], w.bot.clock) by {
      forall i | 0 <= i < |o| ensures !Unreadable(o[i]) && !Due(o[i], w.bot.clock) {
        assert SweptEntry(s.outbox[i], o[i], s.clock);
      }
    }
    var p := Promote(o, w.bot.clock).value;
    assert forall i :: 0 <= i < |o| ==> p[i] == o[i];
    assert p == o;
    ResolveAllQuiet(cfg, reply, w.bot, w.cursor, o);
  }

  /** A pass that finds an unreadable entry leaves the outbox for the next pass exactly as it was. */
  lemma SweepAbandoned(cfg: Config, reply: Transport, s: Bot, cursor: nat, i: nat)
    requires i < |s.outbox| && Unreadable(s.outbox[i])
    ensures Sweep(cfg, reply, s, cursor).Failure?
    ensures Sweep(cfg, reply, s, cursor).error.index <= i
  {
  }

  // ---------------------------------------------------------------------------
  // The loop
  // ---------------------------------------------------------------------------

  /** The sleep at the end of every iteration of `outbox_loop`: one second. */
  const POLL := 1000

  /**
    One iteration of `outbox_loop`: a pass, then the sleep.  A failed pass is
    only logged, so it leaves the state as it was.
  */
  function LoopStep(cfg: Config, reply: Transport, s: Bot, cursor: nat): (r: Swept)
    ensures r.bot.clock >= s.clock + POLL
    ensures |r.bot.outbox| == |s.outbox|
    ensures !AllReadable(s.outbox) ==> r == Swept(s.(clock := s.clock + POLL), cursor)
  {
    match Sweep(cfg, reply, s, cursor)
    case Failure(_) => Swept(s.(clock := s.clock + POLL), cursor)
    case Success(w) => Swept(w.bot.(clock := w.bot.clock + POLL), w.cursor)
  }

  /** `n` iterations of `outbox_loop`. */
  function Loop(cfg: Config, reply: Transport, s: Bot, cursor: nat, n: nat): (r: Swept)
    ensures s.clock <= r.bot.clock
    ensures |r.bot.outbox| == |s.outbox|
    decreases n
  {
    if n == 0 then Swept(s, cursor)
    else
      var w := LoopStep(cfg, reply, s, cursor);
      Loop(cfg, reply, w.bot, w.cursor, n - 1)
  }

  /** Every iteration ends with the sleep, so each pass starts at least a second after the one before. */
  lemma {:induction false} LoopTakesTime(cfg: Config, reply: Transport, s: Bot, cursor: nat, n: nat)
    requires n > 0
    ensures Loop(cfg, reply, s, cursor, n).bot.clock >= Loop(cfg, reply, s, cursor, n - 1).bot.clock + POLL
    decreases n
  {
    var w := LoopStep(cfg, reply, s, cursor);
    assert Loop(cfg, reply, s, cursor, n) == Loop(cfg, reply, w.bot, w.cursor, n - 1);
    if n > 1 {
      LoopTakesTime(cfg, reply, w.bot, w.cursor, n - 1);
      assert Loop(cfg, reply, s, cursor, n - 1) == Loop(cfg, reply, w.bot, w.cursor, n - 2);
    }
  }

  /**
    While an entry is unreadable every pass is abandoned: the loop only
    sleeps, sends nothing and changes nothing else.
  */
  lemma {:induction false} LoopWedged(cfg: Config, reply: Transport, s: Bot, cursor: nat, n: nat)
    requires !AllReadable(s.outbox)
    requires n > 0
    ensures var r := Loop(cfg, reply, s, cursor, n);
            r.cursor == cursor && r.bot.(clock := s.clock) == s
    decreases n
  {
    var w := LoopStep(cfg, reply, s, cursor);
    if n > 1 {
      LoopWedged(cfg, reply, w.bot, w.cursor, n - 1);
    }
  }

  /** One iteration on a readable outbox: every entry takes its swept form, and the outbox stays readable. */
  lemma LoopStepEntries(cfg: Config, reply: Transport, s: Bot, cursor: nat)
    requires AllReadable(s.outbox)
    ensures var o := LoopStep(cfg, reply, s, cursor).bot.outbox;
            && (forall i :: 0 <= i < |s.outbox| ==> SweptEntry(s.outbox[i], o[i], s.clock))
            && AllReadable(o)
  {
    SweepEntries(cfg, reply, s, cursor);
    var o := LoopStep(cfg, reply, s, cursor).bot.outbox;
    forall i | 0 <= i < |o| ensures !Unreadable(o[i]) {
      assert SweptEntry(s.outbox[i], o[i], s.clock);
    }
  }

  /** One iteration leaves an entry with a terminal status alone. */
  lemma LoopStepTerminal(cfg: Config, reply: Transport, s: Bot, cursor: nat, i: nat)
    requires i < |s.outbox| && Rank(s.outbox[i].status) == 2
    ensures LoopStep(cfg, reply, s, cursor).bot.outbox[i] == s.outbox[i]
  {
    if AllReadable(s.outbox) {
      SweepEntries(cfg, reply, s, cursor);
      assert SweptEntry(s.outbox[i], LoopStep(cfg, reply, s, cursor).bot.outbox[i], s.clock);
    }
  }

  /** An entry with a terminal status is never touched again. */
  lemma {:induction false} LoopKeepsTerminal(cfg: Config, reply: Transport, s: Bot, cursor: nat, n: nat, i: nat)
    requires i < |s.outbox| && Rank(s.outbox[i].status) == 2
    requires n > 0
    ensures Loop(cfg, reply, s, cursor, n).bot.outbox[i] == s.outbox[i]
    decreases n
  {
    var w := LoopStep(cfg, reply, s, cursor);
    LoopStepTerminal(cfg, reply, s, cursor, i);
    if n > 1 {
      LoopKeepsTerminal(cfg, reply, w.bot, w.cursor, n - 1, i);
    }
  }

  /** The terminal status a delivered entry takes, fixed by its kind. */
  predicate Delivered(e: Entry, e': Entry, t: int) {
    && Rank(e'.status) == 2
    && (e'.status == Sent <==> e.kind == File || (e.kind == Copy && e.fromChat.Some? && e.messageId.Some?))
    && (e'.status == Sent ==> e'.sentAt.Some? && e'.sentAt.value >= t)
  }

  /** One iteration seen from a pending entry due at `t`: untouched before `t`, delivered from `t` on. */
  lemma LoopStepPending(cfg: Config, reply: Transport, s: Bot, cursor: nat, i: nat)
    requires AllReadable(s.outbox)
    requires i < |s.outbox| && s.outbox[i].status == Pending && s.outbox[i].sendAt.Some?
    ensures var w := LoopStep(cfg, reply, s, cursor).bot;
            var t := s.outbox[i].sendAt.value;
            && AllReadable(w.outbox)
            && (s.clock < t ==> w.outbox[i] == s.outbox[i])
            && (s.clock >= t ==> Delivered(s.outbox[i], w.outbox[i], t))
  {
    LoopStepEntries(cfg, reply, s, cursor);
    assert SweptEntry(s.outbox[i], LoopStep(cfg, reply, s, cursor).bot.outbox[i], s.clock);
  }

  /**
    On a readable outbox, a pending entry with send time `t` stays exactly as
    it is through `n` passes when the last of them starts before `t` (the
    earlier ones start earlier still).
  */
  lemma {:induction false} LoopKeepsPending(cfg: Config, reply: Transport, s: Bot, cursor: nat, n: nat, i: nat)
    requires AllReadable(s.outbox)
    requires i < |s.outbox| && s.outbox[i].status == Pending && s.outbox[i].sendAt.Some?
    requires n > 0 && Loop(cfg, reply, s, cursor, n - 1).bot.clock < s.outbox[i].sendAt.value
    ensures Loop(cfg, reply, s, cursor, n).bot.outbox[i] == s.outbox[i]
    decreases n
  {
    var w := LoopStep(cfg, reply, s, cursor);
    LoopStepPending(cfg, reply, s, cursor, i);
    if n > 1 {
      LoopKeepsPending(cfg, reply, w.bot, w.cursor, n - 1, i);
    }
  }

  /**
    On a readable outbox, the pass that starts at or after the send time `t`
    of a pending entry delivers it, stamped no earlier than `t`; later passes
    leave it alone.
  */
  lemma {:induction false} LoopDelivers(cfg: Config, reply: Transport, s: Bot, cursor: nat, n: nat, i: nat)
    requires AllReadable(s.outbox)
    requires i < |s.outbox| && s.outbox[i].status == Pending && s.outbox[i].sendAt.Some?
    requires n > 0 && Loop(cfg, reply, s, cursor, n - 1).bot.clock >= s.outbox[i].sendAt.value
    ensures Delivered(s.outbox[i], Loop(cfg, reply, s, cursor, n).bot.outbox[i], s.outbox[i].sendAt.value)
    decreases n
  {
    var w := LoopStep(cfg, reply, s, cursor);
    var t := s.outbox[i].sendAt.value;
    LoopStepPending(cfg, reply, s, cursor, i);
    assert Loop(cfg, reply, s, cursor, n) == Loop(cfg, reply, w.bot, w.cursor, n - 1);
    if s.clock >= t {
      var e1 := w.bot.outbox[i];
      assert Delivered(s.outbox[i], e1, t);
      if n > 1 {
        LoopKeepsTerminal(cfg, reply, w.bot, w.cursor, n - 1, i);
      }
      assert Loop(cfg, reply, w.bot, w.cursor, n - 1).bot.outbox[i] == e1;
    } else {
      assert n > 1;
      assert Loop(cfg, reply, s, cursor, n - 1) == Loop(cfg, reply, w.bot, w.cursor, n - 2);
      LoopDelivers(cfg, reply, w.bot, w.cursor, n - 1, i);
    }
  }
}
