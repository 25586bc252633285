/**
  The delivery statistics of /analytics and /stats, computed from the post
  ledger: a per-channel table (in the insertion order of the source's
  dictionary), the totals summed over it, the quick counts over the flat
  list of results, and the five most recent posts.
*/
module Analytics {
  import opened Wrappers
  import opened State
  import Registry
  import Dispatch

  /** One row of the per-channel table. */
  datatype Tally = Tally(channel: string, success: nat, failed: nat, total: nat)

  function Zero(ch: string): Tally {
    Tally(ch, 0, 0, 0)
  }

  /** The table's channels, in row order. */
  function Keys(t: seq<Tally>): (ks: seq<string>)
    ensures |ks| == |t| && forall i :: 0 <= i < |t| ==> ks[i] == t[i].channel
  {
    seq(|t|, i requires 0 <= i < |t| => t[i].channel)
  }

  /** A well-formed table: one row per channel, each row's counts adding up. */
  predicate Table(t: seq<Tally>) {
    && Registry.NoDuplicates(Keys(t))
    && forall i :: 0 <= i < |t| ==> t[i].success + t[i].failed == t[i].total
  }

  /** The row of `ch`, or a zero row when it has none. */
  function Lookup(t: seq<Tally>, ch: string): (x: Tally)
    ensures x.channel == ch
  {
    if ch in Keys(t) then t[Registry.IndexOf(Keys(t), ch)] else Zero(ch)
  }

  // ---------------------------------------------------------------------------
  // Building the table
  // ---------------------------------------------------------------------------

  /** `{ch: {...zeros...} for ch in channels}`: one zero row per distinct channel, first occurrence first. */
  function InitTable(chs: seq<string>): (t: seq<Tally>)
    ensures Table(t)
    ensures forall c :: c in Keys(t) <==> c in chs
    ensures forall i :: 0 <= i < |t| ==> t[i] == Zero(t[i].channel)
    decreases |chs|
  {
    if |chs| == 0 then []
    else
      var t := InitTable(chs[..|chs| - 1]);
      var last := chs[|chs| - 1];
      assert forall c :: c in chs <==> c in chs[..|chs| - 1] || c == last by {
        assert chs == chs[..|chs| - 1] + [last];
      }
      if last in Keys(t) then t
      else
        var t' := t + [Zero(last)];
        assert Keys(t') == Keys(t) + [last];
        t'
  }

  /** Count one result: its row's total, and its success or failed count. */
  function Bump(x: Tally, ok: bool): Tally {
    x.(total := x.total + 1,
       success := x.success + (if ok then 1 else 0),
       failed := x.failed + (if ok then 0 else 1))
  }

  /** `t` with a zero row for `ch` appended unless it already has one. */
  function WithRow(t: seq<Tally>, ch: string): (t1: seq<Tally>)
    requires Table(t)
    ensures Table(t1) && ch in Keys(t1)
    ensures Keys(t1) == if ch in Keys(t) then Keys(t) else Keys(t) + [ch]
  {
    if ch in Keys(t) then t
    else
      var t1 := t + [Zero(ch)];
      assert Keys(t1) == Keys(t) + [ch];
      t1
  }

  /** The body of the inner loop: add a row for an unknown channel, then count the result. */
  function Tick(t: seq<Tally>, r: ChannelResult): (t': seq<Tally>)
    requires Table(t)
    ensures Table(t')
    ensures forall c :: c in Keys(t') <==> c in Keys(t) || c == r.channel
  {
    var t1 := WithRow(t, r.channel);
    var k := Registry.IndexOf(Keys(t1), r.channel);
    var t' := t1[k := Bump(t1[k], r.status == Ok)];
    assert Keys(t') == Keys(t1);
    t'
  }

  /** Adding a zero row for a new channel changes no lookup. */
  lemma WithRowLookup(t: seq<Tally>, ch: string, c: string)
    requires Table(t)
    ensures Lookup(WithRow(t, ch), c) == Lookup(t, c)
  {
    var t1 := WithRow(t, ch);
    if c in Keys(t) {
      var i := Registry.IndexOf(Keys(t), c);
      assert Keys(t1)[i] == c;
      assert forall j :: 0 <= j < i ==> Keys(t1)[j] != c;
      assert Registry.IndexOf(Keys(t1), c) == i;
    } else if c == ch {
      assert Keys(t1)[|t|] == c;
    }
  }

  /** Counting a result bumps its channel's row and leaves every other row alone. */
  lemma TickLookup(t: seq<Tally>, r: ChannelResult, c: string)
    requires Table(t)
    ensures Lookup(Tick(t, r), c) == if c == r.channel then Bump(Lookup(t, c), r.status == Ok) else Lookup(t, c)
  {
    var t1 := WithRow(t, r.channel);
    WithRowLookup(t, r.channel, c);
    var t' := Tick(t, r);
    assert Keys(t') == Keys(t1);
  }

  /** The loop over the results of every post, in order. */
  function Tabulate(t: seq<Tally>, rs: seq<ChannelResult>): (t': seq<Tally>)
    requires Table(t)
    ensures Table(t')
    decreases |rs|
  {
    if |rs| == 0 then t else Tabulate(Tick(t, rs[0]), rs[1..])
  }

  // ---------------------------------------------------------------------------
  // Reference counts over the flat result list
  // ---------------------------------------------------------------------------

  /** Every record of every post, post by post. */
  function AllResults(posts: seq<Post>): seq<ChannelResult>
    decreases |posts|
  {
    if |posts| == 0 then [] else posts[0].results + AllResults(posts[1..])
  }

  function CountOk(rs: seq<ChannelResult>): nat
    decreases |rs|
  {
    if |rs| == 0 then 0 else (if rs[0].status == Ok then 1 else 0) + CountOk(rs[1..])
  }

  function CountNotOk(rs: seq<ChannelResult>): nat
    decreases |rs|
  {
    if |rs| == 0 then 0 else (if rs[0].status != Ok then 1 else 0) + CountNotOk(rs[1..])
  }

  /** Records for `ch`, and those of them that are `ok`. */
  function CountFor(rs: seq<ChannelResult>, ch: string): nat
    decreases |rs|
  {
    if |rs| == 0 then 0 else (if rs[0].channel == ch then 1 else 0) + CountFor(rs[1..], ch)
  }

  function CountForOk(rs: seq<ChannelResult>, ch: string): nat
    decreases |rs|
  {
    if |rs| == 0 then 0 else (if rs[0].channel == ch && rs[0].status == Ok then 1 else 0) + CountForOk(rs[1..], ch)
  }

  lemma {:induction false} OkSplit(rs: seq<ChannelResult>)
    ensures CountOk(rs) + CountNotOk(rs) == |rs|
    decreases |rs|
  {
    if |rs| > 0 {
      OkSplit(rs[1..]);
    }
  }

  /** The ledger's records of a post appended last come last. */
  lemma {:induction false} AllResultsAppend(posts: seq<Post>, p: Post)
    ensures AllResults(posts + [p]) == AllResults(posts) + p.results
    decreases |posts|
  {
    if |posts| == 0 {
      assert AllResults([p]) == p.results + AllResults([]);
    } else {
      assert (posts + [p])[1..] == posts[1..] + [p];
      AllResultsAppend(posts[1..], p);
    }
  }

  // ---------------------------------------------------------------------------
  // The table counts what it should
  // ---------------------------------------------------------------------------

  /**
    Every row of the tabulated table counts exactly the records of its
    channel: all of them in `total`, the `ok` ones in `success`.
  */
  lemma {:induction false} TabulateCounts(t: seq<Tally>, rs: seq<ChannelResult>, c: string)
    requires Table(t)
    ensures Lookup(Tabulate(t, rs), c).total == Lookup(t, c).total + CountFor(rs, c)
    ensures Lookup(Tabulate(t, rs), c).success == Lookup(t, c).success + CountForOk(rs, c)
    decreases |rs|
  {
    if |rs| > 0 {
      TickLookup(t, rs[0], c);
      TabulateCounts(Tick(t, rs[0]), rs[1..], c);
    }
  }

  /** The table's channels: those it started with and those that have a record. */
  lemma {:induction false} TabulateKeys(t: seq<Tally>, rs: seq<ChannelResult>)
    requires Table(t)
    ensures forall c :: c in Keys(Tabulate(t, rs)) <==> c in Keys(t) || CountFor(rs, c) > 0
    decreases |rs|
  {
    if |rs| > 0 {
      var t1 := Tick(t, rs[0]);
      TabulateKeys(t1, rs[1..]);
      assert Tabulate(t, rs) == Tabulate(t1, rs[1..]);
      forall c ensures c in Keys(Tabulate(t, rs)) <==> c in Keys(t) || CountFor(rs, c) > 0 {
        assert c in Keys(t1) <==> c in Keys(t) || c == rs[0].channel;
        assert CountFor(rs, c) > 0 <==> c == rs[0].channel || CountFor(rs[1..], c) > 0;
      }
    }
  }

  // ---------------------------------------------------------------------------
  // Sums over the table
  // ---------------------------------------------------------------------------

  function SumSuccess(t: seq<Tally>): nat
    decreases |t|
  {
    if |t| == 0 then 0 else t[0].success + SumSuccess(t[1..])
  }

  function SumFailed(t: seq<Tally>): nat
    decreases |t|
  {
    if |t| == 0 then 0 else t[0].failed + SumFailed(t[1..])
  }

  function SumTotal(t: seq<Tally>): nat
    decreases |t|
  {
    if |t| == 0 then 0 else t[0].total + SumTotal(t[1..])
  }

  /** Replacing one row changes each sum by the difference of the two rows. */
  lemma {:induction false} SumsUpdate(t: seq<Tally>, k: nat, x: Tally)
    requires k < |t|
    ensures SumSuccess(t[k := x]) == SumSuccess(t) - t[k].success + x.success
    ensures SumFailed(t[k := x]) == SumFailed(t) - t[k].failed + x.failed
    ensures SumTotal(t[k := x]) == SumTotal(t) - t[k].total + x.total
    decreases |t|
  {
    if k > 0 {
      SumsUpdate(t[1..], k - 1, x);
      assert t[k := x][1..] == t[1..][k - 1 := x];
    }
  }

  /** Appending a row adds it to each sum. */
  lemma {:induction false} SumsAppend(t: seq<Tally>, x: Tally)
    ensures SumSuccess(t + [x]) == SumSuccess(t) + x.success
    ensures SumFailed(t + [x]) == SumFailed(t) + x.failed
    ensures SumTotal(t + [x]) == SumTotal(t) + x.total
    decreases |t|
  {
    if |t| == 0 {
      assert [x][1..] == [];
    } else {
      SumsAppend(t[1..], x);
      assert (t + [x])[1..] == t[1..] + [x];
    }
  }

  /** One result adds one to the total and one to the success or the failed sum. */
  lemma TickSums(t: seq<Tally>, r: ChannelResult)
    requires Table(t)
    ensures SumTotal(Tick(t, r)) == SumTotal(t) + 1
    ensures SumSuccess(Tick(t, r)) == SumSuccess(t) + (if r.status == Ok then 1 else 0)
    ensures SumFailed(Tick(t, r)) == SumFailed(t) + (if r.status == Ok then 0 else 1)
  {
    var t1 := WithRow(t, r.channel);
    if r.channel !in Keys(t) {
      SumsAppend(t, Zero(r.channel));
    }
    var k := Registry.IndexOf(Keys(t1), r.channel);
    SumsUpdate(t1, k, Bump(t1[k], r.status == Ok));
  }

  lemma {:induction false} TabulateSums(t: seq<Tally>, rs: seq<ChannelResult>)
    requires Table(t)
    ensures SumTotal(Tabulate(t, rs)) == SumTotal(t) + |rs|
    ensures SumSuccess(Tabulate(t, rs)) == SumSuccess(t) + CountOk(rs)
    ensures SumFailed(Tabulate(t, rs)) == SumFailed(t) + CountNotOk(rs)
    decreases |rs|
  {
    if |rs| > 0 {
      TickSums(t, rs[0]);
      TabulateSums(Tick(t, rs[0]), rs[1..]);
    }
  }

  lemma {:induction false} ZeroSums(t: seq<Tally>)
    requires forall i :: 0 <= i < |t| ==> t[i] == Zero(t[i].channel)
    ensures SumSuccess(t) == 0 && SumFailed(t) == 0 && SumTotal(t) == 0
    decreases |t|
  {
    if |t| > 0 {
      assert forall i :: 0 <= i < |t[1..]| ==> t[1..][i] == t[i + 1];
      ZeroSums(t[1..]);
    }
  }

  // ---------------------------------------------------------------------------
  // The two reports
  // ---------------------------------------------------------------------------

  /** `s[::-1]`: the elements of `s` in the opposite order. */
  function Reverse<T>(s: seq<T>): (r: seq<T>)
    ensures |r| == |s|
    ensures forall i :: 0 <= i < |s| ==> r[i] == s[|s| - 1 - i]
  {
    if s == [] then [] else Reverse(s[1..]) + [s[0]]
  }

  /** The five most recent posts, newest first: `posts[-5:][::-1]`. */
  function Recent(posts: seq<Post>): (r: seq<Post>)
    ensures |r| == if |posts| < 5 then |posts| else 5
    ensures forall i :: 0 <= i < |r| ==> r[i] == posts[|posts| - 1 - i]
  {
    var n := if |posts| < 5 then |posts| else 5;
    Reverse(posts[|posts| - n..])
  }

  /**
    Recording a post puts it at the head of the recent list and pushes the
    oldest of five out.
  */
  lemma RecentAfterRecord(posts: seq<Post>, p: Post)
    ensures Recent(posts + [p]) == [p] + Recent(posts)[..if |posts| < 5 then |posts| else 4]
  {
  }

  /** What /analytics computes (without the percentages and the rendering). */
  datatype Report = Report(
    totalPosts: nat,
    totalChannels: nat,
    deliveries: nat,
    successes: nat,
    failures: nat,
    rows: seq<Tally>,
    recent: seq<Post>)

  /** `handle_analytics`: the per-channel table over the ledger, its sums, and the recent posts. */
  function Analyze(posts: seq<Post>, chs: seq<string>): (r: Report)
    ensures Table(r.rows)
    ensures r.totalPosts == |posts| && r.totalChannels == |chs|
    // the totals are the counts over every record of the ledger
    ensures r.deliveries == |AllResults(posts)|
    ensures r.successes == CountOk(AllResults(posts))
    ensures r.failures == CountNotOk(AllResults(posts))
    // one row for every registered channel and every channel that has records, and no other
    ensures forall c :: c in Keys(r.rows) <==> c in chs || CountFor(AllResults(posts), c) > 0
    // each row counts its channel's records
    ensures forall c :: Lookup(r.rows, c).total == CountFor(AllResults(posts), c)
                     && Lookup(r.rows, c).success == CountForOk(AllResults(posts), c)
    ensures r.recent == Recent(posts)
  {
    var all := AllResults(posts);
    var init := InitTable(chs);
    var rows := Tabulate(init, all);
    TabulateSums(init, all);
    ZeroSums(init);
    TabulateKeys(init, all);
    forall c ensures Lookup(rows, c).total == CountFor(all, c) && Lookup(rows, c).success == CountForOk(all, c) {
      TabulateCounts(init, all, c);
      if c in Keys(init) {
        assert init[Registry.IndexOf(Keys(init), c)] == Zero(c);
      }
    }
    Report(|posts|, |chs|, SumTotal(rows), SumSuccess(rows), SumFailed(rows), rows, Recent(posts))
  }

  /** What /stats computes (without the percentage and the rendering). */
  datatype Quick = Quick(totalPosts: nat, totalChannels: nat, success: nat, failed: nat, lastPost: Option<int>)

  /** `handle_stats`: counts over the flat list of records, and the time of the latest post. */
  function QuickStats(posts: seq<Post>, chs: seq<string>): (q: Quick)
    ensures q.success + q.failed == |AllResults(posts)|
    ensures q.lastPost.Some? <==> |posts| > 0
    ensures q.lastPost.Some? ==> q.lastPost.value == posts[|posts| - 1].time
  {
    var all := AllResults(posts);
    OkSplit(all);
    Quick(|posts|, |chs|, CountOk(all), CountNotOk(all),
          if |posts| > 0 then Some(posts[|posts| - 1].time) else None)
  }

  /** /analytics and /stats report the same success and failure totals. */
  lemma ReportsAgree(posts: seq<Post>, chs: seq<string>)
    ensures Analyze(posts, chs).successes == QuickStats(posts, chs).success
    ensures Analyze(posts, chs).failures == QuickStats(posts, chs).failed
    ensures Analyze(posts, chs).deliveries == QuickStats(posts, chs).success + QuickStats(posts, chs).failed
  {
  }

  /**
    A broadcast over a non-empty registry adds between one and two deliveries
    per registered channel to the totals, one success per `ok` record.
  */
  lemma BroadcastDeliveries(cfg: Config, reply: Transport, s: Bot, cursor: nat, msg: MessageRef, origin: Option<int>)
    requires |s.channels| > 0
    ensures var r := Dispatch.Broadcast(cfg, reply, s, cursor, msg, origin);
            var before := Analyze(s.posts, s.channels);
            var after := Analyze(r.bot.posts, r.bot.channels);
            && after.deliveries == before.deliveries + |r.results|
            && |s.channels| <= after.deliveries - before.deliveries <= 2 * |s.channels|
            && after.successes == before.successes + CountOk(r.results)
  {
    var r := Dispatch.Broadcast(cfg, reply, s, cursor, msg, origin);
    var p := Post(msg, r.results, origin, r.bot.clock);
    AllResultsAppend(s.posts, p);
    Dispatch.MatchesShape(r.results, s.channels);
    CountOkAppend(AllResults(s.posts), r.results);
  }

  lemma {:induction false} CountOkAppend(a: seq<ChannelResult>, b: seq<ChannelResult>)
    ensures CountOk(a + b) == CountOk(a) + CountOk(b)
    decreases |a|
  {
    if |a| > 0 {
      assert (a + b)[1..] == a[1..] + b;
      CountOkAppend(a[1..], b);
    } else {
      assert a + b == b;
    }
  }
}
