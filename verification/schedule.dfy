/**
  The /schedule command: parse a time specification relative to the current
  local time and append a pending `copy` entry for the replied-to message to
  the outbox.
*/
module Schedule {
  import opened Wrappers
  import opened Text
  import opened State
  import Outbox

  const MINUTE: int := 60_000
  const HOUR: int := 3_600_000
  const DAY: int := 86_400_000

  /** Why /schedule adds nothing. */
  datatype ScheduleError =
    | NotAReply      // the command does not reply to a message
    | NoArgs         // no time was given
    | InvalidFormat  // the time matches none of the four forms
    | InvalidTime    // a form matched but a number or the hour/minute range was rejected

  /** Midnight of the day `now` falls in. */
  function DayStart(now: int): (d: int)
    ensures d <= now < d + DAY
  {
    now - now % DAY
  }

  /** Midnight is a whole number of days. */
  lemma DayStartAligned(now: int)
    ensures DayStart(now) % DAY == 0
  {
  }

  /**
    `hour, minute = map(int, part.split(':'))` followed by `replace(hour=…,
    minute=…)`: the offset of that time of day from midnight, or None when
    the text does not split in two, a part is not an integer, or the hour or
    minute is out of range.
  */
  function ClockOffset(part: string): (r: Option<int>)
    ensures r.Some? ==> 0 <= r.value < DAY
    ensures r.Some? ==> SplitPair(part, ':').Some?
  {
    match SplitPair(part, ':')
    case None => None
    case Some(p) =>
      match (ParseInt(p.0), ParseInt(p.1))
      case (Some(h), Some(m)) =>
        if 0 <= h <= 23 && 0 <= m <= 59 then Some(h * HOUR + m * MINUTE) else None
      case _ => None
  }

  /** The four forms, in the order they are tried. */
  predicate MinutesForm(s: string) {
    EndsWith(s, 'm')
  }

  predicate HoursForm(s: string) {
    !EndsWith(s, 'm') && EndsWith(s, 'h')
  }

  predicate TomorrowForm(s: string) {
    !EndsWith(s, 'm') && !EndsWith(s, 'h') && Contains(Lower(s), "tomorrow")
  }

  predicate ClockForm(s: string) {
    !EndsWith(s, 'm') && !EndsWith(s, 'h') && !Contains(Lower(s), "tomorrow") && ':' in s
  }

  /** What is left of a `tomorrow` form once the word and the surrounding blanks are gone. */
  function TomorrowPart(s: string): string {
    Strip(RemoveAll(Lower(s), "tomorrow"))
  }

  /** `now + timedelta(...)` for `<n>m` and `<n>h`: `unit` milliseconds per count. */
  function Relative(s: string, now: int, unit: int): (r: Result<int, ScheduleError>)
    requires |s| > 0
    ensures r.Failure? ==> r.error == InvalidTime
    ensures r.Success? <==> ParseInt(s[..|s| - 1]).Some?
  {
    match ParseInt(s[..|s| - 1])
    case Some(n) => Success(now + n * unit)
    case None => Failure(InvalidTime)
  }

  /** `tomorrow [HH:MM]`: that time tomorrow, or exactly a day from now. */
  function Tomorrow(s: string, now: int): (r: Result<int, ScheduleError>)
    ensures r.Failure? ==> r.error == InvalidTime
    // always strictly later, and before the end of the day after today
    ensures r.Success? ==> now < r.value < DayStart(now) + 2 * DAY
    ensures ':' !in TomorrowPart(s) ==> r == Success(now + DAY)
  {
    var part := TomorrowPart(s);
    if ':' in part then
      match ClockOffset(part)
      case Some(off) => Success(DayStart(now) + DAY + off)
      case None => Failure(InvalidTime)
    else Success(now + DAY)
  }

  /** `HH:MM`: that time today, or tomorrow when it has already passed. */
  function AtClock(s: string, now: int): (r: Result<int, ScheduleError>)
    ensures r.Failure? ==> r.error == InvalidTime
    // never in the past, less than a day ahead
    ensures r.Success? ==> now <= r.value < now + DAY
  {
    match ClockOffset(s)
    case Some(off) =>
      var t := DayStart(now) + off;
      Success(if t < now then t + DAY else t)
    case None => Failure(InvalidTime)
  }

  /** The send time a /schedule argument denotes, given the current local time `now`. */
  function ParseTimeSpec(s: string, now: int): (r: Result<int, ScheduleError>)
    ensures r.Failure? ==> r.error == InvalidFormat || r.error == InvalidTime
    ensures (r.Failure? && r.error == InvalidFormat) <==> !MinutesForm(s) && !HoursForm(s) && !TomorrowForm(s) && !ClockForm(s)
    ensures TomorrowForm(s) && r.Success? ==> now < r.value < DayStart(now) + 2 * DAY
    ensures ClockForm(s) && r.Success? ==> now <= r.value < now + DAY
    // the relative forms fail exactly when the number before the unit is not an integer
    ensures MinutesForm(s) || HoursForm(s) ==> (r.Success? <==> ParseInt(s[..|s| - 1]).Some?)
  {
    if MinutesForm(s) then Relative(s, now, MINUTE)
    else if HoursForm(s) then Relative(s, now, HOUR)
    else if TomorrowForm(s) then Tomorrow(s, now)
    else if ClockForm(s) then AtClock(s, now)
    else Failure(InvalidFormat)
  }

  // ---------------------------------------------------------------------------
  // The forms read back
  // ---------------------------------------------------------------------------

  /** How each form is read, for any text of that form. */
  lemma MinutesFormReads(s: string, now: int, n: int)
    requires MinutesForm(s) && ParseInt(s[..|s| - 1]) == Some(n)
    ensures ParseTimeSpec(s, now) == Success(now + n * MINUTE)
  {
  }

  lemma HoursFormReads(s: string, now: int, n: int)
    requires HoursForm(s) && ParseInt(s[..|s| - 1]) == Some(n)
    ensures ParseTimeSpec(s, now) == Success(now + n * HOUR)
  {
  }

  /** `str(n) + "m"` is read back as `n` minutes from now. */
  lemma MinutesRoundTrip(n: int, now: int)
    ensures ParseTimeSpec(ShowInt(n) + "m", now) == Success(now + n * MINUTE)
  {
    var k := ShowInt(n);
    var s := k + "m";
    assert s[..|s| - 1] == k;
    ParseShowRoundTrip(n);
    MinutesFormReads(s, now, n);
  }

  /** `str(n) + "h"` is read back as `n` hours from now. */
  lemma HoursRoundTrip(n: int, now: int)
    ensures ParseTimeSpec(ShowInt(n) + "h", now) == Success(now + n * HOUR)
  {
    var k := ShowInt(n);
    var s := k + "h";
    assert s[..|s| - 1] == k && !EndsWith(s, 'm');
    ParseShowRoundTrip(n);
    HoursFormReads(s, now, n);
  }

  /** `HH:MM` as `str(h) + ":" + str(m)`. */
  function ClockText(h: nat, m: nat): string {
    ShowNat(h) + ":" + ShowNat(m)
  }

  /** Offset of `h:m` from midnight. */
  function TimeOfDay(h: nat, m: nat): int {
    h * HOUR + m * MINUTE
  }

  /** Digits and colons only: no letters to lower, no blanks, no `tomorrow`. */
  predicate DigitsAndColons(t: string) {
    forall i :: 0 <= i < |t| ==> IsDigit(t[i]) || t[i] == ':'
  }

  lemma DigitsAndColonsFacts(t: string)
    requires DigitsAndColons(t)
    ensures Lower(t) == t
    ensures !Contains(t, "tomorrow")
    ensures forall i :: 0 <= i < |t| ==> !IsSpace(t[i])
  {
    if Contains(t, "tomorrow") {
      ContainsHead(t, "tomorrow");
      assert false;
    }
  }

  lemma ClockTextFacts(h: nat, m: nat)
    ensures DigitsAndColons(ClockText(h, m))
    ensures ':' in ClockText(h, m)
    ensures !EndsWith(ClockText(h, m), 'm') && !EndsWith(ClockText(h, m), 'h')
  {
    var a, b := ShowNat(h), ShowNat(m);
    var t := ClockText(h, m);
    assert forall i :: 0 <= i < |t| ==> t[i] == if i < |a| then a[i] else if i == |a| then ':' else b[i - |a| - 1];
    assert t[|a|] == ':';
  }

  /** Two colon-free integers around a colon, in range, are read as that time of day. */
  lemma ClockOffsetReads(a: string, b: string, h: nat, m: nat)
    requires ':' !in a && ':' !in b
    requires ParseInt(a) == Some(h as int) && ParseInt(b) == Some(m as int)
    requires h <= 23 && m <= 59
    ensures ClockOffset(a + ":" + b).Some? && ClockOffset(a + ":" + b).value == TimeOfDay(h, m)
  {
    SplitPairOf(a, ':', b);
    assert a + ":" + b == a + [':'] + b;
  }

  /** A valid `HH:MM` is read back as its offset from midnight. */
  lemma ClockOffsetOfText(h: nat, m: nat)
    requires h <= 23 && m <= 59
    ensures ClockOffset(ClockText(h, m)) == Some(TimeOfDay(h, m))
  {
    var a, b := ShowNat(h), ShowNat(m);
    assert ':' !in a && ':' !in b by {
      assert forall i :: 0 <= i < |a| ==> IsDigit(a[i]);
      assert forall i :: 0 <= i < |b| ==> IsDigit(b[i]);
    }
    ParseNatText(h);
    ParseNatText(m);
    ClockOffsetReads(a, b, h, m);
  }

  /** A time of day the same day or the day after: midnight plus the offset. */
  lemma DayStartPlus(d: int, off: int)
    requires d % DAY == 0 && 0 <= off < DAY
    ensures DayStart(d + off) == d
  {
    var k := d / DAY;
    assert d == k * DAY;
    assert (k * DAY + off) / DAY == k;
  }

  /** The time of day `off` today if it is still to come, otherwise tomorrow. */
  function NextAt(now: int, off: int): int {
    if DayStart(now) + off < now then DayStart(now) + off + DAY else DayStart(now) + off
  }

  /** The next occurrence of a time of day is at most a day ahead and has that time of day. */
  lemma NextAtSpec(now: int, off: int)
    requires 0 <= off < DAY
    ensures now <= NextAt(now, off) < now + DAY
    ensures NextAt(now, off) - DayStart(NextAt(now, off)) == off
  {
    var d := DayStart(now);
    DayStartAligned(now);
    if d + off < now {
      assert (d + DAY) % DAY == 0;
      DayStartPlus(d + DAY, off);
    } else {
      DayStartPlus(d, off);
    }
  }

  lemma ParseIsAtClock(t: string, now: int)
    requires ClockForm(t)
    ensures ParseTimeSpec(t, now) == AtClock(t, now)
  {
  }

  lemma AtClockReads(t: string, now: int, off: int)
    requires ClockOffset(t) == Some(off)
    ensures AtClock(t, now).Success? && AtClock(t, now).value == NextAt(now, off)
  {
  }

  lemma ClockFormReads(t: string, now: int, off: int)
    requires ClockForm(t) && ClockOffset(t) == Some(off)
    ensures ParseTimeSpec(t, now) == Success(NextAt(now, off))
  {
    ParseIsAtClock(t, now);
    AtClockReads(t, now, off);
  }

  lemma ClockTextParses(h: nat, m: nat, now: int)
    requires h <= 23 && m <= 59
    ensures ParseTimeSpec(ClockText(h, m), now) == Success(NextAt(now, TimeOfDay(h, m)))
  {
    var t := ClockText(h, m);
    ClockTextFacts(h, m);
    DigitsAndColonsFacts(t);
    ClockOffsetOfText(h, m);
    ClockFormReads(t, now, TimeOfDay(h, m));
  }

  /**
    `HH:MM` is read back as the next moment, from now on, whose time of day
    is HH:MM.
  */
  lemma ClockRoundTrip(h: nat, m: nat, now: int)
    requires h <= 23 && m <= 59
    ensures var r := ParseTimeSpec(ClockText(h, m), now);
            && r.Success?
            && now <= r.value < now + DAY
            && r.value - DayStart(r.value) == TimeOfDay(h, m)
  {
    ClockTextParses(h, m, now);
    NextAtSpec(now, TimeOfDay(h, m));
  }

  /** Lower-casing leaves a text without capitals alone. */
  lemma LowerOfLower(s: string)
    requires forall i :: 0 <= i < |s| ==> LowerChar(s[i]) == s[i]
    ensures Lower(s) == s
  {
  }

  /** Removing the word from `tomorrow HH:MM` leaves ` HH:MM`. */
  lemma RemoveTomorrow(t: string)
    requires DigitsAndColons(t)
    ensures RemoveAll("tomorrow " + t, "tomorrow") == " " + t
  {
    var s := "tomorrow " + t;
    var rest := " " + t;
    assert "tomorrow" <= s;
    assert s[8..] == rest;
    assert 't' !in rest by {
      assert forall i :: 1 <= i < |rest| ==> rest[i] == t[i - 1];
    }
    if Contains(rest, "tomorrow") {
      ContainsHead(rest, "tomorrow");
    }
  }

  lemma TomorrowText(h: nat, m: nat)
    ensures var s := "tomorrow " + ClockText(h, m);
            && !EndsWith(s, 'm') && !EndsWith(s, 'h')
            && Contains(Lower(s), "tomorrow")
            && TomorrowPart(s) == ClockText(h, m)
  {
    var t := ClockText(h, m);
    var s := "tomorrow " + t;
    ClockTextFacts(h, m);
    DigitsAndColonsFacts(t);
    assert s[|s| - 1] == t[|t| - 1];
    assert forall i :: 0 <= i < |s| ==> LowerChar(s[i]) == s[i] by {
      forall i | 0 <= i < |s| ensures LowerChar(s[i]) == s[i] {
        if i >= 9 { assert s[i] == t[i - 9]; }
      }
    }
    LowerOfLower(s);
    assert "tomorrow" <= s;
    RemoveTomorrow(t);
    StripLeadingBlank(t);
  }

  lemma ParseIsTomorrow(s: string, now: int)
    requires TomorrowForm(s)
    ensures ParseTimeSpec(s, now) == Tomorrow(s, now)
  {
  }

  lemma TomorrowReads(s: string, now: int, off: int)
    requires ':' in TomorrowPart(s) && ClockOffset(TomorrowPart(s)) == Some(off)
    ensures Tomorrow(s, now).Success? && Tomorrow(s, now).value == DayStart(now) + DAY + off
  {
  }

  lemma TomorrowFormReads(s: string, now: int, off: int)
    requires TomorrowForm(s) && ':' in TomorrowPart(s) && ClockOffset(TomorrowPart(s)) == Some(off)
    ensures ParseTimeSpec(s, now).Success? && ParseTimeSpec(s, now).value == DayStart(now) + DAY + off
  {
    ParseIsTomorrow(s, now);
    TomorrowReads(s, now, off);
  }

  /** `tomorrow HH:MM` is HH:MM on the day after today. */
  lemma TomorrowRoundTrip(h: nat, m: nat, now: int)
    requires h <= 23 && m <= 59
    ensures var r := ParseTimeSpec("tomorrow " + ClockText(h, m), now);
            r.Success? && r.value == DayStart(now) + DAY + TimeOfDay(h, m)
  {
    var s := "tomorrow " + ClockText(h, m);
    TomorrowText(h, m);
    ClockTextFacts(h, m);
    ClockOffsetOfText(h, m);
    TomorrowFormReads(s, now, TimeOfDay(h, m));
  }

  // ---------------------------------------------------------------------------
  // The command
  // ---------------------------------------------------------------------------

  /**
    `handle_schedule` without the admin check and the reply texts: the
    arguments are joined with blanks and parsed; on success one pending copy
    entry for the replied-to message is appended to the outbox.
  */
  function ScheduleEntry(outbox: seq<Entry>, replyTo: Option<MessageRef>, args: seq<string>,
                         now: int, admin: int): (r: Result<seq<Entry>, ScheduleError>)
    ensures r == Failure(NotAReply) <==> replyTo.None?
    ensures r == Failure(NoArgs) <==> replyTo.Some? && |args| == 0
    ensures r.Success? <==> replyTo.Some? && |args| > 0 && ParseTimeSpec(Join(args, " "), now).Success?
    ensures r.Success? ==>
              && |r.value| == |outbox| + 1
              && r.value[..|outbox|] == outbox
              && var e := r.value[|outbox|];
                 && e.kind == Copy && e.status == Pending
                 && e.fromChat == Some(replyTo.value.fromChat) && e.messageId == Some(replyTo.value.messageId)
                 && e.sendAt == Some(ParseTimeSpec(Join(args, " "), now).value)
                 && e.origin == Some(admin)
  {
    if replyTo.None? then Failure(NotAReply)
    else if |args| == 0 then Failure(NoArgs)
    else
      match ParseTimeSpec(Join(args, " "), now)
      case Failure(err) => Failure(err)
      case Success(t) =>
        var e := Entry(Copy, Some(replyTo.value.fromChat), Some(replyTo.value.messageId), Some(t),
                       Pending, Some(admin), [], None, None);
        Success(outbox + [e])
  }

  /** Scheduling appends one entry and keeps a readable outbox readable. */
  lemma ScheduleKeepsReadable(outbox: seq<Entry>, replyTo: Option<MessageRef>, args: seq<string>,
                              now: int, admin: int)
    requires Outbox.AllReadable(outbox)
    requires ScheduleEntry(outbox, replyTo, args, now, admin).Success?
    ensures Outbox.AllReadable(ScheduleEntry(outbox, replyTo, args, now, admin).value)
  {
    var o := ScheduleEntry(outbox, replyTo, args, now, admin).value;
    assert forall i :: 0 <= i < |outbox| ==> o[i] == outbox[i];
  }

  /**
    The next pass, at clock `later`, after a message was scheduled: it sends
    the message when its send time has come, and leaves it pending otherwise.
  */
  lemma ScheduleThenSweep(cfg: Config, reply: Transport, s: Bot, cursor: nat, replyTo: Option<MessageRef>,
                          args: seq<string>, admin: int, later: int)
    requires Outbox.AllReadable(s.outbox)
    requires ScheduleEntry(s.outbox, replyTo, args, s.clock, admin).Success?
    ensures var o := ScheduleEntry(s.outbox, replyTo, args, s.clock, admin).value;
            var t := o[|s.outbox|].sendAt.value;
            var w := Outbox.Sweep(cfg, reply, s.(outbox := o, clock := later), cursor);
            && w.Success?
            && (later >= t ==> w.value.bot.outbox[|s.outbox|].status == Sent
                               && w.value.bot.outbox[|s.outbox|].sentAt.value >= t)
            && (later < t ==> w.value.bot.outbox[|s.outbox|] == o[|s.outbox|])
  {
    var o := ScheduleEntry(s.outbox, replyTo, args, s.clock, admin).value;
    ScheduleKeepsReadable(s.outbox, replyTo, args, s.clock, admin);
    Outbox.SweepEntries(cfg, reply, s.(outbox := o, clock := later), cursor);
  }

  /**
    A scheduled message stays exactly as it was through every pass of the
    outbox loop that starts before its send time, and the first pass that
    starts at or after it sends the message, stamped no earlier than that time.
  */
  lemma ScheduleThenLoop(cfg: Config, reply: Transport, s: Bot, cursor: nat, replyTo: Option<MessageRef>,
                         args: seq<string>, admin: int, n: nat)
    requires Outbox.AllReadable(s.outbox)
    requires ScheduleEntry(s.outbox, replyTo, args, s.clock, admin).Success?
    requires n > 0
    ensures var o := ScheduleEntry(s.outbox, replyTo, args, s.clock, admin).value;
            var t := o[|s.outbox|].sendAt.value;
            var start := Outbox.Loop(cfg, reply, s.(outbox := o), cursor, n - 1).bot.clock;
            var e := Outbox.Loop(cfg, reply, s.(outbox := o), cursor, n).bot.outbox[|s.outbox|];
            && (start < t ==> e == o[|s.outbox|])
            && (start >= t ==> e.status == Sent && e.sentAt.Some? && e.sentAt.value >= t)
  {
    var o := ScheduleEntry(s.outbox, replyTo, args, s.clock, admin).value;
    ScheduleKeepsReadable(s.outbox, replyTo, args, s.clock, admin);
    var s' := s.(outbox := o);
    if Outbox.Loop(cfg, reply, s', cursor, n - 1).bot.clock < o[|s.outbox|].sendAt.value {
      Outbox.LoopKeepsPending(cfg, reply, s', cursor, n, |s.outbox|);
    } else {
      Outbox.LoopDelivers(cfg, reply, s', cursor, n, |s.outbox|);
    }
  }
}
