/**
 * `formatDate` and `formatRelativeTime`: the time since a timestamp, in
 * buckets. Timestamps are integer milliseconds; the current time and the
 * locale calendar rendering (`toLocaleDateString`) are parameters.
 */
module DateFormat {
  import opened Text

  const MsPerMinute: nat := 1000 * 60
  const MsPerHour: nat := 1000 * 60 * 60
  const MsPerDay: nat := 1000 * 60 * 60 * 24

  /** `Math.abs(now - date)`. */
  function Elapsed(timestamp: int, now: int): nat
  {
    if now >= timestamp then now - timestamp else timestamp - now
  }

  /** `Math.ceil(ms / 86400000)`: the least whole number of days covering `ms`. */
  function CeilDays(ms: nat): (days: nat)
    ensures ms <= days * MsPerDay
    ensures days == 0 || (days - 1) * MsPerDay < ms
  {
    (ms + MsPerDay - 1) / MsPerDay
  }

  /** `formatDate`: "Yesterday" for one started day, "d days ago" below a week, else the calendar date. */
  function FormatDate(timestamp: int, now: int, localeDate: int -> string): (shown: string)
    ensures Elapsed(timestamp, now) == 0 ==> shown == "0 days ago"
    ensures 0 < Elapsed(timestamp, now) <= MsPerDay ==> shown == "Yesterday"
    ensures Elapsed(timestamp, now) > 6 * MsPerDay ==> shown == localeDate(timestamp)
  {
    var days := CeilDays(Elapsed(timestamp, now));
    if days == 1 then "Yesterday"
    else if days < 7 then Decimal(days) + " days ago"
    else localeDate(timestamp)
  }

  /** A gap of more than k-1 and at most k days, for k from 2 to 6, reads "k days ago". */
  lemma FormatDateDaysAgo(timestamp: int, now: int, localeDate: int -> string, k: nat)
    requires 2 <= k <= 6
    requires (k - 1) * MsPerDay < Elapsed(timestamp, now) <= k * MsPerDay
    ensures FormatDate(timestamp, now, localeDate) == Decimal(k) + " days ago"
  {
    var days := CeilDays(Elapsed(timestamp, now));
    assert days == k;
  }

  /** Dated examples: exactly a day, half a day, five days and ten days before now. */
  lemma FormatDateExamples(now: int, localeDate: int -> string)
    ensures FormatDate(now - MsPerDay, now, localeDate) == "Yesterday"
    ensures FormatDate(now - MsPerDay / 2, now, localeDate) == "Yesterday"
    ensures FormatDate(now - 5 * MsPerDay, now, localeDate) == "5 days ago"
    ensures FormatDate(now - 10 * MsPerDay, now, localeDate) == localeDate(now - 10 * MsPerDay)
  {
    FormatDateDaysAgo(now - 5 * MsPerDay, now, localeDate, 5);
    assert Decimal(5) == "5";
  }

  function Plural(n: nat): string
  {
    if n > 1 then "s" else ""
  }

  /** `formatRelativeTime`: whole minutes, hours or days elapsed (rounded down), else the calendar date. */
  function FormatRelativeTime(timestamp: int, now: int, localeDate: int -> string): (shown: string)
    ensures Elapsed(timestamp, now) < MsPerMinute ==> shown == "Just now"
    ensures Elapsed(timestamp, now) >= 7 * MsPerDay ==> shown == localeDate(timestamp)
  {
    var elapsed := Elapsed(timestamp, now);
    var minutes, hours, days := elapsed / MsPerMinute, elapsed / MsPerHour, elapsed / MsPerDay;
    if minutes < 1 then "Just now"
    else if minutes < 60 then Decimal(minutes) + " minute" + Plural(minutes) + " ago"
    else if hours < 24 then Decimal(hours) + " hour" + Plural(hours) + " ago"
    else if days < 7 then Decimal(days) + " day" + Plural(days) + " ago"
    else localeDate(timestamp)
  }

  /** Between k and k+1 minutes (k < 60) reads "k minute(s) ago". */
  lemma RelativeMinutes(timestamp: int, now: int, localeDate: int -> string, k: nat)
    requires 1 <= k < 60
    requires k * MsPerMinute <= Elapsed(timestamp, now) < (k + 1) * MsPerMinute
    ensures FormatRelativeTime(timestamp, now, localeDate)
      == Decimal(k) + (if k == 1 then " minute ago" else " minutes ago")
  {
    assert Elapsed(timestamp, now) / MsPerMinute == k;
  }

  /** Between k and k+1 hours (k < 24) reads "k hour(s) ago". */
  lemma RelativeHours(timestamp: int, now: int, localeDate: int -> string, k: nat)
    requires 1 <= k < 24
    requires k * MsPerHour <= Elapsed(timestamp, now) < (k + 1) * MsPerHour
    ensures FormatRelativeTime(timestamp, now, localeDate)
      == Decimal(k) + (if k == 1 then " hour ago" else " hours ago")
  {
    assert Elapsed(timestamp, now) / MsPerMinute >= 60;
    assert Elapsed(timestamp, now) / MsPerHour == k;
  }

  /** Between k and k+1 days (k < 7) reads "k day(s) ago". */
  lemma RelativeDays(timestamp: int, now: int, localeDate: int -> string, k: nat)
    requires 1 <= k < 7
    requires k * MsPerDay <= Elapsed(timestamp, now) < (k + 1) * MsPerDay
    ensures FormatRelativeTime(timestamp, now, localeDate)
      == Decimal(k) + (if k == 1 then " day ago" else " days ago")
  {
    assert Elapsed(timestamp, now) / MsPerMinute >= 60;
    assert Elapsed(timestamp, now) / MsPerHour >= 24;
    assert Elapsed(timestamp, now) / MsPerDay == k;
  }

  /**
   * The two formatters disagree below a day: twelve hours back is "Yesterday"
   * for `formatDate` and "12 hours ago" for `formatRelativeTime`.
   */
  lemma FormattersDisagree(now: int, localeDate: int -> string)
    ensures FormatDate(now - 12 * MsPerHour, now, localeDate) == "Yesterday"
    ensures FormatRelativeTime(now - 12 * MsPerHour, now, localeDate) == "12 hours ago"
  {
    RelativeHours(now - 12 * MsPerHour, now, localeDate, 12);
    assert Decimal(12) == "12";
  }
}
