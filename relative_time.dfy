/**
 * The `datefmt` template filter: how long ago an item was created, as a short
 * label. The clock read and the ISO-8601 parsing are outside the model: the
 * filter is given the elapsed whole seconds `s` (negative when the timestamp
 * lies in the future) and the text that `strftime("%b %d, %Y")` produces for
 * the creation date, which it shows for items thirty days old or more.
 */
module RelativeTime {
  import opened Wrappers
  import opened PyStr

  const Minute: int := 60
  const Hour: int := 3600
  const Day: int := 86400

  /** The six kinds of label, with the count a label prints. */
  datatype Age =
    | JustNow
    | MinutesAgo(minutes: nat)
    | HoursAgo(hours: nat)
    | Yesterday
    | DaysAgo(days: nat)
    | OnDate

  /** Which label fits `s` elapsed seconds, said by the interval of seconds
      each label covers rather than by the divisions the filter performs. */
  ghost predicate Describes(s: int, a: Age) {
    match a
    case JustNow => s < Minute
    case MinutesAgo(m) => 1 <= m <= 59 && m * Minute <= s < (m + 1) * Minute
    case HoursAgo(h) => 1 <= h <= 23 && h * Hour <= s < (h + 1) * Hour
    case Yesterday => Day <= s < 2 * Day
    case DaysAgo(d) => 2 <= d <= 29 && d * Day <= s < (d + 1) * Day
    case OnDate => s >= 30 * Day
  }

  /** The branch chain of `datefmt`: Python's `//` is floor division, which
      agrees with Dafny's `/` here because every divided `s` is positive. */
  function Classify(s: int): (a: Age)
    ensures Describes(s, a)
  {
    if s < 60 then JustNow
    else if s < 3600 then MinutesAgo(s / 60)
    else if s < 86400 then HoursAgo(s / 3600)
    else
      var d := s / 86400;
      if d == 1 then Yesterday
      else if d < 30 then DaysAgo(d)
      else OnDate
  }

  /** Reads a relative label back into the age it stands for; the dated
      label is not read, and neither is a count printed with a leading zero,
      which `str(n)` never produces. */
  function ParseAge(t: string): Option<Age> {
    if |t| >= 6 && t[|t| - 4..] == " ago" && IsDecimal(t[..|t| - 5]) then
      var n := DecimalValue(t[..|t| - 5]);
      var unit := t[|t| - 5];
      if unit == 'm' then Some(MinutesAgo(n))
      else if unit == 'h' then Some(HoursAgo(n))
      else if unit == 'd' then Some(DaysAgo(n))
      else None
    else if t == "just now" then Some(JustNow)
    else if t == "yesterday" then Some(Yesterday)
    else None
  }

  /** A counted label reads back with its count and unit. */
  lemma ParseCount(n: nat, suffix: string)
    requires suffix in {"m ago", "h ago", "d ago"}
    ensures ParseAge(Decimal(n) + suffix)
         == Some(if suffix[0] == 'm' then MinutesAgo(n) else if suffix[0] == 'h' then HoursAgo(n) else DaysAgo(n))
  {
    var t := Decimal(n) + suffix;
    assert t[|t| - 4..] == suffix[1..] == " ago";
    assert t[..|t| - 5] == Decimal(n);
    assert t[|t| - 5] == suffix[0];
    DecimalRoundTrip(n);
  }

  /** A zero-padded count is not a label `datefmt` prints. */
  lemma ParseRejectsPadding()
    ensures ParseAge("05m ago") == None
  {
    assert "05m ago"[..2] == "05";
  }

  lemma ParseFixedLabels()
    ensures ParseAge("just now") == Some(JustNow)
    ensures ParseAge("yesterday") == Some(Yesterday)
  {
  }

  /** The text of a label (the f-strings of `datefmt`). Every relative
      label reads back as the age it was rendered from. */
  function Render(a: Age, onDate: string): (r: string)
    ensures !a.OnDate? ==> ParseAge(r) == Some(a)
    ensures a.OnDate? ==> r == onDate
  {
    ParseFixedLabels();
    match a
    case JustNow => "just now"
    case MinutesAgo(m) => ParseCount(m, "m ago"); Decimal(m) + "m ago"
    case HoursAgo(h) => ParseCount(h, "h ago"); Decimal(h) + "h ago"
    case Yesterday => "yesterday"
    case DaysAgo(d) => ParseCount(d, "d ago"); Decimal(d) + "d ago"
    case OnDate => onDate
  }

  /** `datefmt` for an item created `s` seconds ago; `onDate` is the
      creation date formatted as "%b %d, %Y". Below thirty days the text
      reads back as the label that `Describes` picks for `s`; from then on it
      is the formatted date. */
  function DateFmt(s: int, onDate: string): (r: string)
    ensures s < 30 * Day ==> ParseAge(r) == Some(Classify(s))
    ensures s >= 30 * Day ==> r == onDate
  {
    Render(Classify(s), onDate)
  }

  /** Exactly one label fits any elapsed time, so that no two branches of the
      filter overlap. */
  lemma DescribesUnique(s: int, a: Age, b: Age)
    requires Describes(s, a) && Describes(s, b)
    ensures a == b
  {
  }

  /** The label of any elapsed time is the one that `Describes` picks. */
  lemma ClassifyIsTheDescription(s: int, a: Age)
    ensures Describes(s, a) <==> a == Classify(s)
  {
    if Describes(s, a) {
      DescribesUnique(s, a, Classify(s));
    }
  }

  /** Under thirty days, two elapsed times get the same text exactly when
      they fall in the same bucket: the label never conflates buckets, nor
      two different counts within one. */
  lemma DateFmtDistinguishes(s: int, t: int, onDate: string, onDate': string)
    requires s < 30 * Day && t < 30 * Day
    ensures DateFmt(s, onDate) == DateFmt(t, onDate') <==> Classify(s) == Classify(t)
  {
  }

  /** Position of a label on the scale from newest to oldest. */
  function Stage(a: Age): nat {
    match a
    case JustNow => 0
    case MinutesAgo(_) => 1
    case HoursAgo(_) => 2
    case Yesterday => 3
    case DaysAgo(_) => 4
    case OnDate => 5
  }

  function Count(a: Age): nat {
    match a
    case MinutesAgo(m) => m
    case HoursAgo(h) => h
    case DaysAgo(d) => d
    case _ => 0
  }

  /** `a` is a label at least as recent as `b`. */
  predicate NoOlder(a: Age, b: Age) {
    Stage(a) < Stage(b) || (Stage(a) == Stage(b) && Count(a) <= Count(b))
  }

  /** Something created earlier never gets a more recent label. */
  lemma ClassifyMonotone(s: int, t: int)
    requires s <= t
    ensures NoOlder(Classify(s), Classify(t))
  {
  }

  /** The filter's output bucket by bucket: "just now" below a minute,
      future timestamps included; a minute count in 1..59 below an hour; an
      hour count in 1..23 below a day; "yesterday" for a day count of one; a
      day count in 2..29; the formatted date from thirty days on. */
  lemma DateFmtBuckets(s: int, onDate: string)
    ensures s < Minute ==> DateFmt(s, onDate) == "just now"
    ensures Minute <= s < Hour ==> 1 <= s / Minute <= 59 && DateFmt(s, onDate) == Decimal(s / Minute) + "m ago"
    ensures Hour <= s < Day ==> 1 <= s / Hour <= 23 && DateFmt(s, onDate) == Decimal(s / Hour) + "h ago"
    ensures Day <= s && s / Day == 1 ==> DateFmt(s, onDate) == "yesterday"
    ensures Day <= s && 2 <= s / Day < 30 ==> DateFmt(s, onDate) == Decimal(s / Day) + "d ago"
    ensures Day <= s && s / Day >= 30 ==> DateFmt(s, onDate) == onDate
  {
  }

  /** Worked examples: 45 seconds, 5 seconds in the future, 25 hours and
      40 days. */
  lemma DateFmtExamples(onDate: string)
    ensures DateFmt(45, onDate) == "just now"
    ensures DateFmt(25 * Hour, onDate) == "yesterday"
    ensures DateFmt(40 * Day, onDate) == onDate
    ensures DateFmt(-5, onDate) == "just now"
  {
  }
}
