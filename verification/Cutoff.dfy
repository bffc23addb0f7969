/** The pruning cutoff: an instant as RFC 3339 text (section 5.6), compared as text. */
module Cutoff {
  import opened Orders
  import opened Decimals
  import opened Calendar

  // ----- The text -----------------------------------------------------------

  const SECONDS_PER_DAY: nat := 86_400

  /** `cutoff_iso` on a known clock reading: saturating subtraction of the retention. */
  function CutoffSeconds(now: nat, retentionDays: nat): nat {
    var retention := retentionDays * SECONDS_PER_DAY;
    if now >= retention then now - retention else 0
  }

  function TimeText(secondOfDay: nat): string {
    Padded(secondOfDay / 3_600, 2) + (":" + (Padded(secondOfDay % 3_600 / 60, 2)
    + (":" + (Padded(secondOfDay % 60, 2) + "Z"))))
  }

  function DateText(d: Date, rest: string): string {
    Padded(d.year, 4) + ("-" + (Padded(d.month, 2) + ("-" + (Padded(d.day, 2) + ("T" + rest)))))
  }

  /** Whole seconds since 1970 as `YYYY-MM-DDTHH:MM:SSZ`. */
  function InstantText(seconds: nat): string {
    DateText(DaysToYmd(seconds / SECONDS_PER_DAY), TimeText(seconds % SECONDS_PER_DAY))
  }

  function CutoffText(now: nat, retentionDays: nat): string {
    InstantText(CutoffSeconds(now, retentionDays))
  }

  /** SQLite's `emitted_at < ?` on text. */
  predicate TextBefore(a: string, b: string) {
    StringLe(a, b) && a != b
  }

  // ----- Four-digit years ---------------------------------------------------

  /** 10000-01-01. */
  const FIRST_LONG_DAY: nat := 2_932_897
  const FIRST_LONG_SECOND: nat := 253_402_300_800

  lemma FirstLongDay()
    ensures CivilFromDays(FIRST_LONG_DAY) == Date(10_000, 1, 1)
    ensures FIRST_LONG_SECOND == FIRST_LONG_DAY * SECONDS_PER_DAY
  {
    var z := FIRST_LONG_DAY + 719_468;
    assert z / 146_097 == 24 && z % 146_097 == 146_037;
    SplitYear(146_037, 3, 24, 3, 306);
    MonthIndexIsUnique(306, 10);
  }

  lemma FourDigitYears(days: nat)
    requires days < FIRST_WIDE_DAY
    ensures ValidDate(DaysToYmd(days))
    ensures DaysToYmd(days).year < 10_000 <==> days < FIRST_LONG_DAY
  {
    hide CivilFromDays, DateAfter, DaysToYmd;
    DaysToYmdIsCalendar(days);
    CivilCounts(FIRST_LONG_DAY);
    FirstLongDay();
    DatesIncrease(days, FIRST_LONG_DAY);
  }

  /** The fields of an instant before the year 10000, all within their widths. */
  ghost predicate ClockFields(seconds: nat, d: Date, h: nat, m: nat, s: nat) {
    && ValidDate(d) && d == DaysToYmd(seconds / SECONDS_PER_DAY)
    && seconds % SECONDS_PER_DAY == h * 3_600 + m * 60 + s
    && h < 24 && m < 60 && s < 60
  }

  lemma FieldsOf(seconds: nat) returns (d: Date, h: nat, m: nat, s: nat)
    requires seconds < FIRST_LONG_SECOND
    ensures ClockFields(seconds, d, h, m, s) && d.year < 10_000
    ensures InstantText(seconds) == FixedText(d, h, m, s)
  {
    hide DaysToYmd;
    var days, rest := seconds / SECONDS_PER_DAY, seconds % SECONDS_PER_DAY;
    FourDigitYears(days);
    d := DaysToYmd(days);
    h, m, s := rest / 3_600, rest % 3_600 / 60, rest % 60;
    assert rest % 3_600 == m * 60 + s;
    PaddedFits(h, 2);
    PaddedFits(m, 2);
    PaddedFits(s, 2);
    PaddedFits(d.year, 4);
    PaddedFits(d.month, 2);
    PaddedFits(d.day, 2);
  }

  ghost function FixedTime(h: nat, m: nat, s: nat): string {
    FixedDigits(h, 2) + (":" + (FixedDigits(m, 2) + (":" + (FixedDigits(s, 2) + "Z"))))
  }

  ghost function FixedText(d: Date, h: nat, m: nat, s: nat): string {
    FixedDigits(d.year, 4) + ("-" + (FixedDigits(d.month, 2) + ("-" + (FixedDigits(d.day, 2)
    + ("T" + FixedTime(h, m, s))))))
  }

  /** The text has 20 characters exactly through the year 9999. */
  lemma InstantTextLength(seconds: nat)
    requires seconds < FIRST_WIDE_DAY * SECONDS_PER_DAY
    ensures |InstantText(seconds)| == 20 <==> seconds < FIRST_LONG_SECOND
  {
    hide DaysToYmd;
    if seconds < FIRST_LONG_SECOND {
      var d, h, m, s := FieldsOf(seconds);
    } else {
      FourDigitYears(seconds / SECONDS_PER_DAY);
      PaddedOverflows(DaysToYmd(seconds / SECONDS_PER_DAY).year, 4);
      PaddedTwo(DaysToYmd(seconds / SECONDS_PER_DAY).month);
      PaddedTwo(DaysToYmd(seconds / SECONDS_PER_DAY).day);
      PaddedTwo(seconds % SECONDS_PER_DAY / 3_600);
      PaddedTwo(seconds % SECONDS_PER_DAY % 3_600 / 60);
      PaddedTwo(seconds % SECONDS_PER_DAY % 60);
    }
  }

  lemma PaddedTwo(n: nat)
    ensures |Padded(n, 2)| >= 2
  {}

  // ----- Reading the text back ----------------------------------------------

  /** Reads the six fields by position and counts days and seconds. */
  ghost function ReadInstant(t: string): int
    requires |t| == 20
  {
    var d := DayNumber(Date(Number(t[0..4]), Number(t[5..7]), Number(t[8..10])));
    d * SECONDS_PER_DAY + Number(t[11..13]) * 3_600 + Number(t[14..16]) * 60 + Number(t[17..19])
  }

  ghost function Number(digits: string): nat {
    if DecimalValue(digits) >= 0 then DecimalValue(digits) else 0
  }

  /** Where the two-digit fields of a separated text stand. */
  lemma Positions(x: string, sepX: string, y: string, sepY: string, z: string, rest: string)
    requires |y| == |z| == 2 && |sepX| == |sepY| == 1
    ensures var t := x + (sepX + (y + (sepY + (z + rest))));
            && t[0..|x|] == x && t[|x| + 1..|x| + 3] == y && t[|x| + 4..|x| + 6] == z && t[|x| + 6..] == rest
  {}

  lemma FixedFieldPositions(d: Date, h: nat, m: nat, s: nat)
    ensures |FixedText(d, h, m, s)| == 20
    ensures var t := FixedText(d, h, m, s);
            && t[0..4] == FixedDigits(d.year, 4) && t[5..7] == FixedDigits(d.month, 2)
            && t[8..10] == FixedDigits(d.day, 2)
            && t[11..13] == FixedDigits(h, 2) && t[14..16] == FixedDigits(m, 2) && t[17..19] == FixedDigits(s, 2)
  {
    hide FixedDigits, FixedTime;
    var u := FixedTime(h, m, s);
    var t := FixedText(d, h, m, s);
    FixedTimePositions(h, m, s);
    Positions(FixedDigits(d.year, 4), "-", FixedDigits(d.month, 2), "-", FixedDigits(d.day, 2), "T" + u);
    assert t[10..] == "T" + u;
    BehindDate(t, u, 0, 2);
    BehindDate(t, u, 3, 5);
    BehindDate(t, u, 6, 8);
  }

  lemma FixedTimePositions(h: nat, m: nat, s: nat)
    ensures var u := FixedTime(h, m, s);
            && |u| == 9
            && u[0..2] == FixedDigits(h, 2) && u[3..5] == FixedDigits(m, 2) && u[6..8] == FixedDigits(s, 2)
  {
    hide FixedDigits;
    Positions(FixedDigits(h, 2), ":", FixedDigits(m, 2), ":", FixedDigits(s, 2), "Z");
  }

  lemma BehindDate(t: string, u: string, i: nat, j: nat)
    requires |t| >= 10 && t[10..] == "T" + u && i <= j <= |u|
    ensures |t| == 11 + |u| && t[11 + i..11 + j] == u[i..j]
  {
    assert t == t[..10] + ("T" + u);
  }

  /** Where the separators stand (section 5.6 of RFC 3339). */
  lemma InstantTextShape(seconds: nat)
    requires seconds < FIRST_LONG_SECOND
    ensures var t := InstantText(seconds);
            && |t| == 20 && t[4] == t[7] == '-' && t[10] == 'T' && t[13] == t[16] == ':' && t[19] == 'Z'
  {
    hide InstantText, FixedDigits;
    var d, h, m, s := FieldsOf(seconds);
    TimeShape(h, m, s);
    hide FixedTime;
    var u := FixedTime(h, m, s);
    var t := FixedText(d, h, m, s);
    assert t[10..] == "T" + u;
    assert t[13] == t[10..][3] == u[2] && t[16] == t[10..][6] == u[5] && t[19] == t[10..][9] == u[8];
  }

  lemma TimeShape(h: nat, m: nat, s: nat)
    ensures var u := FixedTime(h, m, s); |u| == 9 && u[2] == u[5] == ':' && u[8] == 'Z'
  {
    hide FixedDigits;
  }

  /** Through the year 9999 the text reads back as the same second. */
  lemma InstantTextRoundTrip(seconds: nat)
    requires seconds < FIRST_LONG_SECOND
    ensures |InstantText(seconds)| == 20 && ReadInstant(InstantText(seconds)) == seconds
  {
    hide DaysToYmd, InstantText, FixedText, DayNumber, DecimalValue;
    var d, h, m, s := FieldsOf(seconds);
    FixedFieldPositions(d, h, m, s);
    FixedDigitsValue(d.year, 4);
    FixedDigitsValue(d.month, 2);
    FixedDigitsValue(d.day, 2);
    FixedDigitsValue(h, 2);
    FixedDigitsValue(m, 2);
    FixedDigitsValue(s, 2);
    DaysToYmdRoundTrip(seconds / SECONDS_PER_DAY);
  }

  // ----- Text order is time order -------------------------------------------

  /** Two texts that start with a number of one width and the same separator. */
  lemma CompareField(a: nat, x: string, b: nat, y: string, width: nat, sep: char)
    requires a < Power10(width) && b < Power10(width)
    ensures StringLe(FixedDigits(a, width) + ([sep] + x), FixedDigits(b, width) + ([sep] + y))
       <==> a < b || (a == b && StringLe(x, y))
  {
    FixedDigitsOrder(a, b, width);
    CompareConcat(FixedDigits(a, width), [sep] + x, FixedDigits(b, width), [sep] + y);
    CompareConcat([sep], x, [sep], y);
    assert StringLe([sep], [sep]);
  }

  lemma FixedTimeOrder(h: nat, m: nat, s: nat, h': nat, m': nat, s': nat)
    requires h < 24 && m < 60 && s < 60 && h' < 24 && m' < 60 && s' < 60
    ensures StringLe(FixedTime(h, m, s), FixedTime(h', m', s')) <==> h * 3_600 + m * 60 + s <= h' * 3_600 + m' * 60 + s'
  {
    hide FixedDigits;
    assert FixedDigits(s, 2) + "Z" == FixedDigits(s, 2) + (['Z'] + "");
    assert FixedDigits(s', 2) + "Z" == FixedDigits(s', 2) + (['Z'] + "");
    CompareField(s, "", s', "", 2, 'Z');
    CompareField(m, FixedDigits(s, 2) + "Z", m', FixedDigits(s', 2) + "Z", 2, ':');
    CompareField(h, FixedDigits(m, 2) + (":" + (FixedDigits(s, 2) + "Z")),
                 h', FixedDigits(m', 2) + (":" + (FixedDigits(s', 2) + "Z")), 2, ':');
  }

  lemma FixedTextOrder(d: Date, h: nat, m: nat, s: nat, d': Date, h': nat, m': nat, s': nat)
    requires ValidDate(d) && ValidDate(d') && d.year < 10_000 && d'.year < 10_000
    ensures StringLe(FixedText(d, h, m, s), FixedText(d', h', m', s'))
       <==> Earlier(d, d') || (d == d' && StringLe(FixedTime(h, m, s), FixedTime(h', m', s')))
  {
    hide FixedDigits, FixedTime;
    var (t, t') := (FixedTime(h, m, s), FixedTime(h', m', s'));
    CompareField(d.day, t, d'.day, t', 2, 'T');
    var (x, x') := (FixedDigits(d.day, 2) + ("T" + t), FixedDigits(d'.day, 2) + ("T" + t'));
    CompareField(d.month, x, d'.month, x', 2, '-');
    var (y, y') := (FixedDigits(d.month, 2) + ("-" + x), FixedDigits(d'.month, 2) + ("-" + x'));
    CompareField(d.year, y, d'.year, y', 4, '-');
  }

  /** Lexicographic order of the texts is the order of the instants (section 5.1 of RFC 3339). */
  lemma TextOrderIsTimeOrder(a: nat, b: nat)
    requires a < FIRST_LONG_SECOND && b < FIRST_LONG_SECOND
    ensures StringLe(InstantText(a), InstantText(b)) <==> a <= b
    ensures TextBefore(InstantText(a), InstantText(b)) <==> a < b
  {
    hide InstantText, FixedText, FixedTime, DaysToYmd, Earlier;
    var d, h, m, s := FieldsOf(a);
    var d', h', m', s' := FieldsOf(b);
    FixedTextOrder(d, h, m, s, d', h', m', s');
    FixedTimeOrder(h, m, s, h', m', s');
    DateOrder(a / SECONDS_PER_DAY, b / SECONDS_PER_DAY);
    SecondsOrder(a, b);
    if a != b {
      InstantTextRoundTrip(a);
      InstantTextRoundTrip(b);
    }
  }

  lemma DateOrder(m: nat, n: nat)
    requires m < FIRST_WIDE_DAY && n < FIRST_WIDE_DAY
    ensures Earlier(DaysToYmd(m), DaysToYmd(n)) <==> m < n
    ensures DaysToYmd(m) == DaysToYmd(n) <==> m == n
  {
    hide DaysToYmd;
    DaysToYmdIncreases(m, n);
    DaysToYmdIncreases(n, m);
  }

  lemma SecondsOrder(a: nat, b: nat)
    ensures a <= b <==> || a / SECONDS_PER_DAY < b / SECONDS_PER_DAY
                        || (a / SECONDS_PER_DAY == b / SECONDS_PER_DAY && a % SECONDS_PER_DAY <= b % SECONDS_PER_DAY)
  {}

  // ----- What a prune pass deletes ------------------------------------------

  /** A row stamped with whole seconds is deleted exactly when it is older than the retention. */
  lemma PruneDeletesOldRows(emitted: nat, now: nat, retentionDays: nat)
    requires emitted < FIRST_LONG_SECOND && now < FIRST_LONG_SECOND
    ensures TextBefore(InstantText(emitted), CutoffText(now, retentionDays))
       <==> emitted + retentionDays * SECONDS_PER_DAY < now
  {
    hide InstantText;
    TextOrderIsTimeOrder(emitted, CutoffSeconds(now, retentionDays));
  }

  /** The stamp of an instant that lies a fraction of a second after `seconds`. */
  function FractionText(seconds: nat, fraction: string): string
    requires seconds < FIRST_LONG_SECOND
  {
    InstantTextRoundTrip(seconds);
    InstantText(seconds)[..19] + ("." + fraction + "Z")
  }

  /** A row with a fraction of a second sorts before the whole second it follows, so it is also
      deleted when it was emitted within the cutoff second itself: the deletion agrees with the
      age of such a row, `emitted + 0.fraction`, exactly when it does not fall into that second. */
  lemma PruneAndFractions(emitted: nat, fraction: string, now: nat, retentionDays: nat)
    requires emitted < FIRST_LONG_SECOND && now < FIRST_LONG_SECOND
    ensures TextBefore(FractionText(emitted, fraction), CutoffText(now, retentionDays))
       <==> emitted <= CutoffSeconds(now, retentionDays)
    ensures (TextBefore(FractionText(emitted, fraction), CutoffText(now, retentionDays))
             <==> emitted < CutoffSeconds(now, retentionDays))
       <==> emitted != CutoffSeconds(now, retentionDays)
  {
    hide InstantText, ReadInstant;
    var cutoff := CutoffSeconds(now, retentionDays);
    var (a, b) := (InstantText(emitted), InstantText(cutoff));
    InstantTextRoundTrip(emitted);
    InstantTextRoundTrip(cutoff);
    EndsWithZ(emitted);
    EndsWithZ(cutoff);
    TextOrderIsTimeOrder(emitted, cutoff);
    var tail := "." + fraction + "Z";
    assert a == a[..19] + "Z" && b == b[..19] + "Z";
    CompareConcat(a[..19], tail, b[..19], "Z");
    CompareConcat(a[..19], "Z", b[..19], "Z");
    assert tail[0] == '.' && StringLe(tail, "Z") && StringLe("Z", "Z");
  }

  /** A row emitted half a second after the cutoff is deleted. */
  lemma HalfSecondYoungRowIsDeleted(now: nat, retentionDays: nat)
    requires now < FIRST_LONG_SECOND
    ensures var row := FractionText(CutoffSeconds(now, retentionDays), "5");
            TextBefore(row, CutoffText(now, retentionDays))
  {
    hide TextBefore, FractionText, CutoffText;
    PruneAndFractions(CutoffSeconds(now, retentionDays), "5", now, retentionDays);
  }

  lemma EndsWithZ(seconds: nat)
    requires seconds < FIRST_LONG_SECOND
    ensures |InstantText(seconds)| == 20 && InstantText(seconds)[19] == 'Z'
  {
    hide InstantText, DaysToYmd;
    var d, h, m, s := FieldsOf(seconds);
  }
}
