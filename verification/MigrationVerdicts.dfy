/**
 * The migration rule in plain terms: how a timestamp is written, how time goes on from one second to the next, how names
 * compare, and which report each file name gets.
 */
module MigrationVerdicts {
  import opened Text
  import opened MigrationTimestamp

  // ---------------------------------------------------------------------------
  // Writing timestamps
  // ---------------------------------------------------------------------------

  /** The last `width` decimal digits of a number. */
  function Digits(n: nat, width: nat): string {
    if width == 0 then "" else Digits(n / 10, width - 1) + [('0' as int + n % 10) as char]
  }

  /** Year, month, day, hour and minute, and in the longer form the second. */
  function Written(f: Fields, seconds: bool): string
    requires f.year >= 0 && f.month >= 0 && f.day >= 0 && f.hour >= 0 && f.minute >= 0 && f.second >= 0
  {
    Digits(f.year, 4) + Digits(f.month, 2) + Digits(f.day, 2) + Digits(f.hour, 2) + Digits(f.minute, 2)
    + if seconds then Digits(f.second, 2) else ""
  }

  lemma {:induction false} DigitsOfParsed(s: string)
    requires AllDigits(s)
    ensures ParseInt(s) >= 0 && Digits(ParseInt(s), |s|) == s
  {
    if s != "" {
      var front, last := s[..|s| - 1], s[|s| - 1] as int - '0' as int;
      DigitsOfParsed(front);
      assert ParseInt(s) / 10 == ParseInt(front) && ParseInt(s) % 10 == last;
      assert s == front + [s[|s| - 1]];
    }
  }

  /** The check reads a timestamp as it is written: the fields it names are the ones whose writing it is. */
  lemma NamedExact(s: string)
    requires AllDigits(s) && (|s| == 12 || |s| == 14)
    ensures var f := Named(s);
            && f.year >= 0 && f.month >= 0 && f.day >= 0 && f.hour >= 0 && f.minute >= 0 && f.second >= 0
            && s == Written(f, |s| == 14) && (|s| == 12 ==> f.second == 0)
  {
    hide Digits, ParseInt;
    PartIsWritten(s, 0, 4);
    PartIsWritten(s, 4, 6);
    PartIsWritten(s, 6, 8);
    PartIsWritten(s, 8, 10);
    PartIsWritten(s, 10, 12);
    if |s| == 14 {
      PartIsWritten(s, 12, 14);
    }
    InParts(s);
  }

  lemma PartIsWritten(s: string, from: nat, to: nat)
    requires AllDigits(s) && from <= to <= |s|
    ensures ParseInt(s[from..to]) >= 0 && Digits(ParseInt(s[from..to]), to - from) == s[from..to]
  {
    DigitsOfParsed(s[from..to]);
  }

  lemma InParts(s: string)
    requires |s| == 12 || |s| == 14
    ensures s == s[0..4] + s[4..6] + s[6..8] + s[8..10] + s[10..12] + (if |s| == 14 then s[12..14] else "")
  {
  }

  // ---------------------------------------------------------------------------
  // The clock
  // ---------------------------------------------------------------------------

  /** The second after a real date and time, carried through minute, hour, day, month and year. */
  function NextSecond(f: Fields): Fields {
    if f.second < 59 then f.(second := f.second + 1)
    else if f.minute < 59 then f.(minute := f.minute + 1, second := 0)
    else if f.hour < 23 then f.(hour := f.hour + 1, minute := 0, second := 0)
    else if f.day < DaysInMonth(f.year, f.month) then Fields(f.year, f.month, f.day + 1, 0, 0, 0)
    else if f.month < 12 then Fields(f.year, f.month + 1, 1, 0, 0, 0)
    else Fields(f.year + 1, 1, 1, 0, 0, 0)
  }

  /** Instants count milliseconds from the start of 1970: each next second is one thousand later. */
  lemma ClockTicks(f: Fields)
    requires RealDate(f)
    ensures RealDate(NextSecond(f)) && Instant(NextSecond(f)) == Instant(f) + 1000
    ensures Instant(Fields(1970, 1, 1, 0, 0, 0)) == 0
  {
    hide DayNumber;
    EpochIsZero();
    var next := NextSecond(f);
    if f.second == 59 && f.minute == 59 && f.hour == 23 {
      NextDay(f.year, f.month, f.day, next);
    }
  }

  lemma EpochIsZero()
    ensures DayNumber(1970, 1, 1) == 0
  {
  }

  lemma NextDay(y: int, m: int, d: int, next: Fields)
    requires 1 <= m <= 12 && 1 <= d <= DaysInMonth(y, m)
    requires next == NextSecond(Fields(y, m, d, 23, 59, 59))
    ensures RealDate(next) && DayNumber(next.year, next.month, next.day) == DayNumber(y, m, d) + 1
  {
    hide DayFromYear, DaysBeforeMonth;
    MonthLength(y, m - 1);
    YearLength(y);
    YearEnds(y);
  }

  lemma YearEnds(y: int)
    ensures DaysBeforeMonth(0, IsLeap(y + 1)) == 0 && DaysBeforeMonth(12, IsLeap(y)) == DaysInYear(y)
  {
  }

  /** February has a 29th day in every fourth year, but of the full centuries only in every fourth. */
  lemma LeapDays(y: int)
    ensures RealDate(Fields(y, 2, 29, 0, 0, 0)) <==> y % 400 == 0 || (y % 4 == 0 && y % 100 != 0)
  {
    Divides(y);
  }

  // ---------------------------------------------------------------------------
  // The order of names
  // ---------------------------------------------------------------------------

  /** The strings agree up to `k`; there the first one ends, or has the smaller character. */
  predicate DiffersAt(a: string, b: string, k: nat) {
    k <= |a| && k < |b| && a[..k] == b[..k] && (k == |a| || a[k] < b[k])
  }

  ghost predicate Before(a: string, b: string) {
    exists k: nat :: DiffersAt(a, b, k)
  }

  lemma {:induction false} LexExact(a: string, b: string)
    ensures LexLess(a, b) <==> Before(a, b)
  {
    if a == "" || b == "" || a[0] != b[0] {
      DiffersFirst(a, b);
    } else {
      LexExact(a[1..], b[1..]);
      if LexLess(a[1..], b[1..]) {
        var k: nat :| DiffersAt(a[1..], b[1..], k);
        assert a[..k + 1] == [a[0]] + a[1..][..k] && b[..k + 1] == [b[0]] + b[1..][..k];
        assert DiffersAt(a, b, k + 1);
      }
      if k: nat :| DiffersAt(a, b, k) {
        assert k > 0;
        assert a[1..][..k - 1] == a[..k][1..] && b[1..][..k - 1] == b[..k][1..];
        assert DiffersAt(a[1..], b[1..], k - 1);
      }
    }
  }

  lemma DiffersFirst(a: string, b: string)
    requires a == "" || b == "" || a[0] != b[0]
    ensures Before(a, b) <==> b != "" && (a == "" || a[0] < b[0])
  {
    if b != "" && (a == "" || a[0] < b[0]) {
      assert DiffersAt(a, b, 0);
    }
    if k: nat :| DiffersAt(a, b, k) {
      FirstsAgree(a, b, k);
    }
  }

  lemma FirstsAgree(a: string, b: string, k: nat)
    requires DiffersAt(a, b, k)
    ensures k > 0 ==> a != "" && b != "" && a[0] == b[0]
  {
    if k > 0 {
      assert a[..k][0] == b[..k][0];
    }
  }

  // ---------------------------------------------------------------------------
  // The verdicts
  // ---------------------------------------------------------------------------

  /** A migration's name: twelve or fourteen digits, an underscore, a description on one line, `.cjs`. */
  ghost predicate NamedAs(name: string, stamp: string, description: string) {
    && AllDigits(stamp) && (|stamp| == 12 || |stamp| == 14)
    && (forall c :: c in description ==> !IsLineTerminator(c))
    && name == stamp + "_" + description + ".cjs"
  }

  ghost predicate CarriesStamp(name: string, stamp: string) {
    exists description :: NamedAs(name, stamp, description)
  }

  ghost predicate IsScript(name: string) {
    exists front :: name == front + ".cjs"
  }

  lemma StampedExact(name: string, stamp: string)
    ensures CarriesStamp(name, stamp) <==>
            (|stamp| == 12 || |stamp| == 14) && Stamped(name, |stamp|) && name[..|stamp|] == stamp
  {
    var n := |stamp|;
    if description :| NamedAs(name, stamp, description) {
      PiecesAt(name, stamp, description);
    }
    if (n == 12 || n == 14) && Stamped(name, n) && name[..n] == stamp {
      var description := name[n + 1..|name| - 4];
      assert name == stamp + "_" + description + name[|name| - 4..];
      assert NamedAs(name, stamp, description);
    }
  }

  lemma PiecesAt(name: string, stamp: string, description: string)
    requires NamedAs(name, stamp, description)
    ensures Stamped(name, |stamp|) && name[..|stamp|] == stamp
  {
    var n := |stamp|;
    assert forall k :: 0 <= k < n ==> name[k] == stamp[k];
    assert name[n] == '_' && name[|name| - 4..] == ".cjs";
    assert forall k :: n < k < |name| - 4 ==> name[k] == description[k - n - 1];
  }

  lemma ScriptExact(name: string)
    ensures EndsWith(name, ".cjs") <==> IsScript(name)
  {
    if EndsWith(name, ".cjs") {
      assert name == name[..|name| - 4] + ".cjs";
    }
    if front :| name == front + ".cjs" {
      assert name[|name| - 4..] == ".cjs";
    }
  }

  /** The file is checked: a script in a migration directory whose first eight characters are not before the cutoff. */
  ghost predicate IsChecked(inMigrations: bool, name: string) {
    && inMigrations && IsScript(name)
    && !Before(if |name| < 8 then name else name[..8], "20251118")
  }

  lemma CheckedExact(inMigrations: bool, name: string)
    ensures IsChecked(inMigrations, name) <==>
            inMigrations && EndsWith(name, ".cjs") && !LexLess(if |name| < 8 then name else name[..8], "20251118")
  {
    hide IsScript, LexLess, Before, EndsWith;
    ScriptExact(name);
    LexExact(if |name| < 8 then name else name[..8], "20251118");
  }

  lemma CapturedExact(name: string, stamp: string)
    ensures CarriesStamp(name, stamp) <==> CapturedLength(name) != 0 && stamp == name[..CapturedLength(name)]
  {
    hide CarriesStamp, EndsWith, DigitsUpTo, IsLineTerminator;
    StampedExact(name, stamp);
    CaptureIsUnique(name);
  }

  /** A real date and time from the year 100 on. */
  predicate IsDate(f: Fields) {
    f.year >= 100 && RealDate(f)
  }

  lemma StampDigits(name: string, stamp: string)
    requires CarriesStamp(name, stamp)
    ensures AllDigits(stamp) && (|stamp| == 12 || |stamp| == 14)
  {
  }

  /** Each report, exactly: what is wrong with the name, with the date it names, or with the time of it. */
  lemma VerdictExact(inMigrations: bool, name: string, stamp: string, now: int)
    ensures var v := Check(inMigrations, name, now);
            && (v == Ignored <==> !IsChecked(inMigrations, name))
            && (v == InvalidFormat <==> IsChecked(inMigrations, name) && forall s :: !CarriesStamp(name, s))
            && (IsChecked(inMigrations, name) && CarriesStamp(name, stamp) ==>
                  && |stamp| >= 12
                  && v == if !IsDate(Named(stamp)) then InvalidTimestamp(stamp)
                          else if Instant(Named(stamp)) > now then FutureTimestamp(stamp)
                          else Accepted)
  {
    hide IsChecked, CarriesStamp, EndsWith, LexLess, ParseTimestamp, Named, Instant, RealDate, AllDigits, CapturedLength;
    CheckedExact(inMigrations, name);
    forall s
      ensures CarriesStamp(name, s) <==> CapturedLength(name) != 0 && s == name[..CapturedLength(name)]
    {
      CapturedExact(name, s);
    }
    if CapturedLength(name) != 0 {
      assert CarriesStamp(name, name[..CapturedLength(name)]);
    }
    if CarriesStamp(name, stamp) {
      StampDigits(name, stamp);
      CalendarExact(stamp);
    }
  }
}
