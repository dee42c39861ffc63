/** `CldSetCurrentTime`: the date/time string a user or the cloud sends to set the
    clock, in one of the forms `YYYY-MM-DD`, `hh:mm:ss`, `YYYY-MM-DD hh:mm:ss`, or
    `""`/`"sync"` for a synchronisation with the cloud.

    The clock is not part of this model: its current fields are an input, and the
    result says what the firmware would do with it (synchronise, report an error
    code, or set the clock to the given fields). The conversion to `time_t` and the
    time-zone correction applied before `Time.setTime` are left out. */
module CloudTime {
  import opened Arduino

  /** The clock fields, with the widths of the firmware's locals. */
  datatype DateTime = DateTime(year: uint16, month: byte, day: byte, hour: byte, minute: byte, second: byte)

  /** What a call does: sync with the cloud (code 0), fail with a code 1..6, or set
      the clock (code 0). */
  datatype TimeResult = CloudSync | TimeError(code: nat) | SetTime(t: DateTime)
  {
    /** The integer the firmware returns. */
    function Code(): nat
    {
      if TimeError? then code else 0
    }
  }

  //--------------------------------------------------------------------------
  // Splitting the text at the separators
  //--------------------------------------------------------------------------

  /** The pieces of a date: none (no `'-'` after the first character), only the
      year (no second `'-'`), or year, month, day and what follows the first blank
      after the day. */
  datatype DateText =
    | NoDate
    | YearOnly(year: string)
    | FullDate(year: string, month: string, day: string, rest: string)

  /** The pieces of a time of day, split the same way at `':'`. */
  datatype ClockText =
    | NoClock
    | HourOnly(hour: string)
    | FullClock(hour: string, minute: string, second: string)

  function SplitDate(s: string): (r: DateText)
    ensures r.NoDate? <==> IndexOf(s, '-', 0) <= 0
    ensures !r.NoDate? ==> r.year == s[..IndexOf(s, '-', 0)] && '-' !in r.year
    ensures r.FullDate? ==> '-' !in r.month && ' ' !in r.day
  {
    var n := IndexOf(s, '-', 0);
    if n <= 0 then NoDate
    else
      var n2 := IndexOf(s, '-', n + 1);
      if n2 < n + 1 then YearOnly(Substring(s, 0, n))
      else SplitDay(s, n, n2)
  }

  /** The day and what follows the first blank after it, once the year and the
      month are found before the dashes at `n` and `n2`. */
  function SplitDay(s: string, n: nat, n2: nat): (r: DateText)
    requires n < n2 < |s| && '-' !in s[n + 1..n2]
    ensures r.FullDate? && r.year == Substring(s, 0, n) && r.month == Substring(s, n + 1, n2)
    ensures '-' !in r.month && ' ' !in r.day
  {
    var n3 := IndexOf(s, ' ', n2 + 1);
    if n3 < n2 + 1 then FullDate(Substring(s, 0, n), Substring(s, n + 1, n2), SubstringFrom(s, n2 + 1), "")
    else FullDate(Substring(s, 0, n), Substring(s, n + 1, n2), Substring(s, n2 + 1, n3), SubstringFrom(s, n3 + 1))
  }

  function SplitClock(t: string): (r: ClockText)
    ensures r.NoClock? <==> IndexOf(t, ':', 0) <= 0
    ensures !r.NoClock? ==> r.hour == t[..IndexOf(t, ':', 0)] && ':' !in r.hour
    ensures r.FullClock? ==> ':' !in r.minute
  {
    var n := IndexOf(t, ':', 0);
    if n <= 0 then NoClock
    else
      var n2 := IndexOf(t, ':', n + 1);
      if n2 < n + 1 then HourOnly(Substring(t, 0, n))
      else FullClock(Substring(t, 0, n), Substring(t, n + 1, n2), SubstringFrom(t, n2 + 1))
  }

  //--------------------------------------------------------------------------
  // Reading and checking the fields
  //--------------------------------------------------------------------------

  /** A field read with `toInt` and truncated to 16 or 8 bits. */
  function Word(text: string): uint16
  {
    ToUInt16(AtoI(text))
  }

  function Octet(text: string): byte
  {
    ToByte(AtoI(text))
  }

  predicate YearOk(y: uint16)
  {
    1970 <= y <= 2100
  }

  /** The outcome of reading the date part: an error code, or the date with the
      rest of the string (the time part, if any). */
  datatype DatePart = DateError(code: nat) | DateOk(date: DateTime, rest: string)

  /** The date fields are checked in order: year (code 1), the second `'-'` and the
      month (code 2), the day (code 3). */
  function DateOf(d: DateText, now: DateTime): (r: DatePart)
    requires !d.NoDate?
    ensures r.DateError? ==> 1 <= r.code <= 3
    ensures r == DateError(1) <==> !YearOk(Word(d.year))
    ensures d.YearOnly? ==> r.DateError? && r.code <= 2
    ensures r == DateError(3) <==>
              d.FullDate? && YearOk(Word(d.year)) && 1 <= Octet(d.month) <= 12
              && (Octet(d.day) == 0 || Octet(d.day) > 31)
    ensures r.DateOk? ==>
              1970 <= r.date.year <= 2100 && 1 <= r.date.month <= 12 && 1 <= r.date.day <= 31
              && r.date.hour == now.hour && r.date.minute == now.minute && r.date.second == now.second
  {
    var y := Word(d.year);
    if !YearOk(y) then DateError(1)
    else if d.YearOnly? then DateError(2)
    else
      var mo := Octet(d.month);
      if mo == 0 || mo > 12 then DateError(2)
      else
        var day := Octet(d.day);
        if day == 0 || day > 31 then DateError(3)
        else DateOk(now.(year := y, month := mo, day := day), d.rest)
  }

  /** The time fields are checked in order: hour (code 4; 24 is accepted), the
      second `':'` and the minute (code 5), the second (code 6). Without a `':'`
      after the first character the clock is set to `base` unchanged. */
  function ClockOf(c: ClockText, base: DateTime): (r: TimeResult)
    ensures !r.CloudSync?
    ensures r.TimeError? ==> 4 <= r.code <= 6
    ensures c.NoClock? ==> r == SetTime(base)
    ensures c.HourOnly? ==> r.TimeError?
    ensures r == TimeError(4) <==> !c.NoClock? && Octet(c.hour) > 24
    ensures r == TimeError(6) <==>
              c.FullClock? && Octet(c.hour) <= 24 && Octet(c.minute) <= 59 && Octet(c.second) > 59
    ensures r.SetTime? ==>
              r.t.year == base.year && r.t.month == base.month && r.t.day == base.day
              && (c.NoClock? || (r.t.hour <= 24 && r.t.minute <= 59 && r.t.second <= 59))
  {
    match c
    case NoClock => SetTime(base)
    case HourOnly(hour) => if Octet(hour) > 24 then TimeError(4) else TimeError(5)
    case FullClock(hour, minute, second) =>
      var h, mi, se := Octet(hour), Octet(minute), Octet(second);
      if h > 24 then TimeError(4)
      else if mi > 59 then TimeError(5)
      else if se > 59 then TimeError(6)
      else SetTime(base.(hour := h, minute := mi, second := se))
  }

  /** The input is trimmed and lower-cased; an empty string or `"sync"` syncs with
      the cloud; a `'-'` after the first character starts a date, and whatever
      follows the first blank after the date is read as the time. */
  function SetCurrentTime(tmStr: string, now: DateTime): (r: TimeResult)
    ensures (|Lower(Trim(tmStr))| == 0 || Lower(Trim(tmStr)) == "sync") <==> r == CloudSync
    ensures r.TimeError? ==> 1 <= r.code <= 6
    ensures r.SetTime? ==>
              (r.t.year == now.year || 1970 <= r.t.year <= 2100)
              && (r.t.month == now.month || 1 <= r.t.month <= 12)
              && (r.t.day == now.day || 1 <= r.t.day <= 31)
              && (r.t.hour == now.hour || r.t.hour <= 24)
              && (r.t.minute == now.minute || r.t.minute <= 59)
              && (r.t.second == now.second || r.t.second <= 59)
  {
    var s := Lower(Trim(tmStr));
    if |s| == 0 || s == "sync" then CloudSync
    else
      var d := SplitDate(s);
      if d.NoDate? then ClockOf(SplitClock(Trim(s)), now)
      else
        match DateOf(d, now)
        case DateError(code) => TimeError(code)
        case DateOk(date, rest) => ClockOf(SplitClock(Trim(rest)), date)
  }

  //--------------------------------------------------------------------------
  // Facts
  //--------------------------------------------------------------------------

  /** A string of digits and the separators `'-'`, `' '`, `':'` that starts and ends
      with a digit is left alone by trimming and lower-casing. */
  predicate Canonical(s: string)
  {
    |s| > 0 && IsDigit(s[0]) && IsDigit(s[|s| - 1])
    && forall i :: 0 <= i < |s| ==> IsDigit(s[i]) || s[i] in "-: "
  }

  lemma CanonicalUnchanged(s: string)
    requires Canonical(s)
    ensures Lower(Trim(s)) == s && Trim(s) == s
  {
    assert Trim(s) == s;
    assert Lower(s) == s;
  }

  /** Lower-casing neither adds nor removes the separators. */
  lemma LowerKeepsSeparators(s: string, c: char)
    requires c == '-' || c == ':'
    ensures c in Lower(s) <==> c in s
  {
    if c in s {
      var i :| 0 <= i < |s| && s[i] == c;
      assert Lower(s)[i] == c;
    }
  }

  /** Trimming removes only blanks, so it never adds a separator. */
  lemma TrimKeepsOut(s: string, c: char)
    requires !IsSpace(c) && c !in s
    ensures c !in Trim(s)
  {
    var t := s[LeadingSpaces(s)..];
    assert forall i :: 0 <= i < |t| ==> t[i] == s[LeadingSpaces(s) + i];
  }

  /** No text asks for a sync with the cloud. */
  lemma EmptySyncs(now: DateTime)
    ensures SetCurrentTime("", now) == CloudSync
  {
    assert Lower(Trim("")) == "";
  }

  /** Input with neither `'-'` nor `':'` (other than an empty string and `"sync"`)
      sets the clock to its current fields. */
  lemma NoSeparatorsKeepsClock(tmStr: string, now: DateTime)
    requires '-' !in tmStr && ':' !in tmStr
    requires |Lower(Trim(tmStr))| > 0 && Lower(Trim(tmStr)) != "sync"
    ensures SetCurrentTime(tmStr, now) == SetTime(now)
  {
    var s := Lower(Trim(tmStr));
    TrimKeepsOut(tmStr, '-');
    TrimKeepsOut(tmStr, ':');
    LowerKeepsSeparators(Trim(tmStr), '-');
    LowerKeepsSeparators(Trim(tmStr), ':');
    assert IndexOf(s, '-', 0) == -1;
    TrimKeepsOut(s, ':');
    assert IndexOf(Trim(s), ':', 0) == -1;
  }

  /** `hh:mm:ss` splits into its three fields. */
  lemma SplitClockFields(a: string, b: string, c: string)
    requires |a| > 0 && ':' !in a && ':' !in b
    ensures SplitClock(a + ":" + b + ":" + c) == FullClock(a, b, c)
  {
    var t := a + ":" + b + ":" + c;
    ThreeFields(a, b, c, ':');
    var n := IndexOf(t, ':', 0);
    var n2 := IndexOf(t, ':', n + 1);
    assert n == |a| && n2 == |a| + 1 + |b|;
    assert Substring(t, 0, n) == a && Substring(t, n + 1, n2) == b && SubstringFrom(t, n2 + 1) == c;
  }

  /** `YYYY-MM-DD` splits into its three fields with nothing after the day. */
  lemma SplitDateFields(a: string, b: string, c: string)
    requires |a| > 0 && '-' !in a && '-' !in b && ' ' !in c
    ensures SplitDate(a + "-" + b + "-" + c) == FullDate(a, b, c, "")
  {
    var s := a + "-" + b + "-" + c;
    ThreeFields(a, b, c, '-');
    var n := IndexOf(s, '-', 0);
    var n2 := IndexOf(s, '-', n + 1);
    assert n == |a| && n2 == |a| + 1 + |b|;
    assert s[n2 + 1..] == c;
    IndexOfAbsent(s, ' ', n2 + 1);
    assert Substring(s, 0, n) == a && Substring(s, n + 1, n2) == b && SubstringFrom(s, n2 + 1) == c;
  }

  /** `hh:mm:ss` with fields in range sets exactly those fields. */
  lemma ClockRoundTrip(h: nat, mi: nat, se: nat, base: DateTime)
    requires h <= 24 && mi <= 59 && se <= 59
    ensures ClockOf(SplitClock(FormatDecimal(h) + ":" + FormatDecimal(mi) + ":" + FormatDecimal(se)), base)
            == SetTime(base.(hour := h, minute := mi, second := se))
  {
    var a, b, c := FormatDecimal(h), FormatDecimal(mi), FormatDecimal(se);
    DigitsHaveNo(a, ':');
    DigitsHaveNo(b, ':');
    SplitClockFields(a, b, c);
    OctetOfFormat(h);
    OctetOfFormat(mi);
    OctetOfFormat(se);
    ClockOfFields(a, b, c, base);
  }

  lemma ClockOfFields(a: string, b: string, c: string, base: DateTime)
    requires Octet(a) <= 24 && Octet(b) <= 59 && Octet(c) <= 59
    ensures ClockOf(FullClock(a, b, c), base) == SetTime(base.(hour := Octet(a), minute := Octet(b), second := Octet(c)))
  {
  }

  lemma OctetOfFormat(n: nat)
    requires n < 256
    ensures Octet(FormatDecimal(n)) == n && Word(FormatDecimal(n)) == n
  {
    FormatDecimalRoundTrip(n);
  }

  lemma WordOfFormat(n: nat)
    requires n < 0x1_0000
    ensures Word(FormatDecimal(n)) == n
  {
    FormatDecimalRoundTrip(n);
  }

  /** A well-formed `YYYY-MM-DD` sets the date and keeps the time of day. */
  lemma DateRoundTrip(y: nat, mo: nat, d: nat, now: DateTime)
    requires 1970 <= y <= 2100 && 1 <= mo <= 12 && 1 <= d <= 31
    ensures SetCurrentTime(FormatDecimal(y) + "-" + FormatDecimal(mo) + "-" + FormatDecimal(d), now)
            == SetTime(now.(year := y, month := mo, day := d))
  {
    var a, b, c := FormatDecimal(y), FormatDecimal(mo), FormatDecimal(d);
    var s := a + "-" + b + "-" + c;
    DateCanonical(a, b, c);
    CanonicalUnchanged(s);
    DigitsHaveNo(a, '-');
    DigitsHaveNo(b, '-');
    DigitsHaveNo(c, ' ');
    SplitDateFields(a, b, c);
    WordOfFormat(y);
    OctetOfFormat(mo);
    OctetOfFormat(d);
    DateOfRest(a, b, c, "", now);
    assert s != "sync" by { assert s[|a|] == '-'; }
    assert SplitClock(Trim("")) == NoClock;
  }

  lemma DigitsCanonical(a: string)
    requires |a| > 0 && AllDigits(a)
    ensures Canonical(a)
  {
  }

  /** Two canonical strings joined by a separator form a canonical string. */
  lemma CanonicalJoin(x: string, sep: char, y: string)
    requires Canonical(x) && Canonical(y) && sep in "-: "
    ensures Canonical(x + [sep] + y)
  {
    var s := x + [sep] + y;
    assert s[0] == x[0] && s[|s| - 1] == y[|y| - 1];
    forall i | 0 <= i < |s| ensures IsDigit(s[i]) || s[i] in "-: " {
      if i < |x| { assert s[i] == x[i]; }
      else if i > |x| { assert s[i] == y[i - |x| - 1]; }
    }
  }

  lemma DateCanonical(a: string, b: string, c: string)
    requires |a| > 0 && |b| > 0 && |c| > 0 && AllDigits(a) && AllDigits(b) && AllDigits(c)
    ensures Canonical(a + "-" + b + "-" + c)
  {
    DigitsCanonical(a);
    DigitsCanonical(b);
    DigitsCanonical(c);
    CanonicalJoin(a, '-', b);
    CanonicalJoin(a + "-" + b, '-', c);
  }

  lemma ClockCanonical(a: string, b: string, c: string)
    requires |a| > 0 && |b| > 0 && |c| > 0 && AllDigits(a) && AllDigits(b) && AllDigits(c)
    ensures Canonical(a + ":" + b + ":" + c)
  {
    DigitsCanonical(a);
    DigitsCanonical(b);
    DigitsCanonical(c);
    CanonicalJoin(a, ':', b);
    CanonicalJoin(a + ":" + b, ':', c);
  }

  /** `hh:mm:ss` alone with fields in range sets the time of day and keeps the
      date. */
  lemma TimeRoundTrip(h: nat, mi: nat, se: nat, now: DateTime)
    requires h <= 24 && mi <= 59 && se <= 59
    ensures SetCurrentTime(FormatDecimal(h) + ":" + FormatDecimal(mi) + ":" + FormatDecimal(se), now)
            == SetTime(now.(hour := h, minute := mi, second := se))
  {
    var a, b, c := FormatDecimal(h), FormatDecimal(mi), FormatDecimal(se);
    var s := a + ":" + b + ":" + c;
    ClockCanonical(a, b, c);
    CanonicalUnchanged(s);
    NoDash(a, b, c);
    IndexOfAbsent(s, '-', 0);
    ClockRoundTrip(h, mi, se, now);
    assert s != "sync" by { assert s[|a|] == ':'; }
  }

  /** `YYYY-MM-DD hh:mm:ss` with every field in range sets the date and the time
      of day. */
  lemma DateTimeRoundTrip(y: nat, mo: nat, d: nat, h: nat, mi: nat, se: nat, now: DateTime)
    requires 1970 <= y <= 2100 && 1 <= mo <= 12 && 1 <= d <= 31
    requires h <= 24 && mi <= 59 && se <= 59
    ensures var date := FormatDecimal(y) + "-" + FormatDecimal(mo) + "-" + FormatDecimal(d);
            var clock := FormatDecimal(h) + ":" + FormatDecimal(mi) + ":" + FormatDecimal(se);
            SetCurrentTime(date + " " + clock, now)
            == SetTime(now.(year := y, month := mo, day := d, hour := h, minute := mi, second := se))
  {
    var a, b, c := FormatDecimal(y), FormatDecimal(mo), FormatDecimal(d);
    var date := a + "-" + b + "-" + c;
    var clock := FormatDecimal(h) + ":" + FormatDecimal(mi) + ":" + FormatDecimal(se);
    DateTimeCanonical(a, b, c, FormatDecimal(h), FormatDecimal(mi), FormatDecimal(se));
    DigitsHaveNo(a, '-');
    DigitsHaveNo(b, '-');
    DigitsHaveNo(c, ' ');
    SplitDateWithTime(a, b, c, clock);
    WordOfFormat(y);
    OctetOfFormat(mo);
    OctetOfFormat(d);
    DateOfRest(a, b, c, clock, now);
    ClockRoundTrip(h, mi, se, now.(year := y, month := mo, day := d));
  }

  /** `a-b-c x:y:z` in digits is left alone by trimming and lower-casing, and is not
      `"sync"`; so is its time part. */
  lemma DateTimeCanonical(a: string, b: string, c: string, x: string, y: string, z: string)
    requires |a| > 0 && |b| > 0 && |c| > 0 && AllDigits(a) && AllDigits(b) && AllDigits(c)
    requires |x| > 0 && |y| > 0 && |z| > 0 && AllDigits(x) && AllDigits(y) && AllDigits(z)
    ensures var clock := x + ":" + y + ":" + z;
            var s := a + "-" + b + "-" + c + " " + clock;
            Lower(Trim(s)) == s && s != "sync" && Trim(clock) == clock
  {
    var date := a + "-" + b + "-" + c;
    var clock := x + ":" + y + ":" + z;
    var s := date + " " + clock;
    DateCanonical(a, b, c);
    ClockCanonical(x, y, z);
    CanonicalJoin(date, ' ', clock);
    CanonicalUnchanged(s);
    CanonicalUnchanged(clock);
    assert s != "sync" by { assert s[|a|] == date[|a|] == '-'; }
  }

  /** `YYYY-MM-DD rest` splits into the three date fields and what follows the
      blank. */
  lemma SplitDateWithTime(a: string, b: string, c: string, rest: string)
    requires |a| > 0 && '-' !in a && '-' !in b && ' ' !in c
    ensures SplitDate(a + "-" + b + "-" + c + " " + rest) == FullDate(a, b, c, rest)
  {
    var s := a + "-" + b + "-" + c + " " + rest;
    DateParts(a, b, c, rest);
    var n := |a|;
    var n2 := n + 1 + |b|;
    var n3 := n2 + 1 + |c|;
    SplitDateAt(s, n, n2, n3, a, b, c, rest);
  }

  /** Where the separators of `a-b-c rest` are, and what lies between them. */
  lemma DateParts(a: string, b: string, c: string, rest: string)
    ensures var s := a + "-" + b + "-" + c + " " + rest;
            var n := |a|;
            var n2 := n + 1 + |b|;
            var n3 := n2 + 1 + |c|;
            && |s| == n3 + 1 + |rest|
            && s[..n] == a && s[n] == '-'
            && s[n + 1..n2] == b && s[n2] == '-'
            && s[n2 + 1..n3] == c && s[n3] == ' '
            && s[n3 + 1..] == rest
  {
    var ab := a + "-" + b;
    var abc := ab + "-" + c;
    var s := abc + " " + rest;
    assert s[..|abc|] == abc;
    assert abc[..|ab|] == ab;
    assert s[..|a|] == ab[..|a|] == a;
    assert s[|a| + 1..|ab|] == ab[|a| + 1..] == b;
    assert s[|ab| + 1..|abc|] == abc[|ab| + 1..] == c;
    assert s[|abc| + 1..] == rest;
  }

  /** `SplitDate` on a text whose separators are at known positions. */
  lemma SplitDateAt(s: string, n: nat, n2: nat, n3: nat, a: string, b: string, c: string, rest: string)
    requires 0 < n < n2 < n3 < |s| && s[n] == '-' && s[n2] == '-' && s[n3] == ' '
    requires s[..n] == a && s[n + 1..n2] == b && s[n2 + 1..n3] == c && s[n3 + 1..] == rest
    requires '-' !in a && '-' !in b && ' ' !in c
    ensures SplitDate(s) == FullDate(a, b, c, rest)
  {
    SeparatorsAt(s, '-', n, n2);
    IndexOfAfter(s, ' ', n2 + 1, c);
    SplitDateUnfold(s, n, n2, n3);
    assert Substring(s, 0, n) == a;
  }

  /** `SplitDate` once the three separators are found. */
  lemma SplitDateUnfold(s: string, n: nat, n2: nat, n3: nat)
    requires 0 < n < n2 < n3 < |s|
    requires IndexOf(s, '-', 0) == n && IndexOf(s, '-', n + 1) == n2 && IndexOf(s, ' ', n2 + 1) == n3
    ensures SplitDate(s) == FullDate(Substring(s, 0, n), Substring(s, n + 1, n2), Substring(s, n2 + 1, n3), SubstringFrom(s, n3 + 1))
  {
    assert SplitDate(s) == SplitDay(s, n, n2);
  }

  lemma NoDash(a: string, b: string, c: string)
    requires AllDigits(a) && AllDigits(b) && AllDigits(c)
    ensures '-' !in (a + ":" + b + ":" + c)[0..]
  {
    var s := a + ":" + b + ":" + c;
    assert s[0..] == s;
    forall i | 0 <= i < |s| ensures s[i] != '-' {
      if i < |a| { assert s[i] == a[i]; }
      else if |a| < i < |a| + 1 + |b| { assert s[i] == b[i - |a| - 1]; }
      else if i > |a| + 1 + |b| { assert s[i] == c[i - |a| - |b| - 2]; }
    }
  }

  lemma DateOfRest(a: string, b: string, c: string, rest: string, now: DateTime)
    requires YearOk(Word(a)) && 1 <= Octet(b) <= 12 && 1 <= Octet(c) <= 31
    ensures DateOf(FullDate(a, b, c, rest), now) == DateOk(now.(year := Word(a), month := Octet(b), day := Octet(c)), rest)
  {
  }

  /** A year outside [1970, 2100] (after truncation to 16 bits) is error 1,
      whatever follows the first `'-'`. */
  lemma BadYear(y: nat, rest: string, now: DateTime)
    requires var v := y % 0x1_0000; v < 1970 || v > 2100
    requires Canonical(FormatDecimal(y) + "-" + rest)
    ensures SetCurrentTime(FormatDecimal(y) + "-" + rest, now) == TimeError(1)
  {
    var a := FormatDecimal(y);
    var s := a + "-" + rest;
    CanonicalUnchanged(s);
    DigitsHaveNo(a, '-');
    assert s[0..|a|] == a;
    IndexOfAfter(s, '-', 0, a);
    assert s[..|a|] == a;
    FormatDecimalRoundTrip(y);
    assert s != "sync" by { assert s[|a|] == '-'; }
    assert !YearOk(Word(SplitDate(s).year));
  }
}
