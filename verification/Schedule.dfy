/**
 The schedule builder of the client: builder fields rendered as a cron expression, and
 cron expressions read back into builder fields. Numbers are integers.
 */
module Schedule {
  import opened Common

  datatype Freq = Manual | Hourly | Daily | Weekly | Monthly | Interval | Custom

  datatype Fields = Fields(freq: Freq, time: string, weekday: int, dom: int, intervalHours: int)

  const DEFAULT := Fields(Daily, "23:00", 0, 1, 6)

  function Clamp(n: int, lo: int, hi: int): int {
    var low := if n > lo then n else lo;
    if low < hi then low else hi
  }

  // ----- Numbers as text -----

  predicate IsDigit(c: char) {
    '0' <= c <= '9'
  }

  function Digit(n: nat): (c: char)
    requires n < 10
    ensures IsDigit(c) && c as int - '0' as int == n
  {
    '0' + n as char
  }

  function Decimal(n: nat): string {
    if n < 10 then [Digit(n)] else Decimal(n / 10) + [Digit(n % 10)]
  }

  /** Two digits, zero-padded: numbers of more digits stay as they are. */
  function Pad2(n: nat): string {
    if n < 10 then "0" + Decimal(n) else Decimal(n)
  }

  predicate AllDigits(s: string) {
    forall i :: 0 <= i < |s| ==> IsDigit(s[i])
  }

  function Number(s: string): nat
    requires AllDigits(s)
  {
    if s == "" then 0 else Number(s[..|s| - 1]) * 10 + (s[|s| - 1] as int - '0' as int)
  }

  /** White space as the client's language trims it. */
  predicate IsBlank(c: char) {
    (IsSpace(c) && c != '\U{85}') || c == '\U{FEFF}'
  }

  /** The digits a string starts with. */
  function LeadingDigits(s: string): (d: string)
    ensures AllDigits(d)
  {
    if s != "" && IsDigit(s[0]) then [s[0]] + LeadingDigits(s[1..]) else ""
  }

  /** parseInt(s, 10), with 0 for what is not a number. */
  function ParseIntOr0(s: string): int {
    var t := TrimLeft(s, IsBlank);
    var negative := t != "" && t[0] == '-';
    var digits := LeadingDigits(if t != "" && (t[0] == '-' || t[0] == '+') then t[1..] else t);
    var n: int := Number(digits);
    if negative then -n else n
  }

  /** Hours and minutes of "HH:MM", clamped into the day. */
  function TimeParts(time: string): (r: (nat, nat))
    ensures r.0 <= 23 && r.1 <= 59
  {
    var parts := Split(time, ':');
    (Clamp(ParseIntOr0(parts[0]), 0, 23), if |parts| < 2 then 0 else Clamp(ParseIntOr0(parts[1]), 0, 59))
  }

  function TimeText(h: nat, m: nat): string {
    Pad2(h) + ":" + Pad2(m)
  }

  // ----- Building -----

  function Five(a: string, b: string, c: string, d: string, e: string): string {
    a + " " + (b + " " + (c + " " + (d + " " + e)))
  }

  function BuildCron(f: Fields): string {
    var (h, m) := TimeParts(f.time);
    match f.freq
    case Manual => ""
    case Hourly => "0 * * * *"
    case Daily => Five(Decimal(m), Decimal(h), "*", "*", "*")
    case Weekly => Five(Decimal(m), Decimal(h), "*", "*", Decimal(Clamp(f.weekday, 0, 6)))
    case Monthly => Five(Decimal(m), Decimal(h), Decimal(Clamp(f.dom, 1, 31)), "*", "*")
    case Interval => Five("0", "*/" + Decimal(Clamp(f.intervalHours, 1, 23)), "*", "*", "*")
    case Custom => ""
  }

  // ----- Reading -----

  /** One or two digits. */
  predicate Short(s: string) {
    1 <= |s| <= 2 && AllDigits(s)
  }

  function AsTime(m: string, h: string): Option<string>
    requires Short(m) && Short(h)
  {
    if Number(m) > 59 || Number(h) > 23 then None else Some(TimeText(Number(h), Number(m)))
  }

  function ParseDaily(p: seq<string>): Option<Fields>
    requires |p| == 5
  {
    if Short(p[0]) && Short(p[1]) && p[2] == "*" && p[3] == "*" && p[4] == "*" && AsTime(p[0], p[1]).Some?
    then Some(DEFAULT.(freq := Daily, time := AsTime(p[0], p[1]).value)) else None
  }

  function ParseWeekly(p: seq<string>): Option<Fields>
    requires |p| == 5
  {
    if Short(p[0]) && Short(p[1]) && p[2] == "*" && p[3] == "*" && |p[4]| == 1 && AllDigits(p[4])
       && AsTime(p[0], p[1]).Some? && Number(p[4]) <= 7
    then Some(DEFAULT.(freq := Weekly, time := AsTime(p[0], p[1]).value, weekday := if Number(p[4]) == 7 then 0
        else Number(p[4])))
    else None
  }

  function ParseMonthly(p: seq<string>): Option<Fields>
    requires |p| == 5
  {
    if Short(p[0]) && Short(p[1]) && Short(p[2]) && p[3] == "*" && p[4] == "*"
       && AsTime(p[0], p[1]).Some? && 1 <= Number(p[2]) <= 31
    then Some(DEFAULT.(freq := Monthly, time := AsTime(p[0], p[1]).value, dom := Number(p[2]))) else None
  }

  function ParseInterval(p: seq<string>): Option<Fields>
    requires |p| == 5
  {
    if p[0] == "0" && "*/" <= p[1] && Short(p[1][2..]) && p[2] == "*" && p[3] == "*" && p[4] == "*"
        && 1 <= Number(p[1][2..]) <= 23
    then Some(DEFAULT.(freq := Interval, intervalHours := Number(p[1][2..]))) else None
  }

  function ParseParts(p: seq<string>): Fields {
    if |p| != 5 then DEFAULT.(freq := Custom)
    else if ParseDaily(p).Some? then ParseDaily(p).value
    else if ParseWeekly(p).Some? then ParseWeekly(p).value
    else if ParseMonthly(p).Some? then ParseMonthly(p).value
    else if ParseInterval(p).Some? then ParseInterval(p).value
    else DEFAULT.(freq := Custom)
  }

  function ParseSchedule(cron: string): Fields {
    ParseTrimmed(Trim(cron, IsBlank))
  }

  /** The descriptors that map onto builder states. */
  function ParseDescriptor(v: string): Option<Fields> {
    if v == "@hourly" then Some(DEFAULT.(freq := Hourly))
    else if v == "@daily" || v == "@midnight" then Some(DEFAULT.(freq := Daily, time := "00:00"))
    else if v == "@weekly" then Some(DEFAULT.(freq := Weekly, time := "00:00", weekday := 0))
    else if v == "@monthly" then Some(DEFAULT.(freq := Monthly, time := "00:00", dom := 1))
    else None
  }

  function ParseTrimmed(v: string): Fields {
    if v == "" then DEFAULT.(freq := Manual, time := "00:00")
    else if v[0] == '@' then
      match ParseDescriptor(v)
      case Some(f) => f
      case None => DEFAULT.(freq := Custom)
    else if v == "0 * * * *" then DEFAULT.(freq := Hourly)
    else ParseParts(Split(v, ' '))
  }

  // ----- The round trips -----

  /** The fields a frequency uses, clamped and zero-padded; the others at their defaults. */
  function Canonical(f: Fields): Fields {
    var (h, m) := TimeParts(f.time);
    match f.freq
    case Manual => DEFAULT.(freq := Manual, time := "00:00")
    case Hourly => DEFAULT.(freq := Hourly)
    case Daily => DEFAULT.(time := TimeText(h, m))
    case Weekly => DEFAULT.(freq := Weekly, time := TimeText(h, m), weekday := Clamp(f.weekday, 0, 6))
    case Monthly => DEFAULT.(freq := Monthly, time := TimeText(h, m), dom := Clamp(f.dom, 1, 31))
    case Interval => DEFAULT.(freq := Interval, intervalHours := Clamp(f.intervalHours, 1, 23))
    case Custom => DEFAULT.(freq := Custom)
  }

  lemma DecimalShort(n: nat)
    requires n < 100
    ensures Short(Decimal(n)) && Number(Decimal(n)) == n && (n < 10 ==> |Decimal(n)| == 1)
  {
    if n < 10 {
      assert [Digit(n)][..0] == "";
    } else {
      var d := Decimal(n);
      assert Decimal(n / 10) == [Digit(n / 10)];
      assert d == [Digit(n / 10)] + [Digit(n % 10)];
      assert d[..1] == [Digit(n / 10)] && d[..1][..0] == "";
      assert Number(d[..1]) == n / 10;
    }
  }

  /** Fields without a space come back from the line that joins them. */
  lemma FiveParts(a: string, b: string, c: string, d: string, e: string)
    requires ' ' !in a && ' ' !in b && ' ' !in c && ' ' !in d && ' ' !in e
    ensures Split(Five(a, b, c, d, e), ' ') == [a, b, c, d, e]
  {
    SplitWord(e, ' ');
    SplitJoined(d, ' ', e);
    SplitJoined(c, ' ', d + " " + e);
    SplitJoined(b, ' ', c + " " + (d + " " + e));
    SplitJoined(a, ' ', b + " " + (c + " " + (d + " " + e)));
  }

  lemma NotSpecial(v: string)
    requires v != "" && IsDigit(v[0]) && v != "0 * * * *"
    ensures ParseTrimmed(v) == ParseParts(Split(v, ' '))
  {
  }

  /** Nothing to trim, no descriptor, not the hourly line: the parts decide. */
  lemma ParseFive(a: string, b: string, c: string, d: string, e: string)
    requires ' ' !in a && ' ' !in b && ' ' !in c && ' ' !in d && ' ' !in e
    requires a != "" && IsDigit(a[0]) && e != "" && !IsBlank(e[|e| - 1]) && b != "*"
    ensures ParseSchedule(Five(a, b, c, d, e)) == ParseParts([a, b, c, d, e])
  {
    var v := Five(a, b, c, d, e);
    FiveParts(a, b, c, d, e);
    FiveEnds(a, b, c, d, e);
    NothingToTrim(v, IsBlank);
    HourlyParts();
    assert [a, b, c, d, e][1] == b;
    NotSpecial(v);
  }

  lemma FiveEnds(a: string, b: string, c: string, d: string, e: string)
    requires a != "" && e != ""
    ensures var v := Five(a, b, c, d, e); v != "" && v[0] == a[0] && v[|v| - 1] == e[|e| - 1]
  {
  }

  lemma HourlyParts()
    ensures Split("0 * * * *", ' ') == ["0", "*", "*", "*", "*"]
  {
    FiveParts("0", "*", "*", "*", "*");
    assert "0 * * * *" == Five("0", "*", "*", "*", "*");
  }

  lemma ShortIsWord(s: string)
    requires Short(s)
    ensures ' ' !in s && s != "*" && IsDigit(s[0]) && !IsBlank(s[|s| - 1])
  {
    assert IsDigit(s[0]) && IsDigit(s[|s| - 1]);
  }

  /** A minute and an hour as the builder renders them. */
  lemma TimeWords(h: nat, m: nat)
    requires h <= 23 && m <= 59
    ensures Short(Decimal(h)) && Short(Decimal(m)) && AsTime(Decimal(m), Decimal(h)) == Some(TimeText(h, m))
    ensures ' ' !in Decimal(m) && ' ' !in Decimal(h) && IsDigit(Decimal(m)[0]) && Decimal(h) != "*"
  {
    DecimalShort(h);
    DecimalShort(m);
    ShortIsWord(Decimal(h));
    ShortIsWord(Decimal(m));
  }

  lemma DailyParsed(h: nat, m: nat)
    requires h <= 23 && m <= 59
    ensures ParseSchedule(Five(Decimal(m), Decimal(h), "*", "*", "*")) == DEFAULT.(time := TimeText(h, m))
  {
    TimeWords(h, m);
    ParseFive(Decimal(m), Decimal(h), "*", "*", "*");
  }

  lemma WeeklyParsed(h: nat, m: nat, day: nat)
    requires h <= 23 && m <= 59 && day <= 6
    ensures ParseSchedule(Five(Decimal(m), Decimal(h), "*", "*", Decimal(day)))
              == DEFAULT.(freq := Weekly, time := TimeText(h, m), weekday := day)
  {
    TimeWords(h, m);
    DecimalShort(day);
    ShortIsWord(Decimal(day));
    ParseFive(Decimal(m), Decimal(h), "*", "*", Decimal(day));
  }

  lemma MonthlyParts(m: string, h: string, d: string)
    requires Short(m) && Short(h) && Short(d) && AsTime(m, h).Some? && 1 <= Number(d) <= 31
    ensures ParseParts([m, h, d, "*", "*"]) == DEFAULT.(freq := Monthly, time := AsTime(m, h).value, dom := Number(d))
  {
    ShortIsWord(d);
    var p := [m, h, d, "*", "*"];
    assert p[2] == d;
  }

  lemma MonthlyParsed(h: nat, m: nat, dom: nat)
    requires h <= 23 && m <= 59 && 1 <= dom <= 31
    ensures ParseSchedule(Five(Decimal(m), Decimal(h), Decimal(dom), "*", "*"))
              == DEFAULT.(freq := Monthly, time := TimeText(h, m), dom := dom)
  {
    TimeWords(h, m);
    DecimalShort(dom);
    ShortIsWord(Decimal(dom));
    ParseFive(Decimal(m), Decimal(h), Decimal(dom), "*", "*");
    MonthlyParts(Decimal(m), Decimal(h), Decimal(dom));
  }

  lemma IntervalParts(step: string, n: string)
    requires step == "*/" + n && Short(n) && 1 <= Number(n) <= 23
    ensures ParseParts(["0", step, "*", "*", "*"]) == DEFAULT.(freq := Interval, intervalHours := Number(n))
  {
    assert step[2..] == n && !IsDigit(step[0]);
    var p := ["0", step, "*", "*", "*"];
    assert p[1] == step && !Short(p[1]);
  }

  lemma IntervalParsed(n: nat)
    requires 1 <= n <= 23
    ensures ParseSchedule(Five("0", "*/" + Decimal(n), "*", "*", "*")) == DEFAULT.(freq := Interval, intervalHours := n)
  {
    DecimalShort(n);
    ShortIsWord(Decimal(n));
    IntervalParts("*/" + Decimal(n), Decimal(n));
    ParseFive("0", "*/" + Decimal(n), "*", "*", "*");
  }

  /** Reading what the builder rendered gives back the frequency and the fields it uses. */
  lemma BuildThenParse(f: Fields)
    requires f.freq != Custom
    ensures ParseSchedule(BuildCron(f)) == Canonical(f)
  {
    var (h, m) := TimeParts(f.time);
    match f.freq
    case Manual =>
    case Hourly => NothingToTrim("0 * * * *", IsBlank);
    case Daily => DailyParsed(h, m);
    case Weekly => WeeklyParsed(h, m, Clamp(f.weekday, 0, 6));
    case Monthly => MonthlyParsed(h, m, Clamp(f.dom, 1, 31));
    case Interval => IntervalParsed(Clamp(f.intervalHours, 1, 23));
  }

  lemma {:induction false} LeadingDigitsAll(s: string)
    requires AllDigits(s)
    ensures LeadingDigits(s) == s
  {
    if s != "" {
      LeadingDigitsAll(s[1..]);
      assert [s[0]] + s[1..] == s;
    }
  }

  lemma DigitsParsed(t: string)
    requires t != "" && AllDigits(t)
    ensures ParseIntOr0(t) == Number(t)
  {
    LeadingDigitsAll(t);
    assert IsDigit(t[0]);
  }

  lemma Pad2Parsed(n: nat)
    requires n < 100
    ensures AllDigits(Pad2(n)) && Pad2(n) != "" && ':' !in Pad2(n) && ParseIntOr0(Pad2(n)) == n
  {
    DecimalShort(n);
    var t := Pad2(n);
    if n < 10 {
      assert t == ['0', Digit(n)] && t[..1] == ['0'] && t[..1][..0] == "";
      assert Number(t[..1]) == 0;
    }
    DigitsParsed(t);
  }

  lemma TimeSplits(h: nat, m: nat)
    requires h <= 23 && m <= 59
    ensures Split(TimeText(h, m), ':') == [Pad2(h), Pad2(m)]
  {
    Pad2Parsed(h);
    Pad2Parsed(m);
    SplitWord(Pad2(m), ':');
    SplitJoined(Pad2(h), ':', Pad2(m));
  }

  /** A zero-padded time is read as it was written. */
  lemma TimeIsRead(h: nat, m: nat)
    requires h <= 23 && m <= 59
    ensures TimeParts(TimeText(h, m)) == (h, m)
  {
    TimeSplits(h, m);
    Pad2Parsed(h);
    Pad2Parsed(m);
    assert [Pad2(h), Pad2(m)][0] == Pad2(h) && [Pad2(h), Pad2(m)][1] == Pad2(m);
  }

  /** What a reading yields is in the builder's canonical form. */
  lemma ParsedIsCanonical(cron: string)
    ensures Canonical(ParseSchedule(cron)) == ParseSchedule(cron)
  {
    var v := Trim(cron, IsBlank);
    if v == "" {
      MidnightIsCanonical();
    } else if v[0] == '@' {
      DescriptorIsCanonical(v);
    } else if v != "0 * * * *" {
      var p := Split(v, ' ');
      PartsAreCanonical(p);
      assert ParseSchedule(cron) == ParseParts(p);
    }
  }

  lemma DescriptorIsCanonical(v: string)
    ensures ParseDescriptor(v).Some? ==> Canonical(ParseDescriptor(v).value) == ParseDescriptor(v).value
  {
    MidnightIsCanonical();
  }

  lemma MidnightIsCanonical()
    ensures TimeParts("00:00") == (0, 0) && TimeText(0, 0) == "00:00"
  {
    TimeIsRead(0, 0);
    assert TimeText(0, 0) == "00:00";
  }

  lemma PartsAreCanonical(p: seq<string>)
    ensures Canonical(ParseParts(p)) == ParseParts(p)
  {
    if |p| == 5 && Short(p[0]) && Short(p[1]) && AsTime(p[0], p[1]).Some? {
      TimeIsRead(Number(p[1]), Number(p[0]));
    }
  }

  /** Reading, rendering and reading again agrees with the first reading exactly when that
      was not "custom": a custom expression renders as nothing. */
  lemma ParseBuildParseIff(cron: string)
    ensures ParseSchedule(BuildCron(ParseSchedule(cron))) == ParseSchedule(cron) <==> ParseSchedule(cron).freq != Custom
  {
    ParsedIsCanonical(cron);
    var f := ParseSchedule(cron);
    if f.freq == Custom {
      assert ParseSchedule("").freq == Manual;
    } else {
      BuildThenParse(f);
    }
  }

  /** For fields in range, with the time zero-padded, nothing the frequency uses is lost. */
  lemma InRangeFieldsSurvive(f: Fields, h: nat, m: nat)
    requires f.freq != Custom && h <= 23 && m <= 59 && f.time == TimeText(h, m)
    requires 0 <= f.weekday <= 6 && 1 <= f.dom <= 31 && 1 <= f.intervalHours <= 23
    ensures var g := ParseSchedule(BuildCron(f));
            && g.freq == f.freq
            && (f.freq in {Daily, Weekly, Monthly} ==> g.time == f.time)
            && (f.freq == Weekly ==> g.weekday == f.weekday)
            && (f.freq == Monthly ==> g.dom == f.dom)
            && (f.freq == Interval ==> g.intervalHours == f.intervalHours)
  {
    TimeIsRead(h, m);
    BuildThenParse(f);
  }

  /** What a text does not say is as in a new schedule. */
  lemma DefaultExample()
    ensures ParseSchedule("@hourly") == Fields(Hourly, "23:00", 0, 1, 6)
  {
    NothingToTrim("@hourly", IsBlank);
  }

  /** A no-break space and a byte order mark are trimmed, the control character NEL is not. */
  lemma TrimExample()
    ensures Trim("\U{FEFF}x\U{A0}", IsBlank) == "x" && Trim("\U{85}x", IsBlank) == "\U{85}x"
  {
    NothingToTrim("x", IsBlank);
    NothingToTrim("\U{85}x", IsBlank);
    assert "\U{FEFF}x\U{A0}"[1..] == "x\U{A0}" && "x\U{A0}"[..1] == "x";
    assert TrimLeft("\U{FEFF}x\U{A0}", IsBlank) == "x\U{A0}";
  }

  /** How loosely a time is read: signs count, what follows the digits does not, a missing or
      unreadable part is 0, and both parts are brought into the day. */
  lemma TimeExample()
    ensures TimeParts("-5" + [':'] + "+7") == (0, 7) && TimeParts(" 9x" + [':'] + "75") == (9, 59)
    ensures TimeParts("30") == (23, 0)
  {
    TwoParts("-5", "+7");
    TwoParts(" 9x", "75");
    SplitWord("30", ':');
    SignsExample();
    DigitsExample();
  }

  lemma TwoParts(h: string, m: string)
    requires ':' !in h && ':' !in m
    ensures TimeParts(h + [':'] + m) == (Clamp(ParseIntOr0(h), 0, 23), Clamp(ParseIntOr0(m), 0, 59))
  {
    SplitJoined(h, ':', m);
    SplitWord(m, ':');
  }

  lemma SignsExample()
    ensures ParseIntOr0("-5") == -5 && ParseIntOr0("+7") == 7
  {
    assert "-5"[1..] == "5" && "+7"[1..] == "7";
    assert LeadingDigits("5") == "5" && LeadingDigits("7") == "7" by {
      assert "5"[1..] == "" && "7"[1..] == "";
    }
    assert Number("5") == 5 && Number("7") == 7;
  }

  lemma DigitsExample()
    ensures ParseIntOr0(" 9x") == 9 && ParseIntOr0("75") == 75 && ParseIntOr0("30") == 30
  {
    assert " 9x"[1..] == "9x" && "9x"[1..] == "x" && TrimLeft(" 9x", IsBlank) == "9x";
    assert LeadingDigits("x") == "" && LeadingDigits("9x") == "9";
    assert "75"[1..] == "5" && "5"[1..] == "" && LeadingDigits("5") == "5" && LeadingDigits("75") == "75";
    assert "30"[1..] == "0" && "0"[1..] == "" && LeadingDigits("0") == "0" && LeadingDigits("30") == "30";
    assert "75"[..1] == "7" && "30"[..1] == "3" && Number("7") == 7 && Number("3") == 3 && Number("9") == 9;
  }
}
