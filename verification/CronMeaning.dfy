/**
 What the scheduler makes of a cron expression: when it fires, as the text it was stored
 as is parsed by the scheduler's cron library; and what that has to do with the builder's
 rendering of fields and with the client's reading of text.
 */
module CronMeaning {
  import opened Common
  import opened Schedule

  // ----- What the expressions mean -----

  /** A minute, an hour, a day of the month and a day of the week (0 is Sunday). */
  datatype Moment = Moment(minute: nat, hour: nat, dom: nat, weekday: nat)

  predicate IsMoment(t: Moment) {
    t.minute <= 59 && t.hour <= 23 && 1 <= t.dom <= 31 && t.weekday <= 6
  }

  /** One field of a cron expression, with the bounds of its values. The scheduler's parser
      refuses an expression with a field out of bounds. */
  predicate FieldParses(field: string, min: nat, max: nat) {
    || field == "*"
    || (field != "" && AllDigits(field) && min <= Number(field) <= max)
    || (IsStep(field) && Number(field[2..]) > 0)
  }

  predicate IsStep(field: string) {
    "*/" <= field && |field| > 2 && AllDigits(field[2..])
  }

  /** Any value, one value, or every n-th from the least. */
  predicate FieldMatches(field: string, min: nat, value: nat)
    requires min <= value
  {
    || field == "*"
    || (field != "" && AllDigits(field) && Number(field) == value)
    || (IsStep(field) && Number(field[2..]) > 0 && (value - min) % Number(field[2..]) == 0)
  }

  /** A field that restricts nothing. */
  predicate IsStar(field: string) {
    field == "*" || (IsStep(field) && Number(field[2..]) == 1)
  }

  /** When both days are restricted either will do. */
  predicate DayMatches(dom: string, weekday: string, t: Moment)
    requires IsMoment(t)
  {
    if IsStar(dom) || IsStar(weekday) then FieldMatches(dom, 1, t.dom) && FieldMatches(weekday, 0, t.weekday)
    else FieldMatches(dom, 1, t.dom) || FieldMatches(weekday, 0, t.weekday)
  }

  /** Whether a five-field expression without a month fires; one that does not parse never
      does. Days of the week are 0 to 6. */
  predicate PartsFire(p: seq<string>, t: Moment)
    requires IsMoment(t)
  {
    && |p| == 5
    && FieldParses(p[0], 0, 59) && FieldParses(p[1], 0, 23) && FieldParses(p[2], 1, 31) && p[3] == "*"
    && FieldParses(p[4], 0, 6)
    && FieldMatches(p[0], 0, t.minute) && FieldMatches(p[1], 0, t.hour) && DayMatches(p[2], p[4], t)
  }

  /** The words of a text: what stands between its white space. */
  function Words(s: string): (ws: seq<string>)
    ensures s != "" && !IsSpace(s[0]) ==> ws != []
  {
    if s == "" then []
    else if IsSpace(s[0]) then Words(s[1..])
    else if |s| == 1 || IsSpace(s[1]) then [[s[0]]] + Words(s[1..])
    else
      var ws := Words(s[1..]);
      [[s[0]] + ws[0]] + ws[1..]
  }

  /** The descriptors the client knows; of the others it says nothing. */
  predicate DescriptorFires(v: string, t: Moment) {
    && t.minute == 0
    && (v == "@hourly"
        || (t.hour == 0 && (v == "@daily" || v == "@midnight" || (v == "@weekly" && t.weekday == 0)
             || (v == "@monthly" && t.dom == 1))))
  }

  /** When the scheduler fires an expression, as it is stored. A text that begins with "@"
      must be a descriptor and nothing else; any other is taken word by word. */
  predicate Fires(cron: string, t: Moment)
    requires IsMoment(t)
  {
    if cron != "" && cron[0] == '@' then DescriptorFires(cron, t) else PartsFire(Words(cron), t)
  }

  /** What the builder's fields say, in the words of its labels. */
  predicate Means(f: Fields, t: Moment) {
    var (h, m) := TimeParts(f.time);
    match f.freq
    case Manual => false
    case Hourly => t.minute == 0
    case Daily => t.minute == m && t.hour == h
    case Weekly => t.minute == m && t.hour == h && t.weekday == Clamp(f.weekday, 0, 6)
    case Monthly => t.minute == m && t.hour == h && t.dom == Clamp(f.dom, 1, 31)
    case Interval => t.minute == 0 && t.hour % Clamp(f.intervalHours, 1, 23) == 0
    case Custom => false
  }

  lemma NumberField(n: nat, min: nat, max: nat, value: nat)
    requires min <= n <= max && max < 100 && min <= value
    ensures FieldParses(Decimal(n), min, max) && (FieldMatches(Decimal(n), min, value) <==> value == n)
    ensures Decimal(n) != "*"
  {
    DecimalShort(n);
    ShortIsWord(Decimal(n));
  }

  lemma StepField(n: nat, value: nat)
    requires 1 <= n < 100
    ensures FieldParses("*/" + Decimal(n), 0, 23) && (FieldMatches("*/" + Decimal(n), 0, value) <==> value % n == 0)
    ensures ' ' !in "*/" + Decimal(n)
  {
    DecimalShort(n);
    ShortIsWord(Decimal(n));
    assert ("*/" + Decimal(n))[2..] == Decimal(n);
    assert !IsDigit(("*/" + Decimal(n))[0]);
  }

  lemma ZeroField(value: nat)
    ensures FieldParses("0", 0, 59) && (FieldMatches("0", 0, value) <==> value == 0)
  {
    assert Decimal(0) == "0";
    NumberField(0, 0, 59, value);
  }

  /** A word of a cron expression as far as it is modelled. */
  predicate PlainChar(c: char) {
    IsDigit(c) || c == '*' || c == '/'
  }

  predicate Plain(s: string) {
    s != "" && forall i :: 0 <= i < |s| ==> PlainChar(s[i])
  }

  lemma FieldIsPlain(field: string, min: nat, max: nat)
    requires FieldParses(field, min, max)
    ensures Plain(field)
  {
    if IsStep(field) {
      forall i | 0 <= i < |field| ensures PlainChar(field[i]) {
        assert i >= 2 ==> field[i] == field[2..][i - 2];
      }
    }
  }

  predicate AllPlain(p: seq<string>) {
    forall i :: 0 <= i < |p| ==> Plain(p[i])
  }

  lemma FiredIsPlain(p: seq<string>, t: Moment)
    requires IsMoment(t) && PartsFire(p, t)
    ensures AllPlain(p)
  {
    FieldIsPlain(p[0], 0, 59);
    FieldIsPlain(p[1], 0, 23);
    FieldIsPlain(p[2], 1, 31);
    FieldIsPlain(p[4], 0, 6);
  }

  /** The part before the first separator, and what follows it. */
  lemma {:induction false} SplitFirst(v: string, sep: char) returns (rest: string)
    ensures var parts := Split(v, sep);
            if |parts| == 1 then v == parts[0] else v == parts[0] + [sep] + rest && Split(rest, sep) == parts[1..]
    ensures |rest| <= |v| && (|Split(v, sep)| > 1 ==> |rest| < |v|)
  {
    rest := "";
    if v != "" {
      if v[0] == sep {
        rest := v[1..];
      } else {
        rest := SplitFirst(v[1..], sep);
        assert v == [v[0]] + v[1..];
      }
    }
  }

  lemma {:induction false} FirstWord(w: string, rest: string)
    requires Plain(w)
    ensures Words(w) == [w] && Words(w + [' '] + rest) == [w] + Words(rest)
  {
    var s := w + [' '] + rest;
    assert PlainChar(w[0]) && s[0] == w[0];
    if |w| == 1 {
      assert w == [w[0]] && s[1..] == [' '] + rest && s[1..][1..] == rest;
    } else {
      assert forall i :: 0 <= i < |w[1..]| ==> w[1..][i] == w[i + 1];
      FirstWord(w[1..], rest);
      assert PlainChar(w[1]) && s[1] == w[1] && s[1..] == w[1..] + [' '] + rest && w == [w[0]] + w[1..];
    }
  }

  /** Plain words with one blank between them are read by either cut. */
  lemma {:induction false} WordsAreParts(v: string)
    requires AllPlain(Split(v, ' '))
    ensures Words(v) == Split(v, ' ')
    decreases |v|
  {
    var parts := Split(v, ' ');
    var rest := SplitFirst(v, ' ');
    FirstWord(parts[0], rest);
    if |parts| > 1 {
      assert forall i :: 0 <= i < |parts[1..]| ==> parts[1..][i] == parts[i + 1];
      WordsAreParts(rest);
    }
  }

  lemma FiveWords(a: string, b: string, c: string, e: string)
    requires Plain(a) && Plain(b) && Plain(c) && Plain(e)
    ensures Words(Five(a, b, c, "*", e)) == [a, b, c, "*", e] && Five(a, b, c, "*", e)[0] != '@'
  {
    FiveParts(a, b, c, "*", e);
    FiveEnds(a, b, c, "*", e);
    WordsAreParts(Five(a, b, c, "*", e));
  }

  /** Fields that parse fire when they all match. */
  lemma FiveFires(a: string, b: string, c: string, e: string, t: Moment)
    requires IsMoment(t)
    requires FieldParses(a, 0, 59) && FieldParses(b, 0, 23) && FieldParses(c, 1, 31) && FieldParses(e, 0, 6)
    ensures Fires(Five(a, b, c, "*", e), t)
            <==> FieldMatches(a, 0, t.minute) && FieldMatches(b, 0, t.hour) && DayMatches(c, e, t)
  {
    FieldIsPlain(a, 0, 59);
    FieldIsPlain(b, 0, 23);
    FieldIsPlain(c, 1, 31);
    FieldIsPlain(e, 0, 6);
    FiveWords(a, b, c, e);
    var p := [a, b, c, "*", e];
    assert p[0] == a && p[1] == b && p[2] == c && p[3] == "*" && p[4] == e;
  }

  /** The builder's number n is a word of the expression and matches just n. */
  lemma NumberWord(n: nat, min: nat, max: nat, value: nat)
    requires min <= n <= max && max < 100 && min <= value
    ensures ' ' !in Decimal(n) && Decimal(n) != "*"
    ensures FieldParses(Decimal(n), min, max) && (FieldMatches(Decimal(n), min, value) <==> value == n)
  {
    NumberField(n, min, max, value);
    DecimalShort(n);
    ShortIsWord(Decimal(n));
  }

  lemma DailyFires(h: nat, m: nat, t: Moment)
    requires h <= 23 && m <= 59 && IsMoment(t)
    ensures Fires(Five(Decimal(m), Decimal(h), "*", "*", "*"), t) <==> t.minute == m && t.hour == h
  {
    NumberWord(m, 0, 59, t.minute);
    NumberWord(h, 0, 23, t.hour);
    FiveFires(Decimal(m), Decimal(h), "*", "*", t);
  }

  lemma WeeklyFires(h: nat, m: nat, day: nat, t: Moment)
    requires h <= 23 && m <= 59 && day <= 6 && IsMoment(t)
    ensures Fires(Five(Decimal(m), Decimal(h), "*", "*", Decimal(day)), t)
            <==> t.minute == m && t.hour == h && t.weekday == day
  {
    NumberWord(m, 0, 59, t.minute);
    NumberWord(h, 0, 23, t.hour);
    NumberWord(day, 0, 6, t.weekday);
    FiveFires(Decimal(m), Decimal(h), "*", Decimal(day), t);
  }

  lemma MonthlyFires(h: nat, m: nat, dom: nat, t: Moment)
    requires h <= 23 && m <= 59 && 1 <= dom <= 31 && IsMoment(t)
    ensures Fires(Five(Decimal(m), Decimal(h), Decimal(dom), "*", "*"), t)
            <==> t.minute == m && t.hour == h && t.dom == dom
  {
    NumberWord(m, 0, 59, t.minute);
    NumberWord(h, 0, 23, t.hour);
    NumberWord(dom, 1, 31, t.dom);
    FiveFires(Decimal(m), Decimal(h), Decimal(dom), "*", t);
  }

  lemma IntervalFires(n: nat, t: Moment)
    requires 1 <= n <= 23 && IsMoment(t)
    ensures Fires(Five("0", "*/" + Decimal(n), "*", "*", "*"), t) <==> t.minute == 0 && t.hour % n == 0
  {
    StepField(n, t.hour);
    ZeroField(t.minute);
    FiveFires("0", "*/" + Decimal(n), "*", "*", t);
  }

  lemma HourlyFires(t: Moment)
    requires IsMoment(t)
    ensures Fires("0 * * * *", t) <==> t.minute == 0
  {
    ZeroField(t.minute);
    assert "0 * * * *" == Five("0", "*", "*", "*", "*");
    FiveFires("0", "*", "*", "*", t);
  }

  /** The rendered expression fires exactly at the moments the fields describe. */
  lemma BuiltFiresAsMeant(f: Fields, t: Moment)
    requires IsMoment(t)
    ensures Fires(BuildCron(f), t) <==> Means(f, t)
  {
    var (h, m) := TimeParts(f.time);
    match f.freq
    case Manual =>
    case Custom =>
    case Hourly =>
      HourlyFires(t);
    case Daily => DailyFires(h, m, t);
    case Weekly => WeeklyFires(h, m, Clamp(f.weekday, 0, 6), t);
    case Monthly => MonthlyFires(h, m, Clamp(f.dom, 1, 31), t);
    case Interval => IntervalFires(Clamp(f.intervalHours, 1, 23), t);
  }

  // ----- Readings and what the scheduler does -----

  /** The day of the week is written as 7. */
  predicate SundayAsSeven(v: string) {
    |Split(v, ' ')| == 5 && Split(v, ' ')[4] == "7"
  }

  /** A byte order mark: the client trims it, the scheduler's parser takes it for text. */
  const MARK: char := '\U{FEFF}'

  /** The scheduler fires an expression exactly when the client's reading of it says. */
  ghost predicate ReadsRight(cron: string) {
    forall t :: IsMoment(t) ==> (Fires(cron, t) <==> Means(ParseSchedule(cron), t))
  }

  /** Nothing is to be run, or a descriptor stands alone, or five fields hold no byte order
      mark around them and do not call Sunday 7. */
  predicate StoredWell(cron: string) {
    var v := Trim(cron, IsBlank);
    || v == ""
    || (if v[0] == '@' then cron == v else MARK !in cron && !SundayAsSeven(v))
  }

  // What is trimmed and what is cut into words.

  lemma {:induction false} CharsInWords(s: string, c: char)
    requires c in s && !IsSpace(c)
    ensures exists i :: 0 <= i < |Words(s)| && c in Words(s)[i]
  {
    if !IsSpace(s[0]) && s[0] == c {
      assert c in Words(s)[0];
    } else {
      assert c in s[1..] by { assert s == [s[0]] + s[1..]; }
      CharsInWords(s[1..], c);
      var i :| 0 <= i < |Words(s[1..])| && c in Words(s[1..])[i];
      if IsSpace(s[0]) {
        assert c in Words(s)[i];
      } else if |s| == 1 || IsSpace(s[1]) {
        assert Words(s)[i + 1] == Words(s[1..])[i];
      } else {
        assert c in Words(s)[i];
      }
    }
  }

  /** A text with a letter, a mark or an "@" in it is refused. */
  lemma OddTextIsRefused(s: string, c: char, t: Moment)
    requires c in s && !IsSpace(c) && !PlainChar(c) && IsMoment(t)
    ensures !PartsFire(Words(s), t)
  {
    CharsInWords(s, c);
    var i :| 0 <= i < |Words(s)| && c in Words(s)[i];
    assert !Plain(Words(s)[i]);
    if PartsFire(Words(s), t) {
      FiredIsPlain(Words(s), t);
    }
  }

  lemma {:induction false} WordsOfTrimLeft(s: string)
    requires MARK !in s
    ensures Words(TrimLeft(s, IsBlank)) == Words(s) && MARK !in TrimLeft(s, IsBlank)
  {
    if s != "" && IsBlank(s[0]) {
      WordsOfTrimLeft(s[1..]);
    }
  }

  lemma {:induction false} WordsBeforeSpace(s: string, c: char)
    requires IsSpace(c)
    ensures Words(s + [c]) == Words(s)
  {
    if s != "" {
      WordsBeforeSpace(s[1..], c);
      assert (s + [c])[1..] == s[1..] + [c] && (s + [c])[0] == s[0];
      assert |s| > 1 ==> (s + [c])[1] == s[1];
    }
  }

  lemma {:induction false} WordsOfTrimRight(s: string)
    requires MARK !in s
    ensures Words(TrimRight(s, IsBlank)) == Words(s)
  {
    if s != "" && IsBlank(s[|s| - 1]) {
      WordsOfTrimRight(s[..|s| - 1]);
      assert s == s[..|s| - 1] + [s[|s| - 1]];
      WordsBeforeSpace(s[..|s| - 1], s[|s| - 1]);
    }
  }

  lemma WordsOfTrim(s: string)
    requires MARK !in s
    ensures Words(Trim(s, IsBlank)) == Words(s)
  {
    WordsOfTrimLeft(s);
    WordsOfTrimRight(TrimLeft(s, IsBlank));
  }

  lemma {:induction false} TrimLeftWithin(s: string, c: char)
    requires c in TrimLeft(s, IsBlank)
    ensures c in s
  {
    if s != "" && IsBlank(s[0]) {
      TrimLeftWithin(s[1..], c);
    }
  }

  lemma {:induction false} TrimRightWithin(s: string, c: char)
    requires c in TrimRight(s, IsBlank)
    ensures c in s
  {
    if s != "" && IsBlank(s[|s| - 1]) {
      TrimRightWithin(s[..|s| - 1], c);
    }
  }

  lemma {:induction false} TrimRightKeepsFirst(s: string)
    requires s != "" && !IsBlank(s[0])
    ensures TrimRight(s, IsBlank) != "" && TrimRight(s, IsBlank)[0] == s[0]
  {
    if IsBlank(s[|s| - 1]) {
      TrimRightKeepsFirst(s[..|s| - 1]);
    }
  }

  /** An "@" in front stays in front. */
  lemma AtIsNotTrimmed(cron: string)
    requires cron != "" && cron[0] == '@'
    ensures Trim(cron, IsBlank) != "" && Trim(cron, IsBlank)[0] == '@'
  {
    TrimRightKeepsFirst(cron);
  }

  // Fields and descriptors one by one.

  lemma ShortField(s: string, min: nat, max: nat, value: nat)
    requires Short(s) && min <= value
    ensures FieldMatches(s, min, value) <==> value == Number(s)
    ensures FieldParses(s, min, max) <==> min <= Number(s) <= max
    ensures s != "*" && Plain(s)
  {
    ShortIsWord(s);
    assert IsDigit(s[0]);
  }

  lemma OneDigit(s: string)
    requires |s| == 1 && AllDigits(s)
    ensures Short(s) && (Number(s) == 7 <==> s == "7")
  {
    assert s[..0] == "";
  }

  lemma IntervalReadAsMeant(p: seq<string>, t: Moment)
    requires |p| == 5 && ParseInterval(p).Some? && IsMoment(t)
    ensures PartsFire(p, t) <==> Means(ParseInterval(p).value, t)
    ensures AllPlain(p)
  {
    ZeroField(t.minute);
    assert !IsDigit(p[1][0]);
    FieldIsPlain(p[0], 0, 59);
    FieldIsPlain(p[1], 0, 23);
  }

  /** A recognised list of fields is read as what it means, unless it names day 7. */
  lemma PartsReadAsMeant(p: seq<string>, t: Moment)
    requires IsMoment(t) && ParseParts(p).freq != Custom
    ensures |p| == 5 && (PartsFire(p, t) <==> p[4] != "7" && Means(ParseParts(p), t))
  {
    if Short(p[0]) && Short(p[1]) && AsTime(p[0], p[1]).Some? {
      TimeIsRead(Number(p[1]), Number(p[0]));
      ShortField(p[0], 0, 59, t.minute);
      ShortField(p[1], 0, 23, t.hour);
      if Short(p[2]) {
        ShortField(p[2], 1, 31, t.dom);
      }
      if p[4] != "*" {
        OneDigit(p[4]);
        ShortField(p[4], 0, 6, t.weekday);
      }
    } else {
      IntervalReadAsMeant(p, t);
    }
  }

  lemma PartsArePlain(p: seq<string>)
    requires ParseParts(p).freq != Custom
    ensures AllPlain(p)
  {
    if Short(p[0]) && Short(p[1]) && AsTime(p[0], p[1]).Some? {
      assert AllDigits(p[0]) && AllDigits(p[1]);
    } else {
      IntervalReadAsMeant(p, Moment(0, 0, 1, 0));
    }
  }

  lemma DescriptorReadAsMeant(v: string, t: Moment)
    requires IsMoment(t) && ParseDescriptor(v).Some?
    ensures DescriptorFires(v, t) <==> Means(ParseDescriptor(v).value, t)
  {
    MidnightIsCanonical();
  }

  /** The trimmed text, had it been stored. */
  lemma TrimmedReadAsMeant(v: string, t: Moment)
    requires IsMoment(t) && v != "" && v[0] != '@' && ParseTrimmed(v).freq != Custom
    ensures PartsFire(Words(v), t) <==> !SundayAsSeven(v) && Means(ParseTrimmed(v), t)
  {
    if v == "0 * * * *" {
      HourlyParts();
      HourlyFires(t);
    } else {
      PartsReadAsMeant(Split(v, ' '), t);
      PartsArePlain(Split(v, ' '));
      WordsAreParts(v);
    }
  }

  /** A reading that runs at all runs at some moment that exists. */
  lemma MeansSomething(f: Fields) returns (t: Moment)
    requires f.freq != Custom && f.freq != Manual
    ensures IsMoment(t) && Means(f, t)
  {
    var (h, m) := TimeParts(f.time);
    t := match f.freq
      case Hourly => Moment(0, 0, 1, 0)
      case Weekly => Moment(m, h, 1, Clamp(f.weekday, 0, 6))
      case Monthly => Moment(m, h, Clamp(f.dom, 1, 31), 0)
      case Interval => Moment(0, 0, 1, 0)
      case Daily => Moment(m, h, 1, 0);
  }

  lemma DescriptorIsTrimmed(cron: string)
    requires ParseDescriptor(cron).Some?
    ensures Trim(cron, IsBlank) == cron
  {
    NothingToTrim(cron, IsBlank);
  }

  lemma DescriptorNames(v: string, t: Moment)
    requires DescriptorFires(v, t)
    ensures ParseDescriptor(v).Some?
  {
  }

  /** What the scheduler fires of a text that the client reads as v. */
  lemma FiresAs(cron: string, v: string, t: Moment)
    requires v == Trim(cron, IsBlank) && IsMoment(t) && ParseTrimmed(v).freq != Custom
    ensures Fires(cron, t) <==> StoredWell(cron) && Means(ParseTrimmed(v), t)
  {
    if cron != "" && cron[0] == '@' {
      AtIsNotTrimmed(cron);
      if cron == v {
        DescriptorReadAsMeant(v, t);
      } else if Fires(cron, t) {
        DescriptorNames(cron, t);
        DescriptorIsTrimmed(cron);
      }
    } else if MARK in cron {
      OddTextIsRefused(cron, MARK, t);
    } else if v != "" && v[0] == '@' {
      TrimRightWithin(TrimLeft(cron, IsBlank), '@');
      TrimLeftWithin(cron, '@');
      OddTextIsRefused(cron, '@', t);
    } else {
      WordsOfTrim(cron);
      if v != "" {
        TrimmedReadAsMeant(v, t);
      }
    }
  }

  /** A recognised expression fires exactly at the moments of its reading if and only if it
      is stored well. The client trims what it reads and takes 7 for Sunday; the scheduler
      parses the text as it is stored, and a job whose text it refuses never runs. */
  lemma ReadAsMeantIff(cron: string)
    requires ParseSchedule(cron).freq != Custom
    ensures ReadsRight(cron) <==> StoredWell(cron)
  {
    var v := Trim(cron, IsBlank);
    forall t | IsMoment(t) ensures Fires(cron, t) <==> StoredWell(cron) && Means(ParseSchedule(cron), t) {
      FiresAs(cron, v, t);
    }
    if !StoredWell(cron) {
      NotManual(v);
      var t := MeansSomething(ParseTrimmed(v));
      assert IsMoment(t) && Means(ParseSchedule(cron), t);
    }
  }

  lemma NotManual(v: string)
    requires v != ""
    ensures ParseTrimmed(v).freq != Manual
  {
  }

  /** Day 7: read as weekly on Sunday, and never fired. */
  lemma SundayAsSevenExample()
    ensures ParseSchedule("0 0 * * 7") == DEFAULT.(freq := Weekly, time := "00:00", weekday := 0)
    ensures forall t :: IsMoment(t) ==> !Fires("0 0 * * 7", t)
  {
    assert "0 0 * * 7" == Five("0", "0", "*", "*", "7");
    FiveParts("0", "0", "*", "*", "7");
    ParseFive("0", "0", "*", "*", "7");
    SevenParts();
    FiveWords("0", "0", "*", "7");
  }

  lemma SevenParts()
    ensures ParseParts(["0", "0", "*", "*", "7"]) == DEFAULT.(freq := Weekly, time := "00:00", weekday := 0)
    ensures forall t :: IsMoment(t) ==> !PartsFire(["0", "0", "*", "*", "7"], t)
  {
    assert Decimal(0) == "0" && Decimal(7) == "7";
    DecimalShort(0);
    DecimalShort(7);
    assert TimeText(0, 0) == "00:00";
    var p := ["0", "0", "*", "*", "7"];
    assert p[4] == "7" && ParseDaily(p).None? && !FieldParses(p[4], 0, 6);
  }

  /** A blank in front: read as daily at midnight, and never fired. */
  lemma BlankDailyExample()
    ensures ParseSchedule(" @daily") == DEFAULT.(freq := Daily, time := "00:00")
    ensures forall t :: IsMoment(t) ==> !Fires(" @daily", t)
  {
    assert " @daily"[1..] == "@daily";
    NothingToTrim("@daily", IsBlank);
    assert Trim(" @daily", IsBlank) == "@daily";
    assert " @daily"[1] == '@';
    forall t | IsMoment(t) ensures !Fires(" @daily", t) {
      OddTextIsRefused(" @daily", '@', t);
    }
  }

  /** The 13th and every Friday. */
  lemma BothDaysExample(t: Moment)
    requires IsMoment(t)
    ensures PartsFire(["0", "0", "13", "*", "5"], t) <==>
              t.minute == 0 && t.hour == 0 && (t.dom == 13 || t.weekday == 5)
  {
    assert Decimal(0) == "0" && Decimal(1) == "1" && Decimal(13) == "1" + "3" && Decimal(5) == "5";
    NumberField(0, 0, 59, t.minute);
    NumberField(0, 0, 23, t.hour);
    NumberField(13, 1, 31, t.dom);
    NumberField(5, 0, 6, t.weekday);
  }

  /** Every first day of a step of one is every day: the Fridays. */
  lemma StarStepExample(t: Moment)
    requires IsMoment(t)
    ensures PartsFire(["0", "0", "*/1", "*", "5"], t) <==> t.minute == 0 && t.hour == 0 && t.weekday == 5
  {
    assert Decimal(0) == "0" && Decimal(5) == "5";
    NumberField(0, 0, 59, t.minute);
    NumberField(0, 0, 23, t.hour);
    NumberField(5, 0, 6, t.weekday);
    assert "*/1"[2..] == "1" && Number("1") == 1;
  }
}
