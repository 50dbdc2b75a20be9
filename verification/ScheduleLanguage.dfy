/**
 Which texts the schedule parsers read, and as what: the daemon's (internal/config/schedule.go),
 stated on characters and words alone, and the browser's clock times (web/schedule.js).
 */
module ScheduleLanguage {
  import opened Common
  import opened GoStrings
  import opened WeeklySchedule
  import opened ScheduleText
  import Web = WebSchedule

  // ---------------------------------------------------------------- clock times

  /** The two-character numerals of n: two digits, a plus sign and a digit, or minus zero. */
  predicate Numeral(s: string, n: int) {
    || (0 <= n < 100 && s == [Digit(n / 10), Digit(n % 10)])
    || (0 <= n < 10 && s == ['+', Digit(n)])
    || (n == 0 && s == ['-', '0'])
  }

  lemma DigitOf(c: char)
    requires IsDigit(c)
    ensures 0 <= DigitValue(c) < 10 && Digit(DigitValue(c)) == c
  {
  }

  lemma OneDigit(c: char)
    requires IsDigit(c)
    ensures AllDigits([c]) && Decimal([c]) == DigitValue(c)
  {
    assert [c][..0] == "";
  }

  lemma TwoDigitValue(s: string)
    requires |s| == 2 && AllDigits(s)
    ensures Decimal(s) == 10 * DigitValue(s[0]) + DigitValue(s[1])
  {
    assert s[..1] == [s[0]];
    OneDigit(s[0]);
  }

  lemma NumeralIff(s: string, n: int)
    requires |s| == 2 && n >= 0
    ensures Atoi(s) == Some(n) <==> Numeral(s, n)
  {
    if Atoi(s) == Some(n) { AtoiIsNumeral(s, n); }
    if Numeral(s, n) { NumeralIsRead(s, n); }
  }

  lemma AtoiIsNumeral(s: string, n: int)
    requires |s| == 2 && n >= 0 && Atoi(s) == Some(n)
    ensures Numeral(s, n)
  {
    if s[0] == '+' || s[0] == '-' {
      assert s[1..] == [s[1]];
      OneDigit(s[1]);
      DigitOf(s[1]);
      assert s == [s[0], s[1]];
    } else {
      TwoDigitValue(s);
      DigitOf(s[0]);
      DigitOf(s[1]);
      assert s == [s[0], s[1]];
    }
  }

  lemma NumeralIsRead(s: string, n: int)
    requires n >= 0 && Numeral(s, n)
    ensures Atoi(s) == Some(n)
  {
    if s == ['-', '0'] {
      assert s[1..] == ['0'];
      OneDigit('0');
    } else if s[0] == '+' {
      assert s[1..] == [Digit(n)];
      OneDigit(Digit(n));
    } else {
      TwoDigitsAreRead(n);
    }
  }

  /** A clock time: two numerals around a colon, of an hour below 24 and a minute below 60. */
  ghost predicate ClockReads(c: string, minutes: int) {
    exists x, y, h, m ::
      Numeral(x, h) && Numeral(y, m) && 0 <= h < 24 && 0 <= m < 60 && minutes == 60 * h + m && c == x + ":" + y
  }

  lemma ClockReadsIff(c: string, minutes: int)
    ensures ParseHHMM(c) == Some(minutes) <==> ClockReads(c, minutes)
  {
    if ParseHHMM(c) == Some(minutes) {
      NumeralIff(c[..2], Atoi(c[..2]).value);
      NumeralIff(c[3..], Atoi(c[3..]).value);
      assert c == c[..2] + ":" + c[3..];
    }
    if ClockReads(c, minutes) { ReadClockIsParsed(c, minutes); }
  }

  lemma ReadClockIsParsed(c: string, minutes: int)
    requires ClockReads(c, minutes)
    ensures ParseHHMM(c) == Some(minutes)
  {
    var x, y, h, m :| Numeral(x, h) && Numeral(y, m) && 0 <= h < 24 && 0 <= m < 60 && minutes == 60 * h + m && c == x + ":" + y;
    assert |x| == 2 && |y| == 2 && c[..2] == x && c[3..] == y;
    NumeralIff(x, h);
    NumeralIff(y, m);
  }

  /** A time range: two different clock times around a dash that is the first one. */
  ghost predicate TimesRead(r: string, start: int, end: int) {
    start != end && exists x, y :: r == x + ['-'] + y && '-' !in x && ClockReads(x, start) && ClockReads(y, end)
  }

  lemma Halves(r: string, x: string, y: string)
    requires r == x + ['-'] + y && '-' !in x
    ensures Index(r, '-') == |x| && r[..|x|] == x && r[|x| + 1..] == y
  {
    IndexAfter(x, '-', y);
  }

  lemma DashSplits(r: string)
    requires '-' in r
    ensures var n := Index(r, '-'); r == r[..n] + ['-'] + r[n + 1..] && '-' !in r[..n]
  {
  }

  lemma TimesReadIff(r: string, start: int, end: int)
    ensures ParseTimeRange(r) == Ok((start, end)) <==> TimesRead(r, start, end)
  {
    if ParseTimeRange(r) == Ok((start, end)) { ParsedTimesAreRead(r, start, end); }
    if TimesRead(r, start, end) { ReadTimesAreParsed(r, start, end); }
  }

  lemma ParsedTimesAreRead(r: string, start: int, end: int)
    requires ParseTimeRange(r) == Ok((start, end))
    ensures TimesRead(r, start, end)
  {
    var n := Index(r, '-');
    DashSplits(r);
    ClockReadsIff(r[..n], start);
    ClockReadsIff(r[n + 1..], end);
    TimesReadBy(r, r[..n], r[n + 1..], start, end);
  }

  lemma TimesReadBy(r: string, x: string, y: string, start: int, end: int)
    requires start != end && r == x + ['-'] + y && '-' !in x && ClockReads(x, start) && ClockReads(y, end)
    ensures TimesRead(r, start, end)
  {
  }

  lemma ReadTimesAreParsed(r: string, start: int, end: int)
    requires TimesRead(r, start, end)
    ensures ParseTimeRange(r) == Ok((start, end))
  {
    var x, y :| r == x + ['-'] + y && '-' !in x && ClockReads(x, start) && ClockReads(y, end);
    Halves(r, x, y);
    ClockReadsIff(x, start);
    ClockReadsIff(y, end);
  }

  // ---------------------------------------------------------------- days

  /** `c` is the letter, its capital, or the dotted capital I. */
  predicate IsLetter(c: char, letter: char) {
    c == letter || c as int == letter as int - 32 || (letter == 'i' && c as int == 0x130)
  }

  /** Three letters that spell the day's name in any case. */
  predicate Spells(s: string, d: Day) { |s| == 3 && forall i | 0 <= i < 3 :: IsLetter(s[i], DayName(d)[i]) }

  lemma LowerIff(c: char, letter: char)
    requires 'a' <= letter <= 'z' && letter != 'k'
    ensures LowerChar(c) == letter <==> IsLetter(c, letter)
  {
  }

  lemma SpellsIff(s: string, d: Day)
    ensures DayNamed(ToLower(s)) == Some(d) <==> Spells(s, d)
  {
    NameIsLower(d);
    assert forall i | 0 <= i < 3 :: DayName(d)[i] != 'k';
    if |s| == 3 {
      forall i | 0 <= i < 3 ensures ToLower(s)[i] == DayName(d)[i] <==> IsLetter(s[i], DayName(d)[i]) {
        LowerIff(s[i], DayName(d)[i]);
      }
    }
    if DayNamed(ToLower(s)) == Some(d) { LowName(ToLower(s), d); }
    if Spells(s, d) { assert ToLower(s) == DayName(d); }
  }

  lemma LowName(low: string, d: Day)
    requires DayNamed(low) == Some(d)
    ensures low == DayName(d)
  {
  }

  /** A day's name with white space around it. */
  ghost predicate DayReads(name: string, d: Day) {
    exists x, m, y :: name == x + m + y && AllSpace(x) && AllSpace(y) && Spells(m, d)
  }

  lemma SpelledHasNoEdge(m: string, d: Day)
    requires Spells(m, d)
    ensures NoEdgeSpace(m)
  {
    NameIsLower(d);
    assert IsLetter(m[0], DayName(d)[0]) && IsLetter(m[2], DayName(d)[2]);
  }

  lemma DayReadsIff(name: string, d: Day)
    ensures LookupWeekday(name) == Some(d) <==> DayReads(name, d)
  {
    if LookupWeekday(name) == Some(d) {
      var x, y := TrimParts(name);
      SpellsIff(TrimSpace(name), d);
    }
    if x, m, y :| name == x + m + y && AllSpace(x) && AllSpace(y) && Spells(m, d) {
      SpelledHasNoEdge(m, d);
      TrimOf(x, m, y);
      SpellsIff(m, d);
    }
  }

  lemma {:induction false} JoinSplit(s: string, sep: char)
    ensures Join(Split(s, sep), sep) == s
    ensures forall p | p in Split(s, sep) :: sep !in p
    decreases |s|
  {
    var n := Index(s, sep);
    if n >= 0 {
      var rest := s[n + 1..];
      JoinSplit(rest, sep);
      var parts := [s[..n]] + Split(rest, sep);
      assert parts[1..] == Split(rest, sep);
      assert s == s[..n] + [sep] + rest;
    }
  }

  /** A list of day names joined by commas, two or more, denoting exactly those days. */
  ghost predicate ListReads(spec: string, mask: bv8) {
    exists names ::
      && |names| > 1 && spec == Join(names, ',') && (forall p | p in names :: ',' !in p && exists d :: DayReads(p, d))
      && mask & 128 == 0 && forall d: Day :: Has(mask, d) <==> exists p :: p in names && DayReads(p, d)
  }

  lemma {:induction false} SplitSize(s: string, sep: char)
    ensures |Split(s, sep)| > 1 <==> sep in s
  {
  }

  lemma ListHolds(names: seq<string>, d: Day)
    requires NamedDays(names).Some?
    ensures Has(NamedDays(names).value, d) <==> exists p :: p in names && DayReads(p, d)
    ensures forall p | p in names :: exists e :: DayReads(p, e)
  {
    NamedDaysHold(names, d);
    NamesAreKnown(names);
    forall p | p in names ensures exists e :: DayReads(p, e) {
      var i :| 0 <= i < |names| && names[i] == p;
      DayReadsIff(p, LookupWeekday(names[i]).value);
    }
    if Named(names, d) {
      var i :| 0 <= i < |names| && LookupWeekday(names[i]) == Some(d);
      DayReadsIff(names[i], d);
    }
    if p :| p in names && DayReads(p, d) {
      var i :| 0 <= i < |names| && names[i] == p;
      DayReadsIff(p, d);
    }
  }

  lemma {:induction false} KnownNamesAreRead(names: seq<string>)
    requires forall p | p in names :: exists d :: DayReads(p, d)
    ensures NamedDays(names).Some?
  {
    if names != [] {
      assert names[0] in names;
      var d :| DayReads(names[0], d);
      DayReadsIff(names[0], d);
      assert forall p | p in names[1..] :: p in names;
      KnownNamesAreRead(names[1..]);
    }
  }

  lemma ListReadsIff(spec: string, mask: bv8)
    requires ',' in spec
    ensures DaySpec(spec) == Ok(mask) <==> ListReads(spec, mask)
  {
    var names := Split(spec, ',');
    JoinSplit(spec, ',');
    SplitSize(spec, ',');
    if DaySpec(spec) == Ok(mask) {
      NamedDaysHold(names, 0);
      forall d: Day ensures Has(mask, d) <==> exists p :: p in names && DayReads(p, d) { ListHolds(names, d); }
      ListHolds(names, 0);
    }
    if ListReads(spec, mask) { ReadListIsParsed(spec, mask); }
  }

  lemma ReadListIsParsed(spec: string, mask: bv8)
    requires ',' in spec && ListReads(spec, mask)
    ensures DaySpec(spec) == Ok(mask)
  {
    var names :|
      && |names| > 1 && spec == Join(names, ',') && (forall p | p in names :: ',' !in p && exists d :: DayReads(p, d))
      && mask & 128 == 0 && forall d: Day :: Has(mask, d) <==> exists p :: p in names && DayReads(p, d);
    SplitJoin(names, ',');
    KnownNamesAreRead(names);
    NamedDaysHold(names, 0);
    forall d: Day ensures Has(NamedDays(names).value, d) <==> Has(mask, d) { ListHolds(names, d); }
    SameDays(NamedDays(names).value, mask);
    assert spec != "*";
  }

  /** A range of two day names around the first dash, wrapping past Saturday. */
  ghost predicate SpanReads(spec: string, mask: bv8) {
    exists x, y, a: Day, b: Day ::
      spec == x + ['-'] + y && '-' !in x && DayReads(x, a) && DayReads(y, b) && Holds(mask, a, b)
  }

  /** Exactly the days from `a` on up to `b`. */
  ghost predicate Holds(mask: bv8, a: Day, b: Day) {
    mask & 128 == 0 && forall d: Day :: Has(mask, d) <==> (d + 7 - a) % 7 <= (b + 7 - a) % 7
  }

  lemma AheadIs(a: Day, d: Day)
    ensures Ahead(a, d) == (d + 7 - a) % 7
  {
  }

  lemma RangeDay(a: Day, b: Day, d: Day, mask: bv8)
    requires mask == Range(a, b)
    ensures Has(mask, d) <==> (d + 7 - a) % 7 <= (b + 7 - a) % 7
  {
    AheadIs(a, d);
    AheadIs(a, b);
    RangeHolds(a, b, d);
  }

  lemma RangeHoldsDays(a: Day, b: Day)
    ensures Holds(Range(a, b), a, b)
  {
    RangeNonZero(a, b);
    forall d: Day ensures Has(Range(a, b), d) <==> (d + 7 - a) % 7 <= (b + 7 - a) % 7 { RangeDay(a, b, d, Range(a, b)); }
  }

  lemma HoldsOnce(m: bv8, n: bv8, a: Day, b: Day)
    requires Holds(m, a, b) && Holds(n, a, b)
    ensures m == n
  {
    SameDays(m, n);
  }

  lemma RangeIs(a: Day, b: Day, mask: bv8)
    ensures mask == Range(a, b) <==> Holds(mask, a, b)
  {
    RangeHoldsDays(a, b);
    if Holds(mask, a, b) { HoldsOnce(mask, Range(a, b), a, b); }
  }

  lemma SpanReadsIff(spec: string, mask: bv8)
    requires ',' !in spec && '-' in spec && spec != "*"
    ensures DaySpec(spec) == Ok(mask) <==> SpanReads(spec, mask)
  {
    if DaySpec(spec) == Ok(mask) { ParsedSpanIsRead(spec, mask); }
    if SpanReads(spec, mask) { ReadSpanIsParsed(spec, mask); }
  }

  lemma ParsedSpanIsRead(spec: string, mask: bv8)
    requires ',' !in spec && '-' in spec && spec != "*" && DaySpec(spec) == Ok(mask)
    ensures SpanReads(spec, mask)
  {
    var n := Index(spec, '-');
    var a, b := LookupWeekday(spec[..n]).value, LookupWeekday(spec[n + 1..]).value;
    DashSplits(spec);
    DayReadsIff(spec[..n], a);
    DayReadsIff(spec[n + 1..], b);
    RangeIs(a, b, mask);
  }

  lemma ReadSpanIsParsed(spec: string, mask: bv8)
    requires ',' !in spec && '-' in spec && spec != "*" && SpanReads(spec, mask)
    ensures DaySpec(spec) == Ok(mask)
  {
    var x, y, a: Day, b: Day :| spec == x + ['-'] + y && '-' !in x && DayReads(x, a) && DayReads(y, b) && Holds(mask, a, b);
    Halves(spec, x, y);
    DayReadsIff(x, a);
    DayReadsIff(y, b);
    RangeIs(a, b, mask);
  }

  ghost predicate OneDayReads(spec: string, mask: bv8) {
    exists d: Day :: DayReads(spec, d) && mask & 128 == 0 && forall e: Day :: Has(mask, e) <==> e == d
  }

  lemma OneDayReadsIff(spec: string, mask: bv8)
    requires ',' !in spec && '-' !in spec && spec != "*"
    ensures DaySpec(spec) == Ok(mask) <==> OneDayReads(spec, mask)
  {
    if DaySpec(spec) == Ok(mask) {
      var d := LookupWeekday(spec).value;
      DayReadsIff(spec, d);
      OneBit(d);
    }
    if d: Day :| DayReads(spec, d) && mask & 128 == 0 && forall e: Day :: Has(mask, e) <==> e == d {
      DayReadsIff(spec, d);
      OneBit(d);
      SameDays(mask, DayBit(d));
    }
  }

  lemma OneBit(d: Day)
    ensures DayBit(d) & 128 == 0 && forall e: Day :: Has(DayBit(d), e) <==> e == d
  {
    forall e: Day ensures Has(DayBit(d), e) <==> e == d { HasBit(d, e); }
  }

  /** A day specification, by its first special character. */
  ghost predicate DaysRead(spec: string, mask: bv8) {
    if spec == "*" then mask == 127
    else if ',' in spec then ListReads(spec, mask)
    else if '-' in spec then SpanReads(spec, mask)
    else OneDayReads(spec, mask)
  }

  lemma DaysReadIff(spec: string, mask: bv8)
    ensures DaySpec(spec) == Ok(mask) <==> DaysRead(spec, mask)
  {
    if spec != "*" {
      if ',' in spec { ListReadsIff(spec, mask); } else if '-' in spec { SpanReadsIff(spec, mask); } else { OneDayReadsIff(spec, mask); }
    }
  }

  // ---------------------------------------------------------------- texts

  /**
   The language of the parser: exactly the texts of two words, a time range and a day specification,
   are accepted, and what they mean. One word, three words, an hour of 24 or a minute of 60, equal
   times and unknown days are refused.
   */
  lemma AcceptedTextsIff(text: string, s: Schedule)
    ensures ParseSchedule(text) == Ok(s) <==>
            exists times, spec :: Fields(TrimSpace(text)) == [times, spec] && TimesRead(times, s.start, s.end) && DaysRead(spec, s.days)
  {
    var words := Fields(TrimSpace(text));
    NoTextNoWords();
    if |words| == 2 {
      TimesReadIff(words[0], s.start, s.end);
      DaysReadIff(words[1], s.days);
      assert words == [words[0], words[1]];
    }
  }

  lemma NoTextNoWords()
    ensures Fields("") == []
  {
  }

  /** Which error a refused text is given. */
  lemma RefusalsIff(text: string)
    ensures ParseSchedule(text) == Err(EmptyString) <==> AllSpace(text)
    ensures ParseSchedule(text) == Err(WantTwoFields) <==> !AllSpace(text) && |Fields(TrimSpace(text))| != 2
    ensures ParseSchedule(text) == Err(NoDash) <==> |Fields(TrimSpace(text))| == 2 && '-' !in Fields(TrimSpace(text))[0]
  {
    var x, y := TrimParts(text);
    if AllSpace(text) { AllSpaceTrimmed(text); }
    NoTextNoWords();
    if |Fields(TrimSpace(text))| == 2 { DaySpecErrors(Fields(TrimSpace(text))[1]); }
  }

  lemma {:induction false} AllSpaceTrimmed(s: string)
    requires AllSpace(s)
    ensures TrimSpace(s) == ""
  {
    if s != "" { AllSpaceTrimmed(s[1..]); }
  }

  lemma DaySpecErrors(spec: string)
    ensures DaySpec(spec).Err? ==> DaySpec(spec) == Err(UnknownDay) || DaySpec(spec) == Err(EmptyMask)
  {
  }

  // ---------------------------------------------------------------- the browser's clock times

  /** One or two digits, a colon, two digits; nothing is refused for being too large. */
  ghost predicate BrowserClock(c: string, minutes: int) {
    exists h, m ::
      && 1 <= |h| <= 2 && |m| == 2 && AllDigits(h) && AllDigits(m)
      && c == h + ":" + m && minutes == 60 * Decimal(h) + Decimal(m)
  }

  lemma ClockInFront(r: string, minutes: int, tail: string) returns (c: string)
    requires Web.ClockAt(r) == Some((minutes, tail))
    ensures BrowserClock(c, minutes) && r == c + tail
  {
    var k := |r| - |tail|;
    c := r[..k];
    assert r == c + tail;
    var h, m := r[..k - 3], r[k - 2..k];
    assert c == h + ":" + m;
  }

  lemma ReadInFront(r: string, c: string, minutes: int, tail: string)
    requires BrowserClock(c, minutes) && r == c + tail
    ensures Web.ClockAt(r) == Some((minutes, tail))
  {
    var h, m :| 1 <= |h| <= 2 && |m| == 2 && AllDigits(h) && AllDigits(m) && c == h + ":" + m && minutes == 60 * Decimal(h) + Decimal(m);
    ShortClock(r, h, m, tail);
  }

  lemma ShortClock(r: string, h: string, m: string, tail: string)
    requires 1 <= |h| <= 2 && |m| == 2 && AllDigits(h) && AllDigits(m) && r == h + ":" + m + tail
    ensures Web.ClockAt(r) == Some((60 * Decimal(h) + Decimal(m), tail))
  {
    var n := |h|;
    assert r[..n] == h && r[n] == ':' && r[n + 1..n + 3] == m && r[n + 3..] == tail;
    if n == 1 { assert r[..2][1] == ':'; }
  }

  /** The browser's time range is two such clock times around a dash. */
  lemma RangeMatchIff(r: string, start: int, end: int)
    ensures Web.RangeMatch(r) == Some((start, end)) <==>
            exists x, y :: r == x + ("-" + y) && BrowserClock(x, start) && BrowserClock(y, end)
  {
    if Web.RangeMatch(r) == Some((start, end)) {
      var tail := Web.ClockAt(r).value.1;
      assert tail == "-" + tail[1..];
      var x := ClockInFront(r, start, tail);
      var y := ClockInFront(tail[1..], end, "");
      assert tail[1..] == y;
    }
    if x, y :| r == x + ("-" + y) && BrowserClock(x, start) && BrowserClock(y, end) { MatchRead(r, x, y, start, end); }
  }

  lemma MatchRead(r: string, x: string, y: string, start: int, end: int)
    requires r == x + ("-" + y) && BrowserClock(x, start) && BrowserClock(y, end)
    ensures Web.RangeMatch(r) == Some((start, end))
  {
    ReadInFront(r, x, start, "-" + y);
    assert y == y + "" && ("-" + y)[1..] == y;
    ReadInFront(y, y, end, "");
  }

  /** A time range alone is drawn on every day. */
  lemma TimesAloneMeanEveryDay(text: string, j: Day)
    requires |Words(Web.JsSpace, Trim(Web.JsSpace, text))| == 1 && Web.Parse(text).Some?
    ensures Web.Parse(text).value.days[j]
  {
  }
}
