/** The schedule grammar (internal/config/schedule.go): "HH:MM-HH:MM DAYSPEC". */
module ScheduleText {
  import opened Common
  import opened GoStrings
  import opened WeeklySchedule

  datatype ParseError = EmptyString | WantTwoFields | NoDash | BadTime | StartEqualsEnd | UnknownDay | EmptyMask

  function DayName(d: Day): string {
    if d == 0 then "sun" else if d == 1 then "mon" else if d == 2 then "tue" else if d == 3 then "wed"
    else if d == 4 then "thu" else if d == 5 then "fri" else "sat"
  }

  /** The weekdayNames table. */
  function DayNamed(s: string): Option<Day> {
    if s == "sun" then Some(0) else if s == "mon" then Some(1) else if s == "tue" then Some(2)
    else if s == "wed" then Some(3) else if s == "thu" then Some(4) else if s == "fri" then Some(5)
    else if s == "sat" then Some(6) else None
  }

  function LookupWeekday(name: string): Option<Day> { DayNamed(ToLower(TrimSpace(name))) }

  function ParseHHMM(s: string): Option<int> {
    if |s| != 5 || s[2] != ':' then None
    else
      var h := Atoi(s[..2]);
      if h.None? || h.value < 0 || h.value > 23 then None
      else
        var m := Atoi(s[3..]);
        if m.None? || m.value < 0 || m.value > 59 then None else Some(h.value * 60 + m.value)
  }

  function ParseTimeRange(r: string): Result<(int, int), ParseError> {
    var dash := Index(r, '-');
    if dash < 0 then Err(NoDash)
    else
      var start, end := ParseHHMM(r[..dash]), ParseHHMM(r[dash + 1..]);
      if start.None? || end.None? then Err(BadTime)
      else if start == end then Err(StartEqualsEnd)
      else Ok((start.value, end.value))
  }

  /** The union of the named days; no value when a name is unknown. */
  function NamedDays(names: seq<string>): Option<bv8> {
    if names == [] then Some(0)
    else
      var d, rest := LookupWeekday(names[0]), NamedDays(names[1..]);
      if d.None? || rest.None? then None else Some(DayBit(d.value) | rest.value)
  }

  function DaySpec(s: string): Result<bv8, ParseError> {
    if s == "*" then Ok(ALL_DAYS)
    else if ',' in s then
      match NamedDays(Split(s, ','))
      case None => Err(UnknownDay)
      case Some(mask) => if mask == 0 then Err(EmptyMask) else Ok(mask)
    else if '-' in s then
      var n := Index(s, '-');
      var start, end := LookupWeekday(s[..n]), LookupWeekday(s[n + 1..]);
      if start.None? || end.None? then Err(UnknownDay) else Ok(Range(start.value, end.value))
    else
      match LookupWeekday(s)
      case None => Err(UnknownDay)
      case Some(d) => Ok(DayBit(d))
  }

  method ParseDaySpec(s: string) returns (r: Result<bv8, ParseError>)
    ensures r == DaySpec(s)
  {
    if s == "*" {
      return Ok(ALL_DAYS);
    }
    if ',' in s {
      var mask: bv8 := 0;
      var names := Split(s, ',');
      for i := 0 to |names|
        invariant NamedDays(names).Some? <==> NamedDays(names[i..]).Some?
        invariant NamedDays(names).Some? ==> NamedDays(names).value == mask | NamedDays(names[i..]).value
      {
        assert names[i..][1..] == names[i + 1..];
        var d := LookupWeekday(names[i]);
        if d.None? {
          return Err(UnknownDay);
        }
        if NamedDays(names[i + 1..]).Some? {
          OrAssociates(mask, DayBit(d.value), NamedDays(names[i + 1..]).value);
        }
        mask := mask | DayBit(d.value);
      }
      assert names[|names|..] == [];
      if mask == 0 {
        return Err(EmptyMask);
      }
      return Ok(mask);
    }
    if '-' in s {
      var n := Index(s, '-');
      var start := LookupWeekday(s[..n]);
      if start.None? {
        return Err(UnknownDay);
      }
      var end := LookupWeekday(s[n + 1..]);
      if end.None? {
        return Err(UnknownDay);
      }
      var mask := WalkRange(start.value, end.value);
      return Ok(mask);
    }
    var d := LookupWeekday(s);
    if d.None? {
      return Err(UnknownDay);
    }
    return Ok(DayBit(d.value));
  }

  function ParseSchedule(text: string): Result<Schedule, ParseError> {
    var s := TrimSpace(text);
    if s == "" then Err(EmptyString)
    else
      var parts := Fields(s);
      if |parts| != 2 then Err(WantTwoFields)
      else
        var times := ParseTimeRange(parts[0]);
        if times.Err? then Err(times.error)
        else
          var days := DaySpec(parts[1]);
          if days.Err? then Err(days.error) else Ok(Schedule(times.value.0, times.value.1, days.value))
  }

  // ---------------------------------------------------------------- what the parser yields

  predicate Valid(s: Schedule) { InDay(s) && s.start != s.end && s.days != 0 && s.days & 128 == 0 }

  lemma {:induction false} NamesAreKnown(names: seq<string>)
    requires NamedDays(names).Some?
    ensures forall i | 0 <= i < |names| :: LookupWeekday(names[i]).Some?
  {
    if names != [] {
      NamesAreKnown(names[1..]);
      forall i | 0 < i < |names| ensures LookupWeekday(names[i]).Some? { assert names[i] == names[1..][i - 1]; }
    }
  }

  predicate Named(names: seq<string>, d: Day) { exists i | 0 <= i < |names| :: LookupWeekday(names[i]) == Some(d) }

  lemma NamedFirstOrRest(names: seq<string>, d: Day)
    requires names != []
    ensures Named(names, d) <==> LookupWeekday(names[0]) == Some(d) || Named(names[1..], d)
  {
    var rest := names[1..];
    if i :| 0 <= i < |names| && LookupWeekday(names[i]) == Some(d) { assert i > 0 ==> rest[i - 1] == names[i]; }
    if j :| 0 <= j < |rest| && LookupWeekday(rest[j]) == Some(d) { assert names[j + 1] == rest[j]; }
  }

  /** A list denotes exactly the days it names, and some day unless it is empty. */
  lemma {:induction false} NamedDaysHold(names: seq<string>, d: Day)
    requires NamedDays(names).Some?
    ensures Has(NamedDays(names).value, d) <==> Named(names, d)
    ensures NamedDays(names).value & 128 == 0 && (names != [] ==> NamedDays(names).value != 0)
  {
    if names == [] {
      NoDays(0, d);
    } else {
      NamedDaysHold(names[1..], d);
      NamedFirstOrRest(names, d);
      AddedDay(LookupWeekday(names[0]).value, NamedDays(names[1..]).value, d);
    }
  }

  lemma AddedDay(first: Day, rest: bv8, d: Day)
    requires rest & 128 == 0
    ensures Has(DayBit(first) | rest, d) <==> first == d || Has(rest, d)
    ensures (DayBit(first) | rest) & 128 == 0 && DayBit(first) | rest != 0
  {
    HasBit(first, d);
    HasUnion(DayBit(first), rest, d);
    UnionTop(DayBit(first), rest);
    UnionNonZero(DayBit(first), rest);
  }

  lemma UnionNonZero(a: bv8, b: bv8)
    requires a != 0
    ensures a | b != 0
  {
  }

  lemma RangeNonZero(a: Day, b: Day)
    ensures Range(a, b) != 0 && Range(a, b) & 128 == 0
  {
    RangeHolds(a, b, a);
    NoDays(Range(a, b), a);
  }

  /** Every accepted text denotes a proper window: in the day, not empty, some day set and no eighth bit. */
  lemma ParsedSchedulesAreValid(text: string)
    ensures ParseSchedule(text).Ok? ==> Valid(ParseSchedule(text).value)
    ensures ParseSchedule(text) != Err(EmptyMask)
  {
    var parts := Fields(TrimSpace(text));
    if |parts| == 2 {
      DaySpecIsValid(parts[1]);
    }
  }

  lemma DaySpecIsValid(s: string)
    ensures DaySpec(s).Ok? ==> DaySpec(s).value != 0 && DaySpec(s).value & 128 == 0
    ensures DaySpec(s) != Err(EmptyMask)
  {
    if s != "*" {
      if ',' in s {
        var names := Split(s, ',');
        if NamedDays(names).Some? { NamedDaysHold(names, 0); }
      } else if '-' in s {
        var n := Index(s, '-');
        var start, end := LookupWeekday(s[..n]), LookupWeekday(s[n + 1..]);
        if start.Some? && end.Some? { RangeNonZero(start.value, end.value); }
      } else if LookupWeekday(s).Some? {
        HasBit(LookupWeekday(s).value, 0);
      }
    }
  }

  // ---------------------------------------------------------------- printing

  /** The day specifications of the grammar. */
  datatype Days = Every | Between(first: Day, last: Day) | Listed(days: seq<Day>)

  function Digit(n: int): (c: char)
    requires 0 <= n < 10
    ensures IsDigit(c) && DigitValue(c) == n
  {
    (n + '0' as int) as char
  }

  function TwoDigits(n: int): string
    requires 0 <= n < 100
  {
    [Digit(n / 10), Digit(n % 10)]
  }

  function Clock(minute: int): (s: string)
    requires 0 <= minute < DAY_MINUTES
    ensures |s| == 5
  {
    TwoDigits(minute / 60) + ":" + TwoDigits(minute % 60)
  }

  function Times(start: int, end: int): string
    requires 0 <= start < DAY_MINUTES && 0 <= end < DAY_MINUTES
  {
    Clock(start) + "-" + Clock(end)
  }

  function Names(days: seq<Day>): (names: seq<string>)
    ensures |names| == |days| && forall i | 0 <= i < |days| :: names[i] == DayName(days[i])
  {
    seq(|days|, i requires 0 <= i < |days| => DayName(days[i]))
  }

  function Join(parts: seq<string>, sep: char): string
    requires parts != []
  {
    if |parts| == 1 then parts[0] else parts[0] + [sep] + Join(parts[1..], sep)
  }

  predicate Printable(days: Days) { days.Listed? ==> days.days != [] }

  function PrintDays(days: Days): string
    requires Printable(days)
  {
    match days
    case Every => "*"
    case Between(a, b) => DayName(a) + "-" + DayName(b)
    case Listed(ds) => Join(Names(ds), ',')
  }

  function Print(start: int, end: int, days: Days): string
    requires 0 <= start < DAY_MINUTES && 0 <= end < DAY_MINUTES && Printable(days)
  {
    Times(start, end) + " " + PrintDays(days)
  }

  function ListMask(ds: seq<Day>): bv8 { if ds == [] then 0 else DayBit(ds[0]) | ListMask(ds[1..]) }

  /** The weekdays a specification denotes. */
  function Mask(days: Days): bv8 {
    match days
    case Every => ALL_DAYS
    case Between(a, b) => Range(a, b)
    case Listed(ds) => ListMask(ds)
  }

  // ---------------------------------------------------------------- round trip

  lemma NameIsLower(d: Day)
    ensures |DayName(d)| == 3 && DayNamed(DayName(d)) == Some(d)
    ensures forall i | 0 <= i < 3 :: 'a' <= DayName(d)[i] <= 'z'
  {
  }

  lemma NameIsFound(d: Day)
    ensures LookupWeekday(DayName(d)) == Some(d)
  {
    var s := DayName(d);
    NameIsLower(d);
    TrimKeeps(IsSpace, s);
    assert ToLower(s) == s;
  }

  lemma ClockIsRead(minute: int)
    requires 0 <= minute < DAY_MINUTES
    ensures ParseHHMM(Clock(minute)) == Some(minute)
    ensures forall i | 0 <= i < 5 :: i == 2 || IsDigit(Clock(minute)[i])
  {
    var s := Clock(minute);
    assert s[..2] == TwoDigits(minute / 60) && s[3..] == TwoDigits(minute % 60);
    TwoDigitsAreRead(minute / 60);
    TwoDigitsAreRead(minute % 60);
  }

  lemma TwoDigitsAreRead(n: int)
    requires 0 <= n < 100
    ensures Atoi(TwoDigits(n)) == Some(n)
  {
    var s := TwoDigits(n);
    assert s[..1] == [Digit(n / 10)];
    assert s[..1][..0] == "";
    assert Decimal(s[..1]) == n / 10;
  }

  lemma {:induction false} IndexAfter(a: string, c: char, b: string)
    requires c !in a
    ensures Index(a + [c] + b, c) == |a|
  {
    if a != "" {
      IndexAfter(a[1..], c, b);
      assert (a + [c] + b)[1..] == a[1..] + [c] + b;
    }
  }

  lemma SplitFirst(a: string, sep: char, rest: string)
    requires sep !in a
    ensures Split(a + [sep] + rest, sep) == [a] + Split(rest, sep)
  {
    var s := a + [sep] + rest;
    IndexAfter(a, sep, rest);
    assert s[..|a|] == a && s[|a| + 1..] == rest;
  }

  lemma {:induction false} SplitJoin(parts: seq<string>, sep: char)
    requires parts != [] && forall i | 0 <= i < |parts| :: sep !in parts[i]
    ensures Split(Join(parts, sep), sep) == parts
  {
    if |parts| > 1 {
      var rest := parts[1..];
      SplitJoin(rest, sep);
      SplitFirst(parts[0], sep, Join(rest, sep));
      assert Join(parts, sep) == parts[0] + [sep] + Join(rest, sep);
      assert parts == [parts[0]] + rest;
    } else {
      assert Index(parts[0], sep) < 0;
    }
  }

  lemma {:induction false} NamesAreFound(ds: seq<Day>)
    ensures NamedDays(Names(ds)) == Some(ListMask(ds))
  {
    if ds != [] {
      NameIsFound(ds[0]);
      assert Names(ds)[1..] == Names(ds[1..]);
      NamesAreFound(ds[1..]);
    }
  }

  lemma TwoWords(a: string, b: string)
    requires a != "" && b != ""
    requires (forall i | 0 <= i < |a| :: !IsSpace(a[i])) && (forall i | 0 <= i < |b| :: !IsSpace(b[i]))
    ensures Fields(a + " " + b) == [a, b] && TrimSpace(a + " " + b) == a + " " + b
  {
    var s := a + " " + b;
    TrimKeeps(IsSpace, s);
    assert s[|a|] == ' ';
    assert WordLength(IsSpace, s) == |a|;
    assert s[..|a|] == a;
    var t := s[|a|..];
    assert t[0] == ' ' && t[1..] == b;
    assert TrimLeft(IsSpace, t) == b;
    assert WordLength(IsSpace, b) == |b| && b[..|b|] == b && b[|b|..] == "";
    assert Words(IsSpace, t) == [b] + Words(IsSpace, "");
  }

  lemma TwoFieldsAreParsed(text: string, a: string, b: string)
    requires text == a + " " + b && a != "" && b != ""
    requires (forall i | 0 <= i < |a| :: !IsSpace(a[i])) && (forall i | 0 <= i < |b| :: !IsSpace(b[i]))
    ensures Fields(TrimSpace(text)) == [a, b]
    ensures ParseSchedule(text) ==
              if ParseTimeRange(a).Err? then Err(ParseTimeRange(a).error)
              else if DaySpec(b).Err? then Err(DaySpec(b).error)
              else Ok(Schedule(ParseTimeRange(a).value.0, ParseTimeRange(a).value.1, DaySpec(b).value))
  {
    TwoWords(a, b);
  }

  lemma DayCharsAreNoSpace(s: string)
    requires forall i | 0 <= i < |s| :: DayChar(s[i])
    ensures forall i | 0 <= i < |s| :: !IsSpace(s[i])
  {
  }

  predicate DayChar(c: char) { 'a' <= c <= 'z' || c == ',' || c == '-' || c == '*' }

  lemma {:induction false} JoinedChars(ds: seq<Day>)
    requires ds != []
    ensures var s := Join(Names(ds), ',');
            s != "" && (forall i | 0 <= i < |s| :: 'a' <= s[i] <= 'z' || s[i] == ',') && s[0] != ',' && (',' in s <==> |ds| > 1)
  {
    NameIsLower(ds[0]);
    if |ds| > 1 {
      assert Names(ds)[1..] == Names(ds[1..]);
      JoinedChars(ds[1..]);
      assert Join(Names(ds), ',')[3] == ',';
    }
  }

  lemma DaysAreRead(days: Days)
    requires Printable(days)
    ensures DaySpec(PrintDays(days)) == Ok(Mask(days))
    ensures PrintDays(days) != "" && forall i | 0 <= i < |PrintDays(days)| :: DayChar(PrintDays(days)[i])
  {
    match days
    case Every =>
    case Between(a, b) => RangeIsRead(a, b);
    case Listed(ds) =>
      JoinedChars(ds);
      ListIsRead(ds);
  }

  lemma RangeIsRead(a: Day, b: Day)
    ensures var s := DayName(a) + "-" + DayName(b);
            DaySpec(s) == Ok(Range(a, b)) && forall i | 0 <= i < |s| :: DayChar(s[i])
  {
    var s := DayName(a) + "-" + DayName(b);
    NameIsLower(a);
    NameIsLower(b);
    forall i | 0 <= i < |s| ensures 'a' <= s[i] <= 'z' || s[i] == '-' {
      assert s[i] == if i < 3 then DayName(a)[i] else if i == 3 then '-' else DayName(b)[i - 4];
    }
    assert s[3] == '-' && |s| == 7;
    HalvesAreRead(s, DayName(a), DayName(b), a, b);
  }

  lemma HalvesAreRead(s: string, x: string, y: string, a: Day, b: Day)
    requires s == x + "-" + y && x == DayName(a) && y == DayName(b)
    requires ',' !in s && s != "*" && '-' !in x
    ensures DaySpec(s) == Ok(Range(a, b))
  {
    IndexAfter(x, '-', y);
    assert s == x + ['-'] + y;
    assert s[..|x|] == x && s[|x| + 1..] == y && s[|x|] == '-';
    NameIsFound(a);
    NameIsFound(b);
  }

  lemma ListIsRead(ds: seq<Day>)
    requires ds != []
    ensures DaySpec(Join(Names(ds), ',')) == Ok(ListMask(ds))
  {
    var s := Join(Names(ds), ',');
    JoinedChars(ds);
    NamesAreFound(ds);
    forall i | 0 <= i < |ds| ensures ',' !in Names(ds)[i] { NameIsLower(ds[i]); }
    SplitJoin(Names(ds), ',');
    NamedDaysHold(Names(ds), 0);
    if |ds| == 1 {
      NameIsFound(ds[0]);
      assert ListMask(ds) == DayBit(ds[0]) | ListMask([]);
    }
  }

  lemma DashedTimesAreRead(r: string, a: string, b: string)
    requires r == a + ['-'] + b && '-' !in a && ParseHHMM(a).Some? && ParseHHMM(b).Some?
    ensures ParseTimeRange(r) ==
              if ParseHHMM(a) == ParseHHMM(b) then Err(StartEqualsEnd) else Ok((ParseHHMM(a).value, ParseHHMM(b).value))
  {
    IndexAfter(a, '-', b);
    assert r[..|a|] == a && r[|a| + 1..] == b;
  }

  lemma TimesAreRead(start: int, end: int)
    requires 0 <= start < DAY_MINUTES && 0 <= end < DAY_MINUTES
    ensures ParseTimeRange(Times(start, end)) == if start == end then Err(StartEqualsEnd) else Ok((start, end))
    ensures forall i | 0 <= i < 11 :: i == 2 || i == 5 || i == 8 || IsDigit(Times(start, end)[i])
  {
    ClockIsRead(start);
    ClockIsRead(end);
    DashedTimesAreRead(Times(start, end), Clock(start), Clock(end));
  }

  lemma TimesHaveNoSpace(start: int, end: int)
    requires 0 <= start < DAY_MINUTES && 0 <= end < DAY_MINUTES
    ensures forall i | 0 <= i < 11 :: !IsSpace(Times(start, end)[i])
  {
    TimesAreRead(start, end);
    assert Times(start, end)[2] == ':' && Times(start, end)[5] == '-' && Times(start, end)[8] == ':';
  }

  /** Every text of the grammar is read back as the window and the days it was printed from. */
  lemma PrintedScheduleIsRead(start: int, end: int, days: Days)
    requires 0 <= start < DAY_MINUTES && 0 <= end < DAY_MINUTES && Printable(days)
    ensures ParseSchedule(Print(start, end, days)) ==
              if start == end then Err(StartEqualsEnd) else Ok(Schedule(start, end, Mask(days)))
  {
    TimesAreRead(start, end);
    TimesHaveNoSpace(start, end);
    DaysAreRead(days);
    DayCharsAreNoSpace(PrintDays(days));
    TwoFieldsAreParsed(Print(start, end, days), Times(start, end), PrintDays(days));
  }

  /** The days set in a mask, in weekday order from `d` on. */
  function DaysIn(mask: bv8, d: nat): seq<Day>
    requires d <= 7
    decreases 7 - d
  {
    if d == 7 then [] else (if Has(mask, d) then [d as Day] else []) + DaysIn(mask, d + 1)
  }

  lemma {:induction false} ListMaskHolds(ds: seq<Day>, d: Day)
    ensures Has(ListMask(ds), d) <==> d in ds
    ensures ListMask(ds) & 128 == 0
  {
    if ds != [] {
      ListMaskHolds(ds[1..], d);
      AddedDay(ds[0], ListMask(ds[1..]), d);
    } else {
      NoDays(0, d);
    }
  }

  lemma {:induction false} DaysInHold(mask: bv8, d: nat, k: Day)
    requires d <= 7
    ensures k in DaysIn(mask, d) <==> d <= k && Has(mask, k)
    decreases 7 - d
  {
    if d < 7 { DaysInHold(mask, d + 1, k); }
  }

  lemma SameDays(a: bv8, b: bv8)
    requires a & 128 == 0 && b & 128 == 0 && forall d: Day :: Has(a, d) <==> Has(b, d)
    ensures a == b
  {
    assert Has(a, 0) <==> Has(b, 0);
    assert Has(a, 1) <==> Has(b, 1);
    assert Has(a, 2) <==> Has(b, 2);
    assert Has(a, 3) <==> Has(b, 3);
    assert Has(a, 4) <==> Has(b, 4);
    assert Has(a, 5) <==> Has(b, 5);
    assert Has(a, 6) <==> Has(b, 6);
  }

  /** The canonical text of a schedule: its days listed in weekday order. */
  function Canonical(s: Schedule): string
    requires Valid(s)
  {
    CanonicalIsPrintable(s);
    Print(s.start, s.end, if s.days == ALL_DAYS then Every else Listed(DaysIn(s.days, 0)))
  }

  lemma CanonicalIsPrintable(s: Schedule)
    requires Valid(s)
    ensures DaysIn(s.days, 0) != [] && ListMask(DaysIn(s.days, 0)) == s.days
  {
    var ds := DaysIn(s.days, 0);
    forall d: Day ensures Has(ListMask(ds), d) <==> Has(s.days, d) {
      ListMaskHolds(ds, d);
      DaysInHold(s.days, 0, d);
    }
    ListMaskHolds(ds, 0);
    SameDays(ListMask(ds), s.days);
  }

  /** Printing and parsing are inverse on exactly the schedules the parser can yield. */
  lemma ScheduleRoundTrip(s: Schedule)
    requires Valid(s)
    ensures ParseSchedule(Canonical(s)) == Ok(s)
  {
    CanonicalIsPrintable(s);
    PrintedScheduleIsRead(s.start, s.end, if s.days == ALL_DAYS then Every else Listed(DaysIn(s.days, 0)));
  }
}
