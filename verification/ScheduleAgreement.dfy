/**
 The daemon and the browser read the same schedule texts (internal/config/schedule.go and
 web/schedule.js). Day j of the browser, counted from Monday, is the daemon's weekday Next(j).
 */
module ScheduleAgreement {
  import opened Common
  import opened GoStrings
  import opened WeeklySchedule
  import opened ScheduleText
  import opened ScheduleWords
  import Web = WebSchedule

  /** No sign stands in for a digit. */
  predicate UnsignedTimes(range: string) { |range| == 11 && forall i | 0 <= i < 11 :: i == 2 || i == 5 || i == 8 || IsDigit(range[i]) }

  /** Each weekday of the specification is also written in plain lower case. */
  predicate LowerCaseDays(spec: string) {
    if spec == "*" then true
    else if ',' in spec then
      var names := Split(spec, ',');
      forall i | 0 <= i < |names| :: PlainlyNamed(names, LookupWeekday(names[i]))
    else if '-' in spec then
      var n := Index(spec, '-');
      DayNamed(spec[..n]).Some? && DayNamed(spec[n + 1..]).Some?
    else DayNamed(spec).Some?
  }

  predicate PlainlyNamed(names: seq<string>, d: Option<Day>) {
    d.Some? && exists k | 0 <= k < |names| :: DayNamed(names[k]) == d
  }

  // ---------------------------------------------------------------- times

  lemma ClocksAgree(c: string, tail: string)
    requires ParseHHMM(c).Some?
    ensures |c| == 5 && Web.ClockAt(c + tail) ==
              if AllDigits(c[..2]) && AllDigits(c[3..]) then Some((ParseHHMM(c).value, tail)) else None
  {
    var r := c + tail;
    assert r[..2] == c[..2] && r[3..5] == c[3..] && r[5..] == tail;
    assert IsDigit(c[1]) by { assert c[..2][1] == c[1]; assert c[..2][1..] == [c[1]]; }
  }

  /** Every accepted range is two five-character clocks around a dash. */
  lemma TimesShape(r: string)
    requires ParseTimeRange(r).Ok?
    ensures |r| == 11 && r[5] == '-' && ParseHHMM(r[..5]).Some? && ParseHHMM(r[6..]).Some?
    ensures ParseTimeRange(r).value == (ParseHHMM(r[..5]).value, ParseHHMM(r[6..]).value)
    ensures ParseHHMM(r[..5]) != ParseHHMM(r[6..])
  {
    assert Index(r, '-') == 5;
  }

  lemma ClockInDay(c: string)
    ensures ParseHHMM(c).Some? ==> 0 <= ParseHHMM(c).value < DAY_MINUTES
  {
  }

  lemma TimesAgree(r: string)
    requires ParseTimeRange(r).Ok?
    ensures Web.RangeMatch(r) == if UnsignedTimes(r) then Some(ParseTimeRange(r).value) else None
    ensures var (start, end) := ParseTimeRange(r).value; 0 <= start < DAY_MINUTES && 0 <= end < DAY_MINUTES && start != end
  {
    TimesShape(r);
    var a, b := r[..5], r[6..];
    ClockInDay(a);
    ClockInDay(b);
    assert r == a + ("-" + b);
    ClocksAgree(a, "-" + b);
    ClocksAgree(b, "");
    UnsignedHalves(r);
    assert ("-" + b)[1..] == b && b + "" == b;
  }

  lemma UnsignedHalves(r: string)
    requires |r| == 11
    ensures var a, b := r[..5], r[6..];
            UnsignedTimes(r) <==> AllDigits(a[..2]) && AllDigits(a[3..]) && AllDigits(b[..2]) && AllDigits(b[3..])
  {
    var a, b := r[..5], r[6..];
    assert a[..2] == [r[0], r[1]] && a[3..] == [r[3], r[4]] && b[..2] == [r[6], r[7]] && b[3..] == [r[9], r[10]];
    assert AllDigits([r[0], r[1]]) <==> IsDigit(r[0]) && IsDigit(r[1]);
  }

  // ---------------------------------------------------------------- days

  lemma NamedIsFound(name: string)
    ensures DayNamed(name).Some? ==> DayNamed(name) == LookupWeekday(name)
  {
    if DayNamed(name).Some? {
      NamedIsName(name);
      NameIsFound(DayNamed(name).value);
    }
  }

  lemma NamedIsName(name: string)
    ensures DayNamed(name).Some? ==> name == DayName(DayNamed(name).value)
  {
  }

  lemma FoundNameIsShort(name: string)
    ensures DayNamed(name).Some? ==> |name| == 3
  {
  }

  lemma IndicesAgree(name: string, j: Day)
    ensures Web.NameIndex(name) == j <==> DayNamed(name) == Some(Next(j))
  {
    assert Next(j) == if j == 6 then 0 else j + 1;
  }

  /** One name the daemon accepts: the browser knows it only as the plain lower-case name. */
  lemma NamesAgree(name: string, j: Day)
    requires SpaceFree(name) && LookupWeekday(name).Some?
    ensures |name| == 3
    ensures DayNamed(name).Some? ==> DayNamed(name) == LookupWeekday(name)
    ensures Web.ChunkHolds(Trim(Web.JsSpace, name), j) <==> DayNamed(name) == Some(Next(j))
  {
    SpaceFreeTrims(name);
    FoundNameIsShort(ToLower(name));
    IndicesAgree(name, j);
    NamedIsFound(name);
  }

  lemma {:induction false} PiecesAreSpaceFree(s: string, sep: char)
    requires SpaceFree(s)
    ensures forall i | 0 <= i < |Split(s, sep)| :: SpaceFree(Split(s, sep)[i])
    decreases |s|
  {
    var n := Index(s, sep);
    if n >= 0 {
      PiecesAreSpaceFree(s[n + 1..], sep);
      assert SpaceFree(s[..n]);
    }
  }

  /** The browser's days are among the daemon's, and equal to them exactly when `plain`. */
  ghost predicate DaysAgree(spec: string, mask: bv8, plain: bool) {
    && (forall j: Day :: Web.SpecHolds(spec, j) ==> Has(mask, Next(j)))
    && ((forall j: Day :: Has(mask, Next(j)) ==> Web.SpecHolds(spec, j)) <==> plain)
  }

  function Prev(d: Day): (j: Day)
    ensures Next(j) == d && j == (d + 6) % 7
    ensures forall k: Day :: Next(k) == d ==> k == j
  {
    if d == 0 then 6 else d - 1
  }

  lemma ListHolds(spec: string, j: Day)
    requires SpaceFree(spec) && ',' in spec && DaySpec(spec).Ok?
    ensures var names := Split(spec, ',');
            && (Web.SpecHolds(spec, j) <==> PlainlyNamed(names, Some(Next(j))))
            && (Has(DaySpec(spec).value, Next(j)) <==> Named(names, Next(j)))
  {
    var names := Split(spec, ',');
    PiecesAreSpaceFree(spec, ',');
    NamedDaysHold(names, Next(j));
    NamesAreKnown(names);
    forall i | 0 <= i < |names|
      ensures Web.ChunkHolds(Trim(Web.JsSpace, names[i]), j) <==> DayNamed(names[i]) == Some(Next(j))
    {
      NamesAgree(names[i], j);
    }
  }

  lemma ListAgrees(spec: string)
    requires SpaceFree(spec) && ',' in spec && DaySpec(spec).Ok?
    ensures DaysAgree(spec, DaySpec(spec).value, LowerCaseDays(spec))
  {
    var names, mask := Split(spec, ','), DaySpec(spec).value;
    PiecesAreSpaceFree(spec, ',');
    NamesAreKnown(names);
    forall j: Day ensures Web.SpecHolds(spec, j) ==> Has(mask, Next(j)) {
      ListHolds(spec, j);
      if k :| 0 <= k < |names| && DayNamed(names[k]) == Some(Next(j)) { NamesAgree(names[k], j); }
    }
    if LowerCaseDays(spec) {
      forall j: Day | Has(mask, Next(j)) ensures Web.SpecHolds(spec, j) {
        ListHolds(spec, j);
        var i :| 0 <= i < |names| && LookupWeekday(names[i]) == Some(Next(j));
        assert PlainlyNamed(names, LookupWeekday(names[i]));
      }
    }
    if forall j: Day :: Has(mask, Next(j)) ==> Web.SpecHolds(spec, j) {
      forall i | 0 <= i < |names| ensures PlainlyNamed(names, LookupWeekday(names[i])) {
        var j := Prev(LookupWeekday(names[i]).value);
        ListHolds(spec, j);
        assert Has(mask, Next(j)) ==> Web.SpecHolds(spec, j);
      }
    }
  }

  lemma NoCommaIsOneChunk(spec: string)
    requires ',' !in spec && SpaceFree(spec) && spec != "*"
    ensures forall j :: Web.SpecHolds(spec, j) <==> Web.ChunkHolds(spec, j)
  {
    SpaceFreeTrims(spec);
    var chunks := Split(spec, ',');
    assert chunks == [spec];
    forall j: Day ensures Web.SpecHolds(spec, j) <==> Web.ChunkHolds(spec, j) {
      assert Web.SomeChunkHolds(chunks, j) <==> Web.ChunkHolds(Trim(Web.JsSpace, chunks[0]), j);
    }
  }

  lemma SingleAgrees(spec: string)
    requires SpaceFree(spec) && spec != "*" && ',' !in spec && '-' !in spec && DaySpec(spec).Ok?
    ensures DaysAgree(spec, DaySpec(spec).value, LowerCaseDays(spec))
  {
    var d := LookupWeekday(spec).value;
    SpaceFreeTrims(spec);
    NoCommaIsOneChunk(spec);
    forall j: Day
      ensures (Web.SpecHolds(spec, j) <==> DayNamed(spec) == Some(Next(j))) && (Has(DayBit(d), Next(j)) <==> d == Next(j))
    {
      NamesAgree(spec, j);
      HasBit(d, Next(j));
    }
    NamesAgree(spec, Prev(d));
    assert Has(DayBit(d), Next(Prev(d)));
  }

  lemma ShiftedRange(a: Day, b: Day, j: Day)
    ensures Has(Range(Next(a), Next(b)), Next(j)) <==> Ahead(a, j) <= Ahead(a, b)
  {
    RangeHolds(Next(a), Next(b), Next(j));
    ShiftedAhead(a, j);
    ShiftedAhead(a, b);
  }

  lemma ShiftedAhead(a: Day, b: Day)
    ensures Ahead(Next(a), Next(b)) == Ahead(a, b)
  {
  }

  lemma LowerLettersName(name: string)
    requires LookupWeekday(name).Some? && SpaceFree(name)
    ensures Web.ThreeLetters(name) <==> DayNamed(name).Some?
    ensures DayNamed(name).Some? ==> Web.NameIndex(name) == Prev(LookupWeekday(name).value)
  {
    SpaceFreeTrims(name);
    NamesAgree(name, 0);
    if Web.ThreeLetters(name) { assert ToLower(name) == name; }
    if DayNamed(name).Some? { NameIsLower(DayNamed(name).value); }
  }

  lemma RangeHalves(spec: string)
    requires spec != "*" && ',' !in spec && '-' in spec && DaySpec(spec).Ok?
    ensures var n := Index(spec, '-'); 0 <= n && LookupWeekday(spec[..n]).Some? && LookupWeekday(spec[n + 1..]).Some?
  {
  }

  lemma SpaceFreeHalves(spec: string, n: nat)
    requires SpaceFree(spec) && n < |spec|
    ensures SpaceFree(spec[..n]) && SpaceFree(spec[n + 1..])
  {
  }

  lemma FoundNameLength(name: string)
    requires SpaceFree(name) && LookupWeekday(name).Some?
    ensures |name| == 3
  {
    NamesAgree(name, 0);
  }

  /** Where the dash splits an accepted day range. */
  lemma RangeShape(spec: string) returns (a: Day, b: Day)
    requires SpaceFree(spec) && spec != "*" && ',' !in spec && '-' in spec && DaySpec(spec).Ok?
    ensures |spec| == 7 && Index(spec, '-') == 3 && spec[3] == '-'
    ensures LookupWeekday(spec[..3]) == Some(Next(a)) && LookupWeekday(spec[4..]) == Some(Next(b))
    ensures SpaceFree(spec[..3]) && SpaceFree(spec[4..])
  {
    var n := Index(spec, '-');
    RangeHalves(spec);
    SpaceFreeHalves(spec, n);
    FoundNameLength(spec[..n]);
    FoundNameLength(spec[n + 1..]);
    a, b := Prev(LookupWeekday(spec[..n]).value), Prev(LookupWeekday(spec[n + 1..]).value);
  }

  lemma RangeAgrees(spec: string)
    requires SpaceFree(spec) && spec != "*" && ',' !in spec && '-' in spec && DaySpec(spec).Ok?
    ensures DaysAgree(spec, DaySpec(spec).value, LowerCaseDays(spec))
  {
    var a, b := RangeShape(spec);
    LowerLettersName(spec[..3]);
    LowerLettersName(spec[4..]);
    NoCommaIsOneChunk(spec);
    assert Web.IsDayRange(spec) <==> LowerCaseDays(spec);
    forall j: Day
      ensures Web.SpecHolds(spec, j) <==> LowerCaseDays(spec) && Ahead(a, j) <= Ahead(a, b)
      ensures Has(DaySpec(spec).value, Next(j)) <==> Ahead(a, j) <= Ahead(a, b)
    {
      ShiftedRange(a, b, j);
    }
    assert Has(DaySpec(spec).value, Next(a));
  }

  lemma AllDaysAgree()
    ensures DaysAgree("*", ALL_DAYS, true)
  {
  }

  lemma SpecsAgree(spec: string)
    requires SpaceFree(spec) && DaySpec(spec).Ok?
    ensures DaysAgree(spec, DaySpec(spec).value, LowerCaseDays(spec))
  {
    if spec == "*" {
      AllDaysAgree();
    } else if ',' in spec {
      ListAgrees(spec);
    } else if '-' in spec {
      RangeAgrees(spec);
    } else {
      SingleAgrees(spec);
    }
  }

  // ---------------------------------------------------------------- the picture

  lemma DrawnMeans(p: Web.Parsed, j: Day, minute: int)
    requires |p.days| == 7 && 0 <= minute < DAY_MINUTES
    ensures Web.Drawn(Some(p), j, minute) <==>
              (p.days[j] && p.start <= minute && (p.start < p.end ==> minute < p.end))
              || (p.end <= p.start && p.days[(j + 6) % 7] && minute < p.end)
  {
    var own := Web.BlocksForDay(p, j);
    var blocks := Web.DrawnBlocks(p, j);
    assert |own| > 0 ==> blocks[0] == own[0];
    assert |blocks| > |own| ==> blocks[|own|] == Web.Block(0, p.end);
    assert |blocks| <= |own| + 1;
  }

  /** With the same times, the painted minutes are the accepted ones up to a difference in the days. */
  lemma PictureFollowsDays(s: Schedule, days: seq<bool>, j: Day, minute: int)
    requires Valid(s) && |days| == 7 && 0 <= minute < DAY_MINUTES
    requires forall k: Day :: days[k] ==> Has(s.days, Next(k))
    ensures Web.Drawn(Some(Web.Parsed(s.start, s.end, days)), j, minute) ==> Matches(s, Next(j), minute)
    ensures (forall k: Day :: Has(s.days, Next(k)) ==> days[k]) ==>
              (Matches(s, Next(j), minute) ==> Web.Drawn(Some(Web.Parsed(s.start, s.end, days)), j, minute))
    ensures minute == s.start ==>
              (Web.Drawn(Some(Web.Parsed(s.start, s.end, days)), j, minute) <==> days[j]) && (Matches(s, Next(j), minute) <==> Has(s.days, Next(j)))
  {
    DrawnMeans(Web.Parsed(s.start, s.end, days), j, minute);
    var y: Day := (j + 6) % 7;
    assert Next(y) == j == (Next(j) + 6) % 7;
  }

  function TimesOf(text: string): string
    requires ParseSchedule(text).Ok?
  {
    Fields(TrimSpace(text))[0]
  }

  function DaysOf(text: string): string
    requires ParseSchedule(text).Ok?
  {
    Fields(TrimSpace(text))[1]
  }

  ghost predicate PictureAgrees(text: string)
    requires ParseSchedule(text).Ok?
  {
    forall j: Day, minute | 0 <= minute < DAY_MINUTES ::
      Web.Drawn(Web.Parse(text), j, minute) <==> Matches(ParseSchedule(text).value, Next(j), minute)
  }

  /** The words the browser sees. */
  function Read(text: string): seq<string> { Words(Web.JsSpace, Trim(Web.JsSpace, text)) }

  /** The browser's first word is the daemon's, and has no sign. */
  predicate TimesRead(text: string)
    requires ParseSchedule(text).Ok?
  {
    |Read(text)| > 1 && Read(text)[0] == TimesOf(text) && UnsignedTimes(TimesOf(text))
  }

  /**
   Each day of the specification is named in lower case in the browser's second word, which may
   have U+0085 around the specification.
   */
  predicate DaysRead(read: string, spec: string)
    requires DaySpec(spec).Ok?
  {
    if read == spec then LowerCaseDays(spec)
    else forall d: Day :: Has(DaySpec(spec).value, d) ==> PlainlyNamed(Split(read, ','), Some(d))
  }

  // ---------------------------------------------------------------- accepted texts have no U+FEFF

  lemma DayNameChars(name: string)
    requires SpaceOrBomFree(name) && LookupWeekday(name).Some?
    ensures NoBom(name) && ',' !in name
  {
    GoFreeTrims(name);
    var low := ToLower(name);
    NamedIsName(low);
    NameIsLower(DayNamed(low).value);
    forall i | 0 <= i < |name| ensures name[i] as int != 0xFEFF && name[i] != ',' { assert low[i] == LowerChar(name[i]); }
  }

  /** No white space of the daemon's. */
  predicate SpaceOrBomFree(s: string) { forall i | 0 <= i < |s| :: !IsSpace(s[i]) }

  lemma GoFreeTrims(s: string)
    requires SpaceOrBomFree(s)
    ensures TrimSpace(s) == s
  {
    if s != "" { TrimKeeps(IsSpace, s); }
  }

  predicate AllKnown(names: seq<string>) { forall p | p in names :: LookupWeekday(p).Some? }

  lemma {:induction false} PiecesHaveNoBom(s: string)
    requires SpaceOrBomFree(s) && AllKnown(Split(s, ','))
    ensures NoBom(s)
    decreases |s|
  {
    var n, ps := Index(s, ','), Split(s, ',');
    assert ps[0] in ps;
    if n < 0 {
      DayNameChars(s);
    } else {
      var rest := s[n + 1..];
      SplitAt(s, s[..n], rest, n, ',');
      assert AllKnown(Split(rest, ','));
      PiecesHaveNoBom(rest);
      DayNameChars(s[..n]);
      JoinedAtHasNoBom(s, n);
    }
  }

  lemma JoinedAtHasNoBom(s: string, n: nat)
    requires n < |s| && s[n] < 127 as char && NoBom(s[..n]) && NoBom(s[n + 1..])
    ensures NoBom(s)
  {
    forall i | 0 <= i < |s| ensures s[i] as int != 0xFEFF {
      assert i < n ==> s[..n][i] == s[i];
      assert i > n ==> s[n + 1..][i - n - 1] == s[i];
    }
  }

  lemma DaySpecHasNoBom(spec: string)
    requires SpaceOrBomFree(spec) && DaySpec(spec).Ok?
    ensures NoBom(spec)
  {
    if spec != "*" {
      if ',' in spec {
        NamesAreKnown(Split(spec, ','));
        PiecesHaveNoBom(spec);
      } else if '-' in spec {
        var n := Index(spec, '-');
        DayNameChars(spec[..n]);
        DayNameChars(spec[n + 1..]);
        JoinedAtHasNoBom(spec, n);
      } else {
        DayNameChars(spec);
      }
    }
  }

  lemma ClockHasNoBom(c: string)
    requires ParseHHMM(c).Some?
    ensures NoBom(c) && NEL !in c
  {
    assert c == c[..2] + [c[2]] + c[3..];
    NumberHasNoBom(c[..2]);
    NumberHasNoBom(c[3..]);
  }

  lemma NumberHasNoBom(s: string)
    requires Atoi(s).Some?
    ensures NoBom(s) && NEL !in s
  {
    var digits := if s[0] == '+' || s[0] == '-' then s[1..] else s;
    assert forall i | 0 <= i < |digits| :: IsDigit(digits[i]);
    assert |digits| < |s| ==> s == [s[0]] + digits;
  }

  lemma TimesHaveNoBom(r: string)
    requires ParseTimeRange(r).Ok?
    ensures NoBom(r) && NEL !in r && r != ""
  {
    TimesShape(r);
    ClockHasNoBom(r[..5]);
    ClockHasNoBom(r[6..]);
    assert r == r[..5] + [r[5]] + r[6..];
  }

  lemma {:induction false} FieldsAreGoFree(s: string)
    ensures forall w | w in Fields(s) :: SpaceOrBomFree(w) && w != ""
    decreases |s|
  {
    var t := TrimLeft(IsSpace, s);
    if t != "" {
      var n := WordLength(IsSpace, t);
      FieldsAreGoFree(t[n..]);
      assert Fields(s) == [t[..n]] + Fields(t[n..]);
    }
  }

  /** What the daemon's two words are like. */
  lemma AcceptedWords(text: string)
    requires ParseSchedule(text).Ok?
    ensures Fields(text) == [TimesOf(text), DaysOf(text)] && NoBom(text)
    ensures DaysOf(text) != "" && NoBom(DaysOf(text)) && SpaceOrBomFree(DaysOf(text)) && NEL !in DaysOf(text)
    ensures NoBom(TimesOf(text)) && NEL !in TimesOf(text)
  {
    FieldsOfTrim(IsSpace, text);
    FieldsAreGoFree(text);
    TwoWordsHaveNoBom(text, TimesOf(text), DaysOf(text));
  }

  lemma TwoWordsHaveNoBom(text: string, times: string, spec: string)
    requires Fields(text) == [times, spec] && ParseTimeRange(times).Ok? && DaySpec(spec).Ok? && SpaceOrBomFree(spec)
    ensures NoBom(text) && NoBom(times) && NoBom(spec) && NEL !in times && NEL !in spec
  {
    TimesHaveNoBom(times);
    DaySpecHasNoBom(spec);
    FieldsKeepBom(text);
    assert IsSpace(NEL);
  }

  // ---------------------------------------------------------------- what the browser reads of them

  lemma RangeMatchChars(r: string)
    requires NEL in r
    ensures Web.RangeMatch(r).None?
  {
    var start := Web.ClockAt(r);
    if start.Some? && start.value.1 != "" && start.value.1[0] == '-' {
      var rest := start.value.1[1..];
      ClockChars(r);
      assert start.value.1 == [start.value.1[0]] + rest;
      ClockChars(rest);
    }
  }

  lemma ClockChars(r: string)
    ensures var c := Web.ClockAt(r); c.Some? ==> |c.value.1| < |r| && r[|r| - |c.value.1|..] == c.value.1 && NEL !in r[..|r| - |c.value.1|]
    ensures var c := Web.ClockAt(r); c.Some? && NEL in r ==> NEL in c.value.1
  {
    var c := Web.ClockAt(r);
    if c.Some? {
      var n := |r| - |c.value.1|;
      assert r == r[..n] + r[n..];
      if n == 5 {
        assert r[..5] == r[..2] + [r[2]] + r[3..5];
      } else {
        assert r[..4] == r[..1] + [r[1]] + r[2..4];
      }
    }
  }

  /** How the browser cuts an accepted text: its first word is the daemon's or no time range. */
  lemma WordsRead(text: string)
    requires ParseSchedule(text).Ok?
    ensures var ws := Read(text);
            && ws != [] && (ws[0] == TimesOf(text) || Web.RangeMatch(ws[0]).None?)
            && (ws[0] == TimesOf(text) ==>
                  && |ws| > 1 && JsFree(ws[1])
                  && (ws[1] == DaysOf(text) || (NEL in ws[1] && PiecesOf(ws[1], DaysOf(text)))))
  {
    AcceptedWords(text);
    var t := Trim(Web.JsSpace, text);
    JsSpacesAreSpaces(text);
    FieldsOfTrim(Web.JsSpace, text);
    NoBomTrim(Web.JsSpace, text);
    var rest := JsWord(t);
    var w := Read(text)[0];
    if NEL in w {
      RangeMatchChars(w);
    } else {
      CleanWord(w);
      FirstOfTwo(TimesOf(text), DaysOf(text), w, Fields(rest));
      SecondRead(rest, DaysOf(text));
    }
  }

  lemma FirstOfTwo(a: string, b: string, w: string, rest: seq<string>)
    requires [a, b] == [w] + rest
    ensures a == w && rest == [b]
  {
    assert ([w] + rest)[0] == w && ([w] + rest)[1..] == rest;
  }

  lemma SecondRead(s: string, d: string)
    requires NoBom(s) && Fields(s) == [d] && NEL !in d
    ensures var ws := Words(Web.JsSpace, s);
            ws != [] && JsFree(ws[0]) && (ws[0] == d || (NEL in ws[0] && PiecesOf(ws[0], d)))
  {
    var rest := JsWord(s);
    var w := Words(Web.JsSpace, s)[0];
    if NEL !in w {
      CleanWord(w);
      OneInAll(d, w, Fields(rest));
    } else if Fields(w) == [] {
      NothingPieces(w, d);
    } else {
      OnlyFirst(d, Fields(w), Fields(rest));
      AroundPieces(w, d);
    }
  }

  lemma OnlyFirst(d: string, ws: seq<string>, rest: seq<string>)
    requires [d] == ws + rest && ws != []
    ensures ws == [d]
  {
    assert |ws + rest| == |ws| + |rest|;
  }

  /** A piece with U+0085 in it names no day. */
  lemma PieceHolds(p: string, spec: string, j: Day)
    requires JsFree(p) && (NEL !in p ==> SpaceFree(p) && LookupWeekday(p).Some?)
    ensures Web.ChunkHolds(Trim(Web.JsSpace, p), j) <==> DayNamed(p) == Some(Next(j))
  {
    if NEL !in p {
      NamesAgree(p, j);
    } else {
      JsFreeTrims(p);
      NelIsNoName(p);
    }
  }

  lemma JsFreeTrims(s: string)
    requires JsFree(s)
    ensures Trim(Web.JsSpace, s) == s
  {
    if s != "" { TrimKeeps(Web.JsSpace, s); }
  }

  lemma DayRangeChars(p: string)
    ensures Web.IsDayRange(p) ==> NEL !in p
  {
    if Web.IsDayRange(p) {
      forall i | 0 <= i < 7 ensures p[i] != NEL {
        assert i < 3 ==> p[..3][i] == p[i];
        assert i > 3 ==> p[4..][i - 4] == p[i];
      }
    }
  }

  lemma NelIsNoName(p: string)
    requires NEL in p
    ensures !Web.IsDayRange(p) && DayNamed(p).None? && Web.NameIndex(p) == -1
  {
    DayRangeChars(p);
    IndicesAgree(p, 0);
    if DayNamed(p).Some? {
      NamedIsName(p);
      NameIsLower(DayNamed(p).value);
    }
  }

  /** Pieces of a word of the browser's are free of its spaces. */
  lemma {:induction false} JsFreePieces(s: string)
    requires JsFree(s)
    ensures forall p | p in Split(s, ',') :: JsFree(p)
    decreases |s|
  {
    var n := Index(s, ',');
    if n >= 0 {
      JsFreePieces(s[n + 1..]);
      SplitAt(s, s[..n], s[n + 1..], n, ',');
    }
  }

  lemma KnownPiece(p: string, spec: string)
    requires SpaceFree(spec) && DaySpec(spec).Ok? && ',' in spec && p in Split(spec, ',')
    ensures SpaceFree(p) && LookupWeekday(p).Some?
    ensures DayNamed(p).Some? ==> Has(DaySpec(spec).value, DayNamed(p).value)
  {
    var names := Split(spec, ',');
    PiecesAreSpaceFree(spec, ',');
    NamesAreKnown(names);
    var i :| 0 <= i < |names| && names[i] == p;
    NamesAgree(p, 0);
    NamedDaysHold(names, LookupWeekday(p).value);
  }

  /** With U+0085 around the specification the browser reads the plainly named pieces between the outer ones. */
  lemma AroundHolds(read: string, spec: string, j: Day)
    requires SpaceFree(spec) && DaySpec(spec).Ok? && JsFree(read) && NEL in read && PiecesOf(read, spec)
    ensures Web.SpecHolds(read, j) <==> PlainlyNamed(Split(read, ','), Some(Next(j)))
    ensures Web.SpecHolds(read, j) ==> Has(DaySpec(spec).value, Next(j))
  {
    var ps := Split(read, ',');
    JsFreePieces(read);
    assert read != "*";
    forall i | 0 <= i < |ps| ensures Web.ChunkHolds(Trim(Web.JsSpace, ps[i]), j) <==> DayNamed(ps[i]) == Some(Next(j)) {
      assert ps[i] in ps;
      if NEL !in ps[i] { KnownPiece(ps[i], spec); }
      PieceHolds(ps[i], spec, j);
    }
    if i :| 0 <= i < |ps| && DayNamed(ps[i]) == Some(Next(j)) {
      assert ps[i] in ps;
      if NEL in ps[i] { NelIsNoName(ps[i]); } else { KnownPiece(ps[i], spec); }
    }
  }

  lemma DaysReadAgree(read: string, spec: string)
    requires SpaceFree(spec) && DaySpec(spec).Ok? && JsFree(read)
    requires read == spec || (NEL in read && PiecesOf(read, spec) && NEL !in spec)
    ensures DaysAgree(read, DaySpec(spec).value, DaysRead(read, spec))
  {
    if read == spec {
      SpecsAgree(spec);
    } else {
      forall j: Day
        ensures Web.SpecHolds(read, j) <==> PlainlyNamed(Split(read, ','), Some(Next(j)))
        ensures Web.SpecHolds(read, j) ==> Has(DaySpec(spec).value, Next(j))
      {
        AroundHolds(read, spec, j);
      }
      ByDay(read, DaySpec(spec).value);
    }
  }

  lemma ByDay(read: string, mask: bv8)
    requires forall j: Day :: Web.SpecHolds(read, j) <==> PlainlyNamed(Split(read, ','), Some(Next(j)))
    ensures (forall j: Day :: Has(mask, Next(j)) ==> Web.SpecHolds(read, j)) <==>
            (forall d: Day :: Has(mask, d) ==> PlainlyNamed(Split(read, ','), Some(d)))
  {
    if forall j: Day :: Has(mask, Next(j)) ==> Web.SpecHolds(read, j) {
      forall d: Day | Has(mask, d) ensures PlainlyNamed(Split(read, ','), Some(d)) {
        assert Next(Prev(d)) == d && Web.SpecHolds(read, Prev(d));
      }
    }
  }

  lemma BrowserReading(text: string)
    requires ParseSchedule(text).Ok?
    ensures var s := ParseSchedule(text).value;
            && Valid(s)
            && Web.Parse(text) == (if TimesRead(text) then Some(Web.Parsed(s.start, s.end, Web.SpecDays(Read(text)[1]))) else None)
    ensures TimesRead(text) ==> DaysAgree(Read(text)[1], ParseSchedule(text).value.days, DaysRead(Read(text)[1], DaysOf(text)))
  {
    ParsedSchedulesAreValid(text);
    AcceptedWords(text);
    WordsRead(text);
    TimesAgree(TimesOf(text));
    if TimesRead(text) {
      CleanSpec(DaysOf(text));
      DaysReadAgree(Read(text)[1], DaysOf(text));
    }
  }

  lemma CleanSpec(d: string)
    requires SpaceOrBomFree(d) && NoBom(d)
    ensures SpaceFree(d)
  {
    JsSpacesAreSpaces(d);
  }

  /** Whatever text the daemon accepts, the browser paints no minute the daemon does not act on. */
  lemma BrowserNeverDrawsTooMuch(text: string, j: Day, minute: int)
    requires ParseSchedule(text).Ok? && 0 <= minute < DAY_MINUTES
    ensures Web.Drawn(Web.Parse(text), j, minute) ==> Matches(ParseSchedule(text).value, Next(j), minute)
  {
    BrowserReading(text);
    if TimesRead(text) { PictureFollowsDays(ParseSchedule(text).value, Web.SpecDays(Read(text)[1]), j, minute); }
  }

  lemma SomeDay(s: Schedule) returns (d: Day)
    requires Valid(s)
    ensures Has(s.days, d)
  {
    CanonicalIsPrintable(s);
    d := DaysIn(s.days, 0)[0];
    DaysInHold(s.days, 0, d);
  }

  /**
   For every text the daemon accepts, the browser paints exactly the minutes the daemon acts on
   if and only if it sees the same times, with no sign in them, and every weekday is also named in
   lower case among what it sees.
   */
  lemma BrowserAgreesIff(text: string)
    requires ParseSchedule(text).Ok?
    ensures PictureAgrees(text) <==> TimesRead(text) && DaysRead(Read(text)[1], DaysOf(text))
  {
    BrowserReading(text);
    var s := ParseSchedule(text).value;
    if TimesRead(text) {
      SameTimesAgreeIff(text, Web.SpecDays(Read(text)[1]));
    } else {
      var d := SomeDay(s);
      assert Matches(s, Next(Prev(d)), s.start) && !Web.Drawn(Web.Parse(text), Prev(d), s.start);
    }
  }

  lemma SameTimesAgreeIff(text: string, days: seq<bool>)
    requires ParseSchedule(text).Ok? && Valid(ParseSchedule(text).value) && |days| == 7
    requires var s := ParseSchedule(text).value; Web.Parse(text) == Some(Web.Parsed(s.start, s.end, days))
    requires forall k: Day :: days[k] ==> Has(ParseSchedule(text).value.days, Next(k))
    ensures PictureAgrees(text) <==> forall k: Day :: Has(ParseSchedule(text).value.days, Next(k)) ==> days[k]
  {
    var s := ParseSchedule(text).value;
    forall j: Day, minute | 0 <= minute < DAY_MINUTES
      ensures Web.Drawn(Web.Parse(text), j, minute) ==> Matches(s, Next(j), minute)
      ensures (forall k: Day :: Has(s.days, Next(k)) ==> days[k]) ==>
                (Matches(s, Next(j), minute) ==> Web.Drawn(Web.Parse(text), j, minute))
    {
      PictureFollowsDays(s, days, j, minute);
    }
    if PictureAgrees(text) {
      forall j: Day | Has(s.days, Next(j)) ensures days[j] {
        PictureFollowsDays(s, days, j, s.start);
        assert Web.Drawn(Web.Parse(text), j, s.start) <==> Matches(s, Next(j), s.start);
      }
    }
  }

  /** A text of common spaces is read word for word. */
  lemma CommonTextsAgreeIff(text: string)
    requires CommonSpaces(text) && ParseSchedule(text).Ok?
    ensures PictureAgrees(text) <==> UnsignedTimes(TimesOf(text)) && LowerCaseDays(DaysOf(text))
  {
    TrimsAgree(text);
    TrimLeftsAgree(text);
    TrimRightsAgree(TrimLeft(IsSpace, text));
    WordsAgree(TrimSpace(text));
    BrowserAgreesIff(text);
  }

  // ---------------------------------------------------------------- the documented grammar

  lemma PrintedDaysAreLowerCase(days: Days)
    requires Printable(days)
    ensures LowerCaseDays(PrintDays(days))
  {
    match days
    case Every =>
    case Between(a, b) =>
      NameIsLower(a);
      NameIsLower(b);
      IndexAfter(DayName(a), '-', DayName(b));
      assert PrintDays(days)[..3] == DayName(a) && PrintDays(days)[4..] == DayName(b);
    case Listed(ds) =>
      var names := Names(ds);
      JoinedChars(ds);
      forall i | 0 <= i < |ds|
        ensures ',' !in names[i] && PlainlyNamed(names, LookupWeekday(names[i]))
      {
        NameIsLower(ds[i]);
        NameIsFound(ds[i]);
        assert DayNamed(names[i]) == LookupWeekday(names[i]);
      }
      SplitJoin(names, ',');
  }

  lemma CommonSpacesJoin(a: string, b: string)
    requires SpaceFree(a) && SpaceFree(b)
    ensures CommonSpaces(a + " " + b)
  {
    forall i | 0 <= i < |a| ensures a[i] as int != 0x85 && a[i] as int != 0xFEFF { assert !IsSpace(a[i]) && !Web.JsSpace(a[i]); }
    forall i | 0 <= i < |b| ensures b[i] as int != 0x85 && b[i] as int != 0xFEFF { assert !IsSpace(b[i]) && !Web.JsSpace(b[i]); }
  }

  lemma PrintedTimesAreSpaceFree(start: int, end: int)
    requires 0 <= start < DAY_MINUTES && 0 <= end < DAY_MINUTES
    ensures SpaceFree(Times(start, end)) && UnsignedTimes(Times(start, end))
  {
    TimesAreRead(start, end);
    var times := Times(start, end);
    assert times[2] == ':' && times[5] == '-' && times[8] == ':';
    forall i | 0 <= i < 11 ensures !IsSpace(times[i]) && !Web.JsSpace(times[i]) {
      assert i == 2 || i == 5 || i == 8 || IsDigit(times[i]);
    }
  }

  lemma PrintedDaysAreSpaceFree(days: Days)
    requires Printable(days)
    ensures SpaceFree(PrintDays(days))
  {
    DaysAreRead(days);
    forall i | 0 <= i < |PrintDays(days)| ensures !IsSpace(PrintDays(days)[i]) && !Web.JsSpace(PrintDays(days)[i]) {
      assert DayChar(PrintDays(days)[i]);
    }
  }

  lemma PrintedFields(start: int, end: int, days: Days)
    requires 0 <= start < DAY_MINUTES && 0 <= end < DAY_MINUTES && Printable(days)
    ensures Fields(TrimSpace(Print(start, end, days))) == [Times(start, end), PrintDays(days)]
    ensures CommonSpaces(Print(start, end, days))
  {
    PrintedTimesAreSpaceFree(start, end);
    PrintedDaysAreSpaceFree(days);
    DaysAreRead(days);
    TwoFieldsAreParsed(Print(start, end, days), Times(start, end), PrintDays(days));
    CommonSpacesJoin(Times(start, end), PrintDays(days));
  }

  /** On every text of the documented grammar the browser and the daemon agree about every minute of the week. */
  lemma GrammarTextsAgree(start: int, end: int, days: Days)
    requires 0 <= start < DAY_MINUTES && 0 <= end < DAY_MINUTES && start != end && Printable(days)
    ensures PrintedScheduleAgrees(start, end, days)
  {
    var text := Print(start, end, days);
    PrintedScheduleIsRead(start, end, days);
    PrintedFields(start, end, days);
    TimesAreRead(start, end);
    PrintedDaysAreLowerCase(days);
    CommonTextsAgreeIff(text);
  }

  ghost predicate PrintedScheduleAgrees(start: int, end: int, days: Days)
    requires 0 <= start < DAY_MINUTES && 0 <= end < DAY_MINUTES && Printable(days)
  {
    var text := Print(start, end, days);
    ParseSchedule(text) == Ok(Schedule(start, end, Mask(days))) && PictureAgrees(text)
  }

  lemma TwoFieldText(times: string, spec: string)
    requires ParseTimeRange(times).Ok? && DaySpec(spec).Ok? && times != "" && spec != ""
    requires SpaceFree(times) && SpaceFree(spec)
    ensures var (start, end) := ParseTimeRange(times).value;
            ParseSchedule(times + " " + spec) == Ok(Schedule(start, end, DaySpec(spec).value))
    ensures PictureAgrees(times + " " + spec) <==> UnsignedTimes(times) && LowerCaseDays(spec)
  {
    var text := times + " " + spec;
    TwoFieldsAreParsed(text, times, spec);
    CommonSpacesJoin(times, spec);
    CommonTextsAgreeIff(text);
  }

  function ToUpper(name: string): string {
    seq(|name|, i requires 0 <= i < |name| => if 'a' <= name[i] <= 'z' then (name[i] as int - 32) as char else name[i])
  }

  lemma UpperNameIsFound(d: Day)
    ensures var name := ToUpper(DayName(d));
            SpaceFree(name) && LookupWeekday(name) == Some(d) && DayNamed(name).None? && |name| == 3 && ',' !in name && '-' !in name
  {
    var name := ToUpper(DayName(d));
    NameIsLower(d);
    forall i | 0 <= i < 3 ensures 'A' <= name[i] <= 'Z' { assert name[i] as int == DayName(d)[i] as int - 32; }
    SpaceFreeTrims(name);
    assert ToLower(name) == DayName(d);
    assert name != DayName(0);
    NamedIsName(name);
    if DayNamed(name).Some? { NameIsLower(DayNamed(name).value); }
  }

  /** A day in upper case: the daemon acts on it, the browser paints none of its minutes. */
  lemma UpperCaseDayDisagrees(start: int, end: int, d: Day)
    requires 0 <= start < DAY_MINUTES && 0 <= end < DAY_MINUTES && start != end
    ensures var text := Times(start, end) + " " + ToUpper(DayName(d));
            ParseSchedule(text) == Ok(Schedule(start, end, DayBit(d))) && !PictureAgrees(text)
  {
    UpperNameIsFound(d);
    TimesAreRead(start, end);
    PrintedTimesAreSpaceFree(start, end);
    TwoFieldText(Times(start, end), ToUpper(DayName(d)));
  }

  lemma SignedDigit(n: int)
    requires 0 <= n < 10
    ensures Atoi(['+', Digit(n)]) == Some(n)
  {
    assert ['+', Digit(n)][1..] == [Digit(n)];
    assert [Digit(n)][..0] == "";
    assert Decimal([Digit(n)]) == n;
  }

  lemma SignedClock(minute: int)
    requires 0 <= minute < 600
    ensures ParseHHMM("+" + Clock(minute)[1..]) == Some(minute)
  {
    var s := "+" + Clock(minute)[1..];
    assert |s| == 5 && s[2] == ':';
    assert s[..2] == ['+', Digit(minute / 60)];
    assert s[3..] == TwoDigits(minute % 60);
    TwoDigitsAreRead(minute % 60);
    SignedDigit(minute / 60);
  }

  lemma SignedTimesAreSpaceFree(times: string)
    requires |times| == 11 && SpaceFree(times)
    ensures SpaceFree("+" + times[1..]) && !UnsignedTimes("+" + times[1..])
  {
    var signed := "+" + times[1..];
    forall i | 0 < i < 11 ensures !IsSpace(signed[i]) && !Web.JsSpace(signed[i]) { assert signed[i] == times[i]; }
    assert !IsDigit(signed[0]);
  }

  lemma SignedTimes(start: int, end: int)
    requires 0 <= start < 600 && 0 <= end < DAY_MINUTES && start != end
    ensures ParseTimeRange("+" + Times(start, end)[1..]) == Ok((start, end))
  {
    var times := "+" + Times(start, end)[1..];
    var first := "+" + Clock(start)[1..];
    ClockIsRead(start);
    ClockIsRead(end);
    SignedClock(start);
    assert '-' !in first;
    assert times == first + ['-'] + Clock(end);
    DashedTimesAreRead(times, first, Clock(end));
  }

  /** A signed hour: the daemon reads it as the hour, the browser paints nothing. */
  lemma SignedHourDisagrees(start: int, end: int, days: Days)
    requires 0 <= start < 600 && 0 <= end < DAY_MINUTES && start != end && Printable(days)
    ensures var text := "+" + Times(start, end)[1..] + " " + PrintDays(days);
            ParseSchedule(text) == Ok(Schedule(start, end, Mask(days))) && !PictureAgrees(text)
  {
    SignedTimes(start, end);
    PrintedTimesAreSpaceFree(start, end);
    SignedTimesAreSpaceFree(Times(start, end));
    DaysAreRead(days);
    PrintedDaysAreSpaceFree(days);
    TwoFieldText("+" + Times(start, end)[1..], PrintDays(days));
  }

  /** U+0085 between the times and the days: the daemon reads both, the browser sees one word and paints nothing. */
  lemma NelSeparatorDisagrees(start: int, end: int, days: Days)
    requires 0 <= start < DAY_MINUTES && 0 <= end < DAY_MINUTES && start != end && Printable(days)
    ensures var text := Times(start, end) + ([NEL] + PrintDays(days));
            ParseSchedule(text) == Ok(Schedule(start, end, Mask(days))) && !PictureAgrees(text)
  {
    var times, spec := Times(start, end), PrintDays(days);
    TimesAreRead(start, end);
    DaysAreRead(days);
    PrintedTimesAreSpaceFree(start, end);
    PrintedDaysAreSpaceFree(days);
    NelSeparates(times, spec);
    BrowserAgreesIff(times + ([NEL] + spec));
  }

  lemma NelSeparates(a: string, b: string)
    requires SpaceFree(a) && SpaceFree(b) && a != "" && b != ""
    ensures var text := a + ([NEL] + b);
            TrimSpace(text) == text && Fields(text) == [a, b] && Read(text) == [text]
  {
    var text := a + ([NEL] + b);
    assert text[0] == a[0] && text[|text| - 1] == b[|b| - 1];
    TrimKeeps(IsSpace, text);
    assert JsFree(text);
    JsFreeTrims(text);
    OneWord(Web.JsSpace, text);
    OneWord(IsSpace, a);
    OneWord(IsSpace, b);
    FieldsConcat(a, [NEL] + b);
    assert ([NEL] + b)[1..] == b;
    assert TrimLeft(IsSpace, [NEL] + b) == TrimLeft(IsSpace, b);
  }

  lemma OneWord(space: char -> bool, w: string)
    requires w != "" && forall i | 0 <= i < |w| :: !space(w[i])
    ensures Words(space, w) == [w]
  {
    assert WordLength(space, w) == |w|;
    assert w[..|w|] == w && w[|w|..] == "";
  }
}
