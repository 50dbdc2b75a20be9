/** Weekly windows (internal/config/schedule.go): matching, duration and day count. */
module WeeklySchedule {

  /** time.Weekday: 0 is Sunday. */
  type Day = d: int | 0 <= d < 7 witness 0

  const DAY_MINUTES := 1440

  /** A window in minutes since midnight; bit d of `days` stands for weekday d. */
  datatype Schedule = Schedule(start: int, end: int, days: bv8)

  /** The Go zero value. */
  const Zero := Schedule(0, 0, 0)

  const ALL_DAYS: bv8 := 0x7F

  function DayBit(d: Day): bv8 {
    if d == 0 then 1 else if d == 1 then 2 else if d == 2 then 4 else if d == 3 then 8
    else if d == 4 then 16 else if d == 5 then 32 else 64
  }

  predicate Has(days: bv8, d: Day) { days & DayBit(d) != 0 }

  function Bit(b: bool): nat { if b then 1 else 0 }

  /** bits.OnesCount8. */
  function OnesCount(b: bv8): nat {
    Bit(b & 1 != 0) + Bit(b & 2 != 0) + Bit(b & 4 != 0) + Bit(b & 8 != 0)
    + Bit(b & 16 != 0) + Bit(b & 32 != 0) + Bit(b & 64 != 0) + Bit(b & 128 != 0)
  }

  /** `hm` is the minute of the day. */
  predicate Matches(s: Schedule, weekday: Day, hm: int) {
    if s.days == 0 then false
    else if s.start < s.end then !(hm < s.start || hm >= s.end) && Has(s.days, weekday)
    else if hm >= s.start then Has(s.days, weekday)
    else if hm < s.end then Has(s.days, (weekday + 6) % 7)
    else false
  }

  function DurationMin(s: Schedule): int {
    if s.start < s.end then s.end - s.start else (DAY_MINUTES - s.start) + s.end
  }

  function DayCount(s: Schedule): nat { OnesCount(s.days) }

  // ---------------------------------------------------------------- counting a week

  /** How many of the first `n` minutes of the week, counted from Sunday 00:00, the schedule accepts. */
  function AcceptedMinutes(s: Schedule, n: nat): nat
    requires n <= 7 * DAY_MINUTES
  {
    if n == 0 then 0
    else AcceptedMinutes(s, n - 1) + Bit(Matches(s, (n - 1) / DAY_MINUTES, (n - 1) % DAY_MINUTES))
  }

  predicate InDay(s: Schedule) { 0 <= s.start < DAY_MINUTES && 0 <= s.end < DAY_MINUTES }

  /** Minutes of a day before `n` that its own bit switches on. */
  function Own(s: Schedule, n: int): int {
    var stop := if s.start < s.end then s.end else DAY_MINUTES;
    if n <= s.start then 0 else if n <= stop then n - s.start else stop - s.start
  }

  /** Minutes of a day before `n` that the bit of the day before switches on. */
  function Carried(s: Schedule, n: int): int {
    if s.start < s.end then 0 else if n <= s.end then n else s.end
  }

  /** The seven weekday bits. */
  function Week(days: bv8): (w: seq<bool>)
    ensures |w| == 7 && forall d: Day :: w[d] == Has(days, d)
  {
    [Has(days, 0), Has(days, 1), Has(days, 2), Has(days, 3), Has(days, 4), Has(days, 5), Has(days, 6)]
  }

  /** Matches, given today's and yesterday's bit. */
  predicate Accepts(s: Schedule, today: bool, yesterday: bool, hm: int) {
    if s.start < s.end then s.start <= hm < s.end && today
    else if hm >= s.start then today
    else hm < s.end && yesterday
  }

  lemma MatchesIsAccepts(s: Schedule, d: Day, hm: int)
    ensures Matches(s, d, hm) <==> Accepts(s, Week(s.days)[d], Week(s.days)[(d + 6) % 7], hm)
  {
    NoDays(s.days, d);
    NoDays(s.days, (d + 6) % 7);
  }

  lemma OneMoreAccepted(s: Schedule, d: Day, n: nat)
    requires 0 < n <= DAY_MINUTES
    ensures AcceptedMinutes(s, DAY_MINUTES * d + n) == AcceptedMinutes(s, DAY_MINUTES * d + (n - 1)) + Bit(Matches(s, d, n - 1))
  {
    var k := DAY_MINUTES * d + (n - 1);
    assert k / DAY_MINUTES == d && k % DAY_MINUTES == n - 1;
  }

  lemma {:induction false} AcceptedInDay(s: Schedule, w: seq<bool>, d: Day, n: nat)
    requires InDay(s) && n <= DAY_MINUTES && w == Week(s.days)
    ensures AcceptedMinutes(s, DAY_MINUTES * d + n) == AcceptedMinutes(s, DAY_MINUTES * d)
              + (if w[d] then Own(s, n) else 0) + (if w[(d + 6) % 7] then Carried(s, n) else 0)
  {
    if n > 0 {
      AcceptedInDay(s, w, d, n - 1);
      OneMoreAccepted(s, d, n);
      MatchesIsAccepts(s, d, n - 1);
      OneMoreMinute(s, w[d], w[(d + 6) % 7], n);
    }
  }

  lemma OneMoreMinute(s: Schedule, today: bool, yesterday: bool, n: nat)
    requires InDay(s) && 0 < n <= DAY_MINUTES
    ensures (if today then Own(s, n) else 0) + (if yesterday then Carried(s, n) else 0) ==
              (if today then Own(s, n - 1) else 0) + (if yesterday then Carried(s, n - 1) else 0)
              + Bit(Accepts(s, today, yesterday, n - 1))
  {
  }

  lemma NoDays(days: bv8, d: Day)
    ensures days == 0 ==> !Has(days, d)
  {
  }

  lemma OnesCountByDay(days: bv8)
    ensures OnesCount(days) == Bit(Has(days, 0)) + Bit(Has(days, 1)) + Bit(Has(days, 2)) + Bit(Has(days, 3))
              + Bit(Has(days, 4)) + Bit(Has(days, 5)) + Bit(Has(days, 6)) + Bit(days & 128 != 0)
  {
  }

  /** How many of the weekdays shift, shift+1, ... (k of them, wrapping) are set. */
  function DaysFrom(w: seq<bool>, shift: nat, k: nat): nat
    requires |w| == 7
  {
    if k == 0 then 0 else DaysFrom(w, shift, k - 1) + Bit(w[(k - 1 + shift) % 7])
  }

  lemma {:induction false} AcceptedInDays(s: Schedule, w: seq<bool>, k: nat)
    requires InDay(s) && k <= 7 && w == Week(s.days)
    ensures AcceptedMinutes(s, DAY_MINUTES * k) ==
              DaysFrom(w, 0, k) * Own(s, DAY_MINUTES) + DaysFrom(w, 6, k) * Carried(s, DAY_MINUTES)
  {
    if k > 0 {
      AcceptedInDays(s, w, k - 1);
      AcceptedInDay(s, w, k - 1, DAY_MINUTES);
      OneMoreDay(w, k, Own(s, DAY_MINUTES), Carried(s, DAY_MINUTES));
    }
  }

  lemma OneMoreDay(w: seq<bool>, k: nat, own: int, carried: int)
    requires |w| == 7 && 0 < k <= 7
    ensures DaysFrom(w, 0, k) * own + DaysFrom(w, 6, k) * carried ==
              DaysFrom(w, 0, k - 1) * own + DaysFrom(w, 6, k - 1) * carried
              + (if w[k - 1] then own else 0) + (if w[(k + 5) % 7] then carried else 0)
  {
    assert (k - 1 + 0) % 7 == k - 1 && k - 1 + 6 == k + 5;
    AddDay(DaysFrom(w, 0, k - 1), DaysFrom(w, 6, k - 1), w[k - 1], w[(k + 5) % 7], own, carried);
  }

  lemma AddBit(n: nat, b: bool, x: int)
    ensures (n + Bit(b)) * x == n * x + (if b then x else 0)
  {
  }

  lemma AddDay(n: nat, m: nat, today: bool, yesterday: bool, own: int, carried: int)
    ensures (n + Bit(today)) * own + (m + Bit(yesterday)) * carried ==
              n * own + m * carried + (if today then own else 0) + (if yesterday then carried else 0)
  {
    AddBit(n, today, own);
    AddBit(m, yesterday, carried);
  }

  lemma SevenDays(w: seq<bool>)
    requires |w| == 7
    ensures DaysFrom(w, 0, 7) == Bit(w[0]) + Bit(w[1]) + Bit(w[2]) + Bit(w[3]) + Bit(w[4]) + Bit(w[5]) + Bit(w[6])
    ensures DaysFrom(w, 6, 7) == DaysFrom(w, 0, 7)
  {
    assert DaysFrom(w, 0, 1) == DaysFrom(w, 0, 0) + Bit(w[0]);
    assert DaysFrom(w, 0, 2) == DaysFrom(w, 0, 1) + Bit(w[1]);
    assert DaysFrom(w, 0, 3) == DaysFrom(w, 0, 2) + Bit(w[2]);
    assert DaysFrom(w, 0, 4) == DaysFrom(w, 0, 3) + Bit(w[3]);
    assert DaysFrom(w, 0, 5) == DaysFrom(w, 0, 4) + Bit(w[4]);
    assert DaysFrom(w, 0, 6) == DaysFrom(w, 0, 5) + Bit(w[5]);
    assert DaysFrom(w, 0, 7) == DaysFrom(w, 0, 6) + Bit(w[6]);
    assert DaysFrom(w, 6, 1) == DaysFrom(w, 6, 0) + Bit(w[6]);
    assert DaysFrom(w, 6, 2) == DaysFrom(w, 6, 1) + Bit(w[0]);
    assert DaysFrom(w, 6, 3) == DaysFrom(w, 6, 2) + Bit(w[1]);
    assert DaysFrom(w, 6, 4) == DaysFrom(w, 6, 3) + Bit(w[2]);
    assert DaysFrom(w, 6, 5) == DaysFrom(w, 6, 4) + Bit(w[3]);
    assert DaysFrom(w, 6, 6) == DaysFrom(w, 6, 5) + Bit(w[4]);
    assert DaysFrom(w, 6, 7) == DaysFrom(w, 6, 6) + Bit(w[5]);
  }

  lemma WeekSize(days: bv8)
    ensures DaysFrom(Week(days), 0, 7) == DaysFrom(Week(days), 6, 7) == OnesCount(days) - Bit(days & 128 != 0)
  {
    SevenDays(Week(days));
    OnesCountByDay(days);
  }

  /**
   The minutes of a week the schedule accepts are exactly its duration times its day count,
   midnight-wrapping windows included, if and only if the unused eighth bit is clear.
   */
  lemma WeekIsDurationTimesDays(s: Schedule)
    requires InDay(s)
    ensures AcceptedMinutes(s, 7 * DAY_MINUTES) == DurationMin(s) * DayCount(s) <==> s.days & 128 == 0
    ensures forall d: Day, hm :: !Matches(Zero, d, hm)
  {
    CountWeek(s, Week(s.days), s.days & 128 != 0);
  }

  lemma CountWeek(s: Schedule, w: seq<bool>, top: bool)
    requires InDay(s) && w == Week(s.days) && top == (s.days & 128 != 0)
    ensures AcceptedMinutes(s, 7 * DAY_MINUTES) == DurationMin(s) * DayCount(s) <==> !top
  {
    AcceptedInDays(s, w, 7);
    WeekSize(s.days);
    CountingArithmetic(AcceptedMinutes(s, 7 * DAY_MINUTES), DaysFrom(w, 0, 7), Own(s, DAY_MINUTES),
                       Carried(s, DAY_MINUTES), DurationMin(s), top);
  }

  lemma CountingArithmetic(count: nat, n: nat, own: int, carried: int, duration: int, top: bool)
    requires count == n * own + n * carried && own + carried == duration && duration > 0
    ensures count == duration * (n + Bit(top)) <==> !top
  {
    Distribute(n, own, carried);
    AddBit(n, top, duration);
  }

  lemma Distribute(n: int, x: int, y: int)
    ensures n * x + n * y == (x + y) * n
  {
  }

  // ---------------------------------------------------------------- day ranges

  /** How many days `to` comes after `from`. */
  function Ahead(from: Day, to: Day): (n: nat)
    ensures n == (to - from) % 7
  {
    if from <= to then to - from else to - from + 7
  }

  function Next(d: Day): (n: Day)
    ensures n == (d + 1) % 7
  {
    if d == 6 then 0 else d + 1
  }

  lemma AheadStep(from: Day, to: Day, d: Day)
    requires from != to
    ensures var next := Next(from);
            Ahead(next, to) == Ahead(from, to) - 1 && (Ahead(from, d) <= Ahead(from, to) <==> d == from || Ahead(next, d) <= Ahead(next, to))
  {
  }

  /** The inclusive range from `d` to `end`, wrapping at Saturday. */
  function Range(d: Day, end: Day): bv8
    decreases Ahead(d, end)
  {
    if d == end then DayBit(d) else DayBit(d) | Range(Next(d), end)
  }

  lemma UnionBit(a: bv8, b: bv8, k: bv8)
    ensures (a | b) & k != 0 <==> a & k != 0 || b & k != 0
  {
  }

  lemma HasUnion(a: bv8, b: bv8, d: Day)
    ensures Has(a | b, d) <==> Has(a, d) || Has(b, d)
  {
    UnionBit(a, b, DayBit(d));
  }

  lemma HasBit(d: Day, e: Day)
    ensures Has(DayBit(d), e) <==> d == e
    ensures DayBit(d) & 128 == 0 && DayBit(d) != 0
  {
  }

  /** A range holds the days at most (end - start) mod 7 after its start, and nothing else. */
  lemma {:induction false} RangeHolds(start: Day, end: Day, d: Day)
    ensures Has(Range(start, end), d) <==> Ahead(start, d) <= Ahead(start, end)
    ensures Range(start, end) & 128 == 0
    decreases Ahead(start, end)
  {
    HasBit(start, d);
    if start != end {
      var next := Next(start);
      AheadStep(start, end, d);
      RangeHolds(next, end, d);
      HasUnion(DayBit(start), Range(next, end), d);
      UnionTop(DayBit(start), Range(next, end));
    }
  }

  lemma UnionTop(a: bv8, b: bv8)
    ensures (a | b) & 128 == (a & 128) | (b & 128)
  {
  }

  lemma RangeWeek(w: seq<bool>, start: Day, end: Day)
    requires |w| == 7 && forall d: Day :: w[d] <==> Ahead(start, d) <= Ahead(start, end)
    ensures DaysFrom(w, 0, 7) == Ahead(start, end) + 1
  {
    SevenDays(w);
  }

  lemma RangeSize(start: Day, end: Day)
    ensures OnesCount(Range(start, end)) == Ahead(start, end) + 1
  {
    var r := Range(start, end);
    WeekSize(r);
    forall d: Day ensures Week(r)[d] <==> Ahead(start, d) <= Ahead(start, end) { RangeHolds(start, end, d); }
    RangeHolds(start, end, 0);
    RangeWeek(Week(r), start, end);
  }

  /** The walk of a day range: it ends, and marks exactly the inclusive wrapping range. */
  method WalkRange(start: Day, end: Day) returns (mask: bv8)
    ensures mask == Range(start, end)
    ensures OnesCount(mask) == (end - start) % 7 + 1
    ensures forall d: Day :: Has(mask, d) <==> (d - start) % 7 <= (end - start) % 7
  {
    mask := 0;
    var d := start;
    while true
      invariant mask | Range(d, end) == Range(start, end)
      decreases Ahead(d, end)
    {
      ghost var before := mask;
      mask := mask | DayBit(d);
      if d == end {
        break;
      }
      AheadStep(d, end, d);
      OrAssociates(before, DayBit(d), Range(Next(d), end));
      d := Next(d);
    }
    RangeSize(start, end);
    forall k: Day ensures Has(mask, k) <==> Ahead(start, k) <= Ahead(start, end) { RangeHolds(start, end, k); }
  }

  lemma OrAssociates(a: bv8, b: bv8, c: bv8)
    ensures (a | b) | c == a | (b | c)
  {
  }

  // ---------------------------------------------------------------- which window

  /** How long before minute `hm` of weekday `d` the window of weekday `k` last opened. */
  function MinutesSinceOpening(s: Schedule, k: Day, d: Day, hm: int): int {
    (DAY_MINUTES * Ahead(k, d) + hm - s.start) % (7 * DAY_MINUTES)
  }

  lemma WindowOfDay(s: Schedule, k: Day, d: Day, hm: int)
    requires InDay(s) && 0 <= hm < DAY_MINUTES
    ensures MinutesSinceOpening(s, k, d, hm) < DurationMin(s) <==>
              (k == d && s.start <= hm && (s.start < s.end ==> hm < s.end)) || (Next(k) == d && s.end <= s.start && hm < s.end)
  {
    var open := DAY_MINUTES * Ahead(k, d) + hm - s.start;
    assert MinutesSinceOpening(s, k, d, hm) == if open >= 0 then open else open + 7 * DAY_MINUTES;
    assert Ahead(k, d) == 0 <==> k == d;
    assert Ahead(k, d) == 1 <==> Next(k) == d;
  }

  /**
   A minute is accepted exactly when it falls less than the duration after the opening of the
   window of some chosen weekday: the day bit is that of the opening, also past midnight.
   */
  lemma MatchesIffAWindowIsOpen(s: Schedule, d: Day, hm: int)
    requires InDay(s) && 0 <= hm < DAY_MINUTES
    ensures Matches(s, d, hm) <==> exists k: Day :: Has(s.days, k) && MinutesSinceOpening(s, k, d, hm) < DurationMin(s)
  {
    var y: Day := (d + 6) % 7;
    forall k: Day
      ensures MinutesSinceOpening(s, k, d, hm) < DurationMin(s) <==>
                (k == d && s.start <= hm && (s.start < s.end ==> hm < s.end)) || (k == y && s.end <= s.start && hm < s.end)
    {
      WindowOfDay(s, k, d, hm);
      assert Next(k) == d <==> k == y;
    }
    NoDays(s.days, d);
    NoDays(s.days, y);
    if Matches(s, d, hm) {
      var k := if Has(s.days, d) && s.start <= hm then d else y;
      assert Has(s.days, k) && MinutesSinceOpening(s, k, d, hm) < DurationMin(s);
    }
  }
}
