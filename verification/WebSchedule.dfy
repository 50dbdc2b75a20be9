/** The browser's reading of a schedule (web/schedule.js): weeks start on Monday here. */
module WebSchedule {
  import opened Common
  import opened GoStrings
  import opened WeeklySchedule

  /** ECMAScript white space and line terminators, for trim and \s. */
  predicate JsSpace(c: char) {
    var n := c as int;
    || 9 <= n <= 13 || n == 32 || n == 0xA0 || n == 0xFEFF || n == 0x1680 || 0x2000 <= n <= 0x200A
    || n == 0x2028 || n == 0x2029 || n == 0x202F || n == 0x205F || n == 0x3000
  }

  /** Days are indices into DAY_NAMES: 0 is Monday. */
  datatype Parsed = Parsed(start: int, end: int, days: seq<bool>)

  datatype Block = Block(start: int, end: int)

  /** DAY_NAMES.indexOf. */
  function NameIndex(s: string): (j: int)
    ensures -1 <= j < 7
  {
    if s == "mon" then 0 else if s == "tue" then 1 else if s == "wed" then 2 else if s == "thu" then 3
    else if s == "fri" then 4 else if s == "sat" then 5 else if s == "sun" then 6 else -1
  }

  /** \d{1,2}:\d{2} at the front of `r`: its minutes and what follows it. */
  function ClockAt(r: string): Option<(int, string)> {
    if |r| >= 5 && AllDigits(r[..2]) && r[2] == ':' && AllDigits(r[3..5])
    then Some((Decimal(r[..2]) * 60 + Decimal(r[3..5]), r[5..]))
    else if |r| >= 4 && AllDigits(r[..1]) && r[1] == ':' && AllDigits(r[2..4])
    then Some((Decimal(r[..1]) * 60 + Decimal(r[2..4]), r[4..]))
    else None
  }

  /** The anchored match of the whole time range. */
  function RangeMatch(r: string): Option<(int, int)> {
    var start := ClockAt(r);
    if start.None? || start.value.1 == "" || start.value.1[0] != '-' then None
    else
      var end := ClockAt(start.value.1[1..]);
      if end.None? || end.value.1 != "" then None else Some((start.value.0, end.value.0))
  }

  predicate ThreeLetters(s: string) { |s| == 3 && forall i | 0 <= i < 3 :: 'a' <= s[i] <= 'z' }

  predicate IsDayRange(chunk: string) {
    |chunk| == 7 && chunk[3] == '-' && ThreeLetters(chunk[..3]) && ThreeLetters(chunk[4..])
  }

  /** Whether one comma-separated chunk switches on day `j`. */
  predicate ChunkHolds(chunk: string, j: Day) {
    if IsDayRange(chunk) then
      var a, b := NameIndex(chunk[..3]), NameIndex(chunk[4..]);
      a >= 0 && b >= 0 && Ahead(a, j) <= Ahead(a, b)
    else NameIndex(chunk) == j
  }

  predicate SomeChunkHolds(chunks: seq<string>, j: Day) {
    exists i | 0 <= i < |chunks| :: ChunkHolds(Trim(JsSpace, chunks[i]), j)
  }

  predicate SpecHolds(spec: string, j: Day) { spec == "*" || SomeChunkHolds(Split(spec, ','), j) }

  function SpecDays(spec: string): (days: seq<bool>)
    ensures |days| == 7 && forall j: Day :: days[j] == SpecHolds(spec, j)
  {
    seq(7, j requires 0 <= j < 7 => SpecHolds(spec, j))
  }

  function Parse(text: string): Option<Parsed> {
    var parts := Words(JsSpace, Trim(JsSpace, text));
    if parts == [] then None
    else
      var range := RangeMatch(parts[0]);
      if range.None? then None
      else Some(Parsed(range.value.0, range.value.1, SpecDays(if |parts| > 1 then parts[1] else "*")))
  }

  /** One chunk of a day list, marked in the days array. */
  method MarkChunk(chunk: string, days: array<bool>)
    requires days.Length == 7
    modifies days
    ensures forall j: Day :: days[j] == (old(days[j]) || ChunkHolds(chunk, j))
  {
    if IsDayRange(chunk) {
      var a := NameIndex(chunk[..3]);
      var b := NameIndex(chunk[4..]);
      if a >= 0 && b >= 0 {
        var i: Day := a;
        while true
          invariant Ahead(a, i) <= Ahead(a, b) && Ahead(i, b) == Ahead(a, b) - Ahead(a, i)
          invariant forall j: Day :: days[j] == (old(days[j]) || Ahead(a, j) < Ahead(a, i))
          decreases Ahead(i, b)
        {
          days[i] := true;
          if i == b {
            break;
          }
          i := Next(i);
        }
      }
    } else {
      var idx := NameIndex(chunk);
      if idx >= 0 {
        days[idx] := true;
      }
    }
  }

  lemma OneMoreChunk(chunks: seq<string>, i: nat, j: Day)
    requires i < |chunks|
    ensures SomeChunkHolds(chunks[..i + 1], j) <==> SomeChunkHolds(chunks[..i], j) || ChunkHolds(Trim(JsSpace, chunks[i]), j)
  {
    var before, after := chunks[..i], chunks[..i + 1];
    assert after[i] == chunks[i];
    if k :| 0 <= k < |before| && ChunkHolds(Trim(JsSpace, before[k]), j) { assert after[k] == before[k]; }
    if k :| 0 <= k < |after| && ChunkHolds(Trim(JsSpace, after[k]), j) { assert k < i ==> before[k] == after[k]; }
  }

  method MarkSpec(spec: string, days: array<bool>)
    requires days.Length == 7 && forall j: Day :: !days[j]
    modifies days
    ensures forall j: Day :: days[j] == SpecHolds(spec, j)
  {
    if spec == "*" {
      for i := 0 to 7
        invariant forall j | 0 <= j < i :: days[j]
      {
        days[i] := true;
      }
    } else {
      var chunks := Split(spec, ',');
      for i := 0 to |chunks|
        invariant forall j: Day :: days[j] == SomeChunkHolds(chunks[..i], j)
      {
        forall j: Day
          ensures SomeChunkHolds(chunks[..i + 1], j) <==> SomeChunkHolds(chunks[..i], j) || ChunkHolds(Trim(JsSpace, chunks[i]), j)
        {
          OneMoreChunk(chunks, i, j);
        }
        MarkChunk(Trim(JsSpace, chunks[i]), days);
      }
      assert chunks[..|chunks|] == chunks;
    }
  }

  method ParseSchedule(text: string) returns (r: Option<Parsed>)
    ensures r == Parse(text)
  {
    var parts := Words(JsSpace, Trim(JsSpace, text));
    if |parts| < 1 {
      return None;
    }
    var m := RangeMatch(parts[0]);
    if m.None? {
      return None;
    }
    var days := new bool[7](_ => false);
    var spec := if |parts| > 1 then parts[1] else "*";
    MarkSpec(spec, days);
    assert days[..] == SpecDays(spec);
    return Some(Parsed(m.value.0, m.value.1, days[..]));
  }

  function BlocksForDay(p: Parsed, j: Day): seq<Block>
    requires |p.days| == 7
  {
    if !p.days[j] then []
    else if p.end > p.start then [Block(p.start, p.end)]
    else [Block(p.start, 24 * 60)]
  }

  /** The blocks of one day as both renderers draw them, with the tail of yesterday's window. */
  function DrawnBlocks(p: Parsed, j: Day): seq<Block>
    requires |p.days| == 7
  {
    BlocksForDay(p, j) + if p.end <= p.start && p.days[(j + 6) % 7] then [Block(0, p.end)] else []
  }

  predicate InBlock(b: Block, minute: int) { b.start <= minute < b.end }

  /** Minute `minute` of day `j` is painted. */
  predicate Drawn(p: Option<Parsed>, j: Day, minute: int)
    requires p.Some? ==> |p.value.days| == 7
  {
    p.Some? && exists i | 0 <= i < |DrawnBlocks(p.value, j)| :: InBlock(DrawnBlocks(p.value, j)[i], minute)
  }
}
