/** The parts of Go's strings and strconv packages the models need. */
module GoStrings {
  import opened Common

  /** unicode.IsSpace. */
  predicate IsSpace(c: char) {
    var n := c as int;
    || 9 <= n <= 13 || n == 32 || n == 0x85 || n == 0xA0 || n == 0x1680 || 0x2000 <= n <= 0x200A
    || n == 0x2028 || n == 0x2029 || n == 0x202F || n == 0x205F || n == 0x3000
  }

  predicate IsDigit(c: char) { '0' <= c <= '9' }

  predicate AllDigits(s: string) { forall i | 0 <= i < |s| :: IsDigit(s[i]) }

  function TrimLeft(space: char -> bool, s: string): (r: string)
    ensures r == "" || !space(r[0])
    ensures |r| <= |s|
  {
    if s != "" && space(s[0]) then TrimLeft(space, s[1..]) else s
  }

  function TrimRight(space: char -> bool, s: string): string {
    if s != "" && space(s[|s| - 1]) then TrimRight(space, s[..|s| - 1]) else s
  }

  function Trim(space: char -> bool, s: string): string { TrimRight(space, TrimLeft(space, s)) }

  lemma TrimKeeps(space: char -> bool, s: string)
    requires s != "" && !space(s[0]) && !space(s[|s| - 1])
    ensures Trim(space, s) == s
  {
  }

  predicate AllSpace(s: string) { forall i | 0 <= i < |s| :: IsSpace(s[i]) }

  /** The text neither starts nor ends with white space. */
  predicate NoEdgeSpace(m: string) { m == "" || (!IsSpace(m[0]) && !IsSpace(m[|m| - 1])) }

  lemma {:induction false} TrimLeftOf(x: string, s: string)
    requires AllSpace(x) && (s == "" || !IsSpace(s[0]))
    ensures TrimLeft(IsSpace, x + s) == s
  {
    if x == "" {
      assert x + s == s;
    } else {
      assert (x + s)[1..] == x[1..] + s;
      TrimLeftOf(x[1..], s);
    }
  }

  lemma {:induction false} TrimRightOf(s: string, y: string)
    requires AllSpace(y) && (s == "" || !IsSpace(s[|s| - 1]))
    ensures TrimRight(IsSpace, s + y) == s
  {
    if y == "" {
      assert s + y == s;
    } else {
      assert (s + y)[..|s + y| - 1] == s + y[..|y| - 1];
      TrimRightOf(s, y[..|y| - 1]);
    }
  }

  /** Trimming takes off exactly the white space around the text. */
  lemma TrimOf(x: string, m: string, y: string)
    requires AllSpace(x) && AllSpace(y) && m != "" && NoEdgeSpace(m)
    ensures TrimSpace(x + m + y) == m
  {
    assert x + m + y == x + (m + y);
    TrimLeftOf(x, m + y);
    TrimRightOf(m, y);
  }

  lemma {:induction false} TrimLeftParts(s: string) returns (x: string)
    ensures s == x + TrimLeft(IsSpace, s) && AllSpace(x)
  {
    x := "";
    if s != "" && IsSpace(s[0]) {
      var rest := TrimLeftParts(s[1..]);
      x := [s[0]] + rest;
    }
  }

  lemma {:induction false} TrimRightParts(s: string) returns (y: string)
    ensures s == TrimRight(IsSpace, s) + y && AllSpace(y)
    ensures TrimRight(IsSpace, s) == "" || !IsSpace(TrimRight(IsSpace, s)[|TrimRight(IsSpace, s)| - 1])
  {
    y := "";
    if s != "" && IsSpace(s[|s| - 1]) {
      var rest := TrimRightParts(s[..|s| - 1]);
      y := rest + [s[|s| - 1]];
    }
  }

  lemma TrimParts(s: string) returns (x: string, y: string)
    ensures s == x + TrimSpace(s) + y && AllSpace(x) && AllSpace(y) && NoEdgeSpace(TrimSpace(s))
  {
    x := TrimLeftParts(s);
    var t := TrimLeft(IsSpace, s);
    y := TrimRightParts(t);
    assert t == TrimSpace(s) + y;
    assert TrimSpace(s) != "" ==> TrimSpace(s)[0] == t[0];
  }

  function TrimSpace(s: string): string { Trim(IsSpace, s) }

  /** How many characters precede the first space. */
  function WordLength(space: char -> bool, s: string): (n: nat)
    ensures n <= |s| && (n < |s| ==> space(s[n]))
    ensures forall i | 0 <= i < n :: !space(s[i])
  {
    if s == "" || space(s[0]) then 0 else 1 + WordLength(space, s[1..])
  }

  /** The maximal runs of characters that are not spaces. */
  function Words(space: char -> bool, s: string): seq<string>
    decreases |s|
  {
    var t := TrimLeft(space, s);
    if t == "" then [] else
      var n := WordLength(space, t);
      [t[..n]] + Words(space, t[n..])
  }

  function Fields(s: string): seq<string> { Words(IsSpace, s) }

  /** strings.Index for one character. */
  function Index(s: string, c: char): (n: int)
    ensures -1 <= n < |s|
    ensures n >= 0 ==> s[n] == c && c !in s[..n]
    ensures n < 0 <==> c !in s
  {
    if s == "" then -1 else if s[0] == c then 0 else
      var n := Index(s[1..], c);
      if n < 0 then -1 else n + 1
  }

  function Split(s: string, sep: char): (parts: seq<string>)
    ensures parts != []
    decreases |s|
  {
    var n := Index(s, sep);
    if n < 0 then [s] else [s[..n]] + Split(s[n + 1..], sep)
  }

  /** unicode.ToLower, as far as it can produce an ASCII letter. */
  function LowerChar(c: char): char {
    if 'A' <= c <= 'Z' then (c as int + 32) as char
    else if c as int == 0x130 then 'i'
    else if c as int == 0x212A then 'k'
    else c
  }

  function ToLower(s: string): (r: string)
    ensures |r| == |s| && forall i | 0 <= i < |s| :: r[i] == LowerChar(s[i])
  {
    seq(|s|, i requires 0 <= i < |s| => LowerChar(s[i]))
  }

  function DigitValue(c: char): int
    requires IsDigit(c)
  {
    c as int - '0' as int
  }

  function Decimal(s: string): int
    requires AllDigits(s)
  {
    if s == "" then 0 else 10 * Decimal(s[..|s| - 1]) + DigitValue(s[|s| - 1])
  }

  /** strconv.Atoi, for texts too short to overflow. */
  function Atoi(s: string): Option<int> {
    var signed := s != "" && (s[0] == '+' || s[0] == '-');
    var digits := if signed then s[1..] else s;
    if digits == "" || !AllDigits(digits) then None
    else Some(if signed && s[0] == '-' then -Decimal(digits) else Decimal(digits))
  }
}
