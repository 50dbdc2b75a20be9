/**
 How the daemon and the browser cut a schedule text into words. U+0085 is white space to the daemon
 only, U+FEFF to the browser only.
 */
module ScheduleWords {
  import opened Common
  import opened GoStrings
  import Web = WebSchedule

  /** The text has neither U+0085 nor U+FEFF, on which alone the two languages' white space differs. */
  predicate CommonSpaces(text: string) { forall i | 0 <= i < |text| :: text[i] as int != 0x85 && text[i] as int != 0xFEFF }

  lemma {:induction false} TrimsAgree(s: string)
    requires CommonSpaces(s)
    ensures Trim(Web.JsSpace, s) == Trim(IsSpace, s)
  {
    TrimLeftsAgree(s);
    TrimRightsAgree(TrimLeft(IsSpace, s));
  }

  lemma {:induction false} TrimLeftsAgree(s: string)
    requires CommonSpaces(s)
    ensures TrimLeft(Web.JsSpace, s) == TrimLeft(IsSpace, s) && CommonSpaces(TrimLeft(IsSpace, s))
  {
    if s != "" { TrimLeftsAgree(s[1..]); }
  }

  lemma {:induction false} TrimRightsAgree(s: string)
    requires CommonSpaces(s)
    ensures TrimRight(Web.JsSpace, s) == TrimRight(IsSpace, s) && CommonSpaces(TrimRight(IsSpace, s))
  {
    if s != "" { TrimRightsAgree(s[..|s| - 1]); }
  }

  lemma {:induction false} WordLengthsAgree(s: string)
    requires CommonSpaces(s)
    ensures WordLength(Web.JsSpace, s) == WordLength(IsSpace, s)
  {
    if s != "" { WordLengthsAgree(s[1..]); }
  }

  lemma {:induction false} WordsAgree(s: string)
    requires CommonSpaces(s)
    ensures Words(Web.JsSpace, s) == Fields(s)
    ensures forall w | w in Fields(s) :: SpaceFree(w)
    decreases |s|
  {
    TrimLeftsAgree(s);
    var t := TrimLeft(IsSpace, s);
    if t != "" {
      WordLengthsAgree(t);
      var n := WordLength(IsSpace, t);
      WordsAgree(t[n..]);
      assert SpaceFree(t[..n]);
    }
  }

  predicate SpaceFree(s: string) { forall i | 0 <= i < |s| :: !IsSpace(s[i]) && !Web.JsSpace(s[i]) }

  lemma SpaceFreeTrims(s: string)
    requires SpaceFree(s)
    ensures Trim(IsSpace, s) == s && Trim(Web.JsSpace, s) == s
  {
    if s != "" {
      TrimKeeps(IsSpace, s);
      TrimKeeps(Web.JsSpace, s);
    }
  }

  // ---------------------------------------------------------------- any accepted text

  const NEL: char := 0x85 as char

  predicate NoBom(s: string) { forall i | 0 <= i < |s| :: s[i] as int != 0xFEFF }

  predicate JsFree(s: string) { forall i | 0 <= i < |s| :: !Web.JsSpace(s[i]) }

  lemma {:induction false} AllSpaceTrims(s: string)
    requires AllSpace(s)
    ensures TrimLeft(IsSpace, s) == "" && Fields(s) == []
  {
    if s != "" { AllSpaceTrims(s[1..]); }
  }

  lemma {:induction false} TrimLeftOver(a: string, b: string)
    ensures TrimLeft(IsSpace, a + b) == if TrimLeft(IsSpace, a) == "" then TrimLeft(IsSpace, b) else TrimLeft(IsSpace, a) + b
  {
    if a == "" {
      assert a + b == b;
    } else if IsSpace(a[0]) {
      assert (a + b)[1..] == a[1..] + b;
      TrimLeftOver(a[1..], b);
    }
  }

  lemma {:induction false} WordLengthOver(a: string, b: string)
    requires b == "" || IsSpace(b[0])
    ensures WordLength(IsSpace, a + b) == WordLength(IsSpace, a)
  {
    if a == "" {
      assert a + b == b;
    } else {
      assert (a + b)[1..] == a[1..] + b;
      WordLengthOver(a[1..], b);
    }
  }

  /** No word crosses a space. */
  lemma {:induction false} FieldsConcat(a: string, b: string)
    requires b == "" || IsSpace(b[0])
    ensures Fields(a + b) == Fields(a) + Fields(b)
    decreases |a|
  {
    var t := TrimLeft(IsSpace, a);
    TrimLeftOver(a, b);
    if t == "" {
      assert Fields(a) == [];
      assert Fields(a + b) == Fields(b);
    } else {
      var n := WordLength(IsSpace, t);
      WordLengthOver(t, b);
      Cut(t, b, n);
      FieldsConcat(t[n..], b);
      assert Fields(a + b) == [t[..n]] + Fields(t[n..] + b);
    }
  }

  lemma Cut(t: string, b: string, n: nat)
    requires n <= |t|
    ensures (t + b)[..n] == t[..n] && (t + b)[n..] == t[n..] + b
  {
  }

  /** Trimming what the daemon takes for spaces changes no word. */
  lemma {:induction false} FieldsOfTrimLeft(space: char -> bool, s: string)
    requires forall i | 0 <= i < |s| && space(s[i]) :: IsSpace(s[i])
    ensures Fields(TrimLeft(space, s)) == Fields(s)
  {
    if s != "" && space(s[0]) {
      FieldsOfTrimLeft(space, s[1..]);
      assert TrimLeft(IsSpace, s) == TrimLeft(IsSpace, s[1..]);
    }
  }

  lemma {:induction false} FieldsOfTrimRight(space: char -> bool, s: string)
    requires forall i | 0 <= i < |s| && space(s[i]) :: IsSpace(s[i])
    ensures Fields(TrimRight(space, s)) == Fields(s)
  {
    if s != "" && space(s[|s| - 1]) {
      var n := |s| - 1;
      FieldsOfTrimRight(space, s[..n]);
      FieldsConcat(s[..n], [s[n]]);
      AllSpaceTrims([s[n]]);
      assert s == s[..n] + [s[n]];
    }
  }

  lemma {:induction false} TrimLeftIsSuffix(space: char -> bool, s: string) returns (k: nat)
    ensures k <= |s| && TrimLeft(space, s) == s[k..] && forall i | 0 <= i < k :: space(s[i])
  {
    k := 0;
    if s != "" && space(s[0]) {
      var m := TrimLeftIsSuffix(space, s[1..]);
      k := m + 1;
      assert s[1..][m..] == s[k..];
      forall i | 0 <= i < k ensures space(s[i]) { assert i > 0 ==> s[1..][i - 1] == s[i]; }
    }
  }

  lemma FieldsOfTrim(space: char -> bool, s: string)
    requires forall i | 0 <= i < |s| && space(s[i]) :: IsSpace(s[i])
    ensures Fields(Trim(space, s)) == Fields(s)
  {
    FieldsOfTrimLeft(space, s);
    var k := TrimLeftIsSuffix(space, s);
    FieldsOfTrimRight(space, TrimLeft(space, s));
  }

  lemma {:induction false} TrimRightIsPrefix(space: char -> bool, s: string)
    ensures |TrimRight(space, s)| <= |s| && TrimRight(space, s) == s[..|TrimRight(space, s)|]
  {
    if s != "" && space(s[|s| - 1]) { TrimRightIsPrefix(space, s[..|s| - 1]); }
  }

  lemma NoBomTrim(space: char -> bool, s: string)
    requires NoBom(s)
    ensures NoBom(Trim(space, s))
  {
    var k := TrimLeftIsSuffix(space, s);
    TrimRightIsPrefix(space, TrimLeft(space, s));
  }

  /** A text whose words have no U+FEFF has none. */
  lemma {:induction false} FieldsKeepBom(s: string)
    requires forall w | w in Fields(s) :: NoBom(w)
    ensures NoBom(s)
    decreases |s|
  {
    var t := TrimLeft(IsSpace, s);
    var k := TrimLeftIsSuffix(IsSpace, s);
    if t != "" {
      var n := WordLength(IsSpace, t);
      assert Fields(s) == [t[..n]] + Fields(t[n..]);
      assert t[..n] in Fields(s);
      FieldsKeepBom(t[n..]);
      assert t == t[..n] + t[n..];
    }
    assert forall i | k <= i < |s| :: s[i] == t[i - k];
  }

  lemma JsSpacesAreSpaces(s: string)
    requires NoBom(s)
    ensures forall i | 0 <= i < |s| :: Web.JsSpace(s[i]) <==> IsSpace(s[i]) && s[i] != NEL
  {
  }

  /** The browser's first word, and what the daemon sees in it and after it. */
  lemma JsWord(s: string) returns (rest: string)
    requires NoBom(s) && Fields(s) != []
    ensures var ws := Words(Web.JsSpace, s);
            && ws != [] && ws[0] != "" && JsFree(ws[0]) && NoBom(ws[0])
            && ws == [ws[0]] + Words(Web.JsSpace, rest) && NoBom(rest)
            && Fields(s) == Fields(ws[0]) + Fields(rest)
  {
    JsSpacesAreSpaces(s);
    FieldsOfTrimLeft(Web.JsSpace, s);
    var t := TrimLeft(Web.JsSpace, s);
    var k := TrimLeftIsSuffix(Web.JsSpace, s);
    if t == "" { AllSpaceTrims(""); }
    var n := WordLength(Web.JsSpace, t);
    rest := t[n..];
    JsSpacesAreSpaces(t);
    FieldsConcat(t[..n], rest);
    assert t == t[..n] + rest;
    assert Words(Web.JsSpace, s) == [t[..n]] + Words(Web.JsSpace, rest);
  }

  /** A word without U+0085 is one word to both. */
  lemma CleanWord(w: string)
    requires w != "" && JsFree(w) && NoBom(w) && NEL !in w
    ensures SpaceFree(w) && Fields(w) == [w]
  {
    JsSpacesAreSpaces(w);
    AllSpaceTrims("");
    assert WordLength(IsSpace, w) == |w|;
    assert w[..|w|] == w && w[|w|..] == "";
  }

  /** What surrounds the only word of a text is white space. */
  lemma OnlyWord(s: string, d: string) returns (x: string, y: string)
    requires Fields(s) == [d]
    ensures s == x + d + y && AllSpace(x) && AllSpace(y)
  {
    var k := TrimLeftIsSuffix(IsSpace, s);
    var t := TrimLeft(IsSpace, s);
    var n := WordLength(IsSpace, t);
    x, y := s[..k], t[n..];
    assert Fields(s) == [t[..n]] + Fields(y);
    OneInAll(d, t[..n], Fields(y));
    NoWordsAllSpace(y);
    ThreeParts(s, k, n);
  }

  lemma ThreeParts(s: string, k: nat, n: nat)
    requires k <= |s| && n <= |s[k..]|
    ensures s == s[..k] + s[k..][..n] + s[k..][n..]
  {
  }

  lemma OneInAll(d: string, w: string, rest: seq<string>)
    requires [d] == [w] + rest
    ensures d == w && rest == []
  {
    assert ([w] + rest)[0] == w && |[w] + rest| == 1 + |rest|;
  }

  lemma NoWordsAllSpace(s: string)
    requires Fields(s) == []
    ensures AllSpace(s)
  {
    var k := TrimLeftIsSuffix(IsSpace, s);
    assert s[k..] == "";
  }

  // ---------------------------------------------------------------- the pieces of a word with U+0085 around it

  lemma {:induction false} IndexBehind(x: string, s: string, sep: char)
    requires sep !in x
    ensures Index(x + s, sep) == if Index(s, sep) < 0 then -1 else |x| + Index(s, sep)
  {
    if x == "" {
      assert x + s == s;
    } else {
      IndexBehind(x[1..], s, sep);
      assert (x + s)[1..] == x[1..] + s;
    }
  }

  lemma {:induction false} IndexBefore(s: string, y: string, sep: char)
    requires sep !in y
    ensures Index(s + y, sep) == Index(s, sep)
  {
    if s == "" {
      assert s + y == y;
    } else {
      IndexBefore(s[1..], y, sep);
      assert (s + y)[1..] == s[1..] + y;
    }
  }

  /** `ps` with `x` put before its first piece. */
  function OnFirst(x: string, ps: seq<string>): seq<string>
    requires ps != []
  {
    [x + ps[0]] + ps[1..]
  }

  lemma OnFirstOfMore(x: string, a: string, rest: seq<string>)
    ensures OnFirst(x, [a] + rest) == [x + a] + rest && OnFirst(x, [a]) == [x + a]
  {
  }

  lemma SplitBehind(x: string, s: string, sep: char)
    requires sep !in x
    ensures Split(x + s, sep) == OnFirst(x, Split(s, sep))
  {
    var n := Index(s, sep);
    IndexBehind(x, s, sep);
    if n < 0 {
      OnFirstOfMore(x, s, []);
    } else {
      CutBehind(x, s, n);
      CutBehind(x, s, n + 1);
      SplitAt(x + s, x + s[..n], s[n + 1..], |x| + n, sep);
      OnFirstOfMore(x, s[..n], Split(s[n + 1..], sep));
    }
  }

  lemma CutBehind(x: string, s: string, n: nat)
    requires n <= |s|
    ensures (x + s)[..|x| + n] == x + s[..n] && (x + s)[|x| + n..] == s[n..]
  {
  }

  /** `ps` with `y` appended to its last piece. */
  function OnLast(ps: seq<string>, y: string): seq<string>
    requires ps != []
  {
    ps[..|ps| - 1] + [ps[|ps| - 1] + y]
  }

  lemma OnLastOfMore(a: string, rest: seq<string>, y: string)
    requires rest != []
    ensures OnLast([a] + rest, y) == [a] + OnLast(rest, y)
  {
  }

  lemma {:induction false} SplitBefore(s: string, y: string, sep: char)
    requires sep !in y
    ensures Split(s + y, sep) == OnLast(Split(s, sep), y)
    decreases |s|
  {
    var n := Index(s, sep);
    IndexBefore(s, y, sep);
    if n < 0 {
      assert [s][..0] == [];
    } else {
      var rest := s[n + 1..];
      SplitBefore(rest, y, sep);
      Cut(s, y, n);
      Cut(s, y, n + 1);
      SplitAt(s + y, s[..n], rest + y, n, sep);
      OnLastOfMore(s[..n], Split(rest, sep), y);
    }
  }

  lemma SplitAt(t: string, a: string, rest: string, n: nat, sep: char)
    requires n < |t| && Index(t, sep) == n && t[..n] == a && t[n + 1..] == rest
    ensures Split(t, sep) == [a] + Split(rest, sep)
  {
  }

  /** With white space around it, the pieces in the middle stay; the outer ones carry the space. */
  lemma SplitAround(x: string, s: string, y: string, sep: char)
    requires sep !in x && sep !in y
    ensures var ps, qs := Split(s, sep), Split(x + s + y, sep);
            |qs| == |ps| && forall k | 0 <= k < |ps| :: qs[k] == Around(ps, k, x, y)
  {
    var ps := Split(s, sep);
    SplitBehind(x, s, sep);
    SplitBefore(x + s, y, sep);
    PiecesAround(ps, x, y);
  }

  /** Piece k with what surrounds it. */
  function Around(ps: seq<string>, k: nat, x: string, y: string): string
    requires k < |ps|
  {
    (if k == 0 then x else "") + ps[k] + (if k == |ps| - 1 then y else "")
  }

  lemma PiecesAround(ps: seq<string>, x: string, y: string)
    requires ps != []
    ensures var qs := OnLast(OnFirst(x, ps), y);
            |qs| == |ps| && forall k | 0 <= k < |ps| :: qs[k] == Around(ps, k, x, y)
  {
    var qs := OnLast(OnFirst(x, ps), y);
    forall k | 0 <= k < |ps| ensures qs[k] == Around(ps, k, x, y) {
      var mid := (if k == 0 then x else "") + ps[k];
      assert OnFirst(x, ps)[k] == mid;
      assert mid + "" == mid;
    }
  }

  /** The browser's second word around or instead of the daemon's `d`: every piece of it without U+0085 is a piece of `d`. */
  ghost predicate PiecesOf(w: string, d: string) {
    forall p :: p in Split(w, ',') && NEL !in p ==> ',' in d && p in Split(d, ',')
  }

  lemma NelsOnly(x: string)
    requires AllSpace(x) && JsFree(x) && NoBom(x)
    ensures forall i | 0 <= i < |x| :: x[i] == NEL
    ensures ',' !in x
  {
    JsSpacesAreSpaces(x);
  }

  lemma AroundPieces(w: string, d: string)
    requires JsFree(w) && NoBom(w) && NEL in w && Fields(w) == [d] && NEL !in d
    ensures PiecesOf(w, d)
  {
    var x, y := OnlyWord(w, d);
    PartsClean(x, d, y, w);
    NelsOnly(x);
    NelsOnly(y);
    SplitAround(x, d, y, ',');
    var ps, qs := Split(d, ','), Split(w, ',');
    forall p | p in qs && NEL !in p ensures ',' in d && p in ps {
      var k :| 0 <= k < |qs| && qs[k] == p;
      MiddlePiece(x, y, ps, k);
      assert ',' !in d ==> ps == [d];
    }
  }

  lemma PartsClean(x: string, d: string, y: string, w: string)
    requires w == x + d + y && JsFree(w) && NoBom(w) && NEL in w && NEL !in d
    ensures JsFree(x) && JsFree(y) && NoBom(x) && NoBom(y) && (x != "" || y != "")
  {
    assert forall i | 0 <= i < |x| :: x[i] == w[i];
    assert forall i | 0 <= i < |y| :: y[i] == w[|x| + |d| + i];
    assert x == "" && y == "" ==> w == d;
  }

  /** A piece with no U+0085 carries none of `x` and `y`, so it is a whole piece among several. */
  lemma MiddlePiece(x: string, y: string, ps: seq<string>, k: nat)
    requires k < |ps| && NEL !in Around(ps, k, x, y) && (x != "" || y != "")
    requires (forall i | 0 <= i < |x| :: x[i] == NEL) && (forall i | 0 <= i < |y| :: y[i] == NEL)
    ensures Around(ps, k, x, y) == ps[k] && |ps| > 1
  {
    OuterNel(if k == 0 then x else "", ps[k], if k == |ps| - 1 then y else "");
    assert "" + ps[k] + "" == ps[k];
  }

  lemma OuterNel(x: string, m: string, y: string)
    requires (forall i | 0 <= i < |x| :: x[i] == NEL) && (forall i | 0 <= i < |y| :: y[i] == NEL)
    ensures NEL in x + m + y || (x == "" && y == "")
  {
    var p := x + m + y;
    assert x != "" ==> p[0] == x[0];
    assert y != "" ==> p[|p| - 1] == y[|y| - 1];
  }

  lemma NothingPieces(w: string, d: string)
    requires w != "" && JsFree(w) && NoBom(w) && Fields(w) == []
    ensures NEL in w && PiecesOf(w, d)
  {
    NoWordsAllSpace(w);
    NelsOnly(w);
    assert w[0] == NEL && Split(w, ',') == [w];
  }
}
