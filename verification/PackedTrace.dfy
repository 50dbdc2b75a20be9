/**
 The packed covariance matrix: written and restored by internal/coupling/persistence.go, and
 summed along its diagonal by cmd/ventd-soak/main.go. A float64 is its 64-bit pattern here.
 */
module PackedTrace {
  import opened Common

  /** A d×d matrix, read above its diagonal only. */
  type Matrix = (int, int) -> bv64

  // ---------------------------------------------------------------- the layout

  /** Entries from the diagonal to the end of row i, row after row. */
  function Rows(p: Matrix, d: nat, i: nat): (ws: seq<bv64>)
    requires i <= d
    decreases d - i
  {
    if i == d then [] else Row(p, d, i) + Rows(p, d, i + 1)
  }

  function Row(p: Matrix, d: nat, i: nat): (ws: seq<bv64>)
    requires i <= d
    ensures |ws| == d - i && forall k | 0 <= k < d - i :: ws[k] == p(i, i + k)
  {
    seq(d - i, k requires 0 <= k < d - i => p(i, i + k))
  }

  /** Byte k of a word, least significant first. */
  function ByteOf(w: bv64, k: int): bv8
    requires 0 <= k < 8
  {
    if k == 0 then (w & 0xFF) as bv8
    else if k == 1 then ((w >> 8) & 0xFF) as bv8
    else if k == 2 then ((w >> 16) & 0xFF) as bv8
    else if k == 3 then ((w >> 24) & 0xFF) as bv8
    else if k == 4 then ((w >> 32) & 0xFF) as bv8
    else if k == 5 then ((w >> 40) & 0xFF) as bv8
    else if k == 6 then ((w >> 48) & 0xFF) as bv8
    else ((w >> 56) & 0xFF) as bv8
  }

  function Assemble(b0: bv8, b1: bv8, b2: bv8, b3: bv8, b4: bv8, b5: bv8, b6: bv8, b7: bv8): bv64 {
    (b0 as bv64) | ((b1 as bv64) << 8) | ((b2 as bv64) << 16) | ((b3 as bv64) << 24)
    | ((b4 as bv64) << 32) | ((b5 as bv64) << 40) | ((b6 as bv64) << 48) | ((b7 as bv64) << 56)
  }

  lemma AssembleBytes(w: bv64)
    ensures Assemble(ByteOf(w, 0), ByteOf(w, 1), ByteOf(w, 2), ByteOf(w, 3), ByteOf(w, 4), ByteOf(w, 5), ByteOf(w, 6), ByteOf(w, 7)) == w
  {
  }

  function WordBytes(w: bv64): (b: seq<bv8>)
    ensures |b| == 8
  {
    [ByteOf(w, 0), ByteOf(w, 1), ByteOf(w, 2), ByteOf(w, 3), ByteOf(w, 4), ByteOf(w, 5), ByteOf(w, 6), ByteOf(w, 7)]
  }

  /** Little-endian: the first byte is the word modulo 256, and the others are those of the word divided by 256. */
  lemma WordBytesAreLittleEndian(w: bv64)
    ensures WordBytes(w)[0] as bv64 == w % 256
    ensures WordBytes(w)[1..] + [0] == WordBytes(w / 256)
  {
    assert w % 256 == w & 0xFF && w / 256 == w >> 8;
  }

  function Bytes(ws: seq<bv64>): (b: seq<bv8>)
    ensures |b| == 8 * |ws|
  {
    if ws == [] then [] else WordBytes(ws[0]) + Bytes(ws[1..])
  }

  /** The word stored at byte offset `off`, least significant byte first. */
  function WordAt(raw: seq<bv8>, off: int): bv64
    requires 0 <= off && off + 8 <= |raw|
  {
    Assemble(raw[off], raw[off + 1], raw[off + 2], raw[off + 3], raw[off + 4], raw[off + 5], raw[off + 6], raw[off + 7])
  }

  /** The flat index of diagonal entry (i, i). */
  function Slot(d: int, i: int): int { i * d - i * (i - 1) / 2 }

  /** The number of stored entries. */
  function Entries(d: int): int { d * (d + 1) / 2 }

  lemma Triangle(i: int)
    ensures (i + 1) * i / 2 == i * (i - 1) / 2 + i
  {
    assert (i + 1) * i == i * (i - 1) + 2 * i;
  }

  lemma SlotStep(d: int, i: int)
    ensures Slot(d, i + 1) == Slot(d, i) + (d - i)
  {
    Triangle(i);
    assert (i + 1) * d == i * d + d;
  }

  lemma EvenTimes(a: int, b: int)
    requires a % 2 == 0
    ensures a * b % 2 == 0
  {
    var k := a / 2;
    assert a == 2 * k;
    assert a * b == 2 * (k * b);
  }

  lemma ProductIsEven(d: int)
    ensures d * (d - 1) % 2 == 0
  {
    if d % 2 == 0 { EvenTimes(d, d - 1); } else { EvenTimes(d - 1, d); }
  }

  lemma SlotEnds(d: int)
    ensures Slot(d, 0) == 0 && Slot(d, d) == Entries(d)
  {
    var t := d * (d - 1);
    ProductIsEven(d);
    Triangle(d);
    assert d * d == t + d;
  }

  lemma {:induction false} SlotGrows(d: int, i: int, k: int)
    requires 0 <= i <= k <= d
    ensures Slot(d, k) >= Slot(d, i) + (k - i)
    decreases k - i
  {
    if i < k {
      SlotStep(d, i);
      SlotGrows(d, i + 1, k);
    }
  }

  /** Entry (a, b), on or above the diagonal, is stored b - a places after its row's diagonal entry, inside the buffer. */
  lemma EntryInBounds(d: int, a: int, b: int)
    requires 0 <= a <= b < d
    ensures 0 <= Slot(d, a) + (b - a) < Entries(d)
  {
    SlotEnds(d);
    SlotGrows(d, 0, a);
    SlotStep(d, a);
    SlotGrows(d, a + 1, d);
  }

  lemma {:induction false} RowsHold(p: Matrix, d: nat, i: nat, a: nat, b: nat)
    requires i <= a <= b < d
    ensures |Rows(p, d, i)| == Slot(d, d) - Slot(d, i)
    ensures 0 <= Slot(d, a) - Slot(d, i) + (b - a) < |Rows(p, d, i)|
    ensures Rows(p, d, i)[Slot(d, a) - Slot(d, i) + (b - a)] == p(a, b)
    decreases d - i
  {
    SlotStep(d, i);
    RowsSize(p, d, i + 1);
    SlotGrows(d, i + 1, d);
    if i < a {
      RowsHold(p, d, i + 1, a, b);
    }
  }

  lemma {:induction false} RowsSize(p: Matrix, d: nat, i: nat)
    requires i <= d
    ensures |Rows(p, d, i)| == Slot(d, d) - Slot(d, i)
    decreases d - i
  {
    if i < d {
      SlotStep(d, i);
      RowsSize(p, d, i + 1);
    }
  }

  lemma {:induction false} BytesHold(ws: seq<bv64>, tail: seq<bv8>, k: nat)
    requires k < |ws|
    ensures WordAt(Bytes(ws) + tail, 8 * k) == ws[k]
  {
    var raw := Bytes(ws) + tail;
    if k == 0 {
      StoredWord(raw, 0, ws[0]);
    } else {
      var rest := Bytes(ws[1..]) + tail;
      BytesHold(ws[1..], tail, k - 1);
      assert raw == WordBytes(ws[0]) + rest;
      SameWord(raw, 8 * k, rest, 8 * (k - 1));
    }
  }

  lemma StoredWord(raw: seq<bv8>, off: int, w: bv64)
    requires 0 <= off && off + 8 <= |raw| && raw[off..off + 8] == WordBytes(w)
    ensures WordAt(raw, off) == w
  {
    SameWord(raw, off, WordBytes(w), 0);
    AssembleBytes(w);
  }

  lemma SameWord(r: seq<bv8>, i: int, s: seq<bv8>, j: int)
    requires 0 <= i && i + 8 <= |r| && 0 <= j && j + 8 <= |s|
    requires r[i..i + 8] == s[j..j + 8]
    ensures WordAt(r, i) == WordAt(s, j)
  {
    var x, y := r[i..i + 8], s[j..j + 8];
    assert x[0] == r[i] && x[1] == r[i + 1] && x[2] == r[i + 2] && x[3] == r[i + 3];
    assert x[4] == r[i + 4] && x[5] == r[i + 5] && x[6] == r[i + 6] && x[7] == r[i + 7];
    assert y[0] == s[j] && y[1] == s[j + 1] && y[2] == s[j + 2] && y[3] == s[j + 3];
    assert y[4] == s[j + 4] && y[5] == s[j + 5] && y[6] == s[j + 6] && y[7] == s[j + 7];
  }

  // ---------------------------------------------------------------- writing

  function Packed(p: Matrix, d: nat): seq<bv8> { Bytes(Rows(p, d, 0)) }

  /** Every entry on or above the diagonal is read back from its slot, whatever follows the packed matrix. */
  lemma PackedHolds(p: Matrix, d: nat, tail: seq<bv8>, a: nat, b: nat)
    requires a <= b < d
    ensures |Packed(p, d)| == 8 * Entries(d)
    ensures 0 <= 8 * (Slot(d, a) + (b - a)) && 8 * (Slot(d, a) + (b - a)) + 8 <= |Packed(p, d) + tail|
    ensures WordAt(Packed(p, d) + tail, 8 * (Slot(d, a) + (b - a))) == p(a, b)
  {
    var ws, k := Rows(p, d, 0), Slot(d, a) + (b - a);
    SlotEnds(d);
    EntryInBounds(d, a, b);
    RowsSize(p, d, 0);
    RowsHold(p, d, 0, a, b);
    assert ws[k] == p(a, b);
    BytesHold(ws, tail, k);
  }

  // ---------------------------------------------------------------- the trace

  function Trace(p: Matrix, d: int, value: bv64 -> real): real {
    if d <= 0 then 0.0 else Trace(p, d - 1, value) + value(p(d - 1, d - 1))
  }

  /** The sum of the first n diagonal slots of a buffer for dimension d. */
  function DiagonalSum(raw: seq<bv8>, d: int, n: nat, value: bv64 -> real): real
    requires n <= d && 8 * Entries(d) <= |raw|
  {
    if n == 0 then 0.0
    else
      EntryInBounds(d, n - 1, n - 1);
      DiagonalSum(raw, d, n - 1, value) + value(WordAt(raw, 8 * Slot(d, n - 1)))
  }

  method TraceFromSerialised(raw: seq<bv8>, d: int, value: bv64 -> real) returns (trace: real)
    ensures trace == if d <= 0 || |raw| < 8 * Entries(d) then 0.0 else DiagonalSum(raw, d, d, value)
  {
    var expectedLen := d * (d + 1) / 2 * 8;
    if |raw| < expectedLen {
      return 0.0;
    }
    trace := 0.0;
    var i := 0;
    while i < d
      invariant 0 <= i && (d > 0 ==> i <= d)
      invariant d <= 0 ==> trace == 0.0
      invariant d > 0 ==> trace == DiagonalSum(raw, d, i, value)
    {
      EntryInBounds(d, i, i);
      var idx := i * d - i * (i - 1) / 2;
      var off := idx * 8;
      var bits := Assemble(raw[off], raw[off + 1], raw[off + 2], raw[off + 3], raw[off + 4], raw[off + 5], raw[off + 6], raw[off + 7]);
      trace := trace + value(bits);
      i := i + 1;
    }
  }

  lemma DiagonalWord(p: Matrix, d: nat, raw: seq<bv8>, tail: seq<bv8>, k: nat)
    requires k < d && raw == Packed(p, d) + tail
    ensures 0 <= 8 * Slot(d, k) && 8 * Slot(d, k) + 8 <= |raw| && WordAt(raw, 8 * Slot(d, k)) == p(k, k)
  {
    PackedHolds(p, d, tail, k, k);
  }

  lemma {:induction false} DiagonalSumOfPacked(p: Matrix, d: nat, raw: seq<bv8>, tail: seq<bv8>, n: nat, value: bv64 -> real)
    requires n <= d && raw == Packed(p, d) + tail && 8 * Entries(d) <= |raw|
    ensures DiagonalSum(raw, d, n, value) == Trace(p, n, value)
  {
    if n > 0 {
      DiagonalSumOfPacked(p, d, raw, tail, n - 1, value);
      DiagonalWord(p, d, raw, tail, n - 1);
    }
  }

  /** Summing the diagonal slots of a packed matrix, for every dimension and every matrix, gives its trace. */
  lemma PackedTraceIsTrace(p: Matrix, d: nat, tail: seq<bv8>, value: bv64 -> real)
    ensures 8 * Entries(d) <= |Packed(p, d) + tail|
    ensures DiagonalSum(Packed(p, d) + tail, d, d, value) == Trace(p, d, value)
  {
    RowsSize(p, d, 0);
    SlotEnds(d);
    DiagonalSumOfPacked(p, d, Packed(p, d) + tail, tail, d, value);
  }

  // ---------------------------------------------------------------- the writer and the reader

  lemma {:induction false} BytesAppend(ws: seq<bv64>, w: bv64)
    ensures Bytes(ws + [w]) == Bytes(ws) + WordBytes(w)
  {
    if ws == [] {
      assert [w][1..] == [];
      assert Bytes([w]) == WordBytes(w) + Bytes([]);
    } else {
      BytesAppend(ws[1..], w);
      assert (ws + [w])[1..] == ws[1..] + [w];
      ConcatAssociates(WordBytes(ws[0]), Bytes(ws[1..]), WordBytes(w));
    }
  }

  lemma NextEntry(p: Matrix, d: nat, i: nat, j: nat)
    requires i <= j < d
    ensures var ws, idx := Rows(p, d, 0), Slot(d, i) + (j - i);
            |ws| == Entries(d) && 0 <= idx < |ws| && ws[idx] == p(i, j)
  {
    SlotEnds(d);
    RowsHold(p, d, 0, i, j);
  }

  /** The first `idx` words are in place. */
  ghost predicate Written(out: seq<bv8>, ws: seq<bv64>, idx: int) {
    0 <= idx <= |ws| && |out| == 8 * |ws| && out[..8 * idx] == Bytes(ws[..idx])
  }

  lemma OneMoreWord(before: seq<bv8>, after: seq<bv8>, ws: seq<bv64>, idx: nat)
    requires idx < |ws| && Written(before, ws, idx) && |after| == |before|
    requires after[..8 * idx] == before[..8 * idx] && after[8 * idx..8 * idx + 8] == WordBytes(ws[idx])
    ensures Written(after, ws, idx + 1)
  {
    BytesAppend(ws[..idx], ws[idx]);
    assert ws[..idx + 1] == ws[..idx] + [ws[idx]];
    assert after[..8 * (idx + 1)] == after[..8 * idx] + after[8 * idx..8 * idx + 8];
  }

  method PutBytes(out: array<bv8>, off: int, b: seq<bv8>)
    requires |b| == 8 && 0 <= off && off + 8 <= out.Length
    modifies out
    ensures out[..off] == old(out[..off]) && out[off..off + 8] == b && out[off + 8..] == old(out[off + 8..])
  {
    for k := 0 to 8
      invariant out[..off] == old(out[..off]) && out[off..off + k] == b[..k] && out[off + k..] == old(out[off + k..])
    {
      out[off + k] := b[k];
    }
  }

  /** `ws` are all the words to be written. */
  method PutWord(out: array<bv8>, idx: nat, w: bv64, ghost ws: seq<bv64>)
    requires Written(out[..], ws, idx) && idx < |ws| && w == ws[idx]
    modifies out
    ensures Written(out[..], ws, idx + 1)
  {
    ghost var before := out[..];
    PutBytes(out, 8 * idx, WordBytes(w));
    OneMoreWord(before, out[..], ws, idx);
  }

  method SerialiseSymDense(p: Matrix, d: nat) returns (out: array<bv8>)
    ensures fresh(out) && out[..] == Packed(p, d)
  {
    ghost var ws := Rows(p, d, 0);
    RowsSize(p, d, 0);
    SlotEnds(d);
    out := new bv8[d * (d + 1) / 2 * 8];
    var idx := 0;
    assert out[..0] == [] && ws[..0] == [];
    for i := 0 to d
      invariant idx == Slot(d, i) && Written(out[..], ws, idx)
    {
      SlotStep(d, i);
      for j := i to d
        invariant idx == Slot(d, i) + (j - i) && Written(out[..], ws, idx)
      {
        NextEntry(p, d, i, j);
        PutWord(out, idx, p(i, j), ws);
        idx := idx + 1;
      }
    }
    AllWritten(out[..], ws, idx);
  }

  lemma AllWritten(out: seq<bv8>, ws: seq<bv64>, idx: int)
    requires Written(out, ws, idx) && idx == |ws|
    ensures out == Bytes(ws)
  {
    assert ws[..idx] == ws && out[..8 * idx] == out;
  }

  /** A symmetric matrix's entry (i, j), wherever it lies. */
  function Upper(i: int, j: int, d: int): int { if i <= j then Slot(d, i) + (j - i) else Slot(d, j) + (i - j) }

  method DeserialiseSymDense(buf: seq<bv8>, dst: array2<bv64>, d: nat) returns (ok: bool)
    requires dst.Length0 == dst.Length1 == d
    modifies dst
    ensures ok == (|buf| == 8 * Entries(d))
    ensures ok ==> forall i, j | 0 <= i < d && 0 <= j < d ::
                     0 <= 8 * Upper(i, j, d) && 8 * Upper(i, j, d) + 8 <= |buf| && dst[i, j] == WordAt(buf, 8 * Upper(i, j, d))
    ensures !ok ==> forall i, j | 0 <= i < d && 0 <= j < d :: dst[i, j] == old(dst[i, j])
  {
    var expected := d * (d + 1) / 2 * 8;
    if |buf| != expected {
      return false;
    }
    SlotEnds(d);
    UpperInBounds(d);
    var idx := 0;
    for i := 0 to d
      invariant idx == Slot(d, i)
      invariant forall a, b | 0 <= a < d && 0 <= b < d && (a < i || b < i) :: dst[a, b] == WordAt(buf, 8 * Upper(a, b, d))
    {
      SlotStep(d, i);
      for j := i to d
        invariant idx == Slot(d, i) + (j - i)
        invariant forall a, b | 0 <= a < d && 0 <= b < d && (a < i || b < i || (a == i && b < j) || (b == i && a < j)) ::
                    dst[a, b] == WordAt(buf, 8 * Upper(a, b, d))
      {
        assert idx == Upper(i, j, d) == Upper(j, i, d);
        var bits := WordAt(buf, idx * 8);
        dst[i, j] := bits;
        dst[j, i] := bits;
        idx := idx + 1;
      }
    }
    return true;
  }

  lemma UpperInBounds(d: int)
    ensures forall a, b | 0 <= a < d && 0 <= b < d :: 0 <= Upper(a, b, d) < Entries(d)
  {
    forall a, b | 0 <= a < d && 0 <= b < d ensures 0 <= Upper(a, b, d) < Entries(d) {
      if a <= b { EntryInBounds(d, a, b); } else { EntryInBounds(d, b, a); }
    }
  }

  /** What the reader restores from what the writer packed is the symmetric matrix itself. */
  lemma RestoredMatrixIsSaved(p: Matrix, d: nat, i: nat, j: nat)
    requires i < d && j < d && p(i, j) == p(j, i)
    ensures |Packed(p, d)| == 8 * Entries(d)
    ensures 0 <= 8 * Upper(i, j, d) && 8 * Upper(i, j, d) + 8 <= |Packed(p, d)|
    ensures WordAt(Packed(p, d), 8 * Upper(i, j, d)) == p(i, j)
  {
    assert Packed(p, d) + [] == Packed(p, d);
    if i <= j { PackedHolds(p, d, [], i, j); } else { PackedHolds(p, d, [], j, i); }
  }
}
