/** The index arithmetic of jamjam/jank.py: `_getitem`, which advances an
    iterator to a 1-based position, and `_slice`, which cuts the text
    between two (row, column) positions out of a list of lines, with rows
    1-based and columns 0-based and Python's indexing and slicing rules. */
module Jank {
  import opened Wrappers
  import opened Seqs

  function Max(a: int, b: int): int
  {
    if a < b then b else a
  }

  // ---------------------------------------------------------------------
  // _getitem
  // ---------------------------------------------------------------------

  /** `_getitem(it, i)`: take one element, then `i - 1` more; the last one
      taken is the result. Running out raises StopIteration. */
  method GetItem<T>(xs: seq<T>, i: int) returns (r: Result<T>)
    ensures |xs| >= Max(1, i) ==> r == Success(xs[Max(1, i) - 1])
    ensures |xs| < Max(1, i) ==> r == Failure(StopIteration)
  {
    var pos := 0;  // how many elements the iterator has yielded
    if pos == |xs| {
      return Failure(StopIteration);
    }
    var v := xs[pos];
    pos := pos + 1;
    var k := 1;
    while k < i
      invariant 1 <= k <= Max(1, i)
      invariant pos == k <= |xs| && v == xs[pos - 1]
    {
      if pos == |xs| {
        return Failure(StopIteration);
      }
      v := xs[pos];
      pos := pos + 1;
      k := k + 1;
    }
    return Success(v);
  }

  // ---------------------------------------------------------------------
  // Python indexing and slicing
  // ---------------------------------------------------------------------

  /** A slice bound as Python adjusts it: a negative bound counts from the
      end, and the result is clamped into [0, len]. */
  function SliceBound(k: int, len: nat): (b: nat)
    ensures b <= len
    ensures 0 <= k <= len ==> b == k
    ensures k < 0 <= k + len ==> b == k + len
    ensures k + len < 0 ==> b == 0
    ensures len < k ==> b == len
  {
    if k < 0 then Max(k + len, 0) else if k > len then len else k
  }

  /** `s[start:stop]`. */
  function PySlice<T>(s: seq<T>, start: int, stop: int): (r: seq<T>)
    ensures |r| <= |s|
    ensures 0 <= start <= stop <= |s| ==> r == s[start..stop]
    ensures stop <= start && 0 <= stop ==> r == []
  {
    var a, b := SliceBound(start, |s|), SliceBound(stop, |s|);
    if b <= a then [] else s[a..b]
  }

  /** `s[k:]`. */
  function PySliceFrom<T>(s: seq<T>, k: int): (r: seq<T>)
    ensures 0 <= k <= |s| ==> r == s[k..]
    ensures |s| <= k ==> r == []
  {
    PySlice(s, k, |s|)
  }

  /** `s[:k]`. */
  function PySliceTo<T>(s: seq<T>, k: int): (r: seq<T>)
    ensures 0 <= k <= |s| ==> r == s[..k]
    ensures k <= -|s| ==> r == []
  {
    PySlice(s, 0, k)
  }

  /** `s[k]`: a negative index counts from the end; anything else out of
      range raises IndexError. */
  function PyIndex<T>(s: seq<T>, k: int): (r: Result<T>)
    ensures 0 <= k < |s| ==> r == Success(s[k])
    ensures -|s| <= k < 0 ==> r == Success(s[|s| + k])
    ensures r.Failure? <==> k < -|s| || |s| <= k
    ensures r.Failure? ==> r.error == IndexError
  {
    if 0 <= k < |s| then Success(s[k])
    else if -|s| <= k < 0 then Success(s[|s| + k])
    else Failure(IndexError)
  }

  // ---------------------------------------------------------------------
  // _slice
  // ---------------------------------------------------------------------

  /** `_slice(lines, (r1, c1), (r2, c2))`. On one row, that row's columns
      [c1, c2). Otherwise the rows r1..r2 are taken with a Python slice and
      unpacked into a first line, the middle and a last line, which fails
      with ValueError when fewer than two rows are selected. */
  function Slice(lines: seq<string>, r1: int, c1: int, r2: int, c2: int): (r: Result<seq<string>>)
  {
    if r1 == r2 then
      match PyIndex(lines, r1 - 1)
      case Success(line) => Success([PySlice(line, c1, c2)])
      case Failure(e) => Failure(e)
    else
      var rows := PySlice(lines, r1 - 1, r2);
      if |rows| < 2 then Failure(ValueError)
      else
        var line1, mid, line2 := rows[0], rows[1..|rows| - 1], rows[|rows| - 1];
        Success([PySliceFrom(line1, c1)] + mid + [PySliceTo(line2, c2)])
  }

  /** On one row inside the text, the result is that row's columns. */
  lemma SliceOneRow(lines: seq<string>, r: int, c1: int, c2: int)
    requires 1 <= r <= |lines| && 0 <= c1 <= c2 <= |lines[r - 1]|
    ensures Slice(lines, r, c1, r, c2) == Success([lines[r - 1][c1..c2]])
  {
  }

  /** Row 0 names the last line: Python's negative index wraps around. */
  lemma SliceRowZeroWraps(lines: seq<string>, c1: int, c2: int)
    requires lines != []
    ensures Slice(lines, 0, c1, 0, c2) == Success([PySlice(lines[|lines| - 1], c1, c2)])
  {
  }

  /** A single row past the text raises IndexError. */
  lemma SliceRowPastEnd(lines: seq<string>, r: int, c1: int, c2: int)
    requires r > |lines|
    ensures Slice(lines, r, c1, r, c2) == Failure(IndexError)
  {
  }

  /** Rows r1 < r2 inside the text give r2 - r1 + 1 strings: row r1 from
      column c1, the rows between whole, and row r2 up to column c2. */
  lemma SliceRows(lines: seq<string>, r1: int, c1: int, r2: int, c2: int)
    requires 1 <= r1 < r2 <= |lines|
    ensures Slice(lines, r1, c1, r2, c2).Success?
    ensures var out := Slice(lines, r1, c1, r2, c2).value;
      && |out| == r2 - r1 + 1
      && out[0] == PySliceFrom(lines[r1 - 1], c1)
      && (forall k :: 0 < k < r2 - r1 ==> out[k] == lines[r1 - 1 + k])
      && out[r2 - r1] == PySliceTo(lines[r2 - 1], c2)
  {
    var rows := lines[r1 - 1..r2];
    assert PySlice(lines, r1 - 1, r2) == rows;
  }

  /** A backwards row range with a non-negative end selects no row, so it
      cannot be unpacked and raises ValueError. */
  lemma SliceBackwards(lines: seq<string>, r1: int, c1: int, r2: int, c2: int)
    requires 0 <= r2 < r1
    ensures Slice(lines, r1, c1, r2, c2) == Failure(ValueError)
  {
  }

  /** Cutting a slice between positions inside the text out of its rows
      leaves what comes before column c1 of row r1 and what comes from
      column c2 of row r2 on: joined back together, the slice is exactly
      the text between the two positions. */
  lemma SliceIsTextBetween(lines: seq<string>, r1: int, c1: int, r2: int, c2: int)
    requires 1 <= r1 <= r2 <= |lines|
    requires 0 <= c1 <= |lines[r1 - 1]| && 0 <= c2 <= |lines[r2 - 1]|
    requires r1 == r2 ==> c1 <= c2
    ensures Slice(lines, r1, c1, r2, c2).Success?
    ensures Concat(lines[r1 - 1..r2])
      == lines[r1 - 1][..c1] + Concat(Slice(lines, r1, c1, r2, c2).value) + lines[r2 - 1][c2..]
  {
    if r1 == r2 {
      SliceOneRowBetween(lines[r1 - 1], c1, c2);
      assert lines[r1 - 1..r2] == [lines[r1 - 1]];
    } else {
      SliceRowsBetween(lines, r1, c1, r2, c2);
    }
  }

  lemma SliceOneRowBetween(line: string, c1: nat, c2: nat)
    requires c1 <= c2 <= |line|
    ensures Concat([line]) == line[..c1] + Concat([line[c1..c2]]) + line[c2..]
  {
    ConcatSnoc([], line);
    ConcatSnoc([], line[c1..c2]);
    assert line == line[..c1] + line[c1..c2] + line[c2..];
  }

  lemma SliceRowsBetween(lines: seq<string>, r1: int, c1: int, r2: int, c2: int)
    requires 1 <= r1 < r2 <= |lines|
    requires 0 <= c1 <= |lines[r1 - 1]| && 0 <= c2 <= |lines[r2 - 1]|
    ensures Slice(lines, r1, c1, r2, c2).Success?
    ensures Concat(lines[r1 - 1..r2])
      == lines[r1 - 1][..c1] + Concat(Slice(lines, r1, c1, r2, c2).value) + lines[r2 - 1][c2..]
  {
    var first, last := lines[r1 - 1], lines[r2 - 1];
    SliceRows(lines, r1, c1, r2, c2);
    var out := Slice(lines, r1, c1, r2, c2).value;
    var mid := lines[r1..r2 - 1];
    assert lines[r1 - 1..r2] == [first] + mid + [last];
    assert out == [first[c1..]] + mid + [last[..c2]];
    ConcatFrame(first, mid, last);
    ConcatFrame(first[c1..], mid, last[..c2]);
    Reassemble(first, Concat(mid), last, c1, c2);
  }

  lemma ConcatFrame(first: string, mid: seq<string>, last: string)
    ensures Concat([first] + mid + [last]) == first + Concat(mid) + last
  {
    ConcatSnoc([first] + mid, last);
    ConcatCons(first, mid);
  }

  lemma Reassemble(first: string, m: string, last: string, c1: nat, c2: nat)
    requires c1 <= |first| && c2 <= |last|
    ensures first + m + last == first[..c1] + (first[c1..] + m + last[..c2]) + last[c2..]
  {
    assert first == first[..c1] + first[c1..];
    assert last == last[..c2] + last[c2..];
  }
}
