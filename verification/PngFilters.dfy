/** The five PNG scanline filters (section 9 of ISO/IEC 15948), undone in place. */
module PngFilters {
  import opened Bytes

  function Abs(x: int): nat
  {
    if x < 0 then -x else x
  }

  /** Of left, above and above-left, the one the sum of gradients is nearest to. */
  function Paeth(a: byte, b: byte, c: byte): byte
  {
    var p := (a as int) + b - c;
    var pa, pb, pc := Abs(p - a), Abs(p - b), Abs(p - c);
    if pa <= pb && pa <= pc then a else if pb <= pc then b else c
  }

  /** Nearest to a + b - c, the first of a, b, c where two are as near. */
  lemma PaethNearest(a: byte, b: byte, c: byte)
    ensures var r, p := Paeth(a, b, c), (a as int) + b - c;
            && (r == a || r == b || r == c)
            && Abs(p - r) <= Abs(p - a) && Abs(p - r) <= Abs(p - b) && Abs(p - r) <= Abs(p - c)
            && (Abs(p - a) == Abs(p - r) ==> r == a)
            && (Abs(p - b) == Abs(p - r) && r != a ==> r == b)
  {
  }

  function Sum(x: byte, y: byte): byte
  {
    var s: int := x;
    (s + y) % 256
  }

  function Average(a: byte, b: byte): byte
  {
    var s: int := a;
    (s + b) / 2
  }

  /** Half the sum of the two neighbours, which may pass a byte, rounded down. */
  lemma AverageRounds(a: byte, b: byte)
    ensures var sum: int := a; sum + b == 2 * Average(a, b) || sum + b == 2 * Average(a, b) + 1
  {
  }

  lemma ZeroAdds(x: byte)
    ensures Sum(x, 0) == x
  {
  }

  /** What a filter takes a byte to be from its neighbours; nothing for type 0 or one not defined. */
  function Predict(f: byte, a: byte, b: byte, c: byte): byte
  {
    if f == 1 then a
    else if f == 2 then b
    else if f == 3 then Average(a, b)
    else if f == 4 then Paeth(a, b, c)
    else 0
  }

  /** The byte `bpp` before position `i`, or 0 in the first pixel. */
  function Before(row: seq<byte>, i: nat, bpp: nat): byte
    requires i <= |row| && bpp > 0
  {
    if i >= bpp then row[i - bpp] else 0
  }

  // ---------------------------------------------------------------- one row

  /** The first `n` bytes of a row with its filter undone. */
  function Unfiltered(f: byte, bpp: nat, raw: seq<byte>, prev: seq<byte>, n: nat): (row: seq<byte>)
    requires bpp > 0 && n <= |raw| == |prev|
    ensures |row| == n
  {
    if n == 0 then []
    else
      var row := Unfiltered(f, bpp, raw, prev, n - 1);
      row + [Sum(raw[n - 1], Predict(f, Before(row, n - 1, bpp), prev[n - 1], Before(prev, n - 1, bpp)))]
  }

  function Difference(x: byte, y: byte): byte
  {
    var d: int := x;
    (d - y) % 256
  }

  /** The filter's own direction: each byte less its prediction from the row itself. */
  function Filtered(f: byte, bpp: nat, row: seq<byte>, prev: seq<byte>, n: nat): (raw: seq<byte>)
    requires bpp > 0 && n <= |row| == |prev|
    ensures |raw| == n
  {
    if n == 0 then []
    else
      Filtered(f, bpp, row, prev, n - 1)
      + [Difference(row[n - 1], Predict(f, Before(row[..n - 1], n - 1, bpp), prev[n - 1], Before(prev, n - 1, bpp)))]
  }

  lemma SumBack(x: byte, y: byte)
    ensures Sum(Difference(x, y), y) == x && Difference(Sum(x, y), y) == x
  {
  }

  /** Undoing a filter gives back the row it was made from. */
  lemma {:induction false} UnfilterFiltered(f: byte, bpp: nat, row: seq<byte>, prev: seq<byte>, raw: seq<byte>, n: nat)
    requires bpp > 0 && n <= |row| == |prev| == |raw| && raw[..n] == Filtered(f, bpp, row, prev, n)
    ensures Unfiltered(f, bpp, raw, prev, n) == row[..n]
  {
    hide Predict, Difference, Sum;
    if n > 0 {
      assert raw[..n - 1] == raw[..n][..n - 1] == Filtered(f, bpp, row, prev, n - 1);
      UnfilterFiltered(f, bpp, row, prev, raw, n - 1);
      assert raw[n - 1] == raw[..n][n - 1];
      SumBack(row[n - 1], Predict(f, Before(row[..n - 1], n - 1, bpp), prev[n - 1], Before(prev, n - 1, bpp)));
      assert row[..n] == row[..n - 1] + [row[n - 1]];
    }
  }

  /** And filtering again what was undone gives back the stored bytes: neither direction loses anything. */
  lemma {:induction false} FilterUnfiltered(f: byte, bpp: nat, raw: seq<byte>, prev: seq<byte>, row: seq<byte>, n: nat)
    requires bpp > 0 && n <= |raw| == |prev| == |row| && row[..n] == Unfiltered(f, bpp, raw, prev, n)
    ensures Filtered(f, bpp, row, prev, n) == raw[..n]
  {
    hide Predict, Difference, Sum;
    if n > 0 {
      assert row[..n - 1] == row[..n][..n - 1] == Unfiltered(f, bpp, raw, prev, n - 1);
      FilterUnfiltered(f, bpp, raw, prev, row, n - 1);
      assert row[n - 1] == row[..n][n - 1];
      SumBack(raw[n - 1], Predict(f, Before(row[..n - 1], n - 1, bpp), prev[n - 1], Before(prev, n - 1, bpp)));
      assert raw[..n] == raw[..n - 1] + [raw[n - 1]];
    }
  }

  /** Undone in place, left to right: each byte's left neighbour is already its final value. */
  method UnfilterRow(f: byte, bpp: nat, line: array<byte>, prev: array<byte>)
    requires bpp > 0 && line.Length == prev.Length && line != prev
    modifies line
    ensures line[..] == Unfiltered(f, bpp, old(line[..]), prev[..], line.Length)
  {
    hide Paeth, Sum, Average;
    ghost var raw, above := line[..], prev[..];
    for i := 0 to line.Length
      invariant line[..i] == Unfiltered(f, bpp, raw, above, i)
      invariant line[i..] == raw[i..]
    {
      var a: byte := if i >= bpp then line[i - bpp] else 0;
      var b := prev[i];
      var c: byte := if i >= bpp then prev[i - bpp] else 0;
      assert line[i] == raw[i] by { assert line[i] == line[i..][0] == raw[i..][0]; }
      assert a == Before(line[..i], i, bpp) && c == Before(above, i, bpp);
      ghost var done, rest := line[..i], line[i + 1..];
      if f == 1 {
        line[i] := Sum(line[i], a);
      } else if f == 2 {
        line[i] := Sum(line[i], b);
      } else if f == 3 {
        line[i] := Sum(line[i], Average(a, b));
      } else if f == 4 {
        line[i] := Sum(line[i], Paeth(a, b, c));
      }
      ZeroAdds(raw[i]);
      assert line[i] == Sum(raw[i], Predict(f, Before(done, i, bpp), above[i], Before(above, i, bpp)));
      assert line[..i] == done && line[i + 1..] == rest;
      assert line[..i + 1] == line[..i] + [line[i]];
      assert raw[i + 1..] == raw[i..][1..];
    }
    assert line[..line.Length] == line[..];
  }

  // ---------------------------------------------------------------- a whole image

  /** The first `n` rows of decompressed data: each a filter byte and `stride` bytes, undone against the row above. */
  function Rows(raw: seq<byte>, stride: nat, bpp: nat, n: nat): (rows: seq<seq<byte>>)
    requires bpp > 0 && At(stride, n) <= |raw|
    ensures |rows| == n && forall y :: 0 <= y < n ==> |rows[y]| == stride
  {
    if n == 0 then []
    else
      RowFits(stride, n);
      var rows := Rows(raw, stride, bpp, n - 1);
      var at := At(stride, n - 1);
      rows + [Unfiltered(raw[at], bpp, raw[at + 1..at + 1 + stride], Above(rows, stride), stride)]
  }

  /** The row above the next one: all zeros above the first. */
  function Above(rows: seq<seq<byte>>, stride: nat): (row: seq<byte>)
    requires forall y :: 0 <= y < |rows| ==> |rows[y]| == stride
    ensures |row| == stride
  {
    if rows == [] then Zeros(stride) else rows[|rows| - 1]
  }

  /** Where row `y`'s filter byte is. */
  function At(stride: nat, y: nat): nat
  {
    y * (stride + 1)
  }

  lemma RowFits(stride: nat, n: nat)
    requires n > 0
    ensures At(stride, n - 1) + 1 + stride == At(stride, n)
  {
  }

  /** The stored form of an image's first `n` rows, a filter chosen for each. */
  function Stored(rows: seq<seq<byte>>, filters: seq<byte>, stride: nat, bpp: nat, n: nat): (raw: seq<byte>)
    requires bpp > 0 && n <= |rows| == |filters| && forall y :: 0 <= y < |rows| ==> |rows[y]| == stride
    ensures |raw| == At(stride, n)
  {
    if n == 0 then []
    else
      RowFits(stride, n);
      Stored(rows, filters, stride, bpp, n - 1)
      + [filters[n - 1]] + Filtered(filters[n - 1], bpp, rows[n - 1], Above(rows[..n - 1], stride), stride)
  }

  lemma {:induction false} RowsPrefix(raw: seq<byte>, more: seq<byte>, stride: nat, bpp: nat, n: nat)
    requires bpp > 0 && At(stride, n) <= |raw| && raw <= more
    ensures Rows(raw, stride, bpp, n) == Rows(more, stride, bpp, n)
  {
    hide Unfiltered, At;
    if n > 0 {
      RowFits(stride, n);
      RowsPrefix(raw, more, stride, bpp, n - 1);
      var at := At(stride, n - 1);
      assert raw[at + 1..at + 1 + stride] == more[at + 1..at + 1 + stride];
    }
  }

  /** Whatever filter each row was stored with, undoing them gives back the image. */
  lemma {:induction false} ImageRoundTrip(rows: seq<seq<byte>>, filters: seq<byte>, stride: nat, bpp: nat, n: nat)
    requires bpp > 0 && n <= |rows| == |filters| && forall y :: 0 <= y < |rows| ==> |rows[y]| == stride
    ensures Rows(Stored(rows, filters, stride, bpp, n), stride, bpp, n) == rows[..n]
  {
    hide Unfiltered, Filtered, Above, At;
    if n > 0 {
      RowFits(stride, n);
      ImageRoundTrip(rows, filters, stride, bpp, n - 1);
      var before, raw, at := Stored(rows, filters, stride, bpp, n - 1), Stored(rows, filters, stride, bpp, n),
        At(stride, n - 1);
      RowsPrefix(before, raw, stride, bpp, n - 1);
      var f, above := filters[n - 1], Above(rows[..n - 1], stride);
      var line := Filtered(f, bpp, rows[n - 1], above, stride);
      assert raw[at] == f && raw[at + 1..at + 1 + stride] == line;
      assert line[..stride] == line;
      UnfilterFiltered(f, bpp, rows[n - 1], above, line, stride);
      assert rows[n - 1][..stride] == rows[n - 1] && rows[..n] == rows[..n - 1] + [rows[n - 1]];
    }
  }

  method RgbaRows(raw: seq<byte>, width: nat, height: nat, bpp: nat) returns (rows: seq<seq<byte>>)
    requires bpp > 0 && At(width * bpp, height) <= |raw|
    ensures rows == Rows(raw, width * bpp, bpp, height)
  {
    rows := RowsOf(raw, width * bpp, height, bpp);
  }

  lemma FirstRow(stride: nat)
    ensures At(stride, 0) == 0
  {
  }

  method ReadLine(raw: seq<byte>, at: nat, stride: nat) returns (line: array<byte>)
    requires at + stride <= |raw|
    ensures fresh(line) && line.Length == stride && line[..] == raw[at..at + stride]
  {
    line := new byte[stride](i requires 0 <= i < stride => raw[at + i]);
  }

  method RowsOf(raw: seq<byte>, stride: nat, height: nat, bpp: nat) returns (rows: seq<seq<byte>>)
    requires bpp > 0 && At(stride, height) <= |raw|
    ensures rows == Rows(raw, stride, bpp, height)
  {
    hide Unfiltered, At;
    var prev := new byte[stride](i => 0);
    assert prev[..] == Zeros(stride);
    rows := [];
    FirstRow(stride);
    for y := 0 to height
      invariant At(stride, y) <= |raw| && rows == Rows(raw, stride, bpp, y)
      invariant prev.Length == stride && prev[..] == Above(rows, stride) && fresh(prev)
    {
      RowFits(stride, y + 1);
      RowInside(stride, y, height);
      var at := At(stride, y);
      var line := ReadLine(raw, at + 1, stride);
      UnfilterRow(raw[at], bpp, line, prev);
      rows := rows + [line[..]];
      prev := line;
    }
  }

  lemma {:induction false} RowInside(stride: nat, y: nat, height: nat)
    requires y < height
    ensures At(stride, y) + 1 + stride <= At(stride, height)
    decreases height
  {
    hide At;
    RowFits(stride, height);
    if y < height - 1 {
      RowInside(stride, y, height - 1);
    }
  }
}
