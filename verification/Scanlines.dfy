// Reconstruction of filtered PNG scanlines (section 6 of RFC 2083).
module Scanlines {
  import opened Basics

  function Abs(x: int): int {
    if x < 0 then -x else x
  }

  // The position of the smallest of three distances, the first of equals.
  function IndexOfMin(a: int, b: int, c: int): int {
    var m := Min(a, Min(b, c));
    if a == m then 0 else if b == m then 1 else 2
  }

  function Predictor(filter: int, left: int, above: int, upperLeft: int): int
    requires 0 <= filter <= 4
  {
    if filter == 0 then 0
    else if filter == 1 then left
    else if filter == 2 then above
    else if filter == 3 then (left + above) / 2
    else
      var estimate := left + above - upperLeft;
      var i := IndexOfMin(Abs(estimate - left), Abs(estimate - above), Abs(estimate - upperLeft));
      [left, above, upperLeft][i]
  }

  // PaethPredictor as section 6.6 writes it: nearest of the three, ties broken in the
  // order left, above, upper left.
  function PaethPredictor(a: int, b: int, c: int): int {
    var p := a + b - c;
    var pa, pb, pc := Abs(p - a), Abs(p - b), Abs(p - c);
    if pa <= pb && pa <= pc then a
    else if pb <= pc then b
    else c
  }

  lemma PredictorIsPaeth(left: int, above: int, upperLeft: int)
    ensures Predictor(4, left, above, upperLeft) == PaethPredictor(left, above, upperLeft)
  {
  }

  // The byte bpp positions back, 0 in the first pixel.
  function Back(row: seq<byte>, i: nat, bpp: nat): int
    requires i <= |row| && bpp > 0
  {
    if i >= bpp then row[i - bpp] else 0
  }

  // The predictor of byte i of a row, from bytes of the row before i and of the prior row.
  function Predicted(filter: int, row: seq<byte>, prior: seq<byte>, i: nat, bpp: nat): int
    requires 0 <= filter <= 4 && i <= |row| && i < |prior| && bpp > 0
  {
    Predictor(filter, Back(row, i, bpp), prior[i], Back(prior, i, bpp))
  }

  // What an encoder sends for a row.
  function FilteredRow(filter: int, row: seq<byte>, prior: seq<byte>, bpp: nat): (r: seq<byte>)
    requires 0 <= filter <= 4 && |row| == |prior| && bpp > 0
    ensures |r| == |row|
  {
    seq(|row|, i requires 0 <= i < |row| => (row[i] - Predicted(filter, row, prior, i, bpp)) % 256)
  }

  // The first k reconstructed bytes of a row.
  function UnfilteredRow(filter: int, encoded: seq<byte>, prior: seq<byte>, bpp: nat, k: nat): (r: seq<byte>)
    requires 0 <= filter <= 4 && k <= |encoded| == |prior| && bpp > 0
    ensures |r| == k
  {
    if k == 0 then []
    else
      var done := UnfilteredRow(filter, encoded, prior, bpp, k - 1);
      done + [(encoded[k - 1] + Predicted(filter, done, prior, k - 1, bpp)) % 256]
  }

  lemma {:induction false} RowRoundTrip(filter: int, row: seq<byte>, prior: seq<byte>, bpp: nat, k: nat)
    requires 0 <= filter <= 4 && k <= |row| == |prior| && bpp > 0
    ensures UnfilteredRow(filter, FilteredRow(filter, row, prior, bpp), prior, bpp, k) == row[..k]
    decreases k
  {
    hide Predictor;
    if k > 0 {
      RowRoundTrip(filter, row, prior, bpp, k - 1);
      var p := Predicted(filter, row, prior, k - 1, bpp);
      assert Predicted(filter, row[..k - 1], prior, k - 1, bpp) == p;
      AddBack(row[k - 1], p);
    }
  }

  lemma AddBack(x: byte, p: int)
    ensures ((x - p) % 256 + p) % 256 == x
  {
  }

  // Conversely, filtering what was reconstructed gives back what was received.
  lemma {:induction false} RowIsFiltered(filter: int, encoded: seq<byte>, prior: seq<byte>, bpp: nat, k: nat)
    requires 0 <= filter <= 4 && k <= |encoded| == |prior| && bpp > 0
    ensures FilteredRow(filter, UnfilteredRow(filter, encoded, prior, bpp, k), prior[..k], bpp) == encoded[..k]
    decreases k
  {
    hide Predictor;
    if k > 0 {
      RowIsFiltered(filter, encoded, prior, bpp, k - 1);
      var done := UnfilteredRow(filter, encoded, prior, bpp, k - 1);
      var longer := UnfilteredRow(filter, encoded, prior, bpp, k);
      var p := Predicted(filter, done, prior, k - 1, bpp);
      assert longer[..k - 1] == done;
      assert Predicted(filter, longer, prior[..k], k - 1, bpp) == p;
      TakeAway(encoded[k - 1], p);
      forall i | 0 <= i < k - 1
        ensures FilteredRow(filter, longer, prior[..k], bpp)[i] == encoded[i]
      {
        assert Predicted(filter, longer, prior[..k], i, bpp) == Predicted(filter, done, prior[..k - 1], i, bpp);
      }
    }
  }

  lemma TakeAway(x: byte, p: int)
    ensures ((x + p) % 256 - p) % 256 == x
  {
  }

  // What section 6 of RFC 2083 adds back to a byte: nothing, the byte to the left, the byte
  // above, their mean or the Paeth predictor.
  function Added(filter: int, left: int, above: int, upperLeft: int): int
    requires 0 <= filter <= 4
  {
    match filter
    case 0 => 0
    case 1 => left
    case 2 => above
    case 3 => (left + above) / 2
    case _ => PaethPredictor(left, above, upperLeft)
  }

  // Byte k of a row is what was received plus what its filter type adds back, modulo 256;
  // to the left of the first pixel there are zeros.
  predicate ByteFits(filter: int, encoded: seq<byte>, prior: seq<byte>, bpp: nat, row: seq<byte>, k: nat)
    requires 0 <= filter <= 4 && k < |row| <= |encoded| == |prior| && bpp > 0
  {
    var (a, c) := if k < bpp then (0, 0) else (row[k - bpp], prior[k - bpp]);
    row[k] == (encoded[k] + Added(filter, a, prior[k], c)) % 256
  }

  predicate Reconstructs(filter: int, encoded: seq<byte>, prior: seq<byte>, bpp: nat, row: seq<byte>)
    requires 0 <= filter <= 4 && |row| <= |encoded| == |prior| && bpp > 0
  {
    forall k :: 0 <= k < |row| ==> ByteFits(filter, encoded, prior, bpp, row, k)
  }

  lemma {:induction false} UnfilteredReconstructs(filter: int, encoded: seq<byte>, prior: seq<byte>, bpp: nat, n: nat)
    requires 0 <= filter <= 4 && n <= |encoded| == |prior| && bpp > 0
    ensures Reconstructs(filter, encoded, prior, bpp, UnfilteredRow(filter, encoded, prior, bpp, n))
    decreases n
  {
    hide Predictor, Added;
    if n > 0 {
      UnfilteredReconstructs(filter, encoded, prior, bpp, n - 1);
      var done, row := UnfilteredRow(filter, encoded, prior, bpp, n - 1), UnfilteredRow(filter, encoded, prior, bpp, n);
      PredictorAdds(filter, Back(done, n - 1, bpp), prior[n - 1], Back(prior, n - 1, bpp));
      assert row[n - 1] == (encoded[n - 1] + Predicted(filter, done, prior, n - 1, bpp)) % 256;
      assert ByteFits(filter, encoded, prior, bpp, row, n - 1);
      forall k | 0 <= k < n - 1
        ensures ByteFits(filter, encoded, prior, bpp, row, k)
      {
        assert ByteFits(filter, encoded, prior, bpp, done, k);
      }
    }
  }

  lemma PredictorAdds(filter: int, left: int, above: int, upperLeft: int)
    requires 0 <= filter <= 4
    ensures Predictor(filter, left, above, upperLeft) == Added(filter, left, above, upperLeft)
  {
    PredictorIsPaeth(left, above, upperLeft);
  }

  // ---- whole images ----

  predicate Filters(filters: seq<int>) {
    forall i :: 0 <= i < |filters| ==> 0 <= filters[i] <= 4
  }

  predicate Rows(rows: seq<seq<byte>>, stride: nat) {
    forall i :: 0 <= i < |rows| ==> |rows[i]| == stride
  }

  function Zeros(n: nat): (z: seq<byte>)
    ensures |z| == n
  {
    seq(n, _ => 0)
  }

  function PriorRow(rows: seq<seq<byte>>, i: nat, stride: nat): (prior: seq<byte>)
    requires i <= |rows| && Rows(rows, stride)
    ensures |prior| == stride
  {
    if i == 0 then Zeros(stride) else rows[i - 1]
  }

  // The inflated image data: for each row its filter type and its filtered bytes.
  function Filtered(filters: seq<int>, rows: seq<seq<byte>>, stride: nat, bpp: nat): (data: seq<byte>)
    requires |filters| == |rows| && Filters(filters) && Rows(rows, stride) && bpp > 0
    ensures |data| == |rows| * (stride + 1)
    decreases |rows|
  {
    if rows == [] then []
    else
      var n := |rows| - 1;
      var data := Filtered(filters[..n], rows[..n], stride, bpp);
      assert (n + 1) * (stride + 1) == n * (stride + 1) + stride + 1;
      data + [filters[n] as byte] + FilteredRow(filters[n], rows[n], PriorRow(rows, n, stride), bpp)
  }

  // Row i of the image is what its filter type and its received bytes say, the first row
  // below a row of zeros.
  ghost predicate RowIsData(inflated: seq<byte>, rows: seq<seq<byte>>, stride: nat, bpp: nat, i: nat)
    requires i < |rows| && |inflated| == |rows| * (stride + 1) && Rows(rows, stride) && bpp > 0
  {
    RowFits(i, |rows|, stride);
    var at := i * (stride + 1);
    && inflated[at] <= 4
    && var prior: seq<byte> := if i == 0 then seq(stride, _ => 0) else rows[i - 1];
    Reconstructs(inflated[at], inflated[at + 1..at + 1 + stride], prior, bpp, rows[i])
  }

  ghost predicate ImageIsData(inflated: seq<byte>, rows: seq<seq<byte>>, stride: nat, bpp: nat)
    requires bpp > 0
  {
    && |inflated| == |rows| * (stride + 1) && Rows(rows, stride)
    && forall i :: 0 <= i < |rows| ==> RowIsData(inflated, rows, stride, bpp, i)
  }

  lemma {:induction false} FilteredIsData(filters: seq<int>, rows: seq<seq<byte>>, stride: nat, bpp: nat)
    requires |filters| == |rows| && Filters(filters) && Rows(rows, stride) && bpp > 0
    ensures ImageIsData(Filtered(filters, rows, stride, bpp), rows, stride, bpp)
    decreases |rows|
  {
    hide FilteredRow, Filtered, UnfilteredRow, Reconstructs;
    if rows != [] {
      var whole, n := Filtered(filters, rows, stride, bpp), |rows| - 1;
      FilteredSplits(filters, rows, stride, bpp);
      FilteredIsData(filters[..n], rows[..n], stride, bpp);
      var prior := PriorRow(rows, n, stride);
      RowRoundTrip(filters[n], rows[n], prior, bpp, stride);
      UnfilteredReconstructs(filters[n], FilteredRow(filters[n], rows[n], prior, bpp), prior, bpp, stride);
      RowFits(n, |rows|, stride);
      assert rows[n][..stride] == rows[n];
      assert whole[n * (stride + 1) + 1..n * (stride + 1) + 1 + stride] == whole[n * (stride + 1) + 1..];
      forall i | 0 <= i < n
        ensures RowIsData(whole, rows, stride, bpp, i)
      {
        EarlierRow(whole, rows, stride, bpp, i);
      }
    }
  }

  lemma EarlierRow(inflated: seq<byte>, rows: seq<seq<byte>>, stride: nat, bpp: nat, i: nat)
    requires rows != [] && i < |rows| - 1 && |inflated| == |rows| * (stride + 1) && Rows(rows, stride) && bpp > 0
    requires var n := |rows| - 1;
      n * (stride + 1) <= |inflated| && RowIsData(inflated[..n * (stride + 1)], rows[..n], stride, bpp, i)
    ensures RowIsData(inflated, rows, stride, bpp, i)
  {
    hide Reconstructs;
    var n, at := |rows| - 1, i * (stride + 1);
    RowFits(i, n, stride);
    var before := inflated[..n * (stride + 1)];
    assert before[at + 1..at + 1 + stride] == inflated[at + 1..at + 1 + stride];
  }

  // Conversely, such data are the image filtered by the types they name.
  lemma {:induction false} DataIsFiltered(inflated: seq<byte>, rows: seq<seq<byte>>, stride: nat, bpp: nat)
    returns (filters: seq<int>)
    requires bpp > 0 && ImageIsData(inflated, rows, stride, bpp)
    ensures |filters| == |rows| && Filters(filters) && Rows(rows, stride)
    ensures inflated == Filtered(filters, rows, stride, bpp)
    decreases |rows|
  {
    hide FilteredRow, Filtered, UnfilteredRow, Reconstructs;
    filters := [];
    if rows == [] {
      NoRows(stride, bpp);
    } else {
      var n := |rows| - 1;
      var at := n * (stride + 1);
      RowFits(n, |rows|, stride);
      forall i | 0 <= i < n
        ensures RowIsData(inflated[..at], rows[..n], stride, bpp, i)
      {
        RowOfPrefix(inflated, rows, stride, bpp, i);
      }
      var earlier := DataIsFiltered(inflated[..at], rows[..n], stride, bpp);
      var filter, encoded := inflated[at], inflated[at + 1..at + 1 + stride];
      assert RowIsData(inflated, rows, stride, bpp, n);
      EncodedIsFiltered(filter, encoded, PriorRow(rows, n, stride), bpp, rows[n]);
      filters := earlier + [filter as int];
      FilteredSplits(filters, rows, stride, bpp);
      assert filters[..n] == earlier;
      assert inflated == inflated[..at] + [filter] + encoded;
      var whole := Filtered(filters, rows, stride, bpp);
      assert whole == whole[..at] + [whole[at]] + whole[at + 1..];
    }
  }

  lemma RowOfPrefix(inflated: seq<byte>, rows: seq<seq<byte>>, stride: nat, bpp: nat, i: nat)
    requires rows != [] && i < |rows| - 1 && |inflated| == |rows| * (stride + 1) && Rows(rows, stride) && bpp > 0
    requires RowIsData(inflated, rows, stride, bpp, i)
    ensures var n := |rows| - 1;
      n * (stride + 1) <= |inflated| && RowIsData(inflated[..n * (stride + 1)], rows[..n], stride, bpp, i)
  {
    hide Reconstructs;
    var n, at := |rows| - 1, i * (stride + 1);
    RowFits(n, |rows|, stride);
    RowFits(i, n, stride);
    var before := inflated[..n * (stride + 1)];
    assert before[at + 1..at + 1 + stride] == inflated[at + 1..at + 1 + stride];
  }

  lemma EncodedIsFiltered(filter: int, encoded: seq<byte>, prior: seq<byte>, bpp: nat, row: seq<byte>)
    requires 0 <= filter <= 4 && |row| == |encoded| == |prior| && bpp > 0
    requires Reconstructs(filter, encoded, prior, bpp, row)
    ensures encoded == FilteredRow(filter, row, prior, bpp)
  {
    hide Predictor, Added;
    forall k | 0 <= k < |row|
      ensures encoded[k] == FilteredRow(filter, row, prior, bpp)[k]
    {
      assert ByteFits(filter, encoded, prior, bpp, row, k);
      PredictorAdds(filter, Back(row, k, bpp), prior[k], Back(prior, k, bpp));
      TakeAway(encoded[k], Predicted(filter, row, prior, k, bpp));
    }
  }

  // The scanline loop. It succeeds exactly on data that is some image filtered with some
  // choice of filter types, and returns that image, reconstructed byte by byte.
  method Unfilter(inflated: seq<byte>, height: nat, stride: nat, bpp: nat) returns (r: Result<seq<seq<byte>>>)
    requires |inflated| == height * (stride + 1) && bpp > 0
    ensures r.Ok? ==> |r.value| == height && ImageIsData(inflated, r.value, stride, bpp)
    ensures r.Ok? ==> exists filters :: |filters| == height && Filters(filters)
                        && inflated == Filtered(filters, r.value, stride, bpp)
    ensures r.Err? ==> r.code == Codec003
    ensures r.Err? ==> forall filters, rows ::
              |filters| == |rows| == height && Filters(filters) && Rows(rows, stride) ==>
              inflated != Filtered(filters, rows, stride, bpp)
  {
    hide Filtered, UnfilteredRow, ImageIsData;
    NoRows(stride, bpp);
    var rows: seq<seq<byte>> := [];
    ghost var filters: seq<int> := [];
    var prior := new byte[stride](_ => 0);
    var offset := 0;
    assert prior[..] == Zeros(stride);
    for row := 0 to height
      invariant |rows| == |filters| == row && Rows(rows, stride) && Filters(filters)
      invariant offset == row * (stride + 1) <= |inflated|
      invariant prior.Length == stride && prior[..] == PriorRow(rows, row, stride)
      invariant inflated[..offset] == Filtered(filters, rows, stride, bpp)
    {
      RowFits(row, height, stride);
      var filter := inflated[offset];
      var encoded := inflated[offset + 1..offset + 1 + stride];
      if filter > 4 {
        NoSuchImage(inflated, height, stride, bpp, row);
        return Err(Codec003);
      }
      var decoded := new byte[stride];
      UnfilterRow(filter, encoded, prior, decoded, bpp);
      NextRow(inflated, filters, rows, filter, decoded[..], stride, bpp, offset);
      rows, filters := rows + [decoded[..]], filters + [filter];
      offset := offset + stride + 1;
      prior := decoded;
    }
    assert inflated[..offset] == inflated;
    FilteredIsData(filters, rows, stride, bpp);
    DataIsRows(inflated, rows, stride, bpp);
    r := Ok(rows);
  }

  lemma DataIsRows(inflated: seq<byte>, rows: seq<seq<byte>>, stride: nat, bpp: nat)
    requires bpp > 0 && ImageIsData(inflated, rows, stride, bpp)
    ensures Rows(rows, stride)
  {
  }

  method UnfilterRow(filter: int, encoded: seq<byte>, prior: array<byte>, decoded: array<byte>, bpp: nat)
    requires 0 <= filter <= 4 && |encoded| == prior.Length == decoded.Length && bpp > 0
    requires prior != decoded
    modifies decoded
    ensures decoded[..] == UnfilteredRow(filter, encoded, prior[..], bpp, |encoded|)
  {
    hide Predictor;
    ghost var above := prior[..];
    for index := 0 to |encoded|
      invariant prior[..] == above
      invariant decoded[..index] == UnfilteredRow(filter, encoded, above, bpp, index)
    {
      var left := if index >= bpp then decoded[index - bpp] else 0;
      var upperLeft := if index >= bpp then prior[index - bpp] else 0;
      assert left == Back(decoded[..index], index, bpp) && upperLeft == Back(above, index, bpp);
      decoded[index] := (encoded[index] + Predictor(filter, left, prior[index], upperLeft)) % 256;
      assert decoded[..index + 1] == decoded[..index] + [decoded[index]];
    }
    assert decoded[..|encoded|] == decoded[..];
  }

  lemma RowFits(row: nat, height: nat, stride: nat)
    requires row < height
    ensures (row + 1) * (stride + 1) == row * (stride + 1) + stride + 1 <= height * (stride + 1)
  {
    assert (height - row - 1) * (stride + 1) >= 0;
  }

  lemma NextRow(inflated: seq<byte>, filters: seq<int>, rows: seq<seq<byte>>, filter: byte, decoded: seq<byte>,
                stride: nat, bpp: nat, offset: nat)
    requires |filters| == |rows| && Filters(filters) && Rows(rows, stride) && bpp > 0 && filter <= 4
    requires offset + 1 + stride <= |inflated| && inflated[offset] == filter
    requires inflated[..offset] == Filtered(filters, rows, stride, bpp)
    requires var encoded := inflated[offset + 1..offset + 1 + stride];
             decoded == UnfilteredRow(filter, encoded, PriorRow(rows, |rows|, stride), bpp, stride)
    ensures Filtered(filters + [filter as int], rows + [decoded], stride, bpp) == inflated[..offset + stride + 1]
    ensures PriorRow(rows + [decoded], |rows| + 1, stride) == decoded
  {
    hide UnfilteredRow, FilteredRow;
    var fs, image, n := filters + [filter as int], rows + [decoded], |rows|;
    var encoded, prior := inflated[offset + 1..offset + 1 + stride], PriorRow(rows, n, stride);
    RowIsFiltered(filter, encoded, prior, bpp, stride);
    assert prior[..stride] == prior && encoded[..stride] == encoded;
    assert fs[..n] == filters && image[..n] == rows && PriorRow(image, n, stride) == prior;
    assert inflated[..offset + stride + 1] == inflated[..offset] + [inflated[offset]] + encoded;
  }

  lemma NoRows(stride: nat, bpp: nat)
    requires bpp > 0
    ensures Filtered([], [], stride, bpp) == []
  {
  }

  // Data with an unknown filter type is no filtered image.
  lemma NoSuchImage(inflated: seq<byte>, height: nat, stride: nat, bpp: nat, row: nat)
    requires row < height && |inflated| == height * (stride + 1) && bpp > 0
    requires row * (stride + 1) < |inflated| && inflated[row * (stride + 1)] > 4
    ensures forall filters, rows ::
              |filters| == |rows| == height && Filters(filters) && Rows(rows, stride) ==>
              inflated != Filtered(filters, rows, stride, bpp)
  {
    hide Filtered;
    forall filters, rows | |filters| == |rows| == height && Filters(filters) && Rows(rows, stride)
      ensures inflated != Filtered(filters, rows, stride, bpp)
    {
      FilterByteAt(filters, rows, stride, bpp, row);
    }
  }

  // Row i of the data starts with its filter type.
  lemma {:induction false} FilterByteAt(filters: seq<int>, rows: seq<seq<byte>>, stride: nat, bpp: nat, i: nat)
    requires |filters| == |rows| && Filters(filters) && Rows(rows, stride) && bpp > 0 && i < |rows|
    ensures i * (stride + 1) < |Filtered(filters, rows, stride, bpp)|
    ensures Filtered(filters, rows, stride, bpp)[i * (stride + 1)] == filters[i]
    decreases |rows|
  {
    hide FilteredRow;
    var n := |rows| - 1;
    RowFits(i, |rows|, stride);
    if i < n {
      FilterByteAt(filters[..n], rows[..n], stride, bpp, i);
    }
  }

  // One image and one choice of filters for each data: reconstruction inverts filtering.
  lemma {:induction false} FilteringIsInjective(
      filters: seq<int>, rows: seq<seq<byte>>, filters1: seq<int>, rows1: seq<seq<byte>>, stride: nat, bpp: nat)
    requires |filters| == |rows| == |filters1| == |rows1| && bpp > 0
    requires Filters(filters) && Filters(filters1) && Rows(rows, stride) && Rows(rows1, stride)
    requires Filtered(filters, rows, stride, bpp) == Filtered(filters1, rows1, stride, bpp)
    ensures filters == filters1 && rows == rows1
    decreases |rows|
  {
    hide FilteredRow, Filtered;
    if rows != [] {
      var n := |rows| - 1;
      FilteredSplits(filters, rows, stride, bpp);
      FilteredSplits(filters1, rows1, stride, bpp);
      FilteringIsInjective(filters[..n], rows[..n], filters1[..n], rows1[..n], stride, bpp);
      var prior := PriorRow(rows, n, stride);
      assert PriorRow(rows1, n, stride) == prior;
      RowIsInjective(filters[n], rows[n], rows1[n], prior, bpp);
      assert rows == rows[..n] + [rows[n]] && rows1 == rows1[..n] + [rows1[n]];
      assert filters == filters[..n] + [filters[n]] && filters1 == filters1[..n] + [filters1[n]];
    }
  }

  // The data of the last row starts at a position that depends on the shape alone.
  lemma FilteredSplits(filters: seq<int>, rows: seq<seq<byte>>, stride: nat, bpp: nat)
    requires |filters| == |rows| && Filters(filters) && Rows(rows, stride) && bpp > 0 && rows != []
    ensures var whole, n := Filtered(filters, rows, stride, bpp), |rows| - 1;
      var at := n * (stride + 1);
      && at < |whole|
      && whole[..at] == Filtered(filters[..n], rows[..n], stride, bpp)
      && whole[at] == filters[n]
      && whole[at + 1..] == FilteredRow(filters[n], rows[n], PriorRow(rows, n, stride), bpp)
  {
    hide FilteredRow, PriorRow;
    var n := |rows| - 1;
    var data := Filtered(filters[..n], rows[..n], stride, bpp);
    PartsOf(data, filters[n] as byte, FilteredRow(filters[n], rows[n], PriorRow(rows, n, stride), bpp));
  }

  lemma PartsOf(data: seq<byte>, filter: byte, row: seq<byte>)
    ensures var whole := data + [filter] + row;
      |data| < |whole| && whole[..|data|] == data && whole[|data|] == filter && whole[|data| + 1..] == row
  {
  }

  lemma RowIsInjective(filter: int, row: seq<byte>, row1: seq<byte>, prior: seq<byte>, bpp: nat)
    requires 0 <= filter <= 4 && |row| == |row1| == |prior| && bpp > 0
    requires FilteredRow(filter, row, prior, bpp) == FilteredRow(filter, row1, prior, bpp)
    ensures row == row1
  {
    hide FilteredRow, UnfilteredRow;
    RowRoundTrip(filter, row, prior, bpp, |row|);
    RowRoundTrip(filter, row1, prior, bpp, |row|);
    assert row[..|row|] == row && row1[..|row|] == row1;
  }
}
