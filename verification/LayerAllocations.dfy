/** Bitrates per spatial and temporal layer, with a cached sum and a trimmed listing. */
module LayerAllocations {
  import opened EvenShares

  const MAX_SPATIAL_LAYERS := 5
  const MAX_TEMPORAL_STREAMS := 4
  const MAX_BITRATE_BPS := 0xFFFF_FFFF

  type Row = seq<nat>

  function MatrixSum(m: seq<Row>): int {
    if m == [] then 0 else Sum(m[0]) + MatrixSum(m[1..])
  }

  function WithRate(m: seq<Row>, s: nat, t: nat, rate: nat): seq<Row>
    requires s < |m| && t < |m[s]|
  {
    var row: Row := m[s][t := rate];
    m[s := row]
  }

  // ---------- the listing ----------

  /** A row is listed until the rates listed make up its sum. */
  function TrimRow(row: Row): Row {
    if Sum(row) == 0 || row == [] then [] else [row[0]] + TrimRow(row[1..])
  }

  function TrimRows(m: seq<Row>): seq<Row> {
    if MatrixSum(m) == 0 || m == [] then [] else [TrimRow(m[0])] + TrimRows(m[1..])
  }

  /** The nested lists that ToString prints. */
  function Listing(m: seq<Row>): seq<Row> {
    if MatrixSum(m) == 0 then [[]] else TrimRows(m)
  }

  function Zeros(n: nat): Row { seq(n, _ => 0) }

  function PadRow(row: Row, width: nat): Row {
    row + Zeros(if width >= |row| then width - |row| else 0)
  }

  /** The matrix a listing stands for: what is not listed is zero. */
  function Padded(rows: seq<Row>, height: nat, width: nat): seq<Row> {
    if height == 0 then []
    else if rows == [] then [Zeros(width)] + Padded([], height - 1, width)
    else [PadRow(rows[0], width)] + Padded(rows[1..], height - 1, width)
  }

  ghost predicate Shaped(m: seq<Row>, height: nat, width: nat) {
    |m| == height && forall i :: 0 <= i < |m| ==> |m[i]| == width
  }

  lemma {:induction false} SumNonNegative(row: Row)
    ensures Sum(row) >= 0
    ensures Sum(row) == 0 ==> row == Zeros(|row|)
  {
    if row != [] {
      SumNonNegative(row[1..]);
      assert row == [row[0]] + row[1..];
    }
  }

  lemma {:induction false} MatrixSumNonNegative(m: seq<Row>)
    ensures MatrixSum(m) >= 0
    ensures MatrixSum(m) == 0 ==> forall i :: 0 <= i < |m| ==> m[i] == Zeros(|m[i]|)
  {
    if m != [] {
      SumNonNegative(m[0]);
      MatrixSumNonNegative(m[1..]);
      assert forall i :: 0 < i < |m| ==> m[i] == m[1..][i - 1];
    }
  }

  /** Listing a row and padding it again gives the row; the listing has no trailing zero. */
  lemma {:induction false} TrimRowMeaning(row: Row)
    ensures |TrimRow(row)| <= |row|
    ensures PadRow(TrimRow(row), |row|) == row
    ensures TrimRow(row) != [] ==> TrimRow(row)[|TrimRow(row)| - 1] != 0
  {
    SumNonNegative(row);
    if row != [] && Sum(row) != 0 {
      TrimRowMeaning(row[1..]);
      assert row == [row[0]] + row[1..];
      assert row == [row[0]] + PadRow(TrimRow(row[1..]), |row| - 1);
      if TrimRow(row[1..]) == [] {
        SumNonNegative(row[1..]);
      }
    }
  }

  lemma {:induction false} ZeroPadded(m: seq<Row>, height: nat, width: nat)
    requires Shaped(m, height, width) && MatrixSum(m) == 0
    ensures Padded([], height, width) == m
  {
    MatrixSumNonNegative(m);
    if height > 0 {
      SumNonNegative(m[0]);
      MatrixSumNonNegative(m[1..]);
      ZeroPadded(m[1..], height - 1, width);
      assert m == [m[0]] + m[1..];
    }
  }

  lemma {:induction false} TrimRowsRoundTrip(m: seq<Row>, height: nat, width: nat)
    requires Shaped(m, height, width)
    ensures Padded(TrimRows(m), height, width) == m
    ensures |TrimRows(m)| <= height
  {
    if MatrixSum(m) == 0 {
      ZeroPadded(m, height, width);
    } else if m != [] {
      TrimRowMeaning(m[0]);
      TrimRowsRoundTrip(m[1..], height - 1, width);
      assert m == [m[0]] + m[1..];
    }
  }

  /** Rows are listed up to the last one with a rate that is not zero. */
  lemma {:induction false} TrimRowsEnd(m: seq<Row>)
    requires MatrixSum(m) > 0
    ensures TrimRows(m) != [] && TrimRows(m)[|TrimRows(m)| - 1] != []
  {
    SumNonNegative(m[0]);
    MatrixSumNonNegative(m[1..]);
    if MatrixSum(m[1..]) > 0 {
      TrimRowsEnd(m[1..]);
    }
  }

  lemma TrimRowAt(row: Row, t: nat)
    requires t < |row| && Sum(row[t..]) != 0
    ensures TrimRow(row[t..]) == [row[t]] + TrimRow(row[t + 1..])
    ensures Sum(row[t..]) == row[t] + Sum(row[t + 1..])
    ensures Sum(row[t + 1..]) >= 0
  {
    assert row[t..][1..] == row[t + 1..];
    SumNonNegative(row[t + 1..]);
  }

  lemma TrimRowsAt(m: seq<Row>, s: nat)
    requires s < |m| && MatrixSum(m[s..]) != 0
    ensures TrimRows(m[s..]) == [TrimRow(m[s])] + TrimRows(m[s + 1..])
    ensures MatrixSum(m[s..]) == Sum(m[s]) + MatrixSum(m[s + 1..])
    ensures MatrixSum(m[s + 1..]) >= 0
  {
    assert m[s..][1..] == m[s + 1..];
    MatrixSumNonNegative(m[s + 1..]);
  }

  /** What is printed determines the allocation. */
  lemma ListingRoundTrip(m: seq<Row>, height: nat, width: nat)
    requires Shaped(m, height, width) && height > 0
    ensures Padded(Listing(m), height, width) == m
    ensures |Listing(m)| <= height
  {
    if MatrixSum(m) == 0 {
      ZeroPadded(m, height, width);
      assert PadRow([], width) == Zeros(width);
    } else {
      TrimRowsRoundTrip(m, height, width);
    }
  }

  /** Something is always listed: one empty row if all is zero, and otherwise no row after the
      last one that has a rate. */
  lemma ListingEnd(m: seq<Row>)
    ensures Listing(m) != []
    ensures if MatrixSum(m) == 0 then Listing(m) == [[]] else Listing(m)[|Listing(m)| - 1] != []
  {
    MatrixSumNonNegative(m);
    if MatrixSum(m) > 0 {
      TrimRowsEnd(m);
    }
  }

  // ---------- sums under update ----------

  lemma {:induction false} SumUpdate(row: Row, t: nat, v: nat)
    requires t < |row|
    ensures Sum(row[t := v]) == Sum(row) - row[t] + v
    ensures row[t] <= Sum(row)
  {
    SumNonNegative(row[1..]);
    if t == 0 {
      assert row[t := v][1..] == row[1..];
    } else {
      SumUpdate(row[1..], t - 1, v);
      assert row[t := v][1..] == row[1..][t - 1 := v];
    }
  }

  lemma {:induction false} MatrixSumUpdate(m: seq<Row>, s: nat, row: Row)
    requires s < |m|
    ensures MatrixSum(m[s := row]) == MatrixSum(m) - Sum(m[s]) + Sum(row)
    ensures Sum(m[s]) <= MatrixSum(m)
  {
    SumNonNegative(m[0]);
    MatrixSumNonNegative(m[1..]);
    if s == 0 {
      assert m[s := row][1..] == m[1..];
    } else {
      MatrixSumUpdate(m[1..], s - 1, row);
      assert m[s := row][1..] == m[1..][s - 1 := row];
    }
  }

  lemma {:induction false} SumAppend(row: Row, v: nat)
    ensures Sum(row + [v]) == Sum(row) + v
  {
    if row == [] {
      assert [v][1..] == [] && row + [v] == [v];
    } else {
      SumAppend(row[1..], v);
      assert (row + [v])[1..] == row[1..] + [v];
    }
  }

  lemma {:induction false} SumSplit(row: Row, k: nat)
    requires k <= |row|
    ensures Sum(row) == Sum(row[..k]) + Sum(row[k..])
  {
    if k > 0 {
      SumSplit(row[1..], k - 1);
      assert row[..k][1..] == row[1..][..k - 1] && row[1..][k - 1..] == row[k..];
    }
  }

  // ---------- the object ----------

  class BitrateAllocation {
    var sum: nat
    const bitrates: array2<nat>

    ghost predicate Valid()
      reads this, bitrates
    {
      && bitrates.Length0 == MAX_SPATIAL_LAYERS && bitrates.Length1 == MAX_TEMPORAL_STREAMS
      && sum == MatrixSum(Matrix()) && sum <= MAX_BITRATE_BPS
    }

    ghost function RowOf(s: nat): (row: Row)
      requires s < bitrates.Length0
      reads bitrates
      ensures |row| == bitrates.Length1
    {
      seq(bitrates.Length1, t requires 0 <= t < bitrates.Length1 reads bitrates => bitrates[s, t])
    }

    ghost function Matrix(): (m: seq<Row>)
      reads bitrates
      ensures Shaped(m, bitrates.Length0, bitrates.Length1)
      ensures forall s, t :: 0 <= s < bitrates.Length0 && 0 <= t < bitrates.Length1 ==> m[s][t] == bitrates[s, t]
    {
      seq(bitrates.Length0, s requires 0 <= s < bitrates.Length0 reads bitrates => RowOf(s))
    }

    constructor ()
      ensures Valid() && fresh(bitrates)
      ensures bitrates.Length0 == 5 && bitrates.Length1 == 4
      ensures sum == 0 && forall s, t :: 0 <= s < 5 && 0 <= t < 4 ==> bitrates[s, t] == 0
    {
      sum := 0;
      bitrates := new nat[MAX_SPATIAL_LAYERS, MAX_TEMPORAL_STREAMS]((_, _) => 0);
      new;
      assert forall s :: 0 <= s < MAX_SPATIAL_LAYERS ==> Matrix()[s] == Zeros(MAX_TEMPORAL_STREAMS);
      AllZeros(Matrix());
    }

    /** Refuses exactly those rates with which the sum would not fit 32 bits. */
    method SetBitrate(s: nat, t: nat, rate: nat) returns (ok: bool)
      requires Valid() && s < MAX_SPATIAL_LAYERS && t < MAX_TEMPORAL_STREAMS && rate <= MAX_BITRATE_BPS
      modifies this`sum, bitrates
      ensures Valid()
      ensures var wanted := WithRate(old(Matrix()), s, t, rate);
              && ok == (MatrixSum(wanted) <= MAX_BITRATE_BPS)
              && Matrix() == if ok then wanted else old(Matrix())
      ensures ok <==> old(sum) - old(bitrates[s, t]) + rate <= 0xFFFF_FFFF
      ensures bitrates[s, t] == if ok then rate else old(bitrates[s, t])
      ensures forall i, j :: 0 <= i < bitrates.Length0 && 0 <= j < bitrates.Length1 && (i, j) != (s, t) ==>
                bitrates[i, j] == old(bitrates[i, j])
    {
      ghost var before := Matrix();
      ghost var wanted := WithRate(before, s, t, rate);
      SumUpdate(before[s], t, rate);
      MatrixSumUpdate(before, s, wanted[s]);
      assert bitrates[s, t] <= sum;
      var newSum := sum - bitrates[s, t] + rate;
      if newSum > MAX_BITRATE_BPS {
        return false;
      }
      bitrates[s, t] := rate;
      sum := newSum;
      assert forall i :: 0 <= i < MAX_SPATIAL_LAYERS ==> Matrix()[i] == wanted[i];
      assert Matrix() == wanted;
      return true;
    }

    method GetSpatialLayerSum(s: nat) returns (layerSum: nat)
      requires Valid() && s < MAX_SPATIAL_LAYERS
      ensures layerSum == Sum(Matrix()[s]) <= sum
    {
      ghost var row := Matrix()[s];
      layerSum := 0;
      for t := 0 to MAX_TEMPORAL_STREAMS
        invariant layerSum == Sum(row[..t])
      {
        SumAppend(row[..t], row[t]);
        assert row[..t + 1] == row[..t] + [row[t]];
        layerSum := layerSum + bitrates[s, t];
      }
      assert row[..MAX_TEMPORAL_STREAMS] == row;
      MatrixSumUpdate(Matrix(), s, row);
    }

    /** The rates of one layer up to the last one that is not zero. */
    method ListRow(s: nat, layerSum: nat) returns (row: Row)
      requires Valid() && s < MAX_SPATIAL_LAYERS && layerSum == Sum(Matrix()[s])
      ensures row == TrimRow(Matrix()[s])
    {
      ghost var all := Matrix()[s];
      var cumulated, t := 0, 0;
      row := [];
      assert all[0..] == all;
      while t < MAX_TEMPORAL_STREAMS && cumulated != layerSum
        invariant 0 <= t <= MAX_TEMPORAL_STREAMS
        invariant row + TrimRow(all[t..]) == TrimRow(all)
        invariant cumulated == layerSum - Sum(all[t..]) <= layerSum
      {
        ghost var before, tail := row, TrimRow(all[t + 1..]);
        TrimRowAt(all, t);
        row := row + [bitrates[s, t]];
        cumulated := cumulated + bitrates[s, t];
        assert row + tail == before + ([all[t]] + tail);
        t := t + 1;
      }
      assert TrimRow(all[t..]) == [];
    }

    /** ToString, as nested lists. Its running sums never exceed the sum and end at it. */
    method ToLists() returns (rows: seq<Row>)
      requires Valid()
      ensures rows == Listing(Matrix())
      ensures Padded(rows, MAX_SPATIAL_LAYERS, MAX_TEMPORAL_STREAMS) == Matrix()
    {
      ghost var m := Matrix();
      ListingRoundTrip(m, MAX_SPATIAL_LAYERS, MAX_TEMPORAL_STREAMS);
      if sum == 0 {
        return [[]];
      }
      var cumulated, s := 0, 0;
      rows := [];
      assert m[0..] == m;
      while s < MAX_SPATIAL_LAYERS && cumulated != sum
        invariant 0 <= s <= MAX_SPATIAL_LAYERS
        invariant rows + TrimRows(m[s..]) == TrimRows(m)
        invariant cumulated == sum - MatrixSum(m[s..]) <= sum
      {
        ghost var before, tail := rows, TrimRows(m[s + 1..]);
        TrimRowsAt(m, s);
        var layerSum := GetSpatialLayerSum(s);
        cumulated := cumulated + layerSum;
        var row := ListRow(s, layerSum);
        rows := rows + [row];
        assert rows + tail == before + ([row] + tail);
        s := s + 1;
      }
      assert cumulated == sum;
      assert TrimRows(m[s..]) == [];
    }
  }

  lemma {:induction false} AllZeros(m: seq<Row>)
    requires forall i :: 0 <= i < |m| ==> m[i] == Zeros(|m[i]|)
    ensures MatrixSum(m) == 0
  {
    if m != [] {
      ZeroRow(|m[0]|);
      AllZeros(m[1..]);
    }
  }

  lemma {:induction false} ZeroRow(n: nat)
    ensures Sum(Zeros(n)) == 0
  {
    if n > 0 {
      ZeroRow(n - 1);
      assert Zeros(n)[1..] == Zeros(n - 1);
    }
  }
}
