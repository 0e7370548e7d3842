/**
 * Building the enrollment tensor of assignment3/school_data.py.
 *
 * The input is the list of ten year arrays (2013 to 2022) of 60 cells each,
 * one cell per (school, grade) in row-major order; a missing cell is NaN.
 * `item.reshape(20, 3)` is a view of the flat array, so row s, column g of a
 * year matrix is cell 3 * s + g of that year's array, and writing through the
 * view writes into the input array.  The tensor axes are [year][school][grade].
 */
module SchoolTensor {
  import opened Wrappers
  import opened Reductions

  /** One enrollment cell; None models NaN. */
  type Cell = Option<real>

  /** A [year][school][grade] tensor, as a value. */
  type Tensor = seq<seq<seq<real>>>

  /** The shape (10, 20, 3) of both tensors. */
  predicate Shaped(t: Tensor) {
    && |t| == 10
    && (forall y :: 0 <= y < 10 ==> |t[y]| == 20)
    && (forall y, s :: 0 <= y < 10 && 0 <= s < 20 ==> |t[y][s]| == 3)
  }

  /** Ten year arrays of 60 cells each. */
  predicate YearArrays(data: seq<array<Cell>>) {
    |data| == 10 && forall y :: 0 <= y < 10 ==> data[y].Length == 60
  }

  function ZeroOr(c: Cell): real {
    match c
    case Some(v) => v
    case None => 0.0
  }

  /** The tensor held by a NumPy 3-D array, as a value. */
  function TensorOf(a: array3<real>): (t: Tensor)
    reads a
    ensures |t| == a.Length0
    ensures forall y :: 0 <= y < a.Length0 ==> |t[y]| == a.Length1
    ensures forall y, s :: 0 <= y < a.Length0 && 0 <= s < a.Length1 ==> |t[y][s]| == a.Length2
    ensures forall y, s, g :: 0 <= y < a.Length0 && 0 <= s < a.Length1 && 0 <= g < a.Length2 ==>
      t[y][s][g] == a[y, s, g]
    ensures a.Length0 == 10 && a.Length1 == 20 && a.Length2 == 3 ==> Shaped(t)
  {
    seq(a.Length0, y requires 0 <= y < a.Length0 reads a =>
      seq(a.Length1, s requires 0 <= s < a.Length1 reads a =>
        seq(a.Length2, g requires 0 <= g < a.Length2 reads a => a[y, s, g])))
  }

  /**
   * Stacks the ten year matrices into a new 10x20x3 array (`np.array(list2D)`),
   * storing a missing cell as 0.  The input arrays are only read.
   */
  method StackZeroFilled(data: seq<array<Cell>>) returns (t: array3<real>)
    requires YearArrays(data)
    ensures fresh(t)
    ensures t.Length0 == 10 && t.Length1 == 20 && t.Length2 == 3
    ensures forall y, s, g :: 0 <= y < 10 && 0 <= s < 20 && 0 <= g < 3 ==>
      t[y, s, g] == ZeroOr(data[y][3 * s + g])
  {
    t := new real[10, 20, 3];
    for y := 0 to 10
      invariant forall y', s, g :: 0 <= y' < y && 0 <= s < 20 && 0 <= g < 3 ==>
        t[y', s, g] == ZeroOr(data[y'][3 * s + g])
    {
      for s := 0 to 20
        invariant forall y', s', g :: 0 <= y' < y && 0 <= s' < 20 && 0 <= g < 3 ==>
          t[y', s', g] == ZeroOr(data[y'][3 * s' + g])
        invariant forall s', g :: 0 <= s' < s && 0 <= g < 3 ==>
          t[y, s', g] == ZeroOr(data[y][3 * s' + g])
      {
        for g := 0 to 3
          invariant forall y', s', g' :: 0 <= y' < y && 0 <= s' < 20 && 0 <= g' < 3 ==>
            t[y', s', g'] == ZeroOr(data[y'][3 * s' + g'])
          invariant forall s', g' :: 0 <= s' < s && 0 <= g' < 3 ==>
            t[y, s', g'] == ZeroOr(data[y][3 * s' + g'])
          invariant forall g' :: 0 <= g' < g ==> t[y, s, g'] == ZeroOr(data[y][3 * s + g'])
        {
          t[y, s, g] := ZeroOr(data[y][3 * s + g]);
        }
      }
    }
  }

  /**
   * `reshapeSchoolData`: the zero-fill tensor.  It copies (line 53) before it
   * masks (line 55), so the input arrays are left as they were.
   */
  method ReshapeSchoolData(data: seq<array<Cell>>) returns (t: array3<real>)
    requires YearArrays(data)
    ensures fresh(t)
    ensures t.Length0 == 10 && t.Length1 == 20 && t.Length2 == 3
    ensures forall y, s, g :: 0 <= y < 10 && 0 <= s < 20 && 0 <= g < 3 && data[y][3 * s + g].Some? ==>
      t[y, s, g] == data[y][3 * s + g].value
    ensures forall y, s, g :: 0 <= y < 10 && 0 <= s < 20 && 0 <= g < 3 && data[y][3 * s + g].None? ==>
      t[y, s, g] == 0.0
  {
    t := StackZeroFilled(data);
  }

  // ---------------------------------------------------------------------------
  // Mean-fill

  /** The number of missing cells among the first i. */
  function MissingBefore(cells: seq<Cell>, i: nat): nat
    requires i <= |cells|
  {
    if i == 0 then 0 else MissingBefore(cells, i - 1) + (if cells[i - 1].None? then 1 else 0)
  }

  /** The number of missing cells. */
  function MissingCount(cells: seq<Cell>): nat {
    MissingBefore(cells, |cells|)
  }

  lemma {:induction false} MissingBeforeMonotone(cells: seq<Cell>, i: nat, j: nat)
    requires i <= j <= |cells|
    ensures MissingBefore(cells, i) <= MissingBefore(cells, j)
  {
    if i < j {
      MissingBeforeMonotone(cells, i, j - 1);
    }
  }

  /** Between i and j nothing is missing, so the count does not move. */
  lemma {:induction false} PresentBetween(cells: seq<Cell>, i: nat, j: nat)
    requires i <= j <= |cells|
    requires forall k :: i <= k < j ==> cells[k].Some?
    ensures MissingBefore(cells, j) == MissingBefore(cells, i)
  {
    if i < j {
      PresentBetween(cells, i, j - 1);
    }
  }

  lemma NoneMissing(cells: seq<Cell>)
    requires forall i :: 0 <= i < |cells| ==> cells[i].Some?
    ensures MissingCount(cells) == 0
  {
    PresentBetween(cells, 0, |cells|);
  }

  lemma MissingCountZero(cells: seq<Cell>, i: nat)
    requires MissingCount(cells) == 0 && i < |cells|
    ensures cells[i].Some?
  {
    MissingBeforeMonotone(cells, i + 1, |cells|);
  }

  /** Column g of a year's 20x3 matrix. */
  function Column(cells: seq<Cell>, g: nat): (c: seq<Cell>)
    requires |cells| == 60 && g < 3
    ensures |c| == 20 && forall s :: 0 <= s < 20 ==> c[s] == cells[3 * s + g]
  {
    seq(20, s requires 0 <= s < 20 => cells[3 * s + g])
  }

  /** The first n rows of a column miss no more cells than the first n rows of the matrix. */
  lemma {:induction false} ColumnMissingAtMost(cells: seq<Cell>, g: nat, n: nat)
    requires |cells| == 60 && g < 3 && n <= 20
    ensures MissingBefore(Column(cells, g), n) <= MissingBefore(cells, 3 * n)
  {
    if n > 0 {
      ColumnMissingAtMost(cells, g, n - 1);
      assert MissingBefore(cells, 3 * n - 2) >= MissingBefore(cells, 3 * n - 3)
        + (if cells[3 * n - 3].None? then 1 else 0);
      assert MissingBefore(cells, 3 * n - 1) >= MissingBefore(cells, 3 * n - 2)
        + (if cells[3 * n - 2].None? then 1 else 0);
      assert MissingBefore(cells, 3 * n) >= MissingBefore(cells, 3 * n - 1)
        + (if cells[3 * n - 1].None? then 1 else 0);
    }
  }

  /** The present values among the first i cells, in order. */
  function PresentBefore(cells: seq<Cell>, i: nat): (r: seq<real>)
    requires i <= |cells|
    ensures |r| + MissingBefore(cells, i) == i
  {
    if i == 0 then []
    else PresentBefore(cells, i - 1) + (if cells[i - 1].Some? then [cells[i - 1].value] else [])
  }

  /** `np.nanmean` of a column: the mean of its present values. */
  function NanMean(column: seq<Cell>): real
    requires MissingCount(column) < |column|
  {
    Mean(PresentBefore(column, |column|))
  }

  /** With fewer than 20 missing cells, every column has a present value. */
  lemma ColumnsHavePresentValues(cells: seq<Cell>)
    requires |cells| == 60 && MissingCount(cells) < 20
    ensures forall g :: 0 <= g < 3 ==> MissingCount(Column(cells, g)) < 20
  {
    forall g | 0 <= g < 3
      ensures MissingCount(Column(cells, g)) < 20
    {
      ColumnMissingAtMost(cells, g, 20);
    }
  }

  /** `np.nanmean(m, axis = 0)`: the three column means of a year matrix. */
  function ColumnMeans(cells: seq<Cell>): (means: seq<real>)
    requires |cells| == 60 && MissingCount(cells) < 20
    ensures |means| == 3
  {
    ColumnsHavePresentValues(cells);
    seq(3, g requires 0 <= g < 3 => NanMean(Column(cells, g)))
  }

  /** Entry g of the column means is the mean of the present values of column g. */
  lemma ColumnMeansAreNanMeans(cells: seq<Cell>)
    requires |cells| == 60 && MissingCount(cells) < 20
    ensures forall g :: 0 <= g < 3 ==>
      MissingCount(Column(cells, g)) < 20 && ColumnMeans(cells)[g] == NanMean(Column(cells, g))
  {
    ColumnsHavePresentValues(cells);
  }

  lemma MissingRankBelowCount(cells: seq<Cell>, i: nat)
    requires i < |cells| && cells[i].None?
    ensures MissingBefore(cells, i) < MissingCount(cells)
  {
    MissingBeforeMonotone(cells, i + 1, |cells|);
  }

  /**
   * `m[np.isnan(m)] = vals`: boolean-mask assignment visits the missing cells
   * in row-major order, and the k-th of them receives vals[k].
   */
  function MaskAssign(cells: seq<Cell>, vals: seq<real>): (r: seq<Cell>)
    requires MissingCount(cells) == |vals|
    ensures |r| == |cells| && MissingCount(r) == 0
  {
    var r := seq(|cells|, i requires 0 <= i < |cells| =>
      if cells[i].None? then
        MissingRankBelowCount(cells, i);
        Some(vals[MissingBefore(cells, i)])
      else cells[i]);
    forall i | 0 <= i < |cells| && cells[i].None?
      ensures MissingBefore(cells, i) < |vals|
    {
      MissingRankBelowCount(cells, i);
    }
    NoneMissing(r);
    r
  }

  /**
   * One year of `reshapeSchoolDataMeans` (lines 74-77): a year without a
   * missing cell is left alone; otherwise the three column means are written
   * into the missing cells by mask assignment.  NumPy accepts that assignment
   * only when exactly three cells are missing.
   */
  function MeanFilledYear(cells: seq<Cell>): (r: seq<Cell>)
    requires |cells| == 60
    requires MissingCount(cells) == 0 || MissingCount(cells) == 3
    ensures |r| == 60 && MissingCount(r) == 0
  {
    if MissingCount(cells) == 0 then cells
    else MaskAssign(cells, ColumnMeans(cells))
  }

  /** The mean-fill leaves a complete year alone and never alters a present cell. */
  lemma MeanFillKeepsPresent(cells: seq<Cell>)
    requires |cells| == 60
    requires MissingCount(cells) == 0 || MissingCount(cells) == 3
    ensures MissingCount(cells) == 0 ==> MeanFilledYear(cells) == cells
    ensures forall i :: 0 <= i < 60 && cells[i].Some? ==> MeanFilledYear(cells)[i] == cells[i]
  {
  }

  /**
   * The mask assignment keeps every present cell and gives the k-th missing
   * cell, in row-major order, the k-th value.
   */
  lemma MaskAssignFills(cells: seq<Cell>, vals: seq<real>)
    requires MissingCount(cells) == |vals|
    ensures forall i :: 0 <= i < |cells| && cells[i].Some? ==> MaskAssign(cells, vals)[i] == cells[i]
    ensures forall i :: 0 <= i < |cells| && cells[i].None? ==>
      MissingBefore(cells, i) < |vals| && MaskAssign(cells, vals)[i] == Some(vals[MissingBefore(cells, i)])
  {
    forall i | 0 <= i < |cells| && cells[i].None?
      ensures MissingBefore(cells, i) < |vals|
    {
      MissingRankBelowCount(cells, i);
    }
  }

  /** The k-th missing cell, in row-major order, lies in column k. */
  predicate MissingOnePerColumn(cells: seq<Cell>) {
    && MissingCount(cells) == 3
    && forall i :: 0 <= i < |cells| && cells[i].None? ==> MissingBefore(cells, i) == i % 3
  }

  /**
   * The docstring's intent (line 60): when the missing cells fall one per
   * column in order, each one becomes the mean of the present values of its
   * own grade column in that year.
   */
  lemma MeanFillPerColumn(cells: seq<Cell>, i: nat)
    requires |cells| == 60 && MissingOnePerColumn(cells)
    requires i < 60 && cells[i].None?
    ensures MeanFilledYear(cells)[i] == Some(NanMean(Column(cells, i % 3)))
  {
    ColumnMeansAreNanMeans(cells);
    MaskAssignFills(cells, ColumnMeans(cells));
  }

  /**
   * As written, the assignment ignores which column a missing cell is in:
   * when the grade-10 cells of schools 0, 1 and 2 are the missing ones, they
   * receive the grade-10, grade-11 and grade-12 means in turn.
   */
  lemma MeanFillFollowsRowMajorOrder(cells: seq<Cell>)
    requires |cells| == 60
    requires forall i :: 0 <= i < 60 ==> (cells[i].None? <==> i == 0 || i == 3 || i == 6)
    ensures MissingCount(cells) == 3
    ensures MissingCount(Column(cells, 1)) == 0 && MissingCount(Column(cells, 2)) == 0
    ensures MeanFilledYear(cells)[3] == Some(NanMean(Column(cells, 1)))
    ensures MeanFilledYear(cells)[6] == Some(NanMean(Column(cells, 2)))
  {
    PresentBetween(cells, 1, 3);
    PresentBetween(cells, 4, 6);
    PresentBetween(cells, 7, 60);
    NoneMissing(Column(cells, 1));
    NoneMissing(Column(cells, 2));
    ColumnMeansAreNanMeans(cells);
    MaskAssignFills(cells, ColumnMeans(cells));
  }

  /** A year where one school's row is entirely missing meets the per-column condition. */
  lemma WholeRowMissing(cells: seq<Cell>, s: nat)
    requires |cells| == 60 && s < 20
    requires forall i :: 0 <= i < 60 ==> (cells[i].None? <==> 3 * s <= i < 3 * s + 3)
    ensures MissingOnePerColumn(cells)
  {
    PresentBetween(cells, 0, 3 * s);
    assert MissingBefore(cells, 3 * s + 1) == 1;
    assert MissingBefore(cells, 3 * s + 2) == 2;
    assert MissingBefore(cells, 3 * s + 3) == 3;
    PresentBetween(cells, 3 * s + 3, 60);
  }

  /** A year arrays' missing count is one NumPy's mask assignment accepts. */
  predicate FillableYears(data: seq<array<Cell>>)
    requires YearArrays(data)
    reads data
  {
    forall y :: 0 <= y < 10 ==> MissingCount(data[y][..]) == 0 || MissingCount(data[y][..]) == 3
  }

  /**
   * Lines 75-77 on one year matrix, written through its view: when a cell is
   * missing, the column means are computed first and then assigned to the
   * missing cells in row-major order.
   */
  method FillYear(matrix: array<Cell>, ghost cells: seq<Cell>)
    requires matrix[..] == cells && |cells| == 60
    requires MissingCount(cells) == 0 || MissingCount(cells) == 3
    modifies matrix
    ensures matrix[..] == MeanFilledYear(cells)
  {
    if MissingCount(matrix[..]) > 0 {
      var means := ColumnMeans(matrix[..]);
      AssignMasked(matrix, means);
    }
  }

  /**
   * `m[np.isnan(m)] = vals` in place: walks the cells in row-major order and
   * writes the next value into each missing one.
   */
  method AssignMasked(matrix: array<Cell>, vals: seq<real>)
    requires MissingCount(matrix[..]) == |vals|
    modifies matrix
    ensures matrix[..] == MaskAssign(old(matrix[..]), vals)
  {
    ghost var cells := matrix[..];
    ghost var filled := MaskAssign(cells, vals);
    MaskAssignFills(cells, vals);
    var k := 0;
    for i := 0 to matrix.Length
      invariant k == MissingBefore(cells, i)
      invariant forall j :: 0 <= j < i ==> matrix[j] == filled[j]
      invariant forall j :: i <= j < matrix.Length ==> matrix[j] == cells[j]
    {
      if matrix[i].None? {
        matrix[i] := Some(vals[k]);
        k := k + 1;
      }
    }
    assert matrix[..] == filled;
  }

  /**
   * Lines 74-77: the loop over the year matrices, each filled in place.
   * `years` names the matrices' contents on entry.
   */
  method FillYears(data: seq<array<Cell>>, ghost years: seq<seq<Cell>>)
    requires YearArrays(data) && |years| == 10
    requires forall z :: 0 <= z < 10 ==> data[z][..] == years[z]
    requires forall z :: 0 <= z < 10 ==> MissingCount(years[z]) == 0 || MissingCount(years[z]) == 3
    requires forall y, z :: 0 <= y < z < 10 ==> data[y] != data[z]
    modifies data
    ensures forall z :: 0 <= z < 10 ==> data[z][..] == MeanFilledYear(years[z])
  {
    ghost var filled: seq<seq<Cell>> := [];
    for y := 0 to 10
      invariant |filled| == y
      invariant forall z :: 0 <= z < y ==> filled[z] == MeanFilledYear(years[z])
      invariant forall z :: 0 <= z < y ==> data[z][..] == filled[z]
      invariant forall z :: y <= z < 10 ==> data[z][..] == years[z]
    {
      FillYear(data[y], years[y]);
      filled := filled + [data[y][..]];
    }
  }

  /**
   * `reshapeSchoolDataMeans`: fills every year matrix in place through its
   * reshape view, so the input arrays come back filled, then stacks them.
   */
  method ReshapeSchoolDataMeans(data: seq<array<Cell>>) returns (t: array3<real>)
    requires YearArrays(data) && FillableYears(data)
    requires forall y, z :: 0 <= y < z < 10 ==> data[y] != data[z]
    modifies data
    ensures forall y :: 0 <= y < 10 ==> data[y][..] == MeanFilledYear(old(data[y][..]))
    ensures fresh(t)
    ensures t.Length0 == 10 && t.Length1 == 20 && t.Length2 == 3
    ensures forall y, s, g :: 0 <= y < 10 && 0 <= s < 20 && 0 <= g < 3 ==>
      data[y][3 * s + g] == Some(t[y, s, g])
  {
    ghost var years := seq(10, z requires 0 <= z < 10 reads data => data[z][..]);
    FillYears(data, years);
    forall y, i | 0 <= y < 10 && 0 <= i < 60
      ensures data[y][i].Some?
    {
      assert data[y][i] == data[y][..][i];
      MissingCountZero(data[y][..], i);
    }
    // Every cell is present now, so the stacking copies each one and never stores a 0 for a gap.
    t := StackZeroFilled(data);
  }
}
