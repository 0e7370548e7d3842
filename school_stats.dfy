/**
 * The two statistics classes of assignment3/school_data.py.  Neither class
 * changes its fields after `__init__`, so both are datatypes holding the
 * tensors as values; their query methods are functions, and
 * `meanTotalEnrollment`, which builds a list in a loop, is a method.
 * Years are calendar years 2013..2022 and grades 10..12, as the callers pass them.
 */
module SchoolStatistics {
  import opened Reductions
  import opened SchoolTensor
  import opened SchoolDirectory

  const FirstYear := 2013
  const LastYear := 2022

  /** What `medianTotalEnrollment` prints: the message, or the truncated median. */
  datatype MedianReport = NoEnrollmentsOver500 | MedianOver500(value: int)

  /** `array_3D[:, idx, :]`: the ten [grade 10, 11, 12] rows of one school. */
  function SchoolSlice(t: Tensor, idx: nat): (rows: seq<seq<real>>)
    requires Shaped(t) && idx < 20
    ensures |rows| == 10 && forall y :: 0 <= y < 10 ==> rows[y] == t[y][idx]
  {
    seq(10, y requires 0 <= y < 10 => t[y][idx])
  }

  /** A tensor's 200 (year, school) rows, year-major: what a reduction over the whole tensor sees. */
  function TensorRows(t: Tensor): (rows: seq<seq<real>>)
    requires Shaped(t)
    ensures |rows| == 200
    ensures forall y, s :: 0 <= y < 10 && 0 <= s < 20 ==> rows[20 * y + s] == t[y][s]
  {
    seq(200, k requires 0 <= k < 200 => t[k / 20][k % 20])
  }

  /**
   * Lines 84-100: a school's code, its name, its row (the position of the
   * code among the dictionary's keys) and the zero-filled tensor.
   */
  datatype SchoolStats = SchoolStats(code: int, name: string, idx: nat, tensor: Tensor) {

    predicate Valid() {
      Shaped(tensor) && idx < 20 && Codes[idx] == code && Names[idx] == name
    }

    /** The school's 30 cells, year by year. */
    function Cells(): (c: seq<real>)
      requires Valid()
      ensures |c| == 30
    {
      FlattenLength(SchoolSlice(tensor, idx), 3);
      Flatten(SchoolSlice(tensor, idx))
    }

    /** Lines 116-122: the largest enrollment of the school, over every year and grade. */
    function HighestEnrollment(): (m: real)
      requires Valid()
      ensures forall y, g :: 0 <= y < 10 && 0 <= g < 3 ==> tensor[y][idx][g] <= m
      ensures exists y, g :: 0 <= y < 10 && 0 <= g < 3 && tensor[y][idx][g] == m
    {
      var rows := SchoolSlice(tensor, idx);
      var m := Max(Cells());
      forall y, g | 0 <= y < 10 && 0 <= g < 3
        ensures tensor[y][idx][g] <= m
      {
        FlattenHas(rows, y, g);
      }
      FlattenFrom(rows, m);
      m
    }

    /** Lines 125-131: the smallest enrollment of the school, over every year and grade. */
    function LowestEnrollment(): (m: real)
      requires Valid()
      ensures forall y, g :: 0 <= y < 10 && 0 <= g < 3 ==> m <= tensor[y][idx][g]
      ensures exists y, g :: 0 <= y < 10 && 0 <= g < 3 && tensor[y][idx][g] == m
    {
      var rows := SchoolSlice(tensor, idx);
      var m := Min(Cells());
      forall y, g | 0 <= y < 10 && 0 <= g < 3
        ensures m <= tensor[y][idx][g]
      {
        FlattenHas(rows, y, g);
      }
      FlattenFrom(rows, m);
      m
    }

    /** `array_3D[:, idx, grade - 10]`: one grade of the school over the ten years. */
    function GradeColumn(grade: int): (c: seq<real>)
      requires Valid() && 10 <= grade <= 12
      ensures |c| == 10 && forall y :: 0 <= y < 10 ==> c[y] == tensor[y][idx][grade - 10]
    {
      seq(10, y requires 0 <= y < 10 => tensor[y][idx][grade - 10])
    }

    /**
     * Lines 102-113: the mean of one grade over the ten years, which lies
     * between the school's lowest and highest enrollment.
     */
    function MeanEnrollment(grade: int): (m: real)
      requires Valid() && 10 <= grade <= 12
      ensures LowestEnrollment() <= m <= HighestEnrollment()
    {
      var c := GradeColumn(grade);
      var hi :| 0 <= hi < 10 && c[hi] == Max(c);
      var lo :| 0 <= lo < 10 && c[lo] == Min(c);
      assert c[hi] == tensor[hi][idx][grade - 10];
      assert c[lo] == tensor[lo][idx][grade - 10];
      Mean(c)
    }

    /**
     * Lines 133-144: the sum of the three grades of one year, so at least
     * three times the lowest and at most three times the highest enrollment.
     */
    function TotalEnrollment(year: int): (r: real)
      requires Valid() && FirstYear <= year <= LastYear
      ensures r == tensor[year - FirstYear][idx][0] + tensor[year - FirstYear][idx][1]
        + tensor[year - FirstYear][idx][2]
      ensures 3.0 * LowestEnrollment() <= r <= 3.0 * HighestEnrollment()
    {
      var row := tensor[year - FirstYear][idx];
      assert row == [row[0], row[1], row[2]];
      SumOfThree(row[0], row[1], row[2]);
      Sum(row)
    }

    /** The list `meanTotalEnrollment` builds: the total of each year, 2013 first. */
    function YearlyTotals(): (x: seq<real>)
      requires Valid()
      ensures |x| == 10
      ensures forall y :: 0 <= y < 10 ==> x[y] == TotalEnrollment(FirstYear + y)
    {
      seq(10, y requires 0 <= y < 10 => TotalEnrollment(FirstYear + y))
    }

    /**
     * Lines 160-173: appends the ten yearly totals to a list and returns
     * its mean, which is the school's ten-year enrollment divided by ten.
     */
    method MeanTotalEnrollment() returns (m: real)
      requires Valid()
      ensures m == Mean(YearlyTotals())
      ensures m == Sum(Cells()) / 10.0
    {
      var x: seq<real> := [];
      for year := FirstYear to LastYear + 1
        invariant |x| == year - FirstYear
        invariant forall y :: 0 <= y < |x| ==> x[y] == TotalEnrollment(FirstYear + y)
      {
        x := x + [TotalEnrollment(year)];
      }
      assert x == YearlyTotals();
      m := Mean(x);
      MeanTotalIsTenYearMean();
    }

    /** The mean of the yearly totals is the sum of all the school's cells over ten. */
    lemma MeanTotalIsTenYearMean()
      requires Valid()
      ensures Mean(YearlyTotals()) == Sum(Cells()) / 10.0
    {
      var rows := SchoolSlice(tensor, idx);
      SumFlatten(rows);
      assert RowSums(rows) == YearlyTotals();
    }

    /** The mean total lies between three times the lowest and three times the highest enrollment. */
    lemma MeanTotalBounds()
      requires Valid()
      ensures 3.0 * LowestEnrollment() <= Mean(YearlyTotals()) <= 3.0 * HighestEnrollment()
    {
      var x := YearlyTotals();
      var hi :| 0 <= hi < 10 && x[hi] == Max(x);
      var lo :| 0 <= lo < 10 && x[lo] == Min(x);
      assert Max(x) == TotalEnrollment(FirstYear + hi);
      assert Min(x) == TotalEnrollment(FirstYear + lo);
    }

    /**
     * Lines 146-158: the message when no cell exceeds 500; otherwise the
     * median of the cells above 500, truncated, which is then at least 500
     * and at most the school's highest enrollment, truncated.
     */
    function MedianTotalEnrollment(): (r: MedianReport)
      requires Valid()
      ensures r.NoEnrollmentsOver500? <==>
        forall y, g :: 0 <= y < 10 && 0 <= g < 3 ==> tensor[y][idx][g] <= 500.0
      ensures r.MedianOver500? ==> 500 <= r.value <= Trunc(HighestEnrollment())
      ensures r.MedianOver500? ==> |Above(Cells(), 500.0)| > 0
      ensures r.MedianOver500? ==>
        Trunc(Min(Above(Cells(), 500.0))) <= r.value <= Trunc(Max(Above(Cells(), 500.0)))
    {
      var rows := SchoolSlice(tensor, idx);
      var big := Above(Cells(), 500.0);
      forall y, g | 0 <= y < 10 && 0 <= g < 3 && tensor[y][idx][g] > 500.0
        ensures tensor[y][idx][g] in big
      {
        FlattenHas(rows, y, g);
      }
      if |big| == 0 then NoEnrollmentsOver500
      else
        var med := Median(big);
        assert Min(big) in big && Max(big) in big;
        FlattenFrom(rows, Max(big));
        TruncMonotone(Min(big), med);
        TruncMonotone(med, Max(big));
        TruncMonotone(500.0, med);
        TruncMonotone(med, HighestEnrollment());
        MedianOver500(Trunc(med))
    }
  }

  /**
   * Lines 96-100: `SchoolStats(code, array_3D)`.  The name is looked up in
   * the dictionary and the row is the code's position among its keys; a
   * code that is not a key raises KeyError, which `main` never lets happen.
   */
  function NewSchoolStats(code: int, tensor: Tensor): (s: SchoolStats)
    requires code in Codes && Shaped(tensor)
    ensures s.Valid() && s.code == code && s.name == NameOf(code) && s.tensor == tensor
  {
    DirectoryShape();
    SchoolStats(code, NameOf(code), IndexOf(Codes, code), tensor)
  }

  /**
   * Lines 175-188: the zero-filled tensor and the mean-filled tensor.
   */
  datatype GeneralStats = GeneralStats(zero: Tensor, means: Tensor) {

    predicate Valid() {
      Shaped(zero) && Shaped(means)
    }

    /** Every cell of the zero-filled tensor. */
    function AllCells(): (c: seq<real>)
      requires Valid()
      ensures |c| == 600
    {
      FlattenLength(TensorRows(zero), 3);
      Flatten(TensorRows(zero))
    }

    /** Lines 216-223: the largest enrollment of any school, year and grade. */
    function HighestEnrollment(): (m: real)
      requires Valid()
      ensures forall y, s, g :: 0 <= y < 10 && 0 <= s < 20 && 0 <= g < 3 ==> zero[y][s][g] <= m
      ensures exists y, s, g :: 0 <= y < 10 && 0 <= s < 20 && 0 <= g < 3 && zero[y][s][g] == m
    {
      var rows := TensorRows(zero);
      var m := Max(AllCells());
      forall y, s, g | 0 <= y < 10 && 0 <= s < 20 && 0 <= g < 3
        ensures zero[y][s][g] <= m
      {
        FlattenHas(rows, 20 * y + s, g);
      }
      FlattenFrom(rows, m);
      var k, g :| 0 <= k < 200 && 0 <= g < |rows[k]| && rows[k][g] == m;
      assert rows[k] == zero[k / 20][k % 20];
      m
    }

    /** Lines 225-232: the smallest enrollment of any school, year and grade. */
    function LowestEnrollment(): (m: real)
      requires Valid()
      ensures forall y, s, g :: 0 <= y < 10 && 0 <= s < 20 && 0 <= g < 3 ==> m <= zero[y][s][g]
      ensures exists y, s, g :: 0 <= y < 10 && 0 <= s < 20 && 0 <= g < 3 && zero[y][s][g] == m
    {
      var rows := TensorRows(zero);
      var m := Min(AllCells());
      forall y, s, g | 0 <= y < 10 && 0 <= s < 20 && 0 <= g < 3
        ensures m <= zero[y][s][g]
      {
        FlattenHas(rows, 20 * y + s, g);
      }
      FlattenFrom(rows, m);
      var k, g :| 0 <= k < 200 && 0 <= g < |rows[k]| && rows[k][g] == m;
      assert rows[k] == zero[k / 20][k % 20];
      m
    }

    /** `array_3D_means[year, :, :]`. */
    function YearMeans(year: int): (rows: seq<seq<real>>)
      requires Valid() && FirstYear <= year <= LastYear
      ensures |rows| == 20 && forall s :: 0 <= s < 20 ==> |rows[s]| == 3
      ensures rows == means[year - FirstYear]
    {
      means[year - FirstYear]
    }

    /**
     * Lines 190-201: the mean of one year of the mean-filled tensor, which
     * lies between that year's smallest and largest cell.
     */
    function MeanEnrollment(year: int): (m: real)
      requires Valid() && FirstYear <= year <= LastYear
      ensures exists s, g :: 0 <= s < 20 && 0 <= g < 3 && YearMeans(year)[s][g] <= m
      ensures exists s, g :: 0 <= s < 20 && 0 <= g < 3 && m <= YearMeans(year)[s][g]
    {
      var rows := YearMeans(year);
      FlattenLength(rows, 3);
      var c := Flatten(rows);
      FlattenFrom(rows, Max(c));
      FlattenFrom(rows, Min(c));
      Mean(c)
    }

    /** The grade-12 column of one year: `array_3D[year, :, 2]`. */
    function GraduatingColumn(year: int): (c: seq<real>)
      requires Valid() && FirstYear <= year <= LastYear
      ensures |c| == 20 && forall s :: 0 <= s < 20 ==> c[s] == zero[year - FirstYear][s][2]
    {
      seq(20, s requires 0 <= s < 20 => zero[year - FirstYear][s][2])
    }

    /**
     * Lines 203-214: the sum of grade 12 over all schools in one year, so
     * between twenty times the lowest and twenty times the highest enrollment.
     */
    function TotalGraduating(year: int): (r: real)
      requires Valid() && FirstYear <= year <= LastYear
      ensures r == Sum(GraduatingColumn(year))
      ensures 20.0 * LowestEnrollment() <= r <= 20.0 * HighestEnrollment()
    {
      var c := GraduatingColumn(year);
      SumBounds(c, LowestEnrollment(), HighestEnrollment());
      Sum(c)
    }
  }

  /**
   * One school's extremes lie within the extremes of all schools when both
   * are computed on the same tensor, as `main` does.
   */
  lemma SchoolWithinGeneral(s: SchoolStats, g: GeneralStats)
    requires s.Valid() && g.Valid() && s.tensor == g.zero
    ensures g.LowestEnrollment() <= s.LowestEnrollment()
    ensures s.HighestEnrollment() <= g.HighestEnrollment()
  {
    var y, k :| 0 <= y < 10 && 0 <= k < 3 && s.tensor[y][s.idx][k] == s.HighestEnrollment();
    var y', k' :| 0 <= y' < 10 && 0 <= k' < 3 && s.tensor[y'][s.idx][k'] == s.LowestEnrollment();
  }
}
