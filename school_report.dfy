/**
 * `main` of assignment3/school_data.py without the terminal: the ten year
 * arrays are a parameter (the module `given_data` is not part of this model),
 * the lines the user types are a finite script, and what `main` prints is
 * returned as a report holding the printed numbers.
 */
module SchoolProgram {
  import opened Wrappers
  import opened Reductions
  import opened SchoolTensor
  import opened SchoolDirectory
  import opened SchoolStatistics

  /** The numbers of "Requested School Statistics", each as printed after `.astype(int)`. */
  datatype SchoolReport = SchoolReport(
    name: string,
    code: int,
    gradeMeans: seq<int>,
    highest: int,
    lowest: int,
    yearTotals: seq<int>,
    tenYearTotal: int,
    meanTotal: int,
    median: MedianReport)

  /** The numbers of "General Statistics for All Schools". */
  datatype GeneralReport = GeneralReport(
    mean2013: int,
    mean2022: int,
    graduating2022: int,
    highest: int,
    lowest: int)

  /** The script ran out while `main` was still prompting, or both reports were printed. */
  datatype Outcome = StillPrompting | Printed(school: SchoolReport, general: GeneralReport)

  /** The yearly totals as printed, 2013 first. */
  function TruncatedTotals(s: SchoolStats): (r: seq<int>)
    requires s.Valid()
    ensures |r| == 10
  {
    TruncAll(s.YearlyTotals())
  }

  /**
   * Lines 277-283: prints each year's truncated total and adds it to a
   * running total, so the ten-year total is the sum of the printed totals,
   * not the truncated sum of the exact ones.
   */
  method TenYearTotal(s: SchoolStats) returns (printed: seq<int>, total: int)
    requires s.Valid()
    ensures printed == TruncatedTotals(s)
    ensures total == IntSum(printed)
  {
    printed := [];
    total := 0;
    for year := FirstYear to LastYear + 1
      invariant printed == TruncatedTotals(s)[..year - FirstYear]
      invariant total == IntSum(printed)
    {
      var t := Trunc(s.TotalEnrollment(year));
      assert (printed + [t])[..|printed|] == printed;
      printed := printed + [t];
      total := total + t;
    }
  }

  /**
   * With no negative enrollment, the running total is within ten of the
   * school's exact ten-year enrollment: each of the ten truncations loses
   * less than one.
   */
  lemma TenYearTotalBounds(s: SchoolStats)
    requires s.Valid()
    requires forall y, g :: 0 <= y < 10 && 0 <= g < 3 ==> 0.0 <= s.tensor[y][s.idx][g]
    ensures IntSum(TruncatedTotals(s)) as real <= Sum(s.Cells())
    ensures Sum(s.Cells()) < IntSum(TruncatedTotals(s)) as real + 10.0
  {
    var x := s.YearlyTotals();
    TruncSumBounds(x);
    SumFlatten(SchoolSlice(s.tensor, s.idx));
    assert RowSums(SchoolSlice(s.tensor, s.idx)) == x;
  }

  /** The three grade means as printed, each between the printed extremes. */
  function TruncatedGradeMeans(s: SchoolStats): (r: seq<int>)
    requires s.Valid()
    ensures |r| == 3
    ensures forall k :: 0 <= k < 3 ==>
      Trunc(s.LowestEnrollment()) <= r[k] <= Trunc(s.HighestEnrollment())
  {
    var lo, hi := s.LowestEnrollment(), s.HighestEnrollment();
    var m0, m1, m2 := s.MeanEnrollment(10), s.MeanEnrollment(11), s.MeanEnrollment(12);
    TruncMonotone(lo, m0);
    TruncMonotone(m0, hi);
    TruncMonotone(lo, m1);
    TruncMonotone(m1, hi);
    TruncMonotone(lo, m2);
    TruncMonotone(m2, hi);
    [Trunc(m0), Trunc(m1), Trunc(m2)]
  }

  /** The printed school statistics (lines 267-284). */
  function SchoolReportOf(s: SchoolStats): (r: SchoolReport)
    requires s.Valid()
    ensures r.name == s.name && r.code == s.code && |r.gradeMeans| == 3
    ensures forall k :: 0 <= k < 3 ==> r.lowest <= r.gradeMeans[k] <= r.highest
    ensures r.tenYearTotal == IntSum(r.yearTotals)
  {
    SchoolReport(
      s.name, s.code, TruncatedGradeMeans(s),
      Trunc(s.HighestEnrollment()), Trunc(s.LowestEnrollment()),
      TruncatedTotals(s), IntSum(TruncatedTotals(s)),
      Trunc(Mean(s.YearlyTotals())), s.MedianTotalEnrollment())
  }

  /** The printed general statistics (lines 290-296). */
  function GeneralReportOf(g: GeneralStats): (r: GeneralReport)
    requires g.Valid()
    ensures r.lowest <= r.highest
  {
    var y, s, k :| 0 <= y < 10 && 0 <= s < 20 && 0 <= k < 3 && g.zero[y][s][k] == g.HighestEnrollment();
    TruncMonotone(g.LowestEnrollment(), g.HighestEnrollment());
    GeneralReport(
      Trunc(g.MeanEnrollment(2013)), Trunc(g.MeanEnrollment(2022)),
      Trunc(g.TotalGraduating(2022)),
      Trunc(g.HighestEnrollment()), Trunc(g.LowestEnrollment()))
  }

  /**
   * The school's printed extremes lie within the printed extremes of all
   * schools, since both come from the zero-filled tensor.
   */
  lemma ReportsAgree(s: SchoolStats, g: GeneralStats)
    requires s.Valid() && g.Valid() && s.tensor == g.zero
    ensures GeneralReportOf(g).lowest <= SchoolReportOf(s).lowest
    ensures SchoolReportOf(s).highest <= GeneralReportOf(g).highest
  {
    SchoolWithinGeneral(s, g);
    TruncMonotone(g.LowestEnrollment(), s.LowestEnrollment());
    TruncMonotone(s.HighestEnrollment(), g.HighestEnrollment());
  }

  /**
   * Lines 238-241: the zero-filled tensor first, then the mean-filled one,
   * which fills the year arrays in place as it goes.  When no cell is
   * missing the two tensors are equal.
   */
  method BuildTensors(data: seq<array<Cell>>) returns (zero: array3<real>, means: array3<real>)
    requires YearArrays(data) && FillableYears(data)
    requires forall y, z :: 0 <= y < z < 10 ==> data[y] != data[z]
    modifies data
    ensures zero.Length0 == 10 && zero.Length1 == 20 && zero.Length2 == 3
    ensures means.Length0 == 10 && means.Length1 == 20 && means.Length2 == 3
    ensures forall y, s, g :: 0 <= y < 10 && 0 <= s < 20 && 0 <= g < 3 ==>
      zero[y, s, g] == ZeroOr(old(data[y][3 * s + g]))
    ensures forall y :: 0 <= y < 10 ==> data[y][..] == MeanFilledYear(old(data[y][..]))
    ensures forall y, s, g :: 0 <= y < 10 && 0 <= s < 20 && 0 <= g < 3 ==>
      data[y][3 * s + g] == Some(means[y, s, g])
    ensures (forall y :: 0 <= y < 10 ==> MissingCount(old(data[y][..])) == 0) ==>
      TensorOf(zero) == TensorOf(means)
  {
    ghost var before := seq(10, y requires 0 <= y < 10 reads data => data[y][..]);
    zero := ReshapeSchoolData(data);
    means := ReshapeSchoolDataMeans(data);
    if forall y :: 0 <= y < 10 ==> MissingCount(before[y]) == 0 {
      forall y, s, g | 0 <= y < 10 && 0 <= s < 20 && 0 <= g < 3
        ensures zero[y, s, g] == means[y, s, g]
      {
        MeanFillKeepsPresent(before[y]);
        assert data[y][..][3 * s + g] == before[y][3 * s + g];
        MissingCountZero(before[y], 3 * s + g);
      }
      SameTensor(zero, means);
    }
  }

  /**
   * Lines 267-284 for a resolved code: the statistics of that school on the
   * zero-filled tensor, the yearly totals and their running total.
   */
  method RequestedSchool(code: int, zero: Tensor) returns (report: SchoolReport)
    requires code in Codes && Shaped(zero)
    ensures report == SchoolReportOf(NewSchoolStats(code, zero))
  {
    var s := NewSchoolStats(code, zero);
    var printed, total := TenYearTotal(s);
    var meanTotal := s.MeanTotalEnrollment();
    report := SchoolReport(
      s.name, s.code, TruncatedGradeMeans(s),
      Trunc(s.HighestEnrollment()), Trunc(s.LowestEnrollment()),
      printed, total, Trunc(meanTotal), s.MedianTotalEnrollment());
  }

  /**
   * Lines 235-296: builds both tensors, prompts until a line resolves to a
   * school, and prints the school's and the general statistics.  The school
   * statistics read the zero-filled tensor; only the general yearly mean
   * reads the mean-filled one.
   */
  method SchoolData(data: seq<array<Cell>>, lines: seq<string>)
    returns (zero: array3<real>, means: array3<real>, used: nat, outcome: Outcome)
    requires YearArrays(data) && FillableYears(data)
    requires forall y, z :: 0 <= y < z < 10 ==> data[y] != data[z]
    modifies data
    ensures zero.Length0 == 10 && zero.Length1 == 20 && zero.Length2 == 3
    ensures means.Length0 == 10 && means.Length1 == 20 && means.Length2 == 3
    ensures forall y, s, g :: 0 <= y < 10 && 0 <= s < 20 && 0 <= g < 3 ==>
      zero[y, s, g] == ZeroOr(old(data[y][3 * s + g]))
    ensures forall y :: 0 <= y < 10 ==> data[y][..] == MeanFilledYear(old(data[y][..]))
    ensures forall y, s, g :: 0 <= y < 10 && 0 <= s < 20 && 0 <= g < 3 ==>
      data[y][3 * s + g] == Some(means[y, s, g])
    ensures used <= |lines| && forall k :: 0 <= k < used ==> Resolve(lines[k]).None?
    ensures outcome.StillPrompting? <==> used == |lines|
    ensures outcome.Printed? ==>
      && used < |lines|
      && Resolve(lines[used]).Some?
      && outcome.school == SchoolReportOf(NewSchoolStats(Resolve(lines[used]).value, TensorOf(zero)))
      && outcome.general == GeneralReportOf(GeneralStats(TensorOf(zero), TensorOf(means)))
  {
    zero, means := BuildTensors(data);
    var code: Option<int>;
    code, used := ReadIdentifier(lines, Resolve);
    if code.None? {
      outcome := StillPrompting;
    } else {
      var school := RequestedSchool(code.value, TensorOf(zero));
      outcome := Printed(school, GeneralReportOf(GeneralStats(TensorOf(zero), TensorOf(means))));
    }
  }

  /** Two arrays with the same shape and the same cells hold the same tensor. */
  lemma SameTensor(a: array3<real>, b: array3<real>)
    requires a.Length0 == b.Length0 && a.Length1 == b.Length1 && a.Length2 == b.Length2
    requires forall y, s, g :: 0 <= y < a.Length0 && 0 <= s < a.Length1 && 0 <= g < a.Length2 ==>
      a[y, s, g] == b[y, s, g]
    ensures TensorOf(a) == TensorOf(b)
  {
    var ta, tb := TensorOf(a), TensorOf(b);
    forall y | 0 <= y < a.Length0
      ensures ta[y] == tb[y]
    {
      forall s | 0 <= s < a.Length1
        ensures ta[y][s] == tb[y][s]
      {
      }
    }
  }
}
