# Enrollment statistics and car-vision sensor, in Dafny

This project models two small programs and proves properties of the models.

- **School enrollment statistics** (`assignment3/school_data.py`). Ten flat year
  arrays (2013 to 2022) of 60 enrollment cells each are built into a
  `[year][school][grade]` tensor of shape 10×20×3, in two ways: missing cells
  set to 0, or missing cells set to column means. `SchoolStats` queries one
  school's slice of the zero-filled tensor and `GeneralStats` queries the whole
  of both tensors. `main` resolves a typed name or code to a school, keeps a
  running total of the truncated yearly totals and prints both reports.
- **Car-vision sensor** (`assignment2/input_processing.py`). A `Sensor` object
  holds a light, a pedestrian and a vehicle reading and a status, which
  `update_status` recomputes. The `main` menu loop reads an option line and,
  for options 1 to 3, an answer line, then updates the sensor.

Modelling choices:

- Enrollment values are `real`, and a missing (NaN) cell is `None` of
  `Option<real>`. The values are reals because the mean-fill writes column
  means back into the input arrays. `.astype(int)` is `Trunc`, truncation
  toward zero, written out for both signs.
- The year arrays are `seq<array<Cell>>` on the heap.
  - The zero-fill only reads them: it copies before it masks.
  - The mean-fill writes into them, because `reshape(20, 3)` is a view.
  - Both builders loop into a new `array3<real>`. `TensorOf` reads such an
    array as a value.
- `SchoolStats` and `GeneralStats` keep the fields `__init__` sets and never
  change them, so they are datatypes, and their query methods are functions.
  `meanTotalEnrollment` builds its list in a loop, so it is a method.
- Python's `int(text)` is modelled in `PythonInt`:
  - surrounding ASCII whitespace is stripped;
  - one optional sign is allowed;
  - then decimal digits, with single underscores allowed between digits;
  - anything else is `None`, which stands for the ValueError.
- `school_dict` is its `keys()` and `values()` lists. A Python dict keeps
  insertion order, so a code's position in `keys()` is the school's row.
- The typed input is a finite script of lines. `main`'s printed numbers are
  returned as report datatypes.
- `Sensor` is a class whose fields the methods assign. `Snapshot()` reads the
  four fields as a `Readings` value, and `Valid()` is the invariant "a red
  light shows STOP". A status is always STOP, Proceed or Caution because
  `Status` has exactly those three constructors.
- The readings are enumerations. `update_status` tests `light in 'red'` and
  `pedestrian in 'no'`. These are substring tests, but they agree with
  equality for the only values `main` lets through.

Where the code differs from what its comments and documentation say, the model
follows the code:

- `update_status` has no `else` branch. A green or yellow light with a
  pedestrian or a vehicle therefore keeps its previous status, where the
  comment at line 13 of `input_processing.py` asks for STOP.
  `RefreshFollowsComment` says exactly when the two agree, and
  `ProceedSurvivesPedestrian` is a script on which they differ.
- The mean-fill assigns the three column means to the missing cells in
  row-major order: the k-th missing cell receives the mean of column k. So
  each missing cell gets its own column's mean (the docstring at line 60)
  only when the k-th missing cell lies in column k. `MeanFillPerColumn`
  proves that case, and `MeanFillFollowsRowMajorOrder` shows a year where
  cells receive another column's mean.
- The median report need not exceed 500. It is at least 500, but the median
  of values above 500 is truncated, so a median of 500.5 prints as 500.
- A year matrix with exactly three missing cells cannot have a column that is
  missing entirely, so the mean-fill never takes the mean of nothing.

## Model

| member | source | states |
|---|---|---|
| PythonInt.StripLeftRemovesSpace | assignment3/school_data.py:256 | `int()` begins by dropping leading whitespace: the result is a suffix of the input, it does not start with whitespace, and every character dropped is whitespace |
| PythonInt.StripRightRemovesSpace | assignment3/school_data.py:256 | the same for trailing whitespace: the result is a prefix, does not end with whitespace, and every character dropped is whitespace |
| PythonInt.DigitsAreWellFormed | assignment3/school_data.py:256 | the decimal digits of any natural number are a well-formed literal that reads back as that number |
| PythonInt.ParseDecimalString | assignment3/school_data.py:256 | `int(str(n)) == n` for every integer n, so a code typed as printed is read back |
| Reductions.Max | assignment3/school_data.py:122 | `np.max` is at least every value and is one of them |
| Reductions.Min | assignment3/school_data.py:131 | `np.min` is at most every value and is one of them |
| Reductions.Mean | assignment3/school_data.py:113 | `.mean()` of a non-empty sequence lies between its minimum and its maximum |
| Reductions.SumBounds | assignment3/school_data.py:144 | a sum of n values each within [lo, hi] lies within [n·lo, n·hi] |
| Reductions.InsertSorted | assignment3/school_data.py:158 | inserting into a sorted sequence keeps it sorted |
| Reductions.InsertPermutes | assignment3/school_data.py:158 | inserting adds exactly that value to the multiset |
| Reductions.Sort | assignment3/school_data.py:158 | the values `np.median` orders: sorted, and a permutation of the input |
| Reductions.Median | assignment3/school_data.py:158 | `np.median` (the middle value, or the average of the two middle values) lies between the minimum and the maximum |
| Reductions.Above | assignment3/school_data.py:158 | the mask selection `x[x > 500]` contains a value exactly when the input does and the value is above the bound |
| Reductions.AboveKeepsMultiplicity | assignment3/school_data.py:158 | the selection keeps each value above the bound exactly as often as the input holds it and drops every other value, so the median reads the right multiset |
| Reductions.Trunc | assignment3/school_data.py:271 | `.astype(int)` truncates toward zero: within one below a nonnegative value, within one above a negative one |
| Reductions.TruncMonotone | assignment3/school_data.py:271-275 | truncation preserves order |
| Reductions.TruncSumBounds | assignment3/school_data.py:277-283 | for nonnegative values, the sum of the truncated values is at most the exact sum and, for n > 0 values, more than the exact sum minus n |
| SchoolTensor.StackZeroFilled | assignment3/school_data.py:51-55 | a new 10×20×3 array whose cell [y, s, g] is cell 3s+g of year y, with a missing cell stored as 0 |
| SchoolTensor.ReshapeSchoolData | assignment3/school_data.py:39-57 | shape 10×20×3, row-major: present cells are copied, missing cells become 0, and the input arrays are not modified |
| SchoolTensor.NoneMissing | assignment3/school_data.py:75 | a year in which every cell is present has no missing cell |
| SchoolTensor.MissingCountZero | assignment3/school_data.py:75 | conversely, a year with no missing cell has every cell present |
| SchoolTensor.ColumnsHavePresentValues | assignment3/school_data.py:77 | with fewer than 20 missing cells in a year, every grade column has a present value, so `np.nanmean` is defined |
| SchoolTensor.ColumnMeans | assignment3/school_data.py:77 | `np.nanmean(m, axis = 0)` yields three means |
| SchoolTensor.MaskAssign | assignment3/school_data.py:77 | after the mask assignment no cell is missing and the length is kept |
| SchoolTensor.MeanFilledYear | assignment3/school_data.py:74-77 | a year after the mean-fill has 60 cells and none missing |
| SchoolTensor.MeanFillKeepsPresent | assignment3/school_data.py:74-77 | the mean-fill leaves a year without missing cells unchanged and never alters a present cell |
| SchoolTensor.MeanFillPerColumn | assignment3/school_data.py:60-77 | when the k-th missing cell lies in column k, every missing cell becomes the mean of the present values of its own grade column |
| SchoolTensor.MeanFillFollowsRowMajorOrder | assignment3/school_data.py:77 | when the grade-10 cells of schools 0, 1 and 2 are missing, those of schools 1 and 2 receive the grade-11 and grade-12 means |
| SchoolTensor.WholeRowMissing | assignment3/school_data.py:60-77 | a year in which one school's row is missing entirely meets the per-column condition |
| SchoolTensor.AssignMasked | assignment3/school_data.py:77 | the in-place mask assignment leaves the matrix equal to `MaskAssign` of its old contents |
| SchoolTensor.FillYear | assignment3/school_data.py:75-77 | one year matrix filled in place becomes `MeanFilledYear` of its contents |
| SchoolTensor.FillYears | assignment3/school_data.py:74-77 | every one of the ten distinct year arrays is filled in place |
| SchoolTensor.ReshapeSchoolDataMeans | assignment3/school_data.py:59-81 | the input arrays come back mean-filled, and the new 10×20×3 result holds their cells row-major |
| SchoolDirectory.DirectoryShape | assignment3/school_data.py:15-35 | 20 codes and 20 names, with no code and no name repeated |
| SchoolDirectory.NumberIsNoName | assignment3/school_data.py:251-256 | no printed natural number (`str(n)` for n ≥ 0) is a school name |
| SchoolDirectory.IndexOf | assignment3/school_data.py:99 | `list.index`: the first position holding the value |
| SchoolDirectory.Resolve | assignment3/school_data.py:251-260 | a name resolves to the code stored with it; otherwise an input is accepted exactly when `int()` reads it as a key; anything resolved is a key |
| SchoolDirectory.NameAndCodeAgree | assignment3/school_data.py:98-99 | resolving school i by name or by its printed code gives the same code, row and name |
| SchoolDirectory.ReadIdentifier | assignment3/school_data.py:245-263 | the prompt loop stops at the first line that resolves; every line before it was rejected; it is still prompting only when the script has run out |
| SchoolStatistics.TensorRows | assignment3/school_data.py:223 | the 200 (year, school) rows of a tensor, year-major |
| SchoolStatistics.SchoolStats.Cells | assignment3/school_data.py:122 | the school's 30 cells |
| SchoolStatistics.SchoolStats.HighestEnrollment | assignment3/school_data.py:115-122 | at least every cell of the school, over every year and grade, and equal to one of them |
| SchoolStatistics.SchoolStats.LowestEnrollment | assignment3/school_data.py:124-131 | at most every cell of the school, and equal to one of them |
| SchoolStatistics.SchoolStats.MeanEnrollment | assignment3/school_data.py:102-113 | the ten-year mean of one grade lies between the school's lowest and highest enrollment |
| SchoolStatistics.SchoolStats.TotalEnrollment | assignment3/school_data.py:133-144 | the sum of the three grades at year offset year − 2013, between three times the lowest and three times the highest enrollment |
| SchoolStatistics.SchoolStats.MeanTotalEnrollment | assignment3/school_data.py:160-173 | the appending loop's mean is the mean of the ten yearly totals, which is the sum of the school's cells divided by ten |
| SchoolStatistics.SchoolStats.MeanTotalIsTenYearMean | assignment3/school_data.py:168-173 | the mean of the yearly totals is the sum of the school's 30 cells divided by ten |
| SchoolStatistics.SchoolStats.MeanTotalBounds | assignment3/school_data.py:160-173 | the mean total lies between three times the lowest and three times the highest enrollment |
| SchoolStatistics.SchoolStats.MedianTotalEnrollment | assignment3/school_data.py:146-158 | the message is printed exactly when no cell of the school exceeds 500; otherwise the printed median lies between the truncated minimum and maximum of the cells above 500, hence at least 500 and at most the truncated highest enrollment |
| SchoolStatistics.NewSchoolStats | assignment3/school_data.py:96-100 | the code, its name from the dictionary, the code's position as row, and the tensor, with all four consistent |
| SchoolStatistics.GeneralStats.AllCells | assignment3/school_data.py:223 | the 600 cells of the zero-filled tensor |
| SchoolStatistics.GeneralStats.HighestEnrollment | assignment3/school_data.py:216-223 | at least every cell of the zero-filled tensor, and equal to one of them |
| SchoolStatistics.GeneralStats.LowestEnrollment | assignment3/school_data.py:225-232 | at most every cell of the zero-filled tensor, and equal to one of them |
| SchoolStatistics.GeneralStats.MeanEnrollment | assignment3/school_data.py:189-201 | the year's mean on the mean-filled tensor is at least one of that year's cells and at most another |
| SchoolStatistics.GeneralStats.TotalGraduating | assignment3/school_data.py:203-214 | the sum of the grade-12 column of the zero-filled tensor, between twenty times the lowest and twenty times the highest enrollment |
| SchoolStatistics.SchoolWithinGeneral | assignment3/school_data.py:216-232 | on the same tensor, a school's extremes lie within the extremes of all schools |
| SchoolProgram.TruncatedTotals | assignment3/school_data.py:280 | the ten printed yearly totals |
| SchoolProgram.TenYearTotal | assignment3/school_data.py:277-283 | the loop prints the truncated total of each year and its running total is the sum of the printed values |
| SchoolProgram.TenYearTotalBounds | assignment3/school_data.py:277-283 | with no negative cell, the running total lies in (exact ten-year enrollment − 10, exact ten-year enrollment] |
| SchoolProgram.TruncatedGradeMeans | assignment3/school_data.py:271-273 | each printed grade mean lies between the printed lowest and highest enrollment |
| SchoolProgram.SchoolReportOf | assignment3/school_data.py:266-285 | the printed school report: its name and code; its three grade means within the printed extremes; its ten-year total equal to the sum of the printed yearly totals |
| SchoolProgram.GeneralReportOf | assignment3/school_data.py:288-296 | in the printed general report the lowest enrollment is at most the highest |
| SchoolProgram.ReportsAgree | assignment3/school_data.py:274-296 | the school's printed extremes lie within the printed extremes of all schools |
| SchoolProgram.BuildTensors | assignment3/school_data.py:239-240 | the zero-filled tensor reads the arrays before the mean-fill writes them; when no cell is missing the two tensors are equal |
| SchoolProgram.RequestedSchool | assignment3/school_data.py:268-285 | the printed school numbers, with the running total from the loop and the mean from `meanTotalEnrollment`, form the school report |
| SchoolProgram.SchoolData | assignment3/school_data.py:235-296 | both tensors are built; the first line that resolves selects the school; both reports are printed exactly when such a line exists, from the zero-filled tensor and, for the yearly means, the mean-filled one |
| CarVision.ParseLight | assignment2/input_processing.py:67 | an answer is a light exactly when it is one of the three names, and it names that light |
| CarVision.ParseDetection | assignment2/input_processing.py:78 | an answer is a detection exactly when it is "yes" or "no" |
| CarVision.Initial | assignment2/input_processing.py:6-10 | the default sensor: red, yes, yes, STOP, which meets the invariant |
| CarVision.Refreshed | assignment2/input_processing.py:16-28 | only the status changes; red gives STOP; with no pedestrian and no vehicle, green gives Proceed and yellow gives Caution; a non-red light with a pedestrian or a vehicle keeps its status; the invariant always holds after |
| CarVision.RefreshIdempotent | assignment2/input_processing.py:16-28 | refreshing twice is refreshing once |
| CarVision.RefreshFollowsComment | assignment2/input_processing.py:12-28 | the code gives the status the comment asks for exactly when the light is red, nothing is detected, or the status already was STOP |
| CarVision.Answered | assignment2/input_processing.py:64-95 | an answer to option k changes only field k (and the status), changes nothing when invalid, and keeps the invariant |
| CarVision.StepSpec | assignment2/input_processing.py:45-102 | one pass of the loop: quits exactly on option 0; ends exactly when options 1-3 have no answer line; consumes two lines exactly for options 1-3; non-numbers and other numbers consume one line and change nothing; keeps the invariant |
| CarVision.RunKeepsRedMeansStop | assignment2/input_processing.py:45-102 | no script can leave a red light showing anything but STOP |
| CarVision.RunAfterAnswer | assignment2/input_processing.py:64-95 | options 1-3 followed by an answer consume both lines |
| CarVision.OptionLines | assignment2/input_processing.py:48 | `int()` reads the option lines "0" to "3" as 0 to 3 |
| CarVision.ZeroQuits | assignment2/input_processing.py:48-61 | typing 0 quits the menu at once, whatever the readings and whatever lines follow |
| CarVision.SetLight | assignment2/input_processing.py:64-70 | typing 1 and a light name sets the light and refreshes the status |
| CarVision.SetPedestrian | assignment2/input_processing.py:75-81 | typing 2 and yes or no sets the pedestrian and refreshes the status |
| CarVision.SetVehicle | assignment2/input_processing.py:87-93 | typing 3 and yes or no sets the vehicle and refreshes the status |
| CarVision.ProceedSurvivesPedestrian | assignment2/input_processing.py:12-28 | after no pedestrian, no vehicle, green and then a pedestrian, the status is still Proceed, though the comment asks for STOP |
| CarVision.Sensor.constructor | assignment2/input_processing.py:6-10 | a sensor with the given readings and status STOP, meeting the invariant |
| CarVision.Sensor.UpdateStatus | assignment2/input_processing.py:16-28 | the fields afterwards are the refreshed readings, and the invariant holds |
| CarVision.ApplyAnswer | assignment2/input_processing.py:64-95 | the sensor afterwards holds the answered readings |
| CarVision.ProcessOption | assignment2/input_processing.py:47-102 | the pass on the object returns the same result as the value model of one pass and leaves the sensor holding its readings |
| CarVision.MenuPass | assignment2/input_processing.py:45-102 | one pass from a position either stops with the outcome of the rest of the run or continues further on with the same outcome, keeping the invariant |
| CarVision.RunMenu | assignment2/input_processing.py:37-102 | the menu loop on a fresh sensor ends in the state, and with the quit flag, of the run from `Sensor()`, and the invariant holds |

## Left out

- Terminal I/O is not modelled. The `input()` prompts, the `print()` lines
  and `print_message` belong to it.
  - Input is a finite script of lines.
  - Output is returned as values: `SchoolReport`, `GeneralReport` and the sensor's readings.
- The module `given_data` is not part of this model, so the ten year arrays are
  a parameter.
- The printed `shape` and `ndim` (lines 241-242) are constants; `ReshapeSchoolData`
  states the shape.
- `assignment4/calgary_dogs.py` is not part of this model: it reads an Excel
  file and is made of pandas calls.
- NumPy's float64 rounding is not modelled; arithmetic is exact.
- NumPy's negative indexing is not modelled. For example, the default `grade = 0`
  gives offset −10 on the grade axis of size 3, which raises IndexError; grades 7
  to 9 would wrap silently to grades 10 to 12, and on the year axis offsets −1 to
  −10 wrap while lower ones raise.
  - Years are required to lie in 2013-2022 and grades in 10-12, as `main` calls them.
- NumPy's broadcast error for a mask assignment whose missing count is neither 0
  nor 3 is a precondition (`FillableYears`), not a modelled exception.
- `int()` is restricted to ASCII: Unicode digits and Unicode whitespace are left out.
- The EOFError that `input()` raises at the end of input is not modelled. A script
  that ends stops the model: `StillPrompting` for the school prompt, and the end
  of the run for the menu.
- PythonInt.ParseInt: carries no `ensures` of its own. What it reads is stated by
  `ParseDecimalString`, `StripLeftRemovesSpace` and `StripRightRemovesSpace`.
- CarVision.Step: carries no `ensures` of its own. Its behaviour is stated by `StepSpec`.
- SchoolStatistics.GeneralStats.MeanEnrollment: states that the mean lies within
  the year's cells, not its exact value as the mean of the 60 cells.
- SchoolTensor.FillYears: requires the ten year arrays to be distinct objects. The
  ten names that `given_data` provides are not visible here, so the model assumes
  they are ten separate arrays and does not cover one array bound to two years.
- SchoolTensor.ReshapeSchoolDataMeans: requires distinct year arrays, for the same
  reason as `FillYears`.
- SchoolProgram.BuildTensors: requires distinct year arrays, for the same reason as
  `FillYears`.
- SchoolProgram.SchoolData: requires distinct year arrays, for the same reason as
  `FillYears`.
- CarVision.Refreshed: the `in 'red'` and `in 'no'` substring tests are modelled as
  equality, which agrees with them for the only values `main` admits.
