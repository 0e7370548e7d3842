/**
 * assignment2/input_processing.py: the car-vision `Sensor` and the menu loop
 * of `main` that feeds it.  The readings are enumerations; the typed lines
 * are a finite script, read one line for the option and, for options 1-3,
 * one more line for the answer.
 */
module CarVision {
  import opened Wrappers
  import opened PythonInt

  datatype Light = Green | Yellow | Red
  datatype Detection = Yes | No

  /** The three texts `status` is ever given: 'STOP', 'Proceed' and 'Caution'. */
  datatype Status = Stop | Proceed | Caution

  /** The four fields of a sensor, as a value. */
  datatype Readings = Readings(light: Light, pedestrian: Detection, vehicle: Detection, status: Status)

  function LightName(l: Light): string {
    match l
    case Green => "green"
    case Yellow => "yellow"
    case Red => "red"
  }

  function DetectionName(d: Detection): string {
    match d
    case Yes => "yes"
    case No => "no"
  }

  /** Line 67: an answer is a light only when it is one of the three names. */
  function ParseLight(s: string): (r: Option<Light>)
    ensures r.Some? ==> LightName(r.value) == s
    ensures forall l :: s == LightName(l) ==> r == Some(l)
  {
    if s == "green" then Some(Green)
    else if s == "yellow" then Some(Yellow)
    else if s == "red" then Some(Red)
    else None
  }

  /** Lines 78 and 90: an answer is a detection only when it is "yes" or "no". */
  function ParseDetection(s: string): (r: Option<Detection>)
    ensures r.Some? ==> DetectionName(r.value) == s
    ensures forall d :: s == DetectionName(d) ==> r == Some(d)
  {
    if s == "yes" then Some(Yes)
    else if s == "no" then Some(No)
    else None
  }

  /** The invariant every step keeps: a red light shows STOP. */
  predicate RedMeansStop(r: Readings) {
    r.light == Red ==> r.status == Stop
  }

  /** Lines 6-10: `Sensor()` with its default arguments. */
  function Initial(): (r: Readings)
    ensures RedMeansStop(r)
  {
    Readings(Red, Yes, Yes, Stop)
  }

  /**
   * Lines 16-28, `update_status` on the readings.  Only the status changes:
   * a red light gives STOP; a green or yellow light with neither a
   * pedestrian nor a vehicle gives Proceed or Caution; a green or yellow
   * light with a pedestrian or a vehicle keeps the status it had (there is
   * no else branch).
   */
  function Refreshed(r: Readings): (r': Readings)
    ensures r'.light == r.light && r'.pedestrian == r.pedestrian && r'.vehicle == r.vehicle
    ensures r.light == Red ==> r'.status == Stop
    ensures r.pedestrian == No && r.vehicle == No && r.light == Green ==> r'.status == Proceed
    ensures r.pedestrian == No && r.vehicle == No && r.light == Yellow ==> r'.status == Caution
    ensures r.light != Red && (r.pedestrian == Yes || r.vehicle == Yes) ==> r' == r
    ensures RedMeansStop(r')
  {
    if r.light == Red then r.(status := Stop)
    else if r.pedestrian == No && r.vehicle == No then
      match r.light
      case Green => r.(status := Proceed)
      case Yellow => r.(status := Caution)
    else r
  }

  /** Refreshing twice is refreshing once. */
  lemma RefreshIdempotent(r: Readings)
    ensures Refreshed(Refreshed(r)) == Refreshed(r)
  {
  }

  /**
   * The rule the comment at lines 12-15 states: STOP whenever the light is
   * red or a pedestrian or a vehicle is seen, else Proceed on green and
   * Caution on yellow.
   */
  function CommentStatus(light: Light, pedestrian: Detection, vehicle: Detection): Status {
    if light == Red || pedestrian == Yes || vehicle == Yes then Stop
    else if light == Green then Proceed
    else Caution
  }

  /**
   * The code follows the comment exactly when the light is red or nothing
   * is detected, and otherwise exactly when the previous status was already STOP.
   */
  lemma {:induction false} RefreshFollowsComment(r: Readings)
    ensures Refreshed(r).status == CommentStatus(r.light, r.pedestrian, r.vehicle) <==>
      (r.light == Red || (r.pedestrian == No && r.vehicle == No) || r.status == Stop)
  {
    if r.light != Red && (r.pedestrian == Yes || r.vehicle == Yes) {
      assert Refreshed(r) == r;
    }
  }

  /** What one pass of the `while(True)` body does with the remaining script. */
  datatype StepResult =
    | Quit                                      // option 0: "Goodbye." and break
    | Ended                                     // the script ends before the answer
    | Continue(readings: Readings, consumed: nat)

  /**
   * Lines 48-102.  The option line goes through `int`: 0 quits; 1, 2 and 3
   * read an answer line and, when it is valid, set the light, the pedestrian
   * or the vehicle and refresh the status; an invalid answer, any other
   * number and text that is not a number raise ValueError, which prints an
   * error and leaves the sensor as it was.
   */
  function Step(r: Readings, lines: seq<string>): StepResult
    requires |lines| > 0
  {
    match ParseInt(lines[0])
    case None => Continue(r, 1)
    case Some(option) =>
      if option == 0 then Quit
      else if 1 <= option <= 3 then
        if |lines| == 1 then Ended else Continue(Answered(r, option, lines[1]), 2)
      else Continue(r, 1)
  }

  /**
   * Lines 64-99: option 1 reads a light, options 2 and 3 read a detection
   * for the pedestrian and for the vehicle; a valid answer sets that field
   * and refreshes the status, an invalid one changes nothing.
   */
  function Answered(r: Readings, option: int, answer: string): (r': Readings)
    requires 1 <= option <= 3
    ensures option != 1 ==> r'.light == r.light
    ensures option != 2 ==> r'.pedestrian == r.pedestrian
    ensures option != 3 ==> r'.vehicle == r.vehicle
    ensures (if option == 1 then ParseLight(answer).None? else ParseDetection(answer).None?) ==> r' == r
    ensures RedMeansStop(r) ==> RedMeansStop(r')
  {
    if option == 1 then
      match ParseLight(answer)
      case Some(l) => Refreshed(r.(light := l))
      case None => r
    else if option == 2 then
      match ParseDetection(answer)
      case Some(d) => Refreshed(r.(pedestrian := d))
      case None => r
    else
      match ParseDetection(answer)
      case Some(d) => Refreshed(r.(vehicle := d))
      case None => r
  }

  /**
   * What one pass does, by the value of the option line: 0 quits; 1, 2 and
   * 3 end the run when no answer line follows and otherwise consume two
   * lines, changing the readings only for a valid answer; anything else
   * consumes the option line and changes nothing.
   */
  lemma StepSpec(r: Readings, lines: seq<string>)
    requires |lines| > 0
    ensures Step(r, lines).Quit? <==> ParseInt(lines[0]) == Some(0)
    ensures Step(r, lines).Ended? <==>
      |lines| == 1 && ParseInt(lines[0]).Some? && 1 <= ParseInt(lines[0]).value <= 3
    ensures Step(r, lines).Continue? ==> 1 <= Step(r, lines).consumed <= |lines|
    ensures Step(r, lines).Continue? ==>
      (Step(r, lines).consumed == 2 <==> ParseInt(lines[0]).Some? && 1 <= ParseInt(lines[0]).value <= 3)
    ensures Step(r, lines).Continue? && RedMeansStop(r) ==> RedMeansStop(Step(r, lines).readings)
    ensures ParseInt(lines[0]).None? || ParseInt(lines[0]).value < 0 || 3 < ParseInt(lines[0]).value ==>
      Step(r, lines) == Continue(r, 1)
    ensures Step(r, lines).Continue? && Step(r, lines).consumed == 2 ==>
      Step(r, lines).readings == Answered(r, ParseInt(lines[0]).value, lines[1])
  {
  }

  /** Where the program stops, and whether by option 0. */
  datatype Outcome = Outcome(final: Readings, quit: bool)

  /** The whole menu loop over a script, as the repeated `Step`. */
  function Run(r: Readings, lines: seq<string>): Outcome
    decreases |lines|
  {
    if |lines| == 0 then Outcome(r, false)
    else
      match Step(r, lines)
      case Quit => Outcome(r, true)
      case Ended => Outcome(r, false)
      case Continue(r', n) => Run(r', lines[n..])
  }

  /** Run takes one step and goes on from where the step left the script. */
  lemma RunUnfolds(r: Readings, lines: seq<string>)
    requires |lines| > 0
    ensures Step(r, lines).Quit? ==> Run(r, lines) == Outcome(r, true)
    ensures Step(r, lines).Ended? ==> Run(r, lines) == Outcome(r, false)
    ensures Step(r, lines).Continue? ==>
      Run(r, lines) == Run(Step(r, lines).readings, lines[Step(r, lines).consumed..])
  {
  }

  /** No script can leave a red light showing anything but STOP. */
  lemma {:induction false} RunKeepsRedMeansStop(r: Readings, lines: seq<string>)
    requires RedMeansStop(r)
    ensures RedMeansStop(Run(r, lines).final)
    decreases |lines|
  {
    if |lines| > 0 {
      match Step(r, lines)
      case Quit =>
      case Ended =>
      case Continue(r', n) =>
        StepSpec(r, lines);
        RunKeepsRedMeansStop(r', lines[n..]);
    }
  }

  /** A step that reads an option and an answer continues after both lines. */
  lemma {:induction false} RunAfterAnswer(r: Readings, lines: seq<string>)
    requires |lines| >= 2 && ParseInt(lines[0]).Some? && 1 <= ParseInt(lines[0]).value <= 3
    ensures Step(r, lines).Continue? && Step(r, lines).consumed == 2
    ensures Run(r, lines) == Run(Step(r, lines).readings, lines[2..])
  {
    StepSpec(r, lines);
  }

  /** Typing 1 and a light name sets the light, refreshes, and goes on with the rest. */
  lemma SetLight(r: Readings, l: Light, rest: seq<string>)
    ensures Run(r, ["1", LightName(l)] + rest) == Run(Refreshed(r.(light := l)), rest)
  {
    OptionLines();
    var lines := ["1", LightName(l)] + rest;
    assert lines[0] == "1" && lines[1] == LightName(l) && lines[2..] == rest;
    RunAfterAnswer(r, lines);
  }

  /** Typing 2 and yes or no sets the pedestrian, refreshes, and goes on with the rest. */
  lemma SetPedestrian(r: Readings, d: Detection, rest: seq<string>)
    ensures Run(r, ["2", DetectionName(d)] + rest) == Run(Refreshed(r.(pedestrian := d)), rest)
  {
    OptionLines();
    var lines := ["2", DetectionName(d)] + rest;
    assert lines[0] == "2" && lines[1] == DetectionName(d) && lines[2..] == rest;
    RunAfterAnswer(r, lines);
  }

  /** Typing 3 and yes or no sets the vehicle, refreshes, and goes on with the rest. */
  lemma SetVehicle(r: Readings, d: Detection, rest: seq<string>)
    ensures Run(r, ["3", DetectionName(d)] + rest) == Run(Refreshed(r.(vehicle := d)), rest)
  {
    OptionLines();
    var lines := ["3", DetectionName(d)] + rest;
    assert lines[0] == "3" && lines[1] == DetectionName(d) && lines[2..] == rest;
    RunAfterAnswer(r, lines);
  }

  /**
   * A script on which the code and the comment at line 13 part ways: with
   * no pedestrian and no vehicle a green light gives Proceed, and a
   * pedestrian seen afterwards leaves Proceed standing where the comment
   * asks for STOP.
   */
  lemma ProceedSurvivesPedestrian()
    ensures Run(Initial(), ["2", "no"] + (["3", "no"] + (["1", "green"] + ["2", "yes"]))).final
      == Readings(Green, Yes, No, Proceed)
    ensures CommentStatus(Green, Yes, No) == Stop
  {
    var r1 := Readings(Red, No, Yes, Stop);
    var r2 := Readings(Red, No, No, Stop);
    var r3 := Readings(Green, No, No, Proceed);
    var r4 := Readings(Green, Yes, No, Proceed);
    SetPedestrian(Initial(), No, ["3", "no"] + (["1", "green"] + ["2", "yes"]));
    SetVehicle(r1, No, ["1", "green"] + ["2", "yes"]);
    SetLight(r2, Green, ["2", "yes"]);
    SetPedestrian(r3, Yes, []);
    assert ["2", "yes"] + [] == ["2", "yes"];
  }

  /** The option lines of the menu read as the numbers they show. */
  lemma OptionLines()
    ensures ParseInt("0") == Some(0)
    ensures ParseInt("1") == Some(1) && ParseInt("2") == Some(2) && ParseInt("3") == Some(3)
  {
    ParseDecimalString(0);
    ParseDecimalString(1);
    ParseDecimalString(2);
    ParseDecimalString(3);
    assert DecimalString(1) == "1" && DecimalString(2) == "2" && DecimalString(3) == "3";
  }

  /** Typing 0 ends the run at once with "Goodbye.", whatever follows and whatever the readings. */
  lemma ZeroQuits(r: Readings, rest: seq<string>)
    ensures Run(r, ["0"] + rest) == Outcome(r, true)
  {
    OptionLines();
    var lines := ["0"] + rest;
    assert lines[0] == "0";
    RunUnfolds(r, lines);
  }

  /** The sensor object: its four fields are assigned in place. */
  class Sensor {
    var light: Light
    var pedestrian: Detection
    var vehicle: Detection
    var status: Status

    function Snapshot(): Readings
      reads this
    {
      Readings(light, pedestrian, vehicle, status)
    }

    predicate Valid()
      reads this
    {
      RedMeansStop(Snapshot())
    }

    /** Lines 6-10: the given readings and the status STOP. */
    constructor(light: Light, pedestrian: Detection, vehicle: Detection)
      ensures Snapshot() == Readings(light, pedestrian, vehicle, Stop)
      ensures Valid()
    {
      this.light := light;
      this.pedestrian := pedestrian;
      this.vehicle := vehicle;
      status := Stop;
    }

    /** Lines 16-28: overwrites `status` from the other three fields. */
    method UpdateStatus()
      modifies this
      ensures Snapshot() == Refreshed(old(Snapshot()))
      ensures Valid()
    {
      if light == Red {
        status := Stop;
      } else if pedestrian == No && vehicle == No {
        match light
        case Green => status := Proceed;
        case Yellow => status := Caution;
      }
    }
  }

  /** Lines 64-99 on the sensor object: reads the answer to options 1-3. */
  method ApplyAnswer(sensor: Sensor, option: int, answer: string)
    requires 1 <= option <= 3
    modifies sensor
    ensures sensor.Snapshot() == Answered(old(sensor.Snapshot()), option, answer)
  {
    if option == 1 {
      var light := ParseLight(answer);
      if light.Some? {
        sensor.light := light.value;
        sensor.UpdateStatus();
      }
    } else if option == 2 {
      var pedestrian := ParseDetection(answer);
      if pedestrian.Some? {
        sensor.pedestrian := pedestrian.value;
        sensor.UpdateStatus();
      }
    } else {
      var vehicle := ParseDetection(answer);
      if vehicle.Some? {
        sensor.vehicle := vehicle.value;
        sensor.UpdateStatus();
      }
    }
  }

  /** One pass of the loop body on the sensor object (lines 48-102). */
  method ProcessOption(sensor: Sensor, lines: seq<string>) returns (res: StepResult)
    requires |lines| > 0
    modifies sensor
    ensures res == Step(old(sensor.Snapshot()), lines)
    ensures res.Continue? ==> sensor.Snapshot() == res.readings
    ensures !res.Continue? ==> sensor.Snapshot() == old(sensor.Snapshot())
  {
    var option := ParseInt(lines[0]);
    if option.None? {
      return Continue(sensor.Snapshot(), 1);
    }
    var n := option.value;
    if n == 0 {
      return Quit;
    } else if 1 <= n <= 3 {
      if |lines| == 1 {
        return Ended;
      }
      ApplyAnswer(sensor, n, lines[1]);
      return Continue(sensor.Snapshot(), 2);
    } else {
      return Continue(sensor.Snapshot(), 1);
    }
  }

  /**
   * One pass of the loop on the script from position `pos`: either the
   * loop stops (by option 0 or at the end of the script) with the outcome
   * of the rest of the run, or it goes on from `next`.
   */
  method MenuPass(sensor: Sensor, lines: seq<string>, pos: nat)
    returns (next: nat, stop: bool, quit: bool)
    requires pos < |lines| && sensor.Valid()
    modifies sensor
    ensures sensor.Valid()
    ensures stop ==> Run(old(sensor.Snapshot()), lines[pos..]) == Outcome(sensor.Snapshot(), quit)
    ensures !stop ==> !quit && pos < next <= |lines|
    ensures !stop ==> Run(old(sensor.Snapshot()), lines[pos..]) == Run(sensor.Snapshot(), lines[next..])
  {
    ghost var before := sensor.Snapshot();
    var rest := lines[pos..];
    var res := ProcessOption(sensor, rest);
    RunUnfolds(before, rest);
    next, stop, quit := pos, true, false;
    match res
    case Quit =>
      quit := true;
    case Ended =>
    case Continue(_, n) =>
      StepSpec(before, rest);
      assert lines[pos + n..] == rest[n..];
      next, stop := pos + n, false;
  }

  /**
   * Lines 37-102: a fresh default sensor driven by the script until option
   * 0 or the end of the script.
   */
  method RunMenu(lines: seq<string>) returns (sensor: Sensor, quit: bool)
    ensures Outcome(sensor.Snapshot(), quit) == Run(Initial(), lines)
    ensures sensor.Valid()
  {
    sensor := new Sensor(Red, Yes, Yes);
    quit := false;
    var pos := 0;
    while pos < |lines|
      invariant pos <= |lines|
      invariant Run(Initial(), lines) == Run(sensor.Snapshot(), lines[pos..])
      invariant sensor.Valid() && !quit
      decreases |lines| - pos
    {
      var next, stop;
      next, stop, quit := MenuPass(sensor, lines, pos);
      if stop {
        return;
      }
      pos := next;
    }
  }
}
