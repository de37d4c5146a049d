/** The two calibration sweeps of esc32Cal.cc, as loop skeletons over integer
    duty values. What the device does in response is an oracle: `over(...)`
    says whether the maximum current seen after a step exceeds `maxAmps`
    (`telemValueMaxs[2] > maxAmps`), and `avg(f, c)` is `telemValueAvgs[c]`
    once duty `f` has settled. The commands themselves are recorded as the
    duty values they carry. */
module Calibration {
  import Bytes

  /** rpmToVoltage: duty from 4 to 100 in steps of 2. */
  const R2V_FIRST := 4
  const R2V_LAST := 100
  const R2V_STEP := 2
  /** Rows of the `data` matrix. */
  const DATA_ROWS := 100
  const DATA_COLS := 3

  /** Row `row` of `data` takes the three averages at duty `f`. */
  method RecordRow(data: array2<real>, row: nat, f: int, avg: (int, nat) -> real)
    requires row < data.Length0 && data.Length1 == DATA_COLS
    modifies data
    ensures forall c :: 0 <= c < DATA_COLS ==> data[row, c] == avg(f, c)
    ensures forall k, c :: 0 <= k < data.Length0 && k != row && 0 <= c < DATA_COLS ==> data[k, c] == old(data[k, c])
  {
    data[row, 0] := avg(f, 0);
    data[row, 1] := avg(f, 1);
    data[row, 2] := avg(f, 2);
  }

  /** The sweep loop of rpmToVoltage: for each duty 4, 6, ..., 100 a DUTY
      command and a row of averages; the loop breaks after the first duty
      that went over the limit, whose row is recorded first. Returns the
      rows filled and the duty values sent: at most 49, so they fit the 100
      rows of `data`. */
  method RpmToVoltage(over: int -> bool, avg: (int, nat) -> real) returns (data: array2<real>, rows: nat, duties: seq<int>)
    ensures fresh(data) && data.Length0 == DATA_ROWS && data.Length1 == DATA_COLS
    ensures 1 <= rows <= 49 && |duties| == rows
    ensures forall k :: 0 <= k < rows ==> duties[k] == R2V_FIRST + R2V_STEP * k
    ensures forall k :: 0 <= k < rows - 1 ==> !over(duties[k])
    ensures over(duties[rows - 1]) || duties[rows - 1] == R2V_LAST
    ensures forall k, c :: 0 <= k < rows && 0 <= c < DATA_COLS ==> data[k, c] == avg(duties[k], c)
  {
    data := new real[DATA_ROWS, DATA_COLS]((_, _) => 0.0);
    rows := 0;
    duties := [];
    var f := R2V_FIRST;
    while f <= R2V_LAST
      invariant f == R2V_FIRST + R2V_STEP * rows && rows <= 49 && |duties| == rows
      invariant forall k :: 0 <= k < rows ==> duties[k] == R2V_FIRST + R2V_STEP * k && !over(duties[k])
      invariant forall k, c :: 0 <= k < rows && 0 <= c < DATA_COLS ==> data[k, c] == avg(duties[k], c)
      decreases R2V_LAST + R2V_STEP - f
    {
      duties := duties + [f];
      RecordRow(data, rows, f, avg);
      rows := rows + 1;
      if over(f) {
        return;
      }
      f := f + R2V_STEP;
    }
  }

  /** currentLimiter: outer start duty 10 ... 90, inner end duty from start+5
      to 100, both in steps of 5. */
  const CL_FIRST := 10
  const CL_LAST_START := 90
  const CL_LAST_END := 100
  const CL_STEP := 5

  /** The inner loop from end duty `j`: step up from `i` to `j`; stop after
      the first step that went over the limit, or after 100. */
  function InnerSteps(over: (int, int) -> bool, i: int, j: int): seq<(int, int)>
    decreases CL_LAST_END + CL_STEP - j
  {
    if j > CL_LAST_END then []
    else [(i, j)] + (if over(i, j) then [] else InnerSteps(over, i, j + CL_STEP))
  }

  /** The outer loop from start duty `i`: the inner sweep, then stop if its
      first step already went over the limit. */
  function OuterSteps(over: (int, int) -> bool, i: int): seq<(int, int)>
    decreases CL_LAST_START + CL_STEP - i
  {
    if i > CL_LAST_START then []
    else InnerSteps(over, i, i + CL_STEP) + (if over(i, i + CL_STEP) then [] else OuterSteps(over, i + CL_STEP))
  }

  /** Duties a stepUp may be called with. */
  predicate StepInRange(s: (int, int))
  {
    CL_FIRST <= s.0 < s.1 <= CL_LAST_END && s.0 % CL_STEP == 0 && s.1 % CL_STEP == 0
  }

  lemma {:induction false} InnerStepsInRange(over: (int, int) -> bool, i: int, j: int)
    requires CL_FIRST <= i < j && i % CL_STEP == 0 && j % CL_STEP == 0
    ensures forall s :: s in InnerSteps(over, i, j) ==> StepInRange(s) && s.0 == i
    decreases CL_LAST_END + CL_STEP - j
  {
    if j <= CL_LAST_END && !over(i, j) {
      InnerStepsInRange(over, i, j + CL_STEP);
    }
  }

  /** Every stepUp(i, j) has 10 <= i < j <= 100, both multiples of 5. */
  lemma {:induction false} OuterStepsInRange(over: (int, int) -> bool, i: int)
    requires CL_FIRST <= i && i % CL_STEP == 0
    ensures forall s :: s in OuterSteps(over, i) ==> StepInRange(s)
    decreases CL_LAST_START + CL_STEP - i
  {
    if i <= CL_LAST_START {
      InnerStepsInRange(over, i, i + CL_STEP);
      if !over(i, i + CL_STEP) {
        OuterStepsInRange(over, i + CL_STEP);
      }
    }
  }

  /** The outer loop goes past start duty `i` exactly when the first step
      from `i` stayed within the limit: then the next start duty's first
      step follows, and otherwise every step starts at `i`. */
  lemma {:induction false} OuterStopsOnFirstStep(over: (int, int) -> bool, i: int)
    requires CL_FIRST <= i <= CL_LAST_START - CL_STEP && i % CL_STEP == 0
    ensures over(i, i + CL_STEP) ==> forall s :: s in OuterSteps(over, i) ==> s.0 == i
    ensures !over(i, i + CL_STEP) ==> (i + CL_STEP, i + 2 * CL_STEP) in OuterSteps(over, i)
  {
    InnerStepsInRange(over, i, i + CL_STEP);
    if !over(i, i + CL_STEP) {
      var rest := OuterSteps(over, i + CL_STEP);
      assert rest == InnerSteps(over, i + CL_STEP, i + 2 * CL_STEP) + (if over(i + CL_STEP, i + 2 * CL_STEP) then [] else OuterSteps(over, i + 2 * CL_STEP));
      assert rest[0] == (i + CL_STEP, i + 2 * CL_STEP);
      assert OuterSteps(over, i) == InnerSteps(over, i, i + CL_STEP) + rest;
    }
  }

  /** One step of the inner loop, seen from the steps already made. */
  lemma InnerUnfold(over: (int, int) -> bool, i: int, j: int, steps: seq<(int, int)>)
    requires j <= CL_LAST_END
    ensures over(i, j) ==> steps + InnerSteps(over, i, j) == steps + [(i, j)]
    ensures !over(i, j) ==> steps + InnerSteps(over, i, j) == (steps + [(i, j)]) + InnerSteps(over, i, j + CL_STEP)
  {
    var rest := InnerSteps(over, i, j + CL_STEP);
    if over(i, j) {
      assert InnerSteps(over, i, j) == [(i, j)];
    } else {
      assert InnerSteps(over, i, j) == [(i, j)] + rest;
      Bytes.AppendAssoc(steps, [(i, j)], rest);
    }
  }

  /** One round of the outer loop, seen from the steps already made. */
  lemma OuterUnfold(over: (int, int) -> bool, i: int, steps: seq<(int, int)>, inner: seq<(int, int)>)
    requires i <= CL_LAST_START && inner == InnerSteps(over, i, i + CL_STEP)
    ensures over(i, i + CL_STEP) ==> steps + OuterSteps(over, i) == steps + inner
    ensures !over(i, i + CL_STEP) ==> steps + OuterSteps(over, i) == (steps + inner) + OuterSteps(over, i + CL_STEP)
  {
    var rest := OuterSteps(over, i + CL_STEP);
    if over(i, i + CL_STEP) {
      assert OuterSteps(over, i) == inner + [];
    } else {
      assert OuterSteps(over, i) == inner + rest;
      Bytes.AppendAssoc(steps, inner, rest);
    }
  }

  /** The inner loop of currentLimiter for start duty `i`. Returns the steps
      made, the end duty `j` the loop stopped at and the last overcurrent
      reading. */
  method StepUpFrom(over: (int, int) -> bool, i: int) returns (steps: seq<(int, int)>, j: int, overNow: bool)
    requires i <= CL_LAST_START
    ensures steps == InnerSteps(over, i, i + CL_STEP)
    ensures overNow && j == i + CL_STEP <==> over(i, i + CL_STEP)
  {
    steps := [];
    j := i + CL_STEP;
    overNow := false;
    ghost var all := InnerSteps(over, i, j);
    assert steps + all == all;
    while j <= CL_LAST_END
      invariant i + CL_STEP <= j <= CL_LAST_END + CL_STEP
      invariant steps + InnerSteps(over, i, j) == all
      invariant j > i + CL_STEP ==> !over(i, i + CL_STEP) && !overNow
      decreases CL_LAST_END + CL_STEP - j
    {
      InnerUnfold(over, i, j, steps);
      steps := steps + [(i, j)];
      overNow := over(i, j);
      if overNow {
        return;
      }
      j := j + CL_STEP;
    }
  }

  /** The sweep loops of currentLimiter: the maxima are reset for each start
      duty; the outer loop breaks when the last reading went over the limit
      and the inner loop had stopped at its first step. */
  method CurrentLimiter(over: (int, int) -> bool) returns (steps: seq<(int, int)>)
    ensures steps == OuterSteps(over, CL_FIRST)
  {
    steps := [];
    var i := CL_FIRST;
    ghost var all := OuterSteps(over, i);
    assert steps + all == all;
    while i <= CL_LAST_START
      invariant i <= CL_LAST_START + CL_STEP
      invariant steps + OuterSteps(over, i) == all
      decreases CL_LAST_START + CL_STEP - i
    {
      var inner, j, overNow := StepUpFrom(over, i);
      OuterUnfold(over, i, steps, inner);
      steps := steps + inner;
      if overNow && j == i + CL_STEP {
        return;
      }
      i := i + CL_STEP;
    }
  }
}
