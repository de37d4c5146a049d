/** The code tables shared by the ground tool and the firmware
    (`binaryCommands`, `binaryValues`, `configParameters`). A C enum numbers
    its members from 0 upwards in declaration order unless a value is given;
    the datatypes below list the members in that order and each `...Id`
    function gives the number the header assigns. */
module Esc32Codes {
  import opened Bytes

  datatype Option<T> = None | Some(value: T)

  // ---------------------------------------------------------------- commands

  datatype BinaryCommand =
    | Nop | Arm | Cli | Config | Disarm | Duty | Pwm | Rpm | Set | Start
    | Status | Stop | TelemRate | Version | TelemValue | GetParamId
    | Ack | Nack
  {
    /** Requests are sent by the ground tool; ACK and NACK are replies. */
    predicate IsRequest() { !(Ack? || Nack?) }
  }

  /** The request commands in declaration order. */
  const Requests: seq<BinaryCommand> :=
    [Nop, Arm, Cli, Config, Disarm, BinaryCommand.Duty, Pwm, BinaryCommand.Rpm, Set, Start,
     Status, Stop, TelemRate, Version, TelemValue, GetParamId]

  const BINARY_COMMAND_ACK: Byte := 250
  const BINARY_COMMAND_NACK: Byte := 251

  /** The byte that carries a command on the wire. No code collides with the
      frame-type bytes 'C' and 'T' of the reader, and requests and replies
      occupy disjoint ranges. */
  function CommandCode(c: BinaryCommand): (b: Byte)
    ensures b != ASCII_C && b != ASCII_T
    ensures c.IsRequest() <==> b < |Requests|
    ensures c.IsRequest() ==> Requests[b] == c
    ensures c == Ack <==> b == BINARY_COMMAND_ACK
    ensures c == Nack <==> b == BINARY_COMMAND_NACK
  {
    match c
    case Nop => 0
    case Arm => 1
    case Cli => 2
    case Config => 3
    case Disarm => 4
    case Duty => 5
    case Pwm => 6
    case Rpm => 7
    case Set => 8
    case Start => 9
    case Status => 10
    case Stop => 11
    case TelemRate => 12
    case Version => 13
    case TelemValue => 14
    case GetParamId => 15
    case Ack => 250
    case Nack => 251
  }

  /** The command a received byte names, if any. */
  function CommandOfCode(b: Byte): (r: Option<BinaryCommand>)
    ensures r.Some? ==> CommandCode(r.value) == b
    ensures r.None? <==> (|Requests| <= b && b != BINARY_COMMAND_ACK && b != BINARY_COMMAND_NACK)
  {
    if b < |Requests| then Some(Requests[b])
    else if b == BINARY_COMMAND_ACK then Some(Ack)
    else if b == BINARY_COMMAND_NACK then Some(Nack)
    else None
  }

  /** NOP ... GET_PARAM_ID are the consecutive codes 0..15; ACK and NACK are
      250 and 251, outside that range. */
  lemma RequestCodesConsecutive()
    ensures |Requests| == 16
    ensures forall i :: 0 <= i < |Requests| ==> CommandCode(Requests[i]) == i
    ensures forall i, j :: 0 <= i < j < |Requests| ==> Requests[i] != Requests[j]
    ensures CommandCode(Ack) == 250 && CommandCode(Nack) == 251
  {
    forall i | 0 <= i < |Requests| ensures CommandCode(Requests[i]) == i {
      assert Requests[i].IsRequest();
    }
  }

  lemma {:induction false} CommandCodeRoundTrip(c: BinaryCommand)
    ensures CommandOfCode(CommandCode(c)) == Some(c)
  {
  }

  /** The reader compares the command byte of a control frame with 'T' after
      the control branch; no defined command has that code, so only an
      undefined code can fall through into the telemetry branch. */
  lemma NoCommandIsFrameType(b: Byte)
    requires b == ASCII_T || b == ASCII_C
    ensures CommandOfCode(b) == None
  {
  }

  // ---------------------------------------------------------- telemetry values

  datatype BinaryValue =
    | ValueNone | Amps | VoltsBat | VoltsMotor | Rpm | Duty | CommPeriod
    | BadDetects | AdcWindow | IdlePercent | State | AvgA | AvgB | AvgC
    | AvgComp | FetStep

  const Values: seq<BinaryValue> :=
    [ValueNone, Amps, VoltsBat, VoltsMotor, BinaryValue.Rpm, BinaryValue.Duty, CommPeriod,
     BadDetects, AdcWindow, IdlePercent, State, AvgA, AvgB, AvgC,
     AvgComp, FetStep]

  /** `BINARY_VALUE_NUM`: the row width of the ground tool's telemetry
      averages, maxima and received-row buffer. */
  const BINARY_VALUE_NUM := 16

  function ValueId(v: BinaryValue): (n: nat)
    ensures n < BINARY_VALUE_NUM && n < |Values|
    ensures Values[n] == v
  {
    match v
    case ValueNone => 0
    case Amps => 1
    case VoltsBat => 2
    case VoltsMotor => 3
    case Rpm => 4
    case Duty => 5
    case CommPeriod => 6
    case BadDetects => 7
    case AdcWindow => 8
    case IdlePercent => 9
    case State => 10
    case AvgA => 11
    case AvgB => 12
    case AvgC => 13
    case AvgComp => 14
    case FetStep => 15
  }

  /** The value ids are 0..15 in declaration order, so `BINARY_VALUE_NUM`
      counts them. */
  lemma ValueIdsConsecutive()
    ensures |Values| == BINARY_VALUE_NUM
    ensures forall i :: 0 <= i < |Values| ==> ValueId(Values[i]) == i
  {
    forall i | 0 <= i < |Values| ensures ValueId(Values[i]) == i {
      assert Values[ValueId(Values[i])] == Values[i];
    }
  }

  // ---------------------------------------------------- configuration params

  datatype ConfigParameter =
    | CONFIG_VERSION | STARTUP_MODE | BAUD_RATE | PTERM | ITERM | FF1TERM
    | FF2TERM | CL1TERM | CL2TERM | CL3TERM | CL4TERM | CL5TERM
    | SHUNT_RESISTANCE | MIN_PERIOD | MAX_PERIOD | BLANKING_MICROS | ADVANCE
    | START_VOLTAGE | GOOD_DETECTS_START | BAD_DETECTS_DISARM | MAX_CURRENT
    | SWITCH_FREQ | MOTOR_POLES | PWM_MIN_PERIOD | PWM_MAX_PERIOD
    | PWM_MIN_VALUE | PWM_LO_VALUE | PWM_HI_VALUE | PWM_MAX_VALUE
    | PWM_MIN_START | PWM_RPM_SCALE | FET_BRAKING | PNFAC | INFAC | THR1TERM
    | THR2TERM | START_ALIGN_TIME | START_ALIGN_VOLTAGE | START_STEPS_NUM
    | START_STEPS_PERIOD | START_STEPS_ACCEL | PWM_LOWPASS | RPM_MEAS_LP
    | SERVO_DUTY | SERVO_P | SERVO_D | SERVO_MAX_RATE | SERVO_SCALE | ESC_ID
    | DIRECTION

  /** `CONFIG_NUM_PARAMS` in this header. */
  const CONFIG_NUM_PARAMS := 50

  /** The parameter a numeric id names, if any. */
  function ParameterOfId(n: int): (r: Option<ConfigParameter>)
    ensures r.Some? <==> 0 <= n < CONFIG_NUM_PARAMS
  {
    match n
    case 0 => Some(CONFIG_VERSION)
    case 1 => Some(STARTUP_MODE)
    case 2 => Some(BAUD_RATE)
    case 3 => Some(PTERM)
    case 4 => Some(ITERM)
    case 5 => Some(FF1TERM)
    case 6 => Some(FF2TERM)
    case 7 => Some(CL1TERM)
    case 8 => Some(CL2TERM)
    case 9 => Some(CL3TERM)
    case 10 => Some(CL4TERM)
    case 11 => Some(CL5TERM)
    case 12 => Some(SHUNT_RESISTANCE)
    case 13 => Some(MIN_PERIOD)
    case 14 => Some(MAX_PERIOD)
    case 15 => Some(BLANKING_MICROS)
    case 16 => Some(ADVANCE)
    case 17 => Some(START_VOLTAGE)
    case 18 => Some(GOOD_DETECTS_START)
    case 19 => Some(BAD_DETECTS_DISARM)
    case 20 => Some(MAX_CURRENT)
    case 21 => Some(SWITCH_FREQ)
    case 22 => Some(MOTOR_POLES)
    case 23 => Some(PWM_MIN_PERIOD)
    case 24 => Some(PWM_MAX_PERIOD)
    case 25 => Some(PWM_MIN_VALUE)
    case 26 => Some(PWM_LO_VALUE)
    case 27 => Some(PWM_HI_VALUE)
    case 28 => Some(PWM_MAX_VALUE)
    case 29 => Some(PWM_MIN_START)
    case 30 => Some(PWM_RPM_SCALE)
    case 31 => Some(FET_BRAKING)
    case 32 => Some(PNFAC)
    case 33 => Some(INFAC)
    case 34 => Some(THR1TERM)
    case 35 => Some(THR2TERM)
    case 36 => Some(START_ALIGN_TIME)
    case 37 => Some(START_ALIGN_VOLTAGE)
    case 38 => Some(START_STEPS_NUM)
    case 39 => Some(START_STEPS_PERIOD)
    case 40 => Some(START_STEPS_ACCEL)
    case 41 => Some(PWM_LOWPASS)
    case 42 => Some(RPM_MEAS_LP)
    case 43 => Some(SERVO_DUTY)
    case 44 => Some(SERVO_P)
    case 45 => Some(SERVO_D)
    case 46 => Some(SERVO_MAX_RATE)
    case 47 => Some(SERVO_SCALE)
    case 48 => Some(ESC_ID)
    case 49 => Some(DIRECTION)
    case _ => None
  }

  function ParamId(p: ConfigParameter): (n: nat)
    ensures n < CONFIG_NUM_PARAMS
    ensures ParameterOfId(n) == Some(p)
  {
    match p
    case CONFIG_VERSION => 0
    case STARTUP_MODE => 1
    case BAUD_RATE => 2
    case PTERM => 3
    case ITERM => 4
    case FF1TERM => 5
    case FF2TERM => 6
    case CL1TERM => 7
    case CL2TERM => 8
    case CL3TERM => 9
    case CL4TERM => 10
    case CL5TERM => 11
    case SHUNT_RESISTANCE => 12
    case MIN_PERIOD => 13
    case MAX_PERIOD => 14
    case BLANKING_MICROS => 15
    case ADVANCE => 16
    case START_VOLTAGE => 17
    case GOOD_DETECTS_START => 18
    case BAD_DETECTS_DISARM => 19
    case MAX_CURRENT => 20
    case SWITCH_FREQ => 21
    case MOTOR_POLES => 22
    case PWM_MIN_PERIOD => 23
    case PWM_MAX_PERIOD => 24
    case PWM_MIN_VALUE => 25
    case PWM_LO_VALUE => 26
    case PWM_HI_VALUE => 27
    case PWM_MAX_VALUE => 28
    case PWM_MIN_START => 29
    case PWM_RPM_SCALE => 30
    case FET_BRAKING => 31
    case PNFAC => 32
    case INFAC => 33
    case THR1TERM => 34
    case THR2TERM => 35
    case START_ALIGN_TIME => 36
    case START_ALIGN_VOLTAGE => 37
    case START_STEPS_NUM => 38
    case START_STEPS_PERIOD => 39
    case START_STEPS_ACCEL => 40
    case PWM_LOWPASS => 41
    case RPM_MEAS_LP => 42
    case SERVO_DUTY => 43
    case SERVO_P => 44
    case SERVO_D => 45
    case SERVO_MAX_RATE => 46
    case SERVO_SCALE => 47
    case ESC_ID => 48
    case DIRECTION => 49
  }

  /** The parameter ids are exactly 0 .. CONFIG_NUM_PARAMS - 1, one per
      parameter, in declaration order. */
  lemma ParamIdsConsecutive(n: int)
    requires 0 <= n < CONFIG_NUM_PARAMS
    ensures ParameterOfId(n).Some? && ParamId(ParameterOfId(n).value) == n
  {
  }

  lemma MaxCurrentId()
    ensures ParamId(ConfigParameter.MAX_CURRENT) == 20
  {
  }

  /** The identifier of a parameter as spelled in the header. */
  function Identifier(p: ConfigParameter): string
  {
    match p
    case CONFIG_VERSION => "CONFIG_VERSION"
    case STARTUP_MODE => "STARTUP_MODE"
    case BAUD_RATE => "BAUD_RATE"
    case PTERM => "PTERM"
    case ITERM => "ITERM"
    case FF1TERM => "FF1TERM"
    case FF2TERM => "FF2TERM"
    case CL1TERM => "CL1TERM"
    case CL2TERM => "CL2TERM"
    case CL3TERM => "CL3TERM"
    case CL4TERM => "CL4TERM"
    case CL5TERM => "CL5TERM"
    case SHUNT_RESISTANCE => "SHUNT_RESISTANCE"
    case MIN_PERIOD => "MIN_PERIOD"
    case MAX_PERIOD => "MAX_PERIOD"
    case BLANKING_MICROS => "BLANKING_MICROS"
    case ADVANCE => "ADVANCE"
    case START_VOLTAGE => "START_VOLTAGE"
    case GOOD_DETECTS_START => "GOOD_DETECTS_START"
    case BAD_DETECTS_DISARM => "BAD_DETECTS_DISARM"
    case MAX_CURRENT => "MAX_CURRENT"
    case SWITCH_FREQ => "SWITCH_FREQ"
    case MOTOR_POLES => "MOTOR_POLES"
    case PWM_MIN_PERIOD => "PWM_MIN_PERIOD"
    case PWM_MAX_PERIOD => "PWM_MAX_PERIOD"
    case PWM_MIN_VALUE => "PWM_MIN_VALUE"
    case PWM_LO_VALUE => "PWM_LO_VALUE"
    case PWM_HI_VALUE => "PWM_HI_VALUE"
    case PWM_MAX_VALUE => "PWM_MAX_VALUE"
    case PWM_MIN_START => "PWM_MIN_START"
    case PWM_RPM_SCALE => "PWM_RPM_SCALE"
    case FET_BRAKING => "FET_BRAKING"
    case PNFAC => "PNFAC"
    case INFAC => "INFAC"
    case THR1TERM => "THR1TERM"
    case THR2TERM => "THR2TERM"
    case START_ALIGN_TIME => "START_ALIGN_TIME"
    case START_ALIGN_VOLTAGE => "START_ALIGN_VOLTAGE"
    case START_STEPS_NUM => "START_STEPS_NUM"
    case START_STEPS_PERIOD => "START_STEPS_PERIOD"
    case START_STEPS_ACCEL => "START_STEPS_ACCEL"
    case PWM_LOWPASS => "PWM_LOWPASS"
    case RPM_MEAS_LP => "RPM_MEAS_LP"
    case SERVO_DUTY => "SERVO_DUTY"
    case SERVO_P => "SERVO_P"
    case SERVO_D => "SERVO_D"
    case SERVO_MAX_RATE => "SERVO_MAX_RATE"
    case SERVO_SCALE => "SERVO_SCALE"
    case ESC_ID => "ESC_ID"
    case DIRECTION => "DIRECTION"
  }
}
