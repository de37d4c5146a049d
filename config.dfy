/** The firmware parameter table (onboard/config.c of tag 1.4.1): the
    32-entry name table, case-insensitive prefix lookup, the RAM copy `p` of
    the parameters and its flash image. */
module Config {
  import Esc32Codes

  /** Size of `p` and of the name table. */
  const CONFIG_NUM_PARAMS := 32

  /** Index of the version word, stored first in `p` and in flash. */
  const CONFIG_VERSION := 0

  /** A C `float` as far as this file inspects it: NaN, or a number. */
  datatype Float = NaN | Num(value: real)

  /** C comparison `x >= y`: false when either side is NaN. */
  predicate Ge(x: Float, y: Float)
  {
    x.Num? && y.Num? && x.value >= y.value
  }

  /** C comparison `x > y`: false when either side is NaN. */
  predicate Gt(x: Float, y: Float)
  {
    x.Num? && y.Num? && x.value > y.value
  }

  /** An erased flash word reads as all ones, which is a NaN. */
  const ERASED: Float := NaN

  /** `configParameterStrings` */
  function ParameterString(i: nat): (s: string)
    requires i < CONFIG_NUM_PARAMS
    ensures 5 <= |s|
  {
    match i
    case 0 => "CONFIG_VERSION"
    case 1 => "STARTUP_MODE"
    case 2 => "BAUD_RATE"
    case 3 => "PTERM"
    case 4 => "ITERM"
    case 5 => "FF1TERM"
    case 6 => "FF2TERM"
    case 7 => "CL1TERM"
    case 8 => "CL2TERM"
    case 9 => "CL3TERM"
    case 10 => "CL4TERM"
    case 11 => "CL5TERM"
    case 12 => "SHUNT_RESISTANCE"
    case 13 => "MIN_PERIOD"
    case 14 => "MAX_PERIOD"
    case 15 => "BLANKING_MICROS"
    case 16 => "ADVANCE"
    case 17 => "START_VOLTAGE"
    case 18 => "GOOD_DETECTS_START"
    case 19 => "BAD_DETECTS_DISARM"
    case 20 => "MAX_CURRENT"
    case 21 => "SWITCH_FREQ"
    case 22 => "MOTOR_POLES"
    case 23 => "PWM_MIN_PERIOD"
    case 24 => "PWM_MAX_PERIOD"
    case 25 => "PWM_MIN_VALUE"
    case 26 => "PWM_LO_VALUE"
    case 27 => "PWM_HI_VALUE"
    case 28 => "PWM_MAX_VALUE"
    case 29 => "PWM_MIN_START"
    case 30 => "PWM_RPM_SCALE"
    case _ => "FET_BRAKING"
  }

  /** `tolower` in the C locale. */
  function Lower(c: char): (r: char)
    ensures 'A' <= c <= 'Z' ==> 'a' <= r <= 'z' && r as int - c as int == 32
    ensures !('A' <= c <= 'Z') ==> r == c
  {
    if 'A' <= c <= 'Z' then (c as int + 32) as char else c
  }

  /** `!strncasecmp(name, param, strlen(name))`: `name` is a case-insensitive
      prefix of the C string `param` (a shorter `param` fails at its
      terminating NUL). */
  predicate Matches(name: string, param: string)
  {
    |name| <= |param| && forall k :: 0 <= k < |name| ==> Lower(name[k]) == Lower(param[k])
  }

  lemma MatchesItself(s: string)
    ensures Matches(s, s)
  {
  }

  /** The search loop of `configGetId`, started at index `i`. */
  function GetIdFrom(param: string, i: nat): (r: int)
    requires i <= CONFIG_NUM_PARAMS
    ensures r == -1 || i <= r < CONFIG_NUM_PARAMS
    ensures r == -1 ==> forall j :: i <= j < CONFIG_NUM_PARAMS ==> !Matches(ParameterString(j), param)
    ensures r >= 0 ==> Matches(ParameterString(r), param)
    ensures r >= 0 ==> forall j :: i <= j < r ==> !Matches(ParameterString(j), param)
    decreases CONFIG_NUM_PARAMS - i
  {
    if i == CONFIG_NUM_PARAMS then -1
    else if Matches(ParameterString(i), param) then i
    else
      var r := GetIdFrom(param, i + 1);
      assert r == -1 ==> forall j :: i < j < CONFIG_NUM_PARAMS ==> !Matches(ParameterString(j), param);
      r
  }

  /** `configGetId`: the first table index whose name is a case-insensitive
      prefix of `param`, or -1. */
  function GetId(param: string): (r: int)
    ensures -1 <= r < CONFIG_NUM_PARAMS
    ensures r == -1 <==> forall j :: 0 <= j < CONFIG_NUM_PARAMS ==> !Matches(ParameterString(j), param)
    ensures r >= 0 ==> Matches(ParameterString(r), param)
    ensures r >= 0 ==> forall j :: 0 <= j < r ==> !Matches(ParameterString(j), param)
  {
    GetIdFrom(param, 0)
  }

  // The table is told apart by at most nine leading characters: `Recognise`
  // is a decision tree over lower-cased characters that returns the index it
  // settles on and how many leading characters it looked at.

  /** Lower-cased character `k` of `q`, or NUL past its end. */
  function At(q: string, k: nat): char
  {
    if k < |q| then Lower(q[k]) else '\0'
  }

  function Recognise(q: string): (r: (int, nat))
    ensures 1 <= r.1 <= 9
  {
    match At(q, 0)
    case 'a' => (16, 1)
    case 'g' => (18, 1)
    case 'i' => (4, 1)
    case 'b' =>
      if At(q, 1) == 'l' then (15, 2)
      else if At(q, 2) == 'u' then (2, 3) else (19, 3)
    case 'c' =>
      if At(q, 1) == 'o' then (0, 2)
      else (match At(q, 2)
            case '1' => (7, 3) case '2' => (8, 3) case '3' => (9, 3)
            case '4' => (10, 3) case _ => (11, 3))
    case 'f' =>
      if At(q, 1) == 'e' then (31, 2)
      else if At(q, 2) == '1' then (5, 3) else (6, 3)
    case 'm' =>
      (match At(q, 1)
       case 'i' => (13, 2)
       case 'o' => (22, 2)
       case _ => if At(q, 4) == 'p' then (14, 5) else (20, 5))
    case 'p' =>
      if At(q, 1) == 't' then (3, 2)
      else (match At(q, 4)
            case 'l' => (26, 5)
            case 'h' => (27, 5)
            case 'r' => (30, 5)
            case _ =>
              if At(q, 5) == 'i' then
                (match At(q, 8) case 'p' => (23, 9) case 'v' => (25, 9) case _ => (29, 9))
              else if At(q, 8) == 'p' then (24, 9) else (28, 9))
    case _ =>
      (match At(q, 1)
       case 'h' => (12, 2)
       case 'w' => (21, 2)
       case _ => if At(q, 5) == 'u' then (1, 6) else (17, 6))
  }

  /** `Recognise` decides `q` the way it decides `a` when `q` starts with `a`
      and the decision on `a` looks only inside `a`. */
  lemma RecogniseExtends(a: string, q: string)
    requires Recognise(a).1 <= |a|
    requires Matches(a, q)
    ensures Recognise(q) == Recognise(a)
  {
    assert forall k :: 0 <= k < |a| ==> At(q, k) == At(a, k);
  }

  /** Table entry `i` is recognised as `i`, looking only inside the entry. */
  predicate RecognisedAt(i: nat)
    requires i < CONFIG_NUM_PARAMS
  {
    Recognise(ParameterString(i)).0 == i && Recognise(ParameterString(i)).1 <= |ParameterString(i)|
  }

  /** Entries `lo .. hi-1` are recognised. */
  predicate RecognisedRange(lo: nat, hi: nat)
    requires hi <= CONFIG_NUM_PARAMS
    decreases hi - lo
  {
    lo >= hi || (RecognisedAt(lo) && RecognisedRange(lo + 1, hi))
  }

  // The table is checked in slices of two entries (one entry from 24 on, where
  // the lookups go deeper), each evaluated on literal indices.

  lemma RecognisedSlice0()
    ensures RecognisedRange(0, 2)
  {
    assert RecognisedRange(1, 2);
  }

  lemma RecognisedSlice1()
    ensures RecognisedRange(2, 4)
  {
    assert RecognisedRange(3, 4);
  }

  lemma RecognisedSlice2()
    ensures RecognisedRange(4, 6)
  {
    assert RecognisedRange(5, 6);
  }

  lemma RecognisedSlice3()
    ensures RecognisedRange(6, 8)
  {
    assert RecognisedRange(7, 8);
  }

  lemma RecognisedSlice4()
    ensures RecognisedRange(8, 10)
  {
    assert RecognisedRange(9, 10);
  }

  lemma RecognisedSlice5()
    ensures RecognisedRange(10, 12)
  {
    assert RecognisedRange(11, 12);
  }

  lemma RecognisedSlice6()
    ensures RecognisedRange(12, 14)
  {
    assert RecognisedRange(13, 14);
  }

  lemma RecognisedSlice7()
    ensures RecognisedRange(14, 16)
  {
    assert RecognisedRange(15, 16);
  }

  lemma RecognisedSlice8()
    ensures RecognisedRange(16, 18)
  {
    assert RecognisedRange(17, 18);
  }

  lemma RecognisedSlice9()
    ensures RecognisedRange(18, 20)
  {
    assert RecognisedRange(19, 20);
  }

  lemma RecognisedSlice10()
    ensures RecognisedRange(20, 22)
  {
    assert RecognisedRange(21, 22);
  }

  lemma RecognisedSlice11()
    ensures RecognisedRange(22, 24)
  {
    assert RecognisedRange(23, 24);
  }

  lemma RecognisedSlice12()
    ensures RecognisedRange(24, 25)
  {
    assert RecognisedRange(25, 25);
  }

  lemma RecognisedSlice13()
    ensures RecognisedRange(25, 26)
  {
    assert RecognisedRange(26, 26);
  }

  lemma RecognisedSlice14()
    ensures RecognisedRange(26, 27)
  {
    assert RecognisedRange(27, 27);
  }

  lemma RecognisedSlice15()
    ensures RecognisedRange(27, 28)
  {
    assert RecognisedRange(28, 28);
  }

  lemma RecognisedSlice16()
    ensures RecognisedRange(28, 29)
  {
    assert RecognisedRange(29, 29);
  }

  lemma RecognisedSlice17()
    ensures RecognisedRange(29, 30)
  {
    assert RecognisedRange(30, 30);
  }

  lemma RecognisedSlice18()
    ensures RecognisedRange(30, 31)
  {
    assert RecognisedRange(31, 31);
  }

  lemma RecognisedSlice19()
    ensures RecognisedRange(31, 32)
  {
    assert RecognisedRange(32, 32);
  }

  lemma {:induction false} RecognisedInRange(lo: nat, hi: nat, i: nat)
    requires lo <= i < hi <= CONFIG_NUM_PARAMS
    requires RecognisedRange(lo, hi)
    ensures RecognisedAt(i)
    decreases i - lo
  {
    if lo < i {
      RecognisedInRange(lo + 1, hi, i);
    }
  }

  lemma RecognisedEntry(i: nat)
    requires i < CONFIG_NUM_PARAMS
    ensures RecognisedAt(i)
  {
    if i < 2 {
      RecognisedSlice0();
      RecognisedInRange(0, 2, i);
    } else if i < 4 {
      RecognisedSlice1();
      RecognisedInRange(2, 4, i);
    } else if i < 6 {
      RecognisedSlice2();
      RecognisedInRange(4, 6, i);
    } else if i < 8 {
      RecognisedSlice3();
      RecognisedInRange(6, 8, i);
    } else if i < 10 {
      RecognisedSlice4();
      RecognisedInRange(8, 10, i);
    } else if i < 12 {
      RecognisedSlice5();
      RecognisedInRange(10, 12, i);
    } else if i < 14 {
      RecognisedSlice6();
      RecognisedInRange(12, 14, i);
    } else if i < 16 {
      RecognisedSlice7();
      RecognisedInRange(14, 16, i);
    } else if i < 18 {
      RecognisedSlice8();
      RecognisedInRange(16, 18, i);
    } else if i < 20 {
      RecognisedSlice9();
      RecognisedInRange(18, 20, i);
    } else if i < 22 {
      RecognisedSlice10();
      RecognisedInRange(20, 22, i);
    } else if i < 24 {
      RecognisedSlice11();
      RecognisedInRange(22, 24, i);
    } else if i < 25 {
      RecognisedSlice12();
      RecognisedInRange(24, 25, i);
    } else if i < 26 {
      RecognisedSlice13();
      RecognisedInRange(25, 26, i);
    } else if i < 27 {
      RecognisedSlice14();
      RecognisedInRange(26, 27, i);
    } else if i < 28 {
      RecognisedSlice15();
      RecognisedInRange(27, 28, i);
    } else if i < 29 {
      RecognisedSlice16();
      RecognisedInRange(28, 29, i);
    } else if i < 30 {
      RecognisedSlice17();
      RecognisedInRange(29, 30, i);
    } else if i < 31 {
      RecognisedSlice18();
      RecognisedInRange(30, 31, i);
    } else {
      RecognisedSlice19();
      RecognisedInRange(31, 32, i);
    }
  }

  /** Whatever starts with table name `i` is recognised as `i`. */
  lemma RecognisedQuery(i: nat, q: string)
    requires i < CONFIG_NUM_PARAMS
    requires Matches(ParameterString(i), q)
    ensures Recognise(q).0 == i
  {
    RecognisedEntry(i);
    RecogniseExtends(ParameterString(i), q);
  }

  /** At most one table name is a prefix of any query. */
  lemma AtMostOneMatch(i: nat, j: nat, q: string)
    requires i < CONFIG_NUM_PARAMS && j < CONFIG_NUM_PARAMS
    requires Matches(ParameterString(i), q) && Matches(ParameterString(j), q)
    ensures i == j
  {
    RecognisedQuery(i, q);
    RecognisedQuery(j, q);
  }

  /** No entry of the table is a case-insensitive prefix of another. */
  lemma PrefixFree(i: nat, j: nat)
    requires i < CONFIG_NUM_PARAMS && j < CONFIG_NUM_PARAMS && i != j
    ensures !Matches(ParameterString(i), ParameterString(j))
  {
    MatchesItself(ParameterString(j));
    if Matches(ParameterString(i), ParameterString(j)) {
      AtMostOneMatch(i, j, ParameterString(j));
    }
  }

  /** Any matching index is the one `configGetId` returns. */
  lemma GetIdUnique(param: string, i: nat)
    requires i < CONFIG_NUM_PARAMS && Matches(ParameterString(i), param)
    ensures GetId(param) == i
  {
    var r := GetId(param);
    AtMostOneMatch(i, r, param);
  }

  /** Looking up an exact table name returns its own index. */
  lemma GetIdOfName(i: nat)
    requires i < CONFIG_NUM_PARAMS
    ensures GetId(ParameterString(i)) == i
  {
    MatchesItself(ParameterString(i));
    GetIdUnique(ParameterString(i), i);
  }

  /** Table entry `i` carries the spelling the ground header gives parameter
      id `i`. */
  predicate HeaderAgreesAt(i: nat)
    requires i < CONFIG_NUM_PARAMS
  {
    Esc32Codes.ParameterOfId(i).Some? && Esc32Codes.Identifier(Esc32Codes.ParameterOfId(i).value) == ParameterString(i)
  }

  predicate HeaderAgreesOn(lo: nat, hi: nat)
    requires hi <= CONFIG_NUM_PARAMS
    decreases hi - lo
  {
    lo >= hi || (HeaderAgreesAt(lo) && HeaderAgreesOn(lo + 1, hi))
  }

  lemma HeaderSlice0()
    ensures HeaderAgreesOn(0, 2)
  {
    assert HeaderAgreesOn(1, 2);
  }

  lemma HeaderSlice1()
    ensures HeaderAgreesOn(2, 4)
  {
    assert HeaderAgreesOn(3, 4);
  }

  lemma HeaderSlice2()
    ensures HeaderAgreesOn(4, 6)
  {
    assert HeaderAgreesOn(5, 6);
  }

  lemma HeaderSlice3()
    ensures HeaderAgreesOn(6, 8)
  {
    assert HeaderAgreesOn(7, 8);
  }

  lemma HeaderSlice4()
    ensures HeaderAgreesOn(8, 10)
  {
    assert HeaderAgreesOn(9, 10);
  }

  lemma HeaderSlice5()
    ensures HeaderAgreesOn(10, 12)
  {
    assert HeaderAgreesOn(11, 12);
  }

  lemma HeaderSlice6()
    ensures HeaderAgreesOn(12, 14)
  {
    assert HeaderAgreesOn(13, 14);
  }

  lemma HeaderSlice7()
    ensures HeaderAgreesOn(14, 16)
  {
    assert HeaderAgreesOn(15, 16);
  }

  lemma HeaderSlice8()
    ensures HeaderAgreesOn(16, 18)
  {
    assert HeaderAgreesOn(17, 18);
  }

  lemma HeaderSlice9()
    ensures HeaderAgreesOn(18, 20)
  {
    assert HeaderAgreesOn(19, 20);
  }

  lemma HeaderSlice10()
    ensures HeaderAgreesOn(20, 22)
  {
    assert HeaderAgreesOn(21, 22);
  }

  lemma HeaderSlice11()
    ensures HeaderAgreesOn(22, 24)
  {
    assert HeaderAgreesOn(23, 24);
  }

  lemma HeaderSlice12()
    ensures HeaderAgreesOn(24, 25)
  {
    assert HeaderAgreesOn(25, 25);
  }

  lemma HeaderSlice13()
    ensures HeaderAgreesOn(25, 26)
  {
    assert HeaderAgreesOn(26, 26);
  }

  lemma HeaderSlice14()
    ensures HeaderAgreesOn(26, 27)
  {
    assert HeaderAgreesOn(27, 27);
  }

  lemma HeaderSlice15()
    ensures HeaderAgreesOn(27, 28)
  {
    assert HeaderAgreesOn(28, 28);
  }

  lemma HeaderSlice16()
    ensures HeaderAgreesOn(28, 29)
  {
    assert HeaderAgreesOn(29, 29);
  }

  lemma HeaderSlice17()
    ensures HeaderAgreesOn(29, 30)
  {
    assert HeaderAgreesOn(30, 30);
  }

  lemma HeaderSlice18()
    ensures HeaderAgreesOn(30, 31)
  {
    assert HeaderAgreesOn(31, 31);
  }

  lemma HeaderSlice19()
    ensures HeaderAgreesOn(31, 32)
  {
    assert HeaderAgreesOn(32, 32);
  }

  lemma {:induction false} HeaderAgreesInRange(lo: nat, hi: nat, i: nat)
    requires lo <= i < hi <= CONFIG_NUM_PARAMS
    requires HeaderAgreesOn(lo, hi)
    ensures HeaderAgreesAt(i)
    decreases i - lo
  {
    if lo < i {
      HeaderAgreesInRange(lo + 1, hi, i);
    }
  }

  /** The first 32 parameter ids of the ground header follow this table:
      the name the header gives id `i` is table entry `i`, so looking it up
      yields `i` again. */
  lemma HeaderOrder(i: nat)
    requires i < CONFIG_NUM_PARAMS
    ensures Esc32Codes.ParameterOfId(i).Some?
    ensures Esc32Codes.Identifier(Esc32Codes.ParameterOfId(i).value) == ParameterString(i)
    ensures GetId(Esc32Codes.Identifier(Esc32Codes.ParameterOfId(i).value)) == i
  {
    if i < 2 {
      HeaderSlice0();
      HeaderAgreesInRange(0, 2, i);
    } else if i < 4 {
      HeaderSlice1();
      HeaderAgreesInRange(2, 4, i);
    } else if i < 6 {
      HeaderSlice2();
      HeaderAgreesInRange(4, 6, i);
    } else if i < 8 {
      HeaderSlice3();
      HeaderAgreesInRange(6, 8, i);
    } else if i < 10 {
      HeaderSlice4();
      HeaderAgreesInRange(8, 10, i);
    } else if i < 12 {
      HeaderSlice5();
      HeaderAgreesInRange(10, 12, i);
    } else if i < 14 {
      HeaderSlice6();
      HeaderAgreesInRange(12, 14, i);
    } else if i < 16 {
      HeaderSlice7();
      HeaderAgreesInRange(14, 16, i);
    } else if i < 18 {
      HeaderSlice8();
      HeaderAgreesInRange(16, 18, i);
    } else if i < 20 {
      HeaderSlice9();
      HeaderAgreesInRange(18, 20, i);
    } else if i < 22 {
      HeaderSlice10();
      HeaderAgreesInRange(20, 22, i);
    } else if i < 24 {
      HeaderSlice11();
      HeaderAgreesInRange(22, 24, i);
    } else if i < 25 {
      HeaderSlice12();
      HeaderAgreesInRange(24, 25, i);
    } else if i < 26 {
      HeaderSlice13();
      HeaderAgreesInRange(25, 26, i);
    } else if i < 27 {
      HeaderSlice14();
      HeaderAgreesInRange(26, 27, i);
    } else if i < 28 {
      HeaderSlice15();
      HeaderAgreesInRange(27, 28, i);
    } else if i < 29 {
      HeaderSlice16();
      HeaderAgreesInRange(28, 29, i);
    } else if i < 30 {
      HeaderSlice17();
      HeaderAgreesInRange(29, 30, i);
    } else if i < 31 {
      HeaderSlice18();
      HeaderAgreesInRange(30, 31, i);
    } else {
      HeaderSlice19();
      HeaderAgreesInRange(31, 32, i);
    }
    GetIdOfName(i);
  }

  /** For instance, MAX_CURRENT is parameter 20 on both sides. */
  lemma MaxCurrentIs20()
    ensures Esc32Codes.ParamId(Esc32Codes.ConfigParameter.MAX_CURRENT) == 20
    ensures GetId("MAX_CURRENT") == 20
  {
    Esc32Codes.MaxCurrentId();
    assert ParameterString(20) == "MAX_CURRENT";
    GetIdOfName(20);
  }

  /** The decision `configInit` takes on the stored version `ver` and the
      default version. */
  datatype InitAction = WriteFlash | ReadFlash | KeepDefaults

  function InitDecision(ver: Float, defaultVersion: Float): InitAction
  {
    if ver.NaN? then WriteFlash
    else if Ge(ver, defaultVersion) then ReadFlash
    else if Gt(defaultVersion, ver) then WriteFlash
    else KeepDefaults
  }

  /** Exactly one outcome: with a numeric default, flash is read iff it holds
      a number at least the default, and written otherwise. */
  lemma InitDecisionCases(ver: Float, defaultVersion: Float)
    ensures InitDecision(ver, defaultVersion) == ReadFlash <==> ver.Num? && defaultVersion.Num? && ver.value >= defaultVersion.value
    ensures InitDecision(ver, defaultVersion) == KeepDefaults <==> ver.Num? && defaultVersion.NaN?
    ensures defaultVersion.Num? ==> InitDecision(ver, defaultVersion) != KeepDefaults
  {
  }

  /** Number of words the copy loop of `configWriteFlash` programs before the
      first failure, scanning words `k .. n-1`. */
  function ProgrammedFrom(programOk: nat -> bool, k: nat, n: nat): (w: nat)
    requires k <= n
    ensures k <= w <= n
    ensures forall m :: k <= m < w ==> programOk(m)
    ensures w < n ==> !programOk(w)
    decreases n - k
  {
    if k == n || !programOk(k) then k else ProgrammedFrom(programOk, k + 1, n)
  }

  /** Byte offsets `0, 4, 8, ...` of the first `count` words. */
  function Offsets(count: nat): (r: seq<nat>)
    ensures |r| == count
    ensures forall m :: 0 <= m < count ==> r[m] == 4 * m
  {
    if count == 0 then [] else Offsets(count - 1) + [4 * (count - 1)]
  }

  /** The flash page after a successful erase and `w` programmed words. */
  function FlashAfterWrite(p: seq<Float>, w: nat): (r: seq<Float>)
    requires w <= |p|
    ensures |r| == |p|
    ensures r[..w] == p[..w]
    ensures forall m :: w <= m < |p| ==> r[m] == ERASED
  {
    p[..w] + seq(|p| - w, _ => ERASED)
  }

  lemma FlashAfterWriteStep(p: seq<Float>, w: nat)
    requires w < |p|
    ensures FlashAfterWrite(p, w + 1) == FlashAfterWrite(p, w)[w := p[w]]
  {
  }

  /** The parameter RAM `p` and the flash page at FLASH_WRITE_ADDR, one
      `float` word per parameter. */
  class Store {
    /** `DEFAULT_*`, in table order. */
    const defaults: seq<Float>
    const p: array<Float>
    const flash: array<Float>

    predicate Valid()
      reads this
    {
      p.Length == CONFIG_NUM_PARAMS && flash.Length == CONFIG_NUM_PARAMS &&
      |defaults| == CONFIG_NUM_PARAMS && p != flash
    }

    constructor (defaults: seq<Float>, stored: seq<Float>)
      requires |defaults| == CONFIG_NUM_PARAMS && |stored| == CONFIG_NUM_PARAMS
      ensures Valid()
      ensures this.defaults == defaults && flash[..] == stored
      ensures fresh(p) && fresh(flash)
    {
      this.defaults := defaults;
      p := new Float[CONFIG_NUM_PARAMS](_ => NaN);
      flash := new Float[CONFIG_NUM_PARAMS](i requires 0 <= i < CONFIG_NUM_PARAMS => stored[i]);
    }

    /** `configGetParam`: the value of the parameter `param` names, NaN when
        none does. */
    function GetParam(param: string): (r: Float)
      requires Valid()
      reads this, p
      ensures (forall j :: 0 <= j < CONFIG_NUM_PARAMS ==> !Matches(ParameterString(j), param)) ==> r == NaN
      ensures forall j :: 0 <= j < CONFIG_NUM_PARAMS && Matches(ParameterString(j), param) ==> r == p[j]
    {
      var i := GetId(param);
      if i >= 0 then
        (forall j | 0 <= j < CONFIG_NUM_PARAMS && Matches(ParameterString(j), param)
           ensures j == i { AtMostOneMatch(i, j, param); }
         p[i])
      else NaN
    }

    /** `configSetParamByID` */
    method SetParamByID(i: int, value: Float) returns (ret: int)
      requires Valid()
      modifies p
      ensures 0 <= i < CONFIG_NUM_PARAMS ==> ret == 1 && p[..] == old(p[..])[i := value]
      ensures !(0 <= i < CONFIG_NUM_PARAMS) ==> ret == 0 && p[..] == old(p[..])
    {
      ret := 0;
      if 0 <= i < CONFIG_NUM_PARAMS {
        p[i] := value;
        RecalcConst();
        ret := 1;
      }
    }

    /** `configSetParam`: sets the first parameter whose name prefixes
        `param`. */
    method SetParam(param: string, value: Float) returns (ret: int)
      requires Valid()
      modifies p
      ensures ret == 1 <==> GetId(param) >= 0
      ensures ret == 0 <==> GetId(param) == -1
      ensures ret == 1 ==> p[..] == old(p[..])[GetId(param) := value]
      ensures ret == 0 ==> p[..] == old(p[..])
      ensures ret == 1 ==> GetParam(param) == value
    {
      ret := 0;
      var i := 0;
      while i < CONFIG_NUM_PARAMS
        invariant 0 <= i <= CONFIG_NUM_PARAMS
        invariant GetIdFrom(param, i) == GetId(param)
        invariant p[..] == old(p[..])
      {
        if Matches(ParameterString(i), param) {
          SetMatched(param, i, value);
          ret := 1;
          break;
        }
        i := i + 1;
      }
    }

    /** The body of `configSetParam`'s loop once table entry `i` matched. */
    method SetMatched(param: string, i: nat, value: Float)
      requires Valid() && i < CONFIG_NUM_PARAMS && Matches(ParameterString(i), param)
      modifies p
      ensures GetId(param) == i && p[..] == old(p[..])[i := value]
      ensures GetParam(param) == value
    {
      GetIdUnique(param, i);
      var _ := SetParamByID(i, value);
      assert p[i] == value;
    }

    /** `configLoadDefault` */
    method LoadDefault()
      requires Valid()
      modifies p
      ensures p[..] == defaults
    {
      forall i | 0 <= i < CONFIG_NUM_PARAMS {
        p[i] := defaults[i];
      }
      RecalcConst();
    }

    /** `configReadFlash`: `memcpy(p, FLASH_WRITE_ADDR, sizeof(p))`. */
    method ReadFlash()
      requires Valid()
      modifies p
      ensures p[..] == flash[..]
    {
      forall i | 0 <= i < CONFIG_NUM_PARAMS {
        p[i] := flash[i];
      }
      RecalcConst();
    }

    /** `configWriteFlash`: erase the page, then program word by word at byte
        offsets 0, 4, ... below `sizeof(p)`, stopping at the first failure.
        `eraseOk` and `programOk` stand for the flash controller's status;
        `attempts` lists the offsets passed to FLASH_ProgramWord. */
    method WriteFlash(eraseOk: bool, programOk: nat -> bool) returns (ret: int, attempts: seq<nat>)
      requires Valid()
      modifies flash
      ensures ret == (if eraseOk then 1 else 0)
      ensures !eraseOk ==> flash[..] == old(flash[..]) && attempts == []
      ensures eraseOk ==>
        var w := ProgrammedFrom(programOk, 0, CONFIG_NUM_PARAMS);
        flash[..] == FlashAfterWrite(p[..], w) &&
        attempts == Offsets(if w < CONFIG_NUM_PARAMS then w + 1 else w)
    {
      ret := 0;
      attempts := [];
      if eraseOk {
        ErasePage();
        attempts := ProgramWords(programOk);
        ret := 1;
      }
    }

    /** The programming loop of `configWriteFlash` on an erased page: word
        after word at byte offsets 0, 4, ..., stopping at the first word
        that fails to program. */
    method ProgramWords(programOk: nat -> bool) returns (attempts: seq<nat>)
      requires Valid() && flash[..] == FlashAfterWrite(p[..], 0)
      modifies flash
      ensures var w := ProgrammedFrom(programOk, 0, CONFIG_NUM_PARAMS);
        flash[..] == FlashAfterWrite(p[..], w) &&
        attempts == Offsets(if w < CONFIG_NUM_PARAMS then w + 1 else w)
    {
      attempts := [];
      var complete := true;
      var address := 0;
      ghost var done := 0;
      while complete && address < 4 * CONFIG_NUM_PARAMS
        invariant complete && 0 <= done <= CONFIG_NUM_PARAMS && address == 4 * done
        invariant ProgrammedFrom(programOk, done, CONFIG_NUM_PARAMS) == ProgrammedFrom(programOk, 0, CONFIG_NUM_PARAMS)
        invariant flash[..] == FlashAfterWrite(p[..], done)
        invariant attempts == Offsets(done)
      {
        var word := address / 4;
        assert word == done;
        attempts := attempts + [address];
        complete := programOk(word);
        if !complete {
          break;
        }
        flash[word] := p[word];
        FlashAfterWriteStep(p[..], word);
        address := address + 4;
        done := done + 1;
      }
    }

    /** The effect of a successful FLASH_ErasePage: every word reads erased. */
    method ErasePage()
      requires Valid()
      modifies flash
      ensures flash[..] == FlashAfterWrite(p[..], 0)
    {
      forall m | 0 <= m < CONFIG_NUM_PARAMS {
        flash[m] := ERASED;
      }
    }

    /** `configInit`: load the defaults, then decide on the stored version
        word. */
    method Init(eraseOk: bool, programOk: nat -> bool) returns (action: InitAction)
      requires Valid()
      modifies p, flash
      ensures action == InitDecision(old(flash[CONFIG_VERSION]), defaults[CONFIG_VERSION])
      ensures action == InitAction.ReadFlash ==> p[..] == old(flash[..]) && flash[..] == old(flash[..])
      ensures action == KeepDefaults ==> p[..] == defaults && flash[..] == old(flash[..])
      ensures action == InitAction.WriteFlash ==> p[..] == defaults
      ensures action == InitAction.WriteFlash && eraseOk ==>
        flash[..] == FlashAfterWrite(defaults, ProgrammedFrom(programOk, 0, CONFIG_NUM_PARAMS))
      ensures action == InitAction.WriteFlash && !eraseOk ==> flash[..] == old(flash[..])
    {
      LoadDefault();
      var ver := flash[CONFIG_VERSION];
      action := InitDecision(ver, p[CONFIG_VERSION]);
      if ver.NaN? {
        var _, _ := WriteFlash(eraseOk, programOk);
      } else if Ge(ver, p[CONFIG_VERSION]) {
        ReadFlash();
      } else if Gt(p[CONFIG_VERSION], ver) {
        var _, _ := WriteFlash(eraseOk, programOk);
      }
    }

    /** `configRecalcConst` pushes the parameters into the adc, fet, run, pwm
        and serial modules; none of that state is modelled. */
    method RecalcConst()
    {
    }
  }
}
