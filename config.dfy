/**
 * The fixed table of the seven measurements the wizard asks for, one entry per
 * question card, and the range test every answer must pass.
 */
module Config {

  import opened Wrappers

  /** One row of the measurement table. The HTML help text of each row is presentation only. */
  datatype MeasurementConfig = MeasurementConfig(
    name: string,         // key in the recorded answers and name of the question card
    min: real,            // nominal normal range, also the default used for a missing answer
    max: real,
    absoluteMin: real,    // inclusive bounds an answer must lie within
    absoluteMax: real,
    index: int)           // position of the row in the table

  /**
   * The constructor of a row. It first sets `absoluteMin` to 0 and then overwrites it
   * with its parameter, so the stored bound is the parameter.
   */
  function NewConfig(name: string, min: real, max: real,
                     absoluteMin: real, absoluteMax: real, index: int): (c: MeasurementConfig)
    ensures c.name == name && c.index == index
    ensures c.min == min && c.max == max
    ensures c.absoluteMin == absoluteMin && c.absoluteMax == absoluteMax
  {
    var draft := MeasurementConfig(name, min, max, 0.0, absoluteMax, index);
    draft.(absoluteMin := absoluteMin)
  }

  /** The table, in the order the questions are asked. */
  const MEASUREMENTS: seq<MeasurementConfig> := [
    NewConfig("glucose", 70.0, 100.0, 40.0, 400.0, 0),
    NewConfig("diastolic", 60.0, 80.0, 30.0, 130.0, 1),
    NewConfig("skin_thickness", 10.0, 25.0, 5.0, 60.0, 2),
    NewConfig("insulin", 2.0, 25.0, 0.5, 300.0, 3),
    NewConfig("bmi", 18.5, 24.9, 10.0, 70.0, 4),
    NewConfig("dpf", 0.1, 1.2, 0.0, 3.0, 5),
    NewConfig("age", 18.0, 45.0, 1.0, 160.0, 6)
  ]

  /** Key under which the pregnancy count is recorded; it is not a table row. */
  const PREGNANCIES: string := "pregnancies"

  /** The inclusive range test a measurement answer must pass to be recorded. */
  predicate Accepts(c: MeasurementConfig, v: real) {
    c.absoluteMin <= v <= c.absoluteMax
  }

  /** The nominal range lies inside the absolute range. */
  predicate Consistent(c: MeasurementConfig) {
    c.absoluteMin <= c.min <= c.max <= c.absoluteMax
  }

  /** True when `k` is the key of some table row. */
  predicate IsField(k: string) {
    exists i | 0 <= i < |MEASUREMENTS| :: MEASUREMENTS[i].name == k
  }

  /** True when `k` is a key the wizard ever records. */
  predicate IsKey(k: string) {
    k == PREGNANCIES || IsField(k)
  }

  /** Every row is consistent and records its own position. */
  lemma TableWellFormed()
    ensures |MEASUREMENTS| == 7
    ensures forall i | 0 <= i < |MEASUREMENTS| :: MEASUREMENTS[i].index == i && Consistent(MEASUREMENTS[i])
  {
  }

  /** Row `i` is consistent and records its own position. */
  lemma RowWellFormed(i: nat)
    requires i < |MEASUREMENTS|
    ensures MEASUREMENTS[i].index == i && Consistent(MEASUREMENTS[i])
  {
    TableWellFormed();
  }

  /** The table's keys are pairwise distinct, non-empty, and differ from the pregnancy key. */
  lemma NamesDistinct()
    ensures forall i, j | 0 <= i < j < |MEASUREMENTS| :: MEASUREMENTS[i].name != MEASUREMENTS[j].name
    ensures forall i | 0 <= i < |MEASUREMENTS| :: MEASUREMENTS[i].name != PREGNANCIES
    ensures forall i | 0 <= i < |MEASUREMENTS| :: 0 < |MEASUREMENTS[i].name|
  {
  }

  /** Two rows with the same key are the same row. */
  lemma NameInjective(i: nat, j: nat)
    requires i < |MEASUREMENTS| && j < |MEASUREMENTS|
    requires MEASUREMENTS[i].name == MEASUREMENTS[j].name
    ensures i == j
  {
    NamesDistinct();
  }

  /** No row uses the pregnancy key. */
  lemma FieldNotPregnancies(i: nat)
    requires i < |MEASUREMENTS|
    ensures MEASUREMENTS[i].name != PREGNANCIES
  {
    NamesDistinct();
  }

  /** The default used for a missing answer would itself pass the range test. */
  lemma DefaultAccepted(i: nat)
    requires i < |MEASUREMENTS|
    ensures Accepts(MEASUREMENTS[i], MEASUREMENTS[i].min)
  {
    RowWellFormed(i);
  }

  /** A Java `double` as `Double.parseDouble` yields it: a finite number or one of the three special values. */
  datatype Double = Finite(value: real) | NaN | Infinity | NegInfinity

  /** Java's `<` on doubles; every comparison with NaN is false. */
  predicate JavaLess(a: Double, b: Double)
    ensures JavaLess(a, b) ==> a != NaN && b != NaN && a != Infinity && b != NegInfinity
    ensures a.Finite? && b.Finite? ==> (JavaLess(a, b) <==> a.value < b.value)
    ensures a == NegInfinity && b != NaN && b != NegInfinity ==> JavaLess(a, b)
    ensures a.Finite? && b == Infinity ==> JavaLess(a, b)
  {
    match (a, b)
    case (NaN, _) => false
    case (_, NaN) => false
    case (Finite(x), Finite(y)) => x < y
    case (NegInfinity, _) => !b.NegInfinity?
    case (_, Infinity) => !a.Infinity?
    case (_, _) => false
  }

  /** The range guard of the question card as written: an answer is refused when it is below
      `absoluteMin` or above `absoluteMax`, and passes otherwise. */
  predicate PassesGuardAsWritten(c: MeasurementConfig, v: Double) {
    !(JavaLess(v, Finite(c.absoluteMin)) || JavaLess(Finite(c.absoluteMax), v))
  }

  /** The written guard lets NaN through on every card: neither comparison holds for it. */
  lemma NaNPassesGuardAsWritten(c: MeasurementConfig)
    ensures PassesGuardAsWritten(c, NaN)
    ensures !Accepts(c, 0.0) ==> PassesGuardAsWritten(c, NaN) != PassesGuardAsWritten(c, Finite(0.0))
  {
  }

  /** NaN is the only input on which the written guard and the inclusive range test differ. */
  lemma GuardAsWrittenExactOffNaN(c: MeasurementConfig, v: Double)
    requires v != NaN
    ensures PassesGuardAsWritten(c, v) <==> v.Finite? && Accepts(c, v.value)
  {
  }

  /**
   * The range test as intended: an answer is recorded only when it parsed to a finite number
   * inside the inclusive absolute range. `None` stands for an empty field or a text that does
   * not parse.
   */
  function Validate(c: MeasurementConfig, input: Option<Double>): (r: Option<real>)
    ensures r.Some? <==> input.Some? && input.value.Finite? && Accepts(c, input.value.value)
    ensures r.Some? ==> input == Some(Finite(r.value))
  {
    match input
    case Some(Finite(v)) => if Accepts(c, v) then Some(v) else None
    case _ => None
  }

  /** On every input other than NaN the intended test and the written guard agree. */
  lemma ValidateMatchesGuard(c: MeasurementConfig, input: Option<Double>)
    requires input != Some(NaN)
    ensures Validate(c, input).Some? <==> input.Some? && PassesGuardAsWritten(c, input.value)
  {
    if input.Some? {
      GuardAsWrittenExactOffNaN(c, input.value);
    }
  }
}
