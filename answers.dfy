/**
 * The recorded answers and what is computed from them: the "null" marker for an answer given
 * up on, the filling of missing answers with defaults, and the assembly of the eight predictor
 * arguments.
 */
module Answers {

  import opened Wrappers
  import opened Config

  /** A recorded answer: a number, or the marker the wizard stores as the text "null". */
  datatype Entry = Num(x: real) | Missing

  /** Returned instead of a prediction when a measurement is absent or "null". */
  const INCOMPLETE_DATA: string := "Can't predict using incomplete data"
  /** Returned when the predictor process could not be started or read. */
  const MODEL_FAILED: string := "The model has failed to predict."

  /** The failure count of key `k`; an absent key counts as zero. */
  function AttemptsOf(counts: map<string, nat>, k: string): nat {
    if k in counts then counts[k] else 0
  }

  /** Some recorded value is the "null" marker: a search over the values of the answers. */
  predicate HasNulls(m: map<string, Entry>)
    ensures HasNulls(m) <==> exists k | k in m :: m[k] == Missing
  {
    Missing in m.Values
  }

  /** Every measurement has been answered with a number. */
  predicate Complete(m: map<string, Entry>) {
    forall j | 0 <= j < |MEASUREMENTS| :: MEASUREMENTS[j].name in m && m[MEASUREMENTS[j].name] != Missing
  }

  /** Key `k` names one of the first `n` rows of the table. */
  predicate NamedBefore(k: string, n: nat)
    requires n <= |MEASUREMENTS|
  {
    exists j | 0 <= j < n :: MEASUREMENTS[j].name == k
  }

  /** The pregnancy count is accepted when it parsed to a whole number of at least zero. */
  function AcceptPregnancyCount(parsed: Option<int>): (r: Option<nat>)
    ensures r.Some? <==> parsed.Some? && parsed.value >= 0
    ensures r.Some? ==> r.value == parsed.value
  {
    match parsed
    case Some(n) => if n >= 0 then Some(n) else None
    case None => None
  }

  // ---------------------------------------------------------------------------------------
  // Filling missing answers with defaults

  /** The value measurement `i` should have once defaults are filled into `m`: the recorded
      number if there is one, the row's nominal minimum otherwise. */
  function DefaultedValue(m: map<string, Entry>, i: nat): Entry
    requires i < |MEASUREMENTS|
  {
    var k := MEASUREMENTS[i].name;
    if k in m && m[k] != Missing then m[k] else Num(MEASUREMENTS[i].min)
  }

  /** One step of the fill loop: row `i` gets its minimum if it is absent or "null". */
  function FillOne(m: map<string, Entry>, i: nat): (r: map<string, Entry>)
    requires i < |MEASUREMENTS|
    ensures MEASUREMENTS[i].name in r && r[MEASUREMENTS[i].name] == DefaultedValue(m, i)
    ensures r.Keys == m.Keys + {MEASUREMENTS[i].name}
    ensures forall k | k in m && k != MEASUREMENTS[i].name :: r[k] == m[k]
  {
    var k := MEASUREMENTS[i].name;
    if k !in m || m[k] == Missing then m[k := Num(MEASUREMENTS[i].min)] else m
  }

  /** The fill loop run over the first `n` rows of the table. */
  function FillFirst(m: map<string, Entry>, n: nat): (r: map<string, Entry>)
    requires n <= |MEASUREMENTS|
    ensures m.Keys <= r.Keys
  {
    if n == 0 then m else FillOne(FillFirst(m, n - 1), n - 1)
  }

  /** A row's key is not among the keys of the rows before it. */
  lemma NotNamedBeforeItself(i: nat)
    requires i < |MEASUREMENTS|
    ensures !NamedBefore(MEASUREMENTS[i].name, i)
  {
    forall j | 0 <= j < i ensures MEASUREMENTS[j].name != MEASUREMENTS[i].name {
      if MEASUREMENTS[j].name == MEASUREMENTS[i].name { NameInjective(j, i); }
    }
  }

  /** The keys named before `n + 1` are those named before `n` and row `n`'s key. */
  lemma NamedBeforeStep(k: string, n: nat)
    requires n < |MEASUREMENTS|
    ensures NamedBefore(k, n + 1) <==> NamedBefore(k, n) || k == MEASUREMENTS[n].name
  {
    if NamedBefore(k, n + 1) && k != MEASUREMENTS[n].name {
      var j :| 0 <= j < n + 1 && MEASUREMENTS[j].name == k;
      assert j < n;
    }
  }

  /** What holds of the answers once the first `n` rows are filled. */
  ghost predicate FilledUpTo(m: map<string, Entry>, r: map<string, Entry>, n: nat)
    requires n <= |MEASUREMENTS|
  {
    && (forall j | 0 <= j < n :: MEASUREMENTS[j].name in r && r[MEASUREMENTS[j].name] == DefaultedValue(m, j))
    && (forall k | k in r :: k in m || NamedBefore(k, n))
    && (forall k | k in m :: k in r)
    && (forall k | k in m && !NamedBefore(k, n) :: r[k] == m[k])
  }

  /** One more step of the fill loop extends what is filled by one row. */
  lemma FillOneStep(m: map<string, Entry>, prev: map<string, Entry>, n: nat)
    requires n < |MEASUREMENTS|
    requires FilledUpTo(m, prev, n)
    ensures FilledUpTo(m, FillOne(prev, n), n + 1)
  {
    var r := FillOne(prev, n);
    var last := MEASUREMENTS[n].name;
    NotNamedBeforeItself(n);
    assert last in r && r[last] == DefaultedValue(m, n) by {
      if last in m {
        assert prev[last] == m[last];
      } else {
        assert last !in prev;
      }
    }
    forall j | 0 <= j < n + 1 ensures MEASUREMENTS[j].name in r && r[MEASUREMENTS[j].name] == DefaultedValue(m, j) {
      if j < n {
        assert NamedBefore(MEASUREMENTS[j].name, n);
        assert MEASUREMENTS[j].name != last;
      }
    }
    forall k | k in r ensures k in m || NamedBefore(k, n + 1) {
      NamedBeforeStep(k, n);
    }
    forall k | k in m && !NamedBefore(k, n + 1) ensures r[k] == m[k] {
      NamedBeforeStep(k, n);
    }
  }

  /**
   * After the first `n` rows are filled, each of them holds its recorded number or its
   * minimum, no key other than theirs was added, and every other key is untouched.
   */
  lemma {:induction false} FillFirstSpec(m: map<string, Entry>, n: nat)
    requires n <= |MEASUREMENTS|
    ensures FilledUpTo(m, FillFirst(m, n), n)
  {
    if n > 0 {
      var prev := FillFirst(m, n - 1);
      FillFirstSpec(m, n - 1);
      FillOneStep(m, prev, n - 1);
      assert FillFirst(m, n) == FillOne(prev, n - 1);
    }
  }

  /**
   * The answers after the fill step: every measurement is present and numeric, carrying its
   * recorded number or else its nominal minimum, and every other key is untouched.
   */
  function FilledWithDefaults(m: map<string, Entry>): (r: map<string, Entry>)
    ensures Complete(r)
    ensures forall j | 0 <= j < |MEASUREMENTS| :: r[MEASUREMENTS[j].name] == DefaultedValue(m, j)
    ensures forall k | k in r :: k in m || IsField(k)
    ensures forall k | k in m :: k in r && (!IsField(k) ==> r[k] == m[k])
  {
    FillFirstSpec(m, |MEASUREMENTS|);
    FillFirst(m, |MEASUREMENTS|)
  }

  /** Filling is idempotent: a second fill finds nothing to change. */
  lemma FillIdempotent(m: map<string, Entry>)
    ensures FilledWithDefaults(FilledWithDefaults(m)) == FilledWithDefaults(m)
  {
    var r := FilledWithDefaults(m);
    var rr := FilledWithDefaults(r);
    forall k | k in rr && IsField(k) ensures k in r {
      var j :| 0 <= j < |MEASUREMENTS| && MEASUREMENTS[j].name == k;
    }
    forall k | k in r ensures rr[k] == r[k] {
      if IsField(k) {
        var j :| 0 <= j < |MEASUREMENTS| && MEASUREMENTS[j].name == k;
        assert rr[k] == DefaultedValue(r, j);
      }
    }
  }

  /** A fill on answers that are already complete changes nothing. */
  lemma FillKeepsComplete(m: map<string, Entry>)
    requires Complete(m)
    ensures FilledWithDefaults(m) == m
  {
    var r := FilledWithDefaults(m);
    forall k | k in r && IsField(k) ensures k in m {
      var j :| 0 <= j < |MEASUREMENTS| && MEASUREMENTS[j].name == k;
    }
    forall k | k in m ensures r[k] == m[k] {
      if IsField(k) {
        var j :| 0 <= j < |MEASUREMENTS| && MEASUREMENTS[j].name == k;
        assert r[k] == DefaultedValue(m, j);
      }
    }
  }

  // ---------------------------------------------------------------------------------------
  // The predictor arguments

  /** The eight predictor arguments, in order: the pregnancy count, then the measurements in
      table order. */
  function PredictorArgs(m: map<string, Entry>): (args: seq<Entry>)
    requires PREGNANCIES in m && Complete(m)
    ensures |args| == |MEASUREMENTS| + 1
    ensures args[0] == m[PREGNANCIES]
    ensures forall j | 0 <= j < |MEASUREMENTS| :: args[j + 1] == m[MEASUREMENTS[j].name]
  {
    [m[PREGNANCIES]] + seq(|MEASUREMENTS|, j requires 0 <= j < |MEASUREMENTS| => m[MEASUREMENTS[j].name])
  }

  /** Any argument list holding the pregnancy count and then the measurements in table order is
      the predictor argument list. */
  lemma ArgsInOrder(args: seq<Entry>, m: map<string, Entry>)
    requires PREGNANCIES in m && Complete(m)
    requires |args| == |MEASUREMENTS| + 1 && args[0] == m[PREGNANCIES]
    requires forall j | 0 <= j < |MEASUREMENTS| :: args[j + 1] == m[MEASUREMENTS[j].name]
    ensures args == PredictorArgs(m)
  {
  }

  /** Running the external predictor: its output line, or the failure text when `predict`
      reports (with `None`) that the launch or the read failed. */
  function Launch(predict: seq<Entry> -> Option<string>, args: seq<Entry>): string {
    match predict(args)
    case Some(line) => line
    case None => MODEL_FAILED
  }

  /** The pregnancy key and the first `n` measurement keys. */
  function KeysUpTo(n: nat): (s: set<string>)
    requires n <= |MEASUREMENTS|
    ensures |s| == n + 1
    ensures forall k | k in s :: k == PREGNANCIES || NamedBefore(k, n)
  {
    if n == 0 then {PREGNANCIES}
    else
      var prev := KeysUpTo(n - 1);
      var last := MEASUREMENTS[n - 1].name;
      NotNamedBeforeItself(n - 1);
      FieldNotPregnancies(n - 1);
      prev + {last}
  }

  /** A subset is no larger than its superset. */
  lemma {:induction false} SubsetSize(a: set<string>, b: set<string>)
    requires a <= b
    ensures |a| <= |b|
    decreases a
  {
    if a != {} {
      var x :| x in a;
      SubsetSize(a - {x}, b - {x});
    }
  }

  /** Answers holding the pregnancy count and the first `n` measurements have at least `n + 1`
      keys, so the argument array sized by them has room for all of those. */
  lemma {:induction false} EnoughKeys(m: map<string, Entry>, n: nat)
    requires n <= |MEASUREMENTS|
    requires PREGNANCIES in m
    requires forall j | 0 <= j < n :: MEASUREMENTS[j].name in m
    ensures |m| >= n + 1
  {
    var s := KeysUpTo(n);
    forall k | k in s ensures k in m.Keys {
      if k != PREGNANCIES {
        var j :| 0 <= j < n && MEASUREMENTS[j].name == k;
      }
    }
    SubsetSize(s, m.Keys);
  }

  /**
   * Assembles the predictor arguments into an array sized by the number of recorded answers,
   * with a running index, and runs the predictor on them. A measurement that is absent or
   * "null" ends the assembly with the incomplete-data message.
   */
  method CallModel(userData: map<string, Entry>, predict: seq<Entry> -> Option<string>) returns (text: string)
    requires PREGNANCIES in userData
    ensures !Complete(userData) ==> text == INCOMPLETE_DATA
    ensures Complete(userData) ==> text == Launch(predict, PredictorArgs(userData))
  {
    EnoughKeys(userData, 0);
    var data := new Entry[|userData|];
    var cont := 0;
    data[cont] := userData[PREGNANCIES];
    cont := cont + 1;
    for i := 0 to |MEASUREMENTS|
      invariant cont == i + 1 <= data.Length
      invariant forall j | 0 <= j < i :: MEASUREMENTS[j].name in userData && userData[MEASUREMENTS[j].name] != Missing
      invariant data[0] == userData[PREGNANCIES]
      invariant forall j | 0 <= j < i :: data[j + 1] == userData[MEASUREMENTS[j].name]
    {
      var key := MEASUREMENTS[i].name;
      if key in userData && userData[key] != Missing {
        EnoughKeys(userData, i + 1);
        data[cont] := userData[key];
        cont := cont + 1;
      } else {
        return INCOMPLETE_DATA;
      }
    }
    var args := data[..cont];
    ArgsInOrder(args, userData);
    text := Launch(predict, args);
  }
}
