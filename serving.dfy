/**
 * The `/predict` handler of the web app: six form fields are parsed, three of
 * them range-checked in a fixed order, the region is one-hot encoded with
 * northeast as the dropped baseline, the eight features are assembled in the
 * training column order and handed to the fitted pipeline, and the pipeline's
 * output is turned into the reply shown to the user.
 */
module Serving {
  import opened Wrappers
  import Polynomial

  /** Region codes of the form's select box. */
  const REGION_NORTHWEST := 0
  const REGION_NORTHEAST := 1
  const REGION_SOUTHEAST := 2
  const REGION_SOUTHWEST := 3

  /** A form field as `int(request.form[key])` / `float(...)` sees it. */
  datatype Field<T> = Absent | Malformed | Parsed(value: T)

  /** A Python float as `float()` can return it. */
  datatype Float = Finite(v: real) | NaN | Infinity(negative: bool)

  /** The posted form, one entry per key the handler reads. */
  datatype Form = Form(
    age: Field<int>, gender: Field<int>, bmi: Field<Float>,
    children: Field<int>, smoker: Field<int>, region: Field<int>)

  /** The six values once all parses succeeded. */
  datatype Applicant = Applicant(age: int, sex: int, bmi: Float, children: int, smoker: int, region: int)

  /** The `input_data` row once the range checks passed (bmi is then a finite number). */
  datatype InputRow = InputRow(age: int, sex: int, bmi: real, children: int, smoker: int, region: int)

  /** What the handler renders into the result page. */
  datatype Reply =
    | AgeOutOfRange
    | BmiOutOfRange
    | ChildrenOutOfRange
    | NegativeAmount
    | ExpectedAmount(amount: real)
    | InvalidInput
    | Unexpected(missingKey: string)

  const ERROR_PREFIX := "Error: "
  const AGE_MESSAGE := ERROR_PREFIX + "Age must be between 1 and 100."
  const BMI_MESSAGE := ERROR_PREFIX + "BMI must be between 10 and 60."
  const CHILDREN_MESSAGE := ERROR_PREFIX + "Number of children must be between 0 and 10."
  const NEGATIVE_MESSAGE := ERROR_PREFIX + "Cannot calculate a negative insurance amount. Please check your inputs."
  const INVALID_MESSAGE := ERROR_PREFIX + "Invalid input. Please ensure all fields are filled correctly with numerical values."
  const AMOUNT_PREFIX := "Expected amount is $"
  const UNEXPECTED_PREFIX := "An unexpected error occurred: "

  /**
   * The rendered text, up to the formatted amount and the exception text,
   * which are carried by the reply instead.
   */
  function Message(r: Reply): (m: string)
    ensures StartsWithError(m) <==> !(r.ExpectedAmount? || r.Unexpected?)
  {
    ErrorPrefixes();
    match r
    case AgeOutOfRange => AGE_MESSAGE
    case BmiOutOfRange => BMI_MESSAGE
    case ChildrenOutOfRange => CHILDREN_MESSAGE
    case NegativeAmount => NEGATIVE_MESSAGE
    case ExpectedAmount(_) => AMOUNT_PREFIX
    case InvalidInput => INVALID_MESSAGE
    case Unexpected(_) => UNEXPECTED_PREFIX
  }

  /** Different kinds of reply show different texts; every rejection but the unexpected one starts with "Error: ". */
  lemma MessagesDistinct(r1: Reply, r2: Reply)
    requires Message(r1) == Message(r2)
    ensures r1.AgeOutOfRange? == r2.AgeOutOfRange? && r1.BmiOutOfRange? == r2.BmiOutOfRange?
    ensures r1.ChildrenOutOfRange? == r2.ChildrenOutOfRange? && r1.NegativeAmount? == r2.NegativeAmount?
    ensures r1.ExpectedAmount? == r2.ExpectedAmount? && r1.InvalidInput? == r2.InvalidInput?
    ensures r1.Unexpected? == r2.Unexpected?
    ensures StartsWithError(Message(r1)) <==> !(r1.ExpectedAmount? || r1.Unexpected?)
  {
    assert AGE_MESSAGE[7] == 'A' && BMI_MESSAGE[7] == 'B';
    assert |AGE_MESSAGE| == |BMI_MESSAGE| < |CHILDREN_MESSAGE| < |NEGATIVE_MESSAGE| < |INVALID_MESSAGE|;
    assert AMOUNT_PREFIX[0] == 'E' && AMOUNT_PREFIX[1] == 'x' && UNEXPECTED_PREFIX[0] == 'A';
    ErrorPrefixes();
  }

  predicate StartsWithError(s: string)
  {
    |s| >= |ERROR_PREFIX| && s[..|ERROR_PREFIX|] == ERROR_PREFIX
  }

  lemma ErrorPrefixes()
    ensures StartsWithError(AGE_MESSAGE) && StartsWithError(BMI_MESSAGE) && StartsWithError(CHILDREN_MESSAGE)
    ensures StartsWithError(NEGATIVE_MESSAGE) && StartsWithError(INVALID_MESSAGE)
    ensures !StartsWithError(AMOUNT_PREFIX) && !StartsWithError(UNEXPECTED_PREFIX)
  {
    assert AMOUNT_PREFIX[..7][1] == 'x' && UNEXPECTED_PREFIX[..7][0] == 'A';
  }

  /** What a failed parse of one field raises: a missing key is a `KeyError`, a bad number a `ValueError`. */
  function ParseError<T>(f: Field<T>, key: string): Reply
    requires !f.Parsed?
  {
    if f.Absent? then Unexpected(key) else InvalidInput
  }

  /** How the parse of one field ends. */
  datatype Status = Parses | NotANumber | MissingKey

  function StatusOf<T>(f: Field<T>): Status
  {
    match f
    case Parsed(_) => Parses
    case Malformed => NotANumber
    case Absent => MissingKey
  }

  /** The keys the handler reads, in the order it parses them. */
  const FORM_KEYS: seq<string> := ["age", "gender", "bmi", "children", "smoker", "region"]

  /** The outcome of each parse, in the handler's order. */
  function Statuses(form: Form): (s: seq<Status>)
    ensures |s| == |FORM_KEYS|
  {
    [StatusOf(form.age), StatusOf(form.gender), StatusOf(form.bmi),
     StatusOf(form.children), StatusOf(form.smoker), StatusOf(form.region)]
  }

  /** Field `k` is the first one, in the handler's order, whose parse raises. */
  predicate FirstFailure(form: Form, k: nat)
  {
    k < |FORM_KEYS| && Statuses(form)[k] != Parses &&
    forall j :: 0 <= j < k ==> Statuses(form)[j] == Parses
  }

  /** The six parses, in the handler's order; the first one that raises decides the reply. */
  function ParseForm(form: Form): (r: Result<Applicant, Reply>)
    ensures r.Success? <==>
              form.age.Parsed? && form.gender.Parsed? && form.bmi.Parsed? &&
              form.children.Parsed? && form.smoker.Parsed? && form.region.Parsed?
    ensures r.Success? ==>
              r.value == Applicant(form.age.value, form.gender.value, form.bmi.value,
                                   form.children.value, form.smoker.value, form.region.value)
    ensures r.Failure? ==> r.error == InvalidInput || r.error.Unexpected?
  {
    if !form.age.Parsed? then Failure(ParseError(form.age, "age"))
    else if !form.gender.Parsed? then Failure(ParseError(form.gender, "gender"))
    else if !form.bmi.Parsed? then Failure(ParseError(form.bmi, "bmi"))
    else if !form.children.Parsed? then Failure(ParseError(form.children, "children"))
    else if !form.smoker.Parsed? then Failure(ParseError(form.smoker, "smoker"))
    else if !form.region.Parsed? then Failure(ParseError(form.region, "region"))
    else Success(Applicant(form.age.value, form.gender.value, form.bmi.value,
                           form.children.value, form.smoker.value, form.region.value))
  }

  predicate AgeInRange(age: int)
  {
    1 <= age <= 100
  }

  /** `10 <= bmi <= 60` on a Python float: false for nan and for both infinities. */
  predicate BmiInRange(bmi: Float)
  {
    bmi.Finite? && 10.0 <= bmi.v <= 60.0
  }

  predicate ChildrenInRange(children: int)
  {
    0 <= children <= 10
  }

  /** The range checks, age first, then bmi, then children; the first that fails is reported. */
  function Validate(a: Applicant): (r: Option<Reply>)
    ensures r == None <==> AgeInRange(a.age) && BmiInRange(a.bmi) && ChildrenInRange(a.children)
    ensures r == Some(AgeOutOfRange) <==> !AgeInRange(a.age)
    ensures r == Some(BmiOutOfRange) <==> AgeInRange(a.age) && !BmiInRange(a.bmi)
    ensures r == Some(ChildrenOutOfRange) <==>
              AgeInRange(a.age) && BmiInRange(a.bmi) && !ChildrenInRange(a.children)
  {
    if !AgeInRange(a.age) then Some(AgeOutOfRange)
    else if !BmiInRange(a.bmi) then Some(BmiOutOfRange)
    else if !ChildrenInRange(a.children) then Some(ChildrenOutOfRange)
    else None
  }

  /** The region codes that own an indicator column, in column order. */
  const DUMMY_CODES: seq<int> := [REGION_NORTHWEST, REGION_SOUTHEAST, REGION_SOUTHWEST]

  /** Column `k` of the region dummies is 1 exactly when the region is the code that owns it. */
  function RegionIndicators(region: int): (r: seq<real>)
    ensures |r| == |DUMMY_CODES|
    ensures forall k :: 0 <= k < |r| ==> (r[k] == 1.0 <==> region == DUMMY_CODES[k])
    ensures forall k :: 0 <= k < |r| ==> (r[k] == 0.0 <==> region != DUMMY_CODES[k])
  {
    seq(|DUMMY_CODES|, k requires 0 <= k < |DUMMY_CODES| => if region == DUMMY_CODES[k] then 1.0 else 0.0)
  }

  /**
   * The dummies are one-hot with northeast as the baseline: each is 0 or 1,
   * exactly one is 1 for northwest, southeast and southwest (the one named
   * after the region), and every other code, northeast or out of range, gives
   * all zeros.
   */
  lemma RegionOneHot(region: int)
    ensures forall k :: 0 <= k < 3 ==> RegionIndicators(region)[k] in {0.0, 1.0}
    ensures region == REGION_NORTHWEST ==> RegionIndicators(region) == [1.0, 0.0, 0.0]
    ensures region == REGION_SOUTHEAST ==> RegionIndicators(region) == [0.0, 1.0, 0.0]
    ensures region == REGION_SOUTHWEST ==> RegionIndicators(region) == [0.0, 0.0, 1.0]
    ensures region !in DUMMY_CODES ==> RegionIndicators(region) == [0.0, 0.0, 0.0]
    ensures Sum(RegionIndicators(region)) == if region in DUMMY_CODES then 1.0 else 0.0
  {
    var r := RegionIndicators(region);
    assert r == [r[0], r[1], r[2]];
    assert Sum(r) == r[0] + Sum([r[1], r[2]]);
    assert Sum([r[1], r[2]]) == r[1] + Sum([r[2]]);
  }

  function Sum(s: seq<real>): real
  {
    if s == [] then 0.0 else s[0] + Sum(s[1..])
  }

  /**
   * `region_dummies` as the handler builds it: a zero-filled row of three
   * cells, one of which an if/elif chain may overwrite with 1.
   */
  method RegionDummies(region: int) returns (d: array<real>)
    ensures fresh(d)
    ensures d[..] == RegionIndicators(region)
  {
    d := new real[3](_ => 0.0);
    if region == REGION_NORTHWEST {
      d[0] := 1.0;
    } else if region == REGION_SOUTHEAST {
      d[1] := 1.0;
    } else if region == REGION_SOUTHWEST {
      d[2] := 1.0;
    }
  }

  /** The column order the fitted model expects. */
  const FEATURE_COLUMNS: seq<string> :=
    ["age", "sex", "bmi", "children", "smoker", "region_northwest", "region_southeast", "region_southwest"]

  /** The value a named feature takes for a row, independently of where the column sits. */
  function ColumnValue(row: InputRow, name: string): real
  {
    match name
    case "age" => row.age as real
    case "sex" => row.sex as real
    case "bmi" => row.bmi
    case "children" => row.children as real
    case "smoker" => row.smoker as real
    case "region_northwest" => if row.region == REGION_NORTHWEST then 1.0 else 0.0
    case "region_southeast" => if row.region == REGION_SOUTHEAST then 1.0 else 0.0
    case "region_southwest" => if row.region == REGION_SOUTHWEST then 1.0 else 0.0
    case _ => 0.0
  }

  /**
   * `final_features`: the five scalar columns followed by the three region
   * dummies. Every position holds the value of the column named there, so
   * sex and smoker are passed on unchanged, whatever integer they are.
   */
  function FeatureVector(row: InputRow): (r: seq<real>)
    ensures |r| == |FEATURE_COLUMNS| == 8
    ensures forall k :: 0 <= k < |r| ==> r[k] == ColumnValue(row, FEATURE_COLUMNS[k])
  {
    [row.age as real, row.sex as real, row.bmi, row.children as real, row.smoker as real]
      + RegionIndicators(row.region)
  }

  /** The plausibility guard on the model output. */
  function Report(prediction: real): (r: Reply)
    ensures r == NegativeAmount <==> prediction < 0.0
    ensures r.ExpectedAmount? <==> prediction >= 0.0
    ensures r.ExpectedAmount? ==> r.amount == prediction
  {
    if prediction < 0.0 then NegativeAmount else ExpectedAmount(prediction)
  }

  /** The artifact the handler loads was fitted on the eight feature columns. */
  predicate Loaded(model: Polynomial.Model)
  {
    Polynomial.Fits(model, |FEATURE_COLUMNS|)
  }

  /** The `/predict` handler. */
  function Predict(model: Polynomial.Model, form: Form): (reply: Reply)
    requires Loaded(model)
    ensures reply.ExpectedAmount? || reply.NegativeAmount? <==>
              ParseForm(form).Success? && Validate(ParseForm(form).value) == None
    ensures reply.ExpectedAmount? ==> reply.amount >= 0.0
  {
    match ParseForm(form)
    case Failure(e) => e
    case Success(a) =>
      match Validate(a)
      case Some(e) => e
      case None =>
        var row := InputRow(a.age, a.sex, a.bmi.v, a.children, a.smoker, a.region);
        Report(Polynomial.Predict(model, FeatureVector(row)))
  }

  /**
   * A form that fails to parse or fails a range check is answered without
   * consulting the model: the reply is the same whatever the fitted
   * coefficients, and it is the parse error or the first failing check.
   */
  lemma RejectedBeforePrediction(m1: Polynomial.Model, m2: Polynomial.Model, form: Form)
    requires Loaded(m1) && Loaded(m2)
    requires ParseForm(form).Failure? || Validate(ParseForm(form).value).Some?
    ensures Predict(m1, form) == Predict(m2, form)
    ensures ParseForm(form).Failure? ==> Predict(m1, form) == ParseForm(form).error
    ensures ParseForm(form).Success? ==> Predict(m1, form) == Validate(ParseForm(form).value).value
  {
  }

  /**
   * The first parse that raises decides the reply, before any range check
   * and whatever the later fields hold: a key that is missing raises
   * `KeyError` and gets the unexpected-error reply naming that key, a value
   * that is not a number raises `ValueError` and gets the invalid-input reply.
   */
  lemma FirstFailureDecides(model: Polynomial.Model, form: Form, k: nat)
    requires Loaded(model) && FirstFailure(form, k)
    ensures var e := if Statuses(form)[k] == MissingKey then Unexpected(FORM_KEYS[k]) else InvalidInput;
            ParseForm(form) == Failure(e) && Predict(model, form) == e
  {
    var s := Statuses(form);
    assert k >= 1 ==> s[0] == Parses;
    assert k >= 2 ==> s[1] == Parses;
    assert k >= 3 ==> s[2] == Parses;
    assert k >= 4 ==> s[3] == Parses;
    assert k >= 5 ==> s[4] == Parses;
  }

  /** A form whose parses do not all succeed has exactly one first failing field. */
  lemma FirstFailureExists(form: Form)
    requires ParseForm(form).Failure?
    ensures exists k :: FirstFailure(form, k)
    ensures forall k: nat, k': nat :: FirstFailure(form, k) && FirstFailure(form, k') ==> k == k'
  {
    var s := Statuses(form);
    var k := if s[0] != Parses then 0 else if s[1] != Parses then 1 else if s[2] != Parses then 2
             else if s[3] != Parses then 3 else if s[4] != Parses then 4 else 5;
    assert FirstFailure(form, k);
  }

  /**
   * A field that is present but not a number yields the invalid-input reply,
   * whatever the later fields hold, range violations and missing keys
   * included, once every earlier field parsed.
   */
  lemma MalformedBeatsRange(model: Polynomial.Model, form: Form, k: nat)
    requires Loaded(model) && k < |FORM_KEYS| && Statuses(form)[k] == NotANumber
    requires forall j :: 0 <= j < k ==> Statuses(form)[j] == Parses
    ensures Predict(model, form) == InvalidInput
  {
    FirstFailureDecides(model, form, k);
  }

  /** Bad age is reported even when bmi and children are bad too. */
  lemma AgeCheckFirst(model: Polynomial.Model, form: Form)
    requires Loaded(model)
    requires ParseForm(form).Success? && !AgeInRange(form.age.value)
    ensures Predict(model, form) == AgeOutOfRange
  {
  }

  /**
   * sex, smoker and region are never range-checked: changing them never
   * changes whether a parsed form is accepted, and an accepted form reaches
   * the model with sex and smoker copied and an unknown region encoded as
   * northeast.
   */
  lemma CategoricalsUnchecked(a: Applicant, sex: int, smoker: int, region: int)
    ensures Validate(a) == Validate(a.(sex := sex, smoker := smoker, region := region))
    ensures a.bmi.Finite? && region !in DUMMY_CODES ==>
              FeatureVector(InputRow(a.age, sex, a.bmi.v, a.children, smoker, region)) ==
              FeatureVector(InputRow(a.age, sex, a.bmi.v, a.children, smoker, REGION_NORTHEAST))
  {
  }

  /** An accepted form is answered from the model's output on its feature vector, by the guard. */
  lemma AcceptedPrediction(model: Polynomial.Model, form: Form)
    requires Loaded(model)
    requires ParseForm(form).Success? && Validate(ParseForm(form).value) == None
    ensures var a := ParseForm(form).value;
            a.bmi.Finite? &&
            var p := Polynomial.Predict(model, FeatureVector(InputRow(a.age, a.sex, a.bmi.v, a.children, a.smoker, a.region)));
            (p < 0.0 ==> Predict(model, form) == NegativeAmount) &&
            (p >= 0.0 ==> Predict(model, form) == ExpectedAmount(p))
  {
  }
}
