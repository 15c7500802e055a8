/**
 * The training script and the web handler each hard-code half of one
 * schema. This module states that the two halves agree: the columns the
 * model is fitted on are the columns the handler builds, in the same order,
 * and a line of the training file and the web form filled in with the same
 * applicant produce the same feature row.
 */
module Agreement {
  import Serving
  import Training
  import Polynomial

  /** The home page's gender code for a spelling of the training file: 0 male, 1 female. */
  function GenderCode(sex: string): int
  {
    if sex == "female" then 1 else 0
  }

  /** The home page's smoker code: 0 no, 1 yes. */
  function SmokerCode(smoker: string): int
  {
    if smoker == "yes" then 1 else 0
  }

  /** The home page's region code: 0 northwest, 1 northeast, 2 southeast, 3 southwest. */
  function RegionCode(region: string): int
  {
    if region == "northwest" then Serving.REGION_NORTHWEST
    else if region == "northeast" then Serving.REGION_NORTHEAST
    else if region == "southeast" then Serving.REGION_SOUTHEAST
    else Serving.REGION_SOUTHWEST
  }

  /** The handler's `input_data` row for the applicant of a training line. */
  function ServingRow(r: Training.Record): Serving.InputRow
  {
    Serving.InputRow(r.age, GenderCode(r.sex), r.bmi, r.children, SmokerCode(r.smoker), RegionCode(r.region))
  }

  /** The web form filled in with the applicant of a training line. */
  function FormOf(r: Training.Record): Serving.Form
  {
    Serving.Form(
      Serving.Parsed(r.age), Serving.Parsed(GenderCode(r.sex)), Serving.Parsed(Serving.Finite(r.bmi)),
      Serving.Parsed(r.children), Serving.Parsed(SmokerCode(r.smoker)), Serving.Parsed(RegionCode(r.region)))
  }

  function Cells(v: seq<real>): (c: seq<Training.Cell>)
    ensures |c| == |v|
  {
    seq(|v|, k requires 0 <= k < |v| => Training.Num(v[k]))
  }

  /** The numbers of a row whose cells are all numbers. */
  function Values(c: seq<Training.Cell>): (v: seq<real>)
    requires forall k :: 0 <= k < |c| ==> c[k].Num?
    ensures |v| == |c|
  {
    seq(|c|, k requires 0 <= k < |c| => c[k].x)
  }

  /** One line: the training encoding and the serving encoding give the same eight numbers. */
  lemma RowAgreement(r: Training.Record)
    requires r.sex in Training.SEX_CODES && r.smoker in Training.SMOKER_CODES
    requires r.region in Training.REGION_NAMES
    ensures Training.FeatureCells(r) == Cells(Serving.FeatureVector(ServingRow(r)))
  {
    var v := Serving.FeatureVector(ServingRow(r));
    assert v[5..] == Serving.RegionIndicators(RegionCode(r.region));
    assert Training.RegionCells(r.region) == Cells(v[5..]);
    assert Training.FeatureCells(r)[..5] == Cells(v[..5]);
  }

  /**
   * The schema lemma: the model is fitted on exactly the columns, in
   * exactly the order, that the handler assembles, and every training row is
   * the handler's feature vector for the same applicant.
   */
  lemma SchemaAgreement(records: seq<Training.Record>)
    requires Training.CleanData(records)
    ensures var x := Training.Preprocess(Training.ReadCsv(records)).x;
            x.columns == Serving.FEATURE_COLUMNS && |x.rows| == |records| &&
            forall i :: 0 <= i < |records| ==> x.rows[i] == Cells(Serving.FeatureVector(ServingRow(records[i])))
  {
    Training.TrainingColumns(records);
    forall i | 0 <= i < |records|
      ensures Training.Preprocess(Training.ReadCsv(records)).x.rows[i] ==
              Cells(Serving.FeatureVector(ServingRow(records[i])))
    {
      Training.TrainingRow(records, i);
      RowAgreement(records[i]);
    }
  }

  /** The handler's answer to the form of an applicant in range. */
  lemma FormAnswer(model: Polynomial.Model, r: Training.Record)
    requires Serving.Loaded(model)
    requires Serving.AgeInRange(r.age) && 10.0 <= r.bmi <= 60.0 && Serving.ChildrenInRange(r.children)
    ensures Serving.Predict(model, FormOf(r)) ==
            Serving.Report(Polynomial.Predict(model, Serving.FeatureVector(ServingRow(r))))
  {
  }

  /** The numbers of training row `i` are the handler's feature vector for that applicant. */
  lemma TrainingValues(records: seq<Training.Record>, i: nat)
    requires Training.CleanData(records) && i < |records|
    ensures var x := Training.Preprocess(Training.ReadCsv(records)).x;
            |x.rows| == |records| &&
            (forall k :: 0 <= k < |x.rows[i]| ==> x.rows[i][k].Num?) &&
            Values(x.rows[i]) == Serving.FeatureVector(ServingRow(records[i]))
  {
    SchemaAgreement(records);
    var v := Serving.FeatureVector(ServingRow(records[i]));
    ValuesOfCells(v);
  }

  lemma ValuesOfCells(v: seq<real>)
    ensures forall k :: 0 <= k < |Cells(v)| ==> Cells(v)[k].Num?
    ensures Values(Cells(v)) == v
  {
  }

  /**
   * End to end: the form filled in with the applicant of training line `i`,
   * if it passes the range checks, is answered from the model's output on
   * row `i` of the feature frame `X`, the row that line becomes (whether that
   * row is then among the fitted ones depends on the train/test split).
   */
  lemma ServingAnswersFromTrainingRow(model: Polynomial.Model, records: seq<Training.Record>, i: nat)
    requires Serving.Loaded(model) && Training.CleanData(records) && i < |records|
    requires Serving.AgeInRange(records[i].age) && 10.0 <= records[i].bmi <= 60.0
    requires Serving.ChildrenInRange(records[i].children)
    ensures var x := Training.Preprocess(Training.ReadCsv(records)).x;
            |x.rows| == |records| &&
            (forall k :: 0 <= k < |x.rows[i]| ==> x.rows[i][k].Num?) &&
            |Values(x.rows[i])| == |Serving.FEATURE_COLUMNS| &&
            Serving.Predict(model, FormOf(records[i])) == Serving.Report(Polynomial.Predict(model, Values(x.rows[i])))
  {
    TrainingValues(records, i);
    FormAnswer(model, records[i]);
  }
}
