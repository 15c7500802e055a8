/**
 * The preprocessing of the training script: the sex and smoker columns are
 * mapped to numbers, the region column is replaced by drop-first dummy
 * columns, and the table is split into the feature columns and the
 * `charges` target. pandas frames are modelled as values: a list of column
 * names and a list of rows of cells.
 */
module Training {
  import StringOrder

  /** A frame cell: a number, a text, or the NaN pandas writes for an unmatched key. */
  datatype Cell = Num(x: real) | Str(s: string) | NaN

  datatype Frame = Frame(columns: seq<string>, rows: seq<seq<Cell>>)

  /** Every row has one cell per column. */
  predicate Rectangular(f: Frame)
  {
    forall i :: 0 <= i < |f.rows| ==> |f.rows[i]| == |f.columns|
  }

  /** Position of the first column called `x`, as pandas' label lookup finds it. */
  function IndexOf(s: seq<string>, x: string): (k: nat)
    requires x in s
    ensures k < |s| && s[k] == x && x !in s[..k]
  {
    if s[0] == x then 0 else 1 + IndexOf(s[1..], x)
  }

  /** `s` with position `k` removed. */
  function Without<T>(s: seq<T>, k: nat): (r: seq<T>)
    requires k < |s|
    ensures |r| == |s| - 1
    ensures forall i :: 0 <= i < |r| ==> r[i] == if i < k then s[i] else s[i + 1]
  {
    s[..k] + s[k + 1..]
  }

  /** Removing one position keeps every element that sits elsewhere. */
  lemma StillPresent<T>(s: seq<T>, k: nat, other: T)
    requires k < |s| && other in s && other != s[k]
    ensures other in Without(s, k)
  {
    var j :| 0 <= j < |s| && s[j] == other;
    var w := Without(s, k);
    if j < k {
      assert w[j] == s[j];
    } else {
      assert w[j - 1] == s[j];
    }
  }

  /** `{'male': 0, 'female': 1}` */
  const SEX_CODES: map<string, real> := map["male" := 0.0, "female" := 1.0]

  /** `{'yes': 1, 'no': 0}` */
  const SMOKER_CODES: map<string, real> := map["yes" := 1.0, "no" := 0.0]

  /** `Series.map` with a dict, on one cell: a listed key becomes its code, anything else NaN. */
  function MapCell(m: map<string, real>, c: Cell): (r: Cell)
    ensures r.Num? <==> c.Str? && c.s in m
    ensures r.Num? ==> r.x == m[c.s]
    ensures !r.Num? ==> r == NaN
  {
    if c.Str? && c.s in m then Num(m[c.s]) else NaN
  }

  /** The two maps of the script: male 0, female 1; yes 1, no 0; any other text becomes NaN. */
  lemma CategoryCodes(s: string)
    ensures MapCell(SEX_CODES, Str(s)) ==
              if s == "male" then Num(0.0) else if s == "female" then Num(1.0) else NaN
    ensures MapCell(SMOKER_CODES, Str(s)) ==
              if s == "yes" then Num(1.0) else if s == "no" then Num(0.0) else NaN
  {
  }

  /** `data[name] = data[name].map(m)`: only that column changes. */
  function MapColumn(f: Frame, name: string, m: map<string, real>): (r: Frame)
    requires Rectangular(f) && name in f.columns
    ensures r.columns == f.columns && |r.rows| == |f.rows| && Rectangular(r)
    ensures forall i, k :: 0 <= i < |f.rows| && 0 <= k < |f.columns| ==>
              r.rows[i][k] == if k == IndexOf(f.columns, name) then MapCell(m, f.rows[i][k]) else f.rows[i][k]
  {
    var k := IndexOf(f.columns, name);
    Frame(f.columns, seq(|f.rows|, i requires 0 <= i < |f.rows| => f.rows[i][k := MapCell(m, f.rows[i][k])]))
  }

  /** The texts found in column `k`, in row order. */
  function ColumnTexts(rows: seq<seq<Cell>>, k: nat): (r: seq<string>)
    requires forall i :: 0 <= i < |rows| ==> k < |rows[i]|
    ensures forall s :: s in r <==> exists i :: 0 <= i < |rows| && rows[i][k] == Str(s)
  {
    if rows == [] then []
    else
      var rest := ColumnTexts(rows[1..], k);
      assert forall s :: (exists i :: 0 <= i < |rows[1..]| && rows[1..][i][k] == Str(s)) <==>
                         (exists i :: 1 <= i < |rows| && rows[i][k] == Str(s)) by {
        forall s | exists i :: 1 <= i < |rows| && rows[i][k] == Str(s)
          ensures exists i :: 0 <= i < |rows[1..]| && rows[1..][i][k] == Str(s)
        {
          var i :| 1 <= i < |rows| && rows[i][k] == Str(s);
          assert rows[1..][i - 1][k] == Str(s);
        }
      }
      (if rows[0][k].Str? then [rows[0][k].s] else []) + rest
  }

  /** The categories pandas finds in a text column: its distinct values, sorted. */
  function Categories(f: Frame, name: string): (r: seq<string>)
    requires Rectangular(f) && name in f.columns
    ensures StringOrder.StrictlySorted(r)
    ensures forall s :: s in r <==>
              exists i :: 0 <= i < |f.rows| && f.rows[i][IndexOf(f.columns, name)] == Str(s)
  {
    StringOrder.SortedDistinct(ColumnTexts(f.rows, IndexOf(f.columns, name)))
  }

  /** The categories that get a dummy column; `drop_first` drops the smallest one. */
  function Levels(categories: seq<string>, dropFirst: bool): seq<string>
  {
    if dropFirst && |categories| > 0 then categories[1..] else categories
  }

  /** A dummy cell: 1 when the original cell is that category, 0 otherwise (NaN included). */
  function Indicator(c: Cell, level: string): Cell
  {
    Num(if c == Str(level) then 1.0 else 0.0)
  }

  /** The names pandas gives the dummy columns: `<column>_<category>`. */
  function DummyNames(name: string, levels: seq<string>): (r: seq<string>)
    ensures |r| == |levels|
  {
    seq(|levels|, j requires 0 <= j < |levels| => name + "_" + levels[j])
  }

  /**
   * `pd.get_dummies(f, columns=[name], drop_first=dropFirst)`: the column is
   * removed, the other columns keep their order, and one dummy column per
   * kept category is appended after them.
   */
  function GetDummies(f: Frame, name: string, dropFirst: bool): (r: Frame)
    requires Rectangular(f) && name in f.columns
    ensures Rectangular(r) && |r.rows| == |f.rows|
    ensures r.columns ==
              Without(f.columns, IndexOf(f.columns, name))
              + DummyNames(name, Levels(Categories(f, name), dropFirst))
    ensures forall i :: 0 <= i < |f.rows| ==>
              IsDummyRow(f.rows[i], IndexOf(f.columns, name), Levels(Categories(f, name), dropFirst), r.rows[i])
  {
    var k := IndexOf(f.columns, name);
    var levels := Levels(Categories(f, name), dropFirst);
    Frame(Without(f.columns, k) + DummyNames(name, levels),
          seq(|f.rows|, i requires 0 <= i < |f.rows| => DummyRow(f.rows[i], k, levels)))
  }

  /**
   * `out` is `row` with cell `k` removed, followed by one cell per level that
   * is 1 exactly when cell `k` holds that level's text and 0 otherwise.
   */
  predicate IsDummyRow(row: seq<Cell>, k: nat, levels: seq<string>, out: seq<Cell>)
    requires k < |row|
  {
    |out| == |row| - 1 + |levels| &&
    out[..|row| - 1] == Without(row, k) &&
    forall j :: 0 <= j < |levels| ==>
      out[|row| - 1 + j] == if row[k] == Str(levels[j]) then Num(1.0) else Num(0.0)
  }

  /** One row of `GetDummies`: the row without cell `k`, then one indicator per level. */
  function DummyRow(row: seq<Cell>, k: nat, levels: seq<string>): (r: seq<Cell>)
    requires k < |row|
    ensures IsDummyRow(row, k, levels, r)
  {
    Without(row, k) + seq(|levels|, j requires 0 <= j < |levels| => Indicator(row[k], levels[j]))
  }

  /** `f.drop(name, axis=1)` */
  function DropColumn(f: Frame, name: string): (r: Frame)
    requires Rectangular(f) && name in f.columns
    ensures Rectangular(r) && |r.rows| == |f.rows|
    ensures r.columns == Without(f.columns, IndexOf(f.columns, name))
    ensures forall i :: 0 <= i < |f.rows| ==> r.rows[i] == Without(f.rows[i], IndexOf(f.columns, name))
  {
    var k := IndexOf(f.columns, name);
    Frame(Without(f.columns, k), seq(|f.rows|, i requires 0 <= i < |f.rows| => Without(f.rows[i], k)))
  }

  /** `f[name]` */
  function Column(f: Frame, name: string): (r: seq<Cell>)
    requires Rectangular(f) && name in f.columns
    ensures |r| == |f.rows|
    ensures forall i :: 0 <= i < |f.rows| ==> r[i] == f.rows[i][IndexOf(f.columns, name)]
  {
    var k := IndexOf(f.columns, name);
    seq(|f.rows|, i requires 0 <= i < |f.rows| => f.rows[i][k])
  }

  /** The features `X` and the target `y`. */
  datatype Split = Split(x: Frame, y: seq<Cell>)

  predicate HasInputColumns(data: Frame)
  {
    Rectangular(data) && "sex" in data.columns && "smoker" in data.columns &&
    "region" in data.columns && "charges" in data.columns
  }

  /** The preprocessing steps of the script, in order. */
  function Preprocess(data: Frame): (r: Split)
    requires HasInputColumns(data)
    ensures Rectangular(r.x) && |r.x.rows| == |r.y| == |data.rows|
  {
    var sexMapped := MapColumn(data, "sex", SEX_CODES);
    var smokerMapped := MapColumn(sexMapped, "smoker", SMOKER_CODES);
    var encoded := GetDummies(smokerMapped, "region", true);
    StillPresent(smokerMapped.columns, IndexOf(smokerMapped.columns, "region"), "charges");
    Split(DropColumn(encoded, "charges"), Column(encoded, "charges"))
  }

  /** The columns of the training file, in the order the script relies on. */
  const CSV_COLUMNS: seq<string> := ["age", "sex", "bmi", "children", "smoker", "region", "charges"]

  /** One line of the training file. */
  datatype Record = Record(
    age: int, sex: string, bmi: real, children: int, smoker: string, region: string, charges: real)

  /** The cell `read_csv` gives a record's field, looked up by column name. */
  function FieldCell(r: Record, name: string): Cell
  {
    match name
    case "age" => Num(r.age as real)
    case "sex" => Str(r.sex)
    case "bmi" => Num(r.bmi)
    case "children" => Num(r.children as real)
    case "smoker" => Str(r.smoker)
    case "region" => Str(r.region)
    case "charges" => Num(r.charges)
    case _ => NaN
  }

  /** The frame `read_csv` yields for the training file. */
  function ReadCsv(records: seq<Record>): (f: Frame)
    ensures HasInputColumns(f) && f.columns == CSV_COLUMNS && |f.rows| == |records|
  {
    Frame(CSV_COLUMNS, seq(|records|, i requires 0 <= i < |records| => CsvLine(records[i])))
  }

  /** The row `read_csv` makes of one line: numbers for the numeric fields, texts for the rest. */
  function CsvLine(r: Record): seq<Cell>
  {
    [Num(r.age as real), Str(r.sex), Num(r.bmi), Num(r.children as real), Str(r.smoker), Str(r.region), Num(r.charges)]
  }

  /** Every cell of the frame holds the field of its line that its column names. */
  lemma ReadCsvFields(records: seq<Record>)
    ensures var f := ReadCsv(records);
            forall i, k :: 0 <= i < |records| && 0 <= k < |CSV_COLUMNS| ==>
              f.rows[i][k] == FieldCell(records[i], CSV_COLUMNS[k])
  {
  }

  /** The four regions of the data set, in ascending order. */
  const REGION_NAMES: seq<string> := ["northeast", "northwest", "southeast", "southwest"]

  lemma RegionNamesSorted()
    ensures StringOrder.StrictlySorted(REGION_NAMES)
  {
    var ne, nw, se, sw := REGION_NAMES[0], REGION_NAMES[1], REGION_NAMES[2], REGION_NAMES[3];
    assert StringOrder.Less(ne, nw) by {
      assert ne == "north" + "east" && nw == "north" + "west";
      StringOrder.PrefixLess("north", "east", "west");
    }
    assert StringOrder.Less(nw, se);
    assert StringOrder.Less(se, sw) by {
      assert se == "south" + "east" && sw == "south" + "west";
      StringOrder.PrefixLess("south", "east", "west");
    }
    StringOrder.LessTransitive(ne, nw, se);
    StringOrder.LessTransitive(nw, se, sw);
    StringOrder.LessTransitive(ne, se, sw);
  }

  /** Every line of the file uses the listed spellings and every region occurs. */
  predicate CleanData(records: seq<Record>)
  {
    (forall i :: 0 <= i < |records| ==>
       records[i].sex in SEX_CODES && records[i].smoker in SMOKER_CODES && records[i].region in REGION_NAMES) &&
    (forall name :: name in REGION_NAMES ==> exists i :: 0 <= i < |records| && records[i].region == name)
  }

  /** A line of the file after the two category maps. */
  function MappedRow(r: Record): seq<Cell>
    requires r.sex in SEX_CODES && r.smoker in SMOKER_CODES
  {
    [Num(r.age as real), Num(SEX_CODES[r.sex]), Num(r.bmi), Num(r.children as real),
     Num(SMOKER_CODES[r.smoker]), Str(r.region), Num(r.charges)]
  }

  lemma CsvIndices()
    ensures IndexOf(CSV_COLUMNS, "sex") == 1
    ensures IndexOf(CSV_COLUMNS, "smoker") == 4
  {
  }

  lemma MappedLine(r: Record)
    requires r.sex in SEX_CODES && r.smoker in SMOKER_CODES
    ensures var line := CsvLine(r);
            line[1 := MapCell(SEX_CODES, line[1])][4 := MapCell(SMOKER_CODES, line[4])] == MappedRow(r)
  {
  }

  /** Line `i` of the training file after the two category maps. */
  lemma MappedRowAt(records: seq<Record>, i: nat)
    requires CleanData(records) && i < |records|
    ensures var f := MapColumn(MapColumn(ReadCsv(records), "sex", SEX_CODES), "smoker", SMOKER_CODES);
            i < |f.rows| && |f.rows[i]| == 7 && f.rows[i] == MappedRow(records[i])
  {
    var f0 := ReadCsv(records);
    var f1 := MapColumn(f0, "sex", SEX_CODES);
    var f2 := MapColumn(f1, "smoker", SMOKER_CODES);
    CsvIndices();
    var r := records[i];
    var line := CsvLine(r);
    assert f0.rows[i] == line;
    assert f1.rows[i] == line[1 := MapCell(SEX_CODES, line[1])];
    assert f2.rows[i] == line[1 := MapCell(SEX_CODES, line[1])][4 := MapCell(SMOKER_CODES, line[4])];
    MappedLine(r);
  }

  /** The texts in the region column of the mapped rows are exactly the four region names. */
  lemma MappedRegions(records: seq<Record>, rows: seq<seq<Cell>>)
    requires CleanData(records) && |rows| == |records|
    requires forall i :: 0 <= i < |rows| ==> |rows[i]| == 7 && rows[i] == MappedRow(records[i])
    ensures forall s :: (exists i :: 0 <= i < |rows| && rows[i][5] == Str(s)) <==> s in REGION_NAMES
  {
    forall s ensures (exists i :: 0 <= i < |rows| && rows[i][5] == Str(s)) <==> s in REGION_NAMES {
      if s in REGION_NAMES {
        var i :| 0 <= i < |records| && records[i].region == s;
        assert rows[i][5] == Str(s);
      }
      if exists i :: 0 <= i < |rows| && rows[i][5] == Str(s) {
        var i :| 0 <= i < |rows| && rows[i][5] == Str(s);
        assert rows[i] == MappedRow(records[i]);
      }
    }
  }

  /**
   * On the training file the region categories are the four region names, so
   * with `drop_first` the dummy columns are northwest, southeast and
   * southwest, in that order, and northeast is the dropped baseline.
   */
  lemma RegionLevels(records: seq<Record>)
    requires CleanData(records)
    ensures var f := MapColumn(MapColumn(ReadCsv(records), "sex", SEX_CODES), "smoker", SMOKER_CODES);
            Categories(f, "region") == REGION_NAMES &&
            Levels(Categories(f, "region"), true) == ["northwest", "southeast", "southwest"]
  {
    var f := MapColumn(MapColumn(ReadCsv(records), "sex", SEX_CODES), "smoker", SMOKER_CODES);
    forall i | 0 <= i < |f.rows| ensures |f.rows[i]| == 7 && f.rows[i] == MappedRow(records[i]) {
      MappedRowAt(records, i);
    }
    CsvColumnsWithoutRegion();
    var cats := Categories(f, "region");
    MappedRegions(records, f.rows);
    assert forall s :: s in cats <==> s in REGION_NAMES;
    RegionNamesSorted();
    StringOrder.SortedUnique(cats, REGION_NAMES);
  }

  lemma RegionDummyNames()
    ensures DummyNames("region", ["northwest", "southeast", "southwest"]) ==
              ["region_northwest", "region_southeast", "region_southwest"]
  {
    assert "region" + "_" + "northwest" == "region_northwest";
    assert "region" + "_" + "southeast" == "region_southeast";
    assert "region" + "_" + "southwest" == "region_southwest";
  }

  lemma CsvColumnsWithoutRegion()
    ensures IndexOf(CSV_COLUMNS, "region") == 5
    ensures Without(CSV_COLUMNS, 5) == ["age", "sex", "bmi", "children", "smoker", "charges"]
  {
  }

  lemma DummiesOverRegions(f: Frame)
    requires Rectangular(f) && f.columns == CSV_COLUMNS && Categories(f, "region") == REGION_NAMES
    ensures GetDummies(f, "region", true).columns ==
              ["age", "sex", "bmi", "children", "smoker", "charges",
               "region_northwest", "region_southeast", "region_southwest"]
  {
    var levels := Levels(Categories(f, "region"), true);
    assert levels == ["northwest", "southeast", "southwest"];
    var kept := Without(f.columns, IndexOf(f.columns, "region"));
    assert kept == ["age", "sex", "bmi", "children", "smoker", "charges"] by {
      CsvColumnsWithoutRegion();
    }
    assert DummyNames("region", levels) == ["region_northwest", "region_southeast", "region_southwest"] by {
      RegionDummyNames();
    }
    EncodedNames();
  }

  lemma EncodedNames()
    ensures ["age", "sex", "bmi", "children", "smoker", "charges"]
              + ["region_northwest", "region_southeast", "region_southwest"] ==
            ["age", "sex", "bmi", "children", "smoker", "charges",
             "region_northwest", "region_southeast", "region_southwest"]
  {
  }

  /** The columns of the frame after `get_dummies`, before `charges` is dropped. */
  lemma EncodedColumns(records: seq<Record>)
    requires CleanData(records)
    ensures var f := MapColumn(MapColumn(ReadCsv(records), "sex", SEX_CODES), "smoker", SMOKER_CODES);
            GetDummies(f, "region", true).columns ==
              ["age", "sex", "bmi", "children", "smoker", "charges",
               "region_northwest", "region_southeast", "region_southwest"]
  {
    var f := MapColumn(MapColumn(ReadCsv(records), "sex", SEX_CODES), "smoker", SMOKER_CODES);
    RegionLevels(records);
    DummiesOverRegions(f);
  }

  lemma DropCharges(e: Frame)
    requires Rectangular(e)
    requires e.columns == ["age", "sex", "bmi", "children", "smoker", "charges",
                           "region_northwest", "region_southeast", "region_southwest"]
    ensures DropColumn(e, "charges").columns ==
              ["age", "sex", "bmi", "children", "smoker", "region_northwest", "region_southeast", "region_southwest"]
  {
    assert IndexOf(e.columns, "charges") == 5;
  }

  /** The feature columns the model is fitted on. */
  lemma TrainingColumns(records: seq<Record>)
    requires CleanData(records)
    ensures Preprocess(ReadCsv(records)).x.columns ==
              ["age", "sex", "bmi", "children", "smoker", "region_northwest", "region_southeast", "region_southwest"]
  {
    EncodedColumns(records);
    var f := MapColumn(MapColumn(ReadCsv(records), "sex", SEX_CODES), "smoker", SMOKER_CODES);
    DropCharges(GetDummies(f, "region", true));
  }

  lemma EncodedRow(f: Frame, i: nat)
    requires Rectangular(f) && f.columns == CSV_COLUMNS && Categories(f, "region") == REGION_NAMES
    requires i < |f.rows|
    requires f.rows[i][5].Str?
    ensures GetDummies(f, "region", true).rows[i] == Without(f.rows[i], 5) + RegionCells(f.rows[i][5].s)
  {
    CsvColumnsWithoutRegion();
    var levels := Levels(Categories(f, "region"), true);
    assert levels == ["northwest", "southeast", "southwest"];
    DummiesRow(f, "region", true, i);
    RegionIndicatorCells(f.rows[i][5]);
  }

  /** Row `i` after `get_dummies`: the row without the column, then one indicator per level. */
  lemma DummiesRow(f: Frame, name: string, dropFirst: bool, i: nat)
    requires Rectangular(f) && name in f.columns && i < |f.rows|
    ensures var k := IndexOf(f.columns, name);
            var levels := Levels(Categories(f, name), dropFirst);
            GetDummies(f, name, dropFirst).rows[i] ==
              Without(f.rows[i], k) + seq(|levels|, j requires 0 <= j < |levels| => Indicator(f.rows[i][k], levels[j]))
  {
  }

  lemma RegionIndicatorCells(c: Cell)
    requires c.Str?
    ensures var levels := ["northwest", "southeast", "southwest"];
            seq(|levels|, j requires 0 <= j < |levels| => Indicator(c, levels[j])) == RegionCells(c.s)
  {
  }

  lemma DroppedRow(e: Frame, i: nat)
    requires Rectangular(e)
    requires e.columns == ["age", "sex", "bmi", "children", "smoker", "charges",
                           "region_northwest", "region_southeast", "region_southwest"]
    requires i < |e.rows|
    ensures DropColumn(e, "charges").rows[i] == Without(e.rows[i], 5)
    ensures Column(e, "charges")[i] == e.rows[i][5]
  {
    assert IndexOf(e.columns, "charges") == 5;
  }

  /** The region dummies of a line whose region is `region`. */
  function RegionCells(region: string): seq<Cell>
  {
    [Indicator(Str(region), "northwest"), Indicator(Str(region), "southeast"), Indicator(Str(region), "southwest")]
  }

  /** The feature row the model is fitted on for one line of the training file. */
  function FeatureCells(r: Record): seq<Cell>
    requires r.sex in SEX_CODES && r.smoker in SMOKER_CODES
  {
    [Num(r.age as real), Num(SEX_CODES[r.sex]), Num(r.bmi), Num(r.children as real), Num(SMOKER_CODES[r.smoker])]
      + RegionCells(r.region)
  }

  lemma RowLayout(r: Record)
    requires r.sex in SEX_CODES && r.smoker in SMOKER_CODES
    ensures Without(Without(MappedRow(r), 5) + RegionCells(r.region), 5) == FeatureCells(r)
  {
  }

  /** The preprocessing of the training file, step by step. */
  lemma PreprocessSteps(records: seq<Record>)
    requires CleanData(records)
    ensures var f := MapColumn(MapColumn(ReadCsv(records), "sex", SEX_CODES), "smoker", SMOKER_CODES);
            var e := GetDummies(f, "region", true);
            "charges" in e.columns &&
            Preprocess(ReadCsv(records)) == Split(DropColumn(e, "charges"), Column(e, "charges"))
  {
    EncodedColumns(records);
  }

  /**
   * Line `i` of the training file becomes the feature row
   * [age, sex code, bmi, children, smoker code, region_northwest,
   * region_southeast, region_southwest] with target `charges`.
   */
  lemma TrainingRow(records: seq<Record>, i: nat)
    requires CleanData(records) && i < |records|
    ensures var s := Preprocess(ReadCsv(records));
            var r := records[i];
            |s.x.rows| == |s.y| == |records| &&
            s.x.rows[i] == FeatureCells(r) &&
            s.y[i] == Num(r.charges)
  {
    var f := MapColumn(MapColumn(ReadCsv(records), "sex", SEX_CODES), "smoker", SMOKER_CODES);
    var e := GetDummies(f, "region", true);
    var r := records[i];
    PreprocessSteps(records);
    MappedRowAt(records, i);
    RegionLevels(records);
    EncodedRow(f, i);
    assert e.rows[i] == Without(MappedRow(r), 5) + RegionCells(r.region);
    EncodedColumns(records);
    DroppedRow(e, i);
    RowLayout(r);
  }

  /**
   * The dummies of one of the four regions: each is 0 or 1, at most one is 1,
   * and one is 1, the one named after the region, unless the region is northeast.
   */
  lemma RegionCellsOneHot(region: string)
    requires region in REGION_NAMES
    ensures var d := RegionCells(region);
            |d| == 3 &&
            (forall j :: 0 <= j < 3 ==> d[j] in {Num(0.0), Num(1.0)}) &&
            (forall j, j' :: 0 <= j < j' < 3 ==> !(d[j] == Num(1.0) && d[j'] == Num(1.0))) &&
            ((exists j :: 0 <= j < 3 && d[j] == Num(1.0)) <==> region != "northeast") &&
            (forall j :: 0 <= j < 3 ==> (d[j] == Num(1.0) <==> region == REGION_NAMES[j + 1]))
  {
    var d := RegionCells(region);
    if region != "northeast" {
      var j :| 1 <= j < 4 && REGION_NAMES[j] == region;
      assert d[j - 1] == Num(1.0);
    }
  }

  /** Each training row carries the one-hot region cells of its line in its last three columns. */
  lemma DummiesOneHot(records: seq<Record>, i: nat)
    requires CleanData(records) && i < |records|
    ensures var x := Preprocess(ReadCsv(records)).x;
            |x.rows| == |records| && |x.rows[i]| == 8 &&
            x.rows[i][5..] == RegionCells(records[i].region)
  {
    TrainingRow(records, i);
  }
}
