# Medical insurance cost predictor: serving and training schema

The project has two halves, and both hard-code one schema.

- **`predict` handler (`app.py`)**:
  - parses the six fields of the web form;
  - range-checks age, then BMI, then the number of children;
  - one-hot encodes the region with northeast as the dropped baseline;
  - assembles the eight features in the training column order;
  - asks the fitted pipeline for a charge, and refuses to print a negative one.
- **Training script (`train_model.py`)**:
  - maps `sex` and `smoker` to numbers;
  - replaces `region` with `get_dummies(drop_first=True)` columns;
  - takes every column but `charges` as the features;
  - fits `PolynomialFeatures(degree=2)` followed by `LinearRegression`.

The model consists of six modules:

- `Serving` (serving.dfy) is the handler.
  - Form fields are `Absent`, `Malformed` or `Parsed`.
  - The reply is a tagged value; `Message` gives its text.
  - `RegionDummies` builds the dummy row as a zero-filled array with one cell overwritten, as the handler does.
- `Training` (training.dfy) is the preprocessing, on pandas frames modelled as values.
  - A frame is a list of column names and rows of cells (`Num`, `Str`, `NaN`).
  - `get_dummies` takes the sorted distinct texts of the column.
- `Polynomial` (polynomial.dfy) is the fitted pipeline as an explicit function of the features.
  - The degree-2 expansion is laid out in scikit-learn's order: the bias, the features, then the products `x[a] * x[b]` for `a <= b` in `combinations_with_replacement` order.
  - The expansion is then dotted with the coefficient vector, which is a parameter, and the intercept is added.
- `StringOrder` (string_order.dfy) is Python's string order, with `SortedDistinct` for the category list of `get_dummies`.
- `Agreement` (agreement.dfy) is the cross-file schema lemma.
  - The columns the model is fitted on are the columns the handler builds, in the same order.
  - A training line and the form filled in for the same applicant give the same eight numbers.
- `Wrappers` (wrappers.dfy) holds `Option` and `Result`.

Assumptions and deviations:

- **CSV column order.** The script never names the column order of `insurance.csv`. The model assumes `age, sex, bmi, children, smoker, region, charges` (`Training.CSV_COLUMNS`), with each line's fields in those columns (`Training.ReadCsvFields`).
- **Clean data.** The schema lemma assumes the training file is clean (`Training.CleanData`):
  - every sex and smoker spelling is one the maps know;
  - every region is one of the four names, and all four occur.
- **Loaded model.** The loaded model was fitted on eight columns, so it has `1 + 8 + 36 = 45` coefficients (`Serving.Loaded`).
- **Where the code and its description differ, the model follows the code:**
  - sex, smoker and region are never range-checked;
  - a region code other than 0, 2 or 3 is encoded exactly like northeast;
  - a missing form key raises `KeyError` rather than `ValueError`, so it gets the "unexpected error" reply rather than the invalid-input reply.

## Model

| member | source | states |
|---|---|---|
| Serving.ParseForm | app.py:21-26 | Parsing succeeds exactly when all six fields hold numbers, and the values are copied unchanged. A failure is the invalid-input reply or the unexpected-error reply, never a range error. |
| Serving.FirstFailureDecides | app.py:21-79 | The first field, in the handler's order, that does not hold a number decides the reply. If it is missing, the reply is the unexpected error naming its key. If it is not a number, the reply is the invalid-input reply. |
| Serving.FirstFailureExists | app.py:21-26 | A form that fails to parse has exactly one first failing field. |
| Serving.Validate | app.py:29-34 | There is no rejection exactly when age is in [1, 100], BMI is in [10, 60] and children is in [0, 10]. Each error is reported exactly when the earlier checks pass and its own check fails. |
| Serving.AgeCheckFirst | app.py:29-30 | A parsed form with a bad age gets the age error, whatever BMI and children hold. |
| Serving.RejectedBeforePrediction | app.py:21-34 | A form that fails to parse or fails a range check gets the same reply whatever the model's coefficients, and that reply is the parse error or the first failing check. |
| Serving.MalformedBeatsRange | app.py:21-77 | If a field is not a number and every field before it holds one, the reply is the invalid-input reply. This holds whatever the later fields are, missing or out of range. |
| Serving.CategoricalsUnchecked | app.py:22-34 | Changing sex, smoker or region never changes the validation outcome. A region outside {0, 2, 3} gives the same feature vector as northeast. |
| Serving.RegionOneHot | app.py:50-57 | The three dummies are each 0 or 1. Code 0 gives (1,0,0), code 2 gives (0,1,0) and code 3 gives (0,0,1). Every other code gives (0,0,0). The dummies sum to 1 exactly for codes 0, 2 and 3. |
| Serving.RegionIndicators | app.py:50-56 | There is one dummy per entry of `DUMMY_CODES` (0, 2, 3). A dummy is 1 exactly when the region code is that entry's code, and 0 otherwise. |
| Serving.RegionDummies | app.py:50-56 | The zero-filled array with one cell set by the if/elif chain equals `RegionIndicators(region)`. |
| Serving.FeatureVector | app.py:38-62 | There are 8 features, and position k holds the value of the column `FEATURE_COLUMNS[k]` names. Sex and smoker are passed on unchanged. |
| Serving.Report | app.py:71-74 | A negative prediction gives the negative-amount rejection. Any prediction >= 0, including 0, gives the amount reply carrying that prediction. |
| Serving.Predict | app.py:18-79 | An amount is reported, or the negative amount refused, exactly when parsing and validation both succeed. A reported amount is never negative. |
| Serving.AcceptedPrediction | app.py:62-74 | An accepted form is answered by the guard applied to the pipeline's output on its feature vector. |
| Serving.Message | app.py:30-79 | A reply's text starts with "Error: " exactly when it is neither the amount reply nor the unexpected-error reply. |
| Serving.MessagesDistinct | app.py:29-79 | Different kinds of reply render different texts. The texts starting with "Error: " are exactly the five rejections other than the unexpected error. |
| Training.CategoryCodes | train_model.py:12-13 | sex maps male to 0 and female to 1. smoker maps yes to 1 and no to 0. Any other text becomes NaN. |
| Training.MapCell | train_model.py:12-13 | A cell becomes a number exactly when it is a text the map knows, and that number is the map's code. Anything else becomes NaN. |
| Training.MapColumn | train_model.py:12-13 | The columns and the row count are unchanged. The named column is mapped cell by cell, and every other cell is kept. |
| Training.Categories | train_model.py:14 | The categories are strictly sorted by Python's string order, and they are exactly the texts found in the column. |
| Training.ReadCsv | train_model.py:9 | The frame has the columns age, sex, bmi, children, smoker, region and charges, and one row per line. |
| Training.ReadCsvFields | train_model.py:9 | Each cell holds the field its column names in that row's line. |
| Training.GetDummies | train_model.py:14 | The column is removed, the other columns keep their order, and one `<column>_<category>` column per kept category is appended. The row count is unchanged. Each row is the old row without that column's cell, followed by one cell per kept category. That cell is 1 exactly when the removed cell is that category's text, and 0 otherwise. |
| Training.DummyRow | train_model.py:14 | One row of the result: the row without the cell, then each indicator cell as above. |
| Training.RegionLevels | train_model.py:14 | On the training file the region categories are northeast, northwest, southeast and southwest. With `drop_first` the dummy levels are northwest, southeast and southwest, so northeast is the baseline. |
| Training.RegionCellsOneHot | train_model.py:14 | Each region cell is 0 or 1, and at most one is 1. Some cell is 1 exactly when the region is not northeast, and then it is the cell named after the region. |
| Training.DummiesOneHot | train_model.py:14-17 | The last three cells of each feature row are the one-hot cells of that line's region. |
| Training.DropColumn | train_model.py:17 | The named column is removed and the other columns keep their order. The row count is unchanged, and each row loses exactly that column's cell. |
| Training.Column | train_model.py:18 | There is one entry per row, and entry i is row i's cell in the named column. |
| Training.TrainingColumns | train_model.py:12-17 | The feature columns are age, sex, bmi, children, smoker, region_northwest, region_southeast and region_southwest, in that order. |
| Training.TrainingRow | train_model.py:12-18 | Line i becomes the feature row [age, sex code, bmi, children, smoker code, three region dummies], with target `charges`. |
| Training.Preprocess | train_model.py:12-18 | The features and the target each have one entry per line of the file. |
| StringOrder.SortedDistinct | train_model.py:14 | The result is strictly sorted and has exactly the elements of the input. |
| StringOrder.SortedUnique | train_model.py:14 | Two strictly sorted lists with the same elements are equal, so the category list is determined by the column's contents. |
| Polynomial.Expand | train_model.py:24 | The expansion starts with the constant 1, followed by the features unchanged. Its length is `ExpandedArity` of the feature count. |
| Polynomial.ExpandedArityClosed | train_model.py:24 | The expansion has `1 + n + n(n+1)/2` terms, which is 45 for eight features. |
| Polynomial.PredictTerms | train_model.py:24 | The prediction is the intercept, plus the bias coefficient, plus the linear coefficients dotted with the features, plus the remaining coefficients dotted with the products. |
| Polynomial.ExpandLayout | train_model.py:24 | The expansion has `ExpandedArity(n)` terms, which `ExpandedArityClosed` puts in closed form. It starts with the constant 1, then each feature, then `x[i] * x[j]` for `i <= j` at scikit-learn's position. |
| Polynomial.ProductAt | train_model.py:24 | Each product `x[i] * x[j]` with `i <= j` sits at its closed-form position. |
| Polynomial.ProductsCover | train_model.py:24 | Every product position holds `x[i] * x[j]` for some pair `i <= j` at that position, so no other term is included. |
| Polynomial.DotUnit | train_model.py:24 | A coefficient vector selecting one term reads off exactly that term. |
| Polynomial.DotAdd | train_model.py:24 | The prediction is additive in the coefficient vector. |
| Polynomial.QuadraticTermApplied | train_model.py:24 | A model whose only coefficient is that of `x[i] * x[j]` predicts exactly `x[i] * x[j]`. |
| Polynomial.ScalingIsQuadratic | train_model.py:24 | For that model, scaling every feature by c scales the prediction by c*c, so the pipeline is not linear in the features. |
| Agreement.RowAgreement | app.py:50-62 | For a line with known spellings, the training row equals the handler's feature vector for the same applicant. |
| Agreement.SchemaAgreement | train_model.py:14-17 | The fitted columns equal the handler's `FEATURE_COLUMNS`. Every training row is the handler's feature vector for that line's applicant. |
| Agreement.TrainingValues | train_model.py:12-17 | Every cell of a training row is a number, and the numbers are the handler's feature vector. |
| Agreement.FormAnswer | app.py:18-74 | A form for an applicant in range is answered by the negative-amount guard on the pipeline's prediction. |
| Agreement.ServingAnswersFromTrainingRow | app.py:62-74 | Take the form for training line i, with its values in range. Its reply is the guard applied to the prediction on the row of `X` that the line becomes. |

## Left out

- Flask setup, routing, `render_template` and `app.run` are web plumbing. The rendered page is modelled as the `Reply` value plus its text (`Serving.Message`).
- Loading the pickle, reading `insurance.csv` and saving the model are file I/O.
  - The loaded model is a parameter.
  - The file's lines are a list of records (`Training.ReadCsv`).
- CPython's grammar for `int()` and `float()` is not modelled: each field is only present-and-a-number, present-but-not-a-number, or missing.
- `train_test_split` (train_model.py:21) is not modelled. Each line becomes a row of `X`, but about a fifth of those rows are held out for testing and never fitted. Agreement.ServingAnswersFromTrainingRow therefore speaks of a line's row of `X`, not of the rows that were fitted.
- `LinearRegression.fit`, and the `fit` call mutating the pipeline, are library numerics. The fitted intercept and coefficients are parameters.
- The `.2f` formatting of the amount is float formatting: the reply carries the amount instead.
- The text of a caught exception is library text: the unexpected-error reply carries only the missing key's name.
- Serving.ParseForm: a failure is only a `ValueError` from a bad number or a missing key. Other exceptions inside the try block are not modelled (for example a failure inside `model.predict`).
- Polynomial.Predict: computes over exact reals, with no floating-point rounding. NaN and infinities are modelled only where the BMI range check sees them.
- Training.MapColumn and Training.GetDummies: pandas dtypes and index alignment are not modelled. Frames are values, so the in-place column assignments become rebindings, and aliasing is not modelled.
- Training.Preprocess: requires the four columns it reads. A missing column raises `KeyError` in pandas, and the model does not model that crash.
- Training.Categories: takes only the text cells of the column. A numeric or missing region cell is ignored, not given a category.
- scikit-learn's check of the feature names passed to `predict` is not modelled. Instead, `Agreement.SchemaAgreement` proves that the names and order agree.
- That the output depends only on the features and the coefficients needs no lemma. It holds because `Polynomial.Predict` is a function of exactly those.
