# Titanic survey pipeline: a Dafny model of its data stages

The repository runs a small data-mining pipeline over the Titanic passenger
list, stage by stage:

- `dpre.py` cleans the table. It fills missing ages with the median and a
  missing port of embarkation with the most frequent port, and drops the
  cabin.
- It then derives features: the family size, whether the passenger travelled
  alone, and a title taken from the passenger's name and mapped onto five
  groups. It one-hot encodes sex, port and title and drops the identifier
  columns.
- It reduces the table to an allow-list of thirteen features, and discretises
  age, fare and family size into labelled bands.
- `model.py` chooses the numeric features and imputes their missing values
  with the mean. For the cluster labels that k-means assigns, it reports the
  size of every cluster, every feature's mean in every cluster, and every
  cluster's survival rate.
- `eda.py` computes the survival rate of every group by sex, passenger class
  and age band, and states which group fared better and by what factor.

Each stage is modelled as a pure function on a table. A table is an ordered
list of column names, a typed column per name and a row count. Columns are
numeric (int64 or float64, possibly NaN), strings (possibly None) or bool,
as pandas dtypes are.

Every way a stage can raise is modelled as an `Err` value, in the order the
statements would raise it:

- a missing column (`KeyError`);
- a column of the wrong dtype (`TypeError`, or `AttributeError` where the
  `.str` accessor meets a column that is not strings);
- an empty mode (`KeyError: 0`: `mode()` of a column with no value is an empty
  Series, and `[0]` is a label lookup on it);
- equal quantile edges, an unusable feature matrix or a missing group
  (`ValueError` and `KeyError`).

The k-means fit is not modelled. Its labels are a parameter of the cluster
summary, and the model states what holds for any labelling that k-means can
return.

Modules, one concept each:

- `Wrappers`: `Option` and `Result`.
- `Frame`: cells, columns, tables, column assignment, dropping and projection.
- `Order`: the orders pandas sorts by.
- `Stats`: sum, mean, median, mode, quartiles, grouping by key, and the mean
  that skips NaN.
- `Clean`: `clean_data`.
- `Titles`: the title regex and mapping.
- `Encode`: `get_dummies`.
- `Transform`: `transform_data`.
- `Reduce`: `reduce_data`.
- `Discretize`: `discretize_data`.
- `Cluster`: `model.py`.
- `Insights`: `eda.py`.

Two behaviours of the code worth noting:

- `reduce_data` keeps the allow-listed columns in the order of the allow-list,
  not in the order of the input table.
- `qcut` fails exactly when two of the five quartile edges coincide, including
  when there is no fare at all. It does not fail merely because there are
  fewer than four distinct fares: three distinct fares can give five distinct
  edges.

## Model

| member | source | states |
|---|---|---|
| Clean.ImputeMedian | dpre.py:21 | Age keeps every present cell and gets the median of the present ages in every missing cell; with no present age nothing changes (the median is NaN) |
| Clean.ImputeMode | dpre.py:24 | Embarked keeps every present cell and gets the most frequent value in every missing cell |
| Clean.CleanData | dpre.py:17-27 | KeyError on Age, then TypeError on Age, then KeyError on Embarked, then an empty mode, then KeyError on Cabin; on success Cabin alone is gone, the row count is kept, Age and Embarked are imputed as above and every other column is unchanged |
| Clean.CleanedHasNoMissing | dpre.py:21-24 | after cleaning no Embarked is missing, and no Age is missing if any Age was present |
| Stats.Median | dpre.py:21 | the median lies between the smallest and the largest value |
| Stats.MedianSplits | dpre.py:21 | at least half of the values are at most the median and at least half are at least the median |
| Stats.MedianOfSorted | dpre.py:21 | for the values in ascending order, the median is the middle value of an odd count and the mean of the two middle values of an even count |
| Order.SortedUnique | dpre.py:21 | two ascending lists of the same values are equal, so the median does not depend on how the values were sorted |
| Stats.Mode | dpre.py:24 | the mode is one of the values, occurs at least as often as any value, and is the smallest of the most frequent values (`mode()[0]`) |
| Stats.Quartiles | dpre.py:137-141 | five edges running from the smallest to the largest fare without decreasing |
| Stats.MiddleQuartileIsMedian | dpre.py:137-141 | the middle quartile edge is the median of the fares |
| Titles.RunEnd | dpre.py:54 | the end of the maximal run of ASCII letters starting at a position |
| Titles.TitleAt | dpre.py:54 | a title matches at position i exactly when the regex ` ([A-Za-z]+)\.` matches there, and the captured letters are returned |
| Titles.FirstTitle | dpre.py:54 | the first match at or after a position, or none when no later position matches |
| Titles.ExtractTitle | dpre.py:54 | no title exactly when the regex matches nowhere; otherwise the capture of a match |
| Titles.FirstTitleIsLeftmost | dpre.py:54 | the extracted title is the one of the leftmost match, as `str.extract` returns it |
| Titles.ExtractedTitleIsWord | dpre.py:54 | an extracted title is a non-empty run of ASCII letters |
| Titles.MapTitle | dpre.py:57-78 | every title is mapped into Mr, Miss, Mrs, Master or Rare; a missing or unlisted title becomes Rare |
| Titles.MapTitleIdempotent | dpre.py:57-78 | mapping a mapped title again changes nothing |
| Titles.MapTitleExamples | dpre.py:57-78 | Dr and Countess go to Rare, Mlle and Ms to Miss, Mme to Mrs, and NaN and an unlisted title to Rare |
| Transform.FamilySizeOf | dpre.py:48 | the size is present exactly when both counts are, exceeds their sum by one, and is at least 1 for counts that are not negative |
| Transform.IsAloneOf | dpre.py:51 | IsAlone is always 0 or 1, and is 1 exactly when the family size is 1 (a NaN size compares unequal) |
| Transform.AloneIffNoRelatives | dpre.py:48-51 | with counts that are not negative, a passenger is alone exactly when SibSp and Parch are both 0 |
| Transform.FlagFamilySizeOf | dpre.py:48 | with two bool counts the size is 1 or 2, and 2 exactly when either count is true (numpy adds two bools as a logical or) |
| Transform.FlagSizeIsNotSum | dpre.py:48 | two true bool counts give 2, where the same counts as numbers give 3 |
| Transform.FlagAloneIffNoRelatives | dpre.py:48-51 | with bool counts a passenger is alone exactly when both counts are false |
| Transform.FamilySizeColumn | dpre.py:48 | the FamilySize column has one cell per row: the logical-or size when both count columns are bool, otherwise SibSp + Parch + 1 of that row |
| Transform.IsAloneColumn | dpre.py:51 | the IsAlone column has one cell per row, computed from that row's family size |
| Transform.IsAloneMatchesFamilySize | dpre.py:51 | every IsAlone cell is present, is 0 or 1, and is 1 exactly where the family size is 1 |
| Transform.AddFamily | dpre.py:48-51 | KeyError on SibSp, then on Parch, and TypeError for a string count; on success FamilySize and IsAlone are stored and every other column is unchanged |
| Transform.ExtractColumn | dpre.py:54 | every Title cell is the title extracted from that row's Name, NaN where the name is missing or has no match |
| Transform.RemapColumn | dpre.py:78 | every cell becomes the mapped group of that row's title, so the column has no missing cell |
| Transform.RemapIdempotent | dpre.py:78 | remapping a remapped Title column changes nothing |
| Transform.TitleColumn | dpre.py:54-78 | the Title column holds one of the five groups in every row |
| Transform.AddTitle | dpre.py:54-78 | KeyError without Name, and a failure naming Name for a Name column that is not strings (pandas raises AttributeError from the `.str` accessor); on success Title is stored and every other column is unchanged |
| Transform.Featured | dpre.py:48-78 | the table after the FamilySize, IsAlone and Title statements is a well-formed table with every row; its columns are stated by Transform.FeaturedColumns |
| Transform.FeaturedColumns | dpre.py:48-78 | after the feature statements FamilySize, IsAlone and Title hold the derived columns, and Sex, Embarked, Ticket and PassengerId are unchanged |
| Transform.Encoded3 | dpre.py:81 | the table get_dummies returns inside transform_data is a well-formed table with every row; its columns are stated by the Encoded lemmas below |
| Transform.EncodedColumns | dpre.py:81 | FamilySize, IsAlone, Ticket and PassengerId survive get_dummies unchanged |
| Transform.EncodedGone | dpre.py:81 | Sex, Embarked and Title are gone after get_dummies |
| Transform.EncodedKeepsPlain | dpre.py:81 | every column without an underscore that is not encoded survives get_dummies unchanged |
| Transform.EncodedDummyColumns | dpre.py:81 | every dummy column of Sex, Embarked and the derived Title is stored under its name |
| Transform.TransformDummies | dpre.py:81 | every dummy name of Sex, Embarked and the derived Title contains an underscore |
| Transform.DummiesHaveUnderscores | dpre.py:81 | every dummy name of transform_data contains an underscore |
| Transform.EncodedKeysOf | dpre.py:48-81 | after get_dummies a name is present exactly when it is an unencoded input column, FamilySize, IsAlone, or a dummy name |
| Transform.FamilyErrorOrder | dpre.py:48 | after an absent SibSp, transform_data fails on an absent Parch, then on a string SibSp, then on a string Parch |
| Transform.TitleErrorOrder | dpre.py:54 | once the counts are usable, transform_data fails on an absent Name, then on a Name column that is not strings |
| Transform.EncodeErrorOrder | dpre.py:81 | once Title is built, transform_data fails on an absent Sex, then an absent Embarked, then a numeric Sex, then a numeric Embarked |
| Transform.FamilyFailure | dpre.py:48 | a failing family step is one of the failures transform_data admits, and the input is one transform_data rejects |
| Transform.TitleFailure | dpre.py:54 | the same for a failing title step |
| Transform.FeaturedFailure | dpre.py:81 | the same for a failing get_dummies |
| Transform.DroppedOutcome | dpre.py:84 | the drop succeeds exactly when Ticket and PassengerId are present, and otherwise names one of them that is missing |
| Transform.DroppedKeys | dpre.py:84 | after the drop a name is present exactly when it is an input column that is neither encoded nor dropped, FamilySize, IsAlone or a dummy name; every other input column without an underscore is unchanged |
| Transform.DroppedDummies | dpre.py:84 | the drop keeps every dummy column |
| Transform.TransformData | dpre.py:43-87 | an absent SibSp is the first error, and every error is one of the failures the statements can raise on the caller's columns; success exactly when the input is transformable; on success FamilySize, IsAlone and the dummies are present with their computed contents, Sex, Embarked, Title, Name, Ticket and PassengerId are gone, and every other column without an underscore is unchanged |
| Encode.DummyName | dpre.py:81 | a dummy name is the prefix, an underscore and the category text |
| Encode.DummyNameInjective | dpre.py:81 | two categories of one column never share a dummy name |
| Encode.Levels | dpre.py:81 | the categories are exactly the present values, in ascending order without repetition |
| Encode.Indicator | dpre.py:81 | the indicator column is true exactly in the rows holding the category |
| Encode.Dummies | dpre.py:81 | one bool column per category except the first (`drop_first=True`), each as long as the column |
| Encode.DummyIsIndicator | dpre.py:81 | the k-th dummy column is named after and indicates the (k+1)-th category |
| Encode.AtMostOneDummy | dpre.py:81 | no row has two dummy cells set |
| Encode.AllZeroDummies | dpre.py:81 | a row has no dummy cell set exactly when its value is missing or is the dropped first category |
| Encode.DummyNames | dpre.py:81 | the dummy names of one column are distinct and all start with the prefix and an underscore |
| Encode.DummiesOfOtherPrefix | dpre.py:81 | dummy columns of prefixes with different first letters never share a name |
| Encode.AppendAll | dpre.py:81 | storing the dummy columns keeps the older names first, adds the new ones, and leaves untouched every column not overwritten |
| Encode.EncodeColumn | dpre.py:81 | one encoded column is removed and its dummy columns are appended |
| Encode.GetDummies | dpre.py:81 | KeyError naming the first absent encoded column; otherwise the model rejects a numeric encoded column (a model choice, not pandas behaviour); on success the encoded columns are replaced by their dummies |
| Encode.GetDummiesErrorOrder | dpre.py:81 | with Title usable, get_dummies fails on an absent Sex, then an absent Embarked, then a numeric Sex, then a numeric Embarked |
| Encode.PlainNameKept | dpre.py:81 | a name without an underscore that is not encoded is present after get_dummies exactly when it was before, with the same column |
| Encode.NamesApart | dpre.py:81 | no dummy name equals an encoded column's name or a dummy name of another column |
| Encode.EncodeThree | dpre.py:81 | after encoding all three columns, every dummy column is stored under its name |
| Encode.KeptSex | dpre.py:81 | the Sex dummies survive the encoding of Embarked and Title |
| Reduce.Keep | dpre.py:109 | the kept names are exactly the listed names that exist, without repetition when the list has none |
| Reduce.KeepConcat | dpre.py:109 | keeping distributes over concatenation, so allow-list order is kept |
| Reduce.KeepIdempotent | dpre.py:109 | filtering twice is filtering once |
| Reduce.ReduceData | dpre.py:103-111 | reduce_data never fails; it keeps exactly the allow-listed columns that exist, in allow-list order, with their cells and all rows |
| Reduce.ReduceIdempotent | dpre.py:103-111 | reducing a reduced table changes nothing |
| Reduce.ReduceFull | dpre.py:103-111 | a table with every allow-listed column is reduced to exactly the allow-list |
| Discretize.Bin | dpre.py:130-148 | the band of a value is one whose right-closed interval holds it (the lowest edge too when it is included), and there is none exactly outside the edges or at an excluded lowest edge |
| Discretize.BinUnique | dpre.py:130-148 | a value is assigned band k exactly when it lies in band k, so the bands do not overlap |
| Discretize.CutColumn | dpre.py:130-148 | a cell's label is missing exactly when the value is missing or outside the bands; otherwise it is the label of the band holding the value |
| Discretize.AgeGroupOf | dpre.py:130-134 | the five Age bands (0,12], (12,18], (18,35], (35,60] and (60,100] with their labels, and NaN at 0, outside the bins or for a missing age |
| Discretize.FamilyGroupOf | dpre.py:144-148 | the FamilySize bands (0,1] Alone, (1,3] Small and (3,10] Large, and NaN outside them |
| Discretize.AgeBandExamples | dpre.py:130-148 | 10 and 12 are Child, 70 is Senior, 0 has no band, and a family size of 1 is Alone |
| Discretize.FareGroups | dpre.py:137-141 | qcut fails exactly when there is no fare or two quartile edges coincide; otherwise a missing fare stays missing and a fare in quartile band k, the lowest edge included, gets the k-th of Low, Medium-Low, Medium-High, High |
| Discretize.FareBandOf | dpre.py:137-141 | a present fare up to the first quartile is Low, up to the median Medium-Low, up to the third quartile Medium-High and above it High |
| Discretize.FareInBand | dpre.py:137-141 | a present fare in quartile band k carries the label of band k |
| Discretize.EveryFareBanded | dpre.py:137-141 | every present fare gets one of the four labels; the cheapest fare is Low and the dearest is High |
| Discretize.FareAtEdgeGoesLow | dpre.py:137-141 | a fare equal to an inner quartile goes into the band below it |
| Discretize.AddBands | dpre.py:130-148 | the three band columns are stored under their names, and every other column is unchanged |
| Discretize.DiscretizeData | dpre.py:127-154 | KeyError or TypeError on Age, Fare and FamilySize, in statement order, and a qcut failure after the Age and Fare reads; on success the three band columns are the cuts of the columns read and every other column is unchanged |
| Cluster.Features | model.py:25-29 | a column is a feature exactly when it is numeric, is not Survived and has no underscore in its name; no feature is listed twice |
| Cluster.CandidatesConcat | model.py:25-29 | the features keep the order of the table |
| Cluster.FeaturesExclude | model.py:28-29 | neither Survived nor any dummy column is ever a feature |
| Cluster.ImputeMean | model.py:43 | every missing cell gets the mean of the present values, present cells are kept, and a column with no present value is unchanged |
| Cluster.ImputedComplete | model.py:43 | an imputed column with any present value has no missing cell |
| Cluster.FeatureMatrix | model.py:40-43 | X has exactly the feature columns, each imputed |
| Cluster.CheckMatrix | model.py:46-51 | X is rejected exactly when it has fewer than three rows or a feature with no present value; the first rejection is named |
| Cluster.CheckedMatrixComplete | model.py:43-51 | a matrix that passes the check has no missing cell |
| Cluster.SizesAddUp | model.py:54 | every row is in exactly one cluster, so the three cluster sizes add up to the number of rows |
| Cluster.ClusterMean | model.py:66 | a cluster's feature mean lies between the smallest and the largest present value of that cluster, and is NaN when the cluster has none |
| Cluster.RateIsProbability | model.py:75 | with 0/1 outcomes a cluster's survival rate lies in [0, 1] |
| Cluster.FirstEmpty | model.py:68-71 | the lowest cluster without a row, whose lookup is the first to fail |
| Cluster.Summarize | model.py:25-78 | fails with no features, then on the rejected matrix, then on the lowest empty cluster id, then on an outcome column that is not numeric; otherwise it reports every cluster's size, every feature's mean in every cluster, and the survival rates exactly when Survived exists |
| Cluster.SummarySizesAddUp | model.py:54-60 | the reported cluster sizes add up to the number of rows |
| Stats.Where | model.py:66 | the rows of one group: every value occurs exactly as often as the rows holding it with the key, so the count is the key's occurrences and every row with the key is included |
| Stats.WhereFromKey | model.py:66 | every value picked for a key comes from a row holding that key |
| Stats.MeanOf | model.py:66 | the mean skips NaN, is NaN exactly when no value is present, and lies between the smallest and the largest present value |
| Stats.MeanOfOutcomes | model.py:75 | the mean of 0/1 values is in [0, 1] |
| Insights.KeysOf | eda.py:25 | the keys of the groups, in group order |
| Insights.Outcomes | eda.py:25 | the outcomes of one group: each outcome as often as the rows holding it with the key, and every outcome picked from a row holding the key |
| Insights.OutcomesFromKey | eda.py:25 | every outcome picked for a key comes from a row whose key it is |
| Insights.GroupRates | eda.py:25 | the groups are the present keys in strictly ascending order, each with the NaN-skipping mean outcome of its rows |
| Insights.GroupsOccur | eda.py:25 | every reported group has at least one row |
| Insights.GroupRateIsProbability | eda.py:46 | with 0/1 outcomes every group rate lies in [0, 1] |
| Insights.Find | eda.py:36 | the first group whose key matches, or none exactly when no group's key matches |
| Insights.RateOf | eda.py:30-31 | a group's rate is found exactly when a group with that key exists |
| Insights.Ratio | eda.py:38 | the factor is defined exactly when the denominator is not zero, and multiplied by the denominator gives the numerator |
| Insights.Comparison | eda.py:36-38 | the corrected guard: a factor is stated only when both rates are present, the first is above the second and the second is not zero (the code itself has no zero check; see Findings) |
| Insights.ComparisonExceedsOne | eda.py:36-38 | with rates that are not negative every stated factor is above one |
| Insights.Gender | eda.py:22-39 | the analysis stops exactly when key 0 or key 1 is absent; otherwise the female and male rates are those of keys 0 and 1, with a factor under the corrected guard |
| Insights.Class | eda.py:44-61 | the analysis stops exactly when there are at least three classes and class 1 or class 3 is absent; the rates are listed in ascending class order, and the factor needs at least three classes and is taken under the corrected guard |
| Insights.Age | eda.py:66-87 | no comparison unless both Child and Adult occur; otherwise children fare better exactly when their rate is above the adults', with a factor under the corrected guard |
| Insights.Analyze | eda.py:22-87 | an outcome column that is not numeric stops the analysis; otherwise it stops at the gender lookup, then at the class lookup; each insight is present exactly when its grouping column and Survived are, and its factors follow the corrected guard |
| Insights.ReportedFactorsExceedOne | eda.py:36-82 | with 0/1 outcomes every factor the report states is above one |
| Insights.GenderFactorExceedsOne | eda.py:36-38 | with 0/1 outcomes a stated female-to-male factor is above one |
| Insights.ClassFactorExceedsOne | eda.py:57-59 | with 0/1 outcomes a stated first-to-third-class factor is above one |
| Insights.AgeFactorExceedsOne | eda.py:79-82 | with 0/1 outcomes a stated child-to-adult factor is above one |
| Insights.RateIsNonNegative | eda.py:25 | with 0/1 outcomes a looked-up group rate is not negative |
| Insights.RatioAsWritten | eda.py:38 | the quotient as written is infinite exactly when the denominator is zero |
| Insights.GenderRatioAsWritten | eda.py:36-38 | the as-written gender comparison is made exactly when both keys are present with the female rate above the male rate |
| Insights.GenderRatioUnbounded | eda.py:36-38 | female rate 0.5 and male rate 0 pass the guard and give an infinite factor as written, where the corrected Gender states no factor |
| Insights.ClassRatioAsWritten | eda.py:57-59 | the as-written class comparison is made exactly when there are at least three classes, classes 1 and 3 are present and the first-class rate is above the third-class rate |
| Insights.ClassRatioUnbounded | eda.py:57-59 | first-class rate 0.5 and third-class rate 0 pass the guard and give an infinite factor as written, where the corrected Class states no factor |
| Insights.AgeRatioAsWritten | eda.py:79-82 | the as-written age comparison is made exactly when Child and Adult are present and the Child rate is above the Adult rate |
| Insights.AgeRatioUnbounded | eda.py:79-82 | Child rate 0.5 and Adult rate 0 pass the guard and give an infinite factor as written, where the corrected Age says children fared better without a factor |

## Left out

- File input and output are left out, along with `print`, the text written to
  `k.txt` and `eda-in-*.txt`, and `data_preprocessing`. The model works on the
  tables those functions read and computes what they report.
- The CSV round trip between the stages is left out. A stage reads the table
  that a CSV file would give back, so "numeric" means a numeric column.
- `StandardScaler` and `KMeans` are called into, not modelled. The labels are
  a parameter of `Cluster.Summarize`. Of the two, only the input checks are
  modelled: no rows, too few rows, and a still-NaN feature.
- Cluster.Summarize: the means are taken over the table as read. A numeric
  column that is itself named `cluster` is not modelled.
- Cluster.ImputeMean: `fillna(..., inplace=True)` on the local copy `X` is
  modelled as a new column, since no caller sees `X`.
- Transform.TransformData: an encoded column of numeric dtype is rejected with
  `WrongType`. pandas would instead encode its numbers as text. When both
  Ticket and PassengerId are absent from the final drop, pandas names them both
  in one KeyError; the model names the first.
- Encode.GetDummies: the same choice. An explicitly listed numeric column is
  rejected with `WrongType`, where pandas get_dummies encodes it. When several
  encoded columns are absent, pandas names them all in one KeyError; the model
  names the first.
- Transform.AddTitle: a Name column that is not strings gives `WrongType`,
  which stands for the AttributeError of the `.str` accessor.
- Insights.Comparison, Insights.Gender, Insights.Class, Insights.Age and
  Insights.Analyze state the intended guard. A factor needs a denominator rate
  that is not zero. The code divides by a zero rate and writes an infinite
  factor; Insights.GenderRatioAsWritten, Insights.ClassRatioAsWritten and
  Insights.AgeRatioAsWritten model that (see Findings).
- Encode.AppendAll: when a dummy name equals an existing column's name, the
  later column overwrites the earlier one. pandas would keep both under one
  name, which this table cannot hold.
- Discretize.FareGroups: the model states the edges and the band of each fare,
  but does not prove qcut's promise that the bands are approximately equal in
  size.
- Floating point is modelled as exact reals. That affects sums, means,
  medians, quantile interpolation and the factors. A NaN cell is modelled as a
  missing cell.
- Insights.Matches: the model follows pandas 1.x, where an object index of
  bools matches the integer keys 0 and 1. There, Sex_male comes back from the
  CSV as int64 anyway, because get_dummies wrote uint8 columns. pandas 2.x
  writes bool dummies, and its bool index does not match 0 or 1. `0 in s` is
  then false and `.get(0)` falls back to position, so the gender comparison
  is never written. That behaviour is not modelled.
- Insights.Class: pandas falls back to position when an integer lookup misses
  on a non-integer index. This is not modelled; such a lookup fails.
- Insights.Analyze and Cluster.Summarize treat a Survived column that is not
  numeric as unusable. That includes a bool Survived column, which pandas
  would average as 0/1.

## Findings

| source | as written | input that shows it | evidently intended | confidence | as-written member | corrected member |
|---|---|---|---|---|---|---|
| eda.py:36-38 | the guard checks only that the female rate is above the male rate, then divides by the male rate | Sex_male keys 0 and 1, female rate 0.5, male rate 0.0: the guard passes and numpy's division gives `inf` ("inf times more likely") | a factor is stated only when the male rate is not zero; with 0/1 outcomes the factor is then above one. Insights.Gender and Insights.Analyze use this corrected guard | not executed | Insights.GenderRatioUnbounded | Insights.GenderFactorExceedsOne |
| eda.py:57-59 | the guard checks only that the first-class rate is above the third-class rate, then divides by the third-class rate | classes 1, 2 and 3 with rates 0.5, 0.25 and 0.0: the guard passes and the factor is `inf` | a factor is stated only when the third-class rate is not zero; it is then above one. Insights.Class and Insights.Analyze use this corrected guard | not executed | Insights.ClassRatioUnbounded | Insights.ClassFactorExceedsOne |
| eda.py:80-82 | the guard checks only that the Child rate is above the Adult rate, then divides by the Adult rate | Adult rate 0.0, Child rate 0.5: the guard passes and the factor is `inf` | a factor is stated only when the Adult rate is not zero; it is then above one. Insights.Age and Insights.Analyze use this corrected guard | not executed | Insights.AgeRatioUnbounded | Insights.AgeFactorExceedsOne |
