# Finance dashboard: transaction analysis core

This project is a Dafny model of the transaction-analysis core of the personal finance dashboard in `finance_dashboard.py`. The dashboard reads a table of bank SMS messages and runs a fixed sequence of steps:

- normalises each message to lower case without surrounding whitespace;
- extracts the first `inr` / `aed` / `₹` amount;
- keeps or drops rows by whether they carry an amount;
- labels the kept rows with a category from a trained classifier;
- tags each row Debit, Credit or Unknown from keywords;
- filters the table by the selected types and categories;
- reports the Debit and Credit totals and the top category;
- chooses a spending verdict and a savings tip.

The model has one module per part.

- `Results`: `Option`, `Result` and the two ways the block can fail.
  - `NotANumber`: `float` raising ValueError on a captured literal without digits.
  - `LengthMismatch`: a column assignment of a label list of the wrong length.
- `Text`: ASCII lower-casing, `str.strip`, and substring search.
- `Amounts`: `extract_amount`. The regular expression `(?i)(?:inr|aed|₹)\s?([\d,]+\.?\d*)` is written out as a scanner:
  - the leftmost start position wins;
  - a marker is matched ignoring case;
  - the marker may be followed by one whitespace character;
  - then comes a greedy run of digits and commas, an optional point and a greedy run of digits;
  - the conversion removes the commas and reads the rest exactly.
- `AmountFormat`: the dashboard's money format `₹{x:,.2f}`, and the round trip of every such rendering through the extractor.
- `AmountExamples`: the extractor on concrete messages.
- `Tagger`: `detect_type`.
- `Pipeline`: the processing block.
  - `Analysis` is the specification: normalise, extract, keep or drop, classify, tag.
  - The method `Analyse` builds the table stage by stage, the way the block reassigns the dataframe's columns, and is proved equal to `Analysis`.
  - The classifier (`vectorizer.transform` followed by `model.predict`) is a function parameter.
- `Report`: the filter, the Debit and Credit totals, and `top_cat`.
  - The filter takes arbitrary type and category selections; the sidebar's default is every value present.
  - `top_cat` is the first maximum, in sorted key order, of the per-category sums.
- `Advisor`: the spend band, the progress value and the tip for the top category.

Amounts are exact rationals (`real`). The 0.8 and 0.6 thresholds therefore compare exactly, and `float` rounding is not modelled.

Two facts about the processing block shape the model:
- The classifier is called on the kept rows only, after rows without an amount have been dropped. It is not called on every normalised message (finance_dashboard.py:165-169).
- The processing block is not total. A captured literal made only of commas, such as `inr ,`, makes `float` raise. Because `extract_amount` runs inside `apply` (finance_dashboard.py:155, 158), this aborts the whole block, and the model returns `Err(NotANumber(""))` (`AmountExamples.CommasOnlyFailToConvert`).

## Model

| member | source | states |
|---|---|---|
| Text.Strip | finance_dashboard.py:149 | `str.strip`: the result is empty iff the text is all whitespace, otherwise it starts and ends with a non-space; it is the text with a whitespace-only prefix and suffix removed |
| Text.StripStripped | finance_dashboard.py:149 | stripping a text that already has no surrounding whitespace leaves it unchanged |
| Text.LowerOfStrip | finance_dashboard.py:149 | stripping keeps a lower-case text lower-case |
| Text.Lower | finance_dashboard.py:149 | `str.lower` on ASCII: each upper-case letter replaced by its lower-case form, every other character kept; specified by LowerIdempotent and used by Tagger.DetectType for the `lower()` of line 173 |
| Text.LowerIdempotent | finance_dashboard.py:149 | lower-casing twice is lower-casing once, and leaves no upper-case letter |
| Text.Contains | finance_dashboard.py:174 | `x in text` is true iff `x` occurs at some position of `text` |
| Pipeline.Normalise | finance_dashboard.py:149 | one cell as `astype(str).str.lower().str.strip()` leaves it, a missing cell read as `nan`; specified by NormaliseIdempotent, Text.Strip and Text.LowerIdempotent |
| Pipeline.NormaliseIdempotent | finance_dashboard.py:149 | a normalised message is lower case, and normalising it again changes nothing |
| Pipeline.MapCells | finance_dashboard.py:149 | the loop over the column yields one text per cell, each the given function of that cell |
| Pipeline.NormaliseColumn | finance_dashboard.py:149 | the column becomes every message lower-cased and stripped, with missing cells read as `nan` |
| Amounts.FirstMatch | finance_dashboard.py:153 | the search returns the first position from which the pattern matches, or none when it matches nowhere |
| Amounts.NumRunEnd | finance_dashboard.py:153 | the greedy `[\d,]` run ends at the first character that is neither a digit nor a comma |
| Amounts.DigitRunEnd | finance_dashboard.py:153 | the greedy `\d*` run ends at the first non-digit |
| Amounts.Capture | finance_dashboard.py:153 | capture group 1 from the number start: the greedy digit-and-comma run, then a point and the greedy digit run when a point follows; well formed by its contract and specified by CaptureSpec |
| Amounts.CaptureSpec | finance_dashboard.py:153 | the captured group lies in the text where the number starts; its digit-and-comma run cannot be extended; it takes a point exactly when one follows that run; its fraction cannot be extended |
| Amounts.RemoveCommas | finance_dashboard.py:155 | `replace(",", "")`: the text without its commas; specified by RemoveCommasSpec and RemoveCommasAppend |
| Amounts.RemoveCommasSpec | finance_dashboard.py:155 | `replace(",", "")` leaves exactly the characters that are not commas; it leaves nothing iff the text is all commas, and only digits when given digits and commas |
| Amounts.RemoveCommasAppend | finance_dashboard.py:155 | removing commas distributes over concatenation, so the remaining characters keep their order and repeats |
| Amounts.Convert | finance_dashboard.py:155 | `float` on the captured literal fails iff the literal has no digit, and otherwise yields a non-negative number |
| Amounts.Extract | finance_dashboard.py:152-156 | "no value" iff the pattern matches nowhere; otherwise the conversion of the leftmost match's capture, which is non-negative or a conversion error |
| Amounts.ExtractDecomposed | finance_dashboard.py:152-156 | on any marker-free text, then a marker, then at most one whitespace character, then a literal not extended by what follows, the result is that literal's conversion |
| Amounts.ExtractIgnoresCase | finance_dashboard.py:153 | the extractor gives the same result on a text and on its lower-case form, so the `(?i)` flag and the earlier lower-casing agree |
| AmountFormat.FormatAmount | finance_dashboard.py:212 | `{x:,.2f}` of an amount held in whole paise: the grouped rupees, a point and two digits of paise; specified by ExtractFormatted, which reads every rendering back |
| AmountFormat.Grouped | finance_dashboard.py:212 | the `,` grouping of a whole number is a run of digits and commas that starts with a digit and reads back as that number once the commas are removed |
| AmountFormat.ConvertRendered | finance_dashboard.py:155 | any whole number rendered in decimal, a point and `k` digits of a fraction convert to the number plus the fraction over `10^k` |
| AmountFormat.FormattedValue | finance_dashboard.py:212 | a literal that reads the rupees and the two paise digits of an amount converts to that amount |
| AmountFormat.ExtractFormatted | finance_dashboard.py:212-213 | any amount shown in the metric format, after a marker and at most one space, is extracted back exactly, whatever marker-free text precedes it |
| AmountExamples.PaidWithSeparators | finance_dashboard.py:152-155 | "paid inr 1,234.50 today" gives 1234.5 |
| AmountExamples.SecondPointEndsTheNumber | finance_dashboard.py:153 | "inr 1.2.3" gives 1.2: the capture stops at the second point |
| AmountExamples.CommasOnlyFailToConvert | finance_dashboard.py:155 | "inr ," matches, but its capture is empty once the commas are removed, so the conversion fails rather than giving no value |
| AmountExamples.RupeeWithoutSpace | finance_dashboard.py:153 | "₹99" gives 99: the whitespace after the marker is optional |
| AmountExamples.TwoSpacesIsNoValue | finance_dashboard.py:153-156 | "inr  5" gives no value: at most one whitespace character may follow the marker |
| Tagger.ContainsAny | finance_dashboard.py:174 | `any(x in text for x in words)` is true iff some keyword of the list occurs in the text |
| Tagger.DetectType | finance_dashboard.py:172-179 | Debit iff a debit keyword occurs in the lower-cased text; Credit iff none does and a credit keyword does; Unknown iff neither kind does |
| Tagger.DetectTypeIgnoresCase | finance_dashboard.py:173 | tagging a lower-cased text gives the same type as tagging the text |
| Tagger.AppendingNeverWeakensTag | finance_dashboard.py:174-179 | appending text keeps a Debit message Debit and never turns a Credit message Unknown |
| Tagger.DebitKeywordAnywhere | finance_dashboard.py:174-175 | a debit keyword anywhere, whatever surrounds it, makes the message Debit, even with credit keywords present |
| Tagger.UnpaidIsDebit | finance_dashboard.py:174 | "unpaid bill" is Debit: keywords match as substrings, not words |
| Tagger.SalarySpentIsDebit | finance_dashboard.py:174-176 | a message with both kinds of keyword is Debit |
| Pipeline.ExtractAll | finance_dashboard.py:158 | `apply` over the column gives one amount per row, each the extractor's result on that row, or fails with the error of the first row whose extraction fails |
| Pipeline.ExtractAllStops | finance_dashboard.py:158 | once a prefix of the column fails, the whole column fails with that error |
| Pipeline.ApplyExtract | finance_dashboard.py:158 | the loop over the column returns what `ExtractAll` specifies, stopping at the first failure |
| Pipeline.KeptIndices | finance_dashboard.py:165 | the kept positions are in range, strictly increasing, carry an amount, and include every position that carries one |
| Pipeline.DropMissing | finance_dashboard.py:165 | `dropna` yields, in order, one row per kept position, with that row's text and amount |
| Pipeline.ZeroFillRows | finance_dashboard.py:163 | the loop builds every row with amount 0 |
| Pipeline.DropMissingRows | finance_dashboard.py:165 | the loop builds exactly the rows `DropMissing` specifies |
| Pipeline.TagRows | finance_dashboard.py:169-181 | the loop attaches to each row its label and its type |
| Pipeline.KeepOrDrop | finance_dashboard.py:161-165 | every row with amount 0 when no row has an amount, otherwise the rows that carry one; specified by NoAmountKeepsEveryRow and AmountsKeepTheirRows |
| Pipeline.Classified | finance_dashboard.py:168-169 | one classifier call on the kept texts, then each row with its label and type, or the length error when the labels do not match the rows; specified by RowsAreLabelledAndTagged |
| Pipeline.AnalysisWith | finance_dashboard.py:149-181 | the processing block for a given extractor: normalise, extract every row (the first failure aborts), keep or drop, classify and tag; specified by FailsOnFirstBadRow, NoAmountKeepsEveryRow, AmountsKeepTheirRows, RowsAreLabelledAndTagged and AmountsNonNegative |
| Pipeline.Analysis | finance_dashboard.py:149-181 | the processing block with the dashboard's own extractor; specified by AnalysisFailsOnlyOnConversion and implemented by Analyse |
| Pipeline.Analyse | finance_dashboard.py:149-181 | the stage-by-stage processing block returns exactly the table, or the error, that `Analysis` specifies |
| Pipeline.FoundIsExtracted | finance_dashboard.py:158 | when the column extracts without error, its amounts are the per-row extraction results |
| Pipeline.FirstBadRow | finance_dashboard.py:158 | a failing column fails with the error of its first failing message, every earlier message extracting without error |
| Pipeline.FailsOnFirstBadRow | finance_dashboard.py:155-158 | with a classifier giving one label per text, the block fails iff some row's extraction fails, and then with the error of the first such row |
| Pipeline.NoAmountKeepsEveryRow | finance_dashboard.py:161-163 | when no row carries an amount (an empty upload included), every row is kept, in order, with its normalised text and amount 0 |
| Pipeline.AmountsKeepTheirRows | finance_dashboard.py:164-165 | otherwise exactly the rows carrying an amount are kept, in their original order, each with its text and the amount found in it |
| Pipeline.RowsAreLabelledAndTagged | finance_dashboard.py:168-181 | the single classifier call on the kept texts gives one label per kept row; each row carries the label at its position and the type of its own text |
| Pipeline.AmountsNonNegative | finance_dashboard.py:158-165 | an extractor that never yields a negative amount leaves no negative amount in the table |
| Pipeline.ExtractIsSound | finance_dashboard.py:152-156 | `extract_amount` never yields a negative amount, and fails only with a conversion error |
| Pipeline.AnalysisFailsOnlyOnConversion | finance_dashboard.py:149-181 | with the real extractor and a length-preserving classifier, the block fails iff some message's literal does not convert; every failure is a conversion failure; every amount in the table is non-negative |
| Report.Filter | finance_dashboard.py:196-199 | the view is no longer than the table and holds exactly the rows whose type and category are both selected |
| Report.FilterAppend | finance_dashboard.py:196-199 | filtering distributes over concatenation, so the view keeps the table's order |
| Report.FilterKeepsAll | finance_dashboard.py:196-199 | when every row's type and category are selected, the view is the table itself |
| Report.DefaultSelectionKeepsAll | finance_dashboard.py:189-199 | with the sidebar's defaults (every type and category present) the view is the whole table |
| Report.FilterIdempotent | finance_dashboard.py:196-199 | filtering the view again with the same selection changes nothing |
| Report.OfKind | finance_dashboard.py:205 | the rows of one type are exactly the table's rows of that type |
| Report.TotalSpent | finance_dashboard.py:205 | `total_spent`: the sum of the amounts of the Debit rows of the view; specified by OfKindSum, KindsPartitionSum, UnknownRowsIgnored and TotalsNonNegative |
| Report.TotalCredited | finance_dashboard.py:206 | `total_credited`: the sum of the amounts of the Credit rows of the view; specified by the same lemmas as TotalSpent |
| Report.FilterSumIsSumOfKind | finance_dashboard.py:205-206 | summing the rows that a one-type filter keeps gives the total of that type |
| Report.OfKindSum | finance_dashboard.py:205-206 | the sum over the rows of one type is that type's total |
| Report.KindsPartitionSum | finance_dashboard.py:205-206 | total spent plus total credited plus the Unknown rows' sum is the sum of all amounts |
| Report.SumOfKindsPartition | finance_dashboard.py:205-206 | the three per-type totals add up to the sum of all amounts |
| Report.OtherKindIgnored | finance_dashboard.py:205-206 | a row of another type does not change a type's total |
| Report.UnknownRowsIgnored | finance_dashboard.py:205-206 | an Unknown row changes neither total spent nor total credited |
| Report.SumOfKindNonNegative | finance_dashboard.py:205-206 | with non-negative amounts a type's total is non-negative |
| Report.TotalsNonNegative | finance_dashboard.py:205-206 | with non-negative amounts both totals are non-negative, and both are 0 on an empty view |
| Report.SumOfKindPositive | finance_dashboard.py:206 | with non-negative amounts a type's total is positive iff some row of that type has a positive amount |
| Report.LexLessIrreflexive | finance_dashboard.py:208 | no label sorts before itself |
| Report.LexLessTotal | finance_dashboard.py:208 | of two different labels, one sorts before the other |
| Report.LexLessAsymmetric | finance_dashboard.py:208 | two labels never sort before each other |
| Report.LexLessTransitive | finance_dashboard.py:208 | sorting order on labels is transitive |
| Report.Insert | finance_dashboard.py:208 | inserting a label into sorted distinct keys keeps them sorted and adds exactly that label |
| Report.GroupKeys | finance_dashboard.py:208 | `groupby` keys are sorted, distinct, and exactly the categories of the view |
| Report.IdxMax | finance_dashboard.py:208 | `idxmax` picks a position holding the largest value, with every earlier value strictly smaller |
| Report.TopCategory | finance_dashboard.py:207-210 | `top_cat`: "N/A" for an empty view, otherwise the first sorted group key with the largest sum; specified by TopCategoryIsFirstMaximum, EmptyViewNotApplicable and TopCategoryNotApplicable |
| Report.FirstMaximumComesFirst | finance_dashboard.py:208 | over sorted keys the chosen key's sum bounds every other, and a key that ties with it sorts after it |
| Report.TopCategoryIsFirstMaximum | finance_dashboard.py:207-210 | for a non-empty view, `top_cat` is one of its categories, no category sums to more, and every other category that ties with it sorts after it |
| Report.EmptyViewNotApplicable | finance_dashboard.py:207-210 | an empty view's top category is "N/A", whatever the labels |
| Report.TopCategoryNotApplicable | finance_dashboard.py:207-210 | `top_cat` is "N/A" iff the view is empty, provided no category is itself named "N/A" |
| Advisor.SpendBand | finance_dashboard.py:258-268 | no verdict iff nothing positive was credited; otherwise overspending iff the ratio exceeds 0.8, moderate iff it lies in (0.6, 0.8], healthy iff it is at most 0.6 |
| Advisor.RatioAbove | finance_dashboard.py:263-265 | comparing spent with a fraction of credited is comparing the spend ratio with that fraction |
| Advisor.BandMonotone | finance_dashboard.py:263-268 | spending more never gives a milder verdict |
| Advisor.EightyPercentIsModerate | finance_dashboard.py:263-266 | spending exactly 800 of 1000 is moderate, not overspending |
| Advisor.Progress | finance_dashboard.py:259-260 | the bar's value lies in [0, 1] for non-negative spending; it is 1 iff spent reaches credited; below 1 it is the spend ratio |
| Advisor.TipFor | finance_dashboard.py:271-280 | the default tip iff the top category is none of Food, Shopping, Bills and Travel; every other tip names the category it was given for |
| Advisor.TipRoundTrip | finance_dashboard.py:271-280 | every specific tip is the one given for its own category |
| Advisor.Advise | finance_dashboard.py:223-280 | the advisor section of a non-empty view: the spend band and the capped ratio when something was credited, and the tip for the top category; nothing for an empty view; specified by AdviceShown and NoAdviceForEmptyView |
| Advisor.AdviceShown | finance_dashboard.py:223-280 | for a non-empty view with non-negative amounts, advice is shown; a verdict and progress value appear iff some Credit row has a positive amount; the progress value lies in [0, 1]; the tip is the default iff the top category is none of the four |
| Advisor.NoAdviceForEmptyView | finance_dashboard.py:223 | an empty view shows no advice |

## Left out

- The page layout, CSS, landing text, sidebar widgets, metric cards, progress-bar rendering and messages (finance_dashboard.py:24-142, 188-194, 212-216, 285-308) are presentation only. The money format `₹{x:,.2f}` of line 212 is modelled only as the round-trip partner of the extractor (`AmountFormat`). The sidebar selections are modelled as arbitrary sets of types and categories.
- The pie and bar charts (finance_dashboard.py:224-251) are calls into a charting library. Their descending sort is not stable, so the order of tied slices is unspecified.
- Loading the model and vectorizer (finance_dashboard.py:13-19) is left out, and their internals are not part of this model. The classifier is a parameter `seq<string> -> seq<string>`.
  - A label list of the wrong length is modelled as the error that pandas raises.
  - Whether the real classifier raises on an empty batch is not modelled.
- Reading the CSV upload and the check for its `SMS` column (finance_dashboard.py:130-142) are file input and happen before the core. Columns other than `SMS` are not modelled.
- The CSV export (finance_dashboard.py:288-294) is file output. It writes every column of the filtered table: the upload's own columns followed by Amount, Predicted_Category and Type. It does not write only the four columns shown at line 286.
- Floating point is not modelled. Amounts are exact rationals, so `float` rounding and rounding in `* 0.8` are absent.
- Unicode is modelled only in part. Lower-casing and stripping are modelled on ASCII letters and ASCII whitespace. `\d` and `\s` are modelled as ASCII digits and ASCII whitespace. The `(?i)` marker match is modelled on ASCII letters, so a marker spelt with a non-ASCII case variant of a letter (such as the dotless `ı`) is not matched. The `₹` sign is the only non-ASCII character the extractor treats specially.
- Only text cells and missing cells are modelled. Non-text cells rendered by `astype(str)` (numbers, dates) are not. A missing cell reads as `nan`.
- Report.TopCategoryNotApplicable: requires that no category is itself named "N/A" (the empty-view direction holds without it: `Report.EmptyViewNotApplicable`). A classifier label "N/A" that tops a non-empty view is indistinguishable from the empty-view sentinel in the source too.
- Advisor.Progress: states the capped ratio exactly. The percentage caption at line 261 is text formatting and is not modelled.
