# Ads campaign action plan — a Dafny model

`app.py` is a one-page dashboard for a sponsored-ads account. The user uploads a
campaign report (CSV or Excel, exported with Brazilian number formatting). The
page then goes through these steps:

1. It cleans the header names.
2. It turns the six money and percentage columns into numbers (`clean_numeric`).
3. If the sheet has a `Desde` column, it orders the rows by date.
4. It consolidates the rows per campaign (`Nome`). `Status`, `Orçamento` and
   `ACOS Objetivo` take the last value, spend and revenue are summed, and the
   two impression-loss percentages are averaged.
5. It computes a guarded ROAS and ACOS for each campaign.
6. It picks one of five actions with a first-match rule cascade
   (`get_recommendation`).
7. It shows the account totals with an overall ROAS.
8. It shows a table of the campaigns whose action the user selected, highest
   ROAS first.

The model follows that structure, one module per step:

| module | what it holds |
|---|---|
| `Cells` | Cell values (text, number, missing), `Option`, `Result` |
| `Text` | The parts of Python's `str` used here: `strip`, `replace`, `lower`, `in` |
| `Numeric` | `clean_numeric`, with a decimal parser standing in for `float()` |
| `Frames` | The uploaded sheet as a class `Frame`. Its methods rename the header and coerce the numeric columns in place. `Records` extracts the rows the grouping reads. |
| `Aggregation` | The date sort, and the group-by method `Aggregate` with its specification `Summarizes` |
| `Metrics` | ROAS, ACOS and the account overview |
| `Recommendation` | The rule cascade, as an if-chain and as a rule table |
| `View` | The label filter and the sort by descending ROAS |
| `Pipeline` | `Run`: the whole page, from the sheet to the report |

Money and percentages are Dafny `real`. A date is an opaque integer key that
may be missing.

Some consequences of the code are proved as lemmas rather than assumed:

- A dot in an amount is always a thousands separator, so "12.5" becomes 125.
- A status reading "Inativa" contains "ativa", so such a campaign never
  receives the inactive label.
- When the budget rule and the ranking rule both apply, raising the budget
  wins.
- The default filter hides the inactive and the "keep" campaigns.

An absent listed column is not filled with zeros. The coercion loop skips
it, and `groupby`/`agg` then raise `KeyError` for any missing aggregated
column or for `Nome`, so the page shows its error message instead of a
report. `Records` and `Run` return a failure naming the missing columns.

## Model

| member | source | states |
|---|---|---|
| Numeric.CleanNumeric | app.py:26-33 | Text always becomes a number and never fails. A cell that is not text is returned unchanged. |
| Numeric.ParseFloat | app.py:29-32 | `float()` on plain decimal notation, `None` standing for the `ValueError`. Only a leading minus sign gives a negative value. |
| Numeric.Rewrite | app.py:28 | Once "R$" is deleted, the rewrite goes character by character: a point disappears, a comma becomes a point, any other character stays. Then the whitespace at both ends is stripped. |
| Numeric.TextValue | app.py:29-32 | The value `clean_numeric` gives a text cell. It is 0.0 whenever the rewrite does not parse. A rewrite made only of digits is read as the number those digits denote. |
| Numeric.CleanParsed | app.py:28-30 | Text whose rewrite `float()` accepts is cleaned to the parsed value. |
| Numeric.CleanUnparsed | app.py:29-32 | Text whose rewrite `float()` rejects is cleaned to 0.0. |
| Numeric.ParseSignedPoint | app.py:30 | `float()` of a sign, digits, a point and digits gives the decimal value, negated for '-'. |
| Numeric.ParseSignedWhole | app.py:30 | `float()` of a sign and digits gives their number, negated for '-'. |
| Numeric.ParseRejectsBare | app.py:29-32 | Empty text, a lone point, a lone sign and a sign before a lone point make `float()` fail. |
| Numeric.RewriteSeparators | app.py:28 | After the rewrite no comma is left, and there are exactly as many points as the input had commas. Every other non-blank character except `R` and `$` occurs as often as in the input. |
| Numeric.NoCommaGivesWholeNumber | app.py:28-32 | Within the plain decimal notation admitted under Numeric.ParseFloat, text without a comma always yields a whole number. |
| Numeric.PointIsThousandsSeparator | app.py:28-30 | A point between digits is dropped, so "a.b" is read as the integer with digits ab. |
| Numeric.PointDropped | app.py:28 | The rewrite of "a.b", with a and b digits, is "ab". |
| Numeric.ExampleDotIsThousands | app.py:28-30 | "12.5" becomes 125.0. |
| Numeric.ExampleNotANumber | app.py:29-32 | "abc" and "25%" do not parse and become 0.0. |
| Numeric.ExampleCurrency | app.py:28-30 | "R$ 1.234,56" becomes 1234.56. |
| Numeric.FormatRoundTrip | app.py:28-30 | Cleaning any amount written as "R$ 1.234.567,89" gives back that amount. |
| Numeric.FormatRewrite | app.py:28 | The rewrite turns a formatted amount into its plain digits, a point and the cents. |
| Numeric.ParsePointNumeral | app.py:30 | `float()` of digits with one point gives the whole part plus the fraction. |
| Numeric.ParseWholeNumeral | app.py:30 | `float()` of a digit string gives the number it denotes. |
| Numeric.ParseRejectsForeign | app.py:29-32 | A character that is not a digit, a point or a leading sign makes the parse fail. |
| Numeric.ParseRejectsTwoPoints | app.py:29-32 | Two points make the parse fail. |
| Numeric.RewriteUntouched | app.py:28 | Text with nothing to rewrite and no surrounding blanks reaches `float()` as it is. |
| Text.Strip | app.py:28 | `strip()`'s result is a slice of the text with only whitespace cut off before and after it. Neither end of the result is whitespace. Text already without such ends is unchanged. |
| Text.StripKeepsCount | app.py:28 | `strip()` keeps every non-whitespace character. |
| Text.ReplaceCharCount | app.py:28 | Replacing a character keeps the others and adds the replacement's characters once per occurrence. |
| Text.ReplaceCharGone | app.py:28 | After replacing a character by text without it, the character is gone. |
| Text.DeleteKeepsCount | app.py:28 | Deleting a pattern keeps every character that is not in the pattern. |
| Text.ReplaceCharByChar | app.py:44 | Replacing one character by another keeps the length and changes exactly the replaced positions. |
| Frames.NormalizeName | app.py:44 | A cleaned header name has no line break and no whitespace at either end. |
| Frames.NormalizeIdempotent | app.py:44 | Cleaning a name twice is cleaning it once. |
| Frames.NormalizeInner | app.py:44 | Inside the stripped name, every line break becomes a space and nothing else changes. |
| Frames.Frame.NormalizeHeader | app.py:44 | Each header entry is replaced by its cleaned name. The columns are untouched. |
| Frames.ColumnIndex | app.py:52 | Gives the first position of a name in the header, or the header's length exactly when the name is absent. |
| Frames.Convert | app.py:53-55 | A converted column has the same length and holds only numbers. Its text cells hold what `clean_numeric` made of them. Its other cells are numbers kept as they were, or 0 for a missing value. |
| Frames.ConversionCoerces | app.py:51-55 | After the loop, every listed column that is present holds only numbers. |
| Frames.Frame.CoerceColumn | app.py:53-55 | Only column `j` changes, and it becomes the converted column. Text goes through `clean_numeric` only when the column holds text. |
| Frames.Frame.CoerceNumeric | app.py:47-55 | Succeeds exactly when no listed name occurs twice in the header. On success, listed columns that are present are converted and every other column is as before. |
| Frames.Frame.CoerceEach | app.py:51-55 | The loop over the listed names. It fails exactly on a repeated name; otherwise it converts exactly the listed columns. |
| Frames.ConvertStep | app.py:52-55 | One turn of the loop converts the column with that name if there is one, and nothing else. |
| Frames.Missing | app.py:63-74 | Lists exactly the required columns absent from the header. |
| Frames.Records | app.py:63-74 | Succeeds exactly when all required columns are present; otherwise fails, naming exactly the missing ones. On success there is one row per sheet row. Its name, status, budget, target, spend, revenue, both loss percentages and date are taken from their columns. |
| Aggregation.SelectMembers | app.py:74 | A campaign's rows are exactly the rows that carry its name. |
| Aggregation.SortByDate | app.py:59-61 | The sorted rows are a permutation of the input, ordered by date with missing dates last. |
| Aggregation.InsertSorted | app.py:61 | Inserting a row keeps the rows ordered by date. |
| Aggregation.SelectSort | app.py:61 | Sorting the whole sheet and then taking one campaign gives the same rows as sorting that campaign's rows. So sorting by (`Nome`, `Desde`) and sorting by `Desde` give each group the same order. |
| Aggregation.LastOfSorted | app.py:59-66 | After the date sort, the last row of a group is its latest-dated row, the later one in the file on a tie. |
| Aggregation.LatestIndex | app.py:61 | Points at a row whose date is not before any other's, and no later row has a date as late. |
| Aggregation.SortKeepsSum | app.py:61-68 | Sorting does not change a sum. |
| Aggregation.CampaignAfterSort | app.py:59-74 | With a date column, a campaign's sums and row count are those of its rows in file order. Its last row is its latest-dated row. |
| Aggregation.StatusAfterSort | app.py:59-64 | With a date column, a campaign's status is that of its latest-dated row that has a status. |
| Aggregation.LastStatus | app.py:64 | `'last'` on `Status`: missing exactly when every row's status is missing. Otherwise it is the status of a row after which every status is missing. |
| Aggregation.Summarizes | app.py:63-74 | What one output line of `groupby`/`agg` holds for its rows: status and the last values of budget and target, the sums of spend and revenue, and the means of the two loss percentages. |
| Aggregation.LastStatusOfKnown | app.py:64 | `'last'` on `Status` gives the status of the campaign's last row that has one, and nothing if none has. |
| Aggregation.Aggregate | app.py:63-74 | Gives one group per distinct non-missing name, and no name twice. Each group sums spend and revenue over its rows and averages the two loss percentages. Budget and target come from the last row. Status comes from the last row that has one. The group totals equal the sheet totals over named rows. |
| Aggregation.Finished | app.py:74 | The grouping state at the end of the loop yields campaigns that meet the contract of `Aggregate`. |
| Aggregation.JoinGroup | app.py:74 | A row whose campaign was already seen updates only that group and keeps the grouping invariant. |
| Aggregation.OpenGroup | app.py:74 | A row with a new name opens a new group and keeps the grouping invariant. |
| Aggregation.SkipUnnamed | app.py:74 | A row without a name belongs to no group. |
| Metrics.Roas | app.py:77 | ROAS times spend is revenue when spend is positive, and 0 otherwise. |
| Metrics.AcosReal | app.py:78 | ACOS times revenue is 100 times spend when revenue is positive, and 0 otherwise. |
| Metrics.RoasNonNegative | app.py:77 | ROAS is never negative when revenue is not negative. |
| Metrics.AcosNonNegative | app.py:78 | ACOS is never negative when spend is not negative. |
| Metrics.AcosIsInverseRoas | app.py:77-78 | When spend and revenue are both positive, ROAS times ACOS is 100. |
| Metrics.AccountOverview | app.py:104-106 | The totals are the campaign sums. The overall ROAS times total spend is total revenue when spend is positive, and 0 otherwise. |
| Metrics.OverviewNonNegative | app.py:104-106 | With no negative spend or revenue, total spend, total revenue and overall ROAS are not negative. |
| Metrics.RevenueFromRoasIsRevenue | app.py:104-106 | When every campaign spent something, weighting each campaign's ROAS by its spend gives back the total revenue. |
| Metrics.OverallRoasBetween | app.py:104-106 | When every campaign spent something, the overall ROAS lies between the smallest and the largest campaign ROAS. |
| Recommendation.LabelInjective | app.py:84-99 | The five labels are distinct. |
| Recommendation.Target | app.py:95 | The ACOS target a campaign is held to is always positive. It is the campaign's own target when that is positive, and 15 otherwise. |
| Recommendation.Recommend | app.py:81-99 | `get_recommendation`: the if-cascade equals the first applicable rule of the ordered rule table. |
| Recommendation.FirstMatchWins | app.py:81-99 | A rule's outcome is returned exactly when that rule applies and no earlier rule does. |
| Recommendation.FirstMatchKeeps | app.py:99 | "Keep" is returned exactly when no rule applies. |
| Recommendation.InactiveExactly | app.py:82-84 | "Inativa" is given exactly when the lower-cased status lacks "ativa" and spend is zero. |
| Recommendation.RaiseBudgetExactly | app.py:86-88 | "Raise budget" is given exactly when the campaign is not idle, budget loss is over 20 and ROAS is over 7. |
| Recommendation.RaiseTargetExactly | app.py:90-92 | "Raise target" is given exactly when neither earlier rule applies, ranking loss is over 40 and ROAS is over 7. |
| Recommendation.ReduceExactly | app.py:94-97 | "Reduce" is given exactly when no earlier rule applies, ACOS is over the target plus 5 and spend is over 50. The target is the campaign's own when positive, else 15. |
| Recommendation.KeepExactly | app.py:99 | "Keep" is given exactly when none of the four rules applies. |
| Recommendation.InativaStatusNotIdle | app.py:82-84 | A campaign whose status is "Inativa" is never labelled inactive. |
| Recommendation.NoSpendNoMove | app.py:82-99 | With zero spend, the label is either inactive or keep. |
| Recommendation.ScalingNeedsReturn | app.py:86-92 | Either scaling label requires positive spend and revenue above 7 times spend. |
| Recommendation.ReduceNeedsOverspend | app.py:94-97 | The reduce label requires spend over 50, positive revenue, and spend·100 above (target + 5)·revenue. |
| Recommendation.WithoutVNotActive | app.py:82-83 | A status with no letter v in either case never counts as active. |
| Text.ContainsNeedsChar | app.py:83 | Text cannot contain a substring holding a character the text lacks. |
| Text.LowerPointwise | app.py:82 | `lower()` maps each character on its own. |
| Recommendation.ExamplePaused | app.py:82-84 | A "Pausada" campaign with no spend is labelled inactive. |
| View.Score | app.py:77-101 | The columns added to a campaign: ROAS times spend is revenue when spend is positive and ROAS is 0 otherwise; ACOS times revenue is 100 times spend when revenue is positive and ACOS is 0 otherwise; and the action is the first rule of the table that applies. |
| View.ChosenMembers | app.py:123 | The filter keeps exactly the campaigns whose label is selected. |
| View.InsertDescSorted | app.py:124 | Inserting into a table ordered by descending ROAS keeps it ordered. |
| View.ShowTable | app.py:123-124 | The table is a permutation of the selected campaigns, in non-increasing ROAS order. |
| View.TableMembers | app.py:123-124 | A campaign appears in the table exactly when its label is selected. |
| View.MenuHidesInactive | app.py:119-123 | Whatever the user picks from the menu, no inactive campaign is shown. |
| View.DefaultShowsActions | app.py:121-123 | With the default choice, the table holds exactly the campaigns labelled raise budget, raise target or reduce. |
| Pipeline.Run | app.py:44-124 | A repeated numeric column or a missing required column gives a failure. Otherwise: one line per campaign, with the `Aggregate` guarantees over the date-ordered rows and the recommended action; overview totals equal to the sheet's totals over named rows; and the filtered table sorted by descending ROAS. |
| Pipeline.ReportShows | app.py:61-124 | The date sort does not change the account totals. Every named row of the sheet is covered by some campaign. |

## Left out

- The page layout is not modelled: titles, CSS, the upload widget, the KPI
  cards and their number formats, the table styling, and the waiting message.
  These are presentation only.
- Reading the file (`read_csv`/`read_excel` with the header on the second
  line) is not modelled. `Run` receives the header and the columns as
  parameters.
- The `except` handler's message text is not modelled. `Run` returns a
  `Problem` for the two failures the modelled steps can raise.
- Other exceptions are not modelled, such as a header that is not text, or a
  `Nome` column mixing numbers and text that pandas cannot sort.
- `pd.to_datetime` is a parameter `toDate` mapping a cell to an optional
  integer key. Its parsing rules are not modelled.
- Numeric.ParseFloat: accepts only plain decimal notation with an optional
  sign. Python's `float()` also accepts exponents, "inf", "nan", underscores
  and non-ASCII digits, and yields IEEE-754 doubles. The model uses exact
  `real` arithmetic.
- Text.LowerChar: lower-cases only ASCII and Latin-1 capitals. Other
  characters are kept as they are.
- Frames.Frame.CoerceNumeric: a listed column whose name occurs twice makes
  pandas raise when it reads the column's dtype. The model reports this as
  `RepeatedColumn` and does not go on converting.
- Frames.FillMissing: `to_numeric(..., errors='coerce').fillna(0)` on a
  column without text is modelled as keeping numbers and turning a missing
  cell into 0.
- Frames.HasText: the `object` dtype is modelled as "the column holds some
  text". A column of numbers and missing cells is numeric.
- Aggregation.Aggregate: groups come out in order of first appearance.
  pandas orders them by name. The table is re-sorted by ROAS, so only ties
  can differ.
- Aggregation.SortByDate: the sort key is the date alone. Sorting by
  (`Nome`, `Desde`) gives each campaign the same row order, which
  `SelectSort` proves. A missing date sorts last.
- View.ShowTable: pandas' default sort is not stable, so the order among
  campaigns with equal ROAS is not promised.
- Duplicate header names outside the six numeric columns are not modelled.
  `Records` reads the first column with a given name.
