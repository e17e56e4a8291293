# Employee table cleaning and query service, modelled in Dafny

API.py loads an employee table (ID, Name, Department, Salary, Date_of_Birth)
into a pandas DataFrame. It cleans the table in place with a fixed sequence of
steps:

- replace the placeholder tokens;
- parse dates and salaries, coercing failures to missing values;
- make salaries absolute;
- fill the one missing ID;
- impute the missing Sales and Marketing salaries from means;
- cap the HR and Engineering outliers at the department's largest salary
  below 1,000,000.

It then serves two read-only queries over the cleaned table:
`/top_n_employees` and `/employee_count`.

The model has five modules:

- `Frame` (frame.dfy): the rows as a `seq<Employee>`. The Salary and
  Date_of_Birth cells are `Cell`s that hold either raw text from the file, a
  converted value, or a missing value (NaN/NaT).
- `Parsing` (parsing.dfy): `pd.to_numeric` and `pd.to_datetime(format='%Y-%m-%d')`
  on one text cell. Beside them sit the writers `to_csv` uses for the converted
  values, with round-trip lemmas.
- `Cleaning` (cleaning.dfy): each cleaning step as a function over the whole
  table, with the lemmas that say what it does cell by cell and what it
  preserves.
- `Pipeline` (pipeline.dfy): the DataFrame as the class `EmployeeFrame`,
  whose `rows` and `columns` the steps change in place.
  - The `for` loops over the placeholder rules, the imputation plan and the
    capped departments are `while` loops. Their invariants tie the table to
    the `Cleaning` functions.
  - `Clean` runs the script from top to bottom. Each way the script can stop
    early is reported as an `Outcome`: a missing column that pandas raises
    KeyError on, or the IndexError that `iloc[14]` (API.py:69) raises on a
    table of fewer than 15 rows.
- `Api` (api.dfy): `DataFrame.nlargest(n, 'Salary')` (keep='first') as an
  insertion ranking of row positions under a strict total order. The count
  query is a count of exact department matches, with the 400 error when the
  parameter is absent.

Salaries are `real`, so the means are exact.

## Model

| member | source | states |
|---|---|---|
| Parsing.ParseNumber | API.py:56 | a text cell parses only if non-empty; a negative result needs a leading '-' |
| Parsing.ParseUnsigned | API.py:56 | an unsigned decimal parses only if non-empty, and its value is never negative |
| Parsing.NumberRoundTrip | API.py:56 | reading back a whole number as to_csv writes it, with or without ".0", gives the number |
| Parsing.ParseDate | API.py:42 | a parsed date exists in the calendar and fits a nanosecond Timestamp (1677-09-22 .. 2262-04-11); it comes from 8-10 characters with '-' after a 4-digit year |
| Parsing.DateRoundTrip | API.py:42 | reading back a date as to_csv writes it (YYYY-MM-DD) gives the same date |
| Cleaning.Normalized | API.py:33-39 | the replacement keeps the row count, changes no field but Salary and Department, turns a salary only into a missing one, and never touches a salary that is not text |
| Cleaning.NormalizedCells | API.py:33-39 | each row keeps every field except that a Salary equal to 'not_applicable'/'not_available' becomes missing and a Department 'not_specified' becomes 'Unknown'; a column the table lacks is untouched; the row count is kept |
| Cleaning.NormalizedIdempotent | API.py:33-39 | normalising twice is the same as normalising once |
| Cleaning.DatesCoerced | API.py:42 | no row dropped, no text left, other fields kept; a text date becomes a value exactly when it parses, and then the parsed date; non-text cells unchanged |
| Cleaning.SalariesCoerced | API.py:56 | no row dropped, no text left, other fields kept; a text salary becomes a number exactly when it parses, and then the parsed number; non-text cells unchanged |
| Cleaning.CoercionIdempotent | API.py:42-56 | coercing an already converted column changes nothing |
| Cleaning.AbsCorrected | API.py:72 | every known salary becomes non-negative with the same magnitude; missing stays missing; other fields kept |
| Cleaning.AbsIdempotent | API.py:72 | the abs step applied twice equals once |
| Cleaning.IdFilled | API.py:102 | row 4 gets ID 4; every other row and every other field unchanged |
| Cleaning.IdFillCompletesSerial | API.py:102 | when row 4 is the only gap in the 0-based serial, the ID column becomes the dense serial |
| Cleaning.MeanSalary | API.py:121-122 | the mean is defined exactly when some salary is known (Series.mean skips NaN, NaN when empty) |
| Cleaning.InDepartmentMembers | API.py:122 | a row is taken for a department exactly when the table holds it and its Department is that department |
| Cleaning.InDepartmentMultiplicity | API.py:122 | the rows taken for a department hold each of that department's rows as many times as the table does, and no other row |
| Cleaning.ImputePlan | API.py:121-125 | Sales is filled first and Marketing second; the Sales fill value exists exactly when some salary is known, the Marketing one exactly when some Marketing salary is known |
| Cleaning.FillNulls | API.py:126-127 | one fillna pass changes only the missing salaries of department `d`; each becomes the fill value, or stays missing when the fill value is NaN |
| Cleaning.Imputed | API.py:121-127 | the imputation changes only salaries, never a known salary, and never a row outside Sales and Marketing |
| Cleaning.ImputedCells | API.py:121-127 | a missing Sales salary becomes the mean of all known salaries, a missing Marketing salary the mean of Marketing's known salaries, both means taken before any fill; all other cells unchanged |
| Cleaning.ImputedNoNulls | API.py:121-127 | once any salary is known no Sales row is missing a salary, and once a Marketing salary is known no Marketing row is |
| Cleaning.ImputedKeepsMarketingMean | API.py:122-127 | for every table, the imputation leaves Marketing's mean unchanged (NaN stays NaN when Marketing has no known salary) |
| Cleaning.FillWithMeanKeepsMean | API.py:125-127 | for every table, filling a department's missing salaries with its own mean keeps that mean, NaN included |
| Cleaning.FillOtherKeepsDepartment | API.py:125-127 | filling one department leaves the rows of any other department unchanged |
| Cleaning.MeanNonNegative | API.py:121-122 | with no negative salary, neither mean is negative |
| Cleaning.MaxBelow | API.py:148 | the max is below the threshold and is attained by a sub-threshold salary of the department; every such salary is at most the max, and the max exists when one does |
| Cleaning.CapWith | API.py:151 | the assignment changes only the salaries of the department's outliers; each becomes the cap, or missing when the cap is NaN |
| Cleaning.Capped | API.py:146-151 | the capping changes only salaries, only those at or above the threshold, and only in HR and Engineering |
| Cleaning.CappedCells | API.py:146-151 | an HR or Engineering salary at or above 1,000,000 becomes that department's largest sub-threshold salary of the uncapped table, or missing when there is none; every other cell unchanged |
| Cleaning.CappedBelowThreshold | API.py:146-151 | after capping no HR or Engineering salary is at or above 1,000,000 |
| Cleaning.CapIdempotent | API.py:148-151 | capping a department twice equals capping it once |
| Cleaning.CapKeepsOtherMax | API.py:146-151 | capping one department leaves another's sub-threshold max unchanged |
| Pipeline.Cleaned | API.py:33-151 | the script keeps the row count; it reaches the end exactly when Date_of_Birth, Salary and Department are all present and the table has at least 15 rows; a KeyError names a missing column; the IndexError of API.py:69 happens only on a table of at most 14 rows |
| Pipeline.CleanedTable | API.py:33-151 | a table cleaned to the end (hence of at least 15 rows) keeps its rows and names, has only numeric salaries and parsed dates, no negative salary, no HR/Engineering salary at or above the threshold, no 'not_specified' department, and ID 4 in row 4 with the other IDs unchanged |
| Pipeline.EmployeeFrame.NormalizePlaceholders | API.py:33-39 | the loop over the two rules leaves the table equal to the normalised table and the column set unchanged |
| Pipeline.EmployeeFrame.CoerceDates | API.py:42 | the table becomes the date-coerced table |
| Pipeline.EmployeeFrame.CoerceSalaries | API.py:56 | the table becomes the salary-coerced table |
| Pipeline.EmployeeFrame.CorrectNegativeSalaries | API.py:72 | the table becomes the abs-corrected table |
| Pipeline.EmployeeFrame.FillMissingId | API.py:102 | the table becomes the ID-filled table |
| Pipeline.EmployeeFrame.ImputeSalaries | API.py:121-127 | both means are taken first; the loop over Sales and Marketing leaves the imputed table |
| Pipeline.EmployeeFrame.CapOutliers | API.py:146-151 | the loop over HR and Engineering, each max taken on the table as the earlier pass left it, leaves the capped table |
| Pipeline.EmployeeFrame.Clean | API.py:33-151 | the outcome and the final table are those of the script run in order, stopping at the first unguarded missing column or at the IndexError of `iloc[14]` (API.py:69) on a table of fewer than 15 rows |
| Api.Ahead | API.py:179 | a row ahead of one with a known salary has a known salary at least as large; a larger known salary is always ahead; between equal salaries (or two missing ones) the earlier row is ahead |
| Api.Project | API.py:179 | a reply entry carries the row's Name and Department, and its Salary exactly when the row has a known one |
| Api.Insert | API.py:179 | inserting a new index into a sorted ranking keeps it sorted and adds exactly that index |
| Api.Ranking | API.py:179 | the ranking of rows 0..k-1 holds each of them once, sorted by salary descending with ties in table order and missing salaries last |
| Api.TopNIndices | API.py:179 | nlargest returns no row when n <= 0, else min(n, row count) rows |
| Api.TopNSpec | API.py:176-182 | at most n rows, each once, in order (larger salary first, ties in table order, missing last), every selected row ahead of every unselected one |
| Api.TopNEmployees | API.py:176-182 | n defaults to 5; the reply is the selected rows in order, each reduced to Name, Salary and Department |
| Api.TopNSalaries | API.py:176-182 | returned salaries do not increase, known before missing, and none is below a known salary left out |
| Api.CountIn | API.py:195 | the count is at most the row count, and zero exactly when no row's Department equals the parameter |
| Api.CountMatches | API.py:195 | the count equals the number of row positions whose Department equals the parameter |
| Api.EmployeeCount | API.py:189-198 | an absent parameter gives the 400 error and only then; otherwise the reply echoes the department with the exact match count |

## Left out

- Reading and writing the CSV files (API.py:13, 154), and all `print` output, are not modelled; the table is a parameter.
- Flask routing, `jsonify`, and the `int(...)` conversion of `n` (API.py:170-202) are not modelled. An `n` that is not an integer makes the source fail before the query runs.
- The downcast of the ID column to the smallest integer type (API.py:104) is a storage detail; IDs are unbounded integers.
- Pipeline.EmployeeFrame.FillMissingId: requires a row labelled 4 and an ID column. With fewer than five rows, `.loc[4, "ID"] = 4` would append a row, and without an ID column it would add one; that enlargement is not modelled. In the script as a whole the row case cannot arise: `iloc[14]` at API.py:69 stops any table of fewer than 15 rows first.
- Cleaning.IdFilled: requires at least five rows, for the same reason.
- Pipeline.Prepared: requires at least five rows, for the same reason; `Pipeline.Cleaned` calls it only on tables of at least 15 rows.
- Pipeline.PreparedTable: requires at least five rows, for the same reason.
- Pipeline.EmployeeFrame.Clean: requires the ID column; without it, line 102 would add the column, and that enlargement is not modelled.
- Pipeline.Cleaned: requires the ID column, for the same reason.
- Pipeline.CleanedTable: requires the ID column, for the same reason.
- Api.Ahead: always orders equal salaries by table position. When n is at least the row count, pandas takes the `sort_values(ascending=False).head(n)` path, whose default quicksort does not promise a stable order among equal salaries; the model fixes table order for every n.
- Parsing.ParseDate: does not accept the 'now'/'today' strings, ISO strings with a time part, or the space-padded fields that strptime allows.
- Parsing.ParseNumber: does not accept exponents, 'inf' spellings or surrounding whitespace, which pandas reads as numbers; the model turns them into missing salaries.
- Departments are plain strings; a missing (NaN) Department, which never equals any string, is not distinguished from text.
- Salaries are exact reals, not float64: the means, and the equalities about them, are exact in the model but rounded in the source.
- Api.TopNEmployees: requires a numeric Salary column. On an object column nlargest raises TypeError; the cleaning always leaves the column numeric.
- The analysis aggregates of API.py:159-165 (the per-department mean, the top 3 and the value counts) are not modelled; nothing in the script reads them.
- Statistical_Analysis.py (a train/test split and a floating-point linear regression) is not part of this model.
- The model follows the code, including where the script's comments (API.py:85-96, 113-116) suggest otherwise:
  - Only Sales (global mean) and Marketing (Marketing's mean) are imputed; a missing salary in any other department stays missing.
  - Only the placeholder step tolerates a missing column. A missing Date_of_Birth, Salary or Department column makes the script stop at lines 42, 56 or 108 with KeyError; `Clean` reports it as `MissingColumn`.
  - A capped department with no salary below the threshold gets NaN from `max`, so its outliers become missing salaries.
