/**
 What each cleaning step of API.py does to the table, as functions on the
 sequence of rows, and what the script relies on each step to achieve, as
 contracts and lemmas. The in-place pipeline in module Pipeline updates its
 table by exactly these functions.
 */
module Cleaning {
  import opened Frame
  import opened Parsing

  /** A number that pandas may hold as NaN, put into a Salary cell. */
  function AsCell(x: Option<real>): (c: Cell<real>)
    ensures c.Val? <==> x.Some?
    ensures x.Some? ==> c.value == x.value
  {
    match x
    case Some(v) => Val(v)
    case None => Null
  }

  // =====================================================================
  // Placeholder normalisation (API.py:33-39)
  // =====================================================================

  /** One entry of the zip in API.py:33-35: the tokens of a column and what replaces them. */
  datatype PlaceholderRule =
    | SalaryToNull(tokens: seq<string>)
    | DepartmentToText(token: string, canonical: string)
  {
    function Column(): string
    {
      match this
      case SalaryToNull(_) => SALARY_COLUMN
      case DepartmentToText(_, _) => DEPARTMENT_COLUMN
    }
  }

  const PLACEHOLDER_RULES: seq<PlaceholderRule> := [
    SalaryToNull(["not_applicable", "not_available"]),
    DepartmentToText("not_specified", "Unknown")
  ]

  function ReplaceInRow(e: Employee, rule: PlaceholderRule): Employee
  {
    match rule
    case SalaryToNull(tokens) =>
      if e.salary.Text? && e.salary.text in tokens then e.(salary := Null) else e
    case DepartmentToText(token, canonical) =>
      if e.department == token then e.(department := canonical) else e
  }

  /** Series.replace on the rule's column. */
  function ReplaceTokens(rows: seq<Employee>, rule: PlaceholderRule): seq<Employee>
  {
    seq(|rows|, i requires 0 <= i < |rows| => ReplaceInRow(rows[i], rule))
  }

  /** The rules in order; a rule whose column the table lacks raises KeyError,
      which the loop catches, so the table is left as it is. */
  function ApplyRules(rows: seq<Employee>, columns: set<string>, rules: seq<PlaceholderRule>): (r: seq<Employee>)
    ensures |r| == |rows|
    ensures forall i :: 0 <= i < |rows| ==>
      r[i] == rows[i].(salary := r[i].salary, department := r[i].department)
    ensures forall i :: 0 <= i < |rows| ==> r[i].salary == rows[i].salary || r[i].salary.Null?
    ensures forall i :: 0 <= i < |rows| && !rows[i].salary.Text? ==> r[i].salary == rows[i].salary
  {
    if rules == [] then rows
    else
      var before := ApplyRules(rows, columns, rules[..|rules| - 1]);
      var rule := rules[|rules| - 1];
      if rule.Column() in columns then ReplaceTokens(before, rule) else before
  }

  /** Series.replace of API.py:37 for both rules: only Salary and Department
      cells change, a salary only to missing, and only a text salary. */
  function Normalized(rows: seq<Employee>, columns: set<string>): (r: seq<Employee>)
    ensures |r| == |rows|
    ensures forall i :: 0 <= i < |rows| ==>
      r[i] == rows[i].(salary := r[i].salary, department := r[i].department)
    ensures forall i :: 0 <= i < |rows| ==> r[i].salary == rows[i].salary || r[i].salary.Null?
    ensures forall i :: 0 <= i < |rows| && !rows[i].salary.Text? ==> r[i].salary == rows[i].salary
  {
    ApplyRules(rows, columns, PLACEHOLDER_RULES)
  }

  /** The salary cell after normalisation. */
  function NormalizedSalary(e: Employee, columns: set<string>): Cell<real>
  {
    if SALARY_COLUMN in columns && (e.salary == Text("not_applicable") || e.salary == Text("not_available"))
    then Null else e.salary
  }

  /** The department after normalisation. */
  function NormalizedDepartment(e: Employee, columns: set<string>): string
  {
    if DEPARTMENT_COLUMN in columns && e.department == "not_specified" then "Unknown" else e.department
  }

  /** Only cells equal to a listed token change: a salary token becomes missing,
      'not_specified' becomes 'Unknown'; a column the table lacks is untouched,
      and no row is added or removed. */
  lemma NormalizedCells(rows: seq<Employee>, columns: set<string>)
    ensures forall i :: 0 <= i < |rows| ==>
      Normalized(rows, columns)[i]
        == rows[i].(salary := NormalizedSalary(rows[i], columns),
                    department := NormalizedDepartment(rows[i], columns))
  {
    var salaryRule, departmentRule := PLACEHOLDER_RULES[0], PLACEHOLDER_RULES[1];
    assert PLACEHOLDER_RULES[..1][..0] == [] && PLACEHOLDER_RULES[..1] == [salaryRule];
    assert PLACEHOLDER_RULES[..|PLACEHOLDER_RULES| - 1] == [salaryRule];
    var afterSalary := ApplyRules(rows, columns, [salaryRule]);
    assert ApplyRules(rows, columns, []) == rows;
    assert afterSalary == if SALARY_COLUMN in columns then ReplaceTokens(rows, salaryRule) else rows;
    assert Normalized(rows, columns)
      == if DEPARTMENT_COLUMN in columns then ReplaceTokens(afterSalary, departmentRule) else afterSalary;
  }

  /** Running the normalisation again on its own output changes nothing. */
  lemma NormalizedIdempotent(rows: seq<Employee>, columns: set<string>)
    ensures Normalized(Normalized(rows, columns), columns) == Normalized(rows, columns)
  {
    var once := Normalized(rows, columns);
    NormalizedCells(rows, columns);
    NormalizedCells(once, columns);
  }

  // =====================================================================
  // Date coercion (API.py:42) and salary coercion (API.py:56)
  // =====================================================================

  function CoerceDate(c: Cell<Date>): Cell<Date>
  {
    match c
    case Text(t) => (match ParseDate(t) case Some(d) => Val(d) case None => Null)
    case _ => c
  }

  function CoerceNumber(c: Cell<real>): Cell<real>
  {
    match c
    case Text(t) => AsCell(ParseNumber(t))
    case _ => c
  }

  /** pd.to_datetime(..., errors='coerce') on Date_of_Birth: no row is dropped,
      no text is left, text that parses becomes its date and other text NaT. */
  function DatesCoerced(rows: seq<Employee>): (r: seq<Employee>)
    ensures |r| == |rows| && ParsedDates(r)
    ensures forall i :: 0 <= i < |rows| ==> r[i] == rows[i].(dob := r[i].dob)
    ensures forall i :: 0 <= i < |rows| && !rows[i].dob.Text? ==> r[i].dob == rows[i].dob
    ensures forall i :: 0 <= i < |rows| && rows[i].dob.Text? ==>
      (r[i].dob.Val? <==> ParseDate(rows[i].dob.text).Some?)
      && (r[i].dob.Val? ==> Some(r[i].dob.value) == ParseDate(rows[i].dob.text))
  {
    seq(|rows|, i requires 0 <= i < |rows| => rows[i].(dob := CoerceDate(rows[i].dob)))
  }

  /** pd.to_numeric(..., errors='coerce') on Salary: no row is dropped, no text
      is left, text that parses becomes its number and other text NaN. */
  function SalariesCoerced(rows: seq<Employee>): (r: seq<Employee>)
    ensures |r| == |rows| && NumericSalaries(r)
    ensures forall i :: 0 <= i < |rows| ==> r[i] == rows[i].(salary := r[i].salary)
    ensures forall i :: 0 <= i < |rows| && !rows[i].salary.Text? ==> r[i].salary == rows[i].salary
    ensures forall i :: 0 <= i < |rows| && rows[i].salary.Text? ==>
      (r[i].salary.Val? <==> ParseNumber(rows[i].salary.text).Some?)
      && (r[i].salary.Val? ==> Some(r[i].salary.value) == ParseNumber(rows[i].salary.text))
  {
    seq(|rows|, i requires 0 <= i < |rows| => rows[i].(salary := CoerceNumber(rows[i].salary)))
  }

  /** Coercing a column that is already converted changes nothing. */
  lemma CoercionIdempotent(rows: seq<Employee>)
    ensures DatesCoerced(DatesCoerced(rows)) == DatesCoerced(rows)
    ensures SalariesCoerced(SalariesCoerced(rows)) == SalariesCoerced(rows)
  {
  }

  // =====================================================================
  // Absolute-value correction (API.py:72)
  // =====================================================================

  function AbsCell(c: Cell<real>): Cell<real>
  {
    if c.Val? && c.value < 0.0 then Val(-c.value) else c
  }

  /** Series.abs on the numeric Salary column: every salary is non-negative and
      of the same magnitude, missing ones stay missing, other fields stay. */
  function AbsCorrected(rows: seq<Employee>): (r: seq<Employee>)
    requires NumericSalaries(rows)
    ensures |r| == |rows| && NumericSalaries(r)
    ensures forall i :: 0 <= i < |rows| ==> r[i] == rows[i].(salary := r[i].salary)
    ensures forall i :: 0 <= i < |rows| ==> (r[i].salary.Null? <==> rows[i].salary.Null?)
    ensures forall i :: 0 <= i < |rows| && r[i].salary.Val? ==>
      r[i].salary.value >= 0.0
      && (r[i].salary.value == rows[i].salary.value || r[i].salary.value == -rows[i].salary.value)
  {
    seq(|rows|, i requires 0 <= i < |rows| => rows[i].(salary := AbsCell(rows[i].salary)))
  }

  lemma AbsIdempotent(rows: seq<Employee>)
    requires NumericSalaries(rows)
    ensures AbsCorrected(AbsCorrected(rows)) == AbsCorrected(rows)
  {
  }

  // =====================================================================
  // ID gap fill (API.py:102)
  // =====================================================================

  /** example_df.loc[4, "ID"] = 4 on a table with a row labelled 4. */
  function IdFilled(rows: seq<Employee>): (r: seq<Employee>)
    requires |rows| > 4
    ensures |r| == |rows| && r[4].id == Some(4)
    ensures forall i :: 0 <= i < |rows| ==> r[i] == rows[i].(id := r[i].id)
    ensures forall i :: 0 <= i < |rows| && i != 4 ==> r[i] == rows[i]
  {
    rows[4 := rows[4].(id := Some(4))]
  }

  /** When row 4 is the only gap of the 0-based serial, the ID column becomes a
      dense serial. */
  lemma IdFillCompletesSerial(rows: seq<Employee>)
    requires |rows| > 4
    requires forall i :: 0 <= i < |rows| && i != 4 ==> rows[i].id == Some(i)
    ensures forall i :: 0 <= i < |rows| ==> IdFilled(rows)[i].id == Some(i)
  {
  }

  // =====================================================================
  // Salary imputation (API.py:121-127)
  // =====================================================================

  /** The number of known salaries. */
  function KnownCount(rows: seq<Employee>): nat
  {
    if rows == [] then 0 else (if rows[0].salary.Val? then 1 else 0) + KnownCount(rows[1..])
  }

  /** The sum of the known salaries. */
  function KnownSum(rows: seq<Employee>): real
  {
    if rows == [] then 0.0 else (if rows[0].salary.Val? then rows[0].salary.value else 0.0) + KnownSum(rows[1..])
  }

  /** Some row has a known salary. */
  predicate AnyKnown(rows: seq<Employee>)
  {
    exists i :: 0 <= i < |rows| && rows[i].salary.Val?
  }

  lemma {:induction false} KnownCountPositive(rows: seq<Employee>)
    ensures KnownCount(rows) > 0 <==> AnyKnown(rows)
  {
    if rows != [] {
      KnownCountPositive(rows[1..]);
      assert forall i :: 1 <= i < |rows| ==> rows[i] == rows[1..][i - 1];
      if AnyKnown(rows[1..]) {
        var j :| 0 <= j < |rows[1..]| && rows[1..][j].salary.Val?;
        assert rows[j + 1].salary.Val?;
      }
    }
  }

  /** Series.mean: the mean of the known salaries, NaN when there is none. */
  function MeanSalary(rows: seq<Employee>): (m: Option<real>)
    ensures m.Some? <==> AnyKnown(rows)
  {
    KnownCountPositive(rows);
    if KnownCount(rows) == 0 then None else Some(KnownSum(rows) / KnownCount(rows) as real)
  }

  /** The rows of one department, in table order. */
  function InDepartment(rows: seq<Employee>, d: string): seq<Employee>
  {
    if rows == [] then []
    else (if rows[0].department == d then [rows[0]] else []) + InDepartment(rows[1..], d)
  }

  /** Taking a department's rows keeps exactly the rows of that department. */
  lemma {:induction false} InDepartmentMembers(rows: seq<Employee>, d: string)
    ensures forall e :: e in InDepartment(rows, d) <==> e in rows && e.department == d
  {
    if rows != [] {
      InDepartmentMembers(rows[1..], d);
      assert rows == [rows[0]] + rows[1..];
    }
  }

  /** Taking a department's rows keeps each row of that department as many
      times as the table holds it, so the mean over them counts every copy. */
  lemma {:induction false} InDepartmentMultiplicity(rows: seq<Employee>, d: string)
    ensures forall e :: multiset(InDepartment(rows, d))[e] == if e.department == d then multiset(rows)[e] else 0
  {
    if rows != [] {
      InDepartmentMultiplicity(rows[1..], d);
      assert rows == [rows[0]] + rows[1..];
      assert multiset(rows) == multiset([rows[0]]) + multiset(rows[1..]);
    }
  }

  /** The mean of all known salaries, used for Sales (API.py:121). */
  function GlobalMean(rows: seq<Employee>): Option<real>
  {
    MeanSalary(rows)
  }

  /** The mean of Marketing's known salaries (API.py:122). */
  function MarketingMean(rows: seq<Employee>): Option<real>
  {
    MeanSalary(InDepartment(rows, "Marketing"))
  }

  function FillRow(e: Employee, d: string, fill: Option<real>): Employee
  {
    if e.department == d && e.salary.Null? then e.(salary := AsCell(fill)) else e
  }

  /** The fillna of API.py:126-127 for one department; a NaN fill value leaves the cells missing. */
  function FillNulls(rows: seq<Employee>, d: string, fill: Option<real>): (r: seq<Employee>)
    ensures |r| == |rows|
    ensures forall i :: 0 <= i < |rows| ==> r[i] == rows[i].(salary := r[i].salary)
    ensures forall i :: 0 <= i < |rows| && (rows[i].department != d || !rows[i].salary.Null?) ==>
      r[i] == rows[i]
    ensures forall i :: 0 <= i < |rows| && rows[i].department == d && rows[i].salary.Null? ==>
      (r[i].salary.Val? <==> fill.Some?) && (fill.Some? ==> r[i].salary.value == fill.value)
  {
    seq(|rows|, i requires 0 <= i < |rows| => FillRow(rows[i], d, fill))
  }

  /** The loop of API.py:125-127 after the first |plan| departments. */
  function FillEach(rows: seq<Employee>, plan: seq<(string, Option<real>)>): (r: seq<Employee>)
    ensures |r| == |rows|
    ensures forall i :: 0 <= i < |rows| ==> r[i] == rows[i].(salary := r[i].salary)
    ensures forall i :: 0 <= i < |rows| && !rows[i].salary.Null? ==> r[i] == rows[i]
    ensures forall i :: 0 <= i < |rows| && (forall k :: 0 <= k < |plan| ==> plan[k].0 != rows[i].department) ==>
      r[i] == rows[i]
  {
    if plan == [] then rows
    else
      var (d, fill) := plan[|plan| - 1];
      FillNulls(FillEach(rows, plan[..|plan| - 1]), d, fill)
  }

  /** Marketing has a known salary exactly when its rows do. */
  lemma MarketingKnown(rows: seq<Employee>)
    ensures AnyKnown(InDepartment(rows, "Marketing")) <==>
      exists i :: 0 <= i < |rows| && rows[i].department == "Marketing" && rows[i].salary.Val?
  {
    var marketing := InDepartment(rows, "Marketing");
    InDepartmentMembers(rows, "Marketing");
    if j :| 0 <= j < |rows| && rows[j].department == "Marketing" && rows[j].salary.Val? {
      assert rows[j] in marketing;
      var k :| 0 <= k < |marketing| && marketing[k] == rows[j];
    }
    if AnyKnown(marketing) {
      var k :| 0 <= k < |marketing| && marketing[k].salary.Val?;
      assert marketing[k] in rows;
    }
  }

  /** The departments and fill values of API.py:125, both means taken before any fill. */
  function ImputePlan(rows: seq<Employee>): (r: seq<(string, Option<real>)>)
    ensures |r| == 2 && r[0].0 == "Sales" && r[1].0 == "Marketing"
    ensures r[0].1.Some? <==> AnyKnown(rows)
    ensures r[1].1.Some? <==>
      exists i :: 0 <= i < |rows| && rows[i].department == "Marketing" && rows[i].salary.Val?
  {
    MarketingKnown(rows);
    [("Sales", GlobalMean(rows)), ("Marketing", MarketingMean(rows))]
  }

  /** The imputation of API.py:121-127: only missing salaries of Sales and
      Marketing rows may change; every other cell stays. */
  function Imputed(rows: seq<Employee>): (r: seq<Employee>)
    ensures |r| == |rows|
    ensures forall i :: 0 <= i < |rows| ==> r[i] == rows[i].(salary := r[i].salary)
    ensures forall i :: 0 <= i < |rows| && !rows[i].salary.Null? ==> r[i] == rows[i]
    ensures forall i :: 0 <= i < |rows| && rows[i].department != "Sales" && rows[i].department != "Marketing" ==>
      r[i] == rows[i]
  {
    FillEach(rows, ImputePlan(rows))
  }

  /** The salary cell after imputation. */
  function ImputedSalary(e: Employee, globalMean: Option<real>, marketingMean: Option<real>): Cell<real>
  {
    if e.salary.Null? && e.department == "Sales" then AsCell(globalMean)
    else if e.salary.Null? && e.department == "Marketing" then AsCell(marketingMean)
    else e.salary
  }

  /** A missing Sales salary becomes the mean of all known salaries, a missing
      Marketing salary the mean of Marketing's known salaries, both as they were
      before any fill; nothing else changes. */
  lemma ImputedCells(rows: seq<Employee>)
    ensures forall i :: 0 <= i < |rows| ==>
      Imputed(rows)[i] == rows[i].(salary := ImputedSalary(rows[i], GlobalMean(rows), MarketingMean(rows)))
  {
    var plan := ImputePlan(rows);
    assert plan[..|plan| - 1] == [plan[0]] && [plan[0]][..0] == [];
    assert FillEach(rows, [plan[0]]) == FillNulls(rows, "Sales", GlobalMean(rows));
  }

  /** After imputation no Sales row lacks a salary once any salary is known,
      and no Marketing row once any Marketing salary is known. */
  lemma ImputedNoNulls(rows: seq<Employee>)
    ensures AnyKnown(rows) ==>
      forall i :: 0 <= i < |rows| && rows[i].department == "Sales" ==> !Imputed(rows)[i].salary.Null?
    ensures (exists j :: 0 <= j < |rows| && rows[j].department == "Marketing" && rows[j].salary.Val?) ==>
      forall i :: 0 <= i < |rows| && rows[i].department == "Marketing" ==> !Imputed(rows)[i].salary.Null?
  {
    ImputedCells(rows);
    if AnyKnown(rows) {
      assert GlobalMean(rows).Some?;
    }
    var marketing := InDepartment(rows, "Marketing");
    InDepartmentMembers(rows, "Marketing");
    if j :| 0 <= j < |rows| && rows[j].department == "Marketing" && rows[j].salary.Val? {
      assert rows[j] in marketing;
      var k :| 0 <= k < |marketing| && marketing[k] == rows[j];
      assert AnyKnown(marketing);
    }
  }

  /** The number of missing salaries. */
  function Nulls(rows: seq<Employee>): nat
  {
    if rows == [] then 0 else (if rows[0].salary.Null? then 1 else 0) + Nulls(rows[1..])
  }

  /** Taking a department's rows and filling its missing salaries commute. */
  lemma {:induction false} FillThenSelect(rows: seq<Employee>, d: string, fill: Option<real>)
    ensures InDepartment(FillNulls(rows, d, fill), d) == FillNulls(InDepartment(rows, d), d, fill)
  {
    if rows != [] {
      var filled := FillNulls(rows, d, fill);
      assert filled[1..] == FillNulls(rows[1..], d, fill);
      FillThenSelect(rows[1..], d, fill);
      var rest := InDepartment(rows[1..], d);
      if rows[0].department == d {
        assert InDepartment(rows, d) == [rows[0]] + rest;
        assert FillNulls([rows[0]] + rest, d, fill) == [filled[0]] + FillNulls(rest, d, fill);
      }
    }
  }

  /** Filling with `v` the missing salaries of rows that all belong to `d` adds
      one known salary per missing one. */
  lemma {:induction false} FillAddsCount(rows: seq<Employee>, d: string, v: real)
    requires forall i :: 0 <= i < |rows| ==> rows[i].department == d
    ensures KnownCount(FillNulls(rows, d, Some(v))) == KnownCount(rows) + Nulls(rows)
  {
    if rows != [] {
      var filled := FillNulls(rows, d, Some(v));
      assert filled[1..] == FillNulls(rows[1..], d, Some(v));
      FillAddsCount(rows[1..], d, v);
      if rows[0].salary.Null? {
        assert filled[0].salary == Val(v);
      } else {
        assert filled[0] == rows[0];
      }
    }
  }

  /** Filling with `v` the missing salaries of rows that all belong to `d` adds
      `v` to the sum once per missing salary. */
  lemma {:induction false} FillAddsSum(rows: seq<Employee>, d: string, v: real)
    requires forall i :: 0 <= i < |rows| ==> rows[i].department == d
    ensures KnownSum(FillNulls(rows, d, Some(v))) == KnownSum(rows) + Nulls(rows) as real * v
  {
    if rows != [] {
      var filled := FillNulls(rows, d, Some(v));
      assert filled[1..] == FillNulls(rows[1..], d, Some(v));
      FillAddsSum(rows[1..], d, v);
      var n := Nulls(rows[1..]);
      if rows[0].salary.Null? {
        assert filled[0].salary == Val(v);
        assert (n + 1) as real * v == n as real * v + v;
      } else {
        assert filled[0] == rows[0];
      }
    }
  }

  /** Every row taken for a department belongs to it. */
  lemma {:induction false} InDepartmentBelongs(rows: seq<Employee>, d: string)
    ensures forall k :: 0 <= k < |InDepartment(rows, d)| ==> InDepartment(rows, d)[k].department == d
  {
    if rows != [] {
      InDepartmentBelongs(rows[1..], d);
      if rows[0].department == d {
        assert InDepartment(rows, d) == [rows[0]] + InDepartment(rows[1..], d);
      }
    }
  }

  /** Adding `k` copies of the mean `m` of `c` values whose sum is `total`
      gives `c + k` values whose sum is `newTotal` and whose mean is still `m`. */
  lemma PaddedMean(total: real, c: real, k: real, m: real, newTotal: real, newCount: real)
    requires c > 0.0 && k >= 0.0 && m == total / c
    requires newTotal == total + k * m && newCount == c + k
    ensures newTotal / newCount == m
  {
    assert total == m * c;
    assert newTotal == m * newCount;
  }

  /** Filling the missing salaries of rows that all belong to `d` with their mean keeps the mean. */
  lemma FillWithOwnMean(dept: seq<Employee>, d: string, m: real)
    requires forall i :: 0 <= i < |dept| ==> dept[i].department == d
    requires MeanSalary(dept) == Some(m)
    ensures MeanSalary(FillNulls(dept, d, Some(m))) == Some(m)
  {
    FillAddsCount(dept, d, m);
    FillAddsSum(dept, d, m);
    var after := FillNulls(dept, d, Some(m));
    PaddedMean(KnownSum(dept), KnownCount(dept) as real, Nulls(dept) as real, m,
               KnownSum(after), KnownCount(after) as real);
  }

  /** Filling a department's missing salaries with its own mean leaves its mean as it was. */
  lemma FillWithMeanKeepsMean(rows: seq<Employee>, d: string)
    ensures var m := MeanSalary(InDepartment(rows, d));
            MeanSalary(InDepartment(FillNulls(rows, d, m), d)) == m
  {
    var dept := InDepartment(rows, d);
    if !AnyKnown(dept) {
      // A NaN fill value leaves every cell as it was.
      assert FillNulls(rows, d, None) == rows;
      return;
    }
    InDepartmentBelongs(rows, d);
    FillThenSelect(rows, d, MeanSalary(dept));
    FillWithOwnMean(dept, d, MeanSalary(dept).value);
  }

  /** Filling the missing salaries of another department leaves the rows of `d` as they were. */
  lemma {:induction false} FillOtherKeepsDepartment(rows: seq<Employee>, d: string, other: string, fill: Option<real>)
    requires d != other
    ensures InDepartment(FillNulls(rows, other, fill), d) == InDepartment(rows, d)
  {
    if rows != [] {
      var filled := FillNulls(rows, other, fill);
      assert filled[1..] == FillNulls(rows[1..], other, fill);
      FillOtherKeepsDepartment(rows[1..], d, other, fill);
      if rows[0].department == d {
        assert filled[0] == rows[0];
      }
    }
  }

  /** The imputation leaves the mean salary of Marketing as it was. */
  lemma ImputedKeepsMarketingMean(rows: seq<Employee>)
    ensures MarketingMean(Imputed(rows)) == MarketingMean(rows)
  {
    var plan := ImputePlan(rows);
    assert plan[..|plan| - 1] == [plan[0]] && [plan[0]][..0] == [];
    var afterSales := FillNulls(rows, "Sales", GlobalMean(rows));
    assert FillEach(rows, [plan[0]]) == afterSales;
    FillOtherKeepsDepartment(rows, "Marketing", "Sales", GlobalMean(rows));
    FillWithMeanKeepsMean(afterSales, "Marketing");
  }

  /** With no negative salary in the table, the sum of the known ones is not negative. */
  lemma {:induction false} KnownSumNonNegative(rows: seq<Employee>)
    requires forall i :: 0 <= i < |rows| && rows[i].salary.Val? ==> rows[i].salary.value >= 0.0
    ensures KnownSum(rows) >= 0.0
  {
    if rows != [] {
      KnownSumNonNegative(rows[1..]);
    }
  }

  /** Neither mean is negative when no salary of the table is. */
  lemma MeanNonNegative(rows: seq<Employee>)
    requires forall i :: 0 <= i < |rows| && rows[i].salary.Val? ==> rows[i].salary.value >= 0.0
    ensures GlobalMean(rows).Some? ==> GlobalMean(rows).value >= 0.0
    ensures MarketingMean(rows).Some? ==> MarketingMean(rows).value >= 0.0
  {
    KnownSumNonNegative(rows);
    var marketing := InDepartment(rows, "Marketing");
    InDepartmentMembers(rows, "Marketing");
    assert forall k :: 0 <= k < |marketing| ==> marketing[k] in marketing;
    KnownSumNonNegative(marketing);
  }

  // =====================================================================
  // Outlier capping (API.py:146-151)
  // =====================================================================

  const OUTLIER_THRESHOLD: real := 1000000.0

  const CAP_DEPARTMENTS: seq<string> := ["HR", "Engineering"]

  /** A row of `d` whose salary is at or above the threshold. */
  predicate IsOutlier(e: Employee, d: string)
  {
    e.department == d && e.salary.Val? && e.salary.value >= OUTLIER_THRESHOLD
  }

  /** A row of `d` whose salary is known and below the threshold. */
  predicate BelowThreshold(e: Employee, d: string)
  {
    e.department == d && e.salary.Val? && e.salary.value < OUTLIER_THRESHOLD
  }

  function Larger(a: Option<real>, b: Option<real>): Option<real>
  {
    match (a, b)
    case (Some(x), Some(y)) => Some(if x >= y then x else y)
    case (Some(_), None) => a
    case (None, _) => b
  }

  /** The max of API.py:148: the largest sub-threshold salary of `d`, or NaN when it has none. */
  function MaxBelow(rows: seq<Employee>, d: string): (m: Option<real>)
    ensures m.Some? ==>
      m.value < OUTLIER_THRESHOLD
      && exists i :: 0 <= i < |rows| && BelowThreshold(rows[i], d) && rows[i].salary.value == m.value
    ensures forall i :: 0 <= i < |rows| && BelowThreshold(rows[i], d) ==>
      m.Some? && rows[i].salary.value <= m.value
  {
    if rows == [] then None
    else
      var rest := MaxBelow(rows[1..], d);
      var result := Larger(if BelowThreshold(rows[0], d) then Some(rows[0].salary.value) else None, rest);
      assert rest.Some? ==> exists i :: 1 <= i < |rows| && BelowThreshold(rows[i], d) && rows[i].salary.value == rest.value
        by {
          if rest.Some? {
            var j :| 0 <= j < |rows[1..]| && BelowThreshold(rows[1..][j], d) && rows[1..][j].salary.value == rest.value;
            assert rows[j + 1] == rows[1..][j];
          }
        }
      assert forall i :: 1 <= i < |rows| ==> rows[i] == rows[1..][i - 1];
      result
  }

  function CapRow(e: Employee, d: string, cap: Option<real>): Employee
  {
    if IsOutlier(e, d) then e.(salary := AsCell(cap)) else e
  }

  /** The assignment of API.py:151: every outlier of `d` gets `cap`. */
  function CapWith(rows: seq<Employee>, d: string, cap: Option<real>): (r: seq<Employee>)
    ensures |r| == |rows|
    ensures forall i :: 0 <= i < |rows| ==> r[i] == rows[i].(salary := r[i].salary)
    ensures forall i :: 0 <= i < |rows| && !IsOutlier(rows[i], d) ==> r[i] == rows[i]
    ensures forall i :: 0 <= i < |rows| && IsOutlier(rows[i], d) ==>
      (r[i].salary.Val? <==> cap.Some?) && (cap.Some? ==> r[i].salary.value == cap.value)
  {
    seq(|rows|, i requires 0 <= i < |rows| => CapRow(rows[i], d, cap))
  }

  function CapDepartment(rows: seq<Employee>, d: string): seq<Employee>
  {
    CapWith(rows, d, MaxBelow(rows, d))
  }

  /** The loop of API.py:146-151 after the first |depts| departments; each
      department's max is taken on the table as the earlier ones left it. */
  function CapEach(rows: seq<Employee>, depts: seq<string>): (r: seq<Employee>)
    ensures |r| == |rows|
    ensures forall i :: 0 <= i < |rows| ==> r[i] == rows[i].(salary := r[i].salary)
    ensures forall i :: 0 <= i < |rows| && !(rows[i].salary.Val? && rows[i].salary.value >= OUTLIER_THRESHOLD) ==>
      r[i] == rows[i]
    ensures forall i :: 0 <= i < |rows| && rows[i].department !in depts ==> r[i] == rows[i]
  {
    if depts == [] then rows
    else CapDepartment(CapEach(rows, depts[..|depts| - 1]), depts[|depts| - 1])
  }

  /** The capping of API.py:146-151: only HR and Engineering salaries at or
      above the threshold may change; every other cell stays. */
  function Capped(rows: seq<Employee>): (r: seq<Employee>)
    ensures |r| == |rows|
    ensures forall i :: 0 <= i < |rows| ==> r[i] == rows[i].(salary := r[i].salary)
    ensures forall i :: 0 <= i < |rows| && !(rows[i].salary.Val? && rows[i].salary.value >= OUTLIER_THRESHOLD) ==>
      r[i] == rows[i]
    ensures forall i :: 0 <= i < |rows| && rows[i].department != "HR" && rows[i].department != "Engineering" ==>
      r[i] == rows[i]
  {
    CapEach(rows, CAP_DEPARTMENTS)
  }

  /** When every sub-threshold salary of `d` in `a` also occurs in `b`, the max of `a` is at most that of `b`. */
  lemma MaxBelowCovered(a: seq<Employee>, b: seq<Employee>, d: string)
    requires forall i :: 0 <= i < |a| && BelowThreshold(a[i], d) ==>
      exists j :: 0 <= j < |b| && BelowThreshold(b[j], d) && b[j].salary == a[i].salary
    ensures MaxBelow(a, d).Some? ==> MaxBelow(b, d).Some? && MaxBelow(a, d).value <= MaxBelow(b, d).value
  {
    var ma := MaxBelow(a, d);
    if ma.Some? {
      var i :| 0 <= i < |a| && BelowThreshold(a[i], d) && a[i].salary.value == ma.value;
      var j :| 0 <= j < |b| && BelowThreshold(b[j], d) && b[j].salary == a[i].salary;
    }
  }

  /** Two tables with the same sub-threshold salaries in `d` have the same max. */
  lemma SameMaxBelow(a: seq<Employee>, b: seq<Employee>, d: string)
    requires forall i :: 0 <= i < |a| && BelowThreshold(a[i], d) ==>
      exists j :: 0 <= j < |b| && BelowThreshold(b[j], d) && b[j].salary == a[i].salary
    requires forall j :: 0 <= j < |b| && BelowThreshold(b[j], d) ==>
      exists i :: 0 <= i < |a| && BelowThreshold(a[i], d) && a[i].salary == b[j].salary
    ensures MaxBelow(a, d) == MaxBelow(b, d)
  {
    MaxBelowCovered(a, b, d);
    MaxBelowCovered(b, a, d);
  }

  /** Capping one department leaves the max of another as it was. */
  lemma CapKeepsOtherMax(rows: seq<Employee>, d: string, other: string, cap: Option<real>)
    requires d != other
    ensures MaxBelow(CapWith(rows, other, cap), d) == MaxBelow(rows, d)
  {
    var capped := CapWith(rows, other, cap);
    assert forall i :: 0 <= i < |rows| && rows[i].department == d ==> capped[i] == rows[i];
    assert forall i :: 0 <= i < |rows| ==> capped[i].department == rows[i].department;
    SameMaxBelow(rows, capped, d);
  }

  /** Capping `d` with its own max leaves that max as it was. */
  lemma CapKeepsOwnMax(rows: seq<Employee>, d: string)
    ensures MaxBelow(CapDepartment(rows, d), d) == MaxBelow(rows, d)
  {
    var m := MaxBelow(rows, d);
    var capped := CapDepartment(rows, d);
    if m.Some? {
      var k :| 0 <= k < |rows| && BelowThreshold(rows[k], d) && rows[k].salary.value == m.value;
      assert capped[k] == rows[k];
      forall i | 0 <= i < |capped| && BelowThreshold(capped[i], d)
        ensures capped[i].salary.value <= m.value
      {
      }
      var mc := MaxBelow(capped, d);
      assert mc.Some? && m.value <= mc.value;
      var j :| 0 <= j < |capped| && BelowThreshold(capped[j], d) && capped[j].salary.value == mc.value;
      assert mc.value <= m.value;
    } else {
      assert forall i :: 0 <= i < |capped| ==> !BelowThreshold(capped[i], d);
    }
  }

  /** Capping a department twice is the same as capping it once. */
  lemma CapIdempotent(rows: seq<Employee>, d: string)
    ensures CapDepartment(CapDepartment(rows, d), d) == CapDepartment(rows, d)
  {
    var once := CapDepartment(rows, d);
    CapKeepsOwnMax(rows, d);
    assert forall i :: 0 <= i < |once| ==> !IsOutlier(once[i], d);
    assert CapWith(once, d, MaxBelow(rows, d)) == once;
  }

  /** The salary cell after capping: an HR or Engineering outlier becomes its
      department's largest sub-threshold salary, or missing when there is none. */
  function CappedSalary(e: Employee, hrMax: Option<real>, engineeringMax: Option<real>): Cell<real>
  {
    if IsOutlier(e, "HR") then AsCell(hrMax)
    else if IsOutlier(e, "Engineering") then AsCell(engineeringMax)
    else e.salary
  }

  /** What the capping loop does to each row; both maxima are those of the table before capping. */
  lemma CappedCells(rows: seq<Employee>)
    ensures forall i :: 0 <= i < |rows| ==>
      Capped(rows)[i]
        == rows[i].(salary := CappedSalary(rows[i], MaxBelow(rows, "HR"), MaxBelow(rows, "Engineering")))
  {
    assert CAP_DEPARTMENTS[..1] == ["HR"] && ["HR"][..0] == [];
    var afterHr := CapDepartment(rows, "HR");
    assert CapEach(rows, ["HR"]) == afterHr;
    CapKeepsOtherMax(rows, "Engineering", "HR", MaxBelow(rows, "HR"));
  }

  /** After capping no HR or Engineering salary is at or above the threshold. */
  lemma CappedBelowThreshold(rows: seq<Employee>)
    ensures forall i :: 0 <= i < |rows| && Capped(rows)[i].department in {"HR", "Engineering"}
                        && Capped(rows)[i].salary.Val?
                        ==> Capped(rows)[i].salary.value < OUTLIER_THRESHOLD
  {
    CappedCells(rows);
  }
}
