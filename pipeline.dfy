/**
 The cleaning script of API.py:33-151 as it runs: one DataFrame, changed
 column by column in place. The class holds the table and its column names;
 each method is one step of the script and updates the table exactly as the
 matching function of module Cleaning says.
 */
module Pipeline {
  import opened Frame
  import opened Cleaning

  /** How the script ends: it reaches the end, it indexes a column the table
      lacks outside the guarded loop and pandas raises KeyError, or it prints
      row INSPECTED_ROW by position and pandas raises IndexError. */
  datatype Outcome = Done | MissingColumn(column: string) | RowOutOfRange(row: nat)

  /** The row API.py:69 prints by position with `iloc`. */
  const INSPECTED_ROW: nat := 14

  /** The steps of API.py:33-151 in order, with the table as the last step
      that ran left it. */
  function Cleaned(rows: seq<Employee>, columns: set<string>): (r: (Outcome, seq<Employee>))
    requires ID_COLUMN in columns
    ensures |r.1| == |rows|
    ensures r.0 == Done <==>
      DOB_COLUMN in columns && SALARY_COLUMN in columns && DEPARTMENT_COLUMN in columns
      && |rows| > INSPECTED_ROW
    ensures r.0.MissingColumn? ==> r.0.column !in columns
    ensures r.0.RowOutOfRange? ==> r.0.row == INSPECTED_ROW && |rows| <= INSPECTED_ROW
  {
    var normalized := Normalized(rows, columns);
    if DOB_COLUMN !in columns then (MissingColumn(DOB_COLUMN), normalized)
    else
      var dated := DatesCoerced(normalized);
      if SALARY_COLUMN !in columns then (MissingColumn(SALARY_COLUMN), dated)
      else
        var coerced := SalariesCoerced(dated);
        if |rows| <= INSPECTED_ROW then (RowOutOfRange(INSPECTED_ROW), coerced)
        else
          var filled := Prepared(rows, columns);
          if DEPARTMENT_COLUMN !in columns then (MissingColumn(DEPARTMENT_COLUMN), filled)
          else (Done, Capped(Imputed(filled)))
  }

  /** Every known salary of the table is non-negative. */
  predicate NoNegativeSalary(rows: seq<Employee>)
  {
    forall i :: 0 <= i < |rows| && rows[i].salary.Val? ==> rows[i].salary.value >= 0.0
  }

  /** `after` differs from `before` in its salaries only. */
  predicate SameButSalaries(before: seq<Employee>, after: seq<Employee>)
  {
    |after| == |before| && forall i :: 0 <= i < |before| ==> after[i] == before[i].(salary := after[i].salary)
  }

  /** The steps up to the ID fill (API.py:33-102). */
  function Prepared(rows: seq<Employee>, columns: set<string>): (r: seq<Employee>)
    requires |rows| > 4
  {
    IdFilled(AbsCorrected(SalariesCoerced(DatesCoerced(Normalized(rows, columns)))))
  }

  lemma PreparedTable(rows: seq<Employee>, columns: set<string>)
    requires |rows| > 4 && DEPARTMENT_COLUMN in columns
    ensures var r := Prepared(rows, columns);
      && |r| == |rows| && NumericSalaries(r) && ParsedDates(r) && NoNegativeSalary(r)
      && (forall i :: 0 <= i < |r| ==> r[i].name == rows[i].name && r[i].department != "not_specified")
      && (forall i :: 0 <= i < |r| && i != 4 ==> r[i].id == rows[i].id)
      && r[4].id == Some(4)
  {
    NormalizedCells(rows, columns);
  }

  lemma ImputedTable(rows: seq<Employee>)
    requires NumericSalaries(rows) && ParsedDates(rows) && NoNegativeSalary(rows)
    ensures var r := Imputed(rows);
      SameButSalaries(rows, r) && NumericSalaries(r) && ParsedDates(r) && NoNegativeSalary(r)
  {
    ImputedCells(rows);
    MeanNonNegative(rows);
  }

  lemma CappedTable(rows: seq<Employee>)
    requires NumericSalaries(rows) && ParsedDates(rows) && NoNegativeSalary(rows)
    ensures var r := Capped(rows);
      && SameButSalaries(rows, r) && NumericSalaries(r) && ParsedDates(r) && NoNegativeSalary(r)
      && (forall i :: 0 <= i < |r| && r[i].department in {"HR", "Engineering"} && r[i].salary.Val?
            ==> r[i].salary.value < OUTLIER_THRESHOLD)
  {
    CappedCells(rows);
    CappedBelowThreshold(rows);
  }

  /** A table the script cleaned to the end (so one of at least 15 rows) keeps its rows and names, has
      numeric salaries and parsed dates, no negative salary, no HR or
      Engineering salary at or above the threshold, no 'not_specified'
      department, and ID 4 in row 4 with every other ID as it was. */
  lemma CleanedTable(rows: seq<Employee>, columns: set<string>)
    requires ID_COLUMN in columns
    requires Cleaned(rows, columns).0 == Done
    ensures var r := Cleaned(rows, columns).1;
      && |r| == |rows|
      && NumericSalaries(r) && ParsedDates(r) && NoNegativeSalary(r)
      && (forall i :: 0 <= i < |r| ==> r[i].name == rows[i].name)
      && (forall i :: 0 <= i < |r| && i != 4 ==> r[i].id == rows[i].id)
      && r[4].id == Some(4)
      && (forall i :: 0 <= i < |r| ==> r[i].department != "not_specified")
      && (forall i :: 0 <= i < |r| && r[i].department in {"HR", "Engineering"} && r[i].salary.Val?
            ==> r[i].salary.value < OUTLIER_THRESHOLD)
  {
    var prepared := Prepared(rows, columns);
    PreparedTable(rows, columns);
    var imputed := Imputed(prepared);
    ImputedTable(prepared);
    CappedTable(imputed);
    assert Cleaned(rows, columns).1 == Capped(imputed);
  }

  /** The DataFrame of API.py, changed in place by the cleaning steps. */
  class EmployeeFrame {
    /** The column names the file has. */
    var columns: set<string>
    /** The rows, in file order; row k has index label k. */
    var rows: seq<Employee>

    /** The table as pd.read_csv returns it (API.py:13). */
    constructor (columns: set<string>, rows: seq<Employee>)
      ensures this.columns == columns && this.rows == rows
    {
      this.columns := columns;
      this.rows := rows;
    }

    /** API.py:33-39: replace the placeholder tokens column by column; a
        missing column raises KeyError, which is caught and only reported. */
    method NormalizePlaceholders()
      modifies this
      ensures columns == old(columns)
      ensures rows == Normalized(old(rows), columns)
    {
      var k := 0;
      while k < |PLACEHOLDER_RULES|
        invariant 0 <= k <= |PLACEHOLDER_RULES|
        invariant columns == old(columns)
        invariant rows == ApplyRules(old(rows), columns, PLACEHOLDER_RULES[..k])
      {
        var rule := PLACEHOLDER_RULES[k];
        assert PLACEHOLDER_RULES[..k + 1][..k] == PLACEHOLDER_RULES[..k];
        if rule.Column() in columns {
          rows := ReplaceTokens(rows, rule);
        }
        k := k + 1;
      }
      assert PLACEHOLDER_RULES[..k] == PLACEHOLDER_RULES;
    }

    /** API.py:42. */
    method CoerceDates()
      requires DOB_COLUMN in columns
      modifies this
      ensures columns == old(columns)
      ensures rows == DatesCoerced(old(rows))
    {
      rows := DatesCoerced(rows);
    }

    /** API.py:56. */
    method CoerceSalaries()
      requires SALARY_COLUMN in columns
      modifies this
      ensures columns == old(columns)
      ensures rows == SalariesCoerced(old(rows))
    {
      rows := SalariesCoerced(rows);
    }

    /** API.py:72; Series.abs needs the numeric column that API.py:56 produced. */
    method CorrectNegativeSalaries()
      requires SALARY_COLUMN in columns && NumericSalaries(rows)
      modifies this
      ensures columns == old(columns)
      ensures rows == AbsCorrected(old(rows))
    {
      rows := AbsCorrected(rows);
    }

    /** API.py:102. */
    method FillMissingId()
      requires ID_COLUMN in columns && |rows| > 4
      modifies this
      ensures columns == old(columns)
      ensures rows == IdFilled(old(rows))
    {
      rows := IdFilled(rows);
    }

    /** API.py:121-127: both means first, then the fill loop over Sales and Marketing. */
    method ImputeSalaries()
      requires SALARY_COLUMN in columns && DEPARTMENT_COLUMN in columns
      modifies this
      ensures columns == old(columns)
      ensures rows == Imputed(old(rows))
    {
      var salesMean := GlobalMean(rows);
      var marketingMean := MarketingMean(rows);
      var plan := [("Sales", salesMean), ("Marketing", marketingMean)];
      assert plan == ImputePlan(old(rows));
      var k := 0;
      while k < |plan|
        invariant 0 <= k <= |plan|
        invariant columns == old(columns)
        invariant rows == FillEach(old(rows), plan[..k])
      {
        var (depart, fill) := plan[k];
        assert plan[..k + 1][..k] == plan[..k];
        rows := FillNulls(rows, depart, fill);
        k := k + 1;
      }
      assert plan[..k] == plan;
    }

    /** API.py:146-151: for HR, then Engineering, take the largest salary below
        the threshold and give it to every salary at or above it. */
    method CapOutliers()
      requires SALARY_COLUMN in columns && DEPARTMENT_COLUMN in columns
      modifies this
      ensures columns == old(columns)
      ensures rows == Capped(old(rows))
    {
      var k := 0;
      while k < |CAP_DEPARTMENTS|
        invariant 0 <= k <= |CAP_DEPARTMENTS|
        invariant columns == old(columns)
        invariant rows == CapEach(old(rows), CAP_DEPARTMENTS[..k])
      {
        var depart := CAP_DEPARTMENTS[k];
        assert CAP_DEPARTMENTS[..k + 1][..k] == CAP_DEPARTMENTS[..k];
        var maxVal := MaxBelow(rows, depart);
        rows := CapWith(rows, depart, maxVal);
        k := k + 1;
      }
      assert CAP_DEPARTMENTS[..k] == CAP_DEPARTMENTS;
    }

    /** API.py:33-151 from top to bottom. */
    method Clean() returns (outcome: Outcome)
      requires ID_COLUMN in columns
      modifies this
      ensures columns == old(columns)
      ensures (outcome, rows) == Cleaned(old(rows), old(columns))
    {
      NormalizePlaceholders();
      if DOB_COLUMN !in columns {
        return MissingColumn(DOB_COLUMN);
      }
      CoerceDates();
      if SALARY_COLUMN !in columns {
        return MissingColumn(SALARY_COLUMN);
      }
      CoerceSalaries();
      if |rows| <= INSPECTED_ROW {
        return RowOutOfRange(INSPECTED_ROW);
      }
      CorrectNegativeSalaries();
      FillMissingId();
      if DEPARTMENT_COLUMN !in columns {
        return MissingColumn(DEPARTMENT_COLUMN);
      }
      ImputeSalaries();
      CapOutliers();
      return Done;
    }
  }
}
