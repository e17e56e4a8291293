/**
 The two read-only queries API.py serves over the cleaned table:
 /top_n_employees (API.py:176-182), which is DataFrame.nlargest(n, 'Salary')
 projected to Name, Salary and Department, and /employee_count
 (API.py:189-198), which counts the rows of one department. Both only read
 the table, so both are functions of its rows.
 */
module Api {
  import opened Frame

  /** One record of the top-N reply: the three columns the query keeps. */
  datatype TopEntry = TopEntry(name: string, salary: Option<real>, department: string)

  /** The reply of /employee_count. */
  datatype CountReply = CountReply(department: string, employeeCount: nat)

  /** An error reply: its HTTP status and the message in its JSON body. */
  datatype ApiError = ApiError(status: int, message: string)

  datatype Result<T> = Ok(value: T) | Err(error: ApiError)

  /** How many rows /top_n_employees returns when the request has no `n`. */
  const DEFAULT_N: int := 5

  const MISSING_DEPARTMENT: ApiError := ApiError(400, "Department parameter is required")

  // ---------------------------------------------------------------------
  // nlargest(n, 'Salary') with keep='first' (API.py:179)
  // ---------------------------------------------------------------------

  /** Row `i` comes before row `j` in nlargest's order: the larger salary
      first, equal salaries in table order, and every missing salary after
      every known one, the missing ones in table order too. */
  predicate Ahead(rows: seq<Employee>, i: nat, j: nat)
    requires i < |rows| && j < |rows|
    ensures Ahead(rows, i, j) && SalaryOf(rows[j]).Some? ==>
      SalaryOf(rows[i]).Some? && SalaryOf(rows[i]).value >= SalaryOf(rows[j]).value
    ensures SalaryOf(rows[i]).Some? && SalaryOf(rows[j]).Some? && SalaryOf(rows[i]).value > SalaryOf(rows[j]).value ==>
      Ahead(rows, i, j)
    ensures SalaryOf(rows[i]) == SalaryOf(rows[j]) ==> (Ahead(rows, i, j) <==> i < j)
  {
    match (SalaryOf(rows[i]), SalaryOf(rows[j]))
    case (Some(a), Some(b)) => a > b || (a == b && i < j)
    case (Some(_), None) => true
    case (None, Some(_)) => false
    case (None, None) => i < j
  }

  lemma AheadIsStrictTotalOrder(rows: seq<Employee>, i: nat, j: nat, k: nat)
    requires i < |rows| && j < |rows| && k < |rows|
    ensures !Ahead(rows, i, i)
    ensures i != j ==> (Ahead(rows, i, j) <==> !Ahead(rows, j, i))
    ensures Ahead(rows, i, j) && Ahead(rows, j, k) ==> Ahead(rows, i, k)
  {
  }

  predicate Indices(rows: seq<Employee>, s: seq<nat>)
  {
    forall a :: 0 <= a < |s| ==> s[a] < |rows|
  }

  /** Every index of `s` comes before every later one. */
  predicate Sorted(rows: seq<Employee>, s: seq<nat>)
    requires Indices(rows, s)
  {
    forall a, b :: 0 <= a < b < |s| ==> Ahead(rows, s[a], s[b])
  }

  /** `i` put into the sorted `s` before the first index it comes before. */
  function Insert(rows: seq<Employee>, s: seq<nat>, i: nat): (r: seq<nat>)
    requires Indices(rows, s) && i < |rows|
    requires Sorted(rows, s) && i !in s
    ensures |r| == |s| + 1 && Indices(rows, r)
    ensures forall x :: x in r <==> x in s || x == i
    ensures Sorted(rows, r)
  {
    if s == [] then [i]
    else if Ahead(rows, i, s[0]) then
      forall b | 0 <= b < |s|
        ensures Ahead(rows, i, s[b])
      {
        AheadIsStrictTotalOrder(rows, i, s[0], s[b]);
      }
      [i] + s
    else
      var rest := Insert(rows, s[1..], i);
      AheadIsStrictTotalOrder(rows, s[0], i, i);
      forall x | x in rest
        ensures Ahead(rows, s[0], x)
      {
        if x != i {
          var b :| 0 <= b < |s[1..]| && s[1..][b] == x;
          assert x == s[b + 1];
        }
      }
      [s[0]] + rest
  }

  /** The rows 0 .. k-1 in nlargest's order. */
  function Ranking(rows: seq<Employee>, k: nat): (r: seq<nat>)
    requires k <= |rows|
    ensures |r| == k && Indices(rows, r) && Sorted(rows, r)
    ensures forall x: nat :: x in r <==> x < k
  {
    if k == 0 then [] else Insert(rows, Ranking(rows, k - 1), k - 1)
  }

  /** The row positions DataFrame.nlargest(n, 'Salary') selects, in the order
      it returns them: nothing when n <= 0, else the first min(n, |rows|) rows
      of the whole ranking. */
  function TopNIndices(rows: seq<Employee>, n: int): (r: seq<nat>)
    ensures |r| == if n <= 0 then 0 else if n < |rows| then n else |rows|
    ensures Indices(rows, r)
  {
    if n <= 0 then []
    else
      var ranking := Ranking(rows, |rows|);
      if n < |rows| then ranking[..n] else ranking
  }

  /** The columns the reply keeps of one row. */
  function Project(e: Employee): (r: TopEntry)
    ensures r.name == e.name && r.department == e.department
    ensures r.salary.Some? <==> e.salary.Val?
    ensures r.salary.Some? ==> r.salary.value == e.salary.value
  {
    TopEntry(e.name, SalaryOf(e), e.department)
  }

  /** GET /top_n_employees?n=..., with `n` already read as an integer, or
      None when the request has no `n`. An object-dtype Salary column makes
      nlargest raise TypeError, so the column must be numeric, as the
      cleaning leaves it. */
  function TopNEmployees(rows: seq<Employee>, n: Option<int>): (r: seq<TopEntry>)
    requires NumericSalaries(rows)
    ensures var idx := TopNIndices(rows, if n.Some? then n.value else DEFAULT_N);
      |r| == |idx| && forall k :: 0 <= k < |r| ==> r[k] == Project(rows[idx[k]])
  {
    var idx := TopNIndices(rows, if n.Some? then n.value else DEFAULT_N);
    seq(|idx|, k requires 0 <= k < |idx| => Project(rows[idx[k]]))
  }

  /** What nlargest promises: at most n rows, each row once, in order (larger
      salary first, ties in table order, missing salaries last), and every
      selected row ahead of every row left out; so the selected salaries do
      not increase and none is below a known salary left out. */
  lemma TopNSpec(rows: seq<Employee>, n: int)
    ensures var idx := TopNIndices(rows, n);
      && |idx| <= (if n < 0 then 0 else n)
      && (forall a, b :: 0 <= a < b < |idx| ==> idx[a] != idx[b])
      && Sorted(rows, idx)
      && (forall a, j :: 0 <= a < |idx| && 0 <= j < |rows| && j !in idx ==> Ahead(rows, idx[a], j))
  {
    var idx := TopNIndices(rows, n);
    forall a, b | 0 <= a < b < |idx|
      ensures idx[a] != idx[b]
    {
      AheadIsStrictTotalOrder(rows, idx[a], idx[b], idx[b]);
    }
    if n > 0 {
      var ranking := Ranking(rows, |rows|);
      forall a, j | 0 <= a < |idx| && 0 <= j < |rows| && j !in idx
        ensures Ahead(rows, idx[a], j)
      {
        assert j in ranking;
        var p :| 0 <= p < |ranking| && ranking[p] == j;
        assert forall q :: 0 <= q < |idx| ==> idx[q] == ranking[q];
        assert p >= |idx|;
      }
    }
  }

  /** The salaries of the reply, read off the entries: known ones first and
      not increasing, and no row left out has a known salary above a
      returned one. */
  lemma TopNSalaries(rows: seq<Employee>, n: Option<int>)
    requires NumericSalaries(rows)
    ensures var r := TopNEmployees(rows, n);
      var idx := TopNIndices(rows, if n.Some? then n.value else DEFAULT_N);
      && (forall a, b :: 0 <= a < b < |r| && r[b].salary.Some? ==>
            r[a].salary.Some? && r[a].salary.value >= r[b].salary.value)
      && (forall a, j :: 0 <= a < |r| && 0 <= j < |rows| && j !in idx && rows[j].salary.Val? ==>
            r[a].salary.Some? && r[a].salary.value >= rows[j].salary.value)
  {
    TopNSpec(rows, if n.Some? then n.value else DEFAULT_N);
  }

  // ---------------------------------------------------------------------
  // df[df['Department'] == department].shape[0] (API.py:189-198)
  // ---------------------------------------------------------------------

  /** The number of rows whose Department is exactly `d`. */
  function CountIn(rows: seq<Employee>, d: string): (c: nat)
    ensures c <= |rows|
    ensures c == 0 <==> forall i :: 0 <= i < |rows| ==> rows[i].department != d
  {
    if rows == [] then 0
    else
      var init := rows[..|rows| - 1];
      assert forall i :: 0 <= i < |init| ==> init[i] == rows[i];
      CountIn(init, d) + if rows[|rows| - 1].department == d then 1 else 0
  }

  /** The positions of the rows whose Department is exactly `d`. */
  function MatchingRows(rows: seq<Employee>, d: string): set<nat>
  {
    set i: nat | i < |rows| && rows[i].department == d
  }

  lemma {:induction false} CountMatches(rows: seq<Employee>, d: string)
    ensures CountIn(rows, d) == |MatchingRows(rows, d)|
  {
    if rows != [] {
      var last := |rows| - 1;
      var init := rows[..last];
      CountMatches(init, d);
      var before := MatchingRows(init, d);
      if rows[last].department == d {
        assert MatchingRows(rows, d) == before + {last};
      } else {
        assert MatchingRows(rows, d) == before;
      }
    }
  }

  /** GET /employee_count?department=...: an error with status 400 when the
      parameter is absent, else the department with the number of rows whose
      Department equals it exactly. */
  function EmployeeCount(rows: seq<Employee>, department: Option<string>): (r: Result<CountReply>)
    ensures r.Err? <==> department.None?
    ensures r.Err? ==> r.error.status == 400
    ensures r.Ok? ==>
      r.value.department == department.value
      && r.value.employeeCount == |MatchingRows(rows, department.value)|
  {
    match department
    case None => Err(MISSING_DEPARTMENT)
    case Some(d) =>
      CountMatches(rows, d);
      Ok(CountReply(d, CountIn(rows, d)))
  }
}
