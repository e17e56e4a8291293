/**
 The employee table that API.py loads into a pandas DataFrame: one record per
 row, the names of the columns the file actually has, and the cell type of
 the columns that pandas first holds as raw text and later converts in place.
 */
module Frame {

  datatype Option<T> = None | Some(value: T)

  /** A cell of a column that pandas holds either as raw text read from the
      file, as a converted value, or as missing (NaN for numbers, NaT for dates). */
  datatype Cell<T> = Null | Text(text: string) | Val(value: T)

  /** A calendar date, as a pandas Timestamp at midnight. */
  datatype Date = Date(year: int, month: int, day: int)

  /** One row of the table: ID, Name, Department, Salary, Date_of_Birth.
      The ID column is float with NaN in the file, hence the Option. */
  datatype Employee = Employee(
    id: Option<int>,
    name: string,
    department: string,
    salary: Cell<real>,
    dob: Cell<Date>)

  const ID_COLUMN: string := "ID"
  const DEPARTMENT_COLUMN: string := "Department"
  const SALARY_COLUMN: string := "Salary"
  const DOB_COLUMN: string := "Date_of_Birth"

  /** The salary of a row as a number, or None when it is missing. */
  function SalaryOf(e: Employee): Option<real>
  {
    if e.salary.Val? then Some(e.salary.value) else None
  }

  /** The Salary column has a numeric dtype: no cell is left as text. */
  predicate NumericSalaries(rows: seq<Employee>)
  {
    forall i :: 0 <= i < |rows| ==> !rows[i].salary.Text?
  }

  /** The Date_of_Birth column has a datetime dtype: no cell is left as text. */
  predicate ParsedDates(rows: seq<Employee>)
  {
    forall i :: 0 <= i < |rows| ==> !rows[i].dob.Text?
  }
}
