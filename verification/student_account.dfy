/** The registration form's option lists and its department-to-course
    dependency. */
module StudentAccount {

  const Departments: seq<string> := ["CITE", "COCJE", "COTE", "COHM"]
  const Levels: seq<string> := ["1st Year", "2nd Year", "3rd Year", "4th Year"]
  const Semesters: seq<string> := ["1st", "2nd"]

  /** `courses[department] || []`: the course list of a department, empty
      for any other value. */
  function CoursesFor(department: string): (cs: seq<string>)
    ensures department !in Departments ==> cs == []
    ensures department in Departments ==> |cs| > 0
  {
    if department == "CITE" then ["BSIT"]
    else if department == "COCJE" then ["BSCRIM"]
    else if department == "COTE" then ["BSED", "BEED"]
    else if department == "COHM" then ["BSHM"]
    else []
  }

  /** The reverse table, written independently: the department offering a
      course. */
  function DepartmentOf(course: string): (d: string)
  {
    match course
    case "BSIT" => "CITE"
    case "BSCRIM" => "COCJE"
    case "BSED" => "COTE"
    case "BEED" => "COTE"
    case "BSHM" => "COHM"
    case _ => ""
  }

  /** A course is listed under a department exactly when that department
      offers it, so no course is listed under two departments. */
  lemma CoursesMatchDepartments(department: string, course: string)
    ensures course in CoursesFor(department) <==> department in Departments && DepartmentOf(course) == department
  {
  }

  /** The selection state of the form: the chosen department (`""` before
      any choice) and the course options it offers. */
  datatype FormState = FormState(selectedDepartment: string, filteredCourses: seq<string>)

  const InitialForm := FormState("", [])

  /** `handleDepartmentChange`. */
  function DepartmentChange(st: FormState, value: string): (r: FormState)
    ensures r.selectedDepartment == value
    ensures forall c :: c in r.filteredCourses <==> value in Departments && DepartmentOf(c) == value
  {
    CoursesMatchEveryCourse(value);
    FormState(value, CoursesFor(value))
  }

  lemma CoursesMatchEveryCourse(department: string)
    ensures forall c :: c in CoursesFor(department) <==> department in Departments && DepartmentOf(c) == department
  {
    forall c ensures c in CoursesFor(department) <==> department in Departments && DepartmentOf(c) == department {
      CoursesMatchDepartments(department, c);
    }
  }

  /** The course options depend only on the last department chosen. */
  lemma LastDepartmentWins(st: FormState, a: string, b: string)
    ensures DepartmentChange(DepartmentChange(st, a), b) == DepartmentChange(st, b)
  {
  }
}
