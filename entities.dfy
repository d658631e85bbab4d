/** The records of src/types/index.ts that the modelled pages work on. Timestamps (createdAt,
    updatedAt) are not modelled. */
module Entities {
  import opened Wrappers
  import opened Calendar
  import opened Days

  datatype Role = Admin | TeacherRole | StudentRole | ParentRole | AccountantRole

  datatype TeacherStatus = TeacherActive | OnLeave | TeacherInactive

  datatype Teacher = Teacher(
    id: string,
    name: string,
    email: string,
    subject: string,
    status: TeacherStatus,
    authId: Option<string>,
    phone: Option<string>)

  datatype StudentStatus = StudentActive | StudentInactive | Graduated

  datatype Student = Student(
    id: string,
    name: string,
    email: string,
    grade: string,
    status: StudentStatus,
    authId: Option<string>,
    parentId: Option<string>,
    phone: Option<string>)

  datatype Parent = Parent(
    id: string,
    name: string,
    email: string,
    authId: Option<string>,
    phone: Option<string>,
    childrenIds: seq<string>)

  datatype Accountant = Accountant(
    id: string,
    name: string,
    email: string,
    nationalId: string,
    qualification: string,
    startDate: Moment,
    authId: Option<string>)

  datatype ClassRecord = ClassRecord(
    id: string,
    name: string,
    grade: string,
    teacherId: string,
    teacherName: string,
    schedule: string,
    room: Option<string>,
    curriculumStoragePath: Option<string>)

  datatype GradeType = Assignment | Quiz | Midterm | Final | Project

  datatype Grade = Grade(
    id: string,
    studentId: string,
    classId: string,
    subject: string,
    teacherId: string,
    score: real,
    maxScore: real,
    percentage: Option<real>,
    gradeType: GradeType,
    date: Moment)

  datatype EnrollmentStatus = EnrollmentActive | Dropped | Completed

  datatype Enrollment = Enrollment(
    id: string,
    studentId: string,
    classId: string,
    enrolledAt: Option<Moment>,
    status: EnrollmentStatus)

  /** A generated weekly schedule entry; studentId is absent for a class without students. */
  datatype ScheduleEntry = ScheduleEntry(
    classId: string,
    studentId: Option<string>,
    teacherId: string,
    day: Weekday,
    time: string,
    subject: string,
    teacher: string,
    room: string)

  /** `xs.find((x) => x.id === id)`: the first element whose id, as `idOf` reads it, is `id`. */
  function Find<T>(xs: seq<T>, idOf: T -> string, id: string): (r: Option<T>)
    ensures r.Some? ==> r.value in xs && idOf(r.value) == id
    ensures r.None? ==> forall i :: 0 <= i < |xs| ==> idOf(xs[i]) != id
  {
    if xs == [] then None
    else if idOf(xs[0]) == id then Some(xs[0])
    else Find(xs[1..], idOf, id)
  }

  /** `students.find((s) => s.id === id)`. */
  function FindStudent(students: seq<Student>, id: string): (r: Option<Student>)
    ensures r.Some? ==> r.value in students && r.value.id == id
    ensures r.None? ==> forall i :: 0 <= i < |students| ==> students[i].id != id
  {
    Find(students, (s: Student) => s.id, id)
  }

  /** `classes.find((c) => c.id === id)`. */
  function FindClass(classes: seq<ClassRecord>, id: string): (r: Option<ClassRecord>)
    ensures r.Some? ==> r.value in classes && r.value.id == id
    ensures r.None? ==> forall i :: 0 <= i < |classes| ==> classes[i].id != id
  {
    Find(classes, (c: ClassRecord) => c.id, id)
  }
}
