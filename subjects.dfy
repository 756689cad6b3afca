/** The records the enrollment panel and the subject sidebar read: a subject with its levels
    and groups, a student of the user directory, and an enrollment of a student in a subject. */
module Subjects {

  datatype Level = Level(id: string, name: string)

  /** A section of one level, with the occupancy it reports. */
  datatype Group = Group(id: string, name: string, levelId: string,
                         currentStudents: int, maxStudents: int)

  datatype Subject = Subject(id: string, name: string, code: string, department: string,
                             levels: seq<Level>, groups: seq<Group>)

  datatype Student = Student(id: string, name: string, email: string, isActive: bool)

  datatype Enrollment = Enrollment(studentId: string, subjectId: string, levelId: string,
                                   groupId: string)
}
