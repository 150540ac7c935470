// prisma/schema.prisma, AttendanceStatus and AttendanceSource: what an attendance row says of its day and where it
// comes from.
module Attendance {
  datatype Status = PRESENT | ABSENT | HALF_DAY | HOLIDAY | WEEKLY_OFF | ON_LEAVE | INCOMPLETE

  datatype Source = FACE_API | EXCEL_IMPORT | REGULARIZED | SYSTEM
}
