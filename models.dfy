/** The rows of the hospital network tables that the transfer core reads and
    writes (app/models). */
module Models {

  /** A hospital key. The hospitals table declares its key as a 36-character
      string while every column that refers to it (connections, departments,
      patients, sessions, transfers) declares an integer; the model keeps both
      forms in one type, and two keys are equal only when form and value agree. */
  datatype HospitalId = IntKey(n: int) | TextKey(s: string)

  /** A row of `hospitals`. */
  datatype Hospital = Hospital(hospitalId: HospitalId, name: string, location: string)

  /** A row of `departments`: a department belongs to one hospital and
      `departmentId` is the table's primary key. */
  datatype Department = Department(departmentId: int, hospitalId: HospitalId, name: string)

  /** A row of `hospital_connections`: a directed link with its metrics. The
      column `created_at` is filled by the database and read by nothing here. */
  datatype Connection = Connection(
    connectionId: nat,
    hospitalFrom: HospitalId,
    hospitalTo: HospitalId,
    transferCost: real,
    latencyMinutes: real,
    reliability: real)
}
