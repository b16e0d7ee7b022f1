/**
 * The records the calendar screens pass around: an appointment as the event
 * list holds it, with its patient joined in.
 */
module Types {
  import opened Wrappers

  datatype Patient = Patient(id: string, firstname: string, lastname: string)

  /**
   * An appointment row. `start` and `end` are instants as timestamps; the rows
   * carry them as ISO strings that the screens turn into `Date`s.
   */
  datatype Appointment = Appointment(
    id: string,
    title: string,
    start: int,
    end: Option<int>,
    category: Option<string>,
    notes: Option<string>,
    patient: Option<Patient>)
}
