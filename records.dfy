/** The records the application keeps (types.ts), with the child and spouse fields the
    enrolment form reads and writes. Optional texts are `""` when absent: every test the
    components make on them is a JavaScript truthiness test, for which `undefined` and `''`
    behave alike. */
module Records {

  /** The two occasions the call log knows. */
  datatype OccasionType = Birthday | Anniversary

  /** One completed blessing call: the `YYYY-MM-DD` of the occasion it was for, which occasion,
      and when the call was recorded. (The source calls the second field `type`.) */
  datatype CallRecord = CallRecord(date: string, kind: OccasionType, timestamp: string)

  /** A child entered on the form: a name and a `YYYY-MM-DD` date of birth. */
  datatype Child = Child(name: string, dob: string)

  datatype Devotee = Devotee(
    id: string,
    fullName: string,
    phoneNumber: string,
    gothram: string,
    address: string,
    dateOfBirth: string,
    marriageDate: string,
    wifeName: string,
    wifeDOB: string,
    notes: string,
    createdAt: string,
    callHistory: seq<CallRecord>,
    children: seq<Child>)

  /** The display language selector. */
  datatype Language = En | Te | Both
}
