/** `SupabaseAttendanceRecord`: one row of the `attendance` table as the app
    decodes it. Every field but the employee id may be absent in a row and
    then takes its default. */
module AttendanceRecords {
  import opened Wrappers
  import opened Sequences

  /** A record; `id` is a `Long?` in the app, unbounded here. */
  datatype AttendanceRecord = AttendanceRecord(
    id: Option<int> := None,
    employeeId: string,
    punchInTime: Option<string> := None,
    punchOutTime: Option<string> := None,
    imageUrl: Option<string> := None,
    punchOutImageUrl: Option<string> := None,
    isSynced: bool := true,
    createdAt: Option<string> := None)

  /** A record built from nothing but an employee id. */
  function NewRecord(employeeId: string): (r: AttendanceRecord)
    ensures r.employeeId == employeeId
    ensures r.id == None && r.punchInTime == None && r.punchOutTime == None
    ensures r.imageUrl == None && r.punchOutImageUrl == None && r.createdAt == None
    ensures r.isSynced
  {
    AttendanceRecord(employeeId := employeeId)
  }

  /** `records.map { it.employeeId }`. */
  function Ids(records: seq<AttendanceRecord>): (r: seq<string>)
    ensures |r| == |records|
    ensures forall i :: 0 <= i < |records| ==> r[i] == records[i].employeeId
  {
    seq(|records|, i requires 0 <= i < |records| => records[i].employeeId)
  }

  /** The id list of a sub-list is a sub-list of the id list. */
  lemma {:induction false} IdsOfSubsequence(a: seq<AttendanceRecord>, b: seq<AttendanceRecord>)
    requires IsSubsequence(a, b)
    ensures IsSubsequence(Ids(a), Ids(b))
    decreases |a| + |b|
  {
    if a != [] {
      assert Ids(a)[1..] == Ids(a[1..]) && Ids(b)[1..] == Ids(b[1..]);
      if a[0] == b[0] && IsSubsequence(a[1..], b[1..]) {
        IdsOfSubsequence(a[1..], b[1..]);
      } else {
        IdsOfSubsequence(a, b[1..]);
      }
    }
  }

  // ---------------------------------------------------------------------------
  // Column names

  /** The properties of the record, in declaration order. */
  datatype Field = Id | EmployeeId | PunchInTime | PunchOutTime | ImageUrl
                 | PunchOutImageUrl | IsSynced | CreatedAt

  /** The column the field is (de)serialised under: its `@SerialName`, or the
      property name where there is none. */
  function ColumnName(f: Field): string {
    match f
    case Id => "id"
    case EmployeeId => "employee_id"
    case PunchInTime => "punch_in_time"
    case PunchOutTime => "punch_out_time"
    case ImageUrl => "image_url"
    case PunchOutImageUrl => "punch_out_image_url"
    case IsSynced => "is_synced"
    case CreatedAt => "created_at"
  }

  /** The field a column of a decoded row goes to; `None` for a column the
      record does not have. */
  function FieldOfColumn(column: string): (r: Option<Field>)
    ensures r.Some? ==> ColumnName(r.value) == column
  {
    if column == "id" then Some(Id)
    else if column == "employee_id" then Some(EmployeeId)
    else if column == "punch_in_time" then Some(PunchInTime)
    else if column == "punch_out_time" then Some(PunchOutTime)
    else if column == "image_url" then Some(ImageUrl)
    else if column == "punch_out_image_url" then Some(PunchOutImageUrl)
    else if column == "is_synced" then Some(IsSynced)
    else if column == "created_at" then Some(CreatedAt)
    else None
  }

  /** Every field is found again under its column name, so no two fields
      share a column. */
  lemma ColumnRoundTrip(f: Field)
    ensures FieldOfColumn(ColumnName(f)) == Some(f)
  {
  }

  lemma ColumnNameInjective(f: Field, g: Field)
    requires ColumnName(f) == ColumnName(g)
    ensures f == g
  {
    ColumnRoundTrip(f);
    ColumnRoundTrip(g);
  }
}
