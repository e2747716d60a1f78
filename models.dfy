/** The entity layer: the to-do record and its two closed enumerations. */
module Models {

  datatype Option<T> = None | Some(value: T)

  /** The closed set of priorities; each member is stored as its literal tag. */
  datatype Priority = HIGH | MID | LOW

  /** The closed set of statuses. */
  datatype Status = PENDING | COMPLETED

  /** One task belonging to exactly one user. The identifier and the timestamps are
      opaque strings supplied by whoever constructs the item. */
  datatype TodoItem = TodoItem(
    id: string,
    title: string,
    details: string,
    priority: Priority,
    status: Status,
    owner: string,
    createdAt: string,
    updatedAt: string,
    dueDate: Option<string>)

  /** The string tag of a priority (its enum value). */
  function PriorityValue(p: Priority): (s: string)
  {
    match p
    case HIGH => "HIGH"
    case MID => "MID"
    case LOW => "LOW"
  }

  /** Strict parse of a priority tag: the enum constructor fails on any other string. */
  function ParsePriority(s: string): (r: Option<Priority>)
    ensures r.Some? ==> PriorityValue(r.value) == s
    ensures r.None? ==> forall p :: PriorityValue(p) != s
  {
    if s == "HIGH" then Some(HIGH)
    else if s == "MID" then Some(MID)
    else if s == "LOW" then Some(LOW)
    else None
  }

  /** Every priority's tag parses back to that priority. */
  lemma ParsePriorityRoundTrip(p: Priority)
    ensures ParsePriority(PriorityValue(p)) == Some(p)
  {
  }

  /** A tag that is not one of the three is refused. */
  lemma ParsePriorityRejectsOthers(s: string)
    requires s != "HIGH" && s != "MID" && s != "LOW"
    ensures ParsePriority(s) == None
  {
  }
}
