/** Value wrappers shared by the whole model.

    A key of a decoded JSON object is in one of three states: missing, present
    with `null`, or present with a value. Python's `dict.get(key, default)`
    falls back to `default` only in the first state, so the model keeps the
    three apart. */
module Values {

  /** An optional value; `None` stands for Python's `None` (JSON `null`). */
  datatype Option<+T> = None | Some(value: T)

  /** One key of a JSON object. */
  datatype Slot<+T> = Absent | Null | Has(value: T)

  /** What a Python call does: return a value, or raise an exception that
      escapes to its caller. */
  datatype Outcome<+T> = Returned(value: T) | Raised

  /** `d.get(key, default)`; the result is `None` when the key holds `null`. */
  function GetOr<T>(s: Slot<T>, default: T): Option<T>
  {
    match s
    case Absent => Some(default)
    case Null => None
    case Has(v) => Some(v)
  }

  /** `d.get(key)`: missing and `null` both read as `None`. */
  function Get<T>(s: Slot<T>): Option<T>
  {
    match s
    case Has(v) => Some(v)
    case _ => None
  }
}
