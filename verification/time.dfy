/**
  Instants and the date library the clients call. Instants are integers
  (milliseconds); parsing an ISO 8601 literal, re-tagging a value to the
  process's local zone and rendering an instant as ISO 8601 belong to the
  date library and are supplied as opaque functions.
 */
module Time {

  /** A date-library value: the library does not throw on a bad literal, it yields an invalid value. */
  datatype DateTime = Invalid | At(ms: int)

  /** The two readings of the clock the clients take: start and end of the current local day. */
  datatype Clock = Clock(startOfToday: int, endOfToday: int)

  /** The date-library operations the clients use. */
  datatype DateLibrary = DateLibrary(
    parseIso: string -> DateTime,
    retagLocal: DateTime -> DateTime,
    formatIso: int -> string)

  /** Re-tagging keeps an invalid value invalid, as the date library's `setZone` does. */
  predicate KeepsInvalid(lib: DateLibrary) {
    lib.retagLocal(Invalid) == Invalid
  }
}
