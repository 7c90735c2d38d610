/** Room type converter between `java.util.Date` and the `Long` stored by SQLite. */
module DateConverter {
  import opened Common

  /** A Kotlin `Long`. */
  type Long = x: int | -0x8000_0000_0000_0000 <= x < 0x8000_0000_0000_0000

  /** A `java.util.Date`: milliseconds since the epoch. */
  datatype Date = Date(time: Long)

  /** `fromTimestamp`: null stays null, a timestamp becomes the date at that instant. */
  function FromTimestamp(ts: Option<Long>): (r: Option<Date>)
    ensures r.None? <==> ts.None?
    ensures ts.Some? ==> r.value.time == ts.value
  {
    match ts
    case None => None
    case Some(t) => Some(Date(t))
  }

  /** `dateToTimestamp`: null stays null, a date becomes its millisecond count. */
  function DateToTimestamp(date: Option<Date>): (r: Option<Long>)
    ensures r.None? <==> date.None?
    ensures date.Some? ==> r.value == date.value.time
  {
    match date
    case None => None
    case Some(d) => Some(d.time)
  }

  /** Storing a date and reading it back gives the same date (and null back as null). */
  lemma DateRoundTrip(date: Option<Date>)
    ensures FromTimestamp(DateToTimestamp(date)) == date
  {
  }

  /** Reading a stored timestamp and storing it again gives the same timestamp. */
  lemma TimestampRoundTrip(ts: Option<Long>)
    ensures DateToTimestamp(FromTimestamp(ts)) == ts
  {
  }
}
