/** `timestamp_is_recent` (src/data_handlers/utils.py). Times are whole
    seconds since the epoch; ISO parsing is a partial function supplied by
    the caller, and the clock reading is a parameter. */
module Timestamps {
  import opened Wrappers

  /** A parsed ISO timestamp: its instant, and whether it carried a UTC
      offset (Python's aware versus naive datetimes). */
  datatype Instant = Instant(seconds: int, hasOffset: bool)

  /** Whether `timestamp` lies less than `hours` hours before `now`. The
      empty string, an unparseable string and an offset-less time (whose
      subtraction from the aware clock reading raises) are never recent. */
  function IsRecent(timestamp: string, hours: int, now: int, parse: string -> Option<Instant>): (r: bool)
    ensures timestamp == "" ==> !r
    ensures timestamp != "" && parse(timestamp).None? ==> !r
    ensures timestamp != "" && parse(timestamp).Some? && !parse(timestamp).value.hasOffset ==> !r
    ensures r <==> timestamp != "" && parse(timestamp).Some? && parse(timestamp).value.hasOffset
                   && now - parse(timestamp).value.seconds < hours * 3600
  {
    if timestamp == "" then false
    else
      match parse(timestamp)
      case None => false
      case Some(ts) =>
        if !ts.hasOffset then false
        else now - ts.seconds < hours * 3600
  }

  /** Recent under some threshold means recent under any larger one. */
  lemma RecentMonotone(timestamp: string, hours: int, more: int, now: int, parse: string -> Option<Instant>)
    requires hours <= more
    requires IsRecent(timestamp, hours, now, parse)
    ensures IsRecent(timestamp, more, now, parse)
  {
    assert hours * 3600 <= more * 3600;
  }

  /** A well-formed time in the future is recent for any positive
      threshold. */
  lemma FutureIsRecent(timestamp: string, hours: int, now: int, parse: string -> Option<Instant>)
    requires timestamp != "" && parse(timestamp).Some? && parse(timestamp).value.hasOffset
    requires parse(timestamp).value.seconds >= now
    requires hours > 0
    ensures IsRecent(timestamp, hours, now, parse)
  {
  }
}
