/** Broken-down local time, as localtime() fills a `struct tm`; reading the clock is left to the caller. */
module Clock {

  /** `year` counts from 1900 and `mon` from 0, as in `struct tm`. */
  datatype Tm = Tm(year: int, mon: int, mday: int, hour: int, min: int, sec: int)

  /** The field ranges localtime() produces, for four-digit years. */
  predicate Normal(t: Tm) {
    && 0 <= t.year + 1900 <= 9999
    && 0 <= t.mon <= 11
    && 1 <= t.mday <= 31
    && 0 <= t.hour <= 23
    && 0 <= t.min <= 59
    && 0 <= t.sec <= 60
  }
}
