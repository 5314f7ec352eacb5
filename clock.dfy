/** Instants and the date-time parser the to-do engine depends on. */
module Clock {
  import opened Wrappers

  /** An instant. `sec` is what Go's `Time.Unix()` reports; `nsec` is the
      sub-second part, which never reaches a response. */
  datatype Time = Time(sec: int, nsec: int)

  /** Whole seconds since the Unix epoch. */
  function Unix(t: Time): int {
    t.sec
  }

  /** `time.Parse(time.RFC3339, s)`, the date-time production of section 5.6 of
      RFC 3339. Go's parser is not part of this model, so the operations that
      parse a deadline receive it as a parameter: `None` is a parse error. */
  type Rfc3339Parser = string -> Option<Time>
}
