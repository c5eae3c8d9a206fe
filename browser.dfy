/** The engine and DOM facilities the announcement script calls whose code is
    not part of this model. They are passed in as functions. */
module Browser {
  import opened Wrappers
  import Dates

  datatype Host = Host(
    /** `s.normalize('NFKD')` */
    normalizeNfkd: string -> string,
    /** `textContent` of a fresh `div` after `innerHTML = html` */
    htmlTextContent: string -> string,
    /** `new Date(s)`, with `None` for an Invalid Date */
    parseDate: string -> Option<Dates.Instant>)
}
