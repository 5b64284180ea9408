/** A value that may be absent: a query that found nothing, a header that was not sent. */
module Opt {

  datatype Option<+T> = None | Some(value: T)
}
