/** Option and Result values shared by the model, and the failures the
    service can raise.  A Python exception that escapes a route becomes an
    `Err`; a route that answers normally becomes an `Ok`. */
module Wrappers {

  datatype Option<+T> = None | Some(value: T)

  /** The exceptions and aborts the modelled code can end in. */
  datatype Error =
    | MissingKey(key: string)   // a KeyError raised from a JSON payload
    | BadTimestamp              // a ValueError from `strptime` on a malformed timestamp
    | NoArtist                  // an IndexError on a track with no artists
    | NoTitleMatch              // `.group` called on the None of a failed regex match
    | Forbidden                 // abort(403) on a wrong password

  datatype Result<+T> = Ok(value: T) | Err(error: Error)
}
