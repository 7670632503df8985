/** Values shared by every part of the model: optional values, the error
    kinds the browser raises, results, and bytes. */
module Common {

  datatype Option<+T> = None | Some(value: T)

  /** The exceptions Browser.py raises (or lets escape from Python itself),
      one constructor per distinct failure. */
  datatype Error =
    | MissingAttribute(name: string)   // AttributeError: the attribute was never assigned
    | BadScheme                        // the `assert` on the scheme list fails
    | BadPort                          // int() of the text after `host:` fails
    | DataMissingComma                 // data: URL without ','
    | BadBase64                        // base64 payload that does not decode to UTF-8 text
    | FileUnreadable                   // the local file cannot be read
    | ConnectFailed                    // connect or TLS handshake fails
    | NoServerAnswer                   // empty status line
    | BadStatusLine                    // status line not "version status reason" with an integer status
    | BadUtf8                          // bytes.decode("utf8") fails
    | MissingLocation                  // redirect without a Location header
    | TooManyRedirects                 // redirect budget used up
    | BadChunkSize                     // chunk-size line that is not hexadecimal
    | BadReadLength                    // read(n) with n < -1
    | BadContentLength                 // Content-Length that int() rejects
    | BadGzip                          // gzip.BadGzipFile: no gzip header, caught by request
    | GzipBroken                       // EOFError or zlib.error from gzip.decompress, not caught

  datatype Result<+T> = Ok(value: T) | Err(error: Error)

  newtype byte = x: int | 0 <= x < 256

  /** The errors after which the source closes the socket and drops it from
      the pool of open sockets before raising. */
  predicate ClosesSocket(e: Error)
  {
    e.NoServerAnswer? || e.BadStatusLine? || e.MissingLocation? ||
    e.TooManyRedirects? || e.BadChunkSize? || e.BadGzip?
  }
}
