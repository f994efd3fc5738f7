/**
 * The WHATWG `URL` constructor enters the model as a function: it either
 * rejects its input (where the constructor throws) or yields the parts the
 * callers read.
 */
module Url {
  import opened Wrappers

  /** What `new URL(s)` exposes to its callers: host name, path and the query pairs in order. */
  datatype ParsedUrl = ParsedUrl(hostname: string, pathname: string, search: seq<(string, string)>)

  /** `new URL(s)`: `None` where the constructor throws. */
  type UrlParser = string -> Option<ParsedUrl>
}
