/**
 The parts of Go's `url.URL` value. The redirector reads and rewrites only
 `scheme` and `path`; the other fields are carried along unchanged. Parsing
 (`url.Parse`) and rendering (`URL.String`) are not part of this model: the
 operations that need them take them as function parameters.
 */
module GoUrl {
  import opened Wrappers

  datatype URL = URL(
    scheme: string,
    opaquePart: string,
    user: string,
    host: string,
    path: string,
    rawPath: string,
    rawQuery: string,
    fragment: string)

  /** The shape of `url.Parse`: a URL, or the parser's error message. */
  type Parser = string -> Result<URL, string>

  /** The shape of `URL.String`. */
  type Renderer = URL -> string
}
