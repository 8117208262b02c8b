/** The URL parser of the JavaScript runtime (`new URL(s)`, the WHATWG URL
    Standard) is not modelled: callers receive it as a partial function from a
    string to the parsed parts they read. */
module Urls {
  import opened Wrappers

  /** A parsed URL. `protocol` keeps its trailing `:`, `userinfo` its trailing
      `@` and `port` its leading `:` when they are present. */
  datatype Url = Url(
    protocol: string,
    userinfo: string,
    hostname: string,
    port: string,
    pathname: string,
    search: string,
    hash: string)

  /** `url.toString()`: the serialization of the parts. */
  function Href(u: Url): string
  {
    u.protocol + "//" + u.userinfo + u.hostname + u.port + u.pathname + u.search + u.hash
  }

  /** `new URL(s)`: `None` where the constructor throws. */
  type UrlParser = string -> Option<Url>
}
