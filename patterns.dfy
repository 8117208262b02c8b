/** The regular expressions of the brand tools are not modelled: a pattern is
    its source text and its case flag, and matching is received as a
    parameter. */
module Patterns {

  datatype Regex = Regex(source: string, ignoreCase: bool)

  /** `regex.test(s)` for a regular expression without the `g` flag, which
      keeps no state between calls. */
  type RegexTest = (Regex, string) -> bool
}
