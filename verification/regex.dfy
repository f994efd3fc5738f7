/**
 * Regular expressions enter the model as functions: the engine is not
 * modelled, only the shape of what a match hands back to the caller.
 */
module Regex {
  import opened Wrappers

  /** The result of `text.match(re)` for a pattern whose capture group may not take part. */
  datatype RegexMatch = RegexMatch(whole: string, group: Option<string>)

  /** `text.match(re)` where only the match matters (`match[0]`, `match[1]`). */
  type Matcher = string -> Option<RegexMatch>

  /** `text.match(re)?.[1]` for a pattern whose group always takes part in a match. */
  type Capture = string -> Option<string>

  /** All non-overlapping matches of a global pattern, left to right. */
  type Scanner = string -> seq<string>
}
