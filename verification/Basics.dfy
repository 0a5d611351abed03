/** What several modules share: optional values, and characters of a text with NUL past its end. */
module Basics {

  datatype Option<+T> = None | Some(value: T)

  function At(s: string, i: nat): char {
    if i < |s| then s[i] else '\0'
  }
}
