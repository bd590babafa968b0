/** What several parts share: optional values, and lists without repeats. */
module Basics {

  datatype Option<+T> = None | Some(value: T)

  ghost predicate NoRepeats(s: seq<string>)
  {
    forall i, j | 0 <= i < j < |s| :: s[i] != s[j]
  }

  /** The parts one after the other. */
  ghost function Concat(parts: seq<seq<string>>): seq<string>
  {
    if parts == [] then [] else Concat(parts[..|parts| - 1]) + parts[|parts| - 1]
  }
}
