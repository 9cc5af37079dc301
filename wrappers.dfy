/** An optional value: what JavaScript expresses with `null` or a failed
    `match`. */
module Wrappers {

  datatype Option<+T> = None | Some(value: T)
}
