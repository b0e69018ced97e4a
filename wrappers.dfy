/** A nullable cell: `None` stands for pandas' missing-value marker (NaN / NaT). */
module Wrappers {

  datatype Option<+T> = None | Some(value: T)
}
