/** The nullable value of the TypeScript source (`T | null`) as an option. */
module Wrappers {

  datatype Option<+T> = None | Some(value: T)
}
