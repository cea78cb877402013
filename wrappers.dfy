/** Missing cells. pandas marks an absent value with NaN/NaT/None; the model uses Option. */
module Wrappers {

  datatype Option<+T> = None | Some(value: T)
}
