/** The conventional Some/None datatype, used for fields a record may lack
    and for a value that may fail to be read. */
module Wrappers {

  datatype Option<+T> = None | Some(value: T)
}
