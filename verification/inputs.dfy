/** Player input. Each tick the key poll yields a direction or nothing;
    keys that map to no direction read as nothing. */
module Inputs {

  datatype Option<T> = None | Some(value: T)
}
