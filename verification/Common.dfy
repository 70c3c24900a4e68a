/** Vocabulary shared by the execution modules. */
module Common {

  /** A SQL value that may be NULL. */
  datatype Option<+T> = None | Some(value: T)

  function Min(a: nat, b: nat): nat {
    if a < b then a else b
  }

  // The number of rows in a full chunk (src/include/guinsoodb/common/vector_size.hpp)
  const STANDARD_VECTOR_SIZE: nat := 1024
}
