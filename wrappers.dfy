/** Small value types shared by the other modules. */
module Wrappers {

  /** An optional value; `None` also stands for a C# `null` reference. */
  datatype Option<+T> = None | Some(value: T) {

    /** The wrapped value, or `default` when there is none. */
    function GetOr(default: T): T {
      match this
      case Some(v) => v
      case None => default
    }
  }
}

/** Octets, as produced by text encoders and consumed by the Base64 encoder. */
module Bytes {

  /** One octet, kept as an integer so that the encoders' arithmetic stays linear. */
  type Byte = x: int | 0 <= x < 256
}
