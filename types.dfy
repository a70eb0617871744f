/** Value types shared by the mock DRM and crypto plugins. */
module DrmTypes {

  /** An unsigned 8-bit value, as held by the plugin's byte vectors. */
  newtype byte = x: int | 0 <= x < 256

  /** A C `int`: the license type is cast to one before it is printed with `%d`. */
  newtype int32 = x: int | -0x8000_0000 <= x < 0x8000_0000

  /** The two status codes the plugin ever returns. */
  datatype Status = Ok | BadValue

  datatype Option<T> = None | Some(value: T)
}
