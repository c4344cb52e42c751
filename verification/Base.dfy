/** Small types shared by the components. */
module Base {
  datatype Option<T> = None | Some(value: T)

  type Byte = x: int | 0 <= x < 256
}
