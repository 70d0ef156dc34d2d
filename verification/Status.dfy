/** Status codes of the kernel, and optional values. */
module Status {
  const EIO := 1
  const EINVARG := 2
  const ENOMEM := 3
  const EFSNOTUS := 5
  const ERDONLY := 6
  const EUNIMP := 7

  datatype Option<T> = None | Some(value: T)
}
