/** What the parts of the model share. */
module Common {

  datatype Option<T> = None | Some(value: T)

  /** The error numbers the module returns, negated. */
  const EFAULT: int := 14
  const EBUSY: int := 16
  const ENODEV: int := 19
  const EINVAL: int := 22

  /** enum EVENT_TYPE of first_layer/include/plugin.h. */
  datatype EventType = KeyPress | KeyRelease

  function Max(a: nat, b: nat): nat {
    if a < b then b else a
  }

  function Min(a: nat, b: nat): nat {
    if a < b then a else b
  }
}
