/** What several of the models share. */
module Common {

  datatype Option<T> = None | Some(value: T)

  function Abs(x: int): nat { if x < 0 then -x else x }

  // error numbers, returned negated
  const EIO := 5         // for a bus: whatever error it reports
  const E2BIG := 7
  const EAGAIN := 11
  const ENOMEM := 12
  const ENODEV := 19
  const EINVAL := 22
  const EDOM := 33
  const ERANGE := 34
}
