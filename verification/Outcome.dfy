/** How a kernel routine can end. */
module Outcomes {

  /** `Ok` is a result, `Null` the NULL, -1 or false of the source, `Halt` a failing ASSERT or PANIC, after
      which the kernel does not go on. */
  datatype Outcome<+T> = Ok(value: T) | Null | Halt
}
