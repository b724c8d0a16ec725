/** The errors the library throws, and result types for operations that may throw. */
module Results {

  datatype Error =
    /** `latch` or `set` on a locked holder; carries the thrown message. */
    | AlreadyLocked(message: string)
    /** A timed `offer` gave up waiting for an unlock; carries the timeout in milliseconds. */
    | WaitTimeout(timeout: int)
    /** A backoff session reached its budget; carries `maxWait` in seconds. */
    | MaxWaitReached(maxWait: int)

  datatype Result<T> = Ok(value: T) | Err(error: Error)

  /** An optional argument: `None` stands for an argument left out (`undefined`). */
  datatype Option<T> = None | Some(value: T)
}
