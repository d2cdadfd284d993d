/**
 Optional values, the errno codes this core reports, and the result type that
 replaces the source's "-1 plus *err" convention.
 */
module Errors {

  /** A possibly-NULL reference. */
  datatype Option<+T> = None | Some(value: T)

  /** The errno values the modelled system calls can report. */
  datatype Errno =
    | ESRCH   // no such process
    | ECHILD  // not a child of the caller
    | ENPROC  // process table full
    | ENOMEM  // allocation failure
    | EMFILE  // per-process descriptor table full
    | ENFILE  // system-wide file table full
    | EBADF   // bad descriptor
    | EFAULT  // copyout to user memory failed

  /** Either a value or the errno the source would store through `err`. */
  datatype Result<+T> = Ok(value: T) | Err(err: Errno)
}
