/**
 Compile-time limits of the kernel. PID_MAX and OPEN_MAX take the values of
 OS/161's kern/limits.h (that header is not part of this model);
 SYSTEM_OPEN_MAX is defined in include/proc.h as ten times OPEN_MAX.
 */
module Limits {

  /** Size of the pid slot table `proc_table`. */
  const PID_MAX: int := 32767

  /** Size of every process's descriptor array `process_file_table`. */
  const OPEN_MAX: int := 128

  /** Size of the system-wide `system_file_table`. */
  const SYSTEM_OPEN_MAX: int := 10 * OPEN_MAX

  /** Descriptors 0, 1 and 2 are the standard streams; allocation starts here. */
  const FIRST_FD: int := 3

  /** The pid of the kernel process `kproc`. */
  const KERNEL_PID: int := 1

  /** The first pid the ring scan of `pid_assign` may hand out. */
  const FIRST_USER_PID: int := 2
}
