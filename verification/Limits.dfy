/** The number of processes, which the process table and the message queues share. */
module Limits {
  const NR_PROCS := 64
}
