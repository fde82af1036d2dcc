/** The process table as every scheduler of proc.c sees it. */
module Procs {
  const NPROC := 64

  datatype ProcState = UNUSED | EMBRYO | SLEEPING | RUNNABLE | RUNNING | ZOMBIE
}
