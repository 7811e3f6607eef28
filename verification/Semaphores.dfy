/**
 One semaphore object of kern/conc/semaphore_manager.c: its value and the environments blocked on it,
 oldest first (the source enqueues at the head of the list and dequeues at its tail).
 */
module Semaphores {

  datatype Sem<P> = Sem(value: int, queue: seq<P>) {

    /** waitSemaphore by `p` */
    function Wait(p: P): Sem<P> {
      if value - 1 < 0 then Sem(value - 1, queue + [p]) else Sem(value - 1, queue)
    }

    /** Does waitSemaphore block its caller? */
    predicate Blocks() {
      value - 1 < 0
    }

    /** Does signalSemaphore release somebody? */
    predicate Releases() {
      value + 1 <= 0
    }

    /** signalSemaphore; the released environment is the oldest, `queue[0]` */
    function Signal(): Sem<P>
      requires Releases() ==> queue != []
    {
      if Releases() then Sem(value + 1, queue[1..]) else Sem(value + 1, queue)
    }

    /** The queue is exactly as long as the value is below zero. */
    predicate Ok() {
      |queue| == if value < 0 then -value else 0
    }

    /** What the value would be had nobody been made to wait: the number of free places. */
    function Places(): int {
      value + |queue|
    }
  }
}
