/**
 * The job record and the two deque instantiations of jobs.c:
 * `process_queue` holds pids, `job_queue` holds `Job` records.
 * The deque header is not part of this model; a deque is modelled by the
 * sequence of its elements, front first, and its operations update that
 * sequence in place.
 */
module Jobs {

  /** An opaque OS process identifier (`pid_t`). */
  type Pid = int

  /**
   * A background job: its id, its own process queue (stored by value,
   * as the C struct copy does), one representative pid and the command text.
   */
  datatype Job = Job(jobId: int, pidQueue: seq<Pid>, pid: Pid, cmd: string)

  /** A double-ended queue; only the operations quash uses are modelled. */
  class Deque<T> {
    /** The elements, oldest (front) first. */
    var items: seq<T>

    /** `new_*_queue`: an empty queue. */
    constructor ()
      ensures items == []
    {
      items := [];
    }

    /** A copy of a queue holding `s` (a struct copy of a deque). */
    constructor Of(s: seq<T>)
      ensures items == s
    {
      items := s;
    }

    /** `push_back`: appends at the back. */
    method PushBack(x: T)
      modifies this
      ensures items == old(items) + [x]
    {
      items := items + [x];
    }

    /** `pop_front`: returns and removes the oldest element; popping an empty queue is a programming error. */
    method PopFront() returns (x: T)
      requires items != []
      modifies this
      ensures x == old(items)[0] && items == old(items)[1..]
    {
      x := items[0];
      items := items[1..];
    }

    /** `peek_front`: the oldest element, not removed. */
    method PeekFront() returns (x: T)
      requires items != []
      ensures x == items[0]
    {
      x := items[0];
    }

    /** `peek_back`: the newest element, not removed. */
    method PeekBack() returns (x: T)
      requires items != []
      ensures x == items[|items| - 1]
    {
      x := items[|items| - 1];
    }

    /** `length`: the number of elements. */
    method Length() returns (n: nat)
      ensures n == |items|
    {
      n := |items|;
    }

    /** `is_empty`: holds iff the length is 0. */
    method IsEmpty() returns (b: bool)
      ensures b <==> |items| == 0
    {
      b := |items| == 0;
    }
  }
}
