/** The countdown timer the firmware takes from its timer library, seen as a deadline.
    `Timer(start, duration)` is a timer that was set to `duration` milliseconds at time `start`. */
module Timing {

  datatype Timer = Timer(start: int, duration: int) {

    /** The deadline has been reached. */
    predicate Passed(now: int) {
      now >= start + duration
    }

    /** Milliseconds since the timer was last set. */
    function Elapsed(now: int): int {
      now - start
    }
  }

}
