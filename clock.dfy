/** The timestamp source. `get_dt()` reads the wall clock; here it is a
    logical counter whose every reading is strictly later than all earlier
    ones, the property the invalidation rule relies on. */
module Clocks {

  class Clock {
    /** The latest reading handed out (0 before the first). */
    var now: nat

    constructor ()
      ensures now == 0
    {
      now := 0;
    }

    /** `get_dt()`: a fresh timestamp, later than every earlier reading. */
    method Read() returns (t: nat)
      modifies this
      ensures t == now && now == old(now) + 1
    {
      now := now + 1;
      t := now;
    }
  }
}
