/** What may go wrong in a call, and what must not in a call without faults. */
module Faults {

  /** Anything may fail, unless it is sure. */
  method Chance(sure: bool) returns (happens: bool)
    ensures sure ==> happens
  {
    happens := *;
    happens := happens || sure;
  }
}
