/** The random number interface. */
module Randoms {

  /** A random integer in [0, max]; nothing but its range is used. */
  method RandomInt(max: nat) returns (r: nat)
    ensures r <= max
  {
    r :| 0 <= r <= max;
  }
}
