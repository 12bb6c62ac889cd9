/** A scan once around n places that starts just past the place used last. */
module Rotation {
  /** The place looked at in turn j. The place used last may also be -1, for none. */
  function Turn(n: nat, last: int, j: nat): nat
    requires -1 <= last < n && j < n
  {
    var k := j + last + 1;
    if k < n then k else k - n
  }

  lemma TurnIsModulo(n: nat, last: int, j: nat)
    requires -1 <= last < n && j < n
    ensures (j + last + 1) % n == Turn(n, last, j)
  {
  }

  lemma TurnOf(n: nat, last: int, i: nat) returns (j: nat)
    requires -1 <= last < n && i < n
    ensures j < n && Turn(n, last, j) == i
  {
    j := if i > last then i - last - 1 else i + n - last - 1;
  }
}
