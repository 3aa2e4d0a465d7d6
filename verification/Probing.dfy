/** Probe paths over a table of n slots: from a start, slot after slot, around the end. */
module Probing {

  function At(start: nat, k: nat, n: nat): (i: nat)
    requires start < n && k < n
    ensures i < n
  {
    if start + k < n then start + k else start + k - n
  }

  // Every slot is met by one probe.
  lemma AtReaches(start: nat, i: nat, n: nat) returns (k: nat)
    requires start < n && i < n
    ensures k < n && At(start, k, n) == i
  {
    k := if i >= start then i - start else i - start + n;
  }

  lemma AtInjective(start: nat, j: nat, k: nat, n: nat)
    requires start < n && j < n && k < n && At(start, j, n) == At(start, k, n)
    ensures j == k
  {
  }
}
