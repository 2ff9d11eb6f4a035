/** Endpoints, and the counting argument behind both searches for a dynamic port. */
module Ports {
  import opened Words
  import opened Counting

  datatype Endpoint = Endpoint(addr: U32, port: U16)

  const ANY := Endpoint(0, 0)
  const PCB_COUNT := 16
  const PORT_MIN := 49152
  const PORT_MAX := 65535

  /**
  As many distinct candidates as there are holders, one of whom holds none of them: some
  candidate is not held.
   */
  lemma SpareCandidate<T>(candidates: seq<T>, held: seq<T>, own: nat) returns (k: nat)
    requires Distinct(candidates) && |held| <= |candidates|
    requires own < |held| && held[own] !in candidates
    ensures k < |candidates| && candidates[k] !in held
  {
    var others := held[..own] + held[own + 1..];
    if forall i :: 0 <= i < |candidates| ==> candidates[i] in held {
      forall x | x in Elements(candidates)
        ensures x in Elements(others)
      {
        var j :| 0 <= j < |held| && held[j] == x;
        assert others[if j < own then j else j - 1] == x;
      }
      ElementCount(candidates);
      ElementCount(others);
      SubsetSize(Elements(candidates), Elements(others));
      assert false;
    }
    k :| 0 <= k < |candidates| && candidates[k] !in held;
  }
}
