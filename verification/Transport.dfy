/** The update every transport hands to the dashboard. */
module Transport {
  import opened DirectWire
  import opened LastWrite

  datatype VariableUpdate = VariableUpdate(key: octets, valueType: int, value: Value, seqNo: uint64)

  function UpdateKey(u: VariableUpdate): octets { u.key }

  function Whole(u: VariableUpdate): VariableUpdate { u }

  type Observed = map<octets, VariableUpdate>

  /** What an observer that starts with nothing holds after seeing log. */
  ghost function MapOf(log: seq<VariableUpdate>): Observed
  {
    Latest(UpdateKey, Whole, log)
  }

  lemma MapOfConcat(a: seq<VariableUpdate>, b: seq<VariableUpdate>)
    ensures MapOf(a + b) == MapOf(a) + MapOf(b)
  {
    LatestConcat(UpdateKey, Whole, a, b);
  }

  lemma MapOfSnoc(log: seq<VariableUpdate>, u: VariableUpdate)
    ensures MapOf(log + [u]) == MapOf(log)[u.key := u]
  {
    LatestSnoc(UpdateKey, Whole, log, u);
  }

  lemma MapOfLast(log: seq<VariableUpdate>)
    requires log != []
    ensures MapOf(log) == MapOf(log[..|log| - 1])[log[|log| - 1].key := log[|log| - 1]]
  {
  }

  lemma {:induction false} MapOfKeys(log: seq<VariableUpdate>)
    ensures forall k :: k in MapOf(log) ==> MapOf(log)[k].key == k
  {
    if log != [] {
      var n := |log| - 1;
      MapOfKeys(log[..n]);
      MapOfLast(log);
    }
  }
}
