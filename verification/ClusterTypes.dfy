/** What both models of a cluster node speak about. */
module ClusterTypes {

  import opened Collections

  /** Nodes are numbered in the order of their names. */
  type Id = nat

  datatype Role = Master | Slave(of: Option<Id>)

  /** max is the greatest of the cluster's own epoch and the epochs of the known nodes. */
  ghost predicate IsMaxEpoch(max: nat, current: nat, epochs: set<nat>) {
    && current <= max && (forall e :: e in epochs ==> e <= max)
    && (max == current || max in epochs)
  }

  lemma MaxEpochUnique(a: nat, b: nat, current: nat, epochs: set<nat>)
    requires IsMaxEpoch(a, current, epochs) && IsMaxEpoch(b, current, epochs)
    ensures a == b
  {
  }

  /** The rule of clusterBumpConfigEpochWithoutConsensus for a node's own epoch. */
  predicate MayBump(own: nat, max: nat) {
    own == 0 || own != max
  }
}
