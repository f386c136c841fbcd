/// The host's server graph, as `ns.scan` reveals it: each server's
/// neighbours, for a finite set of servers that `scan` never leaves.
module Reachability {
  type Network = map<string, seq<string>>

  /// Every neighbour `scan` reports is itself a server of the network,
  /// and "home" is one.
  predicate ScanClosed(network: Network)
  {
    && "home" in network
    && forall s, t :: s in network && t in network[s] ==> t in network
  }

  /// `path` starts at "home" and follows `scan` edges.
  ghost predicate IsScanPath(network: Network, path: seq<string>)
  {
    && |path| > 0 && path[0] == "home"
    && forall i :: 0 <= i < |path| - 1 ==> path[i] in network && path[i + 1] in network[path[i]]
  }

  /// `s` can be reached from "home" through `scan`.
  ghost predicate Reachable(network: Network, s: string)
  {
    exists path :: IsScanPath(network, path) && path[|path| - 1] == s
  }

  lemma HomeReachable(network: Network)
    ensures Reachable(network, "home")
  {
    assert IsScanPath(network, ["home"]);
  }

  /// A neighbour of a reachable server is reachable.
  lemma ReachableStep(network: Network, s: string, t: string)
    requires Reachable(network, s) && s in network && t in network[s]
    ensures Reachable(network, t)
  {
    var path :| IsScanPath(network, path) && path[|path| - 1] == s;
    var longer := path + [t];
    assert IsScanPath(network, longer);
  }

  /// `found` holds "home" and is closed under `scan`.
  ghost predicate ClosedFromHome(network: Network, found: set<string>)
  {
    && "home" in found
    && forall s, t :: s in found && s in network && t in network[s] ==> t in found
  }

  /// A set closed under `scan` that holds "home" holds every reachable
  /// server.
  lemma ClosedHoldsReachable(network: Network, found: set<string>, s: string)
    requires ClosedFromHome(network, found) && Reachable(network, s)
    ensures s in found
  {
    var path :| IsScanPath(network, path) && path[|path| - 1] == s;
    PathInside(network, found, path, |path| - 1);
  }

  lemma {:induction false} PathInside(network: Network, found: set<string>, path: seq<string>, k: nat)
    requires ClosedFromHome(network, found) && IsScanPath(network, path) && k < |path|
    ensures path[k] in found
  {
    if k > 0 {
      PathInside(network, found, path, k - 1);
    }
  }

  /// The servers reachable from "home".
  ghost function ReachableSet(network: Network): set<string>
  {
    set s | s in network && Reachable(network, s)
  }

  /// A set of reachable servers that holds "home" and is closed under
  /// `scan` is exactly the reachable set.
  lemma ExactlyReachable(network: Network, found: set<string>)
    requires ScanClosed(network) && ClosedFromHome(network, found)
    requires forall s :: s in found ==> s in network && Reachable(network, s)
    ensures found == ReachableSet(network)
  {
    forall s | s in ReachableSet(network) ensures s in found {
      ClosedHoldsReachable(network, found, s);
    }
  }
}
