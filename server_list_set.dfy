/// serverburn/src/getServerList.ts: every server reachable from "home",
/// found with a worklist kept in a `Set`. A JavaScript `Set` iterates in
/// insertion order, so the worklist is a sequence without repeats and the
/// server scanned next is the oldest one in it.
module ServerListSet {
  import opened Reachability

  /// `set.add(x)` on an insertion-ordered set.
  function Add(s: seq<string>, x: string): (r: seq<string>)
    ensures forall y :: y in r <==> y in s || y == x
    ensures NoRepeats(s) ==> NoRepeats(r)
  {
    if x in s then s else s + [x]
  }

  predicate NoRepeats(s: seq<string>)
  {
    forall i, j :: 0 <= i < j < |s| ==> s[i] != s[j]
  }

  /// What the loop keeps: the two sets are disjoint servers reachable from
  /// "home", "home" is in one of them, and every neighbour of a scanned
  /// server is in one of them.
  ghost predicate Frontier(network: Network, unscanned: seq<string>, scanned: set<string>)
  {
    && NoRepeats(unscanned)
    && (forall s :: s in unscanned ==> s !in scanned && s in network && Reachable(network, s))
    && (forall s :: s in scanned ==> s in network && Reachable(network, s))
    && ("home" in scanned || "home" in unscanned)
    && (forall s, t :: s in scanned && t in network[s] ==> t in scanned || t in unscanned)
  }

  /// `getServerList`, given the network `scan` walks: exactly the servers
  /// reachable from "home".
  method GetServerList(network: Network) returns (scannedServers: set<string>)
    requires ScanClosed(network)
    ensures "home" in scannedServers
    ensures forall s :: s in scannedServers ==> s in network && Reachable(network, s)
    ensures forall s, t :: s in scannedServers && t in network[s] ==> t in scannedServers
    ensures scannedServers == ReachableSet(network)
  {
    var unscannedServers: seq<string> := ["home"];
    scannedServers := {};
    HomeReachable(network);
    while |unscannedServers| > 0
      invariant Frontier(network, unscannedServers, scannedServers)
      decreases network.Keys - scannedServers
    {
      var serverToScan := unscannedServers[0];
      assert serverToScan in unscannedServers;
      unscannedServers := unscannedServers[1..];
      scannedServers := scannedServers + {serverToScan};
      var neighbours := network[serverToScan];
      for i := 0 to |neighbours|
        invariant NoRepeats(unscannedServers)
        invariant forall s :: s in unscannedServers ==> s !in scannedServers && s in network && Reachable(network, s)
        invariant forall s, t :: s in scannedServers - {serverToScan} && t in network[s] ==> t in scannedServers || t in unscannedServers
        invariant forall j :: 0 <= j < i ==> neighbours[j] in scannedServers || neighbours[j] in unscannedServers
        invariant "home" in scannedServers || "home" in unscannedServers
      {
        var server := neighbours[i];
        assert server in network[serverToScan];
        if server !in scannedServers {
          ReachableStep(network, serverToScan, server);
          unscannedServers := Add(unscannedServers, server);
        }
      }
      forall t | t in network[serverToScan] ensures t in scannedServers || t in unscannedServers {
        var j :| 0 <= j < |neighbours| && neighbours[j] == t;
      }
    }
    ExactlyReachable(network, scannedServers);
  }
}
