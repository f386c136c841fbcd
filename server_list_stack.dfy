/// farmburn/src/network/getServerList.ts: every server reachable from
/// "home", found with an array used as a stack. A server can be pushed
/// more than once before it is scanned; popping it again scans it again,
/// which adds nothing new to the result.
module ServerListStack {
  import opened Reachability

  /// 0 when the top of the stack has not been scanned yet, 1 otherwise:
  /// popping a scanned server either shrinks the stack or leaves an
  /// unscanned server on top, which the next pop scans.
  function TopScanned(stack: seq<string>, scanned: set<string>): nat
  {
    if |stack| > 0 && stack[|stack| - 1] !in scanned then 0 else 1
  }

  /// What the loop keeps: the stack and the scanned set hold reachable
  /// servers, "home" is in one of them, and every neighbour of a scanned
  /// server is scanned or on the stack.
  ghost predicate StackFrontier(network: Network, stack: seq<string>, scanned: set<string>)
  {
    && (forall s :: s in stack ==> s in network && Reachable(network, s))
    && (forall s :: s in scanned ==> s in network && Reachable(network, s))
    && ("home" in scanned || "home" in stack)
    && (forall s, t :: s in scanned && s in network && t in network[s] ==> t in scanned || t in stack)
  }

  /// `getServerList`, given the network `scan` walks: exactly the servers
  /// reachable from "home".
  method GetServerList(network: Network) returns (scannedServers: set<string>)
    requires ScanClosed(network)
    ensures "home" in scannedServers
    ensures forall s :: s in scannedServers ==> s in network && Reachable(network, s)
    ensures forall s, t :: s in scannedServers && t in network[s] ==> t in scannedServers
    ensures scannedServers == ReachableSet(network)
  {
    var unscannedServers: seq<string> := ["home"];
    scannedServers := {};
    HomeReachable(network);
    while |unscannedServers| > 0
      invariant StackFrontier(network, unscannedServers, scannedServers)
      decreases |network.Keys - scannedServers|, TopScanned(unscannedServers, scannedServers), |unscannedServers|
    {
      ghost var before, stackBefore := scannedServers, unscannedServers;
      var serverToScan := unscannedServers[|unscannedServers| - 1];
      assert serverToScan in unscannedServers;
      unscannedServers := unscannedServers[..|unscannedServers| - 1];
      ghost var popped := unscannedServers;
      assert stackBefore == popped + [serverToScan];
      scannedServers := scannedServers + {serverToScan};
      unscannedServers := PushNeighbours(network, serverToScan, scannedServers, unscannedServers);
      FrontierStep(network, before, popped, serverToScan, unscannedServers);
    }
    ExactlyReachable(network, scannedServers);
  }

  /// The inner loop of `getServerList`: every neighbour of `s` that is not
  /// scanned yet is pushed, in order.
  method PushNeighbours(network: Network, s: string, scanned: set<string>, stack: seq<string>) returns (pushed: seq<string>)
    requires ScanClosed(network) && s in network && Reachable(network, s)
    requires forall t :: t in stack ==> t in network && Reachable(network, t)
    ensures stack <= pushed
    ensures forall t :: t in pushed ==> t in network && Reachable(network, t)
    ensures forall t :: t in network[s] ==> t in scanned || t in pushed
    ensures |pushed| > |stack| ==> pushed[|pushed| - 1] !in scanned
  {
    pushed := stack;
    var neighbours := network[s];
    for i := 0 to |neighbours|
      invariant stack <= pushed
      invariant forall t :: t in pushed ==> t in network && Reachable(network, t)
      invariant forall j :: 0 <= j < i ==> neighbours[j] in scanned || neighbours[j] in pushed
      invariant |pushed| > |stack| ==> pushed[|pushed| - 1] !in scanned
    {
      var server := neighbours[i];
      assert server in network[s];
      if server !in scanned {
        ReachableStep(network, s, server);
        pushed := pushed + [server];
      }
    }
    forall t | t in network[s] ensures t in scanned || t in pushed {
      var j :| 0 <= j < |neighbours| && neighbours[j] == t;
    }
  }

  /// One round of the loop keeps the frontier, and either scans a new
  /// server or pops a scanned one: a server just pushed is unscanned, and
  /// otherwise the stack is shorter.
  lemma FrontierStep(network: Network, before: set<string>, popped: seq<string>, s: string, stack: seq<string>)
    requires s in network && StackFrontier(network, popped + [s], before)
    requires popped <= stack
    requires forall t :: t in stack ==> t in network && Reachable(network, t)
    requires forall t :: t in network[s] ==> t in before + {s} || t in stack
    requires |stack| > |popped| ==> stack[|stack| - 1] !in before + {s}
    ensures StackFrontier(network, stack, before + {s})
    ensures s !in before ==> |network.Keys - (before + {s})| < |network.Keys - before|
    ensures s in before ==> (before + {s} == before && TopScanned(popped + [s], before) == 1
      && (TopScanned(stack, before) == 0 || |stack| < |popped + [s]|))
  {
    assert s in popped + [s];
    if "home" in popped + [s] && "home" != s {
      assert "home" in popped;
      var k :| 0 <= k < |popped| && popped[k] == "home";
      assert stack[k] == "home";
    }
    StillClosed(network, before, popped, s, stack);
    if s !in before {
      StrictSubsetSmaller(network.Keys - (before + {s}), network.Keys - before);
    } else if |stack| > |popped| {
      assert before + {s} == before;
    } else {
      assert stack == popped;
    }
  }

  /// Popping `s` off `popped + [s]`, scanning it and pushing its unscanned
  /// neighbours keeps every neighbour of a scanned server scanned or on
  /// the stack.
  lemma StillClosed(network: Network, before: set<string>, popped: seq<string>, s: string, stack: seq<string>)
    requires s in network
    requires forall a, t :: a in before && a in network && t in network[a] ==> t in before || t in popped + [s]
    requires popped <= stack
    requires forall t :: t in network[s] ==> t in before + {s} || t in stack
    ensures forall a, t :: a in before + {s} && a in network && t in network[a] ==> t in before + {s} || t in stack
  {
    forall a, t | a in before + {s} && a in network && t in network[a] ensures t in before + {s} || t in stack {
      if a != s && t in popped {
        var k :| 0 <= k < |popped| && popped[k] == t;
        assert stack[k] == t;
      }
    }
  }

  lemma StrictSubsetSmaller(a: set<string>, b: set<string>)
    requires a < b
    ensures |a| < |b|
  {
    var extra := b - a;
    assert b == a + extra && a * extra == {};
    assert |extra| > 0;
  }
}
