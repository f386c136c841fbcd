/// farmburn/src/hack/basicHack.ts: how the scripts of one hack-weaken-
/// grow-weaken batch are placed on the servers of the network. The network
/// is the host's `Map`, given as its entries in insertion order; a server
/// is named by its position in that order. The RAM each operation of a
/// batch needs comes from the host and is a parameter.
module BasicHack {
  /// One entry of the network map: its key and the server's `maxRam`.
  datatype Server = Server(name: string, maxRam: real)

  /// The RAM kept free on "home".
  const HomeReservedRam: real := 256.0

  /// The operations of a batch, in the order they are placed.
  const Hack: nat := 0
  const FirstWeaken: nat := 1
  const Grow: nat := 2
  const SecondWeaken: nat := 3
  const Operations: nat := 4

  function Max(a: real, b: real): real
  {
    if a >= b then a else b
  }

  /// The RAM `simpleHWGW` may use on a server: all of it, except on "home",
  /// which keeps 256 free and never goes below 0.
  function Budget(s: Server): (r: real)
    ensures s.name == "home" ==> r >= 0.0 && (r == 0.0 || r == s.maxRam - HomeReservedRam)
    ensures s.name == "home" && s.maxRam >= HomeReservedRam ==> r == s.maxRam - HomeReservedRam
    ensures s.name != "home" ==> r == s.maxRam
  {
    if s.name != "home" then s.maxRam else Max(0.0, s.maxRam - HomeReservedRam)
  }

  function Budgets(servers: seq<Server>): (b: seq<real>)
    ensures |b| == |servers| && forall i :: 0 <= i < |servers| ==> b[i] == Budget(servers[i])
  {
    seq(|servers|, i requires 0 <= i < |servers| => Budget(servers[i]))
  }

  /// A batch in the making: entry `op` is the server operation `op` was
  /// placed on.
  type Batch = seq<nat>

  /// The RAM `batch` takes from server `i`.
  function BatchUse(batch: Batch, required: seq<real>, i: nat): real
    requires |batch| <= |required|
  {
    if batch == [] then 0.0
    else
      var op := |batch| - 1;
      BatchUse(batch[..op], required, i) + (if batch[op] == i then required[op] else 0.0)
  }

  /// The RAM all `batches` take from server `i`.
  function Used(batches: seq<Batch>, required: seq<real>, i: nat): real
    requires forall b :: 0 <= b < |batches| ==> |batches[b]| <= |required|
  {
    if batches == [] then 0.0
    else
      var n := |batches| - 1;
      Used(batches[..n], required, i) + BatchUse(batches[n], required, i)
  }

  /// With no operation needing negative RAM, nothing is ever given back.
  lemma {:induction false} BatchUseNonNegative(batch: Batch, required: seq<real>, i: nat)
    requires |batch| <= |required| && forall op :: 0 <= op < |required| ==> required[op] >= 0.0
    ensures BatchUse(batch, required, i) >= 0.0
  {
    if batch != [] {
      BatchUseNonNegative(batch[..|batch| - 1], required, i);
    }
  }

  /// Paging a cursor: the first server from `cursor` on with at least
  /// `required` RAM left, or the end of the network.
  method PageThrough(available: seq<real>, cursor: nat, required: real) returns (c: nat)
    requires cursor <= |available|
    ensures cursor <= c <= |available|
    ensures c < |available| ==> available[c] >= required
    ensures forall j :: cursor <= j < c ==> available[j] < required
  {
    c := cursor;
    while c < |available| && available[c] < required
      invariant cursor <= c <= |available|
      invariant forall j :: cursor <= j < c ==> available[j] < required
    {
      c := c + 1;
    }
  }

  /// How many more times `required` can still be taken from the server a
  /// cursor points at; it bounds the rounds in which that cursor stays.
  function Room(available: seq<real>, c: nat, required: real): int
    requires required > 0.0
  {
    if c < |available| && available[c] >= 0.0 then (available[c] / required).Floor else 0
  }

  lemma RoomDrops(a: real, b: real, r: real)
    requires r > 0.0 && 0.0 <= b <= a - r
    ensures 0 <= (b / r).Floor < (a / r).Floor
  {
    var x, y := b / r, a / r;
    assert x * r == b && y * r == a;
    if x < 0.0 {
      LessTimesPositive(x, 0.0, r);
    }
    assert (y - x) * r == a - b;
    if y - x < 1.0 {
      LessTimesPositive(y - x, 1.0, r);
    }
  }

  lemma LessTimesPositive(x: real, y: real, r: real)
    requires x < y && r > 0.0
    ensures x * r < y * r
  {
    assert y * r - x * r == (y - x) * r;
  }

  /// What one round of the loop does, from `available` and `cursors` to
  /// `after` and `moved`: each operation in turn pages its cursor forward to
  /// the first server with room and takes its RAM there, until one finds
  /// none; `pending` holds the servers taken, in operation order.
  ghost predicate Round(available: seq<real>, cursors: seq<nat>, required: seq<real>,
                        after: seq<real>, moved: seq<nat>, pending: Batch)
    requires |cursors| == Operations && |required| == Operations
  {
    && |after| == |available| && |moved| == Operations && |pending| <= Operations
    && (forall op :: 0 <= op < Operations ==> cursors[op] <= moved[op] <= |available|)
    && (forall op :: 0 <= op < |pending| ==> pending[op] == moved[op] < |available|)
    && (forall op :: |pending| < op < Operations ==> moved[op] == cursors[op])
    && (|pending| < Operations ==> moved[|pending|] == |available|)
    && (forall i :: 0 <= i < |available| ==> after[i] == available[i] - BatchUse(pending, required, i))
    && (forall i :: 0 <= i < |available| ==> after[i] <= available[i])
    && (forall i :: 0 <= i < |available| ==> after[i] >= 0.0 || after[i] == available[i])
    && (forall op :: 0 <= op < |pending| ==> 0.0 <= after[pending[op]] <= available[pending[op]] - required[op])
    && (forall op, j :: 0 <= op < Operations && 0 <= j < moved[op] ==> after[j] < required[op])
  }

  /// Partway through a round: the first `|pending|` operations are placed
  /// and the cursors of the others have not moved.
  ghost predicate Partway(available: seq<real>, cursors: seq<nat>, required: seq<real>,
                          after: seq<real>, moved: seq<nat>, pending: Batch)
    requires |cursors| == Operations && |required| == Operations
  {
    && |after| == |available| && |moved| == Operations && |pending| <= Operations
    && (forall o :: 0 <= o < Operations ==> cursors[o] <= moved[o] <= |available|)
    && (forall o :: |pending| <= o < Operations ==> moved[o] == cursors[o])
    && (forall o :: 0 <= o < |pending| ==> pending[o] == moved[o] < |available|)
    && (forall i :: 0 <= i < |available| ==> after[i] == available[i] - BatchUse(pending, required, i))
    && (forall i :: 0 <= i < |available| ==> after[i] <= available[i])
    && (forall i :: 0 <= i < |available| ==> after[i] >= 0.0 || after[i] == available[i])
    && (forall o :: 0 <= o < |pending| ==> 0.0 <= after[pending[o]] <= available[pending[o]] - required[o])
    && (forall o, j :: 0 <= o < Operations && 0 <= j < moved[o] ==> after[j] < required[o])
  }

  /// Operation `|pending|` placed on server `c`, the first with room from
  /// its cursor on.
  lemma PlaceStep(available: seq<real>, cursors: seq<nat>, required: seq<real>,
                  after: seq<real>, moved: seq<nat>, pending: Batch, c: nat)
    requires |cursors| == Operations && |required| == Operations
    requires forall o :: 0 <= o < Operations ==> required[o] >= 0.0
    requires Partway(available, cursors, required, after, moved, pending) && |pending| < Operations
    requires moved[|pending|] <= c < |available| && after[c] >= required[|pending|]
    requires forall j :: moved[|pending|] <= j < c ==> after[j] < required[|pending|]
    ensures Partway(available, cursors, required, after[c := after[c] - required[|pending|]],
                    moved[|pending| := c], pending + [c])
  {
    var op := |pending|;
    var after', moved', pending' := after[c := after[c] - required[op]], moved[op := c], pending + [c];
    assert pending'[..op] == pending;
    BatchUseNonNegative(pending, required, c);
    forall i | 0 <= i < |available| ensures after'[i] == available[i] - BatchUse(pending', required, i) {
    }
    forall o | 0 <= o < |pending'| ensures 0.0 <= after'[pending'[o]] <= available[pending'[o]] - required[o] {
      if o < op {
        assert pending'[o] == pending[o];
      }
    }
  }

  /// Operation `|pending|` finding no server ends the round.
  lemma StopRound(available: seq<real>, cursors: seq<nat>, required: seq<real>,
                  after: seq<real>, moved: seq<nat>, pending: Batch)
    requires |cursors| == Operations && |required| == Operations
    requires Partway(available, cursors, required, after, moved, pending) && |pending| < Operations
    requires forall j :: moved[|pending|] <= j < |available| ==> after[j] < required[|pending|]
    ensures Round(available, cursors, required, after, moved[|pending| := |available|], pending)
  {
  }

  /// One round of `simpleHWGW`'s loop, the four paging loops and
  /// deductions of its body.
  method PlaceBatch(available: seq<real>, cursors: seq<nat>, required: seq<real>)
    returns (after: seq<real>, moved: seq<nat>, pending: Batch)
    requires |cursors| == Operations && |required| == Operations
    requires forall op :: 0 <= op < Operations ==> required[op] >= 0.0 && cursors[op] <= |available|
    requires forall op, j :: 0 <= op < Operations && 0 <= j < cursors[op] ==> available[j] < required[op]
    ensures Round(available, cursors, required, after, moved, pending)
  {
    after, moved, pending := available, cursors, [];
    var n := |available|;
    for op := 0 to Operations
      invariant |pending| == op
      invariant Partway(available, cursors, required, after, moved, pending)
    {
      var c := PageThrough(after, moved[op], required[op]);
      if c == n {
        StopRound(available, cursors, required, after, moved, pending);
        moved := moved[op := c];
        return;
      }
      PlaceStep(available, cursors, required, after, moved, pending, c);
      after, moved, pending := after[c := after[c] - required[op]], moved[op := c], pending + [c];
    }
  }

  /// What holds at the head of `simpleHWGW`'s loop.
  ghost predicate Placed(servers: seq<Server>, required: seq<real>, batches: seq<Batch>, cursors: seq<nat>, available: seq<real>)
  {
    && |required| == Operations
    && |available| == |servers| && |cursors| == Operations
    && (forall op :: 0 <= op < Operations ==> cursors[op] <= |servers|)
    && (forall b :: 0 <= b < |batches| ==> |batches[b]| == Operations)
    && (forall b, op :: 0 <= b < |batches| && 0 <= op < Operations ==> batches[b][op] <= cursors[op] && batches[b][op] < |servers|)
    && (forall i :: 0 <= i < |servers| ==> available[i] == Budget(servers[i]) - Used(batches, required, i))
    && (forall i :: 0 <= i < |servers| ==> available[i] >= 0.0 || available[i] == Budget(servers[i]))
    && (forall op, j :: 0 <= op < Operations && 0 <= j < cursors[op] ==> available[j] < required[op])
    && (forall b1, b2, op :: 0 <= b1 < b2 < |batches| && 0 <= op < Operations ==> batches[b1][op] <= batches[b2][op])
  }

  /// A complete round records its batch and keeps the loop's facts.
  lemma NextRound(servers: seq<Server>, required: seq<real>, batches: seq<Batch>, cursors: seq<nat>, available: seq<real>,
                  after: seq<real>, moved: seq<nat>, pending: Batch)
    requires Placed(servers, required, batches, cursors, available)
    requires Round(available, cursors, required, after, moved, pending) && |pending| == Operations
    ensures Placed(servers, required, batches + [pending], moved, after)
  {
    var all := batches + [pending];
    var n := |servers|;
    assert all[..|batches|] == batches && all[|batches|] == pending;
    forall b | 0 <= b < |all| ensures |all[b]| == Operations && forall op :: 0 <= op < Operations ==> all[b][op] <= moved[op] && all[b][op] < n {
      if b < |batches| {
        assert all[b] == batches[b];
      }
    }
    forall i | 0 <= i < n ensures after[i] == Budget(servers[i]) - Used(all, required, i) {
      assert Used(all, required, i) == Used(batches, required, i) + BatchUse(pending, required, i);
    }
    forall b1, b2, op | 0 <= b1 < b2 < |all| && 0 <= op < Operations ensures all[b1][op] <= all[b2][op] {
      assert all[b1] == batches[b1];
      if b2 < |batches| {
        assert all[b2] == batches[b2];
      }
    }
  }

  /// Before the first round nothing is placed.
  lemma FirstRound(servers: seq<Server>, required: seq<real>, available: seq<real>)
    requires |required| == Operations && available == Budgets(servers)
    ensures Placed(servers, required, [], [0, 0, 0, 0], available)
  {
  }

  /// A complete round moves the cursor of an operation that needs RAM
  /// forward, or takes that RAM once more from the server it points at.
  lemma RoundProgress(available: seq<real>, cursors: seq<nat>, required: seq<real>,
                      after: seq<real>, moved: seq<nat>, pending: Batch, k: nat)
    requires |cursors| == Operations && |required| == Operations && k < Operations && required[k] > 0.0
    requires Round(available, cursors, required, after, moved, pending) && |pending| == Operations
    ensures cursors[k] <= moved[k] <= |available|
    ensures moved[k] == cursors[k] ==> 0 <= Room(after, moved[k], required[k]) < Room(available, cursors[k], required[k])
  {
    if moved[k] == cursors[k] {
      var c := cursors[k];
      assert pending[k] == c < |available| && 0.0 <= after[c] <= available[c] - required[k];
      RoomDrops(available[c], after[c], required[k]);
    }
  }

  /// A round cut short ends the loop with the promised results.
  lemma LastRound(servers: seq<Server>, required: seq<real>, batches: seq<Batch>, cursors: seq<nat>, available: seq<real>,
                  after: seq<real>, moved: seq<nat>, pending: Batch)
    requires Placed(servers, required, batches, cursors, available)
    requires Round(available, cursors, required, after, moved, pending) && |pending| < Operations
    ensures |after| == |servers|
    ensures forall b :: 0 <= b < |batches| ==> |batches[b]| == Operations
    ensures forall b, op :: 0 <= b < |batches| && 0 <= op < Operations ==> batches[b][op] < |servers|
    ensures forall op :: 0 <= op < |pending| ==> pending[op] < |servers|
    ensures forall i :: 0 <= i < |servers| ==>
      after[i] == Budget(servers[i]) - Used(batches, required, i) - BatchUse(pending, required, i)
    ensures forall i :: 0 <= i < |servers| ==> after[i] >= 0.0 || after[i] == Budget(servers[i])
    ensures forall b, op, j :: 0 <= b < |batches| && 0 <= op < Operations && 0 <= j < batches[b][op] && j < |after| ==> after[j] < required[op]
    ensures forall op, j :: 0 <= op < |pending| && 0 <= j < pending[op] ==> after[j] < required[op]
    ensures forall b1, b2, op :: 0 <= b1 < b2 < |batches| && 0 <= op < Operations ==> batches[b1][op] <= batches[b2][op]
    ensures forall b, op :: 0 <= b < |batches| && 0 <= op < |pending| ==> batches[b][op] <= pending[op]
    ensures forall j :: 0 <= j < |servers| ==> after[j] < required[|pending|]
  {
    forall b, op | 0 <= b < |batches| && 0 <= op < Operations ensures batches[b][op] < |servers| {
      assert batches[b][op] <= cursors[op] && batches[b][op] < |servers|;
    }
  }

  /// If no operation needs RAM, a batch takes nothing from a server.
  lemma {:induction false} BatchUseZero(batch: Batch, required: seq<real>, i: nat)
    requires |batch| <= |required| && forall op :: 0 <= op < |required| ==> required[op] == 0.0
    ensures BatchUse(batch, required, i) == 0.0
  {
    if batch != [] {
      BatchUseZero(batch[..|batch| - 1], required, i);
    }
  }

  /// Nor do any number of batches.
  lemma {:induction false} UsedZero(batches: seq<Batch>, required: seq<real>, i: nat)
    requires forall b :: 0 <= b < |batches| ==> |batches[b]| <= |required|
    requires forall op :: 0 <= op < |required| ==> required[op] == 0.0
    ensures Used(batches, required, i) == 0.0
  {
    if batches != [] {
      var n := |batches| - 1;
      UsedZero(batches[..n], required, i);
      BatchUseZero(batches[n], required, i);
    }
  }

  /// As written, with all four operations needing no RAM the loop never
  /// ends on a network with a server: from any state the loop reaches,
  /// a round places a complete batch on the first server and leaves the
  /// RAM and the cursors as they were, so the next round is the same.
  lemma ZeroRamRoundRepeats(servers: seq<Server>, required: seq<real>, batches: seq<Batch>, cursors: seq<nat>,
                            available: seq<real>, after: seq<real>, moved: seq<nat>, pending: Batch)
    requires required == [0.0, 0.0, 0.0, 0.0] && |servers| > 0
    requires forall i :: 0 <= i < |servers| ==> servers[i].maxRam >= 0.0
    requires Placed(servers, required, batches, cursors, available)
    requires Round(available, cursors, required, after, moved, pending)
    ensures |pending| == Operations && pending == [0, 0, 0, 0]
    ensures after == available && moved == cursors == [0, 0, 0, 0]
  {
    forall i | 0 <= i < |servers| ensures available[i] == Budget(servers[i]) >= 0.0 {
      UsedZero(batches, required, i);
    }
    forall i | 0 <= i < |servers| ensures after[i] == available[i] {
      BatchUseZero(pending, required, i);
    }
    forall op | 0 <= op < Operations ensures moved[op] == 0 {
      assert after[0] >= required[op];
    }
    assert pending == [0, 0, 0, 0];
  }

  /// `simpleHWGW`'s placement loop, given the RAM each operation needs.
  /// Returns the complete batches, the reservations of the batch that was
  /// cut short (deducted but never started) and the RAM left per server.
  method SimpleHwgw(servers: seq<Server>, required: seq<real>)
    returns (batches: seq<Batch>, stranded: Batch, available: seq<real>)
    requires forall i, j :: 0 <= i < j < |servers| ==> servers[i].name != servers[j].name
    requires |required| == Operations && forall op :: 0 <= op < Operations ==> required[op] >= 0.0
    requires exists op :: 0 <= op < Operations && required[op] > 0.0
    ensures |available| == |servers|
    ensures forall b :: 0 <= b < |batches| ==> |batches[b]| == Operations
    ensures |stranded| < Operations
    ensures forall b, op :: 0 <= b < |batches| && 0 <= op < Operations ==> batches[b][op] < |servers|
    ensures forall op :: 0 <= op < |stranded| ==> stranded[op] < |servers|
    // Every reservation, the stranded ones included, is taken from the budget.
    ensures forall i :: 0 <= i < |servers| ==>
      available[i] == Budget(servers[i]) - Used(batches, required, i) - BatchUse(stranded, required, i)
    // RAM is taken only where enough is left.
    ensures forall i :: 0 <= i < |servers| ==> available[i] >= 0.0 || available[i] == Budget(servers[i])
    // First fit: a server before the one an operation was placed on has too
    // little RAM left for it.
    ensures forall b, op, j :: 0 <= b < |batches| && 0 <= op < Operations && 0 <= j < batches[b][op] ==> available[j] < required[op]
    ensures forall op, j :: 0 <= op < |stranded| && 0 <= j < stranded[op] ==> available[j] < required[op]
    // Each operation's cursor only moves forward.
    ensures forall b1, b2, op :: 0 <= b1 < b2 < |batches| && 0 <= op < Operations ==> batches[b1][op] <= batches[b2][op]
    ensures forall b, op :: 0 <= b < |batches| && 0 <= op < |stranded| ==> batches[b][op] <= stranded[op]
    // The loop ends at an operation that fits on no server.
    ensures forall j :: 0 <= j < |servers| ==> available[j] < required[|stranded|]
  {
    ghost var k :| 0 <= k < Operations && required[k] > 0.0;
    var n := |servers|;
    available := Budgets(servers);
    var cursors: seq<nat> := [0, 0, 0, 0];
    batches := [];
    FirstRound(servers, required, available);
    while true
      invariant Placed(servers, required, batches, cursors, available)
      decreases n - cursors[k], Room(available, cursors[k], required[k])
    {
      var after, moved, pending := PlaceBatch(available, cursors, required);
      if |pending| < Operations {
        LastRound(servers, required, batches, cursors, available, after, moved, pending);
        stranded, available := pending, after;
        return;
      }
      NextRound(servers, required, batches, cursors, available, after, moved, pending);
      RoundProgress(available, cursors, required, after, moved, pending, k);
      batches, available, cursors := batches + [pending], after, moved;
    }
  }

  /// The RAM `simpleWeaken` uses on a server: all of it, except on "home",
  /// which keeps 256 free but is always offered at least 1.
  function WeakenRam(s: Server): (r: real)
    ensures s.name == "home" ==> r >= 1.0 && r >= s.maxRam - HomeReservedRam
    ensures s.name == "home" && s.maxRam >= HomeReservedRam + 1.0 ==> r == s.maxRam - HomeReservedRam
    ensures s.name != "home" ==> r == s.maxRam
  {
    if s.name == "home" then Max(1.0, s.maxRam - HomeReservedRam) else s.maxRam
  }

  /// `Math.floor(availableRam / weakenRamPer)`.
  function Threads(available: real, weakenRamPer: real): int
    requires weakenRamPer > 0.0
  {
    (available / weakenRamPer).Floor
  }

  /// The thread count is the most that fit: that many fit, one more does
  /// not, and it is positive exactly when one thread fits.
  lemma ThreadsMostThatFit(available: real, weakenRamPer: real)
    requires weakenRamPer > 0.0
    ensures Threads(available, weakenRamPer) as real * weakenRamPer <= available
    ensures available < (Threads(available, weakenRamPer) + 1) as real * weakenRamPer
    ensures Threads(available, weakenRamPer) > 0 <==> available >= weakenRamPer
  {
    var t := Threads(available, weakenRamPer);
    var q := available / weakenRamPer;
    assert q * weakenRamPer == available;
    assert t as real <= q < t as real + 1.0;
    var u := (t + 1) as real;
    assert u == t as real + 1.0;
    LessTimesPositive(q, u, weakenRamPer);
    assert available < u * weakenRamPer;
    if t as real < q {
      LessTimesPositive(t as real, q, weakenRamPer);
    }
    if q < 1.0 {
      LessTimesPositive(q, 1.0, weakenRamPer);
    }
    if t > 0 {
      assert 1.0 <= t as real;
      if 1.0 < t as real {
        LessTimesPositive(1.0, t as real, weakenRamPer);
      }
    }
  }

  /// One `weaken` script started by `simpleWeaken`.
  datatype Exec = Exec(server: string, threads: int)

  /// What `simpleWeaken` starts: one script per server that has room for
  /// at least one thread, in network order.
  function WeakenPlan(servers: seq<Server>, weakenRamPer: real): seq<Exec>
    requires weakenRamPer > 0.0
  {
    if servers == [] then []
    else
      var last := servers[|servers| - 1];
      var t := Threads(WeakenRam(last), weakenRamPer);
      WeakenPlan(servers[..|servers| - 1], weakenRamPer) + (if t > 0 then [Exec(last.name, t)] else [])
  }

  /// Every planned script runs on a server of the network with the most
  /// threads that fit, and every server with room for a thread gets one.
  lemma {:induction false} WeakenPlanCovers(servers: seq<Server>, weakenRamPer: real)
    requires weakenRamPer > 0.0
    ensures forall e :: e in WeakenPlan(servers, weakenRamPer) ==>
      e.threads > 0 && exists i :: (0 <= i < |servers| && servers[i].name == e.server
        && e.threads == Threads(WeakenRam(servers[i]), weakenRamPer))
    ensures forall i :: 0 <= i < |servers| && WeakenRam(servers[i]) >= weakenRamPer ==>
      Exec(servers[i].name, Threads(WeakenRam(servers[i]), weakenRamPer)) in WeakenPlan(servers, weakenRamPer)
  {
    if servers != [] {
      var front := servers[..|servers| - 1];
      WeakenPlanCovers(front, weakenRamPer);
      forall e | e in WeakenPlan(servers, weakenRamPer)
        ensures exists i :: (0 <= i < |servers| && servers[i].name == e.server
          && e.threads == Threads(WeakenRam(servers[i]), weakenRamPer))
      {
        if e in WeakenPlan(front, weakenRamPer) {
          var i :| 0 <= i < |front| && front[i].name == e.server && e.threads == Threads(WeakenRam(front[i]), weakenRamPer);
          assert servers[i] == front[i];
        } else {
          assert servers[|servers| - 1].name == e.server;
        }
      }
      forall i | 0 <= i < |servers| && WeakenRam(servers[i]) >= weakenRamPer
        ensures Exec(servers[i].name, Threads(WeakenRam(servers[i]), weakenRamPer)) in WeakenPlan(servers, weakenRamPer)
      {
        ThreadsMostThatFit(WeakenRam(servers[i]), weakenRamPer);
        if i < |front| {
          assert servers[i] == front[i];
        }
      }
    }
  }

  /// `simpleWeaken`, given the RAM one weaken thread needs.
  method SimpleWeaken(servers: seq<Server>, weakenRamPer: real) returns (execs: seq<Exec>)
    requires weakenRamPer > 0.0
    ensures execs == WeakenPlan(servers, weakenRamPer)
  {
    execs := [];
    for i := 0 to |servers|
      invariant execs == WeakenPlan(servers[..i], weakenRamPer)
    {
      var availableRam := servers[i].maxRam;
      if servers[i].name == "home" {
        availableRam := Max(1.0, availableRam - HomeReservedRam);
      }
      var weakenThreads := (availableRam / weakenRamPer).Floor;
      assert servers[..i + 1][..i] == servers[..i];
      if weakenThreads > 0 {
        execs := execs + [Exec(servers[i].name, weakenThreads)];
      }
    }
    assert servers[..|servers|] == servers;
  }
}
