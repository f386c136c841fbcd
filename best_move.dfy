/// getAnalysis.ts and worker/analysis.ts: the move to play is picked from
/// the engine's score vector, whose last entry is the pass. The two files
/// hold the same loop.
module BestMoves {
  import opened ExtReals

  /// What the analysis hands back: the scores, unchanged, and the pick.
  datatype Analysis = Analysis(analysis: seq<ExtReal>, bestMove: int)

  /// The argmax loop. It starts at the pass entry and moves only on a
  /// strictly greater score, so a tie with the pass entry passes and, among
  /// the other entries, the first maximum wins. An empty vector leaves the
  /// pick at -1 (the index `length - 1`).
  method GetAnalysis(analysis: seq<ExtReal>) returns (r: Analysis)
    ensures r.analysis == analysis
    ensures |analysis| == 0 ==> r.bestMove == -1
    ensures |analysis| > 0 ==> 0 <= r.bestMove < |analysis|
    ensures |analysis| > 0 ==> forall k :: 0 <= k < |analysis| ==> Le(analysis[k], analysis[r.bestMove])
    ensures |analysis| > 0 ==>
      (r.bestMove == |analysis| - 1 <==> forall k :: 0 <= k < |analysis| ==> Le(analysis[k], analysis[|analysis| - 1]))
    ensures |analysis| > 0 && r.bestMove < |analysis| - 1 ==>
      forall k :: 0 <= k < r.bestMove ==> Lt(analysis[k], analysis[r.bestMove])
  {
    if |analysis| == 0 {
      // `analysis[-1]` is undefined, and no comparison with it holds.
      return Analysis(analysis, -1);
    }
    var pass := |analysis| - 1;
    var bestMove := pass;
    var bestScore := analysis[bestMove];
    var n := 0;
    while n < |analysis|
      invariant 0 <= n <= |analysis| && 0 <= bestMove < |analysis| && bestScore == analysis[bestMove]
      invariant forall k :: 0 <= k < n ==> Le(analysis[k], bestScore)
      invariant Le(analysis[pass], bestScore)
      invariant bestMove == pass || (bestMove < n && Lt(analysis[pass], bestScore))
      invariant bestMove < pass ==> forall k :: 0 <= k < bestMove ==> Lt(analysis[k], bestScore)
    {
      var score := analysis[n];
      if Lt(bestScore, score) {
        forall k | 0 <= k < n ensures Lt(analysis[k], score) {
          LeTransitive(analysis[k], bestScore, score);
        }
        bestScore := score;
        bestMove := n;
      } else {
        LeTotal(score, bestScore);
      }
      n := n + 1;
    }
    return Analysis(analysis, bestMove);
  }
}
