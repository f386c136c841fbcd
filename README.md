# ipfish, farmburn and serverburn cores in Dafny

This project models the deterministic logic of a set of scripts for the
Bitburner game, and proves properties of that model:

- **The Rust Go engine.** It covers:
  - the `Player` and `PointState` codes and a word-sized `BitSet`;
  - orthogonal adjacency on a flat `row * size + column` board;
  - group liberty counting, the "in atari relative to a known liberty" walk and the two self-capture tests;
  - `make_move`, `pass_move` and superko;
  - the legal-move sets of `get_legal_moves.rs` and of `lib.rs`, and `lib.rs`'s `get_analysis` vector;
  - stone scoring, area scoring with komi, and the board parser;
  - the alpha-beta and "helpless opponent" minimax strategies.

  `make_move` flips the side to move but places no stone. So every position a search reaches has the points of the root, and the searches are proved to return the root's final score.
- **The TypeScript side of ipfish.** It covers:
  - the test-text parser and the two host-string parsers, which transpose the host's column strings;
  - the `Game` history and `opponentPassed` state machine;
  - the best-move argmax, whose ties go to the pass slot (`getAnalysis.ts` and `worker/analysis.ts` hold the same loop, modelled once);
  - the `moveString` point names.
- **The heuristic engine in `go.js`.** Its `board[x][y]` grid is flattened to index `x * n + y`, with `null` for an offline point. It covers:
  - chains and their liberties, captures (the opponent's chains first) and the simulated move on a copy;
  - eye detection and disputed territory;
  - the 3 by 3 patterns with their rotations and mirrors;
  - the candidate move generators: surround, defend and growth, eye creation and blocking, corner, jump and expansion;
  - the per-point priority scores and the final choice between a move and a pass.
- **farmburn's `basicHack.ts`.** The first-fit RAM reservation with four forward-only cursors in `simpleHWGW`, and the thread split of `simpleWeaken`.
- **The server list walks.** serverburn's `Set` worklist and farmburn's stack worklist are both proved to return exactly the servers reachable from "home".

How state is modelled:
- An object whose fields change becomes a class:
  - `BitSet` holds a `bits` sequence;
  - `Game` holds its history.
- An in-place loop becomes a method proved against a specification function. Examples are the `updateChains` relabelling, the capture resolution, the pattern scan and the score table of `getPriorityMove`.
- Pure expression code becomes functions and lemmas.
- Host services become parameters:
  - `evaluateIfMoveIsValid` is a set `valid`, `scan` is a `Network` map, and `Math.random` is a `noise` sequence of draws in `[0, 0.001)`;
  - the host's answers to `makeMove` and `passTurn` are inputs;
  - the RAM figures and per-operation requirements are numbers.
- Scores, komi and RAM are exact reals. `f64` infinities are an extended-real type.

## Model

| member | source | states |
|---|---|---|
| Players.Player.Not | ipfish/rust/player.rs:9-17 | the other player, and the result always differs from its operand |
| Players.NotInvolutive | ipfish/rust/player.rs:9-17 | negating twice gives the player back |
| Players.AsU8 | ipfish/rust/player.rs:20-30 | the saturating `as u8` cast: truncation toward zero, clamped to 0..255 |
| Players.FromF64 | ipfish/rust/player.rs:19-30 | a value whose truncated code is 2 gives Black, 3 gives White, anything else fails (the panic) |
| Players.FromOwnCode | ipfish/rust/player.rs:19-30 | converting a player's own code back gives that player |
| PointStates.FromPlayer | ipfish/rust/point_state.rs:13-20 | a player's stone has the player's code and is never Empty or Offline |
| PointStates.CodesDistinct | ipfish/rust/point_state.rs:4-11 | the four point codes 1..4 are pairwise distinct |
| PointStates.FromPlayerInjective | ipfish/rust/point_state.rs:13-20 | distinct players give distinct point states |
| BitSets.CountOnesIsCardinality | ipfish/rust/bitset.rs:19-21 | `count_ones` of the word is the number of members |
| BitSets.AscendingSpec | ipfish/rust/bitset.rs:24-35 | the iteration order lists every member exactly once, strictly increasing |
| BitSets.BitSet.Insert | ipfish/rust/bitset.rs:6-9 | the members grow by exactly `n`; `n` must be below the word width |
| BitSets.BitSet.Contains | ipfish/rust/bitset.rs:10-13 | true exactly when `n` is a member |
| BitSets.BitSet.Len | ipfish/rust/bitset.rs:19-21 | the number of members |
| BitSets.BitSet.Next | ipfish/rust/bitset.rs:24-35 | `None` exactly on the empty set; otherwise the smallest member, which is removed and nothing else |
| BitSets.BitSet.constructor | ipfish/rust/bitset.rs:14-18 | `new()` is the empty set, so its length is 0 |
| BitSets.BitSet.UnionWith | ipfish/rust/minimax_ab_strategy.rs:101 | the members become the union of both sets (`|=`, not defined in bitset.rs) |
| BitSets.BitSet.IntersectWith | ipfish/rust/minimax_ab_strategy.rs:100 | the members become the intersection (`&=`, not defined in bitset.rs) |
| BitSets.BitSet.Complement | ipfish/rust/minimax_ab_strategy.rs:99 | a fresh set of every word index that is not a member (`!`, not defined in bitset.rs) |
| BitSets.Drain | ipfish/rust/bitset.rs:24-35 | iterating yields the members in ascending order and empties the set |
| BitSets.BasicBitsetTest | ipfish/rust/bitset.rs:42-71 | after inserting 7, 12 and 0: 7, 12 and 0 are members, 1 and 24 are not, the length is 3 and iteration yields {0, 7, 12} |
| AdjacentPoints.GetAdjacentPoints | ipfish/rust/get_adjacent_points.rs:3-23 | on a square board: exactly the on-board orthogonal neighbours, all on the board and distinct, and as many as 4 less the edges the point touches (2 in a corner, 3 on an edge, 4 inside); Offline neighbours included |
| Grid.AdjacentIsOrthogonal | ipfish/rust/get_adjacent_points.rs:3-23 | a point is listed exactly when it is an orthogonal neighbour on the board (rows do not wrap) |
| Grid.AdjacentSymmetric | ipfish/rust/get_adjacent_points.rs:3-23 | adjacency is symmetric |
| Grid.AdjacentShape | ipfish/rust/get_adjacent_points.rs:3-23 | neighbours are on the board and distinct; their number is 4 less the edges touched |
| Groups.GroupValue | ipfish/rust/count_liberties_of_group.rs:11-36 | every member of a group holds the colour of its origin |
| Groups.GroupClosed | ipfish/rust/count_liberties_of_group.rs:11-36 | a group is closed under steps to neighbours of its colour |
| Groups.GroupWithin | ipfish/rust/count_liberties_of_group.rs:11-36 | a group is the smallest closed set holding its origin |
| Groups.GroupSymmetric | ipfish/rust/count_liberties_of_group.rs:11-36 | `q` is in the group of `p` exactly when `p` is in the group of `q` |
| Groups.GroupOfMember | ipfish/rust/count_liberties_of_group.rs:11-36 | every member of a group has the same group |
| CountLiberties.WorklistDone | ipfish/rust/count_liberties_of_group.rs:24-36 | once the worklist is empty the recorded liberties are all the liberties of the chain |
| CountLiberties.CountLibertiesOfGroup | ipfish/rust/count_liberties_of_group.rs:8-37 | the number of distinct Empty points next to the chain of the stone at `point`; a non-stone point is refused (the panic) |
| CountLiberties.Visit | ipfish/rust/count_liberties_of_group.rs:25-33 | one pass of the worklist keeps the group inside the chain and the liberties inside its liberties, keeps every pending point settled and every neighbour of the group pending or settled, and shrinks the unseen part of the chain or the worklist |
| IsInAtari.IsInAtari | ipfish/rust/is_in_atari.rs:17-34 | the recursive walk: it only adds points of the group; on true every visited point is finished, on false the group reaches another Empty point |
| IsInAtari.InAtari | ipfish/rust/is_in_atari.rs:17-34 | true exactly when the group has no liberty other than `knownLiberty` |
| IsInAtari.WalkCoversGroup | ipfish/rust/is_in_atari.rs:17-34 | a finished walk covers the group, so no other liberty exists |
| IsInAtari.AtariIsOneLiberty | ipfish/rust/is_in_atari.rs:6-9 | when `knownLiberty` is a liberty, atari relative to it is having at most one liberty |
| IsInAtari.HallucinationEscapes | ipfish/rust/is_in_atari.rs:42-66 | in the test position point 18 is a liberty of the White group through 11 |
| IsInAtari.AtariHallucinationTest | ipfish/rust/is_in_atari.rs:42-66 | `is_in_atari(11, board, 10)` on the test position is false |
| SelfCapture.ScanSelfCapture | ipfish/rust/lib.rs:78-98 | true exactly when no neighbour is Empty, no friendly neighbour group has two liberties and no enemy neighbour group is down to one |
| SelfCapture.IsSelfCapture | ipfish/rust/is_self_capture.rs:7-27 | the same liberty-count test for the side to move |
| Moves.MakeMove | ipfish/rust/make_move.rs:3-11 | the copy keeps the points and size and flips the side to move; no stone is placed |
| Moves.PassMove | ipfish/rust/pass_move.rs:3-10 | the same position, size and komi with the other side to move |
| Moves.MakeMoveIsPass | ipfish/rust/make_move.rs:3-11 | the point does not matter, and a move is a pass |
| Moves.MakeMoveTwice | ipfish/rust/make_move.rs:3-11 | two moves in a row give back the starting board |
| Moves.ViolatesSuperko | ipfish/rust/violates_superko.rs:5-13 | true exactly when the current position is in the history, whatever the point |
| Moves.ViolatesSuperkoIfKnown | ipfish/rust/get_legal_moves.rs:65-78 | no history means no violation; otherwise the history test |
| LegalMoves.CapturesEnemyGroup | ipfish/rust/get_legal_moves.rs:53-63 | true exactly when some enemy neighbour group has no liberty but `point` |
| LegalMoves.IsSelfCaptureByAtari | ipfish/rust/get_legal_moves.rs:35-51 | true exactly when no neighbour is Empty and every friendly neighbour group has no liberty but `point` |
| LegalMoves.GetLegalMoves | ipfish/rust/get_legal_moves.rs:14-33 | a fresh set of exactly the legal points: Empty, and capturing without repeating a position, or not self capture |
| LegalMoves.OccupiedIsIllegal | ipfish/rust/get_legal_moves.rs:17-19 | a stone or an Offline point is never legal |
| LegalMoves.AtariAtIsCount | ipfish/rust/get_legal_moves.rs:41-45 | next to an Empty point, atari relative to it is having at most one liberty |
| LegalMoves.SelfCaptureTestsAgree | ipfish/rust/is_self_capture.rs:7-27 | the liberty-count self-capture test equals the atari test of get_legal_moves.rs plus "captures nothing" |
| LibAnalysis.Isqrt | ipfish/rust/lib.rs:31 | the integer square root: `r*r <= n < (r+1)*(r+1)` |
| LibAnalysis.IsqrtOfSquare | ipfish/rust/lib.rs:31 | the root of `size*size` is `size` |
| LibAnalysis.LibGetLegalMoves | ipfish/rust/lib.rs:54-76 | one verdict per point: Empty and not self capture by liberty counts (`violates_superko` always answers false) |
| LibAnalysis.CurrentBoard | ipfish/rust/lib.rs:24-34 | the last board of the history, Black to move, side the integer root of its length |
| LibAnalysis.GetAnalysis | ipfish/rust/lib.rs:23-46 | one value per point: 3.5 where the move is legal for Black, minus infinity elsewhere |
| LibAnalysis.LibLegalAgrees | ipfish/rust/lib.rs:54-76 | without a history the liberty-count rule gives exactly the legal set of get_legal_moves.rs |
| Score.StoneBalanceCounts | ipfish/rust/score.rs:13-24 | the balance is the number of Black stones less the number of White stones |
| Score.NoStonesBalance | ipfish/rust/score.rs:13-24 | a board without stones balances to zero |
| Score.Score | ipfish/rust/score.rs:13-24 | the stone balance minus the komi |
| FinalScore.Observe | ipfish/rust/final_score.rs:66-83 | a Black or White neighbour adds its colour to those seen, anything else changes nothing, Both is never left |
| FinalScore.SeenByColours | ipfish/rust/final_score.rs:30-36 | the two colours seen determine the state |
| FinalScore.ScoreGroupTerritory | ipfish/rust/final_score.rs:54-92 | the flood adds only points of the Empty region, finishes every point it adds, and the colours seen are exactly those bordering what it flooded |
| FinalScore.RegionSeen | ipfish/rust/final_score.rs:54-92 | the colours seen for a region are exactly the colours of stones bordering it |
| FinalScore.WholeRegion | ipfish/rust/final_score.rs:44-48 | a call on a new set floods exactly the region of the point and sees its bordering colours |
| FinalScore.CountRegion | ipfish/rust/final_score.rs:42-50 | each new region is disjoint from those already counted, and all its points have the same owner |
| FinalScore.ScoreFromTerritory | ipfish/rust/final_score.rs:38-52 | each Empty region counts once per point: +1 when only Black borders it, -1 when only White does, 0 otherwise |
| FinalScore.ScoreFromStones | ipfish/rust/final_score.rs:18-28 | +1 per Black stone, -1 per White stone |
| FinalScore.FinalScore | ipfish/rust/final_score.rs:14-16 | stones plus territory minus komi |
| FinalScore.OutcomeIgnoresPlayer | ipfish/rust/final_score.rs:14-16 | the score does not depend on the side to move |
| BoardFromString.CharCode | ipfish/rust/board_from_string.rs:29-41 | exactly '.', 'X', 'O' and '#' are accepted, with codes 1..4 |
| BoardFromString.CharCodeInjective | ipfish/rust/board_from_string.rs:29-41 | distinct accepted characters get distinct codes |
| BoardFromString.Location | ipfish/rust/board_from_string.rs:25-27 | the n-th character lands on the board in the same column, row counted from the top |
| BoardFromString.LocationInvolution | ipfish/rust/board_from_string.rs:25-27 | mirroring twice gives the index back, so every point is filled by exactly one character |
| BoardFromString.FirstCharacterTopLeft | ipfish/rust/board_from_string.rs:25-27 | the first character lands at the left end of the top row |
| BoardFromString.ParsedCharacter | ipfish/rust/board_from_string.rs:14-45 | the n-th accepted character is the contents of its location |
| BoardFromString.UnfilledStaysZero | ipfish/rust/board_from_string.rs:16-17 | points no character reached stay 0 |
| BoardFromString.ExtraTextIgnored | ipfish/rust/board_from_string.rs:21-23 | after `size*size` accepted characters the rest of the text changes nothing |
| BoardFromString.BoardFromStr | ipfish/rust/board_from_string.rs:14-45 | the result is the board read from the text |
| MinimaxAb.GetPointsInTerritory | ipfish/rust/minimax_ab_strategy.rs:124-142 | a fresh set of every Empty point of the board, for either player (the flood's verdict is discarded) |
| MinimaxAb.CaptureMoves | ipfish/rust/minimax_ab_strategy.rs:92-98 | exactly the legal moves that capture an enemy group |
| MinimaxAb.KeepIfCapture | ipfish/rust/minimax_ab_strategy.rs:92-98 | one step of that filter: the point is added exactly when it is legal and captures, and nothing else changes |
| MinimaxAb.WhiteCandidates | ipfish/rust/minimax_ab_strategy.rs:91-102 | White's move list is exactly the legal capturing moves |
| MinimaxAb.MinimaxAlphaBeta | ipfish/rust/minimax_ab_strategy.rs:60-122 | the search value at every depth and window is the final score of the position (no move changes the points) |
| MinimaxAb.MinimaxAbStrategy | ipfish/rust/minimax_ab_strategy.rs:15-40 | one entry per point plus a pass entry; legal points get the search value, the others minus infinity; the pass entry is the final score when positive, minus infinity otherwise |
| HelplessMinimax.Score | ipfish/rust/helpless_minimax_strategy.rs:52-60 | the final score plus the speed penalty when Black is helpless, minus it when White is |
| HelplessMinimax.FirstEmpty | ipfish/rust/helpless_minimax_strategy.rs:114-121 | the first Empty neighbour in list order, and `None` exactly when no neighbour is Empty |
| HelplessMinimax.FirstEmptyAt | ipfish/rust/helpless_minimax_strategy.rs:114-121 | an Empty entry preceded only by non-Empty entries is the one found |
| HelplessMinimax.AtariPenalty | ipfish/rust/helpless_minimax_strategy.rs:113-133 | 1000 without an Empty neighbour; 20 when the group after the move has no liberty but the first Empty neighbour; 0 otherwise |
| HelplessMinimax.EmptyPointPenalty | ipfish/rust/helpless_minimax_strategy.rs:113-133 | on an Empty point the penalty is never 20: 1000 without an Empty neighbour, 0 with one |
| HelplessMinimax.MinimaxHelpless | ipfish/rust/helpless_minimax_strategy.rs:62-109 | the value is the helpless score with one more speed step when the helpless player is to move |
| HelplessMinimax.MoveValue | ipfish/rust/helpless_minimax_strategy.rs:81-104 | a move of the other side is no better for that side than passing now with one more speed step |
| HelplessMinimax.HelplessMinimaxStrategy | ipfish/rust/helpless_minimax_strategy.rs:17-47 | legal points get the value one move on, others minus infinity; the pass entry is searched when the opponent has not passed, else the final score if positive |
| Decimal.NatToString | ipfish/src/moveString.ts:7 | a non-empty string of decimal digits |
| MoveStrings.AlphabetSkipsI | ipfish/src/moveString.ts:2 | the column alphabet has 25 letters in increasing order and no 'i' |
| MoveStrings.Corners | ipfish/src/moveString.ts:1-8 | point 0 is "a1" and point 24 of a 5x5 board "e5" |
| MoveStrings.MoveStringShape | ipfish/src/moveString.ts:4-7 | on at most 25 columns: the column's letter followed by the 1-based row number |
| MoveStrings.MoveStringInjective | ipfish/src/moveString.ts:1-8 | on at most 25 columns distinct points get distinct names |
| MoveStrings.NatToStringInjective | ipfish/src/moveString.ts:7 | distinct numbers print differently |
| BestMoves.GetAnalysis | ipfish/src/worker/analysis.ts:9-29 | the scores are returned unchanged; the pick is a maximum, and it is the pass entry exactly when nothing beats passing, otherwise the first maximum; an empty vector gives -1 |
| BoardFromText.PastTheEndIsNegative | ipfish/src/tests/utils.ts:9-11 | once the board is full, the location formula with flooring division is negative |
| BoardFromText.TextStep | ipfish/src/tests/utils.ts:7-27 | one accepted character writes its code at the location when that is a point, and nothing otherwise |
| BoardFromText.NewlineStep | ipfish/src/tests/utils.ts:13-14 | a newline changes nothing and advances nothing |
| BoardFromText.BoardFromTextTs | ipfish/src/tests/utils.ts:3-29 | an error exactly when some character is neither a newline nor a board character; otherwise the same board `board_from_string` reads |
| HostBoards.HostBoard | ipfish/src/getBoardFromAPI.ts:5-26 | the board has `size*size` points |
| HostBoards.Transposed | ipfish/src/getBoardFromAPI.ts:12-22 | character `j` of string `i` lands at point `j*size + i`: the host's strings are columns |
| HostBoards.SquareFillsEveryPoint | ipfish/src/getBoardFromAPI.ts:12-24 | on square input every point is written |
| HostBoards.AllRead | ipfish/src/getBoardFromAPI.ts:12-24 | after the last string the buffer is the host board |
| HostBoards.GetBoardFromApi | ipfish/src/getBoardFromAPI.ts:5-26 | the transposed board exactly when every character is a board character, else the exception naming the first offending character in reading order (strings in turn, each from its start) and its index |
| HostBoards.FiveByFive | ipfish/src/game.ts:7-27 | only five strings are accepted; the board is the transposed one; the exception names the first offending character in reading order, with position `row*column - 1` for the 1-based row |
| HostBoards.ReadFive | ipfish/src/game.ts:11-26 | on five strings: the transposed board exactly when every character is a board character, else the exception with position `row*column - 1` for the first offending character in reading order |
| HostBoards.ReadFiveString | ipfish/src/game.ts:15-23 | the inner loop over one string: it reads the whole string, or stops with the message for its first offending character |
| HostBoards.StopsAtFirstInvalid | ipfish/src/getBoardFromAPI.ts:12-20 | an invalid character met by the loop is the first invalid one in reading order |
| HostBoards.FirstInvalidUnique | ipfish/src/getBoardFromAPI.ts:12-20 | only one character is the first invalid one, so the message is determined |
| HostBoards.FirstInvalidExists | ipfish/src/getBoardFromAPI.ts:12-20 | strings that are not all valid have a first invalid character |
| HostBoards.WritePoint | ipfish/src/getBoardFromAPI.ts:15-19 | one valid character written at `column*size + row`, when that is on the board, advances the reading state by one character |
| GameHistory.LastMarker | ipfish/src/Game.ts:98 | the last occurrence of the marker below `n`, or none |
| GameHistory.LineEnd | ipfish/src/Game.ts:98 | the first line terminator from `k` on, or the end of the text |
| GameHistory.ErrorText | ipfish/src/Game.ts:98 | the text after the last marker up to its line's end; the whole message when the marker is absent |
| GameHistory.ErrorTextExample | ipfish/src/Game.ts:91-98 | a refused move's host message is trimmed to its reason |
| GameHistory.Game.constructor | ipfish/src/Game.ts:41-54 | the history holds the host's board, Black is to move and nobody has passed |
| GameHistory.Game.GetBoard | ipfish/src/Game.ts:56-58 | the last board of the history |
| GameHistory.Game.GetPoint | ipfish/src/Game.ts:60-63 | entry `boardSize*row + column` of the current board, undefined off its end |
| GameHistory.Game.GetPointOfHostBoard | ipfish/src/Game.ts:60-63 | on a host board `getPoint(row, column)` is character `row` of host string `column` |
| GameHistory.Game.MakeMove | ipfish/src/Game.ts:65-101 | the host gets (column, row); a throwing call records nothing, a late failure keeps the board after Black's move; an answer appends the board after it; pass sets, a stone clears `opponentPassed` |
| GameHistory.Game.PassTurn | ipfish/src/Game.ts:103-121 | the opponent's board is appended only after a stone; the game is over exactly when there is no current player |
| BasicHack.Budget | farmburn/src/hack/basicHack.ts:42-50 | home gets `max(0, maxRam - 256)`, every other server its `maxRam` |
| BasicHack.Budgets | farmburn/src/hack/basicHack.ts:42-50 | one budget per server, in network order |
| BasicHack.BatchUseNonNegative | farmburn/src/hack/basicHack.ts:66-69 | no operation gives RAM back |
| BasicHack.PageThrough | farmburn/src/hack/basicHack.ts:75-77 | the first server from the cursor on with enough RAM, or the end; every server skipped has too little |
| BasicHack.PlaceStep | farmburn/src/hack/basicHack.ts:75-104 | placing an operation on the first server with room deducts its RAM there and nowhere else |
| BasicHack.StopRound | farmburn/src/hack/basicHack.ts:79-103 | an operation that finds no server ends the round |
| BasicHack.PlaceBatch | farmburn/src/hack/basicHack.ts:73-104 | one round: each operation in turn pages forward to the first server with room, seeing earlier reservations, until one finds none |
| BasicHack.NextRound | farmburn/src/hack/basicHack.ts:73-115 | a complete round records its batch and keeps the loop's invariant |
| BasicHack.RoundProgress | farmburn/src/hack/basicHack.ts:73-138 | a complete round moves a cursor forward or uses up more of its server's room |
| BasicHack.LastRound | farmburn/src/hack/basicHack.ts:79-104 | a cut-short round ends the loop with the promised results |
| BasicHack.SimpleHwgw | farmburn/src/hack/basicHack.ts:42-138 | complete batches of four server indices; every reservation, the cut-short batch's included, comes off the budget; no budget goes negative; first fit; cursors only move forward; the operation that stopped the loop fits nowhere |
| BasicHack.ZeroRamRoundRepeats | farmburn/src/hack/basicHack.ts:73-117 | as written, with all four operations needing no RAM on a network with a server, a round from any state the loop reaches places a full batch on the first server and returns the same RAM and cursors, so the loop repeats forever |
| BasicHack.UsedZero | farmburn/src/hack/basicHack.ts:73-104 | operations needing no RAM take nothing from any server, over any number of batches |
| BasicHack.BatchUseZero | farmburn/src/hack/basicHack.ts:73-104 | in one batch, operations needing no RAM take nothing from a server |
| BasicHack.WeakenRam | farmburn/src/hack/basicHack.ts:148-151 | home gets `max(1, maxRam - 256)`, every other server its `maxRam` |
| BasicHack.ThreadsMostThatFit | farmburn/src/hack/basicHack.ts:153 | the thread count is the most threads that fit, positive exactly when one fits |
| BasicHack.WeakenPlanCovers | farmburn/src/hack/basicHack.ts:147-164 | every planned script runs on a network server with the most threads that fit, and every server with room for a thread gets one |
| BasicHack.SimpleWeaken | farmburn/src/hack/basicHack.ts:144-166 | the scripts started are the weaken plan, in network order, skipping servers with no room |
| Reachability.ReachableStep | serverburn/src/getServerList.ts:11-15 | a neighbour of a reachable server is reachable |
| Reachability.ClosedHoldsReachable | serverburn/src/getServerList.ts:3-17 | a set closed under `scan` that holds "home" holds every reachable server |
| Reachability.ExactlyReachable | serverburn/src/getServerList.ts:3-17 | a closed set of reachable servers holding "home" is exactly the reachable set |
| ServerListSet.Add | serverburn/src/getServerList.ts:13 | inserting into an insertion-ordered set adds exactly `x` and keeps it free of repeats |
| ServerListSet.GetServerList | serverburn/src/getServerList.ts:3-17 | "home" is in the result, every server in it is reachable, it is closed under `scan`: exactly the reachable servers |
| ServerListStack.GetServerList | farmburn/src/network/getServerList.ts:3-15 | "home" is in the result, every server in it is reachable, it is closed under `scan`: exactly the reachable servers |
| ServerListStack.PushNeighbours | farmburn/src/network/getServerList.ts:9-13 | the stack grows by reachable servers only, and every unscanned neighbour is pushed |
| ServerListStack.FrontierStep | farmburn/src/network/getServerList.ts:6-13 | one round keeps the frontier and either scans a new server or pops a stale duplicate |
| JsBoards.Opponent | ipfish/src/go.js:302 | the other colour for each player |
| JsBoards.OtherSide | ipfish/src/go.js:1283 | the same as `Opponent` for either player |
| JsBoards.At | ipfish/src/go.js:142-149 | `board[x]?.[y]`: undefined exactly off the grid, otherwise the entry at `x*n + y` |
| JsBoards.Present | ipfish/src/go.js:182-184 | the point as a one-element list exactly when it holds a record |
| JsBoards.Neighbors | ipfish/src/go.js:142-149 | only live records are returned |
| JsBoards.NeighborsAreAdjacent | ipfish/src/go.js:142-149 | the neighbours are exactly the live records among the grid's orthogonal neighbours; the grid does not wrap |
| JsBoards.Code | ipfish/src/go.js:41-59 | an offline point (`null`) and only it gets the Offline code |
| JsBoards.CodeIsColor | ipfish/src/go.js:41-59 | two records share a code exactly when they share a colour |
| JsBoards.SameColorsSameCodes | ipfish/src/go.js:93-101 | boards with the same colours have the same chains |
| JsBoards.KeptAre | ipfish/src/go.js:368-380 | the kept indices are exactly the flagged ones, increasing, each once |
| JsChains.ChainMember | ipfish/src/go.js:111-139 | every member of a record's chain is a record of its colour |
| JsChains.SearchPush | ipfish/src/go.js:124-134 | a neighbour of the start's colour not yet checked is found and queued, keeping the search invariant |
| JsChains.SearchDone | ipfish/src/go.js:111-139 | a point whose neighbours are all checked no longer needs searching |
| JsChains.FindAdjacentPointsInChain | ipfish/src/go.js:111-139 | the chain of the point, starting with it, each member once; nothing for an offline point |
| JsChains.NeighborsOf | ipfish/src/go.js:142-149 | exactly the live records among the orthogonal neighbours |
| JsChains.GetAllNeighbors | ipfish/src/go.js:171-179 | every record next to the chain and not in it, each once |
| JsChains.AddNeighbors | ipfish/src/go.js:171-179 | the set grows by exactly the neighbours outside the chain |
| JsChains.EmptyOnly | ipfish/src/go.js:164-166 | exactly the empty records of the list, without repeats when the list has none |
| JsChains.FindLibertiesForChain | ipfish/src/go.js:164-166 | every empty record next to the chain and not in it, each once |
| JsChains.LibertiesOfChain | ipfish/src/go.js:164-166 | for a whole chain these are exactly its liberties |
| JsChains.ClearChains | ipfish/src/go.js:93-101 | every record loses its chain id and liberties; colours change nowhere |
| JsChains.UpdateChains | ipfish/src/go.js:67-86 | colours are unchanged; with `resetChains` every record carries the id of its chain's first point in scan order and its liberties; without it only chains with an unlabelled point are relabelled |
| JsChains.LabelChain | ipfish/src/go.js:76-84 | labelling a chain with no id moves the scan on, keeping its invariant |
| JsChains.SetChain | ipfish/src/go.js:81-84 | the chain's members get the id and liberties, and every other entry is unchanged |
| JsChains.IdOfInjective | ipfish/src/go.js:80 | a chain id names the one point it was made from |
| JsChains.LabelSkip | ipfish/src/go.js:74 | a record that has an id, or `null`, is skipped without changing the invariant |
| JsChains.AllPendingSettled | ipfish/src/go.js:67-86 | after a full pass from a cleared board every chain is labelled from its first point |
| JsCaptures.KeyIndex | ipfish/src/go.js:449-465 | the list whose first record carries the id, or none when no list does |
| JsCaptures.AddGrouped | ipfish/src/go.js:449-465 | each step of the scan keeps the lists grouped by chain id |
| JsCaptures.CollectGrouped | ipfish/src/go.js:449-465 | the points scanned so far are grouped by id, one list per id in order of first appearance, each in scan order |
| JsCaptures.AllChainsGrouped | ipfish/src/go.js:449-465 | every record with an id is in exactly one list, and the lists have distinct ids |
| JsCaptures.GetAllChains | ipfish/src/go.js:449-465 | the columns-then-rows scan builds exactly `AllChains` |
| JsCaptures.SettledIds | ipfish/src/go.js:67-86 | on a settled board two records share an id exactly when they are in one chain |
| JsCaptures.SettledChains | ipfish/src/go.js:449-465 | on a settled board each list is exactly the chain of its first point |
| JsCaptures.SettledCovered | ipfish/src/go.js:449-465 | on a settled board every record is in some list |
| JsCaptures.FindCapturedChainOfColor | ipfish/src/go.js:833-835 | exactly the lists of that colour whose first record has an empty liberty array |
| JsCaptures.FindAllCapturedChains | ipfish/src/go.js:818-830 | the opponent's starved chains when there are any; otherwise the mover's own when there are any; otherwise undefined |
| JsCaptures.CapturedSameColors | ipfish/src/go.js:818-835 | only the colours decide what is captured |
| JsCaptures.StarvedIff | ipfish/src/go.js:833-835 | on a settled board a list is starved exactly when its chain has no liberty |
| JsCaptures.CapturedChainsAre | ipfish/src/go.js:801-835 | on a settled board the chains found are exactly the captured points, and none exactly when nothing is captured |
| JsCaptures.Cleared | ipfish/src/go.js:842-848 | the listed records are cleared and every other entry is kept |
| JsCaptures.CaptureChain | ipfish/src/go.js:842-848 | every record of the chain becomes empty with no id and no liberties; nothing else changes |
| JsCaptures.ResetIds | ipfish/src/go.js:782-790 | resetting ids changes no colour |
| JsCaptures.ResetChainsById | ipfish/src/go.js:782-790 | the records whose id is listed lose it and get an empty liberty array; nothing else changes |
| JsCaptures.PendingSettles | ipfish/src/go.js:67-86 | a pass without reset over chains that are reset whole or settled settles the board |
| JsCaptures.Placed | ipfish/src/go.js:768 | the stone of the player is at the point |
| JsCaptures.ChainIds | ipfish/src/go.js:771 | exactly the chain ids of the listed records |
| JsCaptures.RegionHasNeighbors | ipfish/src/go.js:770-772 | the move point and its neighbouring records are reset |
| JsCaptures.RegionHasChains | ipfish/src/go.js:782-790 | on a settled board a reset point's whole chain is reset |
| JsCaptures.RegionSeparated | ipfish/src/go.js:764-776 | a reset point and a neighbour outside the reset region never share a colour after the move |
| JsCaptures.OutsideReset | ipfish/src/go.js:764-776 | a record outside the reset region keeps its record, its chain and that chain's liberties |
| JsCaptures.MoveResetSettles | ipfish/src/go.js:764-776 | after placing a stone and resetting the chains around it, every chain is reset whole or settled |
| JsCaptures.ClearedTwice | ipfish/src/go.js:842-848 | capturing two sets in turn captures their union |
| JsCaptures.UpdateCaptures | ipfish/src/go.js:801-812 | the result is settled and has the colours of the board with the captured points removed |
| JsCaptures.CapturesRemoved | ipfish/src/go.js:801-812 | capturing the chains found removes exactly the captured points |
| JsCaptures.CaptureChains | ipfish/src/go.js:810 | every point of the listed chains is cleared, nothing else |
| JsCaptures.GetBoardCopy | ipfish/src/go.js:561-564 | a fresh board with the same entries |
| JsCaptures.EvaluateMoveResult | ipfish/src/go.js:764-776 | the input itself when the point holds no record; otherwise a fresh settled copy with the colours of the move's outcome |
| JsCaptures.MoveEvaluated | ipfish/src/go.js:764-776 | the captures resolved on the reset copy give the move's outcome |
| JsCaptures.CapturePrecedence | ipfish/src/go.js:818-830 | when the move starves an enemy chain only enemy stones go and the new stone stays; the new stone goes only when no enemy chain is starved and its own chain has no liberty |
| JsCreate.ColorOfChar | ipfish/src/go.js:44-52 | 'O' white, 'X' black, '.' empty, and no other character gets any of these |
| JsCreate.InitialCell | ipfish/src/go.js:44-53 | `null` exactly for '#' |
| JsCreate.InitialAt | ipfish/src/go.js:43-55 | entry `x*n + y` is the entry for column string `x`, character `y` |
| JsCreate.CreateBoard | ipfish/src/go.js:41-59 | a fresh `n` by `n` board with the colours of the characters, settled |
| JsLiberties.WithColor | ipfish/src/go.js:1082 | keeps exactly the live points of the given colour, and keeps distinctness |
| JsLiberties.FirstOccurrences | ipfish/src/go.js:1101-1105 | the `findIndex(...) === index` filter: no duplicates, and the same members as the input |
| JsLiberties.Without | ipfish/src/go.js:1106 | every member except the starting point, distinctness kept |
| JsLiberties.OfColor | ipfish/src/go.js:1082 | `filter(chain => chain[0].color === player)`: exactly the listed chains of that colour |
| JsLiberties.FindChain | ipfish/src/go.js:1090 | `friendlyChains.find` by chain id: the first chain with that id, or none when no chain has it |
| JsLiberties.AdjacentLibertiesAndAllies | ipfish/src/go.js:1115-1139 | each direction keeps the neighbour exactly when it is empty or the player's, else null |
| JsLiberties.KeptPoints | ipfish/src/go.js:1084 | the non-null kept neighbours are exactly the on-board neighbours that are empty or the player's |
| JsLiberties.AllyLiberties | ipfish/src/go.js:1087-1094 | the liberties of the friendly chains met through the allied neighbours, and nothing else |
| JsLiberties.EffectiveLiberties | ipfish/src/go.js:1081-1107 | distinct, without the move point, and exactly the empty neighbours plus the recorded liberties of adjacent friendly chains |
| JsLiberties.EffectiveLibertiesAfterMove | ipfish/src/go.js:1076-1107 | on a settled board the result, as a set, is exactly the liberties the new stone's chain has after the stone is placed |
| JsLiberties.LibertyIsNew | ipfish/src/go.js:1081-1107 | every reported liberty is a liberty of the chain formed by the move |
| JsLiberties.NewIsLiberty | ipfish/src/go.js:1081-1107 | every liberty of the chain formed by the move is reported |
| JsLiberties.PlacedChain | ipfish/src/go.js:1085-1094 | after placing the stone, its chain is exactly the move point joined with the chains of the allied neighbours |
| JsLiberties.AllyChainLiberties | ipfish/src/go.js:1089-1091 | on a settled board a friendly chain's recorded liberties are exactly the empty points touching it |
| JsLiberties.MinCount | ipfish/src/go.js:1226-1229 | the `Math.min` fold: at most the seed and every known count, and equal to the seed or to one neighbour's count (0 when unknown) |
| JsLiberties.FirstWithCount | ipfish/src/go.js:1231 | the first friendly neighbour whose liberty count equals the minimum, or none when there is none |
| JsLiberties.FriendlyNeighbors | ipfish/src/go.js:1223-1225 | exactly the on-board neighbours of the player's colour |
| JsLiberties.FewestLibertiesChain | ipfish/src/go.js:1221-1235 | when found, a chain of the board met through a friendly neighbour; never found without a friendly neighbour |
| JsLiberties.FewestOnSettled | ipfish/src/go.js:1221-1235 | on a settled board a chain is found exactly when a friendly neighbour exists, and it is the friendly neighbour chain with the fewest liberties |
| JsLiberties.MinLibertyCount | ipfish/src/go.js:1215-1218 | 99 when no chain is found, else the found chain's recorded liberty count |
| JsLiberties.SettledCount | ipfish/src/go.js:1215-1218 | on a settled board a stone's recorded liberty count is the number of liberties of its chain |
| JsPatterns.BasePatternsSquare | ipfish/src/go.js:876-944 | the base table holds 13 patterns, each three rows of three characters |
| JsPatterns.Rotate90 | ipfish/src/go.js:998-1004 | a quarter turn: cell `(i, j)` of the result is cell `(2 - j, i)` of the input |
| JsPatterns.VerticalMirror | ipfish/src/go.js:1006-1008 | the rows in reverse order: cell `(i, j)` is cell `(2 - i, j)` |
| JsPatterns.HorizontalMirror | ipfish/src/go.js:1010-1016 | each row reversed: cell `(i, j)` is cell `(i, 2 - j)` |
| JsPatterns.RotateFourTimes | ipfish/src/go.js:998-1004 | four quarter turns give back the pattern |
| JsPatterns.VerticalMirrorInvolution | ipfish/src/go.js:1006-1008 | mirroring twice gives back the pattern |
| JsPatterns.HorizontalMirrorInvolution | ipfish/src/go.js:1010-1016 | mirroring twice gives back the pattern |
| JsPatterns.Matches | ipfish/src/go.js:1049-1074 | a verdict for each of the seven tokens `XOxo. ?`, and `undefined` for any other character |
| JsPatterns.TokenMeanings | ipfish/src/go.js:1039-1074 | `X` own stone, `O` opponent stone, `x` not an opponent stone, `o` not an own stone, `.` empty, space only `null`, `?` anything; an edge or offline point passes `x` and `o` |
| JsPatterns.CheckMatchCells | ipfish/src/go.js:1033-1037 | a neighbourhood matches exactly when every one of the nine cells accepts the pattern's character there |
| JsPatterns.RotatedMatch | ipfish/src/go.js:987-1004 | turning the pattern and the neighbourhood together keeps the verdict |
| JsPatterns.VerticalMirrorMatch | ipfish/src/go.js:987-1008 | mirroring the pattern and the neighbourhood together keeps the verdict |
| JsPatterns.HorizontalMirrorMatch | ipfish/src/go.js:987-1016 | mirroring the rows of pattern and neighbourhood together keeps the verdict |
| JsPatterns.JoinWithCommas | ipfish/src/go.js:1012-1014 | `join()` with no separator puts a comma between characters: the second character of a two-character join is `,` |
| JsPatterns.HorizontalMirrorAsWritten | ipfish/src/go.js:1010-1016 | the mirror as the source writes it, three comma-joined rows |
| JsPatterns.AsWrittenNeverMatches | ipfish/src/go.js:1010-1016 | a pattern mirrored as written matches no neighbourhood at all |
| JsPatterns.RotateAll | ipfish/src/go.js:988-993 | `map(rotate90Degrees)`: element by element the quarter turn |
| JsPatterns.MirroredPatterns | ipfish/src/go.js:988-994 | the rotated and vertically mirrored list has 104 well-formed patterns |
| JsPatterns.ExpandAll | ipfish/src/go.js:987-996 | 208 well-formed patterns, the first 104 being the rotated and vertically mirrored list |
| JsPatterns.ExpandAllAsWritten | ipfish/src/go.js:987-996 | as written: the second half is the comma-joined mirror of the first |
| JsPatterns.ExpandAllMirrorClosed | ipfish/src/go.js:987-996 | the corrected expansion is closed under the horizontal mirror |
| JsPatterns.AsWrittenMatchesOnlyUnmirrored | ipfish/src/go.js:987-996 | as written, a neighbourhood matches the expansion exactly when it matches one of the first 104 patterns |
| JsPatterns.ExpandAllMirrorMatches | ipfish/src/go.js:987-996 | with the corrected mirror, a neighbourhood matches exactly when its mirror image matches |
| JsPatterns.MirrorIsHalfTurnMirror | ipfish/src/go.js:998-1016 | the horizontal mirror is two quarter turns followed by the vertical mirror |
| JsPatterns.BothMirrorsHalfTurn | ipfish/src/go.js:998-1016 | the horizontal and the vertical mirror together are two quarter turns |
| JsPatterns.VariantAt | ipfish/src/go.js:987-994 | in the variants of thirteen patterns, entry `13a + j` is base pattern `j` turned `a` times and entry `52 + 13a + j` is its vertical mirror |
| JsPatterns.VariantsMirrorClosed | ipfish/src/go.js:987-1016 | the horizontal mirror of each of the 104 rotated and vertically mirrored patterns is itself one of them, at an index the lemma returns |
| JsPatterns.CorrectedMatchesUnmirrored | ipfish/src/go.js:987-996 | with the corrected mirror, a neighbourhood matches the 208 patterns exactly when it matches one of the first 104 |
| JsPatterns.SameMatches | ipfish/src/go.js:987-1016 | the corrected and the as-written expansions accept exactly the same neighbourhoods |
| JsPatterns.PatternMovesAsWritten | ipfish/src/go.js:956-996 | the scan keeps the same points with either expansion |
| JsPatterns.GetNeighborhood | ipfish/src/go.js:1021-1027 | the 3 by 3 block of lookups centred on `(x, y)`, with the point itself in the middle |
| JsPatterns.PatternScanStep | ipfish/src/go.js:965-978 | one step of the double loop appends the point exactly when a pattern matches there, the point is available, and (when smart) the move would have more than one liberty |
| JsPatterns.PatternMovesAre | ipfish/src/go.js:956-982 | increasing in scan order, exactly the points accepted by the test above, all of them available |
| JsPatterns.FindAnyMatchedPatterns | ipfish/src/go.js:956-982 | the double loop returns the pattern moves of the corrected expansion, which are also the pattern moves of the expansion as written |
| JsPatterns.ScanPatternColumn | ipfish/src/go.js:966-978 | the inner loop over one column extends the moves found so far with that column's matches |
| JsEyes.Filter | ipfish/src/go.js:293-351 | `Array.filter`: no longer than the input, exactly the members passing the test |
| JsEyes.EmptyFlags | ipfish/src/go.js:368-380 | one flag per point, set exactly for an on-board empty point |
| JsEyes.EmptySpacesAre | ipfish/src/go.js:368-380 | the empty spaces are increasing in scan order and are exactly the on-board empty points |
| JsEyes.GetEmptySpaces | ipfish/src/go.js:368-380 | the double loop returns exactly the empty spaces |
| JsEyes.AllValidMoves | ipfish/src/go.js:358-362 | exactly the empty spaces that are valid moves |
| JsEyes.NeighboringChains | ipfish/src/go.js:582-600 | the chains met through a player-coloured neighbour of the region, found by chain id |
| JsEyes.NeighboringChainsFound | ipfish/src/go.js:582-600 | on an identified board, exactly the chains holding a stone that neighbours the region |
| JsEyes.SettledIdentified | ipfish/src/go.js:67-86 | a settled board gives each chain one id, shared by exactly its stones |
| JsEyes.FindMember | ipfish/src/go.js:449-465 | looking up a stone's chain id finds the chain it lies in |
| JsEyes.FoundHolds | ipfish/src/go.js:449-465 | the chain found by a stone's id holds that stone |
| JsEyes.NodeCount | ipfish/src/go.js:613 | the number of on-board points, at most the board length |
| JsEyes.MaxEyeSize | ipfish/src/go.js:613-614 | `Math.min(nodeCount * 0.4, 11)` |
| JsEyes.PotentialEyesFromSound | ipfish/src/go.js:609-641 | every candidate from position `k` on is the candidate of a list from `k` on that is an empty region, small enough, bordered by the player and free of the opponent |
| JsEyes.PotentialEyesFromComplete | ipfish/src/go.js:609-641 | every such list from position `k` on gives its candidate |
| JsEyes.PotentialEyesAre | ipfish/src/go.js:609-641 | every candidate is an empty chain no larger than the cap, bordered by the player only, with its neighbour chains recorded; every such chain gives a candidate |
| JsEyes.SpreadFrom | ipfish/src/go.js:531-556 | the extremes found so far, widened to cover every point of the list, each bound taken from some point or kept |
| JsEyes.FurthestPoints | ipfish/src/go.js:531-556 | the north, south, east and west extremes of the chain, each reached by some point of it |
| JsEyes.Erased | ipfish/src/go.js:480-525 | the copy with the points of the region turned empty and every other point's colour kept |
| JsEyes.Credit | ipfish/src/go.js:418-441 | the eye map with the region appended to the list of every credited chain id |
| JsEyes.CreditsOf | ipfish/src/go.js:409-443 | per candidate, the chain ids it is credited to |
| JsEyes.SpacesOf | ipfish/src/go.js:409-443 | per candidate, its region |
| JsEyes.EyesAreCredited | ipfish/src/go.js:409-443 | a chain id is a key of the eye map exactly when some region is credited to it, and its list is those regions in order |
| JsEyes.CandidatesOnBoard | ipfish/src/go.js:609-641 | every candidate's points and neighbour chains lie on the board |
| JsEyes.CreditRule | ipfish/src/go.js:413-441 | a region with one neighbour chain is credited to it; with several, to a neighbour chain exactly when that chain encircles the region alone |
| JsEyes.DistinctPositions | ipfish/src/go.js:449-465 | two listed chains with the same id are the same chain |
| JsEyes.LivingIds | ipfish/src/go.js:701-702 | exactly the chain ids with two or more eyes |
| JsEyes.EyeCount | ipfish/src/go.js:703 | the number of chain ids with at least one eye, at most the number of ids |
| JsEyes.LivingEyePoints | ipfish/src/go.js:294-301 | exactly the points of the eyes of chains with two or more eyes |
| JsEyes.AttackableLiberties | ipfish/src/go.js:309-340 | when non-empty, the chain touches the player and these are its recorded liberties, at most four, all inside the region |
| JsEyes.FilterDrops | ipfish/src/go.js:293-351 | a filter that rejects a member is strictly shorter |
| JsEyes.SpacePoints | ipfish/src/go.js:305 | exactly the points of the enemy eye candidates |
| JsEyes.AttackableMember | ipfish/src/go.js:309-340 | a point is reported exactly when the chain touches the player and the point is one of its liberties inside the region |
| JsEyes.PlayableIff | ipfish/src/go.js:307-345 | a point is playable inside enemy eye space exactly when it is attackable there |
| JsEyes.DisputedTerritoryIs | ipfish/src/go.js:293-351 | a point is disputed exactly when it is an empty valid move, not in a living friendly eye when those are excluded, and attackable when it lies inside an enemy eye candidate |
| JsEyes.FilterKeepsAll | ipfish/src/go.js:293-351 | a filter every member passes gives back the list |
| JsMoves.BelowPrefix | ipfish/src/go.js:1290-1300 | a prefix of a list of board points is still a list of board points |
| JsMoves.ShortChains | ipfish/src/go.js:646 | exactly the listed chains of at most `maxChainSize` points |
| JsMoves.DisputedTerritoryMoves | ipfish/src/go.js:645-656 | exactly the available points whose short chain borders both a white and a black chain |
| JsMoves.ContestedChain | ipfish/src/go.js:648-655 | a contested point lies in a short chain, found by its id, that borders chains of both colours |
| JsMoves.ExpansionMoves | ipfish/src/go.js:662-686 | the available points with four empty on-board neighbours when there is one; otherwise the disputed moves of one-point chains; always available points |
| JsMoves.JumpMoves | ipfish/src/go.js:1252-1263 | exactly the expansion moves with an own stone two points away along a row or column |
| JsMoves.JumpNearStone | ipfish/src/go.js:1253-1260 | every jump move has an own stone at distance two straight north, south, east or west |
| JsMoves.Witness | ipfish/src/go.js:1255-1259 | a lookup that finds an own stone at `(x, y)` means `(x, y)` is on the board and holds that stone |
| JsMoves.LibertyPoints | ipfish/src/go.js:1175-1182 | exactly the recorded liberties of the given chains |
| JsMoves.LengthOr | ipfish/src/go.js:1198 | the chain's length, or the stated default when no chain is found |
| JsMoves.GrowthMove | ipfish/src/go.js:1186-1205 | the move record: new count the effective liberties, old count the fewest liberties of an adjacent friendly chain |
| JsMoves.GrowthFrom | ipfish/src/go.js:1186-1208 | exactly the growth records of the given points that keep more than one liberty and do not lose any |
| JsMoves.LibertyGrowthMoves | ipfish/src/go.js:1167-1209 | exactly the records of available liberties of friendly chains where the move keeps more than one liberty and at least the old count |
| JsMoves.Increasing | ipfish/src/go.js:1271-1272 | exactly the moves whose new liberty count exceeds the old one |
| JsMoves.DefendMoves | ipfish/src/go.js:1269-1275 | exactly the liberty growth moves that strictly add liberties |
| JsMoves.DefendMovesGain | ipfish/src/go.js:1266-1275 | a defend move is an available friendly liberty with at least two liberties after the move, strictly more than the weakest adjacent chain has now |
| JsMoves.ClassedSound | ipfish/src/go.js:1300-1359 | every record in one of the three lists belongs to a point of the liberties classed into that list, and is that point's record |
| JsMoves.ClassedComplete | ipfish/src/go.js:1300-1359 | every liberty classed into a list has its record in that list |
| JsMoves.EnemyLiberties | ipfish/src/go.js:1290-1294 | exactly the available points that are recorded liberties of an opponent chain |
| JsMoves.GetSurroundMove | ipfish/src/go.js:1282-1361 | the loop returns the surround moves: `null` without enemy chains or available points, else capture, atari and surround moves in that order |
| JsMoves.ClassedStep | ipfish/src/go.js:1300-1359 | one loop step appends the point's record to exactly the list of its class |
| JsMoves.ThreatMeaning | ipfish/src/go.js:1310-1358 | capture exactly when the weakest enemy chain has at most one liberty; atari needs two; surround needs three and a new chain with at least three liberties; a move that lets itself be captured is always ignored; new count is old count minus one |
| JsMoves.ClassedRanks | ipfish/src/go.js:1328-1357 | every record in a class list has the class's rank and loses one enemy liberty |
| JsMoves.RanksOrdered | ipfish/src/go.js:1360 | capture moves, then atari moves, then surround moves: ranks never decrease |
| JsMoves.SurroundMovesOrdered | ipfish/src/go.js:1282-1361 | `null` exactly without enemy chains or available points; otherwise ranked in order, every move available and not ignored, and every non-ignored enemy liberty present |
| JsMoves.RankAt | ipfish/src/go.js:1360 | the position of an element in the concatenation says which list it came from |
| JsMoves.EyeBuilders | ipfish/src/go.js:706-711 | exactly the friendly chains longer than one stone with a known liberty count within the bound and not yet living |
| JsMoves.Canon | ipfish/src/go.js:764-776 | the re-identified board: same colours everywhere |
| JsMoves.SettledIsCanon | ipfish/src/go.js:67-86 | a settled board with the same colours already has the chain ids re-identification gives |
| JsMoves.EyeMoveAt | ipfish/src/go.js:724-743 | the record of a point: `createsLife` exactly when the board after the move has more living chains; chain length that of the weakest adjacent friendly chain, 0 when none |
| JsMoves.EyeMovesFromSound | ipfish/src/go.js:723-747 | every record the `reduce` keeps is the record of one of the given points, and that point's move adds a living chain, or adds an eye and keeps the living count |
| JsMoves.EyeMovesFromComplete | ipfish/src/go.js:723-747 | the record of every given point whose move adds a living chain, or adds an eye and keeps the living count, is kept |
| JsMoves.Living | ipfish/src/go.js:749 | exactly the records that create life |
| JsMoves.NotLiving | ipfish/src/go.js:749 | exactly the records that do not create life |
| JsMoves.LivingSplit | ipfish/src/go.js:749 | the two parts together are a permutation of the list |
| JsMoves.LifeFirstSorted | ipfish/src/go.js:749 | the sort by `createsLife` is a permutation that puts every life-creating move first |
| JsMoves.EyeCreationMovesAre | ipfish/src/go.js:697-752 | every move is an available, eye-shaped liberty of an eye-building chain that adds life or an eye, `createsLife` tells which, and the life-creating moves come first |
| JsMoves.EyeBlockingMoves2 | ipfish/src/go.js:855-861 | only the opponent's life-creating eye moves |
| JsMoves.EyeBlockingMoves1 | ipfish/src/go.js:867-873 | only the opponent's eye moves that do not create life |
| JsMoves.EyeBlockingSplit | ipfish/src/go.js:855-873 | the two blocking lists together are a permutation of the opponent's eye creation moves with bound 5 |
| JsMoves.AreaFlags | ipfish/src/go.js:1392-1400 | one flag per point, set exactly for an on-board point inside the rectangle |
| JsMoves.KeptLength | ipfish/src/go.js:1392-1400 | at most one point is kept per flag |
| JsMoves.AvailableNeedsThree | ipfish/src/go.js:1406-1410 | a corner can be available only on a board of size three or more, since seven live points are needed |
| JsMoves.CornerMovesAsWritten | ipfish/src/go.js:1368-1386 | as written: at most four lookups, one per available corner, which may be `null` |
| JsMoves.OfflineCornerPushed | ipfish/src/go.js:1372-1383 | on a 3 by 3 board whose point `(0, 0)` is offline, every corner area is the whole board with eight empty points, and the first pushed target is that `null` point |
| JsMoves.CornerMoves | ipfish/src/go.js:1368-1386 | corrected: at most four live points, exactly the live targets of the available corners |
| JsMoves.CornerTarget | ipfish/src/go.js:1372-1383 | the target of one corner, only when it is a live point |
| JsMoves.CornerTargetFrom | ipfish/src/go.js:1372-1385 | exactly the live targets of corners `k` to 3, at most one per corner |
| JsMoves.CornerMovesAgree | ipfish/src/go.js:1368-1410 | a corner gives a target exactly when it is available and its target point is live; an available corner implies a board of size three or more, so the target lookup is on the board |
| JsPriority.AvailableLive | ipfish/src/go.js:251 | every available space `findDisputedTerritory` returns is a live point |
| JsPriority.GetMoveOptions | ipfish/src/go.js:250-279 | all moves on the board, defend moves gain liberties; the end game holds exactly when the opponent passed and no available point is contested, and then the pattern, eye and eye-blocking lists are empty |
| JsPriority.OptionsOnBoard | ipfish/src/go.js:250-279 | the same facts for any list of live available spaces |
| JsPriority.SurroundOnBoard | ipfish/src/go.js:260 | every surround move is an available point |
| JsPriority.EyeMovesOnBoard | ipfish/src/go.js:266-268 | every eye creation and eye blocking move is an available point |
| JsPriority.Share | ipfish/src/go.js:1436 | `chainLength / boardLength` is never negative |
| JsPriority.Runs | ipfish/src/go.js:1432-1514 | the eight additive loops of the scoring, one run of increments each |
| JsPriority.RunsFit | ipfish/src/go.js:1432-1514 | every increment of every run lands on the board |
| JsPriority.ConcatIn | ipfish/src/go.js:1432-1514 | joining runs that land on the board gives increments that land on the board |
| JsPriority.BumpsFit | ipfish/src/go.js:1432-1514 | all increments land on the board |
| JsPriority.ApplyBumps | ipfish/src/go.js:1432-1514 | adding increments keeps the score table's size |
| JsPriority.ApplyBumpsAt | ipfish/src/go.js:1432-1514 | each point's score after the loops is its old score plus the total of the increments aimed at it |
| JsPriority.ApplyBumpsAppend | ipfish/src/go.js:1432-1514 | running two loops one after another is running their joined increments |
| JsPriority.TotalAtLeast | ipfish/src/go.js:1432-1514 | with non-negative increments a point's total is at least any one increment aimed at it, and never negative |
| JsPriority.TotalNonNegative | ipfish/src/go.js:1432-1514 | with non-negative increments every total is non-negative |
| JsPriority.ScoreExpansions | ipfish/src/go.js:1516-1521 | an expansion point still at zero becomes 1.502; every other score is unchanged |
| JsPriority.PriorityScores | ipfish/src/go.js:1422-1535 | one score per board point |
| JsPriority.ScoreAt | ipfish/src/go.js:1422-1535 | a point's final score is its increment total, raised to 1.502 when it is an expansion move left at zero, plus its jitter when positive |
| JsPriority.AmountsNonNegative | ipfish/src/go.js:1432-1500 | every increment is non-negative, since defend moves gain liberties |
| JsPriority.ConcatNonNegative | ipfish/src/go.js:1432-1514 | joining non-negative runs gives non-negative increments |
| JsPriority.ConcatStartsWith | ipfish/src/go.js:1432-1447 | the surround run comes first in the joined increments |
| JsPriority.CaptureScoresHigh | ipfish/src/go.js:1435-1436 | a capture move's point ends with a score of at least 17.013 |
| JsPriority.ScoresNonNegative | ipfish/src/go.js:1422-1535 | no final score is negative |
| JsPriority.GetPriorityMove | ipfish/src/go.js:1422-1535 | the loops fill the score table with exactly the priority scores |
| JsPriority.AddExpansions | ipfish/src/go.js:1516-1521 | the expansion loop leaves the table as the expansion rule says |
| JsPriority.AddJitter | ipfish/src/go.js:1524-1530 | the last loop adds each point's draw exactly to the positive scores |
| JsPriority.AddBumps | ipfish/src/go.js:1432-1514 | an additive loop leaves each score raised by the increments aimed at it |
| JsPriority.BestBelow | ipfish/src/go.js:236-238 | among the first `k` points, the first valid point with the largest positive score, or none when no valid point is positive |
| JsPriority.ChooseMove | ipfish/src/go.js:236-242 | pass exactly when no valid point scores above zero; otherwise a valid positive point with the largest score, the first such in scan order |
| JsPriority.JitterKeepsPass | ipfish/src/go.js:1524-1530 | the jitter never changes whether the engine passes |
| JsPriority.JitterNearBest | ipfish/src/go.js:1524-1530 | the move chosen after jitter is valid, positive, and within 0.001 of the best score before jitter |
| JsPriority.GetMove | ipfish/src/go.js:221-243 | a chosen move is a valid board point; the engine passes exactly when no valid point has a positive priority score |
| BitSets.TrailingZeros | ipfish/rust/bitset.rs:24-35 | `trailing_zeros` of a non-zero word: the index of the lowest set bit, with every bit below it clear |
| BoardFromString.LocationInjective | ipfish/rust/board_from_string.rs:25-27 | two different characters never land on the same point |
| BoardFromString.Accepted | ipfish/rust/board_from_string.rs:20-41 | the codes of the accepted characters, in order; other characters are skipped |
| BoardFromString.ParseStep | ipfish/rust/board_from_string.rs:20-41 | one more accepted character writes its code at its location and leaves every other point as it was |
| ExtReals.Max | ipfish/rust/minimax_ab_strategy.rs:80-81 | `f64::max`: an upper bound of both operands and one of them |
| ExtReals.Min | ipfish/rust/minimax_ab_strategy.rs:113-114 | `f64::min`: a lower bound of both operands and one of them |
| GameHistory.ExampleMarker | ipfish/src/Game.ts:91-98 | in the host's example message the last marker is the one before the reason |
| JsCreate.Initial | ipfish/src/go.js:41-59 | the board the column strings describe is an `n` by `n` board |
| Reachability.HomeReachable | serverburn/src/getServerList.ts:4-5 | "home" is reachable from itself |

## Left out

- Host plumbing is not modelled. This covers:
  - `main` loops, `ns.sleep`, `exec`, `toast` and `tprint`;
  - the worker `onmessage`/`postMessage` code and `Game.realAnalysis`;
  - the constructor's host reset, and the asynchronous and lazy dispatch of `getMoveOptions`;
  - `ns.go.makeMove`/`passTurn` beyond their answers, and `createBoard`'s `ns.go.getBoardState()`, whose strings are an input instead.
- `evaluateIfMoveIsValid` is an input set of valid points, not a query to the host.
- `Math.random` in `getPriorityMove` is the `noise` parameter. Only its range `[0, 0.001)` is assumed.
- Floating point is modelled as exact reals:
  - there is no rounding and no NaN;
  - `f64::INFINITY` and `f64::NEG_INFINITY` are the extended reals `PosInf` and `NegInf`;
  - the `f64 as u8` cast of `Player::from` is written out as truncation with saturation.
- Several Rust files are not part of this model, because they are randomised, stubbed or unfinished:
  - the Monte Carlo, MCTS and `minimax_mc*` strategies;
  - `evaluate_move(s)`, `pick_strategy`, `mc_lines`;
  - the examples and the benches.
- `board.rs` has no `komi` field, while `pass_move.rs` and `score.rs` read one. One `Board` record with `komi` serves all Rust files.
- `minimax_ab_strategy.rs` does not compile as written: it moves `legal_moves` inside a loop and uses `!`, `&=` and `|=`, which `bitset.rs` does not define. It is modelled with its evident meaning:
  - the operators are `Complement`, `IntersectWith` and `UnionWith` on a 64-bit word;
  - White's capture scan runs over a copy of the legal set.
- `BitSet`: `usize::BITS` is taken as 64.
- The fixture tests are not evaluated on their concrete boards: the legality tables of `get_legal_moves.rs`, the three positions of `final_score.rs` and the self-capture fixtures of `is_self_capture.rs`. The general contracts those tests exercise are proved instead. The `is_in_atari.rs` and `bitset.rs` tests are modelled.
- UI components, `autoPlay.ts`, `main.ts`, `Farm.ts` and the other farmburn, serverburn and targetburn scripts call the host only. They are not part of this model.
- SimpleHwgw: requires that at least one operation needs RAM. With all four amounts zero the source loop never ends on a network with a server (see "## Findings" and `BasicHack.ZeroRamRoundRepeats`).
- SimpleHwgw: requires distinct server names. The source keys its RAM table by name, so duplicate names would share one entry.
- JsMoves.GrowthMove: when no chain is found, the `chainLength` is 0. The source reads `.length` of `undefined` there (go.js:1198, and go.js:744 for `JsMoves.EyeMoveAt`), which would throw. Both generators only visit liberties of friendly chains, so a friendly neighbour chain is always present on the boards they see.
- JsMoves.EyeMoveAt: the eyes of the board after the move are counted on the re-identified board `Canon`. Chain ids there come from a fresh labelling rather than `resetChainsById`'s partial one. The two boards have the same colours (`Canon` ensures it), so the eye regions and bordering chains are the same.
- JsMoves.EyeCreationMovesAre: the stable sort on `createsLife` is stated as a permutation that puts life-creating moves first. The order within each class is not stated.
- JsPriority.ChooseMove: the descending sort followed by taking the first element is modelled as the first maximum in scan order. For equal scores that is the element a stable sort keeps first.
- JsPriority.GetMoveOptions: the lists are computed eagerly. The source computes them lazily when scored, and their values are the same.

## Findings

| source | as written | input that shows it | evidently intended | confidence | as-written member | corrected member |
|---|---|---|---|---|---|---|
| ipfish/src/go.js:1010-1016 | `horizontalMirror` reverses each row with `split("").reverse().join()`, and `join()` separates with commas | any pattern: the row `"XO."` becomes `".,O,X"`, five characters, so the mirrored pattern has 15 tokens and checks `","` against a board point, which `matches` never accepts | rows reversed with `join("")`; the defect has no visible effect, because the first 104 patterns already hold every horizontal mirror image (each is a half turn followed by the vertical mirror), so the lost half was redundant and `findAnyMatchedPatterns` returns the same points either way | not executed | JsPatterns.HorizontalMirrorAsWritten, JsPatterns.AsWrittenNeverMatches, JsPatterns.AsWrittenMatchesOnlyUnmirrored | JsPatterns.HorizontalMirror, JsPatterns.HorizontalMirrorMatch, JsPatterns.ExpandAllMirrorMatches, JsPatterns.SameMatches, JsPatterns.PatternMovesAsWritten |
| ipfish/src/go.js:1368-1386 | `getCornerMove` pushes `board[cornerMax][cornerMax]` and the other targets without checking them, and `getPriorityMove` reads `point.x` of each (go.js:1504-1506) | a 3 by 3 board whose point (0, 0) is offline: each corner area has eight live empty points, so all four are available and the first target pushed is `null` | push a corner target only when it is a live point | not executed | JsMoves.CornerMovesAsWritten, JsMoves.OfflineCornerPushed | JsMoves.CornerMoves, JsMoves.CornerMovesAgree |
| farmburn/src/hack/basicHack.ts:73-117 | the `while(true)` loop stops only when a cursor runs off the network; an operation that needs no RAM always fits on the first server, and each placement takes nothing | all four required RAM amounts 0 on a network with at least one server: every round places a full batch on the first server and leaves the RAM and the cursors as they were, so the loop never ends and keeps pushing batches | some operation needs RAM, so every round exhausts a server or moves a cursor and the loop ends | not executed | BasicHack.ZeroRamRoundRepeats | BasicHack.SimpleHwgw, BasicHack.RoundProgress |
