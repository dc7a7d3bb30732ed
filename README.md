# Ataxx board and search, modelled in Dafny

This project models the core of an Ataxx engine played on a 7-by-7 board. It has two parts:

- **The board (`Board.java`)** is a state machine over an 11-by-11 grid of 121 squares. The playable squares a1..g7 sit inside a two-deep border that is always blocked. On top of the grid the board keeps:
  - the piece counts;
  - the side to move;
  - the jump streak and the open-square count;
  - the winner;
  - the history of moves;
  - an undo stack of (square, previous colour) records, with a marker where each move starts.
- **The automated player (`AI.java`)** lists the legal moves in a fixed scan order and scores positions by material, or by a win. It searches with depth-bounded minimax and alpha-beta pruning. The search makes and undoes moves on a private copy of the board.

Modules, one per file:

- `Colors` (colors.dfy): piece colours, and an `Option` standing for Java's null.
- `Moves` (moves.dfy): moves, as a subset type that enforces the distance-1 (extend) or distance-2 (jump) shape.
- `Geometry` (geometry.dfy): indexing of the bordered grid (`index`, `neighbor`), the 3-by-3 flip scan, and the loop-step facts for the index-stepping loops.
- `Rules` (rules.dfy): pure functions of the squares. They cover:
  - legality and mobility;
  - the squares and undo records a move produces;
  - replaying undo records;
  - the winner rule;
  - mirror-symmetric blocks;
  - the start position.
- `States` (states.dfy): the whole board as one `State` value. It includes the transitions `AfterMove`, `AfterPass` and `AfterUndo`, and the round trip between move and undo.
- `Boards` (board.dfy): the `Board` class. Its fields and arrays are updated in place by methods whose contracts are stated with the functions above.
- `Evaluation` (evaluation.dfy): `staticScore`, and the move listing of `legalMoves` as a specification function.
- `Minimax` (minimax.dfy): the outcome of `minMax` as a function of the board state, and the properties of the search.
- `Players` (ai.dfy): the `AI` class. `FindMove`, `MinMax` and `LegalMoves` are imperative methods proved against `Minimax.Search(AsWritten, …)`, `Minimax.SavedAsWritten` and `Evaluation.LegalMovesSpec`. They follow `AI.java` as written: the reply of a minimising node is searched with `sense` (AI.java:108-109), and a cut-off returns without storing the move (AI.java:104, 116). The corrected search of the Findings, `Minimax.Search(Alternating, …)` with the store `Minimax.SavedMove`, stands beside it in the `Minimax` module only; the search lemmas there are proved for both sense rules.

Some conventions of the model:

- **Coordinates** are integers. Column `a` and row `1` are 0, so the playable squares have coordinates 0..6 and the border squares -2, -1, 7 and 8.
- **The two parallel undo stacks** (`_undoSquares`, `_undoPieces`) are one stack of `UndoEntry` values. The entry `MoveStart` stands for the pair of nulls that marks the start of a move.
- **The search spec threads the state.** The search is specified over whole-board states because an undo does not restore every field. It restores the squares, the side to move, the history and the undo stack, but not the open count, the EMPTY count, or the jump streak after an extend. `minMax` therefore runs each reply from the state the previous undo left, and `Minimax.Loop` threads that state from each reply to the next.

## Model

| member | source | states |
|---|---|---|
| Colors.Opposite | ataxx/Board.java:289 | the opponent of RED is BLUE and of BLUE is RED; the other colours have none |
| Colors.Ordinal | ataxx/Board.java:133-140 | every colour has one of the four slots of the piece-count array |
| Colors.OrdinalInjective | ataxx/Board.java:133-140 | distinct colours use distinct count slots, so updating one colour's count leaves the others alone |
| Colors.OppositeInvolution | ataxx/Board.java:368 | flipping the side to move twice gives back the player (undo reverses makeMove's hand-over) |
| Moves.MoveOf | ataxx/Board.java:209-211 | a move between two squares exists (is not null) exactly when the squares lie in the extended grid at distance 1 or 2, and is then that move |
| Moves.ExtendOrJump | ataxx/Board.java:290-321 | every non-pass move is exactly one of extend and jump, so makeMove's two branches cover it |
| Geometry.Index | ataxx/Board.java:78-80 | every square of the extended grid has an index in 0..120, and every board square one in 24..96 |
| Geometry.IndexRoundTrip | ataxx/Board.java:78-80 | every index of the grid is the index of exactly one square, and that square is on the board exactly when the index is playable |
| Geometry.IndexInjective | ataxx/Board.java:78-80 | distinct squares have distinct indices |
| Geometry.NeighborIndex | ataxx/Board.java:84-86 | neighbor(index(c, r), dc, dr) is index(c + dc, r + dr) |
| Geometry.NeighborCoordinates | ataxx/Board.java:215-236 | every square of the 5-by-5 scan around a playable square is inside the grid, and its column and row are those of the centre shifted by dc and dr |
| Geometry.ClearStep | ataxx/Board.java:92-97 | clear's loop visits only playable squares; its end-of-row test holds exactly in column g; the squares its skip passes over are border squares |
| Geometry.ScanColumn | ataxx/Board.java:302-304 | the column test of the flip loop holds exactly at the right-hand column of the 3-by-3 block |
| Geometry.ScanAdvance | ataxx/Board.java:296-305 | the flip loop's steps move one square right, or from a row's right end to the next row's left end, and the loop ends after the third row |
| Geometry.Window3Bounds | ataxx/Board.java:296-305 | the flip loop visits the nine squares of the block in strictly increasing index order |
| Geometry.Window3Distinct | ataxx/Board.java:296-305 | the flip loop never visits a square twice |
| Rules.Count | ataxx/Board.java:133-140 | the number of squares of a colour is at most the number of squares |
| Rules.CountUpdate | ataxx/Board.java:375-377 | overwriting one square moves one unit from the old colour's count to the new one's |
| Rules.LegalOriginOnBoard | ataxx/Board.java:199-204 | the origin of a legal move holds the mover, so it and the destination are playable squares |
| Rules.FlipWritesIsFlipSet | ataxx/Board.java:296-305 | writing the scanned squares one at a time turns exactly the opponent pieces of the block into the mover's |
| Rules.FlipScanStep | ataxx/Board.java:296-305 | each step of the flip loop makes one conditional write, one conditional undo record and one conditional count change |
| Rules.FlipUnwind | ataxx/Board.java:296-305 | replaying the records the flip loop pushes gives back the squares before the loop |
| Rules.FlipCount | ataxx/Board.java:297-301 | the flip loop moves one unit from the opponent's count to the mover's per flipped piece and leaves the other counts alone |
| Rules.FlipScanDone | ataxx/Board.java:296-305 | the completed flip loop flips the opponent pieces of the block, keeps the border blocked and records only playable squares |
| Rules.FlipRecords | ataxx/Board.java:298 | the flip loop pushes one record per flipped piece, holding the opponent's colour, and no move start |
| Rules.PlacedBorder | ataxx/Board.java:290-309 | placing the piece of a legal move writes only board squares, so the border stays blocked |
| Rules.PlaceUndone | ataxx/Board.java:290-308 | replaying the records of placing the piece gives back the squares before it |
| Rules.MoveUndone | ataxx/Board.java:279-325 | replaying every record a legal move pushes, from the squares the move leaves, gives back the squares before the move |
| Rules.MoveThenUnwind | ataxx/Board.java:287-288 | after a legal move, its move start is the most recent one, what lies below it is the stack before the move, and replaying what lies above it restores the squares |
| Rules.MoveCounts | ataxx/Board.java:290-321 | a legal move changes the colour counts of the squares by the placed piece of an extend (one fewer empty square, one more mover piece) and one opponent-to-mover unit per flip |
| Rules.AppliedChanges | ataxx/Board.java:290-321 | a legal move changes exactly the destination, a jump's origin and the opponent pieces around the destination, and never adds or removes a block |
| Rules.JumpLeavesWindow | ataxx/Board.java:306-320 | a jump's origin lies outside the block around its destination, so the flip loop never touches it |
| Rules.UnwindSet | ataxx/Board.java:162-165 | recording a square's colour before overwriting it lets the replay undo the write |
| Rules.UnwindTop | ataxx/Board.java:374-377 | replaying a stack starts with its top record |
| Rules.LastStart | ataxx/Board.java:374-381 | the most recent move start exists in a stack that holds one, and no move start lies above it |
| Rules.LastStartOnly | ataxx/Board.java:374-381 | the undo loop stops at the most recent move start and no other |
| Rules.LastStartAfterPush | ataxx/Board.java:388-391 | a move start pushed before a move's records is the one undo stops at, and the records above it are exactly what it replays |
| Rules.RecordsOnBoardAppend | ataxx/Board.java:394-397 | pushing records of playable squares keeps every record on the board |
| Rules.Decide | ataxx/Board.java:330-336 | the material decision is RED iff red has more pieces, BLUE iff blue has more, EMPTY iff they are equal |
| Rules.WinnerAfter | ataxx/Board.java:328-355 | checkWinner's decision table, whose material case is Decide: with both sides stuck or the jump limit reached, the winner is the material decision; otherwise a stuck mover with no pieces loses; the winner changes only in those cases |
| Rules.MirrorCount | ataxx/Board.java:426-449 | a block covers 4 squares off both middle lines, 2 on exactly one, and 1 at d4 |
| Rules.BlockWrites | ataxx/Board.java:427-431 | setBlock's four writes block exactly the square and its mirror images |
| Rules.BlockAtBorder | ataxx/Board.java:412-416 | the mirror images of a board square are board squares, so the border stays blocked |
| Rules.BlockAtSymmetric | ataxx/Board.java:412-416 | placing a block with its mirror images keeps the blocks symmetric about column d and row 4 |
| Rules.BlockAtCount | ataxx/Board.java:412-416 | a block placed where no image holds a colour leaves that colour's count of squares alone |
| Rules.MirrorMembership | ataxx/Board.java:424-431 | a square is a mirror image of c r exactly when its column is c or its mirror and its row is r or its mirror |
| Rules.StartPosition | ataxx/Board.java:90-112 | the start position has a blocked border, symmetric blocks, two pieces of each colour, and RED can move |
| Rules.ClearedIsStart | ataxx/Board.java:92-101 | emptying the playable squares and placing the four corner pieces gives the start position |
| States.Advanced | ataxx/Board.java:287-321 | the writes of a legal non-pass move keep the board well formed, extend the history, push a move start, and leave the side to move and the winner alone |
| States.HandedOver | ataxx/Board.java:322-323 | the end of makeMove hands the move to the opponent and changes only the side to move and the winner |
| States.AfterMove | ataxx/Board.java:279-325 | the state after a legal non-pass move is well formed, with a non-empty history and a move start on the stack |
| States.AfterPass | ataxx/Board.java:359-364 | a pass hands the move to the opponent and leaves the squares alone |
| States.AdvancedIs | ataxx/Board.java:287-321 | a state whose every field is what makeMove writes before the hand-over is the state Advanced says |
| States.AfterMoveMatch | ataxx/Board.java:290-321 | red and blue counts that agree with the squares still agree after a legal move |
| States.AfterMoveCount | ataxx/Board.java:290-321 | makeMove gives the mover the placed piece of an extend and every flipped piece, and takes the flipped pieces from the opponent |
| States.MoveKeepsSurplus | ataxx/Board.java:290-321 | a legal move changes each player's count by exactly the change in that player's squares |
| States.AfterUndo | ataxx/Board.java:367-383 | the state after undo is well formed |
| States.AfterUndoIs | ataxx/Board.java:367-383 | a state whose every field is what undo computes is the state after undo |
| States.AfterUndoCount | ataxx/Board.java:374-379 | undo moves each colour's count by the change in that colour's squares |
| States.UndoRestores | ataxx/Board.java:367-383 | whatever happened in between, undo from any state in the position a legal move reached gives back the position before the move |
| States.MoveThenUndo | ataxx/Board.java:366-383 | undo after a legal non-pass move restores the squares, the side to move, the history, the undo stack and the red and blue counts, clears the winner, restores the streak after a jump, and keeps counts that agreed with the squares in agreement |
| States.MoveThenUndoRecords | ataxx/Board.java:367-381 | the squares, side to move, history and stack half of MoveThenUndo |
| States.MoveThenUndoCount | ataxx/Board.java:375-376 | the count half of MoveThenUndo: undo restores a player's count whatever it was, since it moves the counts exactly opposite to makeMove |
| States.UnwindBorder | ataxx/Board.java:374-379 | replaying records of playable squares keeps the border blocked |
| States.CountsMoved | ataxx/Board.java:290-321 | counts that moved by the placed and flipped pieces colour by colour are the counts with those two updates |
| Evaluation.StaticScoreZeroSum | ataxx/AI.java:135-145 | swapping the players' roles negates the score |
| Evaluation.StaticScoreOrder | ataxx/AI.java:133-145 | a RED win scores winningValue, a BLUE win -winningValue, a draw 0, and an undecided position strictly between them |
| Evaluation.KeptIfLegal | ataxx/AI.java:166-173 | on a destination that is not skipped, a move is kept exactly when legalMove accepts it |
| Evaluation.KeptHit | ataxx/AI.java:162-173 | a legal move goes at most two columns and rows from its origin and is kept at its destination |
| Evaluation.PiecesShape | ataxx/AI.java:150-157 | the collected pieces are board squares holding the side to move, in scan order |
| Evaluation.PiecesHas | ataxx/AI.java:150-157 | every board square holding the side to move is collected |
| Evaluation.ScanRoundTrip | ataxx/AI.java:151-152 | the piece scan visits the 49 board squares, columns a to g and rows 7 down to 1, once each |
| Evaluation.ScanPosRoundTrip | ataxx/AI.java:151-152 | every board square has a scan position below 49 that leads back to it |
| Evaluation.ColumnShape | ataxx/AI.java:164-174 | the moves kept in one destination column are legal moves from the piece into that column, in listing order |
| Evaluation.ColumnsShape | ataxx/AI.java:162-175 | the moves kept from one piece are legal moves at most two columns and rows away, in listing order |
| Evaluation.ColumnHas | ataxx/AI.java:164-174 | a move kept at a row the column loop tries is in the column's list |
| Evaluation.ColumnsHas | ataxx/AI.java:162-175 | a move kept in a column the loop tries is in the piece's list |
| Evaluation.TargetsHasLegal | ataxx/AI.java:159-175 | every legal move is in the list of its origin |
| Evaluation.MovesOfSound | ataxx/AI.java:159-176 | every listed move is a legal non-pass move from a collected piece |
| Evaluation.MovesOfHas | ataxx/AI.java:159-176 | every move kept from a collected piece is listed |
| Evaluation.MovesOfAscending | ataxx/AI.java:159-176 | pieces in scan order give moves in listing order |
| Evaluation.LegalMovesExact | ataxx/AI.java:147-178 | legalMoves lists exactly the legal non-pass moves of the side to move |
| Evaluation.LegalMovesOrdered | ataxx/AI.java:149-178 | legalMoves lists by origin column ascending, origin row descending, destination column ascending, destination row descending, so no move twice |
| Evaluation.CanMoveIffMoves | ataxx/Board.java:215-236 | canMove(who) holds exactly when the open count and who's count are nonzero and legalMoves lists a move for who |
| Evaluation.EmptyNearListed | ataxx/Board.java:222-232 | a piece with an empty square within two columns and rows gives a listed move |
| Evaluation.ListedEmptyNear | ataxx/Board.java:222-232 | a listed move starts at a piece with an empty square within two columns and rows |
| Minimax.ChildSense | ataxx/AI.java:95-109 | the sense of the reply search: -1 after a maximising node under either rule; after a minimising node it maximises only with alternating senses (as written it passes `sense` on) |
| Minimax.AsWrittenSenseStuck | ataxx/AI.java:107-109 | as written, after a legal BLUE move RED is to move, yet the reply search minimises (ChildSense(AsWritten, -1) is -1) |
| Minimax.SenseFollowsMover | ataxx/AI.java:95-97 | with the opposite sense at every level (Alternating), the reply search maximises exactly when RED is to move after the move |
| Minimax.ListedAllLegal | ataxx/AI.java:92-94 | every move the loop makes is a legal non-pass move, so makeMove never throws |
| Minimax.Search | ataxx/AI.java:78-131 | minMax, under either sense rule, leaves the board in the position it started from (squares, side to move, history, stack), and searches exactly when depth > 0 and there is no winner |
| Minimax.Reply | ataxx/AI.java:94-98 | making a move, searching the reply with ChildSense and undoing it leaves the board in the position it had |
| Minimax.ReplyFrom | ataxx/AI.java:96-98 | searching the reply with ChildSense (as written: -sense after a maximising node, sense after a minimising one) and undoing leaves a well-formed board |
| Minimax.Consider | ataxx/AI.java:99-118 | a strictly better reply becomes the best and narrows the window; the loop is cut off only by a strictly better reply at or beyond the other bound; otherwise the window stays open |
| Minimax.Loop | ataxx/AI.java:93-125 | the move loop, under either sense rule, leaves the board in the position it started from |
| Minimax.LoopStep | ataxx/AI.java:93-121 | one turn of the loop, under either sense rule, either ends it cut off with that move and the reply's score or goes on from the state the undo left with the considered window |
| Minimax.LoopBest | ataxx/AI.java:87-125 | under either sense rule, the loop settles on a pass exactly when nothing was listed, and otherwise on none or one of the listed moves |
| Minimax.LoopBounds | ataxx/AI.java:95-119 | under either sense rule, a maximising loop never returns below its start score, returns at least beta when cut off, and below beta when it runs to the end; a minimising loop symmetrically with alpha |
| Minimax.MaxLoopBounds | ataxx/AI.java:95-106 | the maximising half of LoopBounds (MaxBounded) |
| Minimax.MinLoopBounds | ataxx/AI.java:107-118 | the minimising half of LoopBounds (MinBounded) |
| Minimax.ReplyWithinScore | ataxx/AI.java:95-119 | a loop that runs to the end returns a score no worse, for the searching side, than each reply it considers |
| Minimax.MaxReplyWithin | ataxx/AI.java:95-106 | the maximising half of ReplyWithinScore |
| Minimax.MinReplyWithin | ataxx/AI.java:107-118 | the minimising half of ReplyWithinScore |
| Minimax.LeafScore | ataxx/AI.java:80-85 | a won position is not searched, records no move, and scores plus or minus WINNING_VALUE + depth (0 for a draw), so a sooner win scores further from 0 |
| Minimax.SavedMoveLegal | ataxx/AI.java:123-129 | for the corrected store (SavedMove, which also stores on a cut-off), a searched position stores a move, a pass exactly when legalMoves is empty, and otherwise none or a listed legal move |
| Minimax.SavedAsWrittenLegal | ataxx/AI.java:99-129 | as written, a searched position stores a move exactly when its loop was not cut off; a position with no listed move stores a pass; a stored move is a pass exactly when legalMoves is empty, and otherwise none or a listed legal move |
| Minimax.FullWindowCutoff | ataxx/AI.java:56-65 | with the full window a search is cut off only by a reply scoring INFTY (maximising) or -INFTY (minimising) |
| Minimax.NoMovesScore | ataxx/AI.java:87-130 | a searched position with no listed move scores sense * -INFTY and stores a pass |
| Minimax.StalemateReply | ataxx/AI.java:90-98 | the reply to a move that leaves the undecided opponent no listed move scores INFTY for a maximising searcher under either rule; for a minimising searcher it scores INFTY as written (the reply search minimises too) and -INFTY with alternating senses |
| Minimax.RootCutoffLosesMove | ataxx/AI.java:99-129 | when the first listed move leaves the undecided opponent no listed move, a maximising root (under either rule, or a minimising one with alternating senses) is cut off: as written nothing is stored, while the corrected store keeps that move |
| Boards.Board.Equals | ataxx/Board.java:478-485 | two boards are equal exactly when every square agrees |
| Boards.Board.constructor | ataxx/Board.java:52-59 | a new board is in the start position: blocked border, four corner pieces, counts 49 empty, 0 blocked, 2 red, 2 blue, RED to move, no history, no winner, open count 45 |
| Boards.Board.Copy | ataxx/Board.java:63-75 | the copy has the squares, counts, history, streak, open count and side to move of the original, in fresh arrays, with an empty undo stack and no winner |
| Boards.Board.Clear | ataxx/Board.java:90-112 | clear gives the start position, the counts 49 empty, 2 red and 2 blue with the blocked count kept, RED to move, open count 45, and empty history and stack |
| Boards.Board.ResetCounts | ataxx/Board.java:102-104 | the count writes of clear leave the blocked count as it was |
| Boards.Board.PlaceStartPieces | ataxx/Board.java:92-101 | the square writes of clear give the start position |
| Boards.Board.EmptyPlayable | ataxx/Board.java:92-97 | clear's loop empties every playable square and only those |
| Boards.Board.CanMove | ataxx/Board.java:215-236 | canMove is false on a zero open count or piece count, and otherwise true iff some square of who has an empty square within two columns and rows |
| Boards.Board.LegalMove | ataxx/Board.java:180-206 | null is illegal; a pass is legal iff the mover cannot move and has a piece; another move iff its destination is on the board, its origin holds the mover and its destination is empty |
| Boards.Board.StartUndo | ataxx/Board.java:388-391 | a move start is pushed |
| Boards.Board.AddUndo | ataxx/Board.java:394-397 | the square and its current colour are pushed |
| Boards.Board.Set | ataxx/Board.java:162-165 | the square is written and its previous colour recorded |
| Boards.Board.UnrecordedSet | ataxx/Board.java:175-177 | the square is written and nothing is recorded |
| Boards.Board.FlipAt | ataxx/Board.java:297-301 | an opponent piece becomes the mover's, is recorded, and moves one unit between the counts; any other square is left alone |
| Boards.Board.FlipNeighbors | ataxx/Board.java:296-305 | the flip loop flips exactly the opponent pieces of the block, pushes one record per flip, and moves the counts by the number flipped |
| Boards.Board.FlipScan | ataxx/Board.java:296-305 | the flip loop visits the nine squares of the block in order, each as FlipStep says |
| Boards.Board.FlipStep | ataxx/Board.java:297-304 | one iteration of the flip loop extends the scanned part by one square |
| Boards.Board.PlacePiece | ataxx/Board.java:290-310 | an extend fills the destination, counts the piece, closes one open square and resets the streak; a jump empties the origin, fills the destination and lengthens the streak; each write is recorded |
| Boards.Board.MovePieces | ataxx/Board.java:290-321 | the squares become Applied, the stack gains the move's records, and the counts move by the placed and flipped pieces |
| Boards.Board.CheckWinner | ataxx/Board.java:328-355 | the winner becomes WinnerAfter of the current mobility, streak and counts |
| Boards.Board.Pass | ataxx/Board.java:359-364 | a move start is pushed and the opponent is to move |
| Boards.Board.BeginMove | ataxx/Board.java:287-288 | the move joins the history and a move start is pushed |
| Boards.Board.Advance | ataxx/Board.java:287-321 | the board becomes the state Advanced says |
| Boards.Board.HandOver | ataxx/Board.java:322-323 | the board becomes the state HandedOver says |
| Boards.Board.MakeNonPass | ataxx/Board.java:287-323 | a legal non-pass move takes the board to AfterMove |
| Boards.Board.MakeMove | ataxx/Board.java:279-325 | an illegal move is refused and changes nothing; a legal pass gives AfterPass; a legal move gives AfterMove |
| Boards.Board.RestoreTop | ataxx/Board.java:375-378 | the top record is popped, its square gets its previous colour, the counts follow, and the open count grows by one |
| Boards.Board.PopRecords | ataxx/Board.java:374-379 | the undo loop pops records until the move start is on top, replaying them |
| Boards.Board.ReplayLastMove | ataxx/Board.java:374-381 | the records above the most recent move start are replayed and popped with the start, the open count grows by their number, and the counts follow the squares |
| Boards.Board.Undo | ataxx/Board.java:367-383 | the board becomes AfterUndo of the board before |
| Boards.Board.LegalBlock | ataxx/Board.java:400-405 | a block is legal exactly when no move has been made and the square is an empty board square |
| Boards.Board.BlockImages | ataxx/Board.java:427-431 | the square and its mirror images become blocked |
| Boards.Board.BlockSquares | ataxx/Board.java:424-449 | the images become blocked, the blocked count grows and the empty count and open count shrink by their number, and symmetric blocks stay symmetric |
| Boards.Board.SetBlock | ataxx/Board.java:417-455 | an illegal block is refused and changes nothing; a legal one places the images, moves the counts by their number, and declares a draw when neither side can then move |
| Players.Copied | ataxx/Board.java:63-75 | a copy keeps the squares, side to move and counts, with no winner |
| Players.Weigh | ataxx/AI.java:99-118 | the comparison of the move loop computes the cut-off and the new window Consider says |
| Players.AI.constructor | ataxx/AI.java:31-34 | a new player for a colour has stored no move |
| Players.AI.FindMove | ataxx/AI.java:56-65 | the move returned is what a full-window search to depth 4 of a copy of the board, as written, stores: null when the root was cut off, otherwise the move it settles on; it is a pass exactly when no move is listed, and otherwise none (null) or a listed move |
| Players.AI.MinMax | ataxx/AI.java:78-131 | returns the score of the as-written Search, leaves the board as it says, and with saveMove stores its move exactly when the position was searched and the loop was not cut off (SavedAsWritten) |
| Players.AI.SearchMoves | ataxx/AI.java:87-130 | the move loop and the pass for an empty list compute the as-written Loop: its score, its move, whether it was cut off, and the board it leaves |
| Players.AI.Turn | ataxx/AI.java:93-121 | one iteration of the loop is the as-written LoopStep: a cut-off ends the loop with the outcome Loop gives, otherwise the loop state still leads to it |
| Players.AI.Respond | ataxx/AI.java:94-98 | making a move and searching the reply is the as-written Reply |
| Players.AI.SearchReply | ataxx/AI.java:96-98 | searching the reply with -sense after a maximising node and sense after a minimising one, then undoing the move, is the as-written ReplyFrom |
| Players.AI.LegalMoves | ataxx/AI.java:149-178 | the nested loops compute LegalMovesSpec, which LegalMovesExact and LegalMovesOrdered characterise |
| Players.AI.TargetsFrom | ataxx/AI.java:159-175 | the destination loops for one piece give the moves kept from it |
| Players.AI.TargetsInColumn | ataxx/AI.java:164-174 | the innermost loop gives the moves kept in one column, skipping squares left of a or above 7 |

## Left out

- `Move.java` and `PieceColor.java` are not part of this model. `Move` is a datatype (pass, or two squares at distance 1 or 2) and `PieceColor` is an enumeration in the order EMPTY, BLOCKED, RED, BLUE, which indexes the count array.
- The dead extend-distance check of `legalMove` (Board.java:192-197) is not modelled, because the `Move` subset type already has distance 1 or 2.
- The early `get(c, r) == BLOCKED` return of `setBlock` (Board.java:421-423) is not modelled, because `legalBlock` already rejects a blocked square.
- `AI.getMove` is left out. It reports through `game().reportMove` and times through `Main`, classes outside this model.
- The `Random` field of the AI is left out, because the search never uses it.
- `toString`, `hashCode`, the notifier (`setNotifier`, `announce`) and the one-line getters are left out. They are display, Java hashing, and a UI callback (a no-op here). The getters appear as fields and `NumPieces`.
- The string and char overloads of `makeMove`, `legalMove`, `legalBlock` and `setBlock` are left out; the model takes `Move` values and integer coordinates directly.
- Java's 32-bit `int` width is not modelled, because every count, index and score stays inside its range (`INFTY` is 2^31 - 1).
- `GameException` is not modelled; an illegal `makeMove` or `setBlock` returns `false` and changes nothing.
- Pass and undo: a pass pushes a move start but does not join the history, so `undo` after a pass is not claimed to restore anything.
- Undo and the streak: `undo` does not restore the jump streak after an extend, so `States.MoveThenUndo` restores it after a jump only.
- The open count after undo: `undo` adds one to the open count per replayed record, and `makeMove` never changes the EMPTY count. No conservation of empty squares is claimed for either.
- The open count and the scan: that the open count never under-counts the empty playable squares, so that `canMove`'s early exit agrees with its scan, is not proved; it would be one more invariant of every board method.
- Boards.Board.MovePieces: does not state that red and blue counts agree with the squares; that is stated on states by `States.AfterMoveMatch`.
- The corrected search: `Players.AI` runs only the as-written search (`Minimax.Search(AsWritten, …)` and `Minimax.SavedAsWritten`). `Minimax.Search(Alternating, …)` and `Minimax.SavedMove` are not carried out by any method; they are specification functions for the Findings.
- Minimax.ReplyWithinScore: states that the score is at least as good as each reply, not that it equals the first best reply, because each reply is searched from the state the previous undo left.
- Model splits: several methods and lemmas split one source routine into parts so that each part's proof stays small. The splits are `BeginMove`, `Advance`, `HandOver`, `ResetCounts`, `PlaceStartPieces`, `FlipScan`, `FlipStep`, `PopRecords`, `Weigh`, `Turn`, `Respond`, `SearchReply`, `TargetsFrom` and `TargetsInColumn`. Each part's row cites the source lines it covers. The search loop's proofs are split the same way into `LoopBestStep`, `MaxLoopStep`, `MinLoopStep`, `MaxBoundedStep` and `MinBoundedStep`, over the predicates `MaxBounded`, `MinBounded` and `Players.Searching`. The helpers `KeptAt`, `Scanned`, `Replaying`, `MovesOfNext`, `StartScore`, `KeyBelow`, `PushAssoc` and `CountsByColor` carry single proof steps of the rows that use them and model no routine of their own.

## Findings

| source | as written | input that shows it | evidently intended | confidence | as-written member | corrected member |
|---|---|---|---|---|---|---|
| ataxx/AI.java:108-109 | a minimising node searches its replies with `sense`, so every node below a BLUE node minimises, although RED is to move there; `Players.AI` and `Search(AsWritten, …)` keep this | any BLUE node with a legal move: after it RED is to move, yet the reply is searched with sense -1 | the reply is searched with `-sense`, as at AI.java:96-97, so a node maximises exactly when RED is to move; `Search(Alternating, …)` | not executed | Minimax.AsWrittenSenseStuck | Minimax.SenseFollowsMover |
| ataxx/AI.java:103-117 | the cut-off returns before `_lastFoundMove = best` (AI.java:127-129), so a cut-off root stores nothing and `findMove` returns null; `Players.AI.MinMax` keeps this (`SavedAsWritten`) | a RED root (sense 1) whose first listed move leaves BLUE, still holding pieces and without a winner, no move: the reply scores INFTY and the root is cut off with alpha = beta = INFTY | the move that caused the cut-off is stored, as the comment at AI.java:71-74 says; `SavedMove` | not executed | Minimax.RootCutoffLosesMove | Minimax.SavedMoveLegal |
