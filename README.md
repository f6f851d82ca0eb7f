# Scotland Yard game-state model

A Dafny model of the rules engine of a Scotland Yard board game: the game-state
factory `MyGameStateFactory`. It covers:

- **Building and checking a state.** `build` and the `MyGameState` constructor
  reject a bad setup, checking each condition in the code's order.
- **Move generation.** `makeSingleMoves` and `makeDoubleMoves` list the single
  and double moves of a player.
- **Win detection and the legal-move set.** These are computed together by
  `getAvailableMoves`, which also writes the `winner` and `moves` fields.
  `getWinner` calls it.
- **The transition `advance`.** It builds the successor state for a legal move
  and reassigns the receiver's own `mrX` field along the way.
- **The read accessors.** `getPlayers`, `getDetectiveLocation` and
  `getPlayerTickets`.

## How the model is organised

The external value types (`Player`, `Move`, `LogEntry`, `GameSetup`, tickets
and transports) are datatypes in module `ScotlandYard`:

- `Player.Use` spends tickets, `Give` adds them, `At` relocates, and
  `Has`/`HasAtLeast` compare a count with 1 and with n.
- `RequiredTicket` is the fixed transport-to-ticket table. A ferry needs a
  SECRET ticket.
- `Move.Tickets()` is `[t]` for a single move and `[DOUBLE, t1, t2]` for a
  double move.
- A graph maps each node to its neighbours. Each edge carries its transports
  as an ordered sequence, because move generation depends on their order.

The engine itself is modelled in two layers:

- **Specification functions** over `Snapshot` (the fields setup, remaining,
  log, MrX and detectives). These are `CheckSetup` (module `Validation`),
  `SingleMoves` and `DoubleMoves` (`MoveGeneration`), `Winner` and
  `AvailableMoves` (`Rules`), `AdvanceSpec` (`Transition`), and the accessor
  functions (`Accessors`). Lemmas state what each one means.
- **Class `GameStateFactory.GameState`**, with the Java class's fields:
  - `mrX` is a mutable field;
  - the `moves` and `winner` caches are `Option` fields;
  - the other fields are constants.

  Its methods follow the Java loops, and each method is proved to compute the
  specification function. `Advance` reassigns `mrX` as the Java does.

Failures are results rather than exceptions:

- a construction check that fails yields `Failure(reason)`;
- an illegal move yields `Failure(IllegalMove)`;
- the out-of-range `rounds` lookup described below yields
  `Failure(RoundOutOfBounds)`.

### Behaviour as written

The model follows the code, including several corners where the code does
something a reader of the game's rules would not expect. Each corner is proved
on a small concrete game in module `Scenarios`:

- **Sticky ticket flag.** A reader would expect each transport on an edge to
  be offered only when its own ticket is held. The code offers every later
  transport on the same edge once one ticket is held.
  - `StickyBusMove`: a detective at 1 holding only a taxi ticket is offered a
    bus move to 2 when the edge 1-2 lists a taxi route before a bus route.
    With the routes the other way round, it is not.
- **Double moves and total rounds.** A reader would expect a double move to
  need two rounds left. The code only asks that the game have two rounds in
  total.
  - `LastRoundDoubleFails`: on a graph with the cycle 1-2-3 and a node 4 off
    node 3, MrX at 1 holds a DOUBLE and two taxi tickets. The game has two
    rounds, one already logged, and a detective stands on 4. The double move
    1-2-3 is legal, and `advance` fails when it looks up the round for the
    second leg.
  - By then the receiver's `mrX` has already spent the tickets and stands on 3,
    so a failed `advance` does not leave the state untouched.
- **Revealed double moves.** A reader would expect each leg of a double move
  to log the location reached by that leg. The code logs MrX's final location
  for both legs.
  - `RevealedDoubleLogsFinal`: on the same graph with two revealed rounds, the
    double move 1-2-3 logs location 3 twice.
- **`advance` mutates its receiver.** Every call refreshes the caches, even
  for an illegal move, which is then rejected with nothing else changed. Once
  the move is legal, `advance` also reassigns the receiver's `mrX`, even when
  the round lookup then fails (`GameState.Advance`).
- **A detective without tickets stalls the game at once.**
  - `TicketlessDetectiveStalls`: on the three-node taxi cycle 1-2-3 with one
    revealed round, MrX is at 1 with one taxi ticket and a detective is at 2
    with no tickets. The detective has no move, so MrX has already won before
    his first move, and no move is available, although MrX could go to 3.
- **Both sides can win at once.**
  - `BothSidesWin`: on the same cycle with one revealed round, MrX at 1 and a
    detective at 3 each hold one taxi ticket. MrX moves to 2 and the detective
    follows him to 2.
  - The winner set then holds both MrX, who has survived the only round, and
    the detective, who stands on him.
- **No moves, yet no winner.** On MrX's turn, no move is available exactly
  when somebody has won (`MrXTurnHasMovesOrWinner`). On a detectives' turn
  this can fail.
  - `StuckDetectiveTurn`: on the line 1-2-3, Red stands on 1 with two taxi
    tickets and Green on 3 with one, and MrX is out of reach on an isolated
    node 5. Red moves to 2.
  - Green stays to move, because its way to 2 is checked against the
    detectives as they were before Red's move. Now Green has no move, Red
    still could move, and nobody has won.
  - The start state is written down directly rather than built by `Build`
    and played: it passes the constructor's checks and keeps the turn
    invariant (`LineStartWellformed`), but its log is empty on a detectives'
    turn and MrX could not have reached node 5. That the corner also arises
    in a played game rests on a hand argument that is not proved here: add a
    taxi edge 4-5, take two hidden rounds, and start MrX on 4 with one taxi
    ticket. MrX moves to 5, Red moves from 1 to 2, and Green is left to move
    with no move.
- **Locations off the graph.** The constructor does not check that players
  stand on nodes of the graph.
  - `OffGraphDetectiveStalls`: on the taxi cycle, a detective placed on 7
    passes the checks. It has no neighbours and so no move (`OffGraphNoMoves`),
    and MrX wins at once.

## Model

| member | source | states |
|---|---|---|
| GameStateFactory.Build | src/main/java/uk/ac/bris/cs/scotlandyard/model/MyGameStateFactory.java:22-24 | building fails exactly when a setup check fails, with that check's reason; otherwise the new state has `remaining = {MrX}`, an empty log, the given players, passes the checks and is between turns |
| GameStateFactory.GameState.constructor | src/main/java/uk/ac/bris/cs/scotlandyard/model/MyGameStateFactory.java:39-45 | the fields are the given ones and both caches are unset |
| GameStateFactory.GameState.Create | src/main/java/uk/ac/bris/cs/scotlandyard/model/MyGameStateFactory.java:39-83 | construction fails exactly when `CheckSetup` reports a reason, and with that reason; otherwise it yields a fresh, valid state with the given fields and unset caches |
| Validation.CheckSetup | src/main/java/uk/ac/bris/cs/scotlandyard/model/MyGameStateFactory.java:46-81 | the error the constructor throws, checked in the code's order; an accepted setup has rounds, a graph with nodes, MrX and a detective list, and MrX is not a detective (characterised by `CheckSetupReasons` and `CheckSetupAccepts`) |
| Validation.Validate | src/main/java/uk/ac/bris/cs/scotlandyard/model/MyGameStateFactory.java:46-82 | the checking loop, which grows the used pieces and spawn locations, reports exactly the reason `CheckSetup` gives |
| Validation.CheckSetupReasons | src/main/java/uk/ac/bris/cs/scotlandyard/model/MyGameStateFactory.java:46-81 | the first five reasons occur exactly under their conditions, in order (empty rounds, no MrX, no detectives, empty graph, MrX is a detective); each per-detective reason implies a witness: a duplicate piece, MrX among the detectives, a shared spawn location, or a SECRET or DOUBLE ticket |
| Validation.CheckSetupAccepts | src/main/java/uk/ac/bris/cs/scotlandyard/model/MyGameStateFactory.java:46-81 | a setup is accepted exactly when MrX and the detective list are present and `ValidSetup` holds (rounds and graph non-empty, MrX not a detective, detectives with distinct pieces other than MrX, distinct locations and no SECRET or DOUBLE); an empty detective list passes |
| Validation.AllDetectivesPass | src/main/java/uk/ac/bris/cs/scotlandyard/model/MyGameStateFactory.java:54-81 | every detective passes its check against the detectives before it exactly when the whole list is well formed |
| Validation.FirstDetectiveErrorSome | src/main/java/uk/ac/bris/cs/scotlandyard/model/MyGameStateFactory.java:54-81 | the reported reason is that of the first failing detective, all earlier ones passing |
| Validation.FirstDetectiveErrorNone | src/main/java/uk/ac/bris/cs/scotlandyard/model/MyGameStateFactory.java:54-81 | the loop reports nothing exactly when every detective from the given one on passes |
| Accessors.Players | src/main/java/uk/ac/bris/cs/scotlandyard/model/MyGameStateFactory.java:92-99 | the players are MrX's piece and every detective's piece, and nothing else |
| Accessors.PlayersCount | src/main/java/uk/ac/bris/cs/scotlandyard/model/MyGameStateFactory.java:92-99 | in a state that passed the checks there is one piece per detective plus MrX's |
| GameStateFactory.GameState.GetPlayers | src/main/java/uk/ac/bris/cs/scotlandyard/model/MyGameStateFactory.java:92-99 | the loop returns exactly the players' pieces |
| Accessors.DetectiveLocation | src/main/java/uk/ac/bris/cs/scotlandyard/model/MyGameStateFactory.java:102-107 | the lookup loop; a location found belongs to a detective of that colour (characterised by `DetectiveLocationSpec`) |
| Accessors.DetectiveLocationSpec | src/main/java/uk/ac/bris/cs/scotlandyard/model/MyGameStateFactory.java:102-107 | the lookup yields nothing exactly when no detective has that colour, and otherwise the location of the first detective that has it |
| Accessors.DetectiveLocationOf | src/main/java/uk/ac/bris/cs/scotlandyard/model/MyGameStateFactory.java:102-107 | in a checked state the lookup yields the location of the one detective with that colour |
| GameStateFactory.GameState.GetDetectiveLocation | src/main/java/uk/ac/bris/cs/scotlandyard/model/MyGameStateFactory.java:102-107 | the loop returns what `DetectiveLocation` specifies |
| Accessors.PlayerTickets | src/main/java/uk/ac/bris/cs/scotlandyard/model/MyGameStateFactory.java:110-124 | the tickets query; tickets are found only for a piece in the game (characterised by `PlayerTicketsSpec`) |
| Accessors.PlayerTicketsSpec | src/main/java/uk/ac/bris/cs/scotlandyard/model/MyGameStateFactory.java:110-124 | the query yields nothing exactly for a piece not in the game; MrX gets his own tickets and a detective gets its own |
| Accessors.DetectiveTicketsFound | src/main/java/uk/ac/bris/cs/scotlandyard/model/MyGameStateFactory.java:116-121 | the detective loop finds the tickets of the first detective with the piece |
| GameStateFactory.GameState.GetPlayerTickets | src/main/java/uk/ac/bris/cs/scotlandyard/model/MyGameStateFactory.java:110-124 | the method returns what `PlayerTickets` specifies |
| ScotlandYard.RequiredTicket | src/main/java/uk/ac/bris/cs/scotlandyard/model/MyGameStateFactory.java:283-289 | no transport needs a DOUBLE ticket, and exactly the ferry needs SECRET |
| ScotlandYard.Player.Use | src/main/java/uk/ac/bris/cs/scotlandyard/model/MyGameStateFactory.java:219 | spending keeps piece and location and lowers each count by the number of times the ticket is spent |
| ScotlandYard.Player.Give | src/main/java/uk/ac/bris/cs/scotlandyard/model/MyGameStateFactory.java:240 | receiving keeps piece and location and raises each count by the number of times the ticket is given |
| ScotlandYard.Player.At | src/main/java/uk/ac/bris/cs/scotlandyard/model/MyGameStateFactory.java:219 | relocating changes the location only |
| ScotlandYard.Move.Tickets | src/main/java/uk/ac/bris/cs/scotlandyard/model/MyGameStateFactory.java:226-227 | a single move uses its one ticket; a double move uses DOUBLE and then its two leg tickets |
| ScotlandYard.SpendTotal | src/main/java/uk/ac/bris/cs/scotlandyard/model/MyGameStateFactory.java:219 | spending lowers the ticket total by the number of tickets spent |
| ScotlandYard.ReceiveTotal | src/main/java/uk/ac/bris/cs/scotlandyard/model/MyGameStateFactory.java:240 | receiving raises the ticket total by the number of tickets received |
| MoveGeneration.EdgeMoves | src/main/java/uk/ac/bris/cs/scotlandyard/model/MyGameStateFactory.java:283-291 | the transport loop of one edge with its sticky flag; every move it emits is the player's, from the source, to the destination, without DOUBLE (characterised by `EdgeMovesIff`) |
| MoveGeneration.EdgeMovesIff | src/main/java/uk/ac/bris/cs/scotlandyard/model/MyGameStateFactory.java:283-291 | the transport loop of one edge emits a ticket exactly when some transport needing it comes at or after one whose ticket is held (or the flag was already set), plus SECRET when one is held and the edge has a transport |
| MoveGeneration.OffGraphNoMoves | src/main/java/uk/ac/bris/cs/scotlandyard/model/MyGameStateFactory.java:271 | a source with no edges has no neighbours, so it yields no single move |
| MoveGeneration.SingleMoves | src/main/java/uk/ac/bris/cs/scotlandyard/model/MyGameStateFactory.java:268-294 | `makeSingleMoves`; every move is the player's, leaves the source without DOUBLE and reaches an adjacent node no detective occupies (characterised by `SingleMovesIff`) |
| MoveGeneration.SingleMovesShape | src/main/java/uk/ac/bris/cs/scotlandyard/model/MyGameStateFactory.java:271-282 | every single move is the player's, from the source, with a ticket other than DOUBLE, to an adjacent node no detective occupies |
| MoveGeneration.SingleMovesIff | src/main/java/uk/ac/bris/cs/scotlandyard/model/MyGameStateFactory.java:271-291 | a single move is generated exactly when it goes to an adjacent unoccupied node and the edge offers its ticket |
| MoveGeneration.SecretMoveIff | src/main/java/uk/ac/bris/cs/scotlandyard/model/MyGameStateFactory.java:283-290 | a SECRET move to a node is generated exactly when the node is adjacent and unoccupied, the edge has a transport, and a SECRET is held (or a ferry is offered through the sticky flag) |
| MoveGeneration.StickyTicket | src/main/java/uk/ac/bris/cs/scotlandyard/model/MyGameStateFactory.java:273-287 | holding the ticket of one transport on an edge makes every later transport on that edge generate its move |
| MoveGeneration.MovesTo | src/main/java/uk/ac/bris/cs/scotlandyard/model/MyGameStateFactory.java:272-291 | the occupancy check and transport loop for one destination yield nothing for an occupied node and the edge's moves otherwise |
| MoveGeneration.MakeSingleMoves | src/main/java/uk/ac/bris/cs/scotlandyard/model/MyGameStateFactory.java:268-294 | the destination loop returns exactly `SingleMoves` |
| MoveGeneration.DoubleMoves | src/main/java/uk/ac/bris/cs/scotlandyard/model/MyGameStateFactory.java:299 | only MrX holding a DOUBLE ticket has double moves |
| MoveGeneration.DoubleMovesIff | src/main/java/uk/ac/bris/cs/scotlandyard/model/MyGameStateFactory.java:296-312 | a double move is generated exactly when the player is MrX with a DOUBLE, its first leg is a single move from the source, its second leg is a single move from the first leg's destination, and two of a ticket are held when both legs use it |
| MoveGeneration.JoinSecondLegs | src/main/java/uk/ac/bris/cs/scotlandyard/model/MyGameStateFactory.java:301-307 | the inner loop joins a first leg with exactly the combinable second legs |
| MoveGeneration.JoinFirstLegs | src/main/java/uk/ac/bris/cs/scotlandyard/model/MyGameStateFactory.java:300-308 | the outer loop collects the double moves through each first leg |
| MoveGeneration.MakeDoubleMoves | src/main/java/uk/ac/bris/cs/scotlandyard/model/MyGameStateFactory.java:296-312 | the method returns exactly `DoubleMoves` |
| GameStateFactory.DetectivePieces | src/main/java/uk/ac/bris/cs/scotlandyard/model/MyGameStateFactory.java:144-147 | the loop collects exactly the detectives' pieces |
| GameStateFactory.AnyAt | src/main/java/uk/ac/bris/cs/scotlandyard/model/MyGameStateFactory.java:153-158 | the search with early exit finds a detective exactly when one stands on the location |
| GameStateFactory.CollectSingles | src/main/java/uk/ac/bris/cs/scotlandyard/model/MyGameStateFactory.java:160-163 | the loop collects the union of every mover's single moves |
| Rules.UnionSinglesIff | src/main/java/uk/ac/bris/cs/scotlandyard/model/MyGameStateFactory.java:160-163 | a move is in the union exactly when one of the movers has it |
| Rules.RemainingSinglesIff | src/main/java/uk/ac/bris/cs/scotlandyard/model/MyGameStateFactory.java:180-184 | a move is in the union over the players still to move exactly when one of them has it |
| Rules.InRemainingMembers | src/main/java/uk/ac/bris/cs/scotlandyard/model/MyGameStateFactory.java:180-181 | the players still to move are exactly the listed players whose piece is in `remaining` |
| Rules.MrXMoves | src/main/java/uk/ac/bris/cs/scotlandyard/model/MyGameStateFactory.java:168-174 | MrX's moves on his turn; a double move is offered only with at least two rounds in total and to MrX holding DOUBLE (characterised by `MrXTurnMoves`) |
| Rules.Winner | src/main/java/uk/ac/bris/cs/scotlandyard/model/MyGameStateFactory.java:144-188 | the winner set `getAvailableMoves` computes; every winner is MrX or a detective of the game (characterised by `MrXWinsIff` and `DetectivesWinIff`) |
| Rules.AvailableMoves | src/main/java/uk/ac/bris/cs/scotlandyard/model/MyGameStateFactory.java:160-194 | the move set `getAvailableMoves` returns; it is non-empty only when nobody has won, and then holds only moves of whoever is to move (characterised by `MrXTurnMoves`, `DetectiveTurnMoves` and `AvailableMoveMover`) |
| Rules.MrXWinsIff | src/main/java/uk/ac/bris/cs/scotlandyard/model/MyGameStateFactory.java:149-166 | MrX wins exactly when the log is full while he is to move, or no detective has any move |
| Rules.DetectivesWinIff | src/main/java/uk/ac/bris/cs/scotlandyard/model/MyGameStateFactory.java:144-177 | a detective wins exactly when some detective stands on MrX, or when neither MrX rule applies and MrX, to move, has no move |
| Rules.WinnersArePlayers | src/main/java/uk/ac/bris/cs/scotlandyard/model/MyGameStateFactory.java:144-177 | every winner is a player of the game |
| Rules.NoMovesOnceWon | src/main/java/uk/ac/bris/cs/scotlandyard/model/MyGameStateFactory.java:188-191 | once anybody has won, no move is available |
| Rules.NoDetectivesMrXWins | src/main/java/uk/ac/bris/cs/scotlandyard/model/MyGameStateFactory.java:160-166 | without detectives MrX has won at once and nothing can be played |
| Rules.MrXTurnMoves | src/main/java/uk/ac/bris/cs/scotlandyard/model/MyGameStateFactory.java:167-174 | on MrX's turn without a winner, the moves are his single moves, plus his double moves when the game has at least two rounds in total |
| Rules.DetectiveTurnMoves | src/main/java/uk/ac/bris/cs/scotlandyard/model/MyGameStateFactory.java:179-185 | on the detectives' turn without a winner, the moves are exactly the single moves of the detectives still to move |
| Rules.MrXTurnHasMovesOrWinner | src/main/java/uk/ac/bris/cs/scotlandyard/model/MyGameStateFactory.java:167-191 | on MrX's turn no move is available exactly when somebody has won |
| Rules.AvailableMoveMover | src/main/java/uk/ac/bris/cs/scotlandyard/model/MyGameStateFactory.java:167-185 | an available move is MrX's exactly on his turn; otherwise it is a single move of a detective still to move |
| GameStateFactory.GameState.GetAvailableMoves | src/main/java/uk/ac/bris/cs/scotlandyard/model/MyGameStateFactory.java:140-195 | returns exactly `AvailableMoves`; always overwrites the winner field with `Winner`, and overwrites the moves field only when nobody has won |
| GameStateFactory.GameState.GetWinner | src/main/java/uk/ac/bris/cs/scotlandyard/model/MyGameStateFactory.java:132-137 | returns exactly `Winner`, with the fields updated as by a move query |
| Transition.LogEntryFor | src/main/java/uk/ac/bris/cs/scotlandyard/model/MyGameStateFactory.java:227-233 | an entry keeps its ticket and is revealed, carrying the location, exactly in a revealed round |
| Transition.NonDouble | src/main/java/uk/ac/bris/cs/scotlandyard/model/MyGameStateFactory.java:226-227 | the logged tickets include no DOUBLE, and every other ticket of the move is logged exactly as many times as the move uses it |
| Transition.NonDoubleAppend | src/main/java/uk/ac/bris/cs/scotlandyard/model/MyGameStateFactory.java:226-227 | the logged tickets keep the move's order: those of a prefix of the ticket list come first, then those of the rest |
| Transition.RecordTickets | src/main/java/uk/ac/bris/cs/scotlandyard/model/MyGameStateFactory.java:226-235 | the logging loop; a written log keeps the old log as its prefix and, when it grew, fits within the rounds (characterised by `RecordTicketsSpec`) |
| Transition.RecordTicketsSpec | src/main/java/uk/ac/bris/cs/scotlandyard/model/MyGameStateFactory.java:226-235 | logging fails exactly when the non-DOUBLE tickets overrun the rounds; otherwise it appends one entry per such ticket, each following its round's reveal flag, and keeps the old log as a prefix |
| GameStateFactory.RecordLog | src/main/java/uk/ac/bris/cs/scotlandyard/model/MyGameStateFactory.java:226-235 | the logging loop computes `RecordTickets`, failing at the out-of-range round lookup |
| Transition.RecordOne | src/main/java/uk/ac/bris/cs/scotlandyard/model/MyGameStateFactory.java:226-235 | with room in the log, one logged ticket appends exactly one entry for the current round |
| Transition.RecordTwo | src/main/java/uk/ac/bris/cs/scotlandyard/model/MyGameStateFactory.java:226-235 | two logged tickets fail exactly when only one round is left, and otherwise append entries for the next two rounds |
| Transition.RecordMove | src/main/java/uk/ac/bris/cs/scotlandyard/model/MyGameStateFactory.java:209-235 | a single move logs its ticket for the current round; a double move fails exactly with one round left, and otherwise logs both leg tickets with the final location |
| Transition.LegalMrXMove | src/main/java/uk/ac/bris/cs/scotlandyard/model/MyGameStateFactory.java:167-177 | a legal MrX move is made with MrX alone to move and the log not yet full, and its logged tickets are its leg tickets |
| Transition.DoubleLegTickets | src/main/java/uk/ac/bris/cs/scotlandyard/model/MyGameStateFactory.java:170-172 | a legal double move is MrX's, and both its legs are single moves he has, neither with DOUBLE |
| Transition.MoveDetective | src/main/java/uk/ac/bris/cs/scotlandyard/model/MyGameStateFactory.java:237-243 | the detective list keeps its length and order; the mover spends its tickets and moves, and every other detective is unchanged |
| GameStateFactory.MoveAndReward | src/main/java/uk/ac/bris/cs/scotlandyard/model/MyGameStateFactory.java:237-243 | the detective loop computes `MoveDetective` and hands the tickets to MrX once per match, as `Rewarded` specifies |
| Transition.Rewarded | src/main/java/uk/ac/bris/cs/scotlandyard/model/MyGameStateFactory.java:237-241 | MrX after receiving the detective's tickets; piece and location are kept (characterised by `RewardedOnce` and `RewardedTotal`) |
| Transition.RewardedOnce | src/main/java/uk/ac/bris/cs/scotlandyard/model/MyGameStateFactory.java:237-241 | MrX receives the spent tickets once when one detective matches the mover, and nothing when none does |
| Transition.RewardedKeeps | src/main/java/uk/ac/bris/cs/scotlandyard/model/MyGameStateFactory.java:240 | receiving tickets changes neither MrX's piece nor his location |
| Transition.RewardedTotal | src/main/java/uk/ac/bris/cs/scotlandyard/model/MyGameStateFactory.java:240 | MrX's total grows by the number of tickets handed over |
| Transition.MatchesDistinct | src/main/java/uk/ac/bris/cs/scotlandyard/model/MyGameStateFactory.java:237-238 | with distinct pieces the mover matches one detective if it is in the list and none otherwise |
| Transition.MoveDetectiveTotals | src/main/java/uk/ac/bris/cs/scotlandyard/model/MyGameStateFactory.java:239 | the detectives' ticket total falls by exactly what was handed over |
| Transition.MoveDetectivePieces | src/main/java/uk/ac/bris/cs/scotlandyard/model/MyGameStateFactory.java:237-243 | moving a detective keeps the set of detective pieces |
| GameStateFactory.CollectRemainingSingles | src/main/java/uk/ac/bris/cs/scotlandyard/model/MyGameStateFactory.java:247-251 | the loop collects the single moves of the detectives whose piece is still to move, against the list before the move |
| Transition.RemainingAfterDetective | src/main/java/uk/ac/bris/cs/scotlandyard/model/MyGameStateFactory.java:245-259 | `remaining` after a detective move; it is never empty, and is either MrX alone or the players left after the mover (characterised by `DetectiveAdvanceEffect`) |
| Transition.MrXAdvance | src/main/java/uk/ac/bris/cs/scotlandyard/model/MyGameStateFactory.java:217-235 | the successor of a MrX move; it fails only at the round lookup, and on success keeps setup and detectives, puts MrX on the final destination and extends the log (characterised by `MrXAdvanceState` and `MrXMoveEffect`) |
| Transition.DetectiveAdvance | src/main/java/uk/ac/bris/cs/scotlandyard/model/MyGameStateFactory.java:236-259 | the successor of a detective move; setup, log, the number of detectives and MrX's piece and location are kept (characterised by `DetectiveAdvanceEffect`) |
| Transition.AdvanceSpec | src/main/java/uk/ac/bris/cs/scotlandyard/model/MyGameStateFactory.java:200-262 | the result of `advance`; it fails as illegal exactly for a move that is not available, and a successor keeps the setup (characterised by `MrXMoveEffect`, `DetectiveMoveEffect` and `RoundOutOfBoundsIff`) |
| Transition.ReceiverMrX | src/main/java/uk/ac/bris/cs/scotlandyard/model/MyGameStateFactory.java:201-240 | the receiver's own `mrX` after `advance`; its piece is kept, and an illegal move leaves it unchanged (used by `GameState.Advance`) |
| Transition.AdvanceIllegalIff | src/main/java/uk/ac/bris/cs/scotlandyard/model/MyGameStateFactory.java:201 | `advance` fails as illegal exactly for a move that is not available |
| Transition.RoundOutOfBoundsIff | src/main/java/uk/ac/bris/cs/scotlandyard/model/MyGameStateFactory.java:228 | from a state between turns, `advance` fails on the round lookup exactly for a legal double move with one round left |
| Transition.MrXAdvanceState | src/main/java/uk/ac/bris/cs/scotlandyard/model/MyGameStateFactory.java:217-235 | a MrX move succeeds exactly when logging does; the successor keeps setup and detectives, has MrX spent and relocated, the logged entries, and all detectives to move |
| Transition.MrXMoveEffect | src/main/java/uk/ac/bris/cs/scotlandyard/model/MyGameStateFactory.java:217-235 | a legal single MrX move always succeeds; on success the detectives are unchanged, MrX has spent the move's tickets and stands on its final destination, all detectives are to move, and the log gains one entry per leg with the final location |
| Transition.DetectiveAdvanceEffect | src/main/java/uk/ac/bris/cs/scotlandyard/model/MyGameStateFactory.java:237-259 | after a detective move only the mover changes, MrX receives its ticket, the log is kept, the mover leaves `remaining`, and MrX alone is to move exactly when no other detective still to move has a move against the list before the move |
| Transition.DetectiveMoveEffect | src/main/java/uk/ac/bris/cs/scotlandyard/model/MyGameStateFactory.java:237-262 | every legal detective move succeeds, with the effect `DetectiveAdvanceEffect` states |
| Transition.DetectiveAdvanceValid | src/main/java/uk/ac/bris/cs/scotlandyard/model/MyGameStateFactory.java:274-282 | a detective moving to an unoccupied node leaves a state that passes the checks again, with the same pieces and distinct locations |
| Transition.MrXAdvanceWellformed | src/main/java/uk/ac/bris/cs/scotlandyard/model/MyGameStateFactory.java:219-224 | a MrX move keeps the detectives and MrX's piece, so its successor passes the constructor's checks again |
| Transition.AdvanceKeepsWellformed | src/main/java/uk/ac/bris/cs/scotlandyard/model/MyGameStateFactory.java:262 | every successor passes the constructor's checks again |
| Transition.AdvanceKeepsTurnInvariant | src/main/java/uk/ac/bris/cs/scotlandyard/model/MyGameStateFactory.java:217-259 | every successor is between turns again: the log within the rounds, and MrX alone or only detectives to move |
| Transition.MrXAdvanceTotals | src/main/java/uk/ac/bris/cs/scotlandyard/model/MyGameStateFactory.java:219 | a MrX move removes exactly the tickets it uses from the game |
| Transition.DetectiveAdvanceTotals | src/main/java/uk/ac/bris/cs/scotlandyard/model/MyGameStateFactory.java:239-240 | a detective move keeps the total number of tickets in the game |
| Transition.TicketConservation | src/main/java/uk/ac/bris/cs/scotlandyard/model/MyGameStateFactory.java:217-259 | across `advance`, the tickets in the game fall by the tickets used on a MrX move and stay the same on a detective move |
| GameStateFactory.GameState.Advance | src/main/java/uk/ac/bris/cs/scotlandyard/model/MyGameStateFactory.java:200-264 | returns a fresh valid state with unset caches exactly as `AdvanceSpec` gives it, or its failure; the receiver's caches are those of a move query, and its `mrX` is left as the Java leaves it |
| GameStateFactory.GameState.AdvanceMrX | src/main/java/uk/ac/bris/cs/scotlandyard/model/MyGameStateFactory.java:217-236 | moves the receiver's MrX, then builds the successor `MrXAdvance` gives, or fails as it does |
| GameStateFactory.GameState.AdvanceDetective | src/main/java/uk/ac/bris/cs/scotlandyard/model/MyGameStateFactory.java:237-262 | hands the tickets to the receiver's MrX and builds the successor `DetectiveAdvance` gives |
| Scenarios.NoTicketsNoMoves | src/main/java/uk/ac/bris/cs/scotlandyard/model/MyGameStateFactory.java:283-290 | a player holding no ticket has no single move |
| Scenarios.StickyBusMove | src/main/java/uk/ac/bris/cs/scotlandyard/model/MyGameStateFactory.java:273-287 | on an edge with a taxi then a bus route, a taxi-only player is offered the bus move; with the routes reversed it is not |
| Scenarios.TriangleDoubleMoves | src/main/java/uk/ac/bris/cs/scotlandyard/model/MyGameStateFactory.java:296-312 | on a three-node taxi cycle, MrX with a DOUBLE and two taxis has the double moves 1-2-3, 1-2-1 and 1-3-2 |
| Scenarios.TriangleOneTaxiNoDouble | src/main/java/uk/ac/bris/cs/scotlandyard/model/MyGameStateFactory.java:302-304 | with one taxi ticket he has no double move there |
| Scenarios.TicketlessDetectiveStalls | src/main/java/uk/ac/bris/cs/scotlandyard/model/MyGameStateFactory.java:160-166 | a ticketless detective stalls the pursuit, so MrX wins before moving although he has the move 1 to 3 |
| Scenarios.OffGraphDetectiveStalls | src/main/java/uk/ac/bris/cs/scotlandyard/model/MyGameStateFactory.java:160-166 | a detective off the graph passes the constructor's checks, has no move, and MrX wins at once |
| Scenarios.ChaseStartLegal | src/main/java/uk/ac/bris/cs/scotlandyard/model/MyGameStateFactory.java:167-174 | in the chase MrX may move from 1 to 2 |
| Scenarios.ChaseFirstAdvance | src/main/java/uk/ac/bris/cs/scotlandyard/model/MyGameStateFactory.java:217-235 | MrX's move logs his revealed location and hands the turn to the detective |
| Scenarios.ChaseMiddleLegal | src/main/java/uk/ac/bris/cs/scotlandyard/model/MyGameStateFactory.java:179-185 | the detective may then move from 3 to 2 |
| Scenarios.ChaseSecondAdvance | src/main/java/uk/ac/bris/cs/scotlandyard/model/MyGameStateFactory.java:237-259 | the detective's move hands the turn back to MrX |
| Scenarios.ChaseEndWinner | src/main/java/uk/ac/bris/cs/scotlandyard/model/MyGameStateFactory.java:149-158 | MrX has then survived the only round and is caught, so both he and the detective win |
| Scenarios.BothSidesWin | src/main/java/uk/ac/bris/cs/scotlandyard/model/MyGameStateFactory.java:149-191 | the two moves are played and end in a winner set holding both sides, with no move available |
| Scenarios.KiteDoubleLegal | src/main/java/uk/ac/bris/cs/scotlandyard/model/MyGameStateFactory.java:170-172 | in a two-round game with at most one round played, the double move 1-2-3 is legal |
| Scenarios.LastRoundDoubleFails | src/main/java/uk/ac/bris/cs/scotlandyard/model/MyGameStateFactory.java:228 | with one round left the legal double move makes `advance` fail on the round lookup, while the receiver's MrX has moved to 3 |
| Scenarios.KiteRevealedLog | src/main/java/uk/ac/bris/cs/scotlandyard/model/MyGameStateFactory.java:226-235 | logging the double move in two revealed rounds gives two entries at location 3 |
| Scenarios.RevealedDoubleLogsFinal | src/main/java/uk/ac/bris/cs/scotlandyard/model/MyGameStateFactory.java:219-235 | the double move 1-2-3 succeeds and logs location 3 for both legs |
| Scenarios.LineStartLegal | src/main/java/uk/ac/bris/cs/scotlandyard/model/MyGameStateFactory.java:179-185 | with two detectives to move and nobody winning, Red may move from 1 to 2 |
| Scenarios.LineGreenCanMove | src/main/java/uk/ac/bris/cs/scotlandyard/model/MyGameStateFactory.java:247-251 | against the detectives before Red's step, Green, the only other detective to move, has a move |
| Scenarios.LineRemaining | src/main/java/uk/ac/bris/cs/scotlandyard/model/MyGameStateFactory.java:245-255 | Green stays to move after Red's step, since its move to 2 is checked against the detectives before the step |
| Scenarios.LineDetectiveStep | src/main/java/uk/ac/bris/cs/scotlandyard/model/MyGameStateFactory.java:237-259 | Red's step moves Red to 2, hands its taxi ticket to MrX and leaves Green to move |
| Scenarios.LineNextNotStalled | src/main/java/uk/ac/bris/cs/scotlandyard/model/MyGameStateFactory.java:160-166 | after the step Red could still move, so nobody has won |
| Scenarios.LineNextGreenStuck | src/main/java/uk/ac/bris/cs/scotlandyard/model/MyGameStateFactory.java:271-282 | Green, walled in by Red on 2, has no single move |
| Scenarios.StuckDetectiveTurn | src/main/java/uk/ac/bris/cs/scotlandyard/model/MyGameStateFactory.java:179-191 | the step is played, and the state reached has no winner and no available move |

## Left out

- `MyModelFactory` (observer registration and event dispatch) is not part of this model; it holds no rules logic.
- The bodies of `Player`, `Move`, `LogEntry`, `GameSetup`, `Ticket`, `Transport` and `MyTicketBoard` are not part of this model. They are datatypes with the behaviour described above. `getPlayerTickets` returns the ticket map itself rather than a `MyTicketBoard` wrapping it.
- Guava's graph and immutable collections become Dafny maps, sets and sequences. An edge keeps its transports in order, and lists that the code copies into sets are sets.
- `HashSet` iteration order is not modelled: every collection the code iterates in hash order is a set, and the results do not depend on the order.
- `getSetup` and `getMrXTravelLog` only return a field; they are the `setup` and `log` fields of `GameState`.
- `@Nonnull` annotations and Java exception types are not modelled; failures are `Failure` values carrying a reason.
- Ticket counts and locations are unbounded integers; Java's `Integer` overflow is not modelled. A count can go below zero through the sticky flag, since `use` decrements without a check; the model keeps such counts rather than clamping them.
- GameStateFactory.GameState.constructor: requires the setup checks to pass, because a Dafny constructor cannot fail. The failing path of the Java constructor is `GameStateFactory.GameState.Create`, which runs the checks first.
- A failed `GameStateFactory.GameState.Create` builds no object, while the Java constructor has assigned its fields before it throws; no caller can observe those fields.
- Validation.CheckSetupReasons: when one detective holds both a SECRET and a DOUBLE ticket, the model reports SECRET. The Java reports whichever of the two its ticket map iterates first.
- MoveGeneration.OffGraphNoMoves: a location that is not a node of the graph has no neighbours and yields no moves, whereas the graph library's `adjacentNodes` throws for such a node. The constructor does not check locations, so a state built with an off-graph player is one where the Java's `getAvailableMoves`, `getWinner` and `advance` throw. The model computes a result there instead (see `Scenarios.OffGraphDetectiveStalls`). The model also does not tie the graph's node set to its edge map; only the empty-graph check reads the node set.
