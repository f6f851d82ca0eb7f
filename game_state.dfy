/**
 * The game state object and the factory that builds it. The object keeps the
 * setup, the pieces still to move this round, MrX's travel log, MrX and the
 * detectives; it also caches the winner and the move set its last move query
 * computed. Its queries and `advance` are proved against the functions of
 * `Rules`, `Transition` and `Accessors`.
 */
module GameStateFactory {
  import opened Wrappers
  import opened ScotlandYard
  import opened MoveGeneration
  import opened Validation
  import opened Rules
  import opened Transition
  import opened Accessors

  /** The pieces of the detectives, added one detective at a time. */
  method DetectivePieces(detectives: seq<Player>) returns (pieces: set<Piece>)
    ensures pieces == PiecesOf(detectives)
  {
    pieces := {};
    for i := 0 to |detectives|
      invariant pieces == PiecesOf(detectives[..i])
    {
      PiecesOfPrefix(detectives, i);
      pieces := pieces + {detectives[i].piece};
    }
    assert detectives[..|detectives|] == detectives;
  }

  /** Whether some detective stands on `location`; the scan stops at the first one. */
  method AnyAt(detectives: seq<Player>, location: int) returns (found: bool)
    ensures found <==> exists i :: 0 <= i < |detectives| && detectives[i].location == location
  {
    found := false;
    for i := 0 to |detectives|
      invariant forall j :: 0 <= j < i ==> detectives[j].location != location
    {
      if detectives[i].location == location {
        found := true;
        break;
      }
    }
  }

  /** The single moves of every one of `movers` from its own location, collected in order. */
  method CollectSingles(setup: GameSetup, detectives: seq<Player>, movers: seq<Player>)
    returns (moves: set<SingleMove>)
    ensures moves == UnionSingles(setup, detectives, movers)
  {
    moves := {};
    for i := 0 to |movers|
      invariant moves == UnionSingles(setup, detectives, movers[..i])
    {
      var found := MakeSingleMoves(setup, detectives, movers[i], movers[i].location);
      assert movers[..i + 1][..i] == movers[..i];
      moves := moves + found;
    }
    assert movers[..|movers|] == movers;
  }

  /** The single moves of the detectives whose piece is in `remaining`, collected in order. */
  method CollectRemainingSingles(setup: GameSetup, detectives: seq<Player>, remaining: set<Piece>)
    returns (moves: set<SingleMove>)
    ensures moves == UnionSingles(setup, detectives, InRemaining(detectives, remaining))
  {
    moves := {};
    for i := 0 to |detectives|
      invariant moves == UnionSingles(setup, detectives, InRemaining(detectives[..i], remaining))
    {
      var movers := InRemaining(detectives[..i], remaining);
      assert detectives[..i + 1][..i] == detectives[..i];
      if detectives[i].piece in remaining {
        var found := MakeSingleMoves(setup, detectives, detectives[i], detectives[i].location);
        assert (movers + [detectives[i]])[..|movers|] == movers;
        moves := moves + found;
      } else {
        assert movers + [] == movers;
      }
    }
    assert detectives[..|detectives|] == detectives;
  }

  /**
   * Appends a log entry for each ticket other than DOUBLE, for the round the
   * log has reached, revealed at `location` or hidden as that round says;
   * `None` when the log reaches a round the list does not have.
   */
  method RecordLog(rounds: seq<bool>, log: seq<LogEntry>, ts: seq<Ticket>, location: int)
    returns (r: Option<seq<LogEntry>>)
    ensures r == RecordTickets(rounds, log, ts, location)
  {
    var newLog := log;
    assert ts[0..] == ts;
    for k := 0 to |ts|
      invariant RecordTickets(rounds, newLog, ts[k..], location) == RecordTickets(rounds, log, ts, location)
    {
      assert ts[k..][1..] == ts[k + 1..];
      if ts[k] != Double {
        if |newLog| >= |rounds| {
          return None;
        }
        if rounds[|newLog|] {
          newLog := newLog + [Revealed(ts[k], location)];
        } else {
          newLog := newLog + [Hidden(ts[k])];
        }
      }
    }
    assert ts[|ts|..] == [];
    return Some(newLog);
  }

  /** The moved list grows by one detective at a time. */
  lemma MoveDetectiveStep(detectives: seq<Player>, mover: Piece, ts: seq<Ticket>, destination: int, i: int)
    requires 0 <= i < |detectives|
    ensures MoveDetective(detectives[..i + 1], mover, ts, destination)
            == MoveDetective(detectives[..i], mover, ts, destination)
               + [if detectives[i].piece == mover then detectives[i].Use(ts).At(destination) else detectives[i]]
  {
    var longer := MoveDetective(detectives[..i + 1], mover, ts, destination);
    var shorter := MoveDetective(detectives[..i], mover, ts, destination);
    forall j | 0 <= j < i
      ensures longer[j] == shorter[j]
    {
      assert detectives[..i + 1][j] == detectives[..i][j];
    }
  }

  /**
   * Each detective whose piece is `mover` spends `ts` and moves to
   * `destination`, and MrX receives `ts` for each; the others are kept.
   */
  method MoveAndReward(detectives: seq<Player>, mover: Piece, ts: seq<Ticket>, destination: int, mrX: Player)
    returns (moved: seq<Player>, rewarded: Player)
    ensures moved == MoveDetective(detectives, mover, ts, destination)
    ensures rewarded == Rewarded(mrX, detectives, mover, ts)
  {
    moved := [];
    rewarded := mrX;
    for i := 0 to |detectives|
      invariant moved == MoveDetective(detectives[..i], mover, ts, destination)
      invariant rewarded == Rewarded(mrX, detectives[..i], mover, ts)
    {
      assert detectives[..i + 1][..i] == detectives[..i];
      MoveDetectiveStep(detectives, mover, ts, destination, i);
      if detectives[i].piece == mover {
        moved := moved + [detectives[i].Use(ts).At(destination)];
        rewarded := rewarded.Give(ts);
      } else {
        moved := moved + [detectives[i]];
      }
    }
    assert detectives[..|detectives|] == detectives;
  }

  /**
   * A game state. Only `mrX` and the two caches are ever reassigned after
   * construction: `advance` moves MrX of the receiver itself, and every move
   * query overwrites the cached winner.
   */
  class GameState {
    const setup: GameSetup
    const remaining: set<Piece>
    const log: seq<LogEntry>
    var mrX: Player
    const detectives: seq<Player>
    /** The move set of the last query that found no winner; `None` before any. */
    var moves: Option<set<Move>>
    /** The winner set of the last move query; `None` before any. */
    var winner: Option<set<Piece>>

    /** The fields the rules depend on, as a value. */
    function View(): Snapshot
      reads this
    {
      Snapshot(setup, remaining, log, mrX, detectives)
    }

    /** The constructor's checks hold of the current fields. */
    predicate Valid()
      reads this
    {
      Wellformed(View())
    }

    /** Stores the fields of a configuration that passes the checks. */
    constructor(setup: GameSetup, remaining: set<Piece>, log: seq<LogEntry>, mrX: Player, detectives: seq<Player>)
      requires Wellformed(Snapshot(setup, remaining, log, mrX, detectives))
      ensures View() == Snapshot(setup, remaining, log, mrX, detectives)
      ensures Valid() && moves.None? && winner.None?
    {
      this.setup := setup;
      this.remaining := remaining;
      this.log := log;
      this.mrX := mrX;
      this.detectives := detectives;
      moves := None;
      winner := None;
    }

    /**
     * Builds a state after running the constructor's checks; a missing MrX or
     * detective list is `None`. The first failing check is the error.
     */
    static method Create(setup: GameSetup, remaining: set<Piece>, log: seq<LogEntry>,
                         mrX: Option<Player>, detectives: Option<seq<Player>>)
      returns (r: Result<GameState, SetupError>)
      ensures r.Failure? <==> CheckSetup(setup, mrX, detectives).Some?
      ensures r.Failure? ==> r.error == CheckSetup(setup, mrX, detectives).value
      ensures r.Success? ==> && fresh(r.value)
                             && r.value.View() == Snapshot(setup, remaining, log, mrX.value, detectives.value)
                             && r.value.Valid() && r.value.moves.None? && r.value.winner.None?
    {
      var error := Validate(setup, mrX, detectives);
      if error.Some? {
        return Failure(error.value);
      }
      var state := new GameState(setup, remaining, log, mrX.value, detectives.value);
      return Success(state);
    }

    /** MrX's piece and the piece of every detective. */
    method GetPlayers() returns (players: set<Piece>)
      ensures players == Players(View())
    {
      players := {mrX.piece};
      for i := 0 to |detectives|
        invariant players == {mrX.piece} + PiecesOf(detectives[..i])
      {
        PiecesOfPrefix(detectives, i);
        players := players + {detectives[i].piece};
      }
      assert detectives[..|detectives|] == detectives;
    }

    /** The location of the first detective of colour `colour`, if there is one. */
    method GetDetectiveLocation(colour: Colour) returns (location: Option<int>)
      ensures location == DetectiveLocation(detectives, colour)
    {
      assert detectives[0..] == detectives;
      for i := 0 to |detectives|
        invariant DetectiveLocation(detectives[i..], colour) == DetectiveLocation(detectives, colour)
      {
        if detectives[i].piece == Detective(colour) {
          return Some(detectives[i].location);
        }
        assert detectives[i..][1..] == detectives[i + 1..];
      }
      return None;
    }

    /** The tickets of the player whose piece is `piece`, if it plays in this game. */
    method GetPlayerTickets(piece: Piece) returns (tickets: Option<TicketMap>)
      ensures tickets == PlayerTickets(View(), piece)
    {
      var players := GetPlayers();
      if piece !in players {
        return None;
      }
      if piece == MrX {
        return Some(mrX.tickets);
      } else if piece.Detective? {
        assert detectives[0..] == detectives;
        for i := 0 to |detectives|
          invariant DetectiveTickets(detectives[i..], piece) == DetectiveTickets(detectives, piece)
        {
          if detectives[i].piece == piece {
            return Some(detectives[i].tickets);
          }
          assert detectives[i..][1..] == detectives[i + 1..];
        }
      }
      return None;
    }

    /**
     * Computes the winner, caching it, and the moves of whoever is to move. The
     * move set is cached only when nobody has won; once somebody has, no move
     * is available and the previous cache is left as it was.
     */
    method GetAvailableMoves() returns (available: set<Move>)
      modifies this`winner, this`moves
      ensures winner == Some(Winner(View()))
      ensures available == AvailableMoves(View())
      ensures moves == (if Winner(View()) == {} then Some(available) else old(moves))
    {
      var newWinner: set<Piece> := {};
      var detectiveWinners := DetectivePieces(detectives);
      if |log| == |setup.rounds| && mrX.piece in remaining {
        newWinner := newWinner + {mrX.piece};
      }
      var caught := AnyAt(detectives, mrX.location);
      assert caught == Caught(View());
      if caught {
        newWinner := newWinner + detectiveWinners;
      }
      var detectiveMoves := CollectSingles(setup, detectives, detectives);
      if detectiveMoves == {} {
        newWinner := newWinner + {mrX.piece};
      }
      assert newWinner == EarlyWinner(View());
      var allMoves: set<Move> := {};
      if newWinner == {} {
        var roundsLeft := |setup.rounds|;
        if mrX.piece in remaining {
          if roundsLeft >= 2 {
            var singles := MakeSingleMoves(setup, detectives, mrX, mrX.location);
            var doubles := MakeDoubleMoves(setup, detectives, mrX, mrX.location);
            allMoves := AsMoves(singles) + AsDoubleMoves(doubles);
          } else if roundsLeft == 1 {
            var singles := MakeSingleMoves(setup, detectives, mrX, mrX.location);
            allMoves := AsMoves(singles);
          }
          assert allMoves == MrXMoves(View());
          if allMoves == {} {
            newWinner := newWinner + detectiveWinners;
          }
        } else {
          var singles := CollectRemainingSingles(setup, detectives, remaining);
          allMoves := AsMoves(singles);
        }
      }
      assert newWinner == Winner(View());
      winner := Some(newWinner);
      if newWinner != {} {
        return {};
      }
      moves := Some(allMoves);
      return allMoves;
    }

    /** The winner set, computed by a move query. */
    method GetWinner() returns (won: set<Piece>)
      modifies this`winner, this`moves
      ensures won == Winner(View()) && winner == Some(won)
      ensures moves == (if won == {} then Some(AvailableMoves(View())) else old(moves))
    {
      var _ := GetAvailableMoves();
      return winner.value;
    }

    /**
     * Plays `move`: the successor state, or the reason it cannot be built. The
     * receiver is not left untouched: its winner and move caches are
     * recomputed, and once the move is legal its own MrX moves (or receives
     * the detective's tickets) as well, even when logging the move then fails.
     */
    method Advance(move: Move) returns (r: Result<GameState, AdvanceError>)
      requires Valid()
      modifies this`mrX, this`winner, this`moves
      ensures Valid()
      ensures winner == Some(Winner(old(View())))
      ensures moves == (if Winner(old(View())) == {} then Some(AvailableMoves(old(View()))) else old(moves))
      ensures mrX == ReceiverMrX(old(View()), move)
      ensures r.Failure? ==> AdvanceSpec(old(View()), move) == Failure(r.error)
      ensures r.Success? ==> && fresh(r.value)
                             && AdvanceSpec(old(View()), move) == Success(r.value.View())
                             && r.value.Valid() && r.value.moves.None? && r.value.winner.None?
    {
      var available := GetAvailableMoves();
      if move !in available {
        return Failure(IllegalMove);
      }
      ghost var s := View();
      if move.Mover() == MrX {
        r := AdvanceMrX(move);
      } else {
        WellformedFacts(s);
        AvailableMoveMover(s, move);
        ghost var i :| 0 <= i < |detectives| && detectives[i].piece == move.Mover()
                 && move.single in SingleMoves(setup, detectives, detectives[i], detectives[i].location);
        SingleMovesShape(setup, detectives, detectives[i], detectives[i].location, move.single);
        assert move.Mover() in PiecesOf(detectives);
        var next := AdvanceDetective(move);
        r := Success(next);
      }
    }

    /**
     * The MrX branch of `advance`: MrX spends the move's tickets and moves, the
     * detectives are to move next, and each ticket other than DOUBLE is logged
     * for the next round, revealed or hidden as that round says.
     */
    method AdvanceMrX(move: Move) returns (r: Result<GameState, AdvanceError>)
      requires Valid() && move.Mover() == MrX
      modifies this`mrX
      ensures Valid()
      ensures mrX == old(mrX).Use(move.Tickets()).At(move.FinalDestination())
      ensures r.Failure? ==> MrXAdvance(old(View()), move) == Failure(r.error)
      ensures r.Success? ==> && fresh(r.value)
                             && MrXAdvance(old(View()), move) == Success(r.value.View())
                             && r.value.Valid() && r.value.moves.None? && r.value.winner.None?
    {
      ghost var s := View();
      var newRemaining := remaining;
      var newLog := log;
      var des := match move
        case OfSingle(m) => m.destination
        case OfDouble(m) => m.destination2;
      var ts := move.Tickets();
      newRemaining := newRemaining - {move.Mover()};
      mrX := mrX.Use(ts).At(des);
      var newDetectives := detectives;
      newRemaining := newRemaining - {mrX.piece};
      var pieces := DetectivePieces(detectives);
      newRemaining := newRemaining + pieces;
      var recorded := RecordLog(setup.rounds, log, ts, mrX.location);
      if recorded.None? {
        return Failure(RoundOutOfBounds);
      }
      newLog := recorded.value;
      assert CheckSetup(setup, Some(mrX), Some(detectives)) == CheckSetup(setup, Some(s.mrX), Some(detectives));
      assert MrXAdvance(s, move) == Success(Snapshot(setup, newRemaining, newLog, mrX, newDetectives));
      var next := Create(setup, newRemaining, newLog, Some(mrX), Some(newDetectives));
      return Success(next.value);
    }

    /**
     * The detective branch of `advance`: the mover spends its tickets and moves,
     * MrX receives them, and the detectives still to move are skipped when
     * none of them has a move.
     */
    method AdvanceDetective(move: Move) returns (next: GameState)
      requires Valid() && move.OfSingle? && move.Mover() in PiecesOf(detectives) && MrX !in remaining
      requires !Occupied(detectives, move.single.destination)
      modifies this`mrX
      ensures Valid()
      ensures mrX == Rewarded(old(mrX), detectives, move.Mover(), move.Tickets())
      ensures fresh(next) && next.View() == DetectiveAdvance(old(View()), move)
      ensures next.Valid() && next.moves.None? && next.winner.None?
    {
      ghost var s := View();
      DetectiveAdvanceValid(s, move);
      var currentPlayer := move.Mover();
      var newRemaining := remaining;
      var des := match move
        case OfSingle(m) => m.destination
        case OfDouble(m) => m.destination2;
      var ts := move.Tickets();
      newRemaining := newRemaining - {currentPlayer};
      var newDetectives, rewarded := MoveAndReward(detectives, currentPlayer, ts, des, mrX);
      mrX := rewarded;
      RewardedKeeps(s.mrX, detectives, currentPlayer, ts);
      var remainingMoves := CollectRemainingSingles(setup, detectives, newRemaining);
      if newRemaining != {} && remainingMoves == {} {
        newRemaining := {mrX.piece};
      }
      if newRemaining == {} {
        newRemaining := {mrX.piece};
      }
      assert Snapshot(setup, newRemaining, log, mrX, newDetectives) == DetectiveAdvance(s, move);
      var created := Create(setup, newRemaining, log, Some(mrX), Some(newDetectives));
      return created.value;
    }
  }

  /** Starts a game: MrX is to move first and the travel log is empty. */
  method Build(setup: GameSetup, mrX: Option<Player>, detectives: Option<seq<Player>>)
    returns (r: Result<GameState, SetupError>)
    ensures r.Failure? <==> CheckSetup(setup, mrX, detectives).Some?
    ensures r.Failure? ==> r.error == CheckSetup(setup, mrX, detectives).value
    ensures r.Success? ==> && fresh(r.value)
                           && r.value.View() == Snapshot(setup, {MrX}, [], mrX.value, detectives.value)
                           && r.value.Valid() && TurnInvariant(r.value.View())
  {
    r := GameState.Create(setup, {MrX}, [], mrX, detectives);
  }
}
