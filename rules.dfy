/**
 * Win detection and the legal-move set of a game state (`getAvailableMoves`,
 * `getWinner`), as functions of the state's fields.
 */
module Rules {
  import opened Wrappers
  import opened ScotlandYard
  import opened MoveGeneration
  import opened Validation

  /** The fields of a game state that the rules read: setup, remaining, log, MrX and the detectives. */
  datatype Snapshot = Snapshot(setup: GameSetup, remaining: set<Piece>, log: seq<LogEntry>,
                               mrX: Player, detectives: seq<Player>)

  /** What the constructor's checks guarantee about a state it builds. */
  predicate Wellformed(s: Snapshot)
  {
    CheckSetup(s.setup, Some(s.mrX), Some(s.detectives)).None?
  }

  /**
   * What holds between turns of a game started by `build`: the log is no longer
   * than the rounds, and either MrX alone is to move or only detectives are.
   */
  predicate TurnInvariant(s: Snapshot)
  {
    && |s.log| <= |s.setup.rounds|
    && (s.remaining == {MrX} || (MrX !in s.remaining && s.remaining <= PiecesOf(s.detectives)))
  }

  /** The pieces of `players`. */
  function PiecesOf(players: seq<Player>): set<Piece>
  {
    set i | 0 <= i < |players| :: players[i].piece
  }

  /** Only an empty list of players has no pieces. */
  lemma PiecesOfEmpty(players: seq<Player>)
    ensures PiecesOf(players) == {} <==> players == []
  {
    if players != [] {
      assert players[0].piece in PiecesOf(players);
    }
  }

  /** The facts about a well-formed state that the rules rely on. */
  lemma WellformedFacts(s: Snapshot)
    requires Wellformed(s)
    ensures ValidSetup(s.setup, s.mrX, s.detectives)
    ensures s.mrX.piece == MrX && MrX !in PiecesOf(s.detectives) && |s.setup.rounds| > 0
  {
    CheckSetupAccepts(s.setup, Some(s.mrX), Some(s.detectives));
  }

  /** `PiecesOf` grows one player at a time. */
  lemma PiecesOfPrefix(players: seq<Player>, k: int)
    requires 0 <= k < |players|
    ensures PiecesOf(players[..k + 1]) == PiecesOf(players[..k]) + {players[k].piece}
  {
    var prefix := players[..k + 1];
    forall p | p in PiecesOf(prefix)
      ensures p in PiecesOf(players[..k]) + {players[k].piece}
    {
      var i :| 0 <= i < |prefix| && prefix[i].piece == p;
      if i < k {
        assert players[..k][i] == prefix[i];
      }
    }
    forall p | p in PiecesOf(players[..k])
      ensures p in PiecesOf(prefix)
    {
      var i :| 0 <= i < k && players[..k][i].piece == p;
      assert prefix[i] == players[..k][i];
    }
    assert prefix[k] == players[k];
  }

  /** The union of the single moves of each of `movers` from its own location, against all `detectives`. */
  function UnionSingles(setup: GameSetup, detectives: seq<Player>, movers: seq<Player>): set<SingleMove>
    decreases |movers|
  {
    if movers == [] then {}
    else
      var last := movers[|movers| - 1];
      UnionSingles(setup, detectives, movers[..|movers| - 1]) + SingleMoves(setup, detectives, last, last.location)
  }

  /** A move is in the union exactly when one of the movers has it. */
  lemma {:induction false} UnionSinglesIff(setup: GameSetup, detectives: seq<Player>, movers: seq<Player>,
                                           m: SingleMove)
    ensures m in UnionSingles(setup, detectives, movers)
            <==> exists i :: 0 <= i < |movers| && m in SingleMoves(setup, detectives, movers[i], movers[i].location)
    decreases |movers|
  {
    if movers != [] {
      var init := movers[..|movers| - 1];
      UnionSinglesIff(setup, detectives, init, m);
      if m in UnionSingles(setup, detectives, init) {
        var i :| 0 <= i < |init| && m in SingleMoves(setup, detectives, init[i], init[i].location);
        assert movers[i] == init[i];
      }
      if exists i :: 0 <= i < |movers| && m in SingleMoves(setup, detectives, movers[i], movers[i].location) {
        var i :| 0 <= i < |movers| && m in SingleMoves(setup, detectives, movers[i], movers[i].location);
        if i < |init| {
          assert init[i] == movers[i];
        }
      }
    }
  }

  /** The players whose piece is in `remaining`, in their order. */
  function InRemaining(players: seq<Player>, remaining: set<Piece>): seq<Player>
    decreases |players|
  {
    if players == [] then []
    else
      var last := players[|players| - 1];
      InRemaining(players[..|players| - 1], remaining) + (if last.piece in remaining then [last] else [])
  }

  /** `InRemaining` keeps exactly the players whose piece is in `remaining`. */
  lemma {:induction false} InRemainingMembers(players: seq<Player>, remaining: set<Piece>, p: Player)
    ensures p in InRemaining(players, remaining) <==> p in players && p.piece in remaining
    decreases |players|
  {
    if players != [] {
      var init := players[..|players| - 1];
      InRemainingMembers(init, remaining, p);
      assert players == init + [players[|players| - 1]];
    }
  }

  /** The union of the moves of the players in `remaining` is the union over those players of their moves. */
  lemma RemainingSinglesIff(setup: GameSetup, detectives: seq<Player>, remaining: set<Piece>, m: SingleMove)
    ensures m in UnionSingles(setup, detectives, InRemaining(detectives, remaining))
            <==> exists i :: 0 <= i < |detectives| && detectives[i].piece in remaining
                             && m in SingleMoves(setup, detectives, detectives[i], detectives[i].location)
  {
    var movers := InRemaining(detectives, remaining);
    UnionSinglesIff(setup, detectives, movers, m);
    if m in UnionSingles(setup, detectives, movers) {
      var i :| 0 <= i < |movers| && m in SingleMoves(setup, detectives, movers[i], movers[i].location);
      InRemainingMembers(detectives, remaining, movers[i]);
      var j :| 0 <= j < |detectives| && detectives[j] == movers[i];
    }
    if exists i :: 0 <= i < |detectives| && detectives[i].piece in remaining
                   && m in SingleMoves(setup, detectives, detectives[i], detectives[i].location) {
      var i :| 0 <= i < |detectives| && detectives[i].piece in remaining
               && m in SingleMoves(setup, detectives, detectives[i], detectives[i].location);
      InRemainingMembers(detectives, remaining, detectives[i]);
      var j :| 0 <= j < |movers| && movers[j] == detectives[i];
    }
  }

  /** Single moves as moves. */
  function AsMoves(singles: set<SingleMove>): set<Move>
  {
    set m | m in singles :: OfSingle(m)
  }

  /** Double moves as moves. */
  function AsDoubleMoves(doubles: set<DoubleMove>): set<Move>
  {
    set m | m in doubles :: OfDouble(m)
  }

  /** Every single move of every detective from its own location. */
  function DetectiveMoves(s: Snapshot): set<SingleMove>
  {
    UnionSingles(s.setup, s.detectives, s.detectives)
  }

  /** The log has reached the number of rounds while MrX is still to move. */
  predicate Escaped(s: Snapshot)
  {
    |s.log| == |s.setup.rounds| && s.mrX.piece in s.remaining
  }

  /** A detective stands on MrX's location. */
  predicate Caught(s: Snapshot)
  {
    exists i :: 0 <= i < |s.detectives| && s.detectives[i].location == s.mrX.location
  }

  /** No detective has any move, whether or not it is still to move this round. */
  predicate Stalled(s: Snapshot)
  {
    DetectiveMoves(s) == {}
  }

  /**
   * MrX's moves: single moves, plus double moves when the game has at least two
   * rounds in total (whatever the number of rounds still to play).
   */
  function MrXMoves(s: Snapshot): (r: set<Move>)
    ensures forall m :: m in r && m.OfDouble? ==>
              |s.setup.rounds| >= 2 && s.mrX.piece == MrX && s.mrX.HasAtLeast(Double, 1)
  {
    var singles := AsMoves(SingleMoves(s.setup, s.detectives, s.mrX, s.mrX.location));
    if |s.setup.rounds| >= 2 then
      singles + AsDoubleMoves(DoubleMoves(s.setup, s.detectives, s.mrX, s.mrX.location))
    else if |s.setup.rounds| == 1 then singles
    else {}
  }

  /** The winners found before any move set is considered. */
  function EarlyWinner(s: Snapshot): set<Piece>
  {
    (if Escaped(s) then {s.mrX.piece} else {})
    + (if Caught(s) then PiecesOf(s.detectives) else {})
    + (if Stalled(s) then {s.mrX.piece} else {})
  }

  /** The winner set `getAvailableMoves` computes (and `getWinner` returns). */
  function Winner(s: Snapshot): (r: set<Piece>)
    ensures r <= {s.mrX.piece} + PiecesOf(s.detectives)
  {
    var early := EarlyWinner(s);
    if early != {} then early
    else if s.mrX.piece in s.remaining && MrXMoves(s) == {} then PiecesOf(s.detectives)
    else {}
  }

  /** The moves of whoever is to move: MrX's, or those of the detectives still in `remaining`. */
  function TurnMoves(s: Snapshot): set<Move>
  {
    if s.mrX.piece in s.remaining then MrXMoves(s)
    else AsMoves(UnionSingles(s.setup, s.detectives, InRemaining(s.detectives, s.remaining)))
  }

  /** The move set `getAvailableMoves` returns: none once somebody has won. */
  function AvailableMoves(s: Snapshot): (r: set<Move>)
    ensures r != {} ==> Winner(s) == {}
    ensures r <= TurnMoves(s)
  {
    if Winner(s) != {} then {} else TurnMoves(s)
  }

  /** MrX wins exactly when he has survived every round while still to move, or no detective can move. */
  lemma MrXWinsIff(s: Snapshot)
    requires Wellformed(s)
    ensures MrX in Winner(s) <==> Escaped(s) || Stalled(s)
  {
    WellformedFacts(s);
  }

  /**
   * The detectives win together or not at all: each of them wins exactly when one
   * of them stands on MrX's location, or when MrX, to move and not already the
   * winner, has no move.
   */
  lemma DetectivesWinIff(s: Snapshot, d: Piece)
    requires Wellformed(s) && d in PiecesOf(s.detectives)
    ensures d in Winner(s) <==>
              || Caught(s)
              || (!Escaped(s) && !Stalled(s) && MrX in s.remaining && MrXMoves(s) == {})
  {
    WellformedFacts(s);
  }

  /** Only players of the game win. */
  lemma WinnersArePlayers(s: Snapshot)
    ensures Winner(s) <= {s.mrX.piece} + PiecesOf(s.detectives)
  {
  }

  /** A game with a winner offers no move. */
  lemma NoMovesOnceWon(s: Snapshot)
    requires Winner(s) != {}
    ensures AvailableMoves(s) == {}
  {
  }

  /** Without a detective, MrX has won (nobody can move against him). */
  lemma NoDetectivesMrXWins(s: Snapshot)
    requires s.detectives == []
    ensures Winner(s) == {s.mrX.piece} && AvailableMoves(s) == {}
  {
    assert Stalled(s);
  }

  /**
   * On MrX's turn, unless somebody has won, the moves are his single moves and,
   * when the game has two rounds or more in all, his double moves.
   */
  lemma MrXTurnMoves(s: Snapshot)
    requires Wellformed(s) && Winner(s) == {} && MrX in s.remaining
    ensures AvailableMoves(s)
            == AsMoves(SingleMoves(s.setup, s.detectives, s.mrX, s.mrX.location))
               + (if |s.setup.rounds| >= 2
                  then AsDoubleMoves(DoubleMoves(s.setup, s.detectives, s.mrX, s.mrX.location)) else {})
  {
    WellformedFacts(s);
  }

  /**
   * On the detectives' turn, unless somebody has won, the moves are the single
   * moves of the detectives still in `remaining`, each from its own location.
   */
  lemma DetectiveTurnMoves(s: Snapshot, m: Move)
    requires Wellformed(s) && Winner(s) == {} && MrX !in s.remaining
    ensures m in AvailableMoves(s) <==>
              && m.OfSingle?
              && exists i :: 0 <= i < |s.detectives| && s.detectives[i].piece in s.remaining
                             && m.single in SingleMoves(s.setup, s.detectives, s.detectives[i], s.detectives[i].location)
  {
    WellformedFacts(s);
    if m.OfSingle? {
      RemainingSinglesIff(s.setup, s.detectives, s.remaining, m.single);
    }
  }

  /** On MrX's turn the game never stalls: either somebody has won or he has a move. */
  lemma MrXTurnHasMovesOrWinner(s: Snapshot)
    requires Wellformed(s) && MrX in s.remaining
    ensures AvailableMoves(s) == {} <==> Winner(s) != {}
  {
    WellformedFacts(s);
    PiecesOfEmpty(s.detectives);
    if s.detectives == [] {
      assert Stalled(s);
    }
  }

  /** The mover of every available move is the player whose turn it is. */
  lemma AvailableMoveMover(s: Snapshot, m: Move)
    requires Wellformed(s) && m in AvailableMoves(s)
    ensures m.Mover() == MrX <==> MrX in s.remaining
    ensures m.OfDouble? ==> MrX in s.remaining
    ensures m.Mover() != MrX ==>
              && m.OfSingle?
              && exists i :: 0 <= i < |s.detectives| && s.detectives[i].piece == m.Mover()
                             && s.detectives[i].piece in s.remaining
                             && m.single in SingleMoves(s.setup, s.detectives, s.detectives[i], s.detectives[i].location)
  {
    WellformedFacts(s);
    if MrX in s.remaining {
      if m.OfSingle? {
        SingleMovesShape(s.setup, s.detectives, s.mrX, s.mrX.location, m.single);
      } else {
        DoubleMovesIff(s.setup, s.detectives, s.mrX, s.mrX.location, m.double);
      }
    } else {
      DetectiveTurnMoves(s, m);
      var i :| 0 <= i < |s.detectives| && s.detectives[i].piece in s.remaining
               && m.single in SingleMoves(s.setup, s.detectives, s.detectives[i], s.detectives[i].location);
      SingleMovesShape(s.setup, s.detectives, s.detectives[i], s.detectives[i].location, m.single);
      assert s.detectives[i].piece in PiecesOf(s.detectives);
    }
  }
}
