/**
 * Concrete games on small maps: what move generation yields on them, and how
 * `advance` and the winner rules play out, including the corners where the
 * rules as written behave unexpectedly.
 */
module Scenarios {
  import opened Wrappers
  import opened ScotlandYard
  import opened MoveGeneration
  import opened Validation
  import opened Rules
  import opened Transition

  /** Three nodes in a cycle; every edge is a single taxi route. */
  const Triangle := Graph({1, 2, 3}, map[1 := map[2 := [TaxiRoute], 3 := [TaxiRoute]],
                                         2 := map[1 := [TaxiRoute], 3 := [TaxiRoute]],
                                         3 := map[1 := [TaxiRoute], 2 := [TaxiRoute]]])

  /** A player holding no ticket of any kind has no single move. */
  lemma NoTicketsNoMoves(setup: GameSetup, detectives: seq<Player>, player: Player, source: int)
    requires forall t :: Count(player.tickets, t) <= 0
    ensures SingleMoves(setup, detectives, player, source) == {}
  {
    if SingleMoves(setup, detectives, player, source) != {} {
      var m :| m in SingleMoves(setup, detectives, player, source);
      SingleMovesIff(setup, detectives, player, source, m);
    }
  }

  /**
   * On an edge carrying a taxi route and then a bus route, a player with a taxi
   * ticket and no bus ticket is offered the bus move too; with the routes the
   * other way round, it is not.
   */
  lemma StickyBusMove()
    ensures var p := Player(Detective(Blue), map[Taxi := 1], 1);
            var taxiFirst := GameSetup(Graph({1, 2}, map[1 := map[2 := [TaxiRoute, BusRoute]]]), [false]);
            var busFirst := GameSetup(Graph({1, 2}, map[1 := map[2 := [BusRoute, TaxiRoute]]]), [false]);
            && SingleMove(Detective(Blue), 1, Bus, 2) in SingleMoves(taxiFirst, [], p, 1)
            && SingleMove(Detective(Blue), 1, Bus, 2) !in SingleMoves(busFirst, [], p, 1)
  {
    var p := Player(Detective(Blue), map[Taxi := 1], 1);
    var taxiFirst := GameSetup(Graph({1, 2}, map[1 := map[2 := [TaxiRoute, BusRoute]]]), [false]);
    var busFirst := GameSetup(Graph({1, 2}, map[1 := map[2 := [BusRoute, TaxiRoute]]]), [false]);
    var m := SingleMove(Detective(Blue), 1, Bus, 2);
    StickyTicket(taxiFirst, [], p, 1, 2, 0, 1);
    SingleMovesIff(busFirst, [], p, 1, m);
  }

  /**
   * MrX on the triangle with a DOUBLE and two taxi tickets: the double moves
   * include going round either way and going out and back.
   */
  lemma TriangleDoubleMoves()
    ensures var setup := GameSetup(Triangle, [false, false]);
            var mrX := Player(MrX, map[Double := 1, Taxi := 2], 1);
            && DoubleMove(MrX, 1, Taxi, 2, Taxi, 3) in DoubleMoves(setup, [], mrX, 1)
            && DoubleMove(MrX, 1, Taxi, 2, Taxi, 1) in DoubleMoves(setup, [], mrX, 1)
            && DoubleMove(MrX, 1, Taxi, 3, Taxi, 2) in DoubleMoves(setup, [], mrX, 1)
  {
    var setup := GameSetup(Triangle, [false, false]);
    var mrX := Player(MrX, map[Double := 1, Taxi := 2], 1);
    assert mrX.Has(RequiredTicket([TaxiRoute][0]));
    assert HeldUpTo(mrX, [TaxiRoute], 0);
    SingleMovesIff(setup, [], mrX, 1, SingleMove(MrX, 1, Taxi, 2));
    SingleMovesIff(setup, [], mrX, 1, SingleMove(MrX, 1, Taxi, 3));
    SingleMovesIff(setup, [], mrX, 2, SingleMove(MrX, 2, Taxi, 3));
    SingleMovesIff(setup, [], mrX, 2, SingleMove(MrX, 2, Taxi, 1));
    SingleMovesIff(setup, [], mrX, 3, SingleMove(MrX, 3, Taxi, 2));
    DoubleMovesIff(setup, [], mrX, 1, DoubleMove(MrX, 1, Taxi, 2, Taxi, 3));
    DoubleMovesIff(setup, [], mrX, 1, DoubleMove(MrX, 1, Taxi, 2, Taxi, 1));
    DoubleMovesIff(setup, [], mrX, 1, DoubleMove(MrX, 1, Taxi, 3, Taxi, 2));
  }

  /** With a single taxi ticket MrX has no double move on the triangle: both legs would need a taxi. */
  lemma TriangleOneTaxiNoDouble()
    ensures DoubleMoves(GameSetup(Triangle, [false, false]), [], Player(MrX, map[Double := 1, Taxi := 1], 1), 1) == {}
  {
    var setup := GameSetup(Triangle, [false, false]);
    var mrX := Player(MrX, map[Double := 1, Taxi := 1], 1);
    if DoubleMoves(setup, [], mrX, 1) != {} {
      var dm :| dm in DoubleMoves(setup, [], mrX, 1);
      DoubleMovesIff(setup, [], mrX, 1, dm);
      OnlyTaxi(setup, mrX, 1, SingleMove(MrX, 1, dm.ticket1, dm.destination1));
      OnlyTaxi(setup, mrX, dm.destination1, SingleMove(MrX, dm.destination1, dm.ticket2, dm.destination2));
    }
  }

  /** On the triangle, a player without SECRET tickets moves by taxi only. */
  lemma OnlyTaxi(setup: GameSetup, player: Player, source: int, m: SingleMove)
    requires setup.graph == Triangle && Count(player.tickets, Secret) <= 0
    requires m in SingleMoves(setup, [], player, source)
    ensures m.ticket == Taxi
  {
    SingleMovesIff(setup, [], player, source, m);
  }

  /**
   * A detective without tickets cannot move, so MrX has won before making any
   * move: no move is available although MrX alone could go from 1 to 3.
   */
  lemma TicketlessDetectiveStalls()
    ensures var s := Snapshot(GameSetup(Triangle, [true]), {MrX}, [], Player(MrX, map[Taxi := 1], 1),
                              [Player(Detective(Red), map[], 2)]);
            && Wellformed(s) && TurnInvariant(s)
            && SingleMove(MrX, 1, Taxi, 3) in SingleMoves(s.setup, s.detectives, s.mrX, 1)
            && SingleMove(MrX, 1, Taxi, 2) !in SingleMoves(s.setup, s.detectives, s.mrX, 1)
            && Winner(s) == {MrX} && AvailableMoves(s) == {}
  {
    var s := Snapshot(GameSetup(Triangle, [true]), {MrX}, [], Player(MrX, map[Taxi := 1], 1),
                      [Player(Detective(Red), map[], 2)]);
    var red := s.detectives[0];
    NoTicketsNoMoves(s.setup, s.detectives, red, 2);
    assert s.detectives[..0] == [];
    assert DetectiveMoves(s) == {};
    assert !Caught(s);
    SingleMovesIff(s.setup, s.detectives, s.mrX, 1, SingleMove(MrX, 1, Taxi, 3));
    SingleMovesIff(s.setup, s.detectives, s.mrX, 1, SingleMove(MrX, 1, Taxi, 2));
    assert HeldUpTo(s.mrX, [TaxiRoute], 0);
    assert Occupied(s.detectives, 2);
  }

  /**
   * A detective placed on 7, which is not a node of the triangle, passes the
   * constructor's checks; it has no neighbours and so no move, and MrX wins at
   * once although the detective holds a taxi ticket.
   */
  lemma OffGraphDetectiveStalls()
    ensures var s := Snapshot(GameSetup(Triangle, [true]), {MrX}, [], Player(MrX, map[Taxi := 1], 1),
                              [Player(Detective(Red), map[Taxi := 1], 7)]);
            && Wellformed(s) && 7 !in s.setup.graph.nodes && Winner(s) == {MrX}
  {
    var s := Snapshot(GameSetup(Triangle, [true]), {MrX}, [], Player(MrX, map[Taxi := 1], 1),
                      [Player(Detective(Red), map[Taxi := 1], 7)]);
    OffGraphNoMoves(s.setup, s.detectives, s.detectives[0], 7);
    assert s.detectives[..0] == [];
    assert DetectiveMoves(s) == {};
    assert !Caught(s);
  }

  /** The chase: MrX at 1 with one taxi ticket, a detective at 3 with one, a single revealed round. */
  const ChaseStart := Snapshot(GameSetup(Triangle, [true]), {MrX}, [], Player(MrX, map[Taxi := 1], 1),
                               [Player(Detective(Red), map[Taxi := 1], 3)])

  /** MrX's move from 1 to 2. */
  const ChaseEscape := OfSingle(SingleMove(MrX, 1, Taxi, 2))

  /** The detective's move from 3 to 2. */
  const ChaseCatch := OfSingle(SingleMove(Detective(Red), 3, Taxi, 2))

  /** After MrX's move: his location is revealed and the detective is to move. */
  const ChaseMiddle := Snapshot(GameSetup(Triangle, [true]), {Detective(Red)}, [Revealed(Taxi, 2)],
                                Player(MrX, map[Taxi := 1], 1).Use([Taxi]).At(2),
                                [Player(Detective(Red), map[Taxi := 1], 3)])

  /** After the detective's move: MrX is to move, the detective is on his node. */
  const ChaseEnd := Snapshot(GameSetup(Triangle, [true]), {MrX}, [Revealed(Taxi, 2)],
                             Player(MrX, map[Taxi := 1], 1).Use([Taxi]).At(2).Give([Taxi]),
                             [Player(Detective(Red), map[Taxi := 1], 3).Use([Taxi]).At(2)])

  /** The detective can go from 3 to 2 as long as it holds its taxi ticket and stands on 3. */
  lemma ChaseDetectiveCanMove(s: Snapshot)
    requires s.setup == ChaseStart.setup && s.detectives == ChaseStart.detectives
    ensures ChaseCatch.single in SingleMoves(s.setup, s.detectives, s.detectives[0], 3)
    ensures ChaseCatch.single in DetectiveMoves(s)
  {
    var red := s.detectives[0];
    assert red.Has(RequiredTicket([TaxiRoute][0]));
    assert HeldUpTo(red, [TaxiRoute], 0);
    SingleMovesIff(s.setup, s.detectives, red, 3, ChaseCatch.single);
    assert s.detectives[..0] == [];
  }

  /** The chase passes the constructor's checks and is between turns. */
  lemma ChaseStartWellformed()
    ensures Wellformed(ChaseStart) && TurnInvariant(ChaseStart)
  {
  }

  /** At the start MrX has the move from 1 to 2. */
  lemma ChaseEscapeOffered()
    ensures ChaseEscape in MrXMoves(ChaseStart)
  {
    var s := ChaseStart;
    assert s.mrX.Has(RequiredTicket([TaxiRoute][0]));
    assert HeldUpTo(s.mrX, [TaxiRoute], 0);
    SingleMovesIff(s.setup, s.detectives, s.mrX, 1, ChaseEscape.single);
  }

  /** At the start nobody has won: the detective can move and stands apart from MrX. */
  lemma ChaseStartNoWinner()
    ensures Winner(ChaseStart) == {}
  {
    var s := ChaseStart;
    ChaseDetectiveCanMove(s);
    ChaseEscapeOffered();
    assert !Caught(s);
  }

  /** At the start nobody has won and MrX may go from 1 to 2. */
  lemma ChaseStartLegal()
    ensures Wellformed(ChaseStart) && TurnInvariant(ChaseStart)
    ensures ChaseEscape in AvailableMoves(ChaseStart)
  {
    ChaseStartWellformed();
    ChaseStartNoWinner();
    ChaseEscapeOffered();
  }

  /** MrX's move, once legal, logs his new location revealed and hands the turn to the detective. */
  lemma ChaseMrXStep()
    ensures MrXAdvance(ChaseStart, ChaseEscape) == Success(ChaseMiddle)
  {
    var s := ChaseStart;
    assert ChaseEscape.Tickets() == [Taxi] && [Taxi][1..] == [];
    calc {
      RecordTickets([true], [], [Taxi], 2);
      { assert LogEntryFor(true, Taxi, 2) == Revealed(Taxi, 2);
        assert [] + [Revealed(Taxi, 2)] == [Revealed(Taxi, 2)]; }
      RecordTickets([true], [Revealed(Taxi, 2)], [], 2);
    }
    assert PiecesOf(s.detectives) == {Detective(Red)} by {
      assert s.detectives[0].piece in PiecesOf(s.detectives);
    }
    var mrX := s.mrX.Use([Taxi]).At(2);
    assert mrX == ChaseMiddle.mrX && mrX.location == 2 && ChaseEscape.FinalDestination() == 2;
    assert RecordTickets(s.setup.rounds, s.log, ChaseEscape.Tickets(), mrX.location) == Some([Revealed(Taxi, 2)]);
    assert ({MrX} - {MrX}) - {MrX} + PiecesOf(s.detectives) == {Detective(Red)};
    assert ChaseEscape.Mover() == MrX && mrX.piece == MrX;
  }

  /** MrX's move from 1 to 2 is played. */
  lemma ChaseFirstAdvance()
    ensures AdvanceSpec(ChaseStart, ChaseEscape) == Success(ChaseMiddle)
  {
    ChaseStartLegal();
    ChaseMrXStep();
  }

  /** The state after MrX's move passes the constructor's checks. */
  lemma ChaseMiddleWellformed()
    ensures Wellformed(ChaseMiddle) && TurnInvariant(ChaseMiddle)
  {
    ChaseStartLegal();
    ChaseFirstAdvance();
    AdvanceKeepsWellformed(ChaseStart, ChaseEscape);
    AdvanceKeepsTurnInvariant(ChaseStart, ChaseEscape);
  }

  /** In the middle nobody has won: the detective can move and stands apart from MrX. */
  lemma ChaseMiddleNoWinner()
    ensures Winner(ChaseMiddle) == {}
  {
    var s := ChaseMiddle;
    ChaseDetectiveCanMove(s);
    assert !Caught(s);
  }

  /** In the middle nobody has won and the detective may go from 3 to 2. */
  lemma ChaseMiddleLegal()
    ensures Wellformed(ChaseMiddle) && ChaseCatch in AvailableMoves(ChaseMiddle)
  {
    ChaseMiddleWellformed();
    ChaseMiddleNoWinner();
    ChaseDetectiveCanMove(ChaseMiddle);
    DetectiveTurnMoves(ChaseMiddle, ChaseCatch);
  }

  /** The detective's move ends the round: MrX is to move again. */
  lemma ChaseSecondAdvance()
    ensures AdvanceSpec(ChaseMiddle, ChaseCatch) == Success(ChaseEnd)
  {
    ChaseMiddleLegal();
    var s := ChaseMiddle;
    DetectiveMoveEffect(s, ChaseCatch);
    var n := DetectiveAdvance(s, ChaseCatch);
    assert s.remaining - {Detective(Red)} == {};
    assert n.remaining == {MrX};
    assert n.mrX == ChaseEnd.mrX;
    assert n.detectives[0] == ChaseEnd.detectives[0];
    assert n.detectives == ChaseEnd.detectives;
  }

  /** At the end MrX has survived the only round while the detective stands on his node. */
  lemma ChaseEndWinner()
    ensures Winner(ChaseEnd) == {MrX, Detective(Red)}
  {
    var s := ChaseEnd;
    assert s.detectives[0].location == 2 == s.mrX.location;
    assert Escaped(s) && Caught(s);
    assert PiecesOf(s.detectives) == {Detective(Red)} by {
      assert s.detectives[0].piece in PiecesOf(s.detectives);
    }
  }

  /**
   * MrX goes from 1 to 2, then the detective goes from 3 to 2. Both sides have
   * then won: MrX has survived the only round, and the detective stands on him.
   */
  lemma BothSidesWin()
    ensures AdvanceSpec(ChaseStart, ChaseEscape) == Success(ChaseMiddle)
    ensures AdvanceSpec(ChaseMiddle, ChaseCatch) == Success(ChaseEnd)
    ensures Winner(ChaseEnd) == {MrX, Detective(Red)} && AvailableMoves(ChaseEnd) == {}
  {
    ChaseFirstAdvance();
    ChaseSecondAdvance();
    ChaseEndWinner();
  }

  /** The triangle with a fourth node hanging off node 3. */
  const Kite := Graph({1, 2, 3, 4}, map[1 := map[2 := [TaxiRoute], 3 := [TaxiRoute]],
                                       2 := map[1 := [TaxiRoute], 3 := [TaxiRoute]],
                                       3 := map[1 := [TaxiRoute], 2 := [TaxiRoute], 4 := [TaxiRoute]],
                                       4 := map[3 := [TaxiRoute]]])

  /** MrX to move at 1 with a DOUBLE and two taxi tickets, one detective at 4. */
  function KiteGame(rounds: seq<bool>, log: seq<LogEntry>): Snapshot
  {
    Snapshot(GameSetup(Kite, rounds), {MrX}, log, Player(MrX, map[Double := 1, Taxi := 2], 1),
             [Player(Detective(Red), map[Taxi := 1], 4)])
  }

  /** The double move from 1 through 2 to 3. */
  const RoundTrip := OfDouble(DoubleMove(MrX, 1, Taxi, 2, Taxi, 3))

  /** On the kite, MrX has the double move through 2 to 3 and the detective is free to move. */
  lemma KiteMoves(rounds: seq<bool>, log: seq<LogEntry>)
    ensures RoundTrip.double in DoubleMoves(GameSetup(Kite, rounds), KiteGame(rounds, log).detectives,
                                            KiteGame(rounds, log).mrX, 1)
    ensures SingleMove(Detective(Red), 4, Taxi, 3) in DetectiveMoves(KiteGame(rounds, log))
  {
    var s := KiteGame(rounds, log);
    var red := s.detectives[0];
    assert red.Has(RequiredTicket([TaxiRoute][0]));
    assert HeldUpTo(red, [TaxiRoute], 0);
    SingleMovesIff(s.setup, s.detectives, red, 4, SingleMove(Detective(Red), 4, Taxi, 3));
    assert s.detectives[..0] == [];
    assert s.mrX.Has(RequiredTicket([TaxiRoute][0]));
    assert HeldUpTo(s.mrX, [TaxiRoute], 0);
    SingleMovesIff(s.setup, s.detectives, s.mrX, 1, SingleMove(MrX, 1, Taxi, 2));
    SingleMovesIff(s.setup, s.detectives, s.mrX, 2, SingleMove(MrX, 2, Taxi, 3));
    DoubleMovesIff(s.setup, s.detectives, s.mrX, 1, RoundTrip.double);
  }

  /** A two-round kite game passes the constructor's checks and is between turns. */
  lemma KiteWellformed(rounds: seq<bool>, log: seq<LogEntry>)
    requires |rounds| == 2 && |log| < 2
    ensures Wellformed(KiteGame(rounds, log)) && TurnInvariant(KiteGame(rounds, log))
  {
  }

  /** In a two-round game not yet over nobody has won: the detective can move and MrX is free. */
  lemma KiteNoWinner(rounds: seq<bool>, log: seq<LogEntry>)
    requires |rounds| == 2 && |log| < 2
    ensures Winner(KiteGame(rounds, log)) == {}
  {
    var s := KiteGame(rounds, log);
    KiteMoves(rounds, log);
    assert RoundTrip in MrXMoves(s);
    assert !Caught(s);
  }

  /** In a two-round game not yet over, the double move through 2 to 3 is legal. */
  lemma KiteDoubleLegal(rounds: seq<bool>, log: seq<LogEntry>)
    requires |rounds| == 2 && |log| < 2
    ensures Wellformed(KiteGame(rounds, log)) && TurnInvariant(KiteGame(rounds, log))
    ensures RoundTrip in AvailableMoves(KiteGame(rounds, log))
  {
    KiteWellformed(rounds, log);
    KiteNoWinner(rounds, log);
    KiteMoves(rounds, log);
    assert RoundTrip in MrXMoves(KiteGame(rounds, log));
  }

  /**
   * A legal double move with one round left cannot be logged: `advance` fails,
   * yet the receiver's MrX has already spent the tickets and moved to 3.
   */
  lemma LastRoundDoubleFails()
    ensures AdvanceSpec(KiteGame([false, false], [Hidden(Taxi)]), RoundTrip) == Failure(RoundOutOfBounds)
    ensures ReceiverMrX(KiteGame([false, false], [Hidden(Taxi)]), RoundTrip).location == 3
  {
    KiteDoubleLegal([false, false], [Hidden(Taxi)]);
    RoundOutOfBoundsIff(KiteGame([false, false], [Hidden(Taxi)]), RoundTrip);
  }

  /** Logging the double move through 2 to 3 when both rounds are revealed. */
  lemma KiteRevealedLog()
    ensures RecordTickets([true, true], [], RoundTrip.Tickets(), 3) == Some([Revealed(Taxi, 3), Revealed(Taxi, 3)])
  {
    var ts := RoundTrip.Tickets();
    assert ts == [Double, Taxi, Taxi] && ts[1..] == [Taxi, Taxi];
    assert [Taxi, Taxi][1..] == [Taxi] && [Taxi][1..] == [];
    calc {
      RecordTickets([true, true], [], ts, 3);
      RecordTickets([true, true], [], [Taxi, Taxi], 3);
      { assert LogEntryFor(true, Taxi, 3) == Revealed(Taxi, 3);
        assert [] + [Revealed(Taxi, 3)] == [Revealed(Taxi, 3)]; }
      RecordTickets([true, true], [Revealed(Taxi, 3)], [Taxi], 3);
      { assert [Revealed(Taxi, 3)] + [Revealed(Taxi, 3)] == [Revealed(Taxi, 3), Revealed(Taxi, 3)]; }
      RecordTickets([true, true], [Revealed(Taxi, 3), Revealed(Taxi, 3)], [], 3);
    }
  }

  /**
   * With both rounds revealed, the double move through 2 to 3 logs location 3
   * for both legs, although MrX was at 2 after the first.
   */
  lemma RevealedDoubleLogsFinal()
    ensures AdvanceSpec(KiteGame([true, true], []), RoundTrip).Success?
    ensures AdvanceSpec(KiteGame([true, true], []), RoundTrip).value.log == [Revealed(Taxi, 3), Revealed(Taxi, 3)]
  {
    var s := KiteGame([true, true], []);
    KiteDoubleLegal([true, true], []);
    assert AdvanceSpec(s, RoundTrip) == MrXAdvance(s, RoundTrip);
    KiteRevealedLog();
  }

  /** A line 1 - 2 - 3, and an isolated node 5. */
  const Line := Graph({1, 2, 3, 5}, map[1 := map[2 := [TaxiRoute]],
                                       2 := map[1 := [TaxiRoute], 3 := [TaxiRoute]],
                                       3 := map[2 := [TaxiRoute]]])

  /** Red at 1 with two taxi tickets and Green at 3 with one are to move; MrX is out of reach at 5. */
  const LineStart := Snapshot(GameSetup(Line, [false]), {Detective(Red), Detective(Green)}, [],
                              Player(MrX, map[], 5),
                              [Player(Detective(Red), map[Taxi := 2], 1), Player(Detective(Green), map[Taxi := 1], 3)])

  /** Red's move from 1 to 2. */
  const RedStep := OfSingle(SingleMove(Detective(Red), 1, Taxi, 2))

  /** After Red's move: Red is on 2 with one taxi ticket left, and Green is still to move. */
  const LineNext := Snapshot(GameSetup(Line, [false]), {Detective(Green)}, [],
                             Player(MrX, map[], 5).Give([Taxi]),
                             [Player(Detective(Red), map[Taxi := 2], 1).Use([Taxi]).At(2),
                              Player(Detective(Green), map[Taxi := 1], 3)])

  /** Red's step from 1 to 2 is one of the detectives' moves, and Green could go from 3 to 2. */
  lemma LineStartMoves()
    ensures RedStep.single in SingleMoves(LineStart.setup, LineStart.detectives, LineStart.detectives[0], 1)
    ensures RedStep.single in DetectiveMoves(LineStart)
    ensures SingleMove(Detective(Green), 3, Taxi, 2)
              in SingleMoves(LineStart.setup, LineStart.detectives, LineStart.detectives[1], 3)
  {
    var s := LineStart;
    var red := s.detectives[0];
    var green := s.detectives[1];
    assert red.Has(RequiredTicket([TaxiRoute][0])) && green.Has(RequiredTicket([TaxiRoute][0]));
    assert HeldUpTo(red, [TaxiRoute], 0) && HeldUpTo(green, [TaxiRoute], 0);
    SingleMovesIff(s.setup, s.detectives, red, 1, RedStep.single);
    SingleMovesIff(s.setup, s.detectives, green, 3, SingleMove(Detective(Green), 3, Taxi, 2));
    UnionSinglesIff(s.setup, s.detectives, s.detectives, RedStep.single);
  }

  /** The line game passes the constructor's checks and is between turns. */
  lemma LineStartWellformed()
    ensures Wellformed(LineStart) && TurnInvariant(LineStart)
  {
    var s := LineStart;
    assert PiecesOf(s.detectives) == {Detective(Red), Detective(Green)} by {
      assert s.detectives[0].piece in PiecesOf(s.detectives) && s.detectives[1].piece in PiecesOf(s.detectives);
    }
  }

  /** Nobody has won at the start of the line game. */
  lemma LineStartNoWinner()
    ensures Winner(LineStart) == {}
  {
    var s := LineStart;
    LineStartMoves();
    assert RedStep.single in DetectiveMoves(s);
    assert !Caught(s);
  }

  /** Red may go from 1 to 2, and nobody has won. */
  lemma LineStartLegal()
    ensures Wellformed(LineStart) && TurnInvariant(LineStart)
    ensures Winner(LineStart) == {} && RedStep in AvailableMoves(LineStart)
  {
    LineStartWellformed();
    LineStartNoWinner();
    LineStartMoves();
    DetectiveTurnMoves(LineStart, RedStep);
  }

  /** Against the detectives before Red's step, Green, the only other detective to move, has a move. */
  lemma LineGreenCanMove()
    ensures UnionSingles(LineStart.setup, LineStart.detectives, InRemaining(LineStart.detectives, {Detective(Green)})) != {}
  {
    var s := LineStart;
    var greenStep := SingleMove(Detective(Green), 3, Taxi, 2);
    LineStartMoves();
    RemainingSinglesIff(s.setup, s.detectives, {Detective(Green)}, greenStep);
    assert s.detectives[1].piece in {Detective(Green)};
  }

  /** After Red's step only Green is to move: it could go to 2 against the detectives as they were. */
  lemma LineRemaining()
    ensures RemainingAfterDetective(LineStart, Detective(Red)) == {Detective(Green)}
  {
    assert LineStart.remaining - {Detective(Red)} == {Detective(Green)};
    LineGreenCanMove();
  }

  /** Red's taxi ticket goes to MrX, once. */
  lemma LineReward()
    ensures Rewarded(LineStart.mrX, LineStart.detectives, Detective(Red), [Taxi]) == LineNext.mrX
  {
    var s := LineStart;
    MatchesDistinct(s.detectives, Detective(Red));
    assert Detective(Red) in PiecesOf(s.detectives) by {
      assert s.detectives[0].piece in PiecesOf(s.detectives);
    }
    RewardedOnce(s.mrX, s.detectives, Detective(Red), [Taxi]);
  }

  /** Red spends its taxi ticket and stands on 2; Green is untouched. */
  lemma LineMoved()
    ensures MoveDetective(LineStart.detectives, Detective(Red), [Taxi], 2) == LineNext.detectives
  {
    var ds := MoveDetective(LineStart.detectives, Detective(Red), [Taxi], 2);
    assert ds[0] == LineNext.detectives[0] && ds[1] == LineNext.detectives[1];
  }

  /** Red's step, once legal: Green stays to move, since its way to 2 was free before the step. */
  lemma LineDetectiveStep()
    ensures DetectiveAdvance(LineStart, RedStep) == LineNext
  {
    assert RedStep.Mover() == Detective(Red) && RedStep.Tickets() == [Taxi] && RedStep.FinalDestination() == 2;
    LineRemaining();
    LineReward();
    LineMoved();
  }

  /** Red's step is played. */
  lemma LineAdvance()
    ensures AdvanceSpec(LineStart, RedStep) == Success(LineNext)
  {
    LineStartLegal();
    LineDetectiveStep();
  }

  /** After the step Red could still move from 2 back to 1, so the detectives are not stalled. */
  lemma LineNextNotStalled()
    ensures !Stalled(LineNext) && !Caught(LineNext) && Winner(LineNext) == {}
  {
    var n := LineNext;
    var red := n.detectives[0];
    assert Count(red.tickets, Taxi) == 1;
    assert red.Has(RequiredTicket([TaxiRoute][0]));
    assert HeldUpTo(red, [TaxiRoute], 0);
    SingleMovesIff(n.setup, n.detectives, red, 2, SingleMove(Detective(Red), 2, Taxi, 1));
    UnionSinglesIff(n.setup, n.detectives, n.detectives, SingleMove(Detective(Red), 2, Taxi, 1));
  }

  /** Green, the only detective left to move, is walled in by Red on 2. */
  lemma LineNextGreenStuck()
    ensures SingleMoves(LineNext.setup, LineNext.detectives, LineNext.detectives[1], 3) == {}
  {
    var n := LineNext;
    var green := n.detectives[1];
    assert Occupied(n.detectives, 2) by {
      assert n.detectives[0].location == 2;
    }
  }

  /** On the detectives' turn after Red's step, the only detective left to move, Green, has no move. */
  lemma LineNextNoTurnMoves()
    ensures TurnMoves(LineNext) == {}
  {
    var n := LineNext;
    LineNextGreenStuck();
    assert n.detectives[0].piece !in n.remaining;
    forall m | m in UnionSingles(n.setup, n.detectives, InRemaining(n.detectives, n.remaining))
      ensures false
    {
      RemainingSinglesIff(n.setup, n.detectives, n.remaining, m);
    }
  }

  /**
   * Red moves from 1 to 2. Green stays to move, because its way to 2 was free
   * before the move; but Red now stands on 2, so Green has no move, while Red
   * still could move and nobody has won. The game is stuck: no winner and no
   * available move.
   */
  lemma StuckDetectiveTurn()
    ensures AdvanceSpec(LineStart, RedStep) == Success(LineNext)
    ensures Winner(LineNext) == {} && AvailableMoves(LineNext) == {}
  {
    LineAdvance();
    LineNextNotStalled();
    LineNextNoTurnMoves();
  }
}
