/**
 * The transition `advance`, as a function from a state's fields and a move to
 * the successor's fields, with the properties the game relies on.
 */
module Transition {
  import opened Wrappers
  import opened ScotlandYard
  import opened MoveGeneration
  import opened Validation
  import opened Rules

  /** Why `advance` refuses a move. */
  datatype AdvanceError =
    | IllegalMove       // the move is not among the available moves
    | RoundOutOfBounds  // the round list has no entry for a ticket of the move

  /** The travel-log entry of one ticket: revealed with `location` in a reveal round, hidden otherwise. */
  function LogEntryFor(revealRound: bool, t: Ticket, location: int): (r: LogEntry)
    ensures r.ticket == t
    ensures r.Revealed? <==> revealRound
    ensures r.Revealed? ==> r.location == location
  {
    if revealRound then Revealed(t, location) else Hidden(t)
  }

  /**
   * The tickets of `ts` other than DOUBLE, in order: every other ticket is kept
   * as often as it occurs, and no DOUBLE is (the order is `NonDoubleAppend`).
   */
  function NonDouble(ts: seq<Ticket>): (r: seq<Ticket>)
    ensures |r| <= |ts|
    ensures forall k :: 0 <= k < |r| ==> r[k] != Double
    ensures forall t :: t != Double ==> multiset(r)[t] == multiset(ts)[t]
    decreases |ts|
  {
    if ts == [] then []
    else
      assert ts == [ts[0]] + ts[1..];
      (if ts[0] == Double then [] else [ts[0]]) + NonDouble(ts[1..])
  }

  /**
   * Dropping DOUBLE tickets commutes with concatenation, so the kept tickets
   * stay in their order: those of `a` come first, then those of `b`.
   */
  lemma {:induction false} NonDoubleAppend(a: seq<Ticket>, b: seq<Ticket>)
    ensures NonDouble(a + b) == NonDouble(a) + NonDouble(b)
    decreases |a|
  {
    if a == [] {
      assert a + b == b;
    } else {
      var head := if a[0] == Double then [] else [a[0]];
      assert (a + b)[0] == a[0];
      assert (a + b)[1..] == a[1..] + b;
      NonDoubleAppend(a[1..], b);
      assert NonDouble(a + b) == head + (NonDouble(a[1..]) + NonDouble(b));
    }
  }

  /**
   * The logging loop of a MrX move: one entry per ticket other than DOUBLE, in
   * order, whose round is the log's length when it is written; `None` when the
   * round list has no entry at that position.
   */
  function RecordTickets(rounds: seq<bool>, log: seq<LogEntry>, ts: seq<Ticket>, location: int)
    : (r: Option<seq<LogEntry>>)
    ensures r.Some? ==> |log| <= |r.value| && r.value[..|log|] == log
    ensures r.Some? && |r.value| > |log| ==> |r.value| <= |rounds|
    decreases |ts|
  {
    if ts == [] then Some(log)
    else if ts[0] == Double then RecordTickets(rounds, log, ts[1..], location)
    else if |log| >= |rounds| then None
    else RecordTickets(rounds, log + [LogEntryFor(rounds[|log|], ts[0], location)], ts[1..], location)
  }

  /**
   * The loop fails exactly when it has an entry to write and the log would
   * outgrow the round list; otherwise
   * it appends to the log, for the `k`-th ticket other than DOUBLE, the entry of
   * round `|log| + k`, every revealed entry carrying the same `location`.
   */
  lemma {:induction false} RecordTicketsSpec(rounds: seq<bool>, log: seq<LogEntry>, ts: seq<Ticket>, location: int)
    ensures RecordTickets(rounds, log, ts, location).None?
            <==> |NonDouble(ts)| > 0 && |log| + |NonDouble(ts)| > |rounds|
    ensures RecordTickets(rounds, log, ts, location).Some? ==>
              var r := RecordTickets(rounds, log, ts, location).value;
              && |r| == |log| + |NonDouble(ts)|
              && r[..|log|] == log
              && forall k :: 0 <= k < |NonDouble(ts)| ==>
                   r[|log| + k] == LogEntryFor(rounds[|log| + k], NonDouble(ts)[k], location)
    decreases |ts|
  {
    if ts != [] {
      if ts[0] == Double {
        RecordTicketsSpec(rounds, log, ts[1..], location);
        assert NonDouble(ts) == NonDouble(ts[1..]);
      } else if |log| < |rounds| {
        var next := log + [LogEntryFor(rounds[|log|], ts[0], location)];
        RecordTicketsSpec(rounds, next, ts[1..], location);
        var nd := NonDouble(ts);
        assert nd == [ts[0]] + NonDouble(ts[1..]);
        if RecordTickets(rounds, next, ts[1..], location).Some? {
          EntriesShift(rounds, log, ts[0], NonDouble(ts[1..]), location,
                       RecordTickets(rounds, next, ts[1..], location).value);
        }
      } else {
        assert NonDouble(ts) == [ts[0]] + NonDouble(ts[1..]);
      }
    }
  }

  /** Entries written after one more entry, seen from the log before it. */
  lemma EntriesShift(rounds: seq<bool>, log: seq<LogEntry>, t: Ticket, rest: seq<Ticket>, location: int,
                     r: seq<LogEntry>)
    requires |log| < |rounds| && |log| + 1 + |rest| <= |rounds|
    requires |r| == |log| + 1 + |rest|
    requires r[..|log| + 1] == log + [LogEntryFor(rounds[|log|], t, location)]
    requires forall k :: 0 <= k < |rest| ==> r[|log| + 1 + k] == LogEntryFor(rounds[|log| + 1 + k], rest[k], location)
    ensures r[..|log|] == log
    ensures forall k :: 0 <= k < 1 + |rest| ==>
              r[|log| + k] == LogEntryFor(rounds[|log| + k], ([t] + rest)[k], location)
  {
    assert r[..|log|] == r[..|log| + 1][..|log|];
    assert r[|log|] == r[..|log| + 1][|log|];
    forall k | 0 < k < 1 + |rest|
      ensures r[|log| + k] == LogEntryFor(rounds[|log| + k], ([t] + rest)[k], location)
    {
      assert ([t] + rest)[k] == rest[k - 1];
      assert |log| + 1 + (k - 1) == |log| + k;
    }
  }

  /** The detectives after `mover` spends `ts` and moves to `destination`; the others are kept as they are. */
  function MoveDetective(detectives: seq<Player>, mover: Piece, ts: seq<Ticket>, destination: int)
    : (r: seq<Player>)
    ensures |r| == |detectives|
    ensures forall i :: 0 <= i < |r| ==>
              r[i] == (if detectives[i].piece == mover then detectives[i].Use(ts).At(destination) else detectives[i])
  {
    seq(|detectives|, i requires 0 <= i < |detectives| =>
      if detectives[i].piece == mover then detectives[i].Use(ts).At(destination) else detectives[i])
  }

  /** MrX after being given `ts` once for each detective of the list whose piece is `mover`. */
  function Rewarded(mrX: Player, detectives: seq<Player>, mover: Piece, ts: seq<Ticket>): (r: Player)
    ensures r.piece == mrX.piece && r.location == mrX.location
    decreases |detectives|
  {
    if detectives == [] then mrX
    else
      var before := Rewarded(mrX, detectives[..|detectives| - 1], mover, ts);
      if detectives[|detectives| - 1].piece == mover then before.Give(ts) else before
  }

  /**
   * `remaining` after a detective move: the mover leaves; MrX alone is to move
   * when nobody is left, or when none of the detectives left has a single move,
   * computed against the detectives as they were before the move.
   */
  function RemainingAfterDetective(s: Snapshot, mover: Piece): (r: set<Piece>)
    ensures r == {s.mrX.piece} || r == s.remaining - {mover}
    ensures r != {}
  {
    var rest := s.remaining - {mover};
    var restMoves := UnionSingles(s.setup, s.detectives, InRemaining(s.detectives, rest));
    var skipped := if rest != {} && restMoves == {} then {s.mrX.piece} else rest;
    if skipped == {} then {s.mrX.piece} else skipped
  }

  /**
   * The successor after a MrX move: MrX spends the move's tickets and moves to
   * its final destination, the detectives are to move next, and the tickets
   * are logged with MrX's new location; or the failed lookup of a round.
   */
  function MrXAdvance(s: Snapshot, m: Move): (r: Result<Snapshot, AdvanceError>)
    ensures r.Failure? ==> r.error == RoundOutOfBounds
    ensures r.Success? ==> && r.value.setup == s.setup && r.value.detectives == s.detectives
                           && r.value.mrX.location == m.FinalDestination() && |s.log| <= |r.value.log|
  {
    var mrX := s.mrX.Use(m.Tickets()).At(m.FinalDestination());
    var log := RecordTickets(s.setup.rounds, s.log, m.Tickets(), mrX.location);
    if log.None? then Failure(RoundOutOfBounds)
    else
      var remaining := (s.remaining - {m.Mover()}) - {mrX.piece} + PiecesOf(s.detectives);
      Success(Snapshot(s.setup, remaining, log.value, mrX, s.detectives))
  }

  /**
   * The successor after a detective move: the mover spends its tickets and moves,
   * MrX receives the tickets, and `remaining` is updated; the log is kept.
   */
  function DetectiveAdvance(s: Snapshot, m: Move): (r: Snapshot)
    ensures r.setup == s.setup && r.log == s.log && |r.detectives| == |s.detectives|
    ensures r.mrX.piece == s.mrX.piece && r.mrX.location == s.mrX.location
  {
    Snapshot(s.setup, RemainingAfterDetective(s, m.Mover()), s.log,
             Rewarded(s.mrX, s.detectives, m.Mover(), m.Tickets()),
             MoveDetective(s.detectives, m.Mover(), m.Tickets(), m.FinalDestination()))
  }

  /** The successor state `advance` builds, or the reason it fails. */
  function AdvanceSpec(s: Snapshot, m: Move): (r: Result<Snapshot, AdvanceError>)
    ensures r == Failure(IllegalMove) <==> m !in AvailableMoves(s)
    ensures r.Success? ==> r.value.setup == s.setup
  {
    if m !in AvailableMoves(s) then Failure(IllegalMove)
    else if m.Mover() == MrX then MrXAdvance(s, m)
    else Success(DetectiveAdvance(s, m))
  }

  /**
   * The receiver's own `mrX` after `advance`: the successor's MrX once the move
   * is legal (for a MrX move even when logging then fails), unchanged otherwise.
   */
  function ReceiverMrX(s: Snapshot, m: Move): (r: Player)
    ensures r.piece == s.mrX.piece
    ensures m !in AvailableMoves(s) ==> r == s.mrX
  {
    if m !in AvailableMoves(s) then s.mrX
    else if m.Mover() == MrX then s.mrX.Use(m.Tickets()).At(m.FinalDestination())
    else Rewarded(s.mrX, s.detectives, m.Mover(), m.Tickets())
  }

  /** The number of detectives of the list whose piece is `p`. */
  function Matches(detectives: seq<Player>, p: Piece): nat
    decreases |detectives|
  {
    if detectives == [] then 0
    else Matches(detectives[..|detectives| - 1], p) + (if detectives[|detectives| - 1].piece == p then 1 else 0)
  }

  /** With distinct pieces, a piece matches once if it is in the list and never otherwise. */
  lemma {:induction false} MatchesDistinct(detectives: seq<Player>, p: Piece)
    requires forall i, j :: 0 <= i < j < |detectives| ==> detectives[i].piece != detectives[j].piece
    ensures Matches(detectives, p) == (if p in PiecesOf(detectives) then 1 else 0)
    decreases |detectives|
  {
    if detectives != [] {
      var n := |detectives| - 1;
      var init := detectives[..n];
      MatchesDistinct(init, p);
      PiecesOfPrefix(detectives, n);
      assert detectives[..n + 1] == detectives;
      if detectives[n].piece == p {
        forall i | 0 <= i < |init|
          ensures init[i].piece != p
        {
          assert init[i] == detectives[i];
        }
      }
    }
  }

  /** Rewarding MrX changes neither his piece nor his location. */
  lemma {:induction false} RewardedKeeps(mrX: Player, detectives: seq<Player>, mover: Piece, ts: seq<Ticket>)
    ensures Rewarded(mrX, detectives, mover, ts).piece == mrX.piece
    ensures Rewarded(mrX, detectives, mover, ts).location == mrX.location
    decreases |detectives|
  {
    if detectives != [] {
      RewardedKeeps(mrX, detectives[..|detectives| - 1], mover, ts);
    }
  }

  /** The number of tickets handed over in all: `|ts|` for each detective whose piece is `mover`. */
  function HandedOver(detectives: seq<Player>, mover: Piece, ts: seq<Ticket>): nat
    decreases |detectives|
  {
    if detectives == [] then 0
    else HandedOver(detectives[..|detectives| - 1], mover, ts)
         + (if detectives[|detectives| - 1].piece == mover then |ts| else 0)
  }

  /** MrX's total grows by the number of tickets handed over. */
  lemma {:induction false} RewardedTotal(mrX: Player, detectives: seq<Player>, mover: Piece, ts: seq<Ticket>)
    ensures Total(Rewarded(mrX, detectives, mover, ts).tickets) == Total(mrX.tickets) + HandedOver(detectives, mover, ts)
    decreases |detectives|
  {
    if detectives != [] {
      var before := Rewarded(mrX, detectives[..|detectives| - 1], mover, ts);
      RewardedTotal(mrX, detectives[..|detectives| - 1], mover, ts);
      ReceiveTotal(before.tickets, ts);
    }
  }

  /** MrX is rewarded exactly once when exactly one detective matches, and not at all when none does. */
  lemma {:induction false} RewardedOnce(mrX: Player, detectives: seq<Player>, mover: Piece, ts: seq<Ticket>)
    ensures Matches(detectives, mover) == 0 ==> Rewarded(mrX, detectives, mover, ts) == mrX
    ensures Matches(detectives, mover) == 1 ==> Rewarded(mrX, detectives, mover, ts) == mrX.Give(ts)
    decreases |detectives|
  {
    if detectives != [] {
      RewardedOnce(mrX, detectives[..|detectives| - 1], mover, ts);
    }
  }

  /** The tickets held by all of `players` together. */
  function SumTotals(players: seq<Player>): int
    decreases |players|
  {
    if players == [] then 0
    else SumTotals(players[..|players| - 1]) + Total(players[|players| - 1].tickets)
  }

  /** Moving a detective takes from the detectives exactly the tickets handed over. */
  lemma {:induction false} MoveDetectiveTotals(detectives: seq<Player>, mover: Piece, ts: seq<Ticket>, destination: int)
    ensures SumTotals(MoveDetective(detectives, mover, ts, destination))
            == SumTotals(detectives) - HandedOver(detectives, mover, ts)
    decreases |detectives|
  {
    if detectives != [] {
      var n := |detectives| - 1;
      var init := detectives[..n];
      MoveDetectiveTotals(init, mover, ts, destination);
      var moved := MoveDetective(detectives, mover, ts, destination);
      assert moved[..n] == MoveDetective(init, mover, ts, destination);
      SpendTotal(detectives[n].tickets, ts);
    }
  }

  /** Moving a detective keeps every detective's piece in place. */
  lemma MoveDetectivePieces(detectives: seq<Player>, mover: Piece, ts: seq<Ticket>, destination: int)
    ensures PiecesOf(MoveDetective(detectives, mover, ts, destination)) == PiecesOf(detectives)
  {
    var moved := MoveDetective(detectives, mover, ts, destination);
    forall p | p in PiecesOf(detectives)
      ensures p in PiecesOf(moved)
    {
      var i :| 0 <= i < |detectives| && detectives[i].piece == p;
      assert moved[i].piece == p;
    }
  }

  /** `advance` refuses exactly the moves that are not available. */
  lemma AdvanceIllegalIff(s: Snapshot, m: Move)
    ensures AdvanceSpec(s, m) == Failure(IllegalMove) <==> m !in AvailableMoves(s)
  {
  }

  /** Neither leg of an available double move uses a DOUBLE ticket, and each leg is a single move. */
  lemma DoubleLegTickets(s: Snapshot, m: Move)
    requires Wellformed(s) && m in AvailableMoves(s) && m.OfDouble?
    ensures m.Mover() == MrX && m.double.ticket1 != Double && m.double.ticket2 != Double
    ensures SingleMove(MrX, s.mrX.location, m.double.ticket1, m.double.destination1)
              in SingleMoves(s.setup, s.detectives, s.mrX, s.mrX.location)
    ensures SingleMove(MrX, m.double.destination1, m.double.ticket2, m.double.destination2)
              in SingleMoves(s.setup, s.detectives, s.mrX, m.double.destination1)
  {
    AvailableMoveMover(s, m);
    WellformedFacts(s);
    var dm := m.double;
    DoubleMovesIff(s.setup, s.detectives, s.mrX, s.mrX.location, dm);
    SingleMovesShape(s.setup, s.detectives, s.mrX, s.mrX.location,
                     SingleMove(MrX, s.mrX.location, dm.ticket1, dm.destination1));
    SingleMovesShape(s.setup, s.detectives, s.mrX, dm.destination1,
                     SingleMove(MrX, dm.destination1, dm.ticket2, dm.destination2));
  }

  /**
   * A legal MrX move in a game reached by play: MrX is to move, the log has room
   * for at least one entry, and the move logs one ticket per leg.
   */
  lemma LegalMrXMove(s: Snapshot, m: Move)
    requires Wellformed(s) && TurnInvariant(s)
    requires m in AvailableMoves(s) && m.Mover() == MrX
    ensures s.remaining == {MrX} && s.mrX.piece == MrX && |s.log| < |s.setup.rounds|
    ensures m.OfSingle? ==> NonDouble(m.Tickets()) == [m.single.ticket]
    ensures m.OfDouble? ==> NonDouble(m.Tickets()) == [m.double.ticket1, m.double.ticket2]
  {
    WellformedFacts(s);
    AvailableMoveMover(s, m);
    assert !Escaped(s);
    var ts := m.Tickets();
    if m.OfSingle? {
      SingleMovesShape(s.setup, s.detectives, s.mrX, s.mrX.location, m.single);
      assert NonDouble(ts) == [m.single.ticket] + NonDouble([]);
    } else {
      DoubleLegTickets(s, m);
      assert ts[1..][1..] == [m.double.ticket2];
      assert NonDouble(ts[1..][1..]) == [m.double.ticket2] + NonDouble([]);
      assert NonDouble(ts[1..]) == [m.double.ticket1] + NonDouble(ts[1..][1..]);
    }
  }

  /** The log after a move with one ticket to log, when a round is left for it. */
  lemma RecordOne(rounds: seq<bool>, log: seq<LogEntry>, ts: seq<Ticket>, t: Ticket, location: int)
    requires |log| < |rounds| && NonDouble(ts) == [t]
    ensures RecordTickets(rounds, log, ts, location) == Some(log + [LogEntryFor(rounds[|log|], t, location)])
  {
    RecordTicketsSpec(rounds, log, ts, location);
    var r := RecordTickets(rounds, log, ts, location).value;
    assert r[|log| + 0] == LogEntryFor(rounds[|log| + 0], NonDouble(ts)[0], location);
    assert r == r[..|log|] + [r[|log|]];
  }

  /** The log after a move with two tickets to log: it fails when only one round is left. */
  lemma RecordTwo(rounds: seq<bool>, log: seq<LogEntry>, ts: seq<Ticket>, t1: Ticket, t2: Ticket, location: int)
    requires |log| < |rounds| && NonDouble(ts) == [t1, t2]
    ensures RecordTickets(rounds, log, ts, location).None? <==> |log| + 1 == |rounds|
    ensures RecordTickets(rounds, log, ts, location).Some? ==>
              && |log| + 2 <= |rounds|
              && RecordTickets(rounds, log, ts, location).value
                 == log + [LogEntryFor(rounds[|log|], t1, location), LogEntryFor(rounds[|log| + 1], t2, location)]
  {
    RecordTicketsSpec(rounds, log, ts, location);
    if RecordTickets(rounds, log, ts, location).Some? {
      var r := RecordTickets(rounds, log, ts, location).value;
      assert r[|log| + 0] == LogEntryFor(rounds[|log| + 0], NonDouble(ts)[0], location);
      assert r[|log| + 1] == LogEntryFor(rounds[|log| + 1], NonDouble(ts)[1], location);
      assert r == r[..|log|] + [r[|log|], r[|log| + 1]];
    }
  }

  /**
   * The entries a MrX move logs, once his turn has room for one entry: a single
   * move always succeeds; a double move fails exactly when one round is left.
   * Every revealed entry carries the final destination.
   */
  lemma RecordMove(s: Snapshot, m: Move)
    requires |s.log| < |s.setup.rounds|
    requires m.OfSingle? ==> NonDouble(m.Tickets()) == [m.single.ticket]
    requires m.OfDouble? ==> NonDouble(m.Tickets()) == [m.double.ticket1, m.double.ticket2]
    ensures var r := RecordTickets(s.setup.rounds, s.log, m.Tickets(), m.FinalDestination());
            && (m.OfSingle? ==>
                  r == Some(s.log + [LogEntryFor(s.setup.rounds[|s.log|], m.single.ticket, m.single.destination)]))
            && (m.OfDouble? ==> (r.None? <==> |s.log| + 1 == |s.setup.rounds|))
            && (m.OfDouble? && r.Some? ==>
                  && |s.log| + 2 <= |s.setup.rounds|
                  && r.value == s.log + [LogEntryFor(s.setup.rounds[|s.log|], m.double.ticket1, m.double.destination2),
                                         LogEntryFor(s.setup.rounds[|s.log| + 1], m.double.ticket2, m.double.destination2)])
  {
    if m.OfSingle? {
      RecordOne(s.setup.rounds, s.log, m.Tickets(), m.single.ticket, m.single.destination);
    } else {
      RecordTwo(s.setup.rounds, s.log, m.Tickets(), m.double.ticket1, m.double.ticket2, m.double.destination2);
    }
  }

  /**
   * A MrX move's successor when MrX alone was to move: the logging decides
   * between success and the out-of-bounds failure.
   */
  lemma MrXAdvanceState(s: Snapshot, m: Move)
    requires s.remaining == {MrX} && m.Mover() == MrX && s.mrX.piece == MrX
    ensures MrXAdvance(s, m).Success? <==> RecordTickets(s.setup.rounds, s.log, m.Tickets(), m.FinalDestination()).Some?
    ensures MrXAdvance(s, m).Failure? ==> MrXAdvance(s, m).error == RoundOutOfBounds
    ensures MrXAdvance(s, m).Success? ==>
              var n := MrXAdvance(s, m).value;
              && n.log == RecordTickets(s.setup.rounds, s.log, m.Tickets(), m.FinalDestination()).value
              && n.setup == s.setup && n.detectives == s.detectives
              && n.mrX == s.mrX.Use(m.Tickets()).At(m.FinalDestination())
              && n.remaining == PiecesOf(s.detectives)
  {
    var mrX := s.mrX.Use(m.Tickets()).At(m.FinalDestination());
    assert mrX.location == m.FinalDestination() && mrX.piece == MrX;
  }

  /**
   * In a game reached by play, the log lookup fails exactly for a legal double
   * move made when one round is left: the second leg has no round.
   */
  lemma RoundOutOfBoundsIff(s: Snapshot, m: Move)
    requires Wellformed(s) && TurnInvariant(s)
    ensures AdvanceSpec(s, m) == Failure(RoundOutOfBounds)
            <==> m in AvailableMoves(s) && m.OfDouble? && |s.log| + 1 == |s.setup.rounds|
  {
    if m in AvailableMoves(s) {
      AvailableMoveMover(s, m);
      if m.Mover() == MrX {
        LegalMrXMove(s, m);
        MrXAdvanceState(s, m);
        RecordMove(s, m);
      }
    }
  }

  /**
   * A legal MrX move spends its tickets and moves MrX to its final destination,
   * hands the turn to exactly the detectives, keeps the detectives, and appends
   * one entry per leg; a revealed entry shows the final destination, for the
   * first leg of a double move too.
   */
  lemma MrXMoveEffect(s: Snapshot, m: Move)
    requires Wellformed(s) && TurnInvariant(s)
    requires m in AvailableMoves(s) && m.Mover() == MrX
    ensures |s.log| < |s.setup.rounds|
    ensures m.OfSingle? ==> AdvanceSpec(s, m).Success?
    ensures AdvanceSpec(s, m).Success? && m.OfDouble? ==> |s.log| + 2 <= |s.setup.rounds|
    ensures AdvanceSpec(s, m).Success? ==>
              var n := AdvanceSpec(s, m).value;
              && n.setup == s.setup && n.detectives == s.detectives
              && n.mrX == s.mrX.Use(m.Tickets()).At(m.FinalDestination())
              && Total(n.mrX.tickets) == Total(s.mrX.tickets) - |m.Tickets()|
              && n.remaining == PiecesOf(s.detectives)
              && (m.OfSingle? ==>
                    n.log == s.log + [LogEntryFor(s.setup.rounds[|s.log|], m.single.ticket, m.single.destination)])
              && (m.OfDouble? ==>
                    n.log == s.log + [LogEntryFor(s.setup.rounds[|s.log|], m.double.ticket1, m.double.destination2),
                                      LogEntryFor(s.setup.rounds[|s.log| + 1], m.double.ticket2, m.double.destination2)])
  {
    LegalMrXMove(s, m);
    MrXAdvanceState(s, m);
    RecordMove(s, m);
    SpendTotal(s.mrX.tickets, m.Tickets());
    assert AdvanceSpec(s, m) == MrXAdvance(s, m);
  }

  /**
   * The successor after a detective move, in a well-formed state where the mover
   * is one of the detectives and MrX is not to move.
   */
  lemma DetectiveAdvanceEffect(s: Snapshot, m: Move)
    requires Wellformed(s) && m.OfSingle? && m.Mover() in PiecesOf(s.detectives) && MrX !in s.remaining
    ensures var n := DetectiveAdvance(s, m);
            && n.setup == s.setup && n.log == s.log
            && n.mrX == s.mrX.Give([m.single.ticket])
            && |n.detectives| == |s.detectives|
            && (forall i :: 0 <= i < |s.detectives| ==>
                  n.detectives[i] == (if s.detectives[i].piece == m.Mover()
                                      then s.detectives[i].Use([m.single.ticket]).At(m.single.destination)
                                      else s.detectives[i]))
            && m.Mover() !in n.remaining
            && (n.remaining == {MrX} || n.remaining == s.remaining - {m.Mover()})
            && (n.remaining == {MrX} <==>
                  forall i :: 0 <= i < |s.detectives| && s.detectives[i].piece in s.remaining - {m.Mover()}
                              ==> SingleMoves(s.setup, s.detectives, s.detectives[i], s.detectives[i].location) == {})
  {
    WellformedFacts(s);
    MatchesDistinct(s.detectives, m.Mover());
    RewardedOnce(s.mrX, s.detectives, m.Mover(), m.Tickets());
    var rest := s.remaining - {m.Mover()};
    var restMoves := UnionSingles(s.setup, s.detectives, InRemaining(s.detectives, rest));
    if restMoves != {} {
      var sm :| sm in restMoves;
      RemainingSinglesIff(s.setup, s.detectives, rest, sm);
    }
    forall j | 0 <= j < |s.detectives| && s.detectives[j].piece in rest
      ensures restMoves == {} ==> SingleMoves(s.setup, s.detectives, s.detectives[j], s.detectives[j].location) == {}
    {
      var own := SingleMoves(s.setup, s.detectives, s.detectives[j], s.detectives[j].location);
      if own != {} {
        var sm :| sm in own;
        RemainingSinglesIff(s.setup, s.detectives, rest, sm);
      }
    }
  }

  /**
   * A legal detective move changes only that detective, which spends its ticket
   * and moves; MrX receives the ticket; the log is kept; the mover leaves
   * `remaining`, which falls back to MrX alone exactly when none of the
   * detectives left to move has a single move (judged before the move).
   */
  lemma DetectiveMoveEffect(s: Snapshot, m: Move)
    requires Wellformed(s)
    requires m in AvailableMoves(s) && m.Mover() != MrX
    ensures AdvanceSpec(s, m) == Success(DetectiveAdvance(s, m))
    ensures var n := DetectiveAdvance(s, m);
            && m.OfSingle?
            && n.setup == s.setup && n.log == s.log
            && n.mrX == s.mrX.Give([m.single.ticket])
            && |n.detectives| == |s.detectives|
            && (forall i :: 0 <= i < |s.detectives| ==>
                  n.detectives[i] == (if s.detectives[i].piece == m.Mover()
                                      then s.detectives[i].Use([m.single.ticket]).At(m.single.destination)
                                      else s.detectives[i]))
            && m.Mover() !in n.remaining
            && (n.remaining == {MrX} || n.remaining == s.remaining - {m.Mover()})
            && (n.remaining == {MrX} <==>
                  forall i :: 0 <= i < |s.detectives| && s.detectives[i].piece in s.remaining - {m.Mover()}
                              ==> SingleMoves(s.setup, s.detectives, s.detectives[i], s.detectives[i].location) == {})
  {
    AvailableMoveMover(s, m);
    var i :| 0 <= i < |s.detectives| && s.detectives[i].piece == m.Mover();
    assert m.Mover() in PiecesOf(s.detectives);
    DetectiveAdvanceEffect(s, m);
  }

  /** A detective's successor passes the constructor's checks when the mover goes to a free node. */
  lemma DetectiveAdvanceValid(s: Snapshot, m: Move)
    requires Wellformed(s) && m.OfSingle? && m.Mover() in PiecesOf(s.detectives) && MrX !in s.remaining
    requires !Occupied(s.detectives, m.single.destination)
    ensures Wellformed(DetectiveAdvance(s, m))
    ensures PiecesOf(DetectiveAdvance(s, m).detectives) == PiecesOf(s.detectives)
  {
    WellformedFacts(s);
    DetectiveAdvanceEffect(s, m);
    var n := DetectiveAdvance(s, m);
    var ds := s.detectives;
    var nd := n.detectives;
    var t := m.single.ticket;
    forall j, k | 0 <= j < k < |nd|
      ensures nd[j].piece != nd[k].piece && nd[j].location != nd[k].location
    {
      if ds[j].piece == m.Mover() || ds[k].piece == m.Mover() {
        assert !Occupied(ds, m.single.destination);
      }
    }
    forall j | 0 <= j < |nd|
      ensures nd[j].piece.Detective?
      ensures Count(nd[j].tickets, Secret) <= 0 && Count(nd[j].tickets, Double) <= 0
    {
      if ds[j].piece == m.Mover() {
        assert Count(nd[j].tickets, Secret) == Count(ds[j].tickets, Secret) - multiset([t])[Secret];
        assert Count(nd[j].tickets, Double) == Count(ds[j].tickets, Double) - multiset([t])[Double];
      }
    }
    assert DetectivesWellFormed(nd);
    CheckSetupAccepts(n.setup, Some(n.mrX), Some(nd));
    RewardedKeeps(s.mrX, ds, m.Mover(), m.Tickets());
    MoveDetectivePieces(ds, m.Mover(), m.Tickets(), m.FinalDestination());
  }

  /**
   * Every successor passes the constructor's checks again: MrX keeps his piece,
   * and a detective moves to a node no detective occupies and can only lose
   * SECRET and DOUBLE tickets.
   */
  lemma AdvanceKeepsWellformed(s: Snapshot, m: Move)
    requires Wellformed(s) && AdvanceSpec(s, m).Success?
    ensures Wellformed(AdvanceSpec(s, m).value)
  {
    if m.Mover() == MrX {
      MrXAdvanceWellformed(s, m);
    } else {
      WellformedFacts(s);
      AvailableMoveMover(s, m);
      var ds := s.detectives;
      var i :| 0 <= i < |ds| && ds[i].piece == m.Mover()
               && m.single in SingleMoves(s.setup, ds, ds[i], ds[i].location);
      SingleMovesShape(s.setup, ds, ds[i], ds[i].location, m.single);
      assert m.Mover() in PiecesOf(ds);
      DetectiveAdvanceValid(s, m);
    }
  }

  /** MrX's move keeps the players, so its successor passes the checks again. */
  lemma MrXAdvanceWellformed(s: Snapshot, m: Move)
    requires Wellformed(s) && m.Mover() == MrX && MrXAdvance(s, m).Success?
    ensures Wellformed(MrXAdvance(s, m).value)
  {
    WellformedFacts(s);
  }

  /**
   * A game reached by play keeps its turn structure: the log never outgrows the
   * rounds, and either MrX alone is to move or only detectives are.
   */
  lemma AdvanceKeepsTurnInvariant(s: Snapshot, m: Move)
    requires Wellformed(s) && TurnInvariant(s) && AdvanceSpec(s, m).Success?
    ensures TurnInvariant(AdvanceSpec(s, m).value)
  {
    WellformedFacts(s);
    AvailableMoveMover(s, m);
    if m.Mover() == MrX {
      MrXMoveEffect(s, m);
    } else {
      var ds := s.detectives;
      var i :| 0 <= i < |ds| && ds[i].piece == m.Mover()
               && m.single in SingleMoves(s.setup, ds, ds[i], ds[i].location);
      SingleMovesShape(s.setup, ds, ds[i], ds[i].location, m.single);
      assert m.Mover() in PiecesOf(ds);
      DetectiveAdvanceEffect(s, m);
      DetectiveAdvanceValid(s, m);
    }
  }

  /** A MrX move takes its tickets out of play. */
  lemma MrXAdvanceTotals(s: Snapshot, m: Move)
    requires MrXAdvance(s, m).Success?
    ensures Total(MrXAdvance(s, m).value.mrX.tickets) + SumTotals(MrXAdvance(s, m).value.detectives)
            == Total(s.mrX.tickets) + SumTotals(s.detectives) - |m.Tickets()|
  {
    SpendTotal(s.mrX.tickets, m.Tickets());
  }

  /** What the detectives hand over on a detective move, MrX receives. */
  lemma DetectiveAdvanceTotals(s: Snapshot, m: Move)
    ensures Total(DetectiveAdvance(s, m).mrX.tickets) + SumTotals(DetectiveAdvance(s, m).detectives)
            == Total(s.mrX.tickets) + SumTotals(s.detectives)
  {
    RewardedTotal(s.mrX, s.detectives, m.Mover(), m.Tickets());
    MoveDetectiveTotals(s.detectives, m.Mover(), m.Tickets(), m.FinalDestination());
  }

  /**
   * Tickets are conserved by a detective move: what the detectives spend, MrX
   * receives. A MrX move takes exactly its tickets out of play.
   */
  lemma TicketConservation(s: Snapshot, m: Move)
    requires AdvanceSpec(s, m).Success?
    ensures var n := AdvanceSpec(s, m).value;
            m.Mover() == MrX ==> Total(n.mrX.tickets) + SumTotals(n.detectives)
                                 == Total(s.mrX.tickets) + SumTotals(s.detectives) - |m.Tickets()|
    ensures var n := AdvanceSpec(s, m).value;
            m.Mover() != MrX ==> Total(n.mrX.tickets) + SumTotals(n.detectives)
                                 == Total(s.mrX.tickets) + SumTotals(s.detectives)
  {
    if m.Mover() == MrX {
      assert AdvanceSpec(s, m) == MrXAdvance(s, m);
      MrXAdvanceTotals(s, m);
    } else {
      assert AdvanceSpec(s, m) == Success(DetectiveAdvance(s, m));
      DetectiveAdvanceTotals(s, m);
    }
  }
}
