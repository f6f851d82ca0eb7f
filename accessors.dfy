/**
 * The read-only queries of a game state: `getPlayers`, `getDetectiveLocation`
 * and `getPlayerTickets`, as functions of the state's fields.
 */
module Accessors {
  import opened Wrappers
  import opened ScotlandYard
  import opened Validation
  import opened Rules

  /** The pieces of all players: MrX's first, then each detective's. */
  function Players(s: Snapshot): (r: set<Piece>)
    ensures s.mrX.piece in r
    ensures forall i :: 0 <= i < |s.detectives| ==> s.detectives[i].piece in r
    ensures forall p :: p in r ==> p == s.mrX.piece || p in PiecesOf(s.detectives)
  {
    {s.mrX.piece} + PiecesOf(s.detectives)
  }

  /** With pairwise distinct pieces, a list of players has as many pieces as players. */
  lemma {:induction false} PiecesOfDistinct(players: seq<Player>)
    requires forall i, j :: 0 <= i < j < |players| ==> players[i].piece != players[j].piece
    ensures |PiecesOf(players)| == |players|
    decreases |players|
  {
    if players != [] {
      var n := |players| - 1;
      var init := players[..n];
      PiecesOfDistinct(init);
      PiecesOfPrefix(players, n);
      assert players[..n + 1] == players;
      forall i | 0 <= i < |init|
        ensures init[i].piece != players[n].piece
      {
        assert init[i] == players[i];
      }
    }
  }

  /** In a well-formed state every player has its own piece: one for MrX and one per detective. */
  lemma PlayersCount(s: Snapshot)
    requires Wellformed(s)
    ensures |Players(s)| == |s.detectives| + 1
  {
    WellformedFacts(s);
    PiecesOfDistinct(s.detectives);
  }

  /** The location of the first detective whose piece is `Detective(colour)`, if any. */
  function DetectiveLocation(detectives: seq<Player>, colour: Colour): (r: Option<int>)
    ensures r.Some? ==> exists i :: 0 <= i < |detectives| && detectives[i].piece == Detective(colour)
                                    && detectives[i].location == r.value
    decreases |detectives|
  {
    if detectives == [] then None
    else if detectives[0].piece == Detective(colour) then Some(detectives[0].location)
    else DetectiveLocation(detectives[1..], colour)
  }

  /**
   * A location is found exactly for a colour some detective has, and it is the
   * location of the first detective of that colour.
   */
  lemma {:induction false} DetectiveLocationSpec(detectives: seq<Player>, colour: Colour)
    ensures DetectiveLocation(detectives, colour).None? <==> Detective(colour) !in PiecesOf(detectives)
    ensures DetectiveLocation(detectives, colour).Some? ==>
              exists i :: 0 <= i < |detectives| && detectives[i].piece == Detective(colour)
                          && DetectiveLocation(detectives, colour).value == detectives[i].location
                          && forall j :: 0 <= j < i ==> detectives[j].piece != Detective(colour)
    decreases |detectives|
  {
    if detectives != [] {
      var rest := detectives[1..];
      DetectiveLocationSpec(rest, colour);
      if detectives[0].piece != Detective(colour) {
        if DetectiveLocation(rest, colour).Some? {
          var i :| 0 <= i < |rest| && rest[i].piece == Detective(colour)
                   && DetectiveLocation(rest, colour).value == rest[i].location
                   && forall j :: 0 <= j < i ==> rest[j].piece != Detective(colour);
          assert detectives[i + 1] == rest[i];
          forall j | 0 <= j < i + 1
            ensures detectives[j].piece != Detective(colour)
          {
            if j > 0 {
              assert detectives[j] == rest[j - 1];
            }
          }
        }
        if Detective(colour) in PiecesOf(detectives) {
          var i :| 0 <= i < |detectives| && detectives[i].piece == Detective(colour);
          assert rest[i - 1] == detectives[i];
        }
        if Detective(colour) in PiecesOf(rest) {
          var i :| 0 <= i < |rest| && rest[i].piece == Detective(colour);
          assert detectives[i + 1] == rest[i];
        }
      } else {
        assert detectives[0].piece in PiecesOf(detectives);
      }
    }
  }

  /** In a well-formed state the location found is that of the one detective of that colour. */
  lemma DetectiveLocationOf(s: Snapshot, i: int, colour: Colour)
    requires Wellformed(s) && 0 <= i < |s.detectives| && s.detectives[i].piece == Detective(colour)
    ensures DetectiveLocation(s.detectives, colour) == Some(s.detectives[i].location)
  {
    WellformedFacts(s);
    assert Detective(colour) in PiecesOf(s.detectives);
    DetectiveLocationSpec(s.detectives, colour);
  }

  /** The tickets of the first detective whose piece is `piece`, if any. */
  function DetectiveTickets(detectives: seq<Player>, piece: Piece): Option<TicketMap>
    decreases |detectives|
  {
    if detectives == [] then None
    else if detectives[0].piece == piece then Some(detectives[0].tickets)
    else DetectiveTickets(detectives[1..], piece)
  }

  /** The tickets of the player whose piece is `piece`; nothing for a piece not in the game. */
  function PlayerTickets(s: Snapshot, piece: Piece): (r: Option<TicketMap>)
    ensures r.Some? ==> piece in Players(s)
  {
    if piece !in Players(s) then None
    else if piece == MrX then Some(s.mrX.tickets)
    else DetectiveTickets(s.detectives, piece)
  }

  /** The first detective with `piece` is found when a detective has that piece. */
  lemma {:induction false} DetectiveTicketsFound(detectives: seq<Player>, i: int)
    requires 0 <= i < |detectives|
    requires forall j :: 0 <= j < i ==> detectives[j].piece != detectives[i].piece
    ensures DetectiveTickets(detectives, detectives[i].piece) == Some(detectives[i].tickets)
    decreases i
  {
    if i > 0 {
      var rest := detectives[1..];
      assert detectives[0].piece != detectives[i].piece;
      assert rest[i - 1] == detectives[i];
      forall j | 0 <= j < i - 1
        ensures rest[j].piece != rest[i - 1].piece
      {
        assert rest[j] == detectives[j + 1];
      }
      DetectiveTicketsFound(rest, i - 1);
    }
  }

  /**
   * In a well-formed state a query yields nothing exactly for a piece not in
   * the game; MrX's query yields his tickets, and a detective's its own.
   */
  lemma PlayerTicketsSpec(s: Snapshot, piece: Piece)
    requires Wellformed(s)
    ensures PlayerTickets(s, piece).None? <==> piece !in Players(s)
    ensures piece == MrX ==> PlayerTickets(s, piece) == Some(s.mrX.tickets)
    ensures forall i :: 0 <= i < |s.detectives| && s.detectives[i].piece == piece ==>
              PlayerTickets(s, piece) == Some(s.detectives[i].tickets)
  {
    WellformedFacts(s);
    if piece in Players(s) && piece != MrX {
      var i :| 0 <= i < |s.detectives| && s.detectives[i].piece == piece;
      DetectiveTicketsFound(s.detectives, i);
    }
    forall i | 0 <= i < |s.detectives| && s.detectives[i].piece == piece
      ensures PlayerTickets(s, piece) == Some(s.detectives[i].tickets)
    {
      DetectiveTicketsFound(s.detectives, i);
    }
  }
}
